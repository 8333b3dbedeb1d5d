/**
 * What the pid events do to the address spaces (TraceReader::HandlePidEvent), and what every run of
 * them keeps.
 */
module AddressEvents {
  import opened Words
  import opened Searching
  import opened AddressMaps
  import opened AddressChanges

  /**
   * What loading the symbols of a file yields: those of an ELF file, one of them at address 0 or not; those
   * the dex list has for it; or one unknown symbol.
   */
  datatype Loaded = Elf(symbols: seq<uint32>, zeroFound: bool) | Dex(symbols: seq<uint32>) | Unreadable {
    function Table(): seq<uint32> { if Unreadable? then [0] else symbols }

    /** Where a file mapped at vstart is taken to start. */
    function Start(vstart: uint32): uint32 {
      if Unreadable? then 0
      else if Elf? && vstart == 0 && !zeroFound && |symbols| > 1 then symbols[1]
      else vstart
    }
  }

  datatype PidEvent =
    | Fork(pid: nat)
    | Clone(pid: nat)
    | Switch(pid: nat)
    | Munmap(vstart: uint32, vend: uint32)
    | Mmap(path: string, vstart: uint32, vend: uint32, offset: uint32, loaded: Loaded)
    | Exec
    | Name(pid: nat)
    | Other

  const NUM_PIDS := 32768

  const BOOTLOADER := Mapping("(bootloader)", 0, 0x14, 0, 0, true, false, false, 0, [0, 0x14])
  const VECTORS := Mapping("(exception vectors)", 0xffff0000, 0xffff0500, 0xffff0000, 0, true, false, false, 1, [0, 0x500])
  const ATOMIC_OPS :=
    Mapping("(atomic ops)", 0xffff0f80, 0xffff1000, 0xffff0f80, 0, true, false, false, 2, [0, 0x20, 0x40, 0x80])

  /** Process 0 with the predefined regions, each of them used once. */
  const FIRST := Spaces(
    [BOOTLOADER, VECTORS, ATOMIC_OPS], [0, 0, 0], [false, false, false],
    [Process(0, 0, false, false, false)], [[0, 1, 2]], map[0 := 0], 0,
    map["(bootloader)" := 0, "(exception vectors)" := 1, "(atomic ops)" := 2])

  lemma FirstSound()
    ensures Sound(FIRST) && Space(FIRST, 0) == FIRST.maps
  {
    var s := FIRST;
    forall id: RegionId
      ensures Total(s.arrays, id) == Weight(s, id)
    {
      TotalMore([], [0, 1, 2], id);
      assert [] + [[0, 1, 2]] == s.arrays;
      CountThree(id);
    }
    assert Starts(s.maps, s.arrays[0]) == [0, 0xffff0000, 0xffff0f80];
  }

  lemma CountThree(id: RegionId)
    ensures Count([0, 1, 2], id) == if id < 3 then 1 else 0
  {
    var a: seq<RegionId> := [0, 1, 2];
    var b := a[1..];
    var c := b[1..];
    assert c[1..] == [];
    assert Count(c, id) == (if c[0] == id then 1 else 0) + Count(c[1..], id);
    assert Count(b, id) == (if b[0] == id then 1 else 0) + Count(c, id);
    assert Count(a, id) == (if a[0] == id then 1 else 0) + Count(b, id);
  }

  // --- New process states --------------------------------------------------------------------------

  /** fork: the child gets the parent's array and a further use of each region in it. */
  function Forked(s: Spaces, pid: nat): Spaces {
    var child, a := |s.procs|, ArrayOf(s, Manager(s, s.current));
    s.(procs := s.procs + [Process(pid, child, false, false, false)], arrays := s.arrays + [a],
       refs := Retained(s.refs, a), processes := s.processes[pid := child])
  }

  /** clone: the child uses the array of the parent's manager. */
  function Cloned(s: Spaces, pid: nat): Spaces {
    var child := |s.procs|;
    s.(procs := s.procs + [Process(pid, Manager(s, s.current), true, false, false)], arrays := s.arrays + [[]],
       processes := s.processes[pid := child])
  }

  /** A process seen for the first time has an empty address space. */
  function Blank(s: Spaces, pid: nat): Spaces {
    s.(procs := s.procs + [Process(pid, |s.procs|, false, false, false)], arrays := s.arrays + [[]],
       processes := s.processes[pid := |s.procs|])
  }

  /** The process of a pid, created with the kernel's regions if it is new. */
  function Known(s: Spaces, pid: nat): Spaces {
    if pid in s.processes then s else CopyKernelRegion(Blank(s, pid), |s.procs|)
  }

  /** Every address space other than m's is what it was. */
  ghost predicate Undisturbed(s: Spaces, t: Spaces, m: nat) {
    |s.procs| <= |t.procs| &&
    forall q :: 0 <= q < |s.procs| && Manager(s, q) != m ==> SameSpace(s, t, q)
  }

  /** Views and managers do not depend on process states added at the end. */
  lemma ProcessAdded(s: Spaces, p: Process, a: seq<RegionId>, refs: seq<int>, pid: nat)
    requires Sound(s)
    ensures var t := s.(procs := s.procs + [p], arrays := s.arrays + [a], refs := refs, processes := s.processes[pid := |s.procs|]);
            forall q :: 0 <= q < |s.procs| ==> SameSpace(s, t, q)
  {
    assert forall q :: 0 <= q < |s.procs| ==> s.procs[q].manager < |s.arrays|;
  }

  lemma TotalsAdded(s: Spaces, a: seq<RegionId>, refs: seq<int>)
    requires Sound(s) && |refs| == |s.refs|
    requires forall id :: 0 <= id < |refs| ==> refs[id] == s.refs[id] + Count(a, id)
    requires forall id: RegionId :: Count(a, id) > 0 ==> Total(s.arrays, id) > 0
    ensures forall id: RegionId :: Total(s.arrays + [a], id) == Weight(s.(refs := refs), id)
  {
    forall id: RegionId
      ensures Total(s.arrays + [a], id) == Weight(s.(refs := refs), id)
    {
      assert Total(s.arrays, id) == Weight(s, id);
      TotalMore(s.arrays, a, id);
    }
  }

  /** A child of fork sees what its parent sees; nobody's view changes. */
  lemma ForkSound(s: Spaces, pid: nat)
    requires Sound(s)
    ensures var t := Forked(s, pid);
            Sound(t) && Space(t, |s.procs|) == Space(s, s.current) &&
            forall q :: 0 <= q < |s.procs| ==> SameSpace(s, t, q)
  {
    var t, m := Forked(s, pid), Manager(s, s.current);
    var a := s.arrays[m];
    RetainedAt(s.refs, a);
    forall id: RegionId
      ensures Count(a, id) <= Total(s.arrays, id)
    {
      TotalOf(s.arrays, m, id);
    }
    TotalsAdded(s, a, t.refs);
    assert forall id: RegionId :: Weight(t, id) == Weight(s.(refs := t.refs), id);
    ProcessAdded(s, Process(pid, |s.procs|, false, false, false), a, t.refs, pid);
  }

  /** So does a child of clone, now and for as long as neither of them execs. */
  lemma CloneSound(s: Spaces, pid: nat)
    requires Sound(s)
    ensures var t := Cloned(s, pid);
            Sound(t) && Manager(t, |s.procs|) == Manager(s, s.current) && Space(t, |s.procs|) == Space(s, s.current) &&
            forall q :: 0 <= q < |s.procs| ==> SameSpace(s, t, q)
  {
    TotalsAdded(s, [], s.refs);
    assert forall id: RegionId :: Weight(Cloned(s, pid), id) == Weight(s, id);
    ProcessAdded(s, Process(pid, Manager(s, s.current), true, false, false), [], s.refs, pid);
  }

  lemma BlankSound(s: Spaces, pid: nat)
    requires Sound(s)
    ensures var t := Blank(s, pid);
            Sound(t) && forall q :: 0 <= q < |s.procs| ==> SameSpace(s, t, q)
  {
    TotalsAdded(s, [], s.refs);
    assert forall id: RegionId :: Weight(Blank(s, pid), id) == Weight(s, id);
    ProcessAdded(s, Process(pid, |s.procs|, false, false, false), [], s.refs, pid);
  }

  lemma KnownSound(s: Spaces, pid: nat)
    requires Sound(s)
    ensures var t := Known(s, pid);
            Sound(t) && pid in t.processes && t.current == s.current && |s.procs| <= |t.procs| &&
            forall q :: 0 <= q < |s.procs| ==> SameSpace(s, t, q)
  {
    if pid !in s.processes {
      BlankSound(s, pid);
      var b := Blank(s, pid);
      CopyKernelSound(b, |s.procs|);
      assert forall q :: 0 <= q < |s.procs| ==> b.procs[q].manager < |s.procs|;
    }
  }

  // --- mmap ------------------------------------------------------------------------------------------

  function Hit(s: Spaces, e: PidEvent): bool
    requires e.Mmap?
  {
    e.path in s.hash && s.hash[e.path] < |s.maps| &&
    var r := s.maps[s.hash[e.path]];
    r.vstart == e.vstart && r.vend == e.vend && r.offset == e.offset
  }

  /** The region made when the file is not mapped there already. The region number names a new symbol array. */
  function Fresh(s: Spaces, e: PidEvent): Mapping
    requires e.Mmap?
  {
    var known := e.path in s.hash && s.hash[e.path] < |s.maps|;
    var table := if known then s.maps[s.hash[e.path]].table else |s.maps|;
    var symbols := if known then s.maps[s.hash[e.path]].symbols else e.loaded.Table();
    Mapping(
      e.path, if known then e.vstart else e.loaded.Start(e.vstart), e.vend,
      if |symbols| > 2 && symbols[1] < e.vstart then e.vstart else 0, e.offset,
      false, s.current < |s.procs| && s.procs[s.current].hasFirstMmap, known, table, symbols)
  }

  function MarkMmap(s: Spaces): Spaces {
    if s.current < |s.procs| then s.(procs := s.procs[s.current := s.procs[s.current].(hasFirstMmap := true)]) else s
  }

  function Mapped(s: Spaces, e: PidEvent): Spaces
    requires e.Mmap?
  {
    if Hit(s, e) then Share(s, s.current, s.hash[e.path])
    else
      var t := MarkMmap(AddNew(s, s.current, Fresh(s, e)));
      if e.path in s.hash then t else t.(hash := t.hash[e.path := |s.maps|])
  }

  lemma ShareUndisturbed(s: Spaces, p: nat, id: RegionId)
    requires Sound(s) && p < |s.procs|
    ensures Undisturbed(s, Share(s, p, id), Manager(s, p))
  {}

  lemma AddNewUndisturbed(s: Spaces, p: nat, r: Mapping)
    requires Sound(s) && p < |s.procs|
    ensures Undisturbed(s, AddNew(s, p, r), Manager(s, p))
  {
    forall q | 0 <= q < |s.arrays|
      ensures View(s.maps + [r], s.arrays[q]) == View(s.maps, s.arrays[q])
    {
      MapsGrown(s, q, r);
    }
  }

  lemma MarkSound(s: Spaces, hash: map<string, RegionId>)
    requires Sound(s) && forall path <- hash :: hash[path] < |s.maps|
    ensures var t := MarkMmap(s).(hash := hash);
            Sound(t) && |t.procs| == |s.procs| &&
            forall q: nat :: SameSpace(s, t, q)
  {}

  /** If the path is in the hash table at all, its region has not been deleted. */
  predicate FindsLive(s: Spaces, e: PidEvent)
    requires e.Mmap?
  {
    e.path in s.hash ==> s.hash[e.path] < |s.freed| && !s.freed[s.hash[e.path]]
  }

  lemma MappedFresh(s: Spaces, r: Mapping, hash: map<string, RegionId>)
    requires Sound(s) && forall path <- hash :: hash[path] <= |s.maps|
    ensures var t := MarkMmap(AddNew(s, s.current, r)).(hash := hash);
            Sound(t) && Undisturbed(s, t, Manager(s, s.current))
  {
    AddNewSound(s, s.current, r);
    AddNewUndisturbed(s, s.current, r);
    MarkSound(AddNew(s, s.current, r), hash);
  }

  lemma MappedSound(s: Spaces, e: PidEvent)
    requires Sound(s) && e.Mmap? && FindsLive(s, e)
    ensures Sound(Mapped(s, e)) && Undisturbed(s, Mapped(s, e), Manager(s, s.current))
  {
    if Hit(s, e) {
      ShareSound(s, s.current, s.hash[e.path]);
      ShareUndisturbed(s, s.current, s.hash[e.path]);
    } else {
      MappedFresh(s, Fresh(s, e), if e.path in s.hash then s.hash else s.hash[e.path := |s.maps|]);
    }
  }

  /** ReadKernelSymbols: the kernel's own region goes to process 0. */
  function KernelLoaded(s: Spaces, r: Mapping): Spaces
    requires 0 in s.processes
  {
    MarkKernel(AddNew(s, s.processes[0], r), s.processes[0]).(hash := s.hash[r.path := |s.maps|])
  }

  lemma KernelLoadedSound(s: Spaces, r: Mapping)
    requires Sound(s)
    ensures Sound(KernelLoaded(s, r))
  {
    AddNewSound(s, s.processes[0], r);
    var t := AddNew(s, s.processes[0], r);
    MarkKernelSound(t, s.processes[0]);
    assert forall id: RegionId :: Weight(KernelLoaded(s, r), id) == Weight(t, id);
  }

  /** mmap gives the current address space one more region: the mapped file's, old or new. */
  lemma MappedAdds(s: Spaces, e: PidEvent)
    requires Sound(s) && e.Mmap?
    ensures var t, m := Mapped(s, e), Manager(s, s.current);
            var id := if Hit(s, e) then s.hash[e.path] else |s.maps|;
            id < |t.maps| && |t.arrays| == |s.arrays| && t.arrays == s.arrays[m := t.arrays[m]] &&
            t.maps[id].path == (if Hit(s, e) then s.maps[id].path else e.path) &&
            forall x :: Count(t.arrays[m], x) == Count(s.arrays[m], x) + if x == id then 1 else 0
  {
    var m := Manager(s, s.current);
    var id: RegionId := if Hit(s, e) then s.hash[e.path] else |s.maps|;
    var maps := if Hit(s, e) then s.maps else s.maps + [Fresh(s, e)];
    forall x
      ensures Count(Resorted(maps, s.arrays[m] + [id]), x) == Count(s.arrays[m], x) + if x == id then 1 else 0
    {
      ResortedCount(maps, s.arrays[m] + [id], x);
      CountAppend(s.arrays[m], [id], x);
    }
  }

  /** A hit on a deleted region puts it in an array again, where its count says it is not. */
  lemma HitOnDeleted(s: Spaces, e: PidEvent)
    requires Sound(s) && e.Mmap? && Hit(s, e) && s.freed[s.hash[e.path]]
    ensures !Sound(Mapped(s, e))
  {
    var id, t, m := s.hash[e.path], Mapped(s, e), Manager(s, s.current);
    MappedAdds(s, e);
    TotalOf(t.arrays, m, id);
    assert Weight(t, id) == 0 && Total(t.arrays, id) > 0;
  }

  /** The memory of a deleted region may happen to hold anything: here, just what the event looks for. */
  lemma MayLookMapped(s: Spaces, e: PidEvent) returns (t: Spaces)
    requires Sound(s) && e.Mmap? && !FindsLive(s, e)
    ensures Scribbled(s, t) && !Sound(Mapped(t, e))
  {
    var id := s.hash[e.path];
    t := s.(maps := s.maps[id := s.maps[id].(vstart := e.vstart, vend := e.vend, offset := e.offset)]);
    ScribbledSound(s, t);
    HitOnDeleted(t, e);
  }

  /**
   * Exactly when mmap is safe: it keeps the counts, whatever the memory of deleted regions holds, if and
   * only if the hash table does not lead it to a deleted region.
   */
  lemma MappedSoundIff(s: Spaces, e: PidEvent)
    requires Sound(s) && e.Mmap?
    ensures (forall t :: Scribbled(s, t) ==> Sound(Mapped(t, e))) <==> FindsLive(s, e)
  {
    if FindsLive(s, e) {
      forall t | Scribbled(s, t)
        ensures Sound(Mapped(t, e))
      {
        ScribbledSound(s, t);
        MappedSound(t, e);
      }
    } else {
      var t := MayLookMapped(s, e);
    }
  }

  /** That happens: exec deletes a region only its process uses, and leaves it in the hash table. */
  lemma ExecLeavesStaleEntry(s: Spaces, id: RegionId, path: string)
    requires Sound(s) && s.procs[s.current].pid != 0 && id < |s.maps| && s.refs[id] == 0 && !s.maps[id].isKernel
    requires id in s.arrays[s.current] && path in s.hash && s.hash[path] == id
    ensures var t := ClearRegions(s, s.current); id < |t.freed| && t.freed[id] && path in t.hash && t.hash[path] == id
  {
    var t, p := ClearRegions(s, s.current), s.current;
    var k :| 0 <= k < |s.arrays[p]| && s.arrays[p][k] == id;
    Occurs(s, p, k);
    ClearSound(s, p);
    assert Total(s.arrays, id) == Weight(s, id) == 1;
    TotalReplaced(s.arrays, p, t.arrays[p], id);
    assert Total(t.arrays, id) == Weight(t, id) == 0;
  }

  // --- All events --------------------------------------------------------------------------------------

  /** The state after an event; k is the position munmap's search finds. */
  function Step(s: Spaces, e: PidEvent, k: nat): Spaces {
    match e
    case Fork(pid) => Forked(s, pid)
    case Clone(pid) => Cloned(s, pid)
    case Switch(pid) => var t := Known(s, pid); if pid in t.processes then t.(current := t.processes[pid]) else t
    case Munmap(vstart, vend) => Unmap(s, Manager(s, s.current), k, vstart, vend)
    case Mmap(_, _, _, _, _) => Mapped(s, e)
    case Exec => ClearRegions(s, s.current)
    case Name(pid) => Known(s, pid)
    case Other => s
  }

  /**
   * What the events of a trace meet: exec is not called by process 0, something is mapped when munmap is
   * called, what mmap finds in the hash table has not been deleted, and a named process has a pid of the
   * process table.
   */
  predicate Meets(s: Spaces, e: PidEvent, k: nat) {
    match e
    case Munmap(_, _) => k < |ArrayOf(s, Manager(s, s.current))|
    case Mmap(_, _, _, _, _) => FindsLive(s, e)
    case Exec => s.current < |s.procs| && s.procs[s.current].pid != 0
    case Name(pid) => pid < NUM_PIDS
    case _ => true
  }

  /** k is what the search of a munmap finds: the closest region at or below its start, or the first. */
  ghost predicate Picks(s: Spaces, e: PidEvent, k: nat) {
    e.Munmap? ==>
      var keys := Starts(s.maps, ArrayOf(s, Manager(s, s.current)));
      IsClosest(keys, e.vstart, k) || (k == 0 && forall j :: 0 <= j < |keys| ==> keys[j] > e.vstart)
  }

  /** What an event needs, whatever its search finds. */
  predicate Ready(s: Spaces, e: PidEvent) {
    if e.Munmap? then ArrayOf(s, Manager(s, s.current)) != [] else Meets(s, e, 0)
  }

  /** HandlePidEvent exits. */
  predicate TooLarge(e: PidEvent) {
    (e.Fork? || e.Clone? || e.Switch?) && e.pid >= NUM_PIDS
  }

  /** The address spaces an event may change: the current one, or for an exec that of the process which leaves its own. */
  predicate Touches(s: Spaces, e: PidEvent, q: nat) {
    match e
    case Munmap(_, _) => Manager(s, q) == Manager(s, s.current)
    case Mmap(_, _, _, _, _) => Manager(s, q) == Manager(s, s.current)
    case Exec => q == s.current || Manager(s, q) == s.current
    case _ => false
  }

  /** Every address space the event does not touch is what it was. */
  ghost predicate Untouched(s: Spaces, t: Spaces, e: PidEvent) {
    |s.procs| <= |t.procs| && forall q :: 0 <= q < |s.procs| && !Touches(s, e, q) ==> SameSpace(s, t, q)
  }

  lemma UnmapWhole(s: Spaces, m: nat, k: nat, hash: map<string, RegionId>)
    requires Sound(s) && m < |s.arrays| && k < |s.arrays[m]| && !s.procs[m].isClone
    requires forall path <- hash :: hash[path] < |s.maps|
    ensures Sound(Without(s, m, k, hash)) && Undisturbed(s, Without(s, m, k, hash), m)
  {
    WithoutSound(s, m, k, hash);
  }

  lemma UnmapSound(s: Spaces, k: nat, vstart: uint32, vend: uint32)
    requires Sound(s) && k < |ArrayOf(s, Manager(s, s.current))|
    ensures var m := Manager(s, s.current); var t := Unmap(s, m, k, vstart, vend);
            Sound(t) && Undisturbed(s, t, m)
  {
    var m := Manager(s, s.current);
    Occurs(s, m, k);
    match CutOf(s.maps[s.arrays[m][k]], vstart, vend)
    case Whole =>
      var id := s.arrays[m][k];
      UnmapWhole(s, m, k, if s.refs[id] == 0 then s.hash - {s.maps[id].path} else s.hash);
    case Suffix => UnmapSuffix(s, m, k, vstart, vend);
    case Nothing =>
  }

  /** The processes that share an address space which one of them leaves by exec keep it. */
  lemma ExecUntouched(s: Spaces)
    requires Sound(s) && s.procs[s.current].pid != 0
    ensures Sound(ClearRegions(s, s.current)) && Untouched(s, ClearRegions(s, s.current), Exec)
  {
    ClearSound(s, s.current);
  }

  /** Every event keeps the counts, the order and the managers, and changes no address space it does not touch. */
  lemma StepSound(s: Spaces, e: PidEvent, k: nat)
    requires Sound(s) && Meets(s, e, k)
    ensures Sound(Step(s, e, k)) && Untouched(s, Step(s, e, k), e)
  {
    match e
    case Fork(pid) => ForkSound(s, pid);
    case Clone(pid) => CloneSound(s, pid);
    case Switch(pid) => SwitchSound(s, pid);
    case Munmap(vstart, vend) => UnmapSound(s, k, vstart, vend);
    case Mmap(_, _, _, _, _) => MappedSound(s, e);
    case Exec => ExecUntouched(s);
    case Name(pid) => KnownSound(s, pid);
    case Other =>
  }

  /** Which process is the current one makes no difference to the address spaces. */
  lemma CurrentChanged(t: Spaces, p: nat)
    requires Sound(t) && p < |t.procs|
    ensures Sound(t.(current := p)) && forall q: nat :: SameSpace(t, t.(current := p), q)
  {
    assert forall id: RegionId :: Weight(t.(current := p), id) == Weight(t, id);
  }

  lemma SwitchSound(s: Spaces, pid: nat)
    requires Sound(s)
    ensures Sound(Step(s, Switch(pid), 0)) && Untouched(s, Step(s, Switch(pid), 0), Switch(pid))
  {
    KnownSound(s, pid);
    var t := Known(s, pid);
    CurrentChanged(t, t.processes[pid]);
    forall q | 0 <= q < |s.procs|
      ensures SameSpace(s, t.(current := t.processes[pid]), q)
    {
      assert SameSpace(s, t, q) && SameSpace(t, t.(current := t.processes[pid]), q);
    }
  }

  /** A process that is new when it is switched to manages itself. */
  lemma SwitchedToNew(s: Spaces, pid: nat)
    requires Sound(s) && pid !in s.processes
    ensures var t := Step(s, Switch(pid), 0);
            t.current == |s.procs| == |t.procs| - 1 && t.procs[t.current].manager == t.current && t.procs[t.current].pid == pid &&
            t.maps == s.maps && t.hash == s.hash
  {
    BlankSound(s, pid);
    CopyKernelSound(Blank(s, pid), |s.procs|);
  }

  /** A file mapped for the first time gets a region of its own, used once and named in the hash table. */
  lemma MappedFirst(s: Spaces, e: PidEvent)
    requires Sound(s) && e.Mmap? && e.path !in s.hash && s.procs[s.current].manager == s.current
    ensures var t, id := Mapped(s, e), |s.maps|;
            id < |t.maps| && t.refs[id] == 0 && !t.maps[id].isKernel && e.path in t.hash && t.hash[e.path] == id &&
            t.current == s.current && t.procs[t.current].pid == s.procs[s.current].pid && id in t.arrays[t.current]
  {
    MappedSound(s, e);
    MappedAdds(s, e);
    InCount(Mapped(s, e).arrays[s.current], |s.maps|);
  }

  /**
   * A run that leads mmap to a deleted region, for every file not predefined: a new process maps it, execs,
   * and maps it again.
   */
  lemma MapExecMap(pid: nat, e: PidEvent)
    requires e.Mmap? && e.path !in FIRST.hash && 0 < pid
    ensures var a := Step(FIRST, Switch(pid), 0);
            var b := Step(a, e, 0);
            var c := Step(b, Exec, 0);
            Meets(FIRST, Switch(pid), 0) && Meets(a, e, 0) && Meets(b, Exec, 0) && Sound(c) && !Meets(c, e, 0)
  {
    FirstSound();
    SwitchedToNew(FIRST, pid);
    var a := Step(FIRST, Switch(pid), 0);
    StepSound(FIRST, Switch(pid), 0);
    StepSound(a, e, 0);
    MappedFirst(a, e);
    var b := Step(a, e, 0);
    ExecLeavesStaleEntry(b, |a.maps|, e.path);
    StepSound(b, Exec, 0);
  }

  lemma StaysInSpace(s: Spaces, t: Spaces, q: nat, id: RegionId)
    requires Sound(s) && Sound(t) && q < |s.procs| <= |t.procs| && SameSpace(s, t, q) && id in ArrayOf(s, Manager(s, q))
    ensures id in ArrayOf(t, Manager(t, q)) && id < |s.maps| && id < |t.maps| && t.maps[id] == s.maps[id]
  {
    var m := Manager(s, q);
    var i :| 0 <= i < |s.arrays[m]| && s.arrays[m][i] == id;
    Occurs(s, m, i);
    Occurs(t, m, i);
    assert Space(t, q)[i] == Space(s, q)[i];
  }

  lemma StaysWhereMapped(s: Spaces, e: PidEvent, q: nat, id: RegionId)
    requires Sound(s) && e.Mmap? && FindsLive(s, e) && Touches(s, e, q)
    requires q < |s.procs| && id in ArrayOf(s, Manager(s, q))
    ensures var t := Mapped(s, e); id in ArrayOf(t, Manager(t, q)) && id < |s.maps| && id < |t.maps| && t.maps[id] == s.maps[id]
  {
    var t, m := Mapped(s, e), Manager(s, q);
    var i :| 0 <= i < |s.arrays[m]| && s.arrays[m][i] == id;
    Occurs(s, m, i);
    MappedAdds(s, e);
    InCount(s.arrays[m], id);
    InCount(t.arrays[m], id);
  }

  /** A region once mapped stays in an address space, with its fields, through every event but munmap and exec there. */
  lemma RegionStays(s: Spaces, e: PidEvent, k: nat, q: nat, id: RegionId)
    requires Sound(s) && Meets(s, e, k) && (Touches(s, e, q) ==> e.Mmap?)
    requires q < |s.procs| && id in ArrayOf(s, Manager(s, q))
    ensures var t := Step(s, e, k);
            id in ArrayOf(t, Manager(t, q)) && id < |s.maps| && id < |t.maps| && t.maps[id] == s.maps[id]
  {
    StepSound(s, e, k);
    if Touches(s, e, q) {
      StaysWhereMapped(s, e, q, id);
    } else {
      StaysInSpace(s, Step(s, e, k), q, id);
    }
  }

  /** A pid keeps its process until a fork or clone reuses the pid. */
  lemma ProcessStays(s: Spaces, e: PidEvent, k: nat, pid: int)
    requires Sound(s) && Meets(s, e, k) && pid in s.processes && ((e.Fork? || e.Clone?) ==> e.pid != pid)
    ensures var t := Step(s, e, k); pid in t.processes && t.processes[pid] == s.processes[pid]
  {
    match e
    case Switch(other) => KnownProcesses(s, other, pid);
    case Name(other) => KnownProcesses(s, other, pid);
    case Exec => ClearSound(s, s.current);
    case _ =>
  }

  lemma KnownProcesses(s: Spaces, other: nat, pid: int)
    requires Sound(s) && pid in s.processes
    ensures var t := Known(s, other); pid in t.processes && t.processes[pid] == s.processes[pid]
  {
    if other !in s.processes {
      BlankSound(s, other);
      CopyKernelSound(Blank(s, other), |s.procs|);
    }
  }

  /** The state after a list of events, with the positions their searches found. */
  function Final(s: Spaces, es: seq<PidEvent>, ks: seq<nat>): Spaces
    requires |es| == |ks|
    decreases |es|
  {
    if es == [] then s else Final(Step(s, es[0], ks[0]), es[1..], ks[1..])
  }

  predicate AllMeet(s: Spaces, es: seq<PidEvent>, ks: seq<nat>)
    requires |es| == |ks|
    decreases |es|
  {
    es == [] || (Meets(s, es[0], ks[0]) && AllMeet(Step(s, es[0], ks[0]), es[1..], ks[1..]))
  }

  /** After any run of events the counts are right: for every region, refs + 1 uses, or none once it is deleted. */
  lemma {:induction false} RunSound(s: Spaces, es: seq<PidEvent>, ks: seq<nat>)
    requires |es| == |ks| && Sound(s) && AllMeet(s, es, ks)
    ensures Sound(Final(s, es, ks))
    decreases |es|
  {
    if es != [] {
      StepSound(s, es[0], ks[0]);
      RunSound(Step(s, es[0], ks[0]), es[1..], ks[1..]);
    }
  }

  /** Once every array has been released, every region has been deleted: none leaks. */
  lemma NothingLeaks(s: Spaces, id: RegionId)
    requires Sound(s) && (forall p :: 0 <= p < |s.arrays| ==> s.arrays[p] == []) && id < |s.maps|
    ensures s.freed[id]
  {
    NoUses(s.arrays, id);
    assert Total(s.arrays, id) == Weight(s, id);
  }

  lemma {:induction false} NoUses(arrays: seq<seq<RegionId>>, id: RegionId)
    requires forall p :: 0 <= p < |arrays| ==> arrays[p] == []
    ensures Total(arrays, id) == 0
  {
    if arrays != [] {
      assert forall p :: 0 <= p < |arrays[1..]| ==> arrays[1..][p] == arrays[p + 1];
      NoUses(arrays[1..], id);
    }
  }
}
