/**
 * The symbols of mapped files (the kPidMmap case of HandlePidEvent in trace_reader.h): which addresses they
 * answer for, and what becomes of a cached one when its region goes.
 */
module SymbolTables {
  import opened Words
  import opened Searching
  import opened AddressMaps
  import opened AddressChanges
  import opened AddressEvents
  import opened Lookup

  // --- What mmap makes of a file's symbols -----------------------------------------------------------

  /** A region's offsets count from where it is mapped or from 0; from 0 if the symbols do not lie below it. */
  lemma FreshOffsets(s: Spaces, e: PidEvent, addr: uint32)
    requires e.Mmap?
    ensures var r := Fresh(s, e);
            (r.baseAddr == 0 ==> Offset(r, addr) == addr) &&
            (r.baseAddr == 0 <==> |r.symbols| <= 2 || r.symbols[1] >= e.vstart) &&
            (r.baseAddr != 0 && e.vstart <= addr < e.vend ==>
               0 <= Offset(r, addr) < e.vend - e.vstart && r.baseAddr + Offset(r, addr) == addr)
  {}

  /** Symbol j answers for the addresses from its own, moved by the base, up to the next symbol's, and for no others. */
  lemma FreshResolves(s: Spaces, e: PidEvent, j: nat, addr: uint32)
    requires e.Mmap? && TidySymbols(Fresh(s, e).symbols) && j < |Fresh(s, e).symbols| && Fresh(s, e).baseAddr <= addr
    ensures var r := Fresh(s, e);
            LastAtMost(r.symbols, Offset(r, addr)) == j <==>
            r.baseAddr + r.symbols[j] <= addr && (j + 1 < |r.symbols| ==> addr < r.baseAddr + r.symbols[j + 1])
  {
    LastAtMostIff(Fresh(s, e).symbols, Offset(Fresh(s, e), addr), j);
  }

  // --- Shared symbol arrays ---------------------------------------------------------------------------

  /** Symbol arrays are numbered by the regions they were made for, and a number means one array. */
  ghost predicate Tables(maps: seq<Mapping>) {
    (forall i :: 0 <= i < |maps| ==> maps[i].table < |maps|) &&
    forall i, j :: 0 <= i < |maps| && 0 <= j < |maps| && maps[i].table == maps[j].table ==> maps[i].symbols == maps[j].symbols
  }

  lemma FirstTables()
    ensures Tables(FIRST.maps)
  {}

  /**
   * A file mapped before keeps its symbols and starts where it is mapped; one that was not has symbols of
   * its own and starts where it is mapped, unless it cannot be read or is an ELF file mapped at 0.
   */
  lemma FreshShares(s: Spaces, e: PidEvent)
    requires Sound(s) && e.Mmap? && Tables(s.maps)
    ensures var r := Fresh(s, e);
            ((exists i :: 0 <= i < |s.maps| && s.maps[i].table == r.table) <==> e.path in s.hash) &&
            (e.path in s.hash ==> r.table == s.maps[s.hash[e.path]].table && r.symbols == s.maps[s.hash[e.path]].symbols) &&
            (r.vstart != e.vstart ==> e.path !in s.hash && (e.loaded.Unreadable? || (e.loaded.Elf? && e.vstart == 0)))
  {
    if e.path in s.hash {
      assert s.maps[s.hash[e.path]].table == Fresh(s, e).table;
    }
  }

  lemma TablesMore(maps: seq<Mapping>, r: Mapping)
    requires Tables(maps)
    requires r.table == |maps| || exists i :: 0 <= i < |maps| && maps[i].table == r.table && maps[i].symbols == r.symbols
    ensures Tables(maps + [r])
  {}

  lemma TablesCut(maps: seq<Mapping>, id: nat, vend: uint32)
    requires Tables(maps) && id < |maps|
    ensures Tables(maps[id := maps[id].(vend := vend)]) && Tables(maps + [maps[id].(vend := vend)])
  {
    var r := maps[id].(vend := vend);
    assert maps[id].table == r.table && maps[id].symbols == r.symbols;
    TablesMore(maps, r);
  }

  lemma {:induction false} CopyAllMaps(s: Spaces, p: nat, a: seq<RegionId>)
    ensures CopyAll(s, p, a).maps == s.maps
    decreases |a|
  {
    if a != [] {
      CopyAllMaps(if a[0] < |s.maps| && s.maps[a[0]].isKernel then Share(s, p, a[0]) else s, p, a[1..]);
    }
  }

  lemma CopyKernelMaps(s: Spaces, p: nat)
    ensures CopyKernelRegion(s, p).maps == s.maps
  {
    CopyAllMaps(s, p, if 0 in s.processes then ArrayOf(s, s.processes[0]) else []);
  }

  lemma {:induction false} ReleasedMaps(s: Spaces, a: seq<RegionId>)
    ensures Released(s, a).maps == s.maps
    decreases |a|
  {
    if a != [] {
      ReleasedMaps(Release(s, a[0]), a[1..]);
    }
  }

  lemma ExecMaps(s: Spaces)
    requires s.current < |s.arrays|
    ensures ClearRegions(s, s.current).maps == s.maps
  {
    ReleasedMaps(s.(arrays := s.arrays[s.current := []]), s.arrays[s.current]);
    CopyKernelMaps(Emptied(s, s.current), s.current);
  }

  /** Every event keeps one array to a number, so that the regions of one file share their symbols. */
  lemma StepTables(s: Spaces, e: PidEvent, k: nat)
    requires Tables(s.maps) && Sound(s) && Meets(s, e, k)
    ensures Tables(Step(s, e, k).maps)
  {
    match e
    case Mmap(path, _, _, _, _) =>
      if path in s.hash {
        assert s.maps[s.hash[path]].table == Fresh(s, e).table;
      }
      TablesMore(s.maps, Fresh(s, e));
    case Munmap(_, vend) =>
      UnmapTables(s, k, e.vstart, vend);
    case Exec => ExecMaps(s);
    case Switch(pid) => CopyKernelMaps(Blank(s, pid), |s.procs|);
    case Name(pid) => CopyKernelMaps(Blank(s, pid), |s.procs|);
    case _ =>
  }

  lemma UnmapTables(s: Spaces, k: nat, vstart: uint32, vend: uint32)
    requires Tables(s.maps) && Sound(s) && k < |ArrayOf(s, Manager(s, s.current))|
    ensures Tables(Unmap(s, Manager(s, s.current), k, vstart, vend).maps)
  {
    var m := Manager(s, s.current);
    Occurs(s, m, k);
    TablesCut(s.maps, s.arrays[m][k], vstart);
  }

  // --- A cached symbol of a region that went --------------------------------------------------------

  /** Regions that do not overlap are each mapped once. */
  lemma NotTwice(maps: seq<Mapping>, a: seq<RegionId>, i: nat, j: nat)
    requires Tidy(View(maps, a)) && i < j < |a|
    ensures a[i] != a[j]
  {
    var view := View(maps, a);
    assert view[i].vend <= view[j].vstart && view[j].vstart < view[j].vend;
  }

  lemma MappedOnce(maps: seq<Mapping>, a: seq<RegionId>, k: nat)
    requires Tidy(View(maps, a)) && k < |a|
    ensures Count(a, a[k]) == 1
  {
    forall i, j | 0 <= i < j < |a|
      ensures a[i] != a[j]
    {
      NotTwice(maps, a, i, j);
    }
    CountsOnce(a, k);
  }

  lemma CountsOnce(a: seq<RegionId>, k: nat)
    requires k < |a| && forall i, j :: 0 <= i < j < |a| ==> a[i] != a[j]
    ensures Count(a, a[k]) == 1
  {
    CountCut(a, k, a[k]);
    InCount(a[..k], a[k]);
    InCount(a[k + 1..], a[k]);
  }

  /** A region stands at one place of another's array: the one it was at, or that of the region it replaced. */
  lemma PlaceBefore(maps: seq<Mapping>, a: seq<RegionId>, b: seq<RegionId>, id: RegionId, i: nat)
    returns (p: nat)
    requires Tidy(View(maps, a)) && id in a && i < |b| && forall x :: x in a ==> x < |maps|
    requires forall x :: Count(b, x) == Count(a, x) - (if x == id then 1 else 0) + if x == |maps| then 1 else 0
    ensures p < |a| && a[p] == (if b[i] == |maps| then id else b[i]) && a[p] < |maps| && Count(b, b[i]) == 1 && b[i] != id
  {
    var x := if b[i] == |maps| then id else b[i];
    InCount(b, b[i]);
    InCount(a, b[i]);
    var q :| 0 <= q < |a| && a[q] == id;
    MappedOnce(maps, a, q);
    assert x in a;
    p :| 0 <= p < |a| && a[p] == x;
    MappedOnce(maps, a, p);
  }

  /** A region in place of another of the same extent leaves the regions in order and apart. */
  lemma ReplacedTidy(maps: seq<Mapping>, a: seq<RegionId>, b: seq<RegionId>, id: RegionId, r: Mapping)
    requires Tidy(View(maps, a)) && id in a && forall x :: x in a ==> x < |maps|
    requires r.vstart == maps[id].vstart && r.vend == maps[id].vend && TidySymbols(r.symbols)
    requires Sorted(Starts(maps + [r], b))
    requires forall x :: Count(b, x) == Count(a, x) - (if x == id then 1 else 0) + if x == |maps| then 1 else 0
    ensures Tidy(View(maps + [r], b)) && |maps| in b && id !in b
  {
    InCount(b, |maps|);
    InCount(a, |maps|);
    var k :| 0 <= k < |a| && a[k] == id;
    MappedOnce(maps, a, k);
    InCount(b, id);
    var was, now := View(maps, a), View(maps + [r], b);
    forall i | 0 <= i < |now|
      ensures now[i].vstart < now[i].vend && TidySymbols(now[i].symbols)
    {
      var p := PlaceBefore(maps, a, b, id, i);
      assert was[p] == maps[a[p]];
    }
    forall i, j | 0 <= i < j < |now|
      ensures now[i].vend <= now[j].vstart
    {
      var p := PlaceBefore(maps, a, b, id, i);
      var q := PlaceBefore(maps, a, b, id, j);
      if b[i] == b[j] {
        CountOfTwo(b, i, j);
      }
      assert was[p] == maps[a[p]] && was[q] == maps[a[q]];
      assert Starts(maps + [r], b)[i] <= Starts(maps + [r], b)[j];
    }
  }

  /** Unmapping a region that another process still uses. */
  lemma SharedUnmapped(s: Spaces, k: nat)
    requires Sound(s) && k < |ArrayOf(s, Manager(s, s.current))|
    requires var id := ArrayOf(s, Manager(s, s.current))[k]; id < |s.maps| && id < |s.refs| && s.refs[id] > 0
    ensures var m := Manager(s, s.current);
            var id := s.arrays[m][k];
            var t := Step(s, Munmap(s.maps[id].vstart, s.maps[id].vend), k);
            Sound(t) && |t.arrays| == |s.arrays| && t == s.(refs := t.refs, freed := s.freed, arrays := t.arrays) &&
            !s.freed[id] && forall x :: Count(t.arrays[m], x) == Count(s.arrays[m], x) - if x == id then 1 else 0
  {
    var m := Manager(s, s.current);
    Occurs(s, m, k);
    WithoutSound(s, m, k, s.hash);
  }

  /**
   * In a sound state with a tidy address space, a region that another process still uses is unmapped, and a
   * file not seen before is mapped in its place.
   */
  lemma Remapped(s: Spaces, k: nat, e: PidEvent)
    requires Sound(s) && Tidy(Space(s, s.current)) && k < |ArrayOf(s, Manager(s, s.current))|
    requires var id := ArrayOf(s, Manager(s, s.current))[k];
             id < |s.maps| && id < |s.refs| && s.refs[id] > 0 && Replaces(e, s.maps[id]) && e.path !in s.hash
    ensures var id, m := ArrayOf(s, Manager(s, s.current))[k], Manager(s, s.current);
            var gone := Step(s, Munmap(e.vstart, e.vend), k);
            var t := Step(gone, e, 0);
            Meets(gone, e, 0) && Sound(t) && t.maps == s.maps + [Fresh(gone, e)] && |t.freed| > id && !t.freed[id] &&
            Manager(t, t.current) == m && id !in ArrayOf(t, m) && |s.maps| in ArrayOf(t, m) && Tidy(Space(t, t.current))
  {
    var m := Manager(s, s.current);
    SharedUnmapped(s, k);
    var gone := Step(s, Munmap(e.vstart, e.vend), k);
    StepSound(gone, e, 0);
    MappedAdds(gone, e);
    AllExist(s, m);
    ReplacedTidy(s.maps, s.arrays[m], Step(gone, e, 0).arrays[m], s.arrays[m][k], Fresh(gone, e));
  }

  /** mmap of a file with tidy symbols at exactly the place of r. */
  predicate Replaces(e: PidEvent, r: Mapping) {
    e.Mmap? && e.vstart == r.vstart && e.vend == r.vend && e.loaded.Start(e.vstart) == e.vstart && TidySymbols(e.loaded.Table())
  }

  lemma AllExist(s: Spaces, m: nat)
    requires Sound(s) && m < |s.arrays|
    ensures forall x <- s.arrays[m] :: x < |s.maps|
  {
    forall i | 0 <= i < |s.arrays[m]|
      ensures s.arrays[m][i] < |s.maps|
    {
      Occurs(s, m, i);
    }
  }

  /** The address is in the new region. */
  lemma RegionHere(maps: seq<Mapping>, b: seq<RegionId>, n: RegionId, addr: uint32)
    requires Tidy(View(maps, b)) && n in b && n < |maps| && maps[n].vstart <= addr < maps[n].vend
    ensures View(maps, b)[RegionAt(View(maps, b), addr)] == maps[n]
  {
    var view := View(maps, b);
    var i :| 0 <= i < |b| && b[i] == n;
    TidyIsSorted(view);
    LastAtMostIsClosest(StartsOf(view), addr);
    ClosestIsUnique(StartsOf(view), addr, i, LastAtMost(StartsOf(view), addr));
  }

  /** The unmapping and the mapping, as steps. */
  function Swapped(s: Spaces, k: nat, e: PidEvent): Spaces
    requires e.Mmap?
  {
    Step(Step(s, Munmap(e.vstart, e.vend), k), e, 0)
  }

  /**
   * After that, a symbol of the old region that was cached is still hit, by the same lookup as before, and it
   * is not the answer: that is a symbol of the new file, or none.
   */
  lemma StaleHit(s: Spaces, k: nat, e: PidEvent, j: nat, addr: uint32, beyond: int)
    requires Sound(s) && Tables(s.maps) && Tidy(Space(s, s.current)) && k < |ArrayOf(s, Manager(s, s.current))|
    requires var id := ArrayOf(s, Manager(s, s.current))[k];
             id < |s.maps| && id < |s.refs| && s.refs[id] > 0 && Replaces(e, s.maps[id]) && e.path !in s.hash &&
             j < |s.maps[id].symbols| && Hits(s.maps[id], j, addr, beyond)
    ensures var id, t := ArrayOf(s, Manager(s, s.current))[k], Swapped(s, k, e);
            Uncached(Space(s, s.current), addr) == SymbolRef(s.maps[id].table, j) &&
            |t.maps| == |s.maps| + 1 && t.maps[id] == s.maps[id] && Space(t, t.current) != [] &&
            Uncached(Space(t, t.current), addr).table == |s.maps| != s.maps[id].table
  {
    HitHere(s.maps, ArrayOf(s, Manager(s, s.current)), k, j, addr, beyond);
    AnswerMoved(s, k, e, addr);
  }

  lemma AnswerMoved(s: Spaces, k: nat, e: PidEvent, addr: uint32)
    requires Sound(s) && Tidy(Space(s, s.current)) && k < |ArrayOf(s, Manager(s, s.current))|
    requires var id := ArrayOf(s, Manager(s, s.current))[k];
             id < |s.maps| && id < |s.refs| && s.refs[id] > 0 && Replaces(e, s.maps[id]) && e.path !in s.hash &&
             e.vstart <= addr < e.vend
    ensures var id, t := ArrayOf(s, Manager(s, s.current))[k], Swapped(s, k, e);
            |t.maps| == |s.maps| + 1 && t.maps[id] == s.maps[id] && Space(t, t.current) != [] &&
            Uncached(Space(t, t.current), addr).table == |s.maps|
  {
    Remapped(s, k, e);
    SharedUnmapped(s, k);
    var t := Swapped(s, k, e);
    RegionHere(t.maps, ArrayOf(t, Manager(t, t.current)), |s.maps|, addr);
  }

  lemma HitHere(maps: seq<Mapping>, a: seq<RegionId>, k: nat, j: nat, addr: uint32, beyond: int)
    requires Tidy(View(maps, a)) && k < |a| && a[k] < |maps| && j < |maps[a[k]].symbols| && Hits(maps[a[k]], j, addr, beyond)
    ensures Uncached(View(maps, a), addr) == SymbolRef(maps[a[k]].table, j)
  {
    assert View(maps, a)[k] == maps[a[k]];
    HitAgrees(View(maps, a), k, j, addr, beyond);
  }
}
