/**
 * The address spaces of the traced processes (trace_reader.h): reference-counted regions shared
 * between the region arrays of processes, copied when one sharer truncates them.
 *
 * Regions and process states are numbered in the order of their allocation.
 */
module AddressMaps {
  import opened Words
  import opened Searching

  /** A region without its reference count. table is the identity of the symbol array, symbols its addresses. */
  datatype Mapping = Mapping(
    path: string, vstart: uint32, vend: uint32, baseAddr: uint32, offset: uint32,
    isKernel: bool, isLibrary: bool, sharedSymbols: bool, table: nat, symbols: seq<uint32>)

  type RegionId = nat

  /** A process state without its region array; manager is the process whose array it uses. */
  datatype Process = Process(pid: int, manager: nat, isClone: bool, hasKernelRegion: bool, hasFirstMmap: bool)

  /** The regions' fields and counts, the process states ever made with their arrays, and the tables. */
  datatype Spaces = Spaces(
    maps: seq<Mapping>, refs: seq<int>, freed: seq<bool>,
    procs: seq<Process>, arrays: seq<seq<RegionId>>,
    processes: map<int, nat>, current: nat, hash: map<string, RegionId>)

  // --- Counting uses ------------------------------------------------------------------------------

  function Count(a: seq<RegionId>, id: RegionId): nat {
    if a == [] then 0 else (if a[0] == id then 1 else 0) + Count(a[1..], id)
  }

  /** The occurrences of a region in all arrays. */
  function Total(arrays: seq<seq<RegionId>>, id: RegionId): nat {
    if arrays == [] then 0 else Count(arrays[0], id) + Total(arrays[1..], id)
  }

  /** What the reference count promises: one use more than refs, and none once freed. */
  function Weight(s: Spaces, id: RegionId): int {
    if id < |s.refs| && id < |s.freed| && !s.freed[id] then s.refs[id] + 1 else 0
  }

  lemma {:induction false} InCount(a: seq<RegionId>, id: RegionId)
    ensures id in a <==> Count(a, id) > 0
  {
    if a != [] {
      InCount(a[1..], id);
    }
  }

  lemma {:induction false} CountAppend(a: seq<RegionId>, b: seq<RegionId>, id: RegionId)
    ensures Count(a + b, id) == Count(a, id) + Count(b, id)
  {
    if a == [] {
      assert a + b == b;
    } else {
      assert (a + b)[1..] == a[1..] + b;
      CountAppend(a[1..], b, id);
    }
  }

  /** Count at a position: at least one, and what is left when the position is cut out. */
  lemma CountCut(a: seq<RegionId>, k: nat, id: RegionId)
    requires k < |a|
    ensures Count(a, id) == Count(a[..k], id) + (if a[k] == id then 1 else 0) + Count(a[k + 1..], id)
  {
    assert a == a[..k] + ([a[k]] + a[k + 1..]);
    CountAppend(a[..k], [a[k]] + a[k + 1..], id);
    assert ([a[k]] + a[k + 1..])[1..] == a[k + 1..];
  }

  lemma {:induction false} CountUpdate(a: seq<RegionId>, k: nat, v: RegionId, id: RegionId)
    requires k < |a|
    ensures Count(a[k := v], id) == Count(a, id) - (if a[k] == id then 1 else 0) + if v == id then 1 else 0
  {
    if k > 0 {
      assert a[k := v][1..] == a[1..][k - 1 := v];
      CountUpdate(a[1..], k - 1, v, id);
    } else {
      assert a[k := v][1..] == a[1..];
    }
  }

  lemma CountLast(a: seq<RegionId>, n: nat, id: RegionId)
    requires |a| == n + 1
    ensures Count(a, id) == Count(a[..n], id) + if a[n] == id then 1 else 0
  {
    assert a == a[..n] + [a[n]];
    CountAppend(a[..n], [a[n]], id);
  }

  /** An array without position k, its last entry moved there. */
  lemma LastMoved(a: seq<RegionId>, k: nat, n: nat, id: RegionId)
    requires k < |a| == n + 1
    ensures Count(a[k := a[n]][..n], id) == Count(a, id) - if a[k] == id then 1 else 0
  {
    CountUpdate(a, k, a[n], id);
    CountLast(a[k := a[n]], n, id);
  }

  /** A region at two positions counts at least twice. */
  lemma CountOfTwo(a: seq<RegionId>, j: nat, k: nat)
    requires j < k < |a| && a[j] == a[k]
    ensures Count(a, a[k]) >= 2
  {
    CountCut(a, k, a[k]);
    CountCut(a[..k], j, a[k]);
  }

  lemma {:induction false} TotalReplaced(arrays: seq<seq<RegionId>>, p: nat, a: seq<RegionId>, id: RegionId)
    requires p < |arrays|
    ensures Total(arrays[p := a], id) + Count(arrays[p], id) == Total(arrays, id) + Count(a, id)
  {
    if p == 0 {
      assert arrays[p := a][1..] == arrays[1..];
    } else {
      TotalReplaced(arrays[1..], p - 1, a, id);
      assert arrays[p := a][1..] == arrays[1..][p - 1 := a];
    }
  }

  lemma {:induction false} TotalMore(arrays: seq<seq<RegionId>>, a: seq<RegionId>, id: RegionId)
    ensures Total(arrays + [a], id) == Total(arrays, id) + Count(a, id)
  {
    if arrays == [] {
      assert [a][1..] == [];
      assert arrays + [a] == [a];
    } else {
      TotalMore(arrays[1..], a, id);
      assert (arrays + [a])[1..] == arrays[1..] + [a];
    }
  }

  lemma {:induction false} TotalOf(arrays: seq<seq<RegionId>>, p: nat, id: RegionId)
    requires p < |arrays|
    ensures Count(arrays[p], id) <= Total(arrays, id)
  {
    if p > 0 {
      TotalOf(arrays[1..], p - 1, id);
    }
  }

  /** Two arrays use a region as often as both do together. */
  lemma TotalOfTwo(arrays: seq<seq<RegionId>>, p: nat, q: nat, id: RegionId)
    requires p < |arrays| && q < |arrays| && p != q
    ensures Count(arrays[p], id) + Count(arrays[q], id) <= Total(arrays, id)
  {
    TotalReplaced(arrays, p, [], id);
    TotalOf(arrays[p := []], q, id);
  }

  // --- Order ----------------------------------------------------------------------------------------

  function Start(maps: seq<Mapping>, id: RegionId): int {
    if id < |maps| then maps[id].vstart else 0
  }

  function Starts(maps: seq<Mapping>, a: seq<RegionId>): (s: seq<int>)
    ensures |s| == |a|
  {
    seq(|a|, i requires 0 <= i < |a| => Start(maps, a[i]))
  }

  function Insert(maps: seq<Mapping>, a: seq<RegionId>, id: RegionId): (r: seq<RegionId>) {
    var k := Place(Starts(maps, a), Start(maps, id));
    a[..k] + [id] + a[k..]
  }

  /** The array as qsort leaves it. */
  function Resorted(maps: seq<Mapping>, a: seq<RegionId>): (r: seq<RegionId>) {
    if a == [] then [] else Insert(maps, Resorted(maps, a[1..]), a[0])
  }

  lemma InsertedCount(maps: seq<Mapping>, a: seq<RegionId>, id: RegionId, x: RegionId)
    ensures Count(Insert(maps, a, id), x) == Count(a, x) + if x == id then 1 else 0
  {
    var k := Place(Starts(maps, a), Start(maps, id));
    assert a == a[..k] + a[k..];
    CountAppend(a[..k], a[k..], x);
    CountAppend(a[..k] + [id], a[k..], x);
    CountAppend(a[..k], [id], x);
  }

  /** qsort moves the regions but loses and repeats none. */
  lemma {:induction false} ResortedCount(maps: seq<Mapping>, a: seq<RegionId>, x: RegionId)
    ensures Count(Resorted(maps, a), x) == Count(a, x)
  {
    if a != [] {
      ResortedCount(maps, a[1..], x);
      InsertedCount(maps, Resorted(maps, a[1..]), a[0], x);
    }
  }

  lemma InsertStarts(maps: seq<Mapping>, a: seq<RegionId>, id: RegionId, k: nat)
    requires k <= |a|
    ensures Starts(maps, a[..k] + [id] + a[k..]) == Starts(maps, a)[..k] + [Start(maps, id)] + Starts(maps, a)[k..]
  {
    var r := a[..k] + [id] + a[k..];
    forall i | 0 <= i < |r|
      ensures Start(maps, r[i]) == (Starts(maps, a)[..k] + [Start(maps, id)] + Starts(maps, a)[k..])[i]
    {}
  }

  lemma InsertInOrder(maps: seq<Mapping>, a: seq<RegionId>, id: RegionId)
    requires Sorted(Starts(maps, a))
    ensures Sorted(Starts(maps, Insert(maps, a, id)))
  {
    var keys, v := Starts(maps, a), Start(maps, id);
    InsertedInOrder(keys, v);
    InsertStarts(maps, a, id, Place(keys, v));
  }

  lemma {:induction false} ResortedInOrder(maps: seq<Mapping>, a: seq<RegionId>)
    ensures Sorted(Starts(maps, Resorted(maps, a)))
  {
    if a != [] {
      ResortedInOrder(maps, a[1..]);
      InsertInOrder(maps, Resorted(maps, a[1..]), a[0]);
    }
  }

  // --- The invariant -----------------------------------------------------------------------------

  /** Every region not freed is used refs + 1 times; a freed one is not used. */
  ghost predicate Counted(s: Spaces) {
    |s.maps| == |s.refs| == |s.freed| &&
    (forall id: RegionId :: Total(s.arrays, id) == Weight(s, id)) &&
    forall id :: 0 <= id < |s.refs| ==> s.refs[id] >= 0
  }

  ghost predicate Ordered(s: Spaces) {
    forall p :: 0 <= p < |s.arrays| ==> Sorted(Starts(s.maps, s.arrays[p]))
  }

  /** Managers manage themselves; the array of a clone is unused. */
  ghost predicate Owned(s: Spaces) {
    |s.procs| == |s.arrays| &&
    forall p :: 0 <= p < |s.procs| ==>
      s.procs[p].manager < |s.procs| && s.procs[s.procs[p].manager].manager == s.procs[p].manager &&
      (s.procs[p].isClone <==> s.procs[p].manager != p) && (s.procs[p].isClone ==> s.arrays[p] == [])
  }

  ghost predicate Indexed(s: Spaces) {
    s.current < |s.procs| && (forall pid <- s.processes :: s.processes[pid] < |s.procs|) &&
    0 in s.processes && s.procs[s.processes[0]].pid == 0 && forall path <- s.hash :: s.hash[path] < |s.maps|
  }

  ghost predicate Sound(s: Spaces) {
    Counted(s) && Ordered(s) && Owned(s) && Indexed(s)
  }

  /** The process whose array p uses. */
  function Manager(s: Spaces, p: nat): nat {
    if p < |s.procs| then s.procs[p].manager else 0
  }

  function ArrayOf(s: Spaces, p: nat): seq<RegionId> {
    if p < |s.arrays| then s.arrays[p] else []
  }

  const NO_REGION := Mapping("", 0, 0, 0, 0, false, false, false, 0, [])

  /** What an array says about an address space. */
  function View(maps: seq<Mapping>, a: seq<RegionId>): (v: seq<Mapping>)
    ensures |v| == |a|
  {
    seq(|a|, i requires 0 <= i < |a| => if a[i] < |maps| then maps[a[i]] else NO_REGION)
  }

  /** The address space of a process. */
  function Space(s: Spaces, p: nat): seq<Mapping> {
    View(s.maps, ArrayOf(s, Manager(s, p)))
  }

  /** The process uses the same array in both states, and it says the same. */
  ghost predicate SameSpace(s: Spaces, t: Spaces, q: nat) {
    Manager(t, q) == Manager(s, q) && ArrayOf(t, Manager(t, q)) == ArrayOf(s, Manager(s, q)) && Space(t, q) == Space(s, q)
  }

  /** A region that occurs in an array exists and is not freed. */
  lemma Occurs(s: Spaces, p: nat, k: nat)
    requires Counted(s) && p < |s.arrays| && k < |s.arrays[p]|
    ensures var id := s.arrays[p][k]; id < |s.maps| && !s.freed[id] && Count(s.arrays[p], id) >= 1
  {
    var id := s.arrays[p][k];
    CountCut(s.arrays[p], k, id);
    TotalOf(s.arrays, p, id);
    assert Total(s.arrays, id) == Weight(s, id);
  }

  /** One array and the counts change together. */
  lemma ArrayChanged(s: Spaces, m: nat, a: seq<RegionId>, refs: seq<int>, freed: seq<bool>, hash: map<string, RegionId>)
    requires Sound(s) && m < |s.arrays| && (!s.procs[m].isClone || a == []) && Sorted(Starts(s.maps, a))
    requires |refs| == |freed| == |s.refs| && forall id :: 0 <= id < |refs| ==> refs[id] >= 0
    requires forall path <- hash :: hash[path] < |s.maps|
    requires forall id: RegionId ::
               Weight(s.(refs := refs, freed := freed), id) + Count(s.arrays[m], id) == Weight(s, id) + Count(a, id)
    ensures Sound(s.(refs := refs, freed := freed, arrays := s.arrays[m := a], hash := hash))
  {
    var t := s.(refs := refs, freed := freed, arrays := s.arrays[m := a], hash := hash);
    forall id: RegionId
      ensures Total(t.arrays, id) == Weight(t, id)
    {
      assert Total(s.arrays, id) == Weight(s, id);
      assert Weight(t, id) == Weight(s.(refs := refs, freed := freed), id);
      TotalReplaced(s.arrays, m, a, id);
    }
  }

  /** The same state, but for what the memory of deleted regions holds. */
  ghost predicate Scribbled(s: Spaces, t: Spaces) {
    t == s.(maps := t.maps) && |t.maps| == |s.maps| &&
    forall id :: 0 <= id < |s.maps| && id < |s.freed| && !s.freed[id] ==> t.maps[id] == s.maps[id]
  }

  /** Nothing in use depends on deleted regions. */
  lemma ScribbledSound(s: Spaces, t: Spaces)
    requires Sound(s) && Scribbled(s, t)
    ensures Sound(t) && forall q :: 0 <= q < |s.procs| ==> SameSpace(s, t, q)
  {
    forall p | 0 <= p < |s.arrays|
      ensures Starts(t.maps, s.arrays[p]) == Starts(s.maps, s.arrays[p]) && View(t.maps, s.arrays[p]) == View(s.maps, s.arrays[p])
    {
      forall k | 0 <= k < |s.arrays[p]|
        ensures s.arrays[p][k] < |s.maps| && t.maps[s.arrays[p][k]] == s.maps[s.arrays[p][k]]
      {
        Occurs(s, p, k);
      }
    }
    assert forall id: RegionId :: Weight(t, id) == Weight(s, id);
    assert forall q :: 0 <= q < |s.procs| ==> s.procs[q].manager < |s.arrays|;
  }
}
