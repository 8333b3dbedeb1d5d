/**
 * The changes of the address spaces, one function for each operation of trace_reader.h, and what each
 * of them keeps.
 */
module AddressChanges {
  import opened Words
  import opened Searching
  import opened AddressMaps

  // --- Reference counts -----------------------------------------------------------------------------

  /** One more use of each region of an array (CopyRegions). */
  function Retained(refs: seq<int>, a: seq<RegionId>): seq<int>
    decreases |a|
  {
    if a == [] then refs
    else Retained(if a[0] < |refs| then refs[a[0] := refs[a[0]] + 1] else refs, a[1..])
  }

  lemma {:induction false} RetainedAt(refs: seq<int>, a: seq<RegionId>)
    ensures var r := Retained(refs, a);
            |r| == |refs| && forall id :: 0 <= id < |refs| ==> r[id] == refs[id] + Count(a, id)
    decreases |a|
  {
    if a != [] {
      RetainedAt(if a[0] < |refs| then refs[a[0] := refs[a[0]] + 1] else refs, a[1..]);
    }
  }

  /** One use less; the last one frees the region. */
  function Release(s: Spaces, id: RegionId): Spaces {
    if id >= |s.refs| || id >= |s.freed| then s
    else if s.refs[id] > 0 then s.(refs := s.refs[id := s.refs[id] - 1])
    else s.(freed := s.freed[id := true])
  }

  /** The loop of ClearRegions and ~ProcessState. */
  function Released(s: Spaces, a: seq<RegionId>): Spaces
    decreases |a|
  {
    if a == [] then s else Released(Release(s, a[0]), a[1..])
  }

  /** Whatever the order of the releases, each region loses exactly the uses in the list, and none goes below zero. */
  lemma {:induction false} ReleasedWeight(s: Spaces, a: seq<RegionId>)
    requires |s.refs| == |s.freed| && forall id :: 0 <= id < |s.refs| ==> s.refs[id] >= 0
    requires forall id: RegionId :: Count(a, id) <= Weight(s, id)
    ensures var r := Released(s, a);
            r == s.(refs := r.refs, freed := r.freed) && |r.refs| == |r.freed| == |s.refs| &&
            (forall id :: 0 <= id < |s.refs| ==> r.refs[id] >= 0) &&
            forall id: RegionId :: Weight(r, id) == Weight(s, id) - Count(a, id)
    decreases |a|
  {
    if a != [] {
      var t := Release(s, a[0]);
      assert Count(a, a[0]) <= Weight(s, a[0]);
      forall id: RegionId
        ensures Weight(t, id) == Weight(s, id) - (if id == a[0] then 1 else 0) && Count(a[1..], id) <= Weight(t, id)
      {
        assert Count(a, id) <= Weight(s, id);
      }
      ReleasedWeight(t, a[1..]);
    }
  }

  // --- Adding regions -------------------------------------------------------------------------------

  /** AddRegion for a region that exists, with its new use counted. */
  function Share(s: Spaces, p: nat, id: RegionId): Spaces {
    var m := Manager(s, p);
    if m >= |s.arrays| || id >= |s.refs| then s
    else s.(arrays := s.arrays[m := Resorted(s.maps, s.arrays[m] + [id])], refs := s.refs[id := s.refs[id] + 1])
  }

  /** AddRegion for a new region. */
  function AddNew(s: Spaces, p: nat, r: Mapping): Spaces {
    var m := Manager(s, p);
    var maps := s.maps + [r];
    if m >= |s.arrays| then s
    else s.(maps := maps, refs := s.refs + [0], freed := s.freed + [false],
            arrays := s.arrays[m := Resorted(maps, s.arrays[m] + [|s.maps|])])
  }

  /** The count of every region in an array that got one more entry and was sorted again. */
  lemma GrownTotal(maps: seq<Mapping>, arrays: seq<seq<RegionId>>, m: nat, id: RegionId, x: RegionId)
    requires m < |arrays|
    ensures Total(arrays[m := Resorted(maps, arrays[m] + [id])], x) == Total(arrays, x) + if x == id then 1 else 0
  {
    var a := Resorted(maps, arrays[m] + [id]);
    ResortedCount(maps, arrays[m] + [id], x);
    CountAppend(arrays[m], [id], x);
    TotalReplaced(arrays, m, a, x);
  }

  lemma ShareSound(s: Spaces, p: nat, id: RegionId)
    requires Sound(s) && p < |s.procs| && id < |s.refs| && !s.freed[id]
    ensures Sound(Share(s, p, id))
  {
    var t, m := Share(s, p, id), Manager(s, p);
    ResortedInOrder(s.maps, s.arrays[m] + [id]);
    forall x: RegionId
      ensures Total(t.arrays, x) == Weight(t, x)
    {
      assert Total(s.arrays, x) == Weight(s, x);
      GrownTotal(s.maps, s.arrays, m, id, x);
    }
  }

  lemma AddNewSound(s: Spaces, p: nat, r: Mapping)
    requires Sound(s) && p < |s.procs|
    ensures Sound(AddNew(s, p, r))
  {
    var t, m := AddNew(s, p, r), Manager(s, p);
    ResortedInOrder(t.maps, s.arrays[m] + [|s.maps|]);
    forall x: RegionId
      ensures Total(t.arrays, x) == Weight(t, x)
    {
      assert Total(s.arrays, x) == Weight(s, x);
      GrownTotal(t.maps, s.arrays, m, |s.maps|, x);
    }
    forall q | 0 <= q < |s.arrays| && q != m
      ensures Sorted(Starts(t.maps, s.arrays[q]))
    {
      MapsGrown(s, q, r);
    }
  }

  /** A further region changes no view. */
  lemma MapsGrown(s: Spaces, q: nat, r: Mapping)
    requires Counted(s) && q < |s.arrays|
    ensures Starts(s.maps + [r], s.arrays[q]) == Starts(s.maps, s.arrays[q])
    ensures View(s.maps + [r], s.arrays[q]) == View(s.maps, s.arrays[q])
  {
    forall k | 0 <= k < |s.arrays[q]|
      ensures s.arrays[q][k] < |s.maps|
    {
      Occurs(s, q, k);
    }
  }

  // --- The kernel's regions -------------------------------------------------------------------------

  /** The loop of CopyKernelRegion over what is left of the array. */
  function CopyAll(s: Spaces, p: nat, a: seq<RegionId>): Spaces
    decreases |a|
  {
    if a == [] then s
    else CopyAll(if a[0] < |s.maps| && s.maps[a[0]].isKernel then Share(s, p, a[0]) else s, p, a[1..])
  }

  function MarkKernel(s: Spaces, m: nat): Spaces {
    if m < |s.procs| then s.(procs := s.procs[m := s.procs[m].(hasKernelRegion := true)]) else s
  }

  function CopyKernelRegion(s: Spaces, p: nat): Spaces {
    var m := Manager(s, p);
    if m < |s.procs| && s.procs[m].hasKernelRegion then s
    else MarkKernel(CopyAll(s, p, if 0 in s.processes then ArrayOf(s, s.processes[0]) else []), m)
  }

  lemma ShareCount(s: Spaces, p: nat, id: RegionId, x: RegionId)
    requires Manager(s, p) < |s.arrays| && id < |s.refs|
    ensures var m := Manager(s, p);
            Count(Share(s, p, id).arrays[m], x) == Count(s.arrays[m], x) + if x == id then 1 else 0
  {
    var m := Manager(s, p);
    ResortedCount(s.maps, s.arrays[m] + [id], x);
    CountAppend(s.arrays[m], [id], x);
  }

  /** Copying keeps the invariant and adds each kernel region of the array once for each of its entries. */
  lemma {:induction false} CopyAllSound(s: Spaces, p: nat, a: seq<RegionId>)
    requires Sound(s) && p < |s.procs| && forall k :: 0 <= k < |a| ==> a[k] < |s.maps| && !s.freed[a[k]]
    ensures var t, m := CopyAll(s, p, a), Manager(s, p);
            Sound(t) && t == s.(arrays := t.arrays, refs := t.refs) && |t.arrays| == |s.arrays| &&
            t.arrays == s.arrays[m := t.arrays[m]] &&
            forall id :: 0 <= id < |s.maps| ==>
              Count(t.arrays[m], id) == Count(s.arrays[m], id) + if s.maps[id].isKernel then Count(a, id) else 0
    decreases |a|
  {
    if a != [] {
      var t := s;
      if s.maps[a[0]].isKernel {
        ShareSound(s, p, a[0]);
        t := Share(s, p, a[0]);
      }
      CopyAllSound(t, p, a[1..]);
      var u, m := CopyAll(t, p, a[1..]), Manager(s, p);
      forall id | 0 <= id < |s.maps|
        ensures Count(u.arrays[m], id) == Count(s.arrays[m], id) + if s.maps[id].isKernel then Count(a, id) else 0
      {
        ShareCount(s, p, a[0], id);
      }
    }
  }

  /** A process other than the first gets the kernel's regions of process 0, once. */
  lemma CopyKernelSound(s: Spaces, p: nat)
    requires Sound(s) && p < |s.procs|
    ensures var t, m, zero := CopyKernelRegion(s, p), Manager(s, p), s.arrays[s.processes[0]];
            Sound(t) && |t.procs| == |s.procs| && t.maps == s.maps && t.freed == s.freed && |t.arrays| == |s.arrays| &&
            t.procs == s.procs[m := s.procs[m].(hasKernelRegion := true)] &&
            t == s.(arrays := t.arrays, refs := t.refs, procs := t.procs) &&
            t.arrays == s.arrays[m := t.arrays[m]] &&
            forall id :: 0 <= id < |s.maps| ==>
              Count(t.arrays[m], id) == Count(s.arrays[m], id) +
                if s.maps[id].isKernel && !s.procs[m].hasKernelRegion then Count(zero, id) else 0
  {
    var m, zero := Manager(s, p), s.arrays[s.processes[0]];
    forall k | 0 <= k < |zero|
      ensures zero[k] < |s.maps| && !s.freed[zero[k]]
    {
      Occurs(s, s.processes[0], k);
    }
    CopyAllSound(s, p, zero);
    MarkKernelSound(CopyAll(s, p, zero), m);
  }

  lemma MarkKernelSound(s: Spaces, m: nat)
    requires Sound(s)
    ensures Sound(MarkKernel(s, m))
  {}

  // --- Clearing an address space -----------------------------------------------------------------------

  /** ClearRegions up to the copying of the kernel's regions: p becomes its own manager, with no regions. */
  function Emptied(s: Spaces, p: nat): Spaces {
    if p >= |s.arrays| || p >= |s.procs| then s
    else
      var t := Released(s.(arrays := s.arrays[p := []]), s.arrays[p]);
      t.(procs := s.procs[p := s.procs[p].(manager := p, isClone := false, hasKernelRegion := false)])
  }

  function ClearRegions(s: Spaces, p: nat): Spaces {
    CopyKernelRegion(Emptied(s, p), p)
  }

  lemma ReleasedSound(s: Spaces, p: nat)
    requires Sound(s) && p < |s.arrays|
    ensures var t := Released(s.(arrays := s.arrays[p := []]), s.arrays[p]);
            Sound(t) && t == s.(arrays := s.arrays[p := []], refs := t.refs, freed := t.freed)
  {
    var cut := s.(arrays := s.arrays[p := []]);
    forall id: RegionId
      ensures Total(cut.arrays, id) == Weight(s, id) - Count(s.arrays[p], id) && Count(s.arrays[p], id) <= Weight(cut, id)
    {
      assert Total(s.arrays, id) == Weight(s, id);
      TotalReplaced(s.arrays, p, [], id);
    }
    ReleasedWeight(cut, s.arrays[p]);
  }

  lemma EmptiedSound(s: Spaces, p: nat)
    requires Sound(s) && p < |s.procs|
    ensures var t := Emptied(s, p);
            Sound(t) && t == s.(arrays := s.arrays[p := []], refs := t.refs, freed := t.freed, procs := t.procs) &&
            t.procs == s.procs[p := s.procs[p].(manager := p, isClone := false, hasKernelRegion := false)]
  {
    ReleasedSound(s, p);
  }

  /** exec leaves the process alone in an address space that holds exactly the kernel's regions. */
  lemma ClearSound(s: Spaces, p: nat)
    requires Sound(s) && p < |s.procs| && s.procs[p].pid != 0
    ensures var t := ClearRegions(s, p);
            Sound(t) && |t.arrays| == |s.arrays| && t.arrays == s.arrays[p := t.arrays[p]] && t.maps == s.maps &&
            t == s.(arrays := t.arrays, refs := t.refs, freed := t.freed, procs := t.procs) &&
            t.procs == s.procs[p := s.procs[p].(manager := p, isClone := false, hasKernelRegion := true)] &&
            forall id :: 0 <= id < |s.maps| ==>
              Count(t.arrays[p], id) == if s.maps[id].isKernel then Count(s.arrays[s.processes[0]], id) else 0
  {
    EmptiedSound(s, p);
    var e := Emptied(s, p);
    CopyKernelSound(e, p);
  }

  // --- munmap ----------------------------------------------------------------------------------------

  /** The range removed: a whole region, the end of one, or (when nothing is done) neither. */
  datatype Cut = Whole | Suffix | Nothing

  function CutOf(r: Mapping, vstart: uint32, vend: uint32): Cut {
    if vstart == r.vstart && vend == r.vend then Whole
    else if vstart > r.vstart && vend == r.vend then Suffix
    else Nothing
  }

  /** The manager m gets a region of its own in place of one it shares. */
  function CopyFor(s: Spaces, m: nat, k: nat, r: Mapping): Spaces
    requires m < |s.arrays| && k < |s.arrays[m]| && s.arrays[m][k] < |s.refs|
  {
    var id, n: RegionId := s.arrays[m][k], |s.maps|;
    var a: seq<RegionId> := s.arrays[m][k := n];
    s.(refs := s.refs[id := s.refs[id] - 1] + [0], freed := s.freed + [false],
       maps := s.maps + [r], arrays := s.arrays[m := a])
  }

  /** An array without position k, whose place the last entry takes. */
  function Dropped(a: seq<RegionId>, k: nat): seq<RegionId>
    requires k < |a|
  {
    a[k := a[|a| - 1]][..|a| - 1]
  }

  /** The manager m loses the region at position k; the last entry moves there and the array is sorted again. */
  function Without(s: Spaces, m: nat, k: nat, hash: map<string, RegionId>): Spaces
    requires m < |s.arrays| && k < |s.arrays[m]|
  {
    var a := s.arrays[m];
    Release(s, a[k]).(arrays := s.arrays[m := Resorted(s.maps, Dropped(a, k))], hash := hash)
  }

  /** FindAndRemoveRegion once the search has found position k of the array of the manager m. */
  function Unmap(s: Spaces, m: nat, k: nat, vstart: uint32, vend: uint32): Spaces {
    var a := ArrayOf(s, m);
    if m >= |s.arrays| || k >= |a| || a[k] >= |s.maps| || a[k] >= |s.refs| then s
    else
      var id, r := a[k], s.maps[a[k]];
      match CutOf(r, vstart, vend)
      case Whole => Without(s, m, k, if s.refs[id] == 0 then s.hash - {r.path} else s.hash)
      case Suffix =>
        if s.refs[id] == 0 then s.(maps := s.maps[id := r.(vend := vstart)])
        else CopyFor(s, m, k, r.(vend := vstart))
      case Nothing => s
  }

  lemma WithoutCount(maps: seq<Mapping>, a: seq<RegionId>, k: nat, x: RegionId)
    requires k < |a|
    ensures Count(Resorted(maps, Dropped(a, k)), x) == Count(a, x) - if x == a[k] then 1 else 0
  {
    ResortedCount(maps, Dropped(a, k), x);
    LastMoved(a, k, |a| - 1, x);
  }

  lemma WithoutWeights(s: Spaces, m: nat, k: nat)
    requires Sound(s) && m < |s.arrays| && k < |s.arrays[m]|
    ensures var t, a := Release(s, s.arrays[m][k]), s.arrays[m];
            var b := Resorted(s.maps, Dropped(a, k));
            forall x :: Weight(t, x) + Count(a, x) == Weight(s, x) + Count(b, x) &&
                        Count(b, x) == Count(a, x) - if x == a[k] then 1 else 0
  {
    Occurs(s, m, k);
    forall x: RegionId
      ensures Count(Resorted(s.maps, Dropped(s.arrays[m], k)), x) ==
              Count(s.arrays[m], x) - if x == s.arrays[m][k] then 1 else 0
    {
      WithoutCount(s.maps, s.arrays[m], k, x);
    }
  }

  /** Removing a whole region keeps the invariant, and takes one entry for it out of one array. */
  lemma WithoutSound(s: Spaces, m: nat, k: nat, hash: map<string, RegionId>)
    requires Sound(s) && m < |s.arrays| && k < |s.arrays[m]| && !s.procs[m].isClone
    requires forall path <- hash :: hash[path] < |s.maps|
    ensures var t, a := Without(s, m, k, hash), s.arrays[m];
            Sound(t) && |t.arrays| == |s.arrays| && t.arrays == s.arrays[m := t.arrays[m]] &&
            t == s.(refs := t.refs, freed := t.freed, arrays := t.arrays, hash := hash) &&
            forall x :: Count(t.arrays[m], x) == Count(a, x) - if x == a[k] then 1 else 0
  {
    var t := Release(s, s.arrays[m][k]);
    WithoutWeights(s, m, k);
    ResortedInOrder(s.maps, Dropped(s.arrays[m], k));
    ArrayChanged(s, m, Resorted(s.maps, Dropped(s.arrays[m], k)), t.refs, t.freed, hash);
  }

  /** The only region in use at one place is at no other. */
  lemma UsedOnce(s: Spaces, m: nat, k: nat, q: nat, j: nat)
    requires Counted(s) && m < |s.arrays| && k < |s.arrays[m]| && q < |s.arrays| && j < |s.arrays[q]|
    requires s.arrays[m][k] < |s.refs| && s.refs[s.arrays[m][k]] == 0 && s.arrays[q][j] == s.arrays[m][k]
    ensures q == m && j == k
  {
    var id := s.arrays[m][k];
    assert Total(s.arrays, id) == Weight(s, id);
    Occurs(s, m, k);
    Occurs(s, q, j);
    if q != m {
      TotalOfTwo(s.arrays, m, q, id);
    } else if j != k {
      CountOfTwo(s.arrays[m], if j < k then j else k, if j < k then k else j);
      TotalOf(s.arrays, m, id);
    }
  }

  /** Truncating a region that nobody shares, in place. */
  lemma TruncateInPlace(s: Spaces, m: nat, k: nat, v: uint32)
    requires Sound(s) && m < |s.arrays| && k < |s.arrays[m]|
    requires s.arrays[m][k] < |s.maps| && s.refs[s.arrays[m][k]] == 0
    ensures var id := s.arrays[m][k]; var r := s.maps[id].(vend := v); var maps := s.maps[id := r];
            Sound(s.(maps := maps)) &&
            View(maps, s.arrays[m]) == View(s.maps, s.arrays[m])[k := r] &&
            forall q :: 0 <= q < |s.arrays| && q != m ==> View(maps, s.arrays[q]) == View(s.maps, s.arrays[q])
  {
    var id := s.arrays[m][k];
    var r := s.maps[id].(vend := v);
    var maps := s.maps[id := r];
    forall q | 0 <= q < |s.arrays|
      ensures Starts(maps, s.arrays[q]) == Starts(s.maps, s.arrays[q])
      ensures q != m ==> View(maps, s.arrays[q]) == View(s.maps, s.arrays[q])
    {
      forall j | 0 <= j < |s.arrays[q]| && s.arrays[q][j] == id
        ensures q == m
      {
        UsedOnce(s, m, k, q, j);
      }
    }
    forall j | 0 <= j < |s.arrays[m]|
      ensures s.arrays[m][j] == id ==> j == k
    {
      if s.arrays[m][j] == id {
        UsedOnce(s, m, k, m, j);
      }
    }
    assert forall x :: Weight(s.(maps := maps), x) == Weight(s, x);
  }

  /** Replacing an entry for a shared region by one for a new region. */
  lemma PrivateCopy(s: Spaces, m: nat, k: nat, r: Mapping)
    requires Sound(s) && m < |s.arrays| && k < |s.arrays[m]| && !s.procs[m].isClone
    requires s.arrays[m][k] < |s.maps| && s.refs[s.arrays[m][k]] > 0 && r.vstart == s.maps[s.arrays[m][k]].vstart
    ensures var t := CopyFor(s, m, k, r);
            Sound(t) && View(t.maps, t.arrays[m]) == View(s.maps, s.arrays[m])[k := r] &&
            forall q :: 0 <= q < |s.arrays| && q != m ==> View(t.maps, t.arrays[q]) == View(s.maps, s.arrays[q])
  {
    var a, t := s.arrays[m], CopyFor(s, m, k, r);
    Occurs(s, m, k);
    forall x: RegionId
      ensures Total(t.arrays, x) == Weight(t, x)
    {
      assert Total(s.arrays, x) == Weight(s, x);
      CountUpdate(a, k, |s.maps|, x);
      TotalReplaced(s.arrays, m, a[k := |s.maps|], x);
    }
    forall q | 0 <= q < |s.arrays|
      ensures Starts(t.maps, s.arrays[q]) == Starts(s.maps, s.arrays[q])
      ensures View(t.maps, s.arrays[q]) == View(s.maps, s.arrays[q])
    {
      MapsGrown(s, q, r);
    }
    CopyStarts(s, m, k, r);
  }

  lemma CopyStarts(s: Spaces, m: nat, k: nat, r: Mapping)
    requires Counted(s) && m < |s.arrays| && k < |s.arrays[m]|
    requires s.arrays[m][k] < |s.maps| && r.vstart == s.maps[s.arrays[m][k]].vstart
    ensures var a := s.arrays[m];
            Starts(s.maps + [r], a[k := |s.maps|]) == Starts(s.maps, a) &&
            View(s.maps + [r], a[k := |s.maps|]) == View(s.maps, a)[k := r]
  {
    forall j | 0 <= j < |s.arrays[m]|
      ensures s.arrays[m][j] < |s.maps|
    {
      Occurs(s, m, j);
    }
  }

  /**
   * Removing the end of a region shortens it in this view and in no other: a region that others use
   * as well is copied first.
   */
  lemma UnmapSuffix(s: Spaces, m: nat, k: nat, vstart: uint32, vend: uint32)
    requires Sound(s) && m < |s.arrays| && k < |s.arrays[m]| && !s.procs[m].isClone
    requires s.arrays[m][k] < |s.maps| && CutOf(s.maps[s.arrays[m][k]], vstart, vend) == Suffix
    ensures var t, r := Unmap(s, m, k, vstart, vend), s.maps[s.arrays[m][k]];
            Sound(t) && t.procs == s.procs && t.processes == s.processes && t.current == s.current &&
            |t.arrays| == |s.arrays| && t.arrays == s.arrays[m := t.arrays[m]] &&
            View(t.maps, t.arrays[m]) == View(s.maps, s.arrays[m])[k := r.(vend := vstart)] &&
            forall q :: 0 <= q < |s.arrays| && q != m ==> View(t.maps, t.arrays[q]) == View(s.maps, s.arrays[q])
  {
    var id := s.arrays[m][k];
    if s.refs[id] == 0 {
      TruncateInPlace(s, m, k, vstart);
    } else {
      PrivateCopy(s, m, k, s.maps[id].(vend := vstart));
    }
  }
}
