/**
 * The process and region tables of TraceReader, changed in place by the pid events.
 */
module AddressReading {
  import opened Words
  import opened Searching
  import opened AddressMaps
  import opened AddressChanges
  import opened AddressEvents

  class AddressReader {
    // The regions: their fields, their reference counts, and which have been deleted.
    var maps: seq<Mapping>
    var refs: seq<int>
    var freed: seq<bool>

    // The process states ever made, each with its region array.
    var procs: seq<Process>
    var arrays: seq<seq<RegionId>>

    var processes: map<int, nat>     // processes_: the latest process state of each pid
    var current: nat
    var hash: map<string, RegionId>

    ghost function State(): Spaces
      reads this
    {
      Spaces(maps, refs, freed, procs, arrays, processes, current, hash)
    }

    ghost predicate Valid()
      reads this
    {
      Sound(State())
    }

    /** Process 0 with the predefined regions, each of them used once. */
    constructor ()
      ensures Valid() && State() == FIRST && Space(State(), 0) == [BOOTLOADER, VECTORS, ATOMIC_OPS]
    {
      procs, processes, current := [Process(0, 0, false, false, false)], map[0 := 0], 0;
      maps, refs, freed := [BOOTLOADER, VECTORS, ATOMIC_OPS], [0, 0, 0], [false, false, false];
      arrays := [[0, 1, 2]];
      hash := map["(bootloader)" := 0, "(exception vectors)" := 1, "(atomic ops)" := 2];
      new;
      FirstSound();
    }

    /** ReadKernelSymbols, for the region r that loading the kernel's symbols yields. */
    method ReadKernelSymbols(r: Mapping)
      requires Valid()
      modifies `maps, `refs, `freed, `arrays, `procs, `hash
      ensures Valid() && State() == KernelLoaded(old(State()), r)
    {
      KernelLoadedSound(State(), r);
      var id, zero := |maps|, processes[0];
      maps, refs, freed := maps + [r], refs + [0], freed + [false];
      AddRegion(zero, id);
      procs := procs[zero := procs[zero].(hasKernelRegion := true)];
      hash := hash[r.path := id];
    }

    /** CopyRegions: one more use of each region in the array. */
    method RetainAll(a: seq<RegionId>)
      requires forall k :: 0 <= k < |a| ==> a[k] < |refs|
      modifies `refs
      ensures refs == Retained(old(refs), a)
    {
      var i := 0;
      assert a[0..] == a;
      while i < |a|
        invariant 0 <= i <= |a| && |refs| == |old(refs)| && Retained(refs, a[i..]) == Retained(old(refs), a)
      {
        assert a[i..][1..] == a[i + 1..];
        refs := refs[a[i] := refs[a[i]] + 1];
        i := i + 1;
      }
    }

    /** One use less of a region. */
    method ReleaseOne(id: RegionId)
      requires id < |refs| == |freed|
      modifies `refs, `freed
      ensures State() == Release(old(State()), id) && |refs| == |freed| == |old(refs)|
    {
      if refs[id] > 0 {
        refs := refs[id := refs[id] - 1];
      } else {
        freed := freed[id := true];
      }
    }

    method ReleaseAll(a: seq<RegionId>)
      requires |refs| == |freed| && forall k :: 0 <= k < |a| ==> a[k] < |refs|
      modifies `refs, `freed
      ensures State() == Released(old(State()), a)
    {
      var i := 0;
      assert a[0..] == a;
      while i < |a|
        invariant 0 <= i <= |a| && |refs| == |freed| == |old(refs)|
        invariant Released(State(), a[i..]) == Released(old(State()), a)
      {
        assert a[i..][1..] == a[i + 1..];
        ReleaseOne(a[i]);
        i := i + 1;
      }
    }

    /** AddRegion: at the end of the manager's array, which is then sorted again. */
    method AddRegion(p: nat, id: RegionId)
      requires p < |procs| && procs[p].manager < |arrays|
      modifies `arrays
      ensures var m := procs[p].manager; arrays == old(arrays)[m := Resorted(maps, old(arrays)[m] + [id])]
    {
      var m := procs[p].manager;
      arrays := arrays[m := Resorted(maps, arrays[m] + [id])];
    }

    method ShareRegion(p: nat, id: RegionId)
      requires p < |procs| && procs[p].manager < |arrays| && id < |refs|
      modifies `arrays, `refs
      ensures State() == Share(old(State()), p, id)
      ensures |refs| == |old(refs)| && |arrays| == |old(arrays)|
    {
      AddRegion(p, id);
      refs := refs[id := refs[id] + 1];
    }

    method CopyKernelRegion(p: nat)
      requires Valid() && p < |procs|
      modifies `arrays, `refs, `procs
      ensures State() == AddressChanges.CopyKernelRegion(old(State()), p)
    {
      var m := procs[p].manager;
      if procs[m].hasKernelRegion {
        return;
      }
      CopyLoop(p, arrays[processes[0]]);
      procs := procs[m := procs[m].(hasKernelRegion := true)];
    }

    method CopyLoop(p: nat, a: seq<RegionId>)
      requires p < |procs| && procs[p].manager < |arrays| && |refs| == |maps|
      modifies `arrays, `refs
      ensures State() == CopyAll(old(State()), p, a)
    {
      var i := 0;
      assert a[0..] == a;
      while i < |a|
        invariant 0 <= i <= |a| && |refs| == |maps| && |arrays| == |old(arrays)|
        invariant CopyAll(State(), p, a[i..]) == CopyAll(old(State()), p, a)
      {
        assert a[i..][1..] == a[i + 1..];
        if a[i] < |maps| && maps[a[i]].isKernel {
          ShareRegion(p, a[i]);
        }
        i := i + 1;
      }
    }

    method ClearRegions(p: nat)
      requires Valid() && p < |procs| && procs[p].pid != 0
      modifies `refs, `freed, `arrays, `procs
      ensures Valid() && State() == AddressChanges.ClearRegions(old(State()), p)
    {
      EmptiedSound(State(), p);
      ClearSound(State(), p);
      Empty(p);
      procs := procs[p := procs[p].(manager := p, isClone := false, hasKernelRegion := false)];
      CopyKernelRegion(p);
    }

    method Empty(p: nat)
      requires Valid() && p < |procs|
      modifies `refs, `freed, `arrays
      ensures State() == Released(old(State()).(arrays := old(arrays)[p := []]), old(arrays)[p])
    {
      var a := arrays[p];
      forall k | 0 <= k < |a|
        ensures a[k] < |refs|
      {
        Occurs(State(), p, k);
      }
      arrays := arrays[p := []];
      ReleaseAll(a);
    }

    /** FindRegionIndex: a region starting at addr if there is one, else the last one starting below it, else the first. */
    method FindRegionIndex(m: nat, addr: uint32) returns (k: nat)
      requires Valid() && m < |arrays| && arrays[m] != []
      ensures k < |arrays[m]|
      ensures var keys := Starts(maps, arrays[m]);
              IsClosest(keys, addr, k) || (k == 0 && forall j :: 0 <= j < |keys| ==> keys[j] > addr)
    {
      var low := Closest(Starts(maps, arrays[m]), addr);
      k := if low < 0 then 0 else low;
    }

    /** munmap; k is the position that was found. */
    method FindAndRemoveRegion(vstart: uint32, vend: uint32) returns (k: nat)
      requires Valid() && ArrayOf(State(), Manager(State(), current)) != []
      modifies `maps, `refs, `freed, `arrays, `hash
      ensures var m := Manager(old(State()), current);
              k < |old(arrays)[m]| && State() == Unmap(old(State()), m, k, vstart, vend)
      ensures var keys := Starts(old(maps), old(arrays)[Manager(old(State()), current)]);
              IsClosest(keys, vstart, k) || (k == 0 && forall j :: 0 <= j < |keys| ==> keys[j] > vstart)
    {
      var m := procs[current].manager;
      k := FindRegionIndex(m, vstart);
      Occurs(State(), m, k);
      var r := maps[arrays[m][k]];
      if vstart < r.vstart || vend > r.vend {
        return;
      }
      if vstart == r.vstart && vend == r.vend {
        RemoveAt(m, k);
      } else if vstart > r.vstart && vend == r.vend {
        TruncateAt(m, k, vstart);
      }
    }

    /** The region at position k leaves the array; without other uses it is deleted and its path forgotten. */
    method RemoveAt(m: nat, k: nat)
      requires Valid() && m < |arrays| && k < |arrays[m]| && arrays[m][k] < |maps|
      modifies `refs, `freed, `arrays, `hash
      ensures var id := old(arrays)[m][k];
              State() == Without(old(State()), m, k, if old(refs)[id] == 0 then old(hash) - {maps[id].path} else old(hash))
    {
      var a, id, n := arrays[m], arrays[m][k], |arrays[m]|;
      if refs[id] == 0 {
        hash := hash - {maps[id].path};
      }
      ReleaseOne(id);
      arrays := arrays[m := Resorted(maps, a[k := a[n - 1]][..n - 1])];
    }

    /** The region at position k ends at v from now on: the region itself if it is not shared, else a copy of it. */
    method TruncateAt(m: nat, k: nat, v: uint32)
      requires Valid() && m < |arrays| && k < |arrays[m]| && arrays[m][k] < |maps|
      modifies `maps, `refs, `freed, `arrays
      ensures var id := old(arrays)[m][k]; var r := old(maps)[id].(vend := v);
              State() == if old(refs)[id] == 0 then old(State()).(maps := old(maps)[id := r]) else CopyFor(old(State()), m, k, r)
    {
      var id := arrays[m][k];
      var r := maps[id].(vend := v);
      if refs[id] == 0 {
        maps := maps[id := r];
      } else {
        refs := refs[id := refs[id] - 1] + [0];
        var a: seq<RegionId> := arrays[m][k := |maps|];
        freed, arrays := freed + [false], arrays[m := a];
        maps := maps + [r];
      }
    }
  
    /** The fork of the current process. */
    method ForkChild(pid: nat)
      requires Valid()
      modifies `procs, `arrays, `refs, `processes
      ensures State() == Forked(old(State()), pid)
    {
      var m := procs[current].manager;
      var a := arrays[m];
      forall k | 0 <= k < |a|
        ensures a[k] < |refs|
      {
        Occurs(State(), m, k);
      }
      processes := processes[pid := |procs|];
      procs := procs + [Process(pid, |procs|, false, false, false)];
      arrays := arrays + [a];
      RetainAll(a);
    }

    /** Finds the process of a pid, or makes one and gives it the kernel's regions. */
    method Find(pid: nat)
      requires Valid()
      modifies `procs, `arrays, `refs, `processes
      ensures Valid() && State() == Known(old(State()), pid) && pid in processes
    {
      KnownSound(State(), pid);
      if pid in processes {
        return;
      }
      BlankSound(State(), pid);
      var child := |procs|;
      procs := procs + [Process(pid, child, false, false, false)];
      arrays, processes := arrays + [[]], processes[pid := child];
      CopyKernelRegion(child);
    }

    /** The region for a file that is not mapped there already, with its symbols, its base and its library flag. */
    method MakeRegion(e: PidEvent) returns (r: Mapping)
      requires Valid() && e.Mmap?
      ensures r == Fresh(State(), e)
    {
      var known := e.path in hash;
      var vstart, table, symbols := e.vstart, |maps|, [0];
      if known {
        table, symbols := maps[hash[e.path]].table, maps[hash[e.path]].symbols;
      } else if e.loaded.Unreadable? {
        vstart := 0;
      } else {
        symbols := e.loaded.symbols;
        if e.loaded.Elf? && vstart == 0 {
          vstart := if !e.loaded.zeroFound && |symbols| > 1 then symbols[1] else 0;
        }
      }
      var baseAddr := if |symbols| > 2 && symbols[1] < e.vstart then e.vstart else 0;
      r := Mapping(e.path, vstart, e.vend, baseAddr, e.offset, false, procs[current].hasFirstMmap, known, table, symbols);
    }

    /** mmap: a further use of the region the hash table has for this file and range, or a new region. */
    method MapFile(e: PidEvent)
      requires Valid() && e.Mmap?
      modifies `maps, `refs, `freed, `arrays, `procs, `hash
      ensures State() == Mapped(old(State()), e)
    {
      if e.path in hash && maps[hash[e.path]].vstart == e.vstart && maps[hash[e.path]].vend == e.vend &&
         maps[hash[e.path]].offset == e.offset {
        ShareRegion(current, hash[e.path]);
        return;
      }
      var r := MakeRegion(e);
      NewRegion(r, e.path);
    }

    /** A region of its own in the current address space, the one for its path if that has none yet. */
    method NewRegion(r: Mapping, path: string)
      requires Valid()
      modifies `maps, `refs, `freed, `arrays, `procs, `hash
      ensures var t := MarkMmap(AddNew(old(State()), current, r));
              State() == if path in old(hash) then t else t.(hash := t.hash[path := |old(maps)|])
    {
      var id := |maps|;
      if path !in hash {
        hash := hash[path := id];
      }
      maps, refs, freed := maps + [r], refs + [0], freed + [false];
      procs := procs[current := procs[current].(hasFirstMmap := true)];
      AddRegion(current, id);
    }

    method Apply(e: PidEvent) returns (k: nat)
      requires Valid() && Ready(State(), e)
      modifies this
      ensures State() == Step(old(State()), e, k) && Meets(old(State()), e, k) && Picks(old(State()), e, k)
    {
      k := 0;
      match e {
        case Fork(pid) =>
          ForkChild(pid);
        case Clone(pid) =>
          processes := processes[pid := |procs|];
          procs := procs + [Process(pid, procs[current].manager, true, false, false)];
          arrays := arrays + [[]];
        case Switch(pid) =>
          Find(pid);
          current := processes[pid];
        case Munmap(vstart, vend) =>
          k := FindAndRemoveRegion(vstart, vend);
        case Mmap(_, _, _, _, _) =>
          MapFile(e);
        case Exec =>
          ClearRegions(current);
        case Name(pid) =>
          Find(pid);
        case Other =>
      }
    }

    /** HandlePidEvent; false is the exit on a pid that is too large. k is what the search of a munmap found. */
    method HandlePidEvent(e: PidEvent) returns (ok: bool, k: nat)
      requires Valid() && Ready(State(), e)
      modifies this
      ensures Valid() && (!ok ==> State() == old(State()))
      ensures ok ==> State() == Step(old(State()), e, k) && Meets(old(State()), e, k) && Untouched(old(State()), State(), e) &&
                     Picks(old(State()), e, k)
      ensures ok <==> !TooLarge(e)
    {
      if (e.Fork? || e.Clone? || e.Switch?) && e.pid >= NUM_PIDS {
        return false, 0;
      }
      k := Apply(e);
      StepSound(old(State()), e, k);
      ok := true;
    }
  }
}
