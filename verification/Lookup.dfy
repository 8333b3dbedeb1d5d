/**
 * From an address to a function: two binary searches, and a cache of the last answer
 * (FindRegion, FindFunction and LookupFunction of trace_reader.h).
 */
module Lookup {
  import opened Words
  import opened Options
  import opened Searching
  import opened AddressMaps
  import opened AddressEvents
  import opened AddressReading

  /** A symbol: its array and its position there. */
  datatype SymbolRef = SymbolRef(table: nat, index: int)

  /** The position of the last key at or below addr, or -1. */
  function LastAtMost(keys: seq<int>, addr: int): (k: int)
    ensures -1 <= k < |keys|
  {
    if keys == [] then -1
    else if keys[|keys| - 1] <= addr then |keys| - 1
    else LastAtMost(keys[..|keys| - 1], addr)
  }

  lemma {:induction false} LastAtMostIsClosest(keys: seq<int>, addr: int)
    requires Sorted(keys)
    ensures IsClosest(keys, addr, LastAtMost(keys, addr))
  {
    if keys != [] && keys[|keys| - 1] > addr {
      LastAtMostIsClosest(keys[..|keys| - 1], addr);
      assert forall j :: 0 <= j < |keys| - 1 ==> keys[j] == keys[..|keys| - 1][j];
    }
  }

  /** Symbol addresses rise strictly. An ELF file's begin at 0, a dex file's at its first method. */
  predicate TidySymbols(symbols: seq<uint32>) {
    |symbols| > 0 && StrictlySorted(symbols)
  }

  /** Nonempty regions in order that do not overlap, each with its symbols in order. */
  predicate Tidy(view: seq<Mapping>) {
    |view| > 0 &&
    (forall i :: 0 <= i < |view| ==> view[i].vstart < view[i].vend && TidySymbols(view[i].symbols)) &&
    forall i, j :: 0 <= i < j < |view| ==> view[i].vend <= view[j].vstart
  }

  function StartsOf(view: seq<Mapping>): (s: seq<int>)
    ensures |s| == |view|
  {
    seq(|view|, i requires 0 <= i < |view| => view[i].vstart)
  }

  function Offset(r: Mapping, addr: uint32): uint32 {
    (addr - r.baseAddr) % TWO32
  }

  /** The region FindRegion picks: the last that starts at or below addr, or the first of all. */
  function RegionAt(view: seq<Mapping>, addr: uint32): (k: nat)
    requires |view| > 0
    ensures k < |view|
  {
    var k := LastAtMost(StartsOf(view), addr);
    if k < 0 then 0 else k
  }

  /** The answer without the cache: the last symbol at or below addr in that region; index -1 if there is none. */
  function Uncached(view: seq<Mapping>, addr: uint32): SymbolRef
    requires |view| > 0
  {
    var r := view[RegionAt(view, addr)];
    SymbolRef(r.table, LastAtMost(r.symbols, Offset(r, addr)))
  }

  function Found(view: seq<Mapping>, addr: uint32): Option<SymbolRef>
    requires |view| > 0
  {
    if Uncached(view, addr).index < 0 then None else Some(Uncached(view, addr))
  }

  /** There is no answer exactly for addresses before the first symbol of their region. */
  lemma NoSymbolIff(view: seq<Mapping>, addr: uint32)
    requires Tidy(view)
    ensures var r := view[RegionAt(view, addr)];
            Uncached(view, addr).index < 0 <==> Offset(r, addr) < r.symbols[0]
  {
    var r := view[RegionAt(view, addr)];
    LastAtMostIsClosest(r.symbols, Offset(r, addr));
  }

  /** Symbol j of region r is hit: addr is in the region, at or after the symbol and before the next. */
  predicate Hits(r: Mapping, j: nat, addr: uint32, beyond: int)
    requires j < |r.symbols|
  {
    r.vstart <= addr < r.vend &&
    r.symbols[j] <= Offset(r, addr) < if j + 1 < |r.symbols| then r.symbols[j + 1] else beyond
  }

  /**
   * A hit gives the answer the two searches would give. For the last symbol the code compares with
   * whatever lies behind the array: any value there is harmless.
   */
  lemma HitAgrees(view: seq<Mapping>, k: nat, j: nat, addr: uint32, beyond: int)
    requires Tidy(view) && k < |view| && j < |view[k].symbols| && Hits(view[k], j, addr, beyond)
    ensures Uncached(view, addr) == SymbolRef(view[k].table, j)
  {
    var keys, r := StartsOf(view), view[k];
    TidyIsSorted(view);
    LastAtMostIsClosest(keys, addr);
    assert IsClosest(keys, addr, k) by {
      assert forall i :: k < i < |keys| ==> r.vend <= keys[i];
    }
    ClosestIsUnique(keys, addr, k, LastAtMost(keys, addr));
    LastAtMostIsClosest(r.symbols, Offset(r, addr));
    ClosestIsUnique(r.symbols, Offset(r, addr), j, LastAtMost(r.symbols, Offset(r, addr)));
  }

  lemma TidyIsSorted(view: seq<Mapping>)
    requires Tidy(view)
    ensures StrictlySorted(StartsOf(view))
  {}

  lemma SymbolFound(symbols: seq<uint32>, offset: int, j: int)
    requires TidySymbols(symbols) && IsClosest(symbols, offset, j)
    ensures j == LastAtMost(symbols, offset)
  {
    LastAtMostIsClosest(symbols, offset);
    ClosestIsUnique(symbols, offset, j, LastAtMost(symbols, offset));
  }

  /** When the search picks symbol j: at or after it and before the next. */
  lemma LastAtMostIff(symbols: seq<uint32>, offset: int, j: nat)
    requires TidySymbols(symbols) && j < |symbols|
    ensures LastAtMost(symbols, offset) == j <==> symbols[j] <= offset && (j + 1 < |symbols| ==> offset < symbols[j + 1])
  {
    LastAtMostIsClosest(symbols, offset);
    if symbols[j] <= offset && (j + 1 < |symbols| ==> offset < symbols[j + 1]) {
      assert forall i :: j + 1 < i < |symbols| ==> symbols[j + 1] < symbols[i];
      ClosestIsUnique(symbols, offset, j, LastAtMost(symbols, offset));
    }
  }

  /**
   * Whether or not region r is still mapped: the answer of a hit in it is right if and only if the region
   * that is at the address now has the same symbol array and finds the same symbol in it from its own base.
   */
  lemma HitRightIff(view: seq<Mapping>, r: Mapping, j: nat, addr: uint32, beyond: int)
    requires Tidy(view) && TidySymbols(r.symbols) && j < |r.symbols| && Hits(r, j, addr, beyond)
    requires forall i :: 0 <= i < |view| && view[i].table == r.table ==> view[i].symbols == r.symbols
    ensures var now := view[RegionAt(view, addr)];
            Uncached(view, addr) == SymbolRef(r.table, j) <==>
            now.table == r.table && r.symbols[j] <= Offset(now, addr) &&
            (j + 1 < |r.symbols| ==> Offset(now, addr) < r.symbols[j + 1])
  {
    LastAtMostIff(r.symbols, Offset(view[RegionAt(view, addr)], addr), j);
  }

  /** If the regions that share its symbol array have one base: if and only if one of them is at the address. */
  lemma HitRightIffTable(view: seq<Mapping>, r: Mapping, j: nat, addr: uint32, beyond: int)
    requires Tidy(view) && TidySymbols(r.symbols) && j < |r.symbols| && Hits(r, j, addr, beyond)
    requires forall i :: 0 <= i < |view| && view[i].table == r.table ==>
               view[i].symbols == r.symbols && view[i].baseAddr == r.baseAddr
    ensures Uncached(view, addr) == SymbolRef(r.table, j) <==> view[RegionAt(view, addr)].table == r.table
  {
    LastAtMostIff(r.symbols, Offset(r, addr), j);
  }

  /** No new process takes the pid, and no munmap or exec changes its address space. */
  predicate Harmless(s: Spaces, e: PidEvent, pid: int) {
    pid in s.processes ==>
      ((e.Fork? || e.Clone?) ==> e.pid != pid) && (Touches(s, e, s.processes[pid]) ==> e.Mmap?)
  }

  class FunctionLookup {
    const reader: AddressReader
    var cachedPid: int              // -1 before the first lookup
    var cachedRegion: RegionId      // cached_func_->region
    var cachedIndex: int            // cached_func_, in the symbols of that region; -1: NULL

    /** The cached region is still in the array the cached process uses. */
    ghost predicate CacheFresh()
      reads this, reader
    {
      cachedPid >= 0 ==>
        cachedPid in reader.processes && cachedRegion < |reader.maps| &&
        cachedRegion in ArrayOf(reader.State(), Manager(reader.State(), reader.processes[cachedPid])) &&
        cachedIndex < |reader.maps[cachedRegion].symbols|
    }

    /** The process was looked up last and had no function at the address: its next lookup follows a NULL pointer. */
    predicate CachedNull(pid: int)
      reads this
    {
      cachedPid == pid && cachedIndex < 0
    }

    ghost function View(pid: int): seq<Mapping>
      requires pid in reader.processes
      reads reader
    {
      Space(reader.State(), reader.processes[pid])
    }

    constructor (reader: AddressReader)
      ensures this.reader == reader && CacheFresh()
    {
      this.reader, cachedPid, cachedRegion, cachedIndex := reader, -1, 0, 0;
    }

    /**
     * LookupFunction. With a fresh cache the answer is always the one the searches give in the process's
     * address space as it is now, and the cache stays fresh. It holds a NULL pointer for the process
     * exactly if there is a process but no function.
     */
    method LookupFunction(pid: nat, addr: uint32, beyond: int) returns (r: Option<SymbolRef>)
      requires reader.Valid() && CacheFresh() && (pid in reader.processes ==> Tidy(View(pid))) && !CachedNull(pid)
      modifies this
      ensures CacheFresh()
      ensures r == if pid in reader.processes then Found(View(pid), addr) else None
      ensures CachedNull(pid) <==> pid in reader.processes && r == None
    {
      if cachedPid == pid {
        var region := reader.maps[cachedRegion];
        if addr >= region.vstart && addr < region.vend {
          var offset := (addr - region.baseAddr) % TWO32;
          var next := if cachedIndex + 1 < |region.symbols| then region.symbols[cachedIndex + 1] else beyond;
          if offset >= region.symbols[cachedIndex] && offset < next {
            CachedAnswer(addr, beyond);
            return Some(SymbolRef(region.table, cachedIndex));
          }
        }
      }
      if pid !in reader.processes {
        cachedPid := -1;
        return None;
      }
      r := Search(pid, addr);
    }

    lemma CachedAnswer(addr: uint32, beyond: int)
      requires reader.Valid() && CacheFresh() && cachedPid >= 0 && cachedIndex >= 0 && Tidy(View(cachedPid))
      requires Hits(reader.maps[cachedRegion], cachedIndex, addr, beyond)
      ensures Uncached(View(cachedPid), addr) == SymbolRef(reader.maps[cachedRegion].table, cachedIndex)
    {
      var a := ArrayOf(reader.State(), Manager(reader.State(), reader.processes[cachedPid]));
      var k :| 0 <= k < |a| && a[k] == cachedRegion;
      assert View(cachedPid)[k] == reader.maps[cachedRegion];
      HitAgrees(View(cachedPid), k, cachedIndex, addr, beyond);
    }

    /** The lookup without the cache, which then remembers the answer. */
    method Search(pid: nat, addr: uint32) returns (r: Option<SymbolRef>)
      requires reader.Valid() && pid in reader.processes && Tidy(View(pid))
      modifies this
      ensures CacheFresh() && r == Found(View(pid), addr) && (CachedNull(pid) <==> r == None)
    {
      var m := reader.procs[reader.processes[pid]].manager;
      var k := reader.FindRegionIndex(m, addr);
      FoundRegion(pid, m, k, addr);
      var id := reader.arrays[m][k];
      var region := reader.maps[id];
      var j := Closest(region.symbols, (addr - region.baseAddr) % TWO32);
      SymbolFound(region.symbols, Offset(region, addr), j);
      cachedPid, cachedRegion, cachedIndex := pid, id, j;
      r := if j < 0 then None else Some(SymbolRef(region.table, j));
    }

    lemma FoundRegion(pid: nat, m: nat, k: nat, addr: uint32)
      requires reader.Valid() && pid in reader.processes && Tidy(View(pid))
      requires m == Manager(reader.State(), reader.processes[pid]) && k < |reader.arrays[m]|
      requires var keys := Starts(reader.maps, reader.arrays[m]);
               IsClosest(keys, addr, k) || (k == 0 && forall j :: 0 <= j < |keys| ==> keys[j] > addr)
      ensures reader.arrays[m][k] < |reader.maps| && reader.maps[reader.arrays[m][k]] == View(pid)[k]
      ensures k == RegionAt(View(pid), addr)
    {
      forall i | 0 <= i < |reader.arrays[m]|
        ensures reader.arrays[m][i] < |reader.maps|
      {
        Occurs(reader.State(), m, i);
      }
      var keys := StartsOf(View(pid));
      assert keys == Starts(reader.maps, reader.arrays[m]);
      TidyIsSorted(View(pid));
      LastAtMostIsClosest(keys, addr);
      if IsClosest(keys, addr, k) {
        ClosestIsUnique(keys, addr, k, LastAtMost(keys, addr));
      }
    }
  
    /**
     * A pid event between lookups. The cache stays fresh unless a new process takes the cached pid, or a
     * munmap or exec changes the address space it was filled from.
     */
    method HandlePidEvent(e: PidEvent) returns (ok: bool, k: nat)
      requires reader.Valid() && Ready(reader.State(), e)
      modifies reader
      ensures reader.Valid() && (ok <==> !TooLarge(e))
      ensures ok ==> reader.State() == Step(old(reader.State()), e, k) && Meets(old(reader.State()), e, k) &&
                     Picks(old(reader.State()), e, k)
      ensures !ok ==> reader.State() == old(reader.State())
      ensures old(CacheFresh()) && Harmless(old(reader.State()), e, cachedPid) ==> CacheFresh()
    {
      ghost var s := reader.State();
      ok, k := reader.HandlePidEvent(e);
      if ok && cachedPid >= 0 && old(CacheFresh()) && Harmless(s, e, cachedPid) {
        ProcessStays(s, e, k, cachedPid);
        RegionStays(s, e, k, s.processes[cachedPid], cachedRegion);
      }
    }
  }
}
