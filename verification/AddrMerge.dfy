/** The address trace: delta-coded loads and stores, read one record ahead and merged by time. */
module AddrMerge {
  import opened Words

  /** A record of an address file: differences to the record before it. */
  datatype RawAddr = RawAddr(addrDiff: int64, timeDiff: uint64)

  datatype Access = Access(time: uint64, addr: uint32)

  datatype Event = Event(access: Access, isStore: bool)

  /** The accesses a file stands for; two zero differences end it, wherever they are. */
  function Accesses(raw: seq<RawAddr>, time: uint64, addr: uint32): seq<Access> {
    if raw == [] || (raw[0].addrDiff % TWO32 == 0 && raw[0].timeDiff == 0) then []
    else
      var t, a := ToUint64(time + raw[0].timeDiff), (addr + raw[0].addrDiff) % TWO32;
      [Access(t, a)] + Accesses(raw[1..], t, a)
  }

  // --- Merging ------------------------------------------------------------------------------------

  /** The earlier of the two next accesses first; on a tie the load. */
  function Merge(loads: seq<Access>, stores: seq<Access>): seq<Event>
    decreases |loads| + |stores|
  {
    if loads == [] && stores == [] then []
    else if stores == [] || (loads != [] && loads[0].time <= stores[0].time) then
      [Event(loads[0], false)] + Merge(loads[1..], stores)
    else
      [Event(stores[0], true)] + Merge(loads, stores[1..])
  }

  /** The accesses of one kind in a merged trace. */
  function Only(events: seq<Event>, stores: bool): seq<Access> {
    if events == [] then []
    else (if events[0].isStore == stores then [events[0].access] else []) + Only(events[1..], stores)
  }

  /** Merging loses, repeats and reorders nothing within either file. */
  lemma {:induction false} MergeKeepsBoth(loads: seq<Access>, stores: seq<Access>)
    ensures Only(Merge(loads, stores), false) == loads && Only(Merge(loads, stores), true) == stores
    decreases |loads| + |stores|
  {
    var m := Merge(loads, stores);
    if loads == [] && stores == [] {
    } else if stores == [] || (loads != [] && loads[0].time <= stores[0].time) {
      MergeKeepsBoth(loads[1..], stores);
      assert m[1..] == Merge(loads[1..], stores);
    } else {
      MergeKeepsBoth(loads, stores[1..]);
      assert m[1..] == Merge(loads, stores[1..]);
    }
  }

  ghost predicate Rising(a: seq<Access>) {
    forall i, j :: 0 <= i < j < |a| ==> a[i].time <= a[j].time
  }

  ghost predicate InTimeOrder(events: seq<Event>, from: int) {
    (forall i :: 0 <= i < |events| ==> from <= events[i].access.time) &&
    forall i, j :: 0 <= i < j < |events| ==>
      events[i].access.time <= events[j].access.time
  }

  /** If neither file goes back in time, the merged trace does not. */
  lemma {:induction false} MergeInOrder(loads: seq<Access>, stores: seq<Access>, from: int)
    requires Rising(loads) && Rising(stores)
    requires (loads != [] ==> from <= loads[0].time) && (stores != [] ==> from <= stores[0].time)
    ensures InTimeOrder(Merge(loads, stores), from)
    decreases |loads| + |stores|
  {
    if loads == [] && stores == [] {
    } else if stores == [] || (loads != [] && loads[0].time <= stores[0].time) {
      MergeInOrder(loads[1..], stores, loads[0].time);
    } else {
      MergeInOrder(loads, stores[1..], stores[0].time);
    }
  }

  // --- The readers ---------------------------------------------------------------------------------

  class AddrReader {
    const raw: seq<RawAddr>
    var at: nat
    var prevTime: uint64
    var prevAddr: uint32

    ghost predicate Valid()
      reads this
    {
      at <= |raw|
    }

    ghost function Remaining(): seq<Access>
      requires Valid()
      reads this
    {
      Accesses(raw[at..], prevTime, prevAddr)
    }

    constructor (raw: seq<RawAddr>)
      ensures Valid() && Remaining() == Accesses(raw, 0, 0)
    {
      this.raw, at, prevTime, prevAddr := raw, 0, 0, 0;
      new;
      assert raw[0..] == raw;
    }

    method ReadAddr() returns (eof: bool, access: Access)
      requires Valid()
      modifies this
      ensures Valid() && (eof <==> old(Remaining()) == [])
      ensures !eof ==> [access] + Remaining() == old(Remaining())
    {
      if at == |raw| || (raw[at].addrDiff % TWO32 == 0 && raw[at].timeDiff == 0) {
        return true, Access(0, 0);
      }
      assert raw[at..][1..] == raw[at + 1..];
      prevTime, prevAddr := ToUint64(prevTime + raw[at].timeDiff), (prevAddr + raw[at].addrDiff) % TWO32;
      at := at + 1;
      return false, Access(prevTime, prevAddr);
    }
  }

  class AddrTrace {
    const loadReader: AddrReader
    const storeReader: AddrReader
    var loadEof: bool
    var storeEof: bool
    var load: Access
    var store: Access

    ghost predicate Valid()
      reads this, loadReader, storeReader
    {
      loadReader != storeReader && loadReader.Valid() && storeReader.Valid()
    }

    ghost function Loads(): seq<Access>
      requires Valid()
      reads this, loadReader, storeReader
    {
      if loadEof then [] else [load] + loadReader.Remaining()
    }

    ghost function Stores(): seq<Access>
      requires Valid()
      reads this, loadReader, storeReader
    {
      if storeEof then [] else [store] + storeReader.Remaining()
    }

    /** Open reads the first record of each file. */
    constructor (loads: seq<RawAddr>, stores: seq<RawAddr>)
      ensures Valid() && fresh(loadReader) && fresh(storeReader)
      ensures Loads() == Accesses(loads, 0, 0) && Stores() == Accesses(stores, 0, 0)
    {
      var l := new AddrReader(loads);
      var s := new AddrReader(stores);
      var le, la := l.ReadAddr();
      var se, sa := s.ReadAddr();
      loadReader, storeReader, loadEof, load, storeEof, store := l, s, le, la, se, sa;
    }

    /** TraceReaderBase::ReadAddr */
    method ReadAddr() returns (eof: bool, event: Event)
      requires Valid()
      modifies this, loadReader, storeReader
      ensures Valid() && (eof <==> old(Loads()) == [] && old(Stores()) == [])
      ensures !eof ==> [event] + Merge(Loads(), Stores()) == Merge(old(Loads()), old(Stores()))
    {
      if loadEof && storeEof {
        return true, Event(Access(0, 0), false);
      }
      eof := false;
      if storeEof || (!loadEof && load.time <= store.time) {
        event := Event(load, false);
        assert Loads()[1..] == loadReader.Remaining();
        loadEof, load := loadReader.ReadAddr();
      } else {
        event := Event(store, true);
        assert Stores()[1..] == storeReader.Remaining();
        storeEof, store := storeReader.ReadAddr();
      }
    }

    /** The loop of a client. */
    method ReadAll() returns (events: seq<Event>)
      requires Valid()
      modifies this, loadReader, storeReader
      ensures events == old(Merge(Loads(), Stores()))
    {
      ghost var all := Merge(Loads(), Stores());
      ghost var rest := all;
      events := [];
      while true
        invariant Valid() && rest == Merge(Loads(), Stores()) && events + rest == all
        decreases |rest|
      {
        var eof, event := ReadAddr();
        if eof {
          break;
        }
        rest := Merge(Loads(), Stores());
        Associative(events, [event], rest);
        events := events + [event];
      }
    }
  }
}
