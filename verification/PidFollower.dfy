/**
 * The address spaces at the time of an event (FindCurrentPid of trace_reader.h): the pid events are
 * followed just far enough, and addresses are looked up in the spaces they leave.
 */
module PidFollower {
  import opened Words
  import opened Options
  import opened Folding
  import opened AddressMaps
  import opened AddressEvents
  import opened AddressReading
  import opened Lookup

  datatype Timed = Timed(time: uint64, event: PidEvent)

  /** The first n events are all at or before time. */
  predicate Before(events: seq<Timed>, n: nat, time: uint64) {
    n <= |events| && forall i :: 0 <= i < n ==> events[i].time <= time
  }

  /** They are, and the next is not. */
  predicate IsSplit(events: seq<Timed>, n: nat, time: uint64) {
    Before(events, n, time) && (n < |events| ==> time < events[n].time)
  }

  /** Among the events up to the first that is later than time, one has a pid that is too large. */
  ghost predicate ExitsBy(events: seq<Timed>, time: uint64) {
    exists n: nat :: n < |events| && Before(events, n + 1, time) && TooLarge(events[n].event)
  }

  /** Every event finds what it needs in the state the events before it lead to, whatever their searches find. */
  ghost predicate CanRun(s: Spaces, events: seq<Timed>)
    decreases |events|
  {
    events == [] || TooLarge(events[0].event) ||
    (Ready(s, events[0].event) &&
     forall k: nat :: Meets(s, events[0].event, k) && Picks(s, events[0].event, k) ==>
       CanRun(Step(s, events[0].event, k), events[1..]))
  }

  /** No event up to time takes the pid for a new process or takes anything out of its address space. */
  ghost predicate KeepsCache(s: Spaces, events: seq<Timed>, time: uint64, pid: int)
    decreases |events|
  {
    events == [] || events[0].time > time ||
    (Harmless(s, events[0].event, pid) &&
     forall k: nat :: Meets(s, events[0].event, k) && Picks(s, events[0].event, k) ==>
       KeepsCache(Step(s, events[0].event, k), events[1..], time, pid))
  }

  /** The positions are what the searches of the events may find. */
  ghost predicate Chosen(s: Spaces, es: seq<PidEvent>, ks: seq<nat>)
    requires |es| == |ks|
    decreases |es|
  {
    es == [] || (Meets(s, es[0], ks[0]) && Picks(s, es[0], ks[0]) && Chosen(Step(s, es[0], ks[0]), es[1..], ks[1..]))
  }

  lemma {:induction false} ChosenMore(s: Spaces, es: seq<PidEvent>, ks: seq<nat>, e: PidEvent, k: nat)
    requires |es| == |ks| && Chosen(s, es, ks)
    requires Meets(Final(s, es, ks), e, k) && Picks(Final(s, es, ks), e, k)
    ensures Chosen(s, es + [e], ks + [k]) && Final(s, es + [e], ks + [k]) == Step(Final(s, es, ks), e, k)
    decreases |es|
  {
    if es == [] {
      assert es + [e] == [e] && ks + [k] == [k] && [e][1..] == [] && [k][1..] == [];
    } else {
      assert (es + [e])[1..] == es[1..] + [e] && (ks + [k])[1..] == ks[1..] + [k];
      ChosenMore(Step(s, es[0], ks[0]), es[1..], ks[1..], e, k);
    }
  }

  function EventsOf(events: seq<Timed>): (es: seq<PidEvent>)
    ensures |es| == |events|
  {
    seq(|events|, i requires 0 <= i < |events| => events[i].event)
  }

  /** The state is the one the first n events make of the start, with these positions found; the rest can follow. */
  ghost predicate Reached(start: Spaces, events: seq<Timed>, n: nat, ks: seq<nat>, s: Spaces) {
    n <= |events| && |ks| == n && Chosen(start, EventsOf(events[..n]), ks) && s == Final(start, EventsOf(events[..n]), ks) &&
    CanRun(s, events[n..]) && forall i :: 0 <= i < n ==> !TooLarge(events[i].event)
  }

  ghost function Path(start: Spaces, events: seq<Timed>, n: nat, ks: seq<nat>, s: Spaces): Status {
    if forall k {:trigger Key(k)} :: Key(k) ==> Reached(start, events, n, ks, s) then Folding.Sound else Unsound
  }

  /** No event behind the first n and up to time does anything to the pid's address space that a cache would miss. */
  ghost function Quiet(s: Spaces, events: seq<Timed>, n: nat, time: uint64, pid: int): Status {
    if forall k {:trigger Key(k)} :: Key(k) ==> n <= |events| && KeepsCache(s, events[n..], time, pid) then Folding.Sound else Unsound
  }

  lemma PathStarts(s: Spaces, events: seq<Timed>)
    requires CanRun(s, events)
    ensures Path(s, events, 0, [], s) == Folding.Sound
  {
    assert events[..0] == [] && events[0..] == events;
  }

  /** The event can be handled. */
  ghost function Able(s: Spaces, e: PidEvent): Status {
    if forall k {:trigger Key(k)} :: Key(k) ==> Ready(s, e) then Folding.Sound else Unsound
  }

  /** The event has been handled, and its search has found k. */
  ghost function Took(s: Spaces, e: PidEvent, k: nat, t: Spaces): Status {
    if forall i {:trigger Key(i)} :: Key(i) ==> t == Step(s, e, k) && Meets(s, e, k) && Picks(s, e, k) then Folding.Sound else Unsound
  }

  ghost function Tame(s: Spaces, e: PidEvent, pid: int): Status {
    if forall k {:trigger Key(k)} :: Key(k) ==> Harmless(s, e, pid) then Folding.Sound else Unsound
  }

  lemma PathAble(start: Spaces, events: seq<Timed>, n: nat, ks: seq<nat>, s: Spaces)
    requires Path(start, events, n, ks, s) == Folding.Sound && n < |events|
    ensures Able(s, events[n].event) == Folding.Sound
  {
    assert Key(0);
    assert events[n..][0] == events[n];
  }

  lemma PathMore(start: Spaces, events: seq<Timed>, n: nat, ks: seq<nat>, s: Spaces, k: nat, t: Spaces)
    requires Path(start, events, n, ks, s) == Folding.Sound && n < |events| && !TooLarge(events[n].event)
    requires Took(s, events[n].event, k, t) == Folding.Sound
    ensures Path(start, events, n + 1, ks + [k], t) == Folding.Sound
  {
    assert Key(0);
    ChosenMore(start, EventsOf(events[..n]), ks, events[n].event, k);
    assert EventsOf(events[..n + 1]) == EventsOf(events[..n]) + [events[n].event];
    assert events[n..][0] == events[n] && events[n..][1..] == events[n + 1..];
  }

  lemma QuietMore(s: Spaces, events: seq<Timed>, n: nat, time: uint64, pid: int, k: nat, t: Spaces)
    requires n < |events| && events[n].time <= time && Quiet(s, events, n, time, pid) == Folding.Sound
    requires Took(s, events[n].event, k, t) == Folding.Sound
    ensures Tame(s, events[n].event, pid) == Folding.Sound && Quiet(t, events, n + 1, time, pid) == Folding.Sound
  {
    assert Key(0);
    assert events[n..][0] == events[n] && events[n..][1..] == events[n + 1..];
  }

  ghost function Order(reader: AddressReader): Status
    reads reader
  {
    if forall k {:trigger Key(k)} :: Key(k) ==> reader.Valid() then Folding.Sound else Unsound
  }

  lemma OrderMeans(reader: AddressReader)
    requires Order(reader) == Folding.Sound
    ensures reader.Valid()
  {
    assert Key(0);
  }

  lemma NoExit(start: Spaces, events: seq<Timed>, n: nat, ks: seq<nat>, s: Spaces, time: uint64)
    requires Path(start, events, n, ks, s) == Folding.Sound && IsSplit(events, n, time)
    ensures !ExitsBy(events, time) && Reached(start, events, n, ks, s)
  {
    assert Key(0);
  }

  /** The pid that runs is one of the table's, and the regions mapped for it are in order. */
  ghost predicate TidyCurrent(s: Spaces) {
    s.current < |s.procs| &&
    var pid := s.procs[s.current].pid; pid >= 0 && (pid in s.processes ==> Tidy(Space(s, s.processes[pid])))
  }

  /** So they are in whatever state the events up to a time make. */
  ghost predicate TidyAt(start: Spaces, events: seq<Timed>, time: uint64) {
    forall n: nat, ks, s :: IsSplit(events, n, time) && Reached(start, events, n, ks, s) ==> TidyCurrent(s)
  }

  lemma CacheMeans(functions: FunctionLookup)
    ensures Cache(functions) == Folding.Sound <==> functions.CacheFresh()
  {
    assert Key(0);
  }

  ghost function Cache(functions: FunctionLookup): Status
    reads functions, functions.reader
  {
    if forall k {:trigger Key(k)} :: Key(k) ==> functions.CacheFresh() then Folding.Sound else Unsound
  }

  /** HandlePidEvent; false is the exit on a pid that is too large. */
  method Handle(functions: FunctionLookup, e: PidEvent) returns (ok: bool, k: nat)
    requires Order(functions.reader) == Folding.Sound && Able(functions.reader.State(), e) == Folding.Sound
    modifies functions.reader
    ensures Order(functions.reader) == Folding.Sound && (ok <==> !TooLarge(e))
    ensures ok ==> Took(old(functions.reader.State()), e, k, functions.reader.State()) == Folding.Sound
    ensures ok && old(Cache(functions)) == Folding.Sound && Tame(old(functions.reader.State()), e, functions.cachedPid) == Folding.Sound ==>
              Cache(functions) == Folding.Sound
  {
    assert Key(0);
    ok, k := functions.HandlePidEvent(e);
  }

  lemma NoneTaken(s: Spaces, k: nat, t: Spaces, pid: int)
    ensures Able(s, Other) == Folding.Sound && Tame(s, Other, pid) == Folding.Sound
    ensures Took(s, Other, k, t) == Folding.Sound ==> t == s
  {
    assert Key(0);
  }

  class TraceReader {
    const functions: FunctionLookup
    const reader: AddressReader
    const events: seq<Timed>
    var at: nat
    var next: Timed                  // next_pid_event_; no action at time 0 before anything has been read

    ghost const start: Spaces        // the state before the first event
    ghost var ks: seq<nat>           // what the searches of the events handled have found

    /** How many events have been handled. */
    ghost function Handled(): nat
      reads this
    {
      if at > 0 && next.time != NEVER then at - 1 else at
    }

    ghost predicate Positioned()
      reads this
    {
      at <= |events| && (forall e <- events :: e.time < NEVER) &&
      if at == 0 then (next.time == 0 && next.event == Other) || (next.time == NEVER && events == [])
      else if next.time == NEVER then at == |events|
      else next == events[at - 1]
    }

    ghost predicate Valid()
      reads this, functions, reader
    {
      functions.reader == reader && Order(reader) == Folding.Sound && Positioned() && Path(start, events, Handled(), ks, reader.State()) == Folding.Sound
    }

    constructor (functions: FunctionLookup, events: seq<Timed>)
      requires functions.reader.Valid() && (forall e <- events :: e.time < NEVER) && CanRun(functions.reader.State(), events)
      ensures Valid() && this.functions == functions && this.events == events && start == functions.reader.State() && Handled() == 0
    {
      this.functions, reader, this.events, at, next := functions, functions.reader, events, 0, Timed(0, Other);
      start, ks := functions.reader.State(), [];
      new;
      PathStarts(start, events);
    }

    /** HandlePidEvent on the event read before. */
    method HandleNext(time: uint64) returns (ok: bool)
      requires Valid() && at > 0 && next.time <= time < NEVER && Before(events, at, time)
      modifies `ks, reader
      ensures !ok ==> ExitsBy(events, time)
      ensures ok ==> Order(reader) == Folding.Sound && Path(start, events, at, ks, reader.State()) == Folding.Sound
      ensures ok && old(Fresh(at - 1, time)) ==> Fresh(at, time)
    {
      ghost var s := reader.State();
      PathAble(start, events, at - 1, ks, s);
      var k;
      ok, k := Handle(functions, next.event);
      if ok {
        PathMore(start, events, at - 1, ks, s, k, reader.State());
        if old(Fresh(at - 1, time)) {
          QuietMore(s, events, at - 1, time, functions.cachedPid, k, reader.State());
        }
        ks := ks + [k];
      }
    }

    /** The event before the first is none, and its handling does nothing. */
    method HandleNone()
      requires Valid() && at == 0 && next.event == Other
      modifies reader
      ensures Order(reader) == Folding.Sound && reader.State() == old(reader.State())
      ensures old(Cache(functions)) == Folding.Sound ==> Cache(functions) == Folding.Sound
    {
      ghost var s := reader.State();
      NoneTaken(s, 0, s, functions.cachedPid);
      var ok, k := Handle(functions, next.event);
      NoneTaken(s, k, reader.State(), functions.cachedPid);
    }

    method ReadNext()
      requires functions.reader == reader && at <= |events| && forall e <- events :: e.time < NEVER
      modifies `at, `next
      ensures Positioned() && Handled() == old(at) && (next.time == NEVER || (at == old(at) + 1 && next == events[old(at)]))
    {
      if at == |events| {
        next := next.(time := NEVER);
      } else {
        next := events[at];
        at := at + 1;
      }
    }

    /** One pass of the loop: handles an event and reads one further. */
    method Advance(time: uint64) returns (ok: bool)
      requires Valid() && next.time <= time < NEVER && Before(events, Handled(), time)
      modifies this, reader
      ensures !ok ==> ExitsBy(events, time)
      ensures ok ==> Valid() && Handled() == old(at) && Before(events, Handled(), time)
      ensures ok ==> next.time == NEVER || (at == old(at) + 1 && next == events[old(at)])
      ensures ok && old(Fresh(Handled(), time)) ==> Fresh(Handled(), time)
    {
      ok := true;
      if at == 0 {
        HandleNone();
      } else {
        assert Before(events, at, time);
        ok := HandleNext(time);
      }
      if ok {
        ReadNext();
      }
    }

    /** The lookup cache is fresh, and no event behind the first n and up to time will change that. */
    ghost predicate Fresh(n: nat, time: uint64)
      reads functions, functions.reader
    {
      Cache(functions) == Folding.Sound && Quiet(functions.reader.State(), events, n, time, functions.cachedPid) == Folding.Sound
    }

    /** Handles all events up to the first that is later than time, and no other. */
    method Follow(time: uint64) returns (ok: bool)
      requires Valid() && time < NEVER && Before(events, Handled(), time)
      modifies this, reader
      ensures !ok ==> ExitsBy(events, time)
      ensures ok ==> Valid() && IsSplit(events, Handled(), time)
      ensures ok && old(Fresh(Handled(), time)) ==> Fresh(Handled(), time)
    {
      ok := true;
      while time >= next.time
        invariant Valid() && Before(events, Handled(), time)
        invariant old(Fresh(Handled(), time)) ==> Fresh(Handled(), time)
        decreases |events| - at, if next.time == NEVER then 0 else 1
      {
        ok := Advance(time);
        if !ok {
          return;
        }
      }
    }

    /**
     * FindCurrentPid, for times that do not go back. The address spaces are then those that exactly the
     * events up to the first later one make, and the lookup cache is still fresh if none of them outdates it.
     * False exactly if one of them makes it exit.
     */
    method FindCurrentPid(time: uint64) returns (ok: bool, pid: int)
      requires Valid() && time < NEVER && Before(events, Handled(), time)
      modifies this, reader
      ensures ok <==> !ExitsBy(events, time)
      ensures ok ==> Valid() && IsSplit(events, Handled(), time) && Reached(start, events, Handled(), ks, reader.State())
      ensures ok ==> reader.Valid() && pid == reader.procs[reader.current].pid
      ensures ok && old(Fresh(Handled(), time)) ==> functions.CacheFresh()
    {
      pid := 0;
      ok := Follow(time);
      if ok {
        NoExit(start, events, Handled(), ks, reader.State(), time);
        OrderMeans(reader);
        CacheMeans(functions);
        pid := reader.procs[reader.current].pid;
      }
    }

    /** The symbol of an address at a time: in the address space of the pid that runs then, as it is then. */
    method Resolve(time: uint64, addr: uint32, beyond: int) returns (ok: bool, pid: int, r: Option<SymbolRef>)
      requires Valid() && time < NEVER && Before(events, Handled(), time) && Fresh(Handled(), time)
      requires functions.cachedPid >= 0 ==> functions.cachedIndex >= 0
      requires TidyAt(start, events, time)
      modifies this, reader, functions
      ensures ok <==> !ExitsBy(events, time)
      ensures ok ==> IsSplit(events, Handled(), time) && Reached(start, events, Handled(), ks, reader.State())
      ensures ok ==> Valid() && reader.Valid() && pid == reader.procs[reader.current].pid
      ensures ok ==> r == if pid in reader.processes then Found(functions.View(pid), addr) else None
    {
      r := None;
      ok, pid := FindCurrentPid(time);
      if ok {
        r := functions.LookupFunction(pid, addr, beyond);
      }
    }
  }
}
