/**
 * What reading a basic-block trace means: run-length records, each standing for
 * repeat + 1 executions at a fixed distance, merged into one stream ordered by time.
 */
module BBMerge {
  import opened Words

  datatype BBRec = BBRec(bbNum: uint64, startTime: uint64, repeat: uint64, timeDiff: uint64)

  /** A record being expanded: its next execution is at nextTime, rec.repeat more follow it. */
  datatype TimeRec = TimeRec(rec: BBRec, nextTime: uint64)

  datatype Execution = Execution(bbNum: uint64, time: int)

  // --- The specification: the executions a record stands for ------------------------

  function Expand(bbNum: uint64, time: int, repeat: nat, diff: int): (s: seq<Execution>)
    ensures |s| == repeat + 1
    decreases repeat
  {
    [Execution(bbNum, time)] + if repeat == 0 then [] else Expand(bbNum, time + diff, repeat - 1, diff)
  }

  lemma {:induction false} ExpandAt(bbNum: uint64, time: int, repeat: nat, diff: int, k: nat)
    requires k <= repeat
    ensures Expand(bbNum, time, repeat, diff)[k] == Execution(bbNum, time + k * diff)
    decreases k
  {
    if k > 0 {
      ExpandAt(bbNum, time + diff, repeat - 1, diff, k - 1);
      assert time + diff + (k - 1) * diff == time + k * diff;
    }
  }

  function OfRec(r: BBRec): seq<Execution> { Expand(r.bbNum, r.startTime, r.repeat, r.timeDiff) }

  function OfTimeRec(p: TimeRec): seq<Execution> {
    Expand(p.rec.bbNum, p.nextTime, p.rec.repeat, p.rec.timeDiff)
  }

  function OfRecs(recs: seq<BBRec>): multiset<Execution> {
    if recs == [] then multiset{} else multiset(OfRec(recs[0])) + OfRecs(recs[1..])
  }

  function OfPending(pending: seq<TimeRec>): multiset<Execution> {
    if pending == [] then multiset{} else multiset(OfTimeRec(pending[0])) + OfPending(pending[1..])
  }

  /** Every execution of the record falls within 64-bit time, short of the all-ones time. */
  predicate RecFits(r: BBRec) { r.startTime + r.repeat * r.timeDiff < NEVER }

  predicate PendingFits(p: TimeRec) { p.nextTime + p.rec.repeat * p.rec.timeDiff < NEVER }

  ghost predicate RecsFit(recs: seq<BBRec>) { forall i :: 0 <= i < |recs| ==> RecFits(recs[i]) }

  ghost predicate AllPendingFit(pending: seq<TimeRec>) {
    forall i :: 0 <= i < |pending| ==> PendingFits(pending[i])
  }

  ghost predicate StartsIncrease(recs: seq<BBRec>) {
    forall i, j :: 0 <= i < j < |recs| ==> recs[i].startTime < recs[j].startTime
  }

  // --- The algorithm: one pending list kept in time order ----------------------------

  ghost predicate ByNextTime(pending: seq<TimeRec>) {
    forall i, j :: 0 <= i < j < |pending| ==> pending[i].nextTime <= pending[j].nextTime
  }

  /** Insertion before the first entry that is not earlier. */
  function Insert(p: TimeRec, pending: seq<TimeRec>): (r: seq<TimeRec>)
    ensures |r| == |pending| + 1
  {
    if pending == [] || p.nextTime <= pending[0].nextTime then [p] + pending
    else [pending[0]] + Insert(p, pending[1..])
  }

  function Repeated(p: TimeRec): TimeRec
    requires p.rec.repeat > 0
  {
    TimeRec(p.rec.(repeat := p.rec.repeat - 1), ToUint64(p.nextTime + p.rec.timeDiff))
  }

  function Started(r: BBRec): TimeRec
    requires r.repeat > 0
  {
    TimeRec(r.(repeat := r.repeat - 1), ToUint64(r.startTime + r.timeDiff))
  }

  predicate TakesPending(pending: seq<TimeRec>, recs: seq<BBRec>) {
    pending != [] && (recs == [] || pending[0].nextTime < recs[0].startTime)
  }

  function Work(pending: seq<TimeRec>): nat {
    if pending == [] then 0 else pending[0].rec.repeat + 1 + Work(pending[1..])
  }

  lemma {:induction false} InsertWork(p: TimeRec, pending: seq<TimeRec>)
    ensures Work(Insert(p, pending)) == p.rec.repeat + 1 + Work(pending)
  {
    if pending == [] || p.nextTime <= pending[0].nextTime {
      assert ([p] + pending)[1..] == pending;
    } else {
      InsertWork(p, pending[1..]);
      assert Insert(p, pending)[1..] == Insert(p, pending[1..]);
    }
  }

  function AfterPending(pending: seq<TimeRec>): (r: seq<TimeRec>)
    requires pending != []
    ensures Work(r) == Work(pending) - 1
  {
    if pending[0].rec.repeat > 0 then
      InsertWork(Repeated(pending[0]), pending[1..]);
      Insert(Repeated(pending[0]), pending[1..])
    else pending[1..]
  }

  function AfterRec(pending: seq<TimeRec>, r: BBRec): seq<TimeRec> {
    if r.repeat > 0 then Insert(Started(r), pending) else pending
  }

  /** The whole run of ReadBB from a given state: every step emits one execution. */
  function Run(pending: seq<TimeRec>, recs: seq<BBRec>): seq<Execution>
    decreases |recs|, Work(pending)
  {
    if TakesPending(pending, recs) then
      [Execution(pending[0].rec.bbNum, pending[0].nextTime)] + Run(AfterPending(pending), recs)
    else if recs == [] then []
    else [Execution(recs[0].bbNum, recs[0].startTime)] + Run(AfterRec(pending, recs[0]), recs[1..])
  }

  // One step of the run, part by part.

  function StepEvent(pending: seq<TimeRec>, recs: seq<BBRec>): Execution
    requires pending != [] || recs != []
  {
    if TakesPending(pending, recs) then Execution(pending[0].rec.bbNum, pending[0].nextTime)
    else Execution(recs[0].bbNum, recs[0].startTime)
  }

  function StepPending(pending: seq<TimeRec>, recs: seq<BBRec>): seq<TimeRec>
    requires pending != [] || recs != []
  {
    if TakesPending(pending, recs) then AfterPending(pending) else AfterRec(pending, recs[0])
  }

  function StepRecs(pending: seq<TimeRec>, recs: seq<BBRec>): seq<BBRec>
    requires pending != [] || recs != []
  {
    if TakesPending(pending, recs) then recs else recs[1..]
  }

  // --- Every run emits exactly the executions, in time order --------------------------

  lemma Prepend<T>(x: T, s: seq<T>)
    ensures multiset([x] + s) == multiset{x} + multiset(s)
  {}

  lemma PendingSplit(p: TimeRec, pending: seq<TimeRec>)
    ensures OfPending([p] + pending) == multiset(OfTimeRec(p)) + OfPending(pending)
  {
    assert ([p] + pending)[1..] == pending;
  }

  lemma {:induction false} InsertKeepsEntries(p: TimeRec, pending: seq<TimeRec>)
    ensures multiset(Insert(p, pending)) == multiset{p} + multiset(pending)
  {
    if pending == [] || p.nextTime <= pending[0].nextTime {
      Prepend(p, pending);
    } else {
      InsertKeepsEntries(p, pending[1..]);
      Prepend(pending[0], Insert(p, pending[1..]));
      Prepend(pending[0], pending[1..]);
      assert pending == [pending[0]] + pending[1..];
    }
  }

  lemma {:induction false} InsertContents(p: TimeRec, pending: seq<TimeRec>)
    ensures OfPending(Insert(p, pending)) == multiset(OfTimeRec(p)) + OfPending(pending)
  {
    if pending == [] || p.nextTime <= pending[0].nextTime {
      PendingSplit(p, pending);
    } else {
      InsertContents(p, pending[1..]);
      PendingSplit(pending[0], Insert(p, pending[1..]));
    }
  }

  lemma {:induction false} InsertOrder(p: TimeRec, pending: seq<TimeRec>)
    requires ByNextTime(pending)
    ensures ByNextTime(Insert(p, pending))
  {
    if pending == [] || p.nextTime <= pending[0].nextTime {
    } else {
      InsertOrder(p, pending[1..]);
      InsertKeepsEntries(p, pending[1..]);
      forall q | q in Insert(p, pending[1..])
        ensures pending[0].nextTime <= q.nextTime
      {
        assert q in multiset(Insert(p, pending[1..]));
      }
    }
  }

  lemma InsertFits(p: TimeRec, pending: seq<TimeRec>, lo: int)
    requires PendingFits(p) && AllPendingFit(pending)
    requires lo <= p.nextTime && forall q :: q in pending ==> lo <= q.nextTime
    ensures AllPendingFit(Insert(p, pending))
    ensures forall q :: q in Insert(p, pending) ==> lo <= q.nextTime
  {
    InsertKeepsEntries(p, pending);
    forall q | q in Insert(p, pending)
      ensures PendingFits(q) && lo <= q.nextTime
    {
      assert q in multiset(Insert(p, pending));
    }
  }

  /** Advancing an entry drops exactly its first execution, and its time does not wrap. */
  lemma RepeatedDropsFirst(p: TimeRec)
    requires p.rec.repeat > 0 && PendingFits(p)
    ensures PendingFits(Repeated(p)) && Repeated(p).nextTime == p.nextTime + p.rec.timeDiff
    ensures OfTimeRec(p) == [Execution(p.rec.bbNum, p.nextTime)] + OfTimeRec(Repeated(p))
  {
    var n, d := p.rec.repeat, p.rec.timeDiff;
    assert n * d == d + (n - 1) * d;
    assert (n - 1) * d >= 0;
  }

  lemma StartedDropsFirst(r: BBRec)
    requires r.repeat > 0 && RecFits(r)
    ensures PendingFits(Started(r)) && Started(r).nextTime == r.startTime + r.timeDiff
    ensures OfRec(r) == [Execution(r.bbNum, r.startTime)] + OfTimeRec(Started(r))
  {
    RepeatedDropsFirst(TimeRec(r, r.startTime));
  }

  /** What one step keeps. */
  lemma AfterPendingKeeps(pending: seq<TimeRec>)
    requires pending != [] && AllPendingFit(pending) && ByNextTime(pending)
    ensures AllPendingFit(AfterPending(pending)) && ByNextTime(AfterPending(pending))
    ensures forall q :: q in AfterPending(pending) ==> pending[0].nextTime <= q.nextTime
  {
    var p, rest := pending[0], pending[1..];
    if p.rec.repeat > 0 {
      RepeatedDropsFirst(p);
      InsertOrder(Repeated(p), rest);
      InsertFits(Repeated(p), rest, p.nextTime);
    }
  }

  lemma AfterRecKeeps(pending: seq<TimeRec>, r: BBRec)
    requires AllPendingFit(pending) && ByNextTime(pending) && RecFits(r)
    requires forall q :: q in pending ==> r.startTime <= q.nextTime
    ensures AllPendingFit(AfterRec(pending, r)) && ByNextTime(AfterRec(pending, r))
    ensures forall q :: q in AfterRec(pending, r) ==> r.startTime <= q.nextTime
  {
    if r.repeat > 0 {
      StartedDropsFirst(r);
      InsertOrder(Started(r), pending);
      InsertFits(Started(r), pending, r.startTime);
    }
  }

  /** A step takes exactly the execution it emits out of what is still owed. */
  lemma AfterPendingContents(p: TimeRec, rest: seq<TimeRec>)
    requires PendingFits(p)
    ensures OfPending([p] + rest)
         == multiset{Execution(p.rec.bbNum, p.nextTime)} + OfPending(AfterPending([p] + rest))
  {
    PendingSplit(p, rest);
    assert ([p] + rest)[1..] == rest;
    if p.rec.repeat > 0 {
      RepeatedDropsFirst(p);
      Prepend(Execution(p.rec.bbNum, p.nextTime), OfTimeRec(Repeated(p)));
      InsertContents(Repeated(p), rest);
    } else {
      assert OfTimeRec(p) == [Execution(p.rec.bbNum, p.nextTime)];
      assert AfterPending([p] + rest) == rest;
    }
  }

  lemma AfterRecContents(pending: seq<TimeRec>, r: BBRec)
    requires RecFits(r)
    ensures multiset(OfRec(r)) + OfPending(pending)
         == multiset{Execution(r.bbNum, r.startTime)} + OfPending(AfterRec(pending, r))
  {
    if r.repeat > 0 {
      StartedDropsFirst(r);
      Prepend(Execution(r.bbNum, r.startTime), OfTimeRec(Started(r)));
      InsertContents(Started(r), pending);
    }
  }

  ghost predicate InTimeOrder(s: seq<Execution>) {
    forall i, j :: 0 <= i < j < |s| ==> s[i].time <= s[j].time
  }

  /** First half of the merge theorem: events come out in nondecreasing time order. */
  lemma {:induction false} RunOrder(pending: seq<TimeRec>, recs: seq<BBRec>, lo: int)
    requires AllPendingFit(pending) && ByNextTime(pending) && RecsFit(recs) && StartsIncrease(recs)
    requires forall q :: q in pending ==> lo <= q.nextTime
    requires recs != [] ==> lo <= recs[0].startTime
    ensures InTimeOrder(Run(pending, recs))
    ensures forall e :: e in Run(pending, recs) ==> lo <= e.time
    decreases |recs|, Work(pending)
  {
    if TakesPending(pending, recs) {
      AfterPendingKeeps(pending);
      RunOrder(AfterPending(pending), recs, pending[0].nextTime);
    } else if recs != [] {
      AfterRecKeeps(pending, recs[0]);
      RunOrder(AfterRec(pending, recs[0]), recs[1..], recs[0].startTime);
    }
  }

  /** Second half: they are exactly the executions the records stand for, each as often as owed. */
  lemma {:induction false} RunContents(pending: seq<TimeRec>, recs: seq<BBRec>)
    requires AllPendingFit(pending) && ByNextTime(pending) && RecsFit(recs) && StartsIncrease(recs)
    ensures multiset(Run(pending, recs)) == OfPending(pending) + OfRecs(recs)
    decreases |recs|, Work(pending), 1
  {
    if TakesPending(pending, recs) {
      RunContentsPending(pending[0], pending[1..], pending, recs);
    } else if recs != [] {
      RunContentsRec(pending, recs);
    }
  }

  lemma {:induction false} RunContentsPending(p: TimeRec, rest: seq<TimeRec>, pending: seq<TimeRec>, recs: seq<BBRec>)
    requires AllPendingFit(pending) && ByNextTime(pending) && RecsFit(recs) && StartsIncrease(recs)
    requires TakesPending(pending, recs) && pending == [p] + rest
    ensures multiset(Run(pending, recs)) == OfPending(pending) + OfRecs(recs)
    decreases |recs|, Work(pending), 0
  {
    var e, after := Execution(p.rec.bbNum, p.nextTime), AfterPending(pending);
    AfterPendingKeeps(pending);
    RunContents(after, recs);
    assert Run(pending, recs) == [e] + Run(after, recs);
    Prepend(e, Run(after, recs));
    AfterPendingContents(p, rest);
    Regroup(e, OfPending(after), OfRecs(recs), OfPending(pending), multiset(Run(after, recs)));
  }

  lemma Regroup<T>(e: T, after: multiset<T>, others: multiset<T>, before: multiset<T>, run: multiset<T>)
    requires before == multiset{e} + after && run == after + others
    ensures multiset{e} + run == before + others
  {}

  lemma {:induction false} RunContentsRec(pending: seq<TimeRec>, recs: seq<BBRec>)
    requires AllPendingFit(pending) && ByNextTime(pending) && RecsFit(recs) && StartsIncrease(recs)
    requires !TakesPending(pending, recs) && recs != []
    ensures multiset(Run(pending, recs)) == OfPending(pending) + OfRecs(recs)
    decreases |recs|, Work(pending), 0
  {
    var r, after := recs[0], AfterRec(pending, recs[0]);
    var e := Execution(r.bbNum, r.startTime);
    AfterRecKeeps(pending, r);
    RunContents(after, recs[1..]);
    Prepend(e, Run(after, recs[1..]));
    AfterRecContents(pending, r);
    Regroup(e, OfPending(after), OfRecs(recs[1..]), multiset(OfRec(r)) + OfPending(pending),
            multiset(Run(after, recs[1..])));
    assert OfRecs(recs) == multiset(OfRec(r)) + OfRecs(recs[1..]);
  }

  /** Each step spends one repetition, so a run is as long as the repetitions still owed. */
  lemma {:induction false} RunLength(pending: seq<TimeRec>, recs: seq<BBRec>)
    ensures |Run(pending, recs)| == Work(pending) + |OfRecs(recs)|
    decreases |recs|, Work(pending)
  {
    if TakesPending(pending, recs) {
      RunLength(AfterPending(pending), recs);
    } else if recs != [] {
      if recs[0].repeat > 0 {
        InsertWork(Started(recs[0]), pending);
      }
      RunLength(AfterRec(pending, recs[0]), recs[1..]);
    }
  }

  // --- How many entries are outstanding -------------------------------------------------

  function Max(a: nat, b: nat): nat { if a < b then b else a }

  /** The most entries the run ever holds at once. */
  function Peak(pending: seq<TimeRec>, recs: seq<BBRec>): nat
    decreases |recs|, Work(pending)
  {
    if TakesPending(pending, recs) then Max(|pending|, Peak(AfterPending(pending), recs))
    else if recs == [] then |pending|
    else Max(|pending|, Peak(AfterRec(pending, recs[0]), recs[1..]))
  }

  function Repeaters(recs: seq<BBRec>): nat {
    if recs == [] then 0 else (if recs[0].repeat > 0 then 1 else 0) + Repeaters(recs[1..])
  }

  /** A record without repetitions never occupies an entry. */
  lemma {:induction false} PeakOfRepeaters(pending: seq<TimeRec>, recs: seq<BBRec>)
    ensures |pending| <= Peak(pending, recs) <= |pending| + Repeaters(recs)
    decreases |recs|, Work(pending)
  {
    if TakesPending(pending, recs) {
      PeakOfRepeaters(AfterPending(pending), recs);
    } else if recs != [] {
      PeakOfRepeaters(AfterRec(pending, recs[0]), recs[1..]);
    }
  }

  /** One step of the run, and what it needs of the entries. */
  lemma {:induction false} RunStep(pending: seq<TimeRec>, recs: seq<BBRec>)
    requires pending != [] || recs != []
    ensures Run(pending, recs)
         == [StepEvent(pending, recs)] + Run(StepPending(pending, recs), StepRecs(pending, recs))
    ensures Peak(StepPending(pending, recs), StepRecs(pending, recs)) <= Peak(pending, recs)
    ensures !TakesPending(pending, recs) && recs[0].repeat > 0 ==> |pending| < Peak(pending, recs)
  {
    PeakOfRepeaters(StepPending(pending, recs), StepRecs(pending, recs));
  }
}
