/**
 * BBReader: decodes basic-block records, expands their repetitions through the futures table
 * and annotates each event from the lookahead files (trace_reader.cpp, trace_reader_base.h).
 */
module BBReading {
  import opened Words
  import opened Decoding
  import opened BBMerge
  import opened BBStream
  import opened Chains
  import opened Futures
  import opened Lookahead
  import opened Folding

  datatype BBEvent = BBEvent(time: uint64, bbNum: uint64, numInsns: int, pid: int)

  /** Fatal is the exit of the decoder on a truncated file. */
  datatype ReadResult = EndOfFile | Fatal | Read(event: BBEvent)

  /** The event for an execution that is the n-th of the run. */
  predicate Reports(files: SideFiles, event: BBEvent, e: Execution, n: nat) {
    0 <= e.time < NEVER && event.time == e.time && event.bbNum == e.bbNum &&
    event.numInsns == InsnsOf(files.excs, 0, n, files.staticInsns(e.bbNum)) &&
    event.pid == PidAt(files.pids, e.time)
  }

  /** Event i reports execution i of the run and has ordinal start + i + 1. */
  predicate Reported(files: SideFiles, events: seq<BBEvent>, run: seq<Execution>, start: nat) {
    |events| <= |run| && forall i :: 0 <= i < |events| ==> Reports(files, events[i], run[i], start + i + 1)
  }

  /** The run so far is reported, and rest is what is left of it. */
  ghost predicate Progress(files: SideFiles, events: seq<BBEvent>, run: seq<Execution>, start: nat, rest: seq<Execution>) {
    Reported(files, events, run, start) && run[|events|..] == rest
  }

  lemma ProgressStep(files: SideFiles, events: seq<BBEvent>, event: BBEvent, e: Execution, n: nat,
                     run: seq<Execution>, start: nat, rest: seq<Execution>)
    requires Progress(files, events, run, start, [e] + rest)
    requires n == start + |events| + 1 && Reports(files, event, e, n)
    ensures Progress(files, events + [event], run, start, rest) && |rest| < |run[|events|..]|
  {
    assert run[|events|..][0] == e;
    assert run[|events| + 1..] == run[|events|..][1..];
  }

  /** The invariant of the merge, with lo the time of the last event. */
  ghost predicate Mergeable(pending: seq<TimeRec>, recs: seq<BBRec>, lo: int) {
    AllPendingFit(pending) && ByNextTime(pending) && RecsFit(recs) && StartsIncrease(recs) &&
    (forall q :: q in pending ==> lo <= q.nextTime) && (recs != [] ==> lo <= recs[0].startTime)
  }

  lemma NotNegative(a: nat, b: nat)
    ensures a * b >= 0
  {}

  lemma MergeAfterPending(pending: seq<TimeRec>, recs: seq<BBRec>, lo: int)
    requires Mergeable(pending, recs, lo) && TakesPending(pending, recs)
    ensures lo <= pending[0].nextTime < NEVER
    ensures Mergeable(AfterPending(pending), recs, pending[0].nextTime)
  {
    AfterPendingKeeps(pending);
    assert pending[0] in pending && PendingFits(pending[0]);
    NotNegative(pending[0].rec.repeat, pending[0].rec.timeDiff);
  }

  lemma MergeAfterRec(pending: seq<TimeRec>, recs: seq<BBRec>, lo: int)
    requires Mergeable(pending, recs, lo) && !TakesPending(pending, recs) && recs != []
    ensures lo <= recs[0].startTime < NEVER
    ensures Mergeable(AfterRec(pending, recs[0]), recs[1..], recs[0].startTime)
  {
    AfterRecKeeps(pending, recs[0]);
    assert RecFits(recs[0]);
    NotNegative(recs[0].repeat, recs[0].timeDiff);
  }

  const ZERO_REC := BBRec(0, 0, 0, 0)

  class BBReader {
    var nextrec: BBRec
    var isEof: bool
    const table: FutureTable
    const decoder: Decoder
    const trace: TraceReaderBase

    /** The side files are read with objects of their own. */
    ghost predicate Apart() {
      this !in trace.repr && table !in trace.repr && table.next !in trace.repr && table.bb !in trace.repr &&
      decoder !in trace.repr && decoder.buf !in trace.repr && trace !in trace.repr
    }

    ghost function Parts(): set<object>
      reads this
    {
      {this, table, table.next, table.bb, decoder, decoder.buf, trace} + trace.repr
    }

    /** The records not yet started, and how their file ends. */
    ghost function Ahead(): Stream
      requires decoder.Valid()
      reads this, decoder, decoder.buf
    {
      if isEof then Stream([], EndMark)
      else var more := Parse(nextrec, decoder.Remaining()); Stream([nextrec] + more.recs, more.ending)
    }

    ghost predicate Objects()
      reads Parts()
    {
      table.Valid() && decoder.Valid() && Apart() && trace.Status() == Sound
    }

    ghost predicate Valid()
      reads Parts()
    {
      Objects() && Mergeable(table.Pending(), Ahead().recs, trace.lastTime)
    }

    /** The first three codes of a record; ok is false on a truncated file. */
    method DecodeHead() returns (ok: bool, bbDiff: int64, timeDelta: int64, repeat: int64)
      requires decoder.Valid()
      modifies decoder, decoder.buf
      ensures decoder.Valid()
      ensures var h := ReadHead(old(decoder.Remaining()));
              h.Head? ==> ok && h == Head(bbDiff, timeDelta, repeat, decoder.Remaining())
      ensures ReadHead(old(decoder.Remaining())) == NoHead(Cut) ==> !ok
    {
      ok, bbDiff, timeDelta, repeat := false, 0, 0, 0;
      var a := decoder.Decode(true);
      if a.Truncated? {
        return;
      }
      var b := decoder.Decode(false);
      if b.Truncated? {
        return;
      }
      var c := decoder.Decode(false);
      if c.Truncated? {
        return;
      }
      return true, a.val, b.val, c.val;
    }

    /** The next record from the file into nextrec. */
    method DecodeNextRec() returns (fatal: bool, eof: bool)
      requires decoder.Valid()
      modifies `nextrec, decoder, decoder.buf
      ensures decoder.Valid()
      ensures match ReadRec(old(nextrec), old(decoder.Remaining()))
              case Next(rec, rest) => !fatal && !eof && nextrec == rec && decoder.Remaining() == rest
              case Stop(EndMark) => !fatal && eof
              case Stop(Cut) => fatal
              case Stop(ReservedByte) => true
    {
      var ok, bbDiff, timeDelta, repeat := DecodeHead();
      if !ok {
        return true, false;
      }
      nextrec := nextrec.(repeat := ToUint64(repeat));
      if ToUint64(timeDelta) == 0 {
        return false, true;
      }
      if nextrec.repeat != 0 {
        var timeDiff := decoder.Decode(false);
        if timeDiff.Truncated? {
          return true, false;
        }
        nextrec := nextrec.(timeDiff := ToUint64(timeDiff.val));
      }
      nextrec := Moved(nextrec, bbDiff, timeDelta);
      return false, false;
    }

    constructor (contents: seq<byte>, capacity: nat, trace: TraceReaderBase)
      requires capacity > 0
      ensures fresh(table) && fresh(table.next) && fresh(table.bb) && fresh(decoder) && fresh(decoder.buf) && this.trace == trace
      ensures decoder.Valid() && decoder.Remaining() == contents && nextrec == ZERO_REC
      ensures table.Valid() && table.active == [] && |table.spare| == capacity == table.next.Length
    {
      table := new FutureTable(capacity);
      decoder := new Decoder.Open(contents);
      this.trace := trace;
      nextrec, isEof := ZERO_REC, true;
    }

    /** Reads the first record. */
    method Open() returns (fatal: bool)
      requires Objects() && table.active == [] && nextrec == ZERO_REC
      requires var s := Parse(ZERO_REC, decoder.Remaining());
               s.ending != ReservedByte && Mergeable([], s.recs, trace.lastTime)
      modifies this, decoder, decoder.buf
      ensures fatal <==> ReadRec(ZERO_REC, old(decoder.Remaining())) == Stop(Cut)
      ensures !fatal ==> Valid() && Ahead() == Parse(ZERO_REC, old(decoder.Remaining()))
    {
      ParseStep(ZERO_REC, decoder.Remaining());
      fatal, isEof := DecodeNextRec();
    }

    /** The event for an execution, with the lookahead files read up to its time. */
    method MakeEvent(bbNum: uint64, time: uint64) returns (event: BBEvent)
      requires trace.Status() == Sound && trace.bbRecnum > 0 && trace.lastTime <= time < NEVER
      modifies trace, trace.repr
      ensures trace.Status() == Sound && trace.lastTime == time && trace.bbRecnum == old(trace.bbRecnum)
      ensures Reports(trace.files, event, Execution(bbNum, time), trace.bbRecnum)
    {
      assert Key(0);
      var numInsns := trace.FindNumInsns(bbNum);
      var pid := trace.FindCurrentPid(time);
      event := BBEvent(time, bbNum, numInsns, pid);
    }

    /** Emits the earliest pending future and moves it on, or frees it. */
    method ReadPending() returns (event: BBEvent)
      requires Objects() && trace.bbRecnum > 0 && table.active != []
      requires trace.lastTime <= table.Pending()[0].nextTime < NEVER
      modifies table, table.next, table.bb, trace, trace.repr
      ensures Objects() && trace.bbRecnum == old(trace.bbRecnum) && Ahead() == old(Ahead())
      ensures trace.lastTime == old(table.Pending())[0].nextTime
      ensures table.Pending() == AfterPending(old(table.Pending()))
      ensures var p := old(table.Pending())[0];
              Reports(trace.files, event, Execution(p.rec.bbNum, p.nextTime), trace.bbRecnum)
      ensures |table.active| + |table.spare| == old(|table.active| + |table.spare|)
    {
      var bb := table.bb[table.head];
      event := MakeEvent(bb.rec.bbNum, bb.nextTime);
      table.AdvanceHead();
    }

    /** Emits the next record's first execution and keeps its repetitions, if any, as a future. */
    method EmitRecord() returns (event: BBEvent)
      requires Objects() && trace.bbRecnum > 0 && trace.lastTime <= nextrec.startTime < NEVER
      requires nextrec.repeat > 0 ==> table.spare != []
      modifies table, table.next, table.bb, trace, trace.repr
      ensures Objects() && trace.bbRecnum == old(trace.bbRecnum) && decoder.Remaining() == old(decoder.Remaining())
      ensures trace.lastTime == nextrec.startTime
      ensures table.Pending() == AfterRec(old(table.Pending()), nextrec)
      ensures Reports(trace.files, event, Execution(nextrec.bbNum, nextrec.startTime), trace.bbRecnum)
      ensures |table.active| + |table.spare| == old(|table.active| + |table.spare|)
    {
      event := MakeEvent(nextrec.bbNum, nextrec.startTime);
      if nextrec.repeat > 0 {
        table.AddStarted(nextrec);
      }
    }

    /** The next record's turn: emit it, then read one record further. */
    method ReadRecord() returns (fatal: bool, event: BBEvent)
      requires Objects() && trace.bbRecnum > 0 && !isEof && trace.lastTime <= nextrec.startTime < NEVER
      requires Ahead().ending != ReservedByte && (nextrec.repeat > 0 ==> table.spare != [])
      modifies this, table, table.next, table.bb, decoder, decoder.buf, trace, trace.repr
      ensures Objects() && trace.bbRecnum == old(trace.bbRecnum) && trace.lastTime == old(nextrec).startTime
      ensures fatal <==> |old(Ahead()).recs| == 1 && old(Ahead()).ending == Cut
      ensures !fatal ==> Ahead() == Stream(old(Ahead()).recs[1..], old(Ahead()).ending)
      ensures table.Pending() == AfterRec(old(table.Pending()), old(nextrec))
      ensures Reports(trace.files, event, Execution(old(nextrec).bbNum, old(nextrec).startTime), trace.bbRecnum)
      ensures |table.active| + |table.spare| == old(|table.active| + |table.spare|)
    {
      event := EmitRecord();
      fatal := ReadAhead();
    }

    /** Reads the record behind the one that has had its turn. */
    method ReadAhead() returns (fatal: bool)
      requires Objects() && !isEof && Ahead().ending != ReservedByte
      modifies `nextrec, `isEof, decoder, decoder.buf
      ensures Objects()
      ensures fatal <==> |old(Ahead()).recs| == 1 && old(Ahead()).ending == Cut
      ensures !fatal ==> Ahead() == Stream(old(Ahead()).recs[1..], old(Ahead()).ending)
    {
      ParseStep(nextrec, decoder.Remaining());
      fatal, isEof := DecodeNextRec();
    }

    /** The next event is the last record of a truncated file: reading past it exits. */
    ghost predicate CutShort()
      reads Parts()
      requires Objects()
    {
      !TakesPending(table.Pending(), Ahead().recs) && |Ahead().recs| == 1 && Ahead().ending == Cut
    }

    ghost predicate HasRoom()
      reads Parts()
      requires Objects()
    {
      !isEof && !TakesPending(table.Pending(), Ahead().recs) && nextrec.repeat > 0 ==> table.spare != []
    }

    /** BBReader::ReadBB: the earlier of the first future and the next record; a tie goes to the record. */
    method ReadBB() returns (r: ReadResult)
      requires Valid() && trace.bbRecnum > 0 && Ahead().ending != ReservedByte && HasRoom()
      modifies this, table, table.next, table.bb, decoder, decoder.buf, trace, trace.repr
      ensures trace.bbRecnum == old(trace.bbRecnum)
      ensures old(table.Pending() == [] && Ahead().recs == []) ==> r == EndOfFile && Valid()
      ensures old(CutShort()) ==> r == Fatal
      ensures old(!CutShort() && (table.Pending() != [] || Ahead().recs != [])) ==>
        var pending, recs := old(table.Pending()), old(Ahead().recs);
        r.Read? && Reports(trace.files, r.event, StepEvent(pending, recs), trace.bbRecnum) && Valid() &&
        table.Pending() == StepPending(pending, recs) &&
        Ahead() == Stream(StepRecs(pending, recs), old(Ahead().ending))
      ensures |table.active| + |table.spare| == old(|table.active| + |table.spare|)
    {
      ghost var pending, ahead := table.Pending(), Ahead();
      if isEof && table.head == NULL {
        return EndOfFile;
      }
      if table.head != NULL && (isEof || table.bb[table.head].nextTime < nextrec.startTime) {
        MergeAfterPending(pending, ahead.recs, trace.lastTime);
        var event := ReadPending();
        return Read(event);
      }
      MergeAfterRec(pending, ahead.recs, trace.lastTime);
      var fatal, event := ReadRecord();
      if fatal {
        return Fatal;
      }
      return Read(event);
    }

    method CountEvent()
      requires Valid() && trace.bbRecnum < TWO64 - 1
      modifies trace
      ensures Valid() && trace.bbRecnum == old(trace.bbRecnum) + 1
      ensures table.Pending() == old(table.Pending()) && Ahead() == old(Ahead()) && HasRoom() == old(HasRoom())
    {
      assert Key(0);
      trace.CountEvent();
    }

    /** TraceReaderBase::ReadBB: counts the event, then reads it. */
    method NextEvent() returns (r: ReadResult)
      requires Valid() && trace.bbRecnum < TWO64 - 1 && Ahead().ending != ReservedByte && HasRoom()
      modifies this, table, table.next, table.bb, decoder, decoder.buf, trace, trace.repr
      ensures trace.bbRecnum == old(trace.bbRecnum) + 1
      ensures old(table.Pending() == [] && Ahead().recs == []) ==> r == EndOfFile && Valid()
      ensures old(CutShort()) ==> r == Fatal
      ensures old(!CutShort() && (table.Pending() != [] || Ahead().recs != [])) ==>
        var pending, recs := old(table.Pending()), old(Ahead().recs);
        r.Read? && Reports(trace.files, r.event, StepEvent(pending, recs), trace.bbRecnum) && Valid() &&
        table.Pending() == StepPending(pending, recs) &&
        Ahead() == Stream(StepRecs(pending, recs), old(Ahead().ending))
      ensures |table.active| + |table.spare| == old(|table.active| + |table.spare|)
    {
      CountEvent();
      r := ReadBB();
    }

    /**
     * The loop of every client: read events until end of file. They are the merged run, annotated;
     * so they come in time order and are exactly the executions the trace stands for.
     */
    method ReadAll() returns (events: seq<BBEvent>, fatal: bool)
      requires Valid() && Ahead().ending != ReservedByte
      requires Peak(table.Pending(), Ahead().recs) <= |table.active| + |table.spare|
      requires trace.bbRecnum + |Run(table.Pending(), Ahead().recs)| < TWO64 - 1
      modifies this, table, table.next, table.bb, decoder, decoder.buf, trace, trace.repr
      ensures fatal <==> old(Ahead().ending) == Cut
      ensures var run := old(Run(table.Pending(), Ahead().recs));
        (!fatal ==> |events| == |run|) && Reported(trace.files, events, run, old(trace.bbRecnum))
    {
      ghost var pending, ahead, capacity := table.Pending(), Ahead(), |table.active| + |table.spare|;
      ghost var run, start := Run(pending, ahead.recs), trace.bbRecnum;
      ghost var rest := run;
      events, fatal := [], false;
      while true
        invariant Valid() && |table.active| + |table.spare| == capacity
        invariant table.Pending() == pending && Ahead() == ahead && ahead.ending == old(Ahead().ending)
        invariant trace.bbRecnum == start + |events|
        invariant Peak(pending, ahead.recs) <= capacity
        invariant rest == Run(pending, ahead.recs) && |events| + |rest| == |run|
        invariant Progress(trace.files, events, run, start, rest)
        decreases |rest|
      {
        if pending != [] || ahead.recs != [] {
          RunStep(pending, ahead.recs);
        }
        var r := NextEvent();
        if r.EndOfFile? {
          break;
        }
        if r.Fatal? {
          fatal := true;
          break;
        }
        ghost var e, after, recs := StepEvent(pending, ahead.recs), StepPending(pending, ahead.recs), StepRecs(pending, ahead.recs);
        ProgressStep(trace.files, events, r.event, e, trace.bbRecnum, run, start, Run(after, recs));
        events, rest := events + [r.event], Run(after, recs);
        pending, ahead := after, Stream(recs, ahead.ending);
      }
    }
  }

  function Executions(events: seq<BBEvent>): seq<Execution> {
    seq(|events|, i requires 0 <= i < |events| => Execution(events[i].bbNum, events[i].time))
  }

  lemma WholeRun(files: SideFiles, recs: seq<BBRec>, events: seq<BBEvent>)
    requires RecsFit(recs) && StartsIncrease(recs)
    requires |events| == |Run([], recs)| && Reported(files, events, Run([], recs), 0)
    ensures TraceRead(files, recs, events)
  {
    RunOrder([], recs, 0);
    RunContents([], recs);
    assert Executions(events) == Run([], recs);
  }

  /** What a reader of the trace may rely on. */
  ghost predicate TraceRead(files: SideFiles, recs: seq<BBRec>, events: seq<BBEvent>) {
    InTimeOrder(Executions(events)) && multiset(Executions(events)) == OfRecs(recs) &&
    forall i :: 0 <= i < |events| ==> Reports(files, events[i], Executions(events)[i], i + 1)
  }

  /** TraceReaderBase::Open: a reader positioned at the first record. */
  method OpenTrace(contents: seq<byte>, side: SideBytes, capacity: nat) returns (reader: BBReader, fatal: bool)
    requires var s := Parse(ZERO_REC, contents);
             s.ending != ReservedByte && RecsFit(s.recs) && StartsIncrease(s.recs)
    requires capacity > 0 && side.Complete()
    ensures fatal <==> ReadRec(ZERO_REC, contents) == Stop(Cut)
    ensures fresh(reader) && fresh(reader.table) && fresh(reader.table.next) && fresh(reader.table.bb) && fresh(reader.decoder)
    ensures fresh(reader.decoder.buf) && fresh(reader.trace) && fresh(reader.trace.repr)
    ensures !fatal ==> reader.Valid() && reader.Ahead() == Parse(ZERO_REC, contents) &&
                       reader.table.active == [] && |reader.table.spare| == capacity &&
                       reader.trace.bbRecnum == 0 && reader.trace.files == side.Files()
  {
    reader := NewReader(contents, side, capacity);
    fatal := reader.Open();
  }

  method NewReader(contents: seq<byte>, side: SideBytes, capacity: nat) returns (reader: BBReader)
    requires capacity > 0 && side.Complete()
    ensures fresh(reader) && fresh(reader.table) && fresh(reader.table.next) && fresh(reader.table.bb) && fresh(reader.decoder)
    ensures fresh(reader.decoder.buf) && fresh(reader.trace) && fresh(reader.trace.repr)
    ensures reader.Objects()
    ensures reader.decoder.Remaining() == contents && reader.nextrec == ZERO_REC
    ensures reader.table.active == [] && |reader.table.spare| == capacity
    ensures reader.trace.bbRecnum == 0 && reader.trace.lastTime == 0 && reader.trace.files == side.Files()
  {
    var trace := OpenSideFiles(side);
    reader := new BBReader(contents, capacity, trace);
  }

  method OpenSideFiles(side: SideBytes) returns (trace: TraceReaderBase)
    requires side.Complete()
    ensures fresh(trace) && fresh(trace.repr) && trace !in trace.repr && trace.Status() == Sound
    ensures trace.bbRecnum == 0 && trace.lastTime == 0 && trace.files == side.Files()
  {
    trace := new TraceReaderBase(side);
    trace.Folded();
  }

  /**
   * A whole trace, from the bytes of its three files to its events: the events are in time order, they are
   * exactly the executions the records stand for, and each carries its pid and instruction count.
   */
  method ReadTrace(contents: seq<byte>, side: SideBytes, capacity: nat) returns (events: seq<BBEvent>, fatal: bool)
    requires var s := Parse(ZERO_REC, contents);
             s.ending != ReservedByte && RecsFit(s.recs) && StartsIncrease(s.recs) &&
             Peak([], s.recs) <= capacity && |OfRecs(s.recs)| < TWO64 - 1
    requires capacity > 0 && side.Complete()
    ensures fatal <==> Parse(ZERO_REC, contents).ending == Cut
    ensures !fatal ==> TraceRead(side.Files(), Parse(ZERO_REC, contents).recs, events)
  {
    ghost var recs := Parse(ZERO_REC, contents).recs;
    ParseStep(ZERO_REC, contents);
    var reader;
    reader, fatal := OpenTrace(contents, side, capacity);
    if fatal {
      return [], true;
    }
    RunLength([], recs);
    assert reader.table.Pending() == [];
    events, fatal := reader.ReadAll();
    if !fatal {
      WholeRun(side.Files(), recs, events);
    }
  }
}
