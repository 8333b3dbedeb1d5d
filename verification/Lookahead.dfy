/**
 * The lookahead readers of TraceReaderBase: which pid runs at a given time, and which
 * basic block was cut short by an exception. Both read delta-coded side files just far enough.
 */
module Lookahead {
  import opened Words
  import opened Options
  import opened Folding
  import opened Decoding
  import BBStream
  import opened SideStream

  // --- The pid file -------------------------------------------------------------------

  /** The time of the k-th record (counting from 1): the running sum of the differences. */
  function TimeAt(raw: seq<RawPid>, k: nat): uint64
    requires k <= |raw|
  {
    if k == 0 then 0 else TimeAfter(TimeAt(raw, k - 1), raw[k - 1])
  }

  function TimeAfter(time: uint64, rec: RawPid): uint64 { ToUint64(time + rec.timeDiff) }

  /** Times never wrap, so they are in file order. */
  ghost predicate TimesOrdered(raw: seq<RawPid>) {
    forall i, j :: 0 <= i <= j <= |raw| ==> TimeAt(raw, i) <= TimeAt(raw, j)
  }

  /** The pid of the last switch at or before time t among the first k records; 0 if there is none. */
  function LastSwitch(raw: seq<RawPid>, k: nat, t: int): int
    requires k <= |raw|
  {
    if k == 0 then 0
    else if raw[k - 1].isSwitch && TimeAt(raw, k) <= t then raw[k - 1].pid
    else LastSwitch(raw, k - 1, t)
  }

  function PidAt(raw: seq<RawPid>, t: int): int { LastSwitch(raw, |raw|, t) }

  lemma {:induction false} LaterRecordsDoNotCount(raw: seq<RawPid>, k: nat, m: nat, t: int)
    requires k <= m <= |raw| && forall i :: k < i <= m ==> TimeAt(raw, i) > t
    ensures LastSwitch(raw, m, t) == LastSwitch(raw, k, t)
  {
    if k < m {
      LaterRecordsDoNotCount(raw, k, m - 1, t);
    }
  }

  ghost predicate SwitchesBy(raw: seq<RawPid>, k: nat, t: int)
    requires k <= |raw|
  {
    forall i :: 0 < i <= k && raw[i - 1].isSwitch ==> TimeAt(raw, i) <= t
  }

  lemma {:induction false} LastSwitchSettled(raw: seq<RawPid>, k: nat, t: int, u: int)
    requires k <= |raw| && SwitchesBy(raw, k, t) && t <= u
    ensures LastSwitch(raw, k, t) == LastSwitch(raw, k, u)
  {
    if k > 0 {
      LastSwitchSettled(raw, k - 1, t, u);
    }
  }

  /** The rest of the pid file holds the records from at on, and then its end record. */
  ghost function PidsAhead(kinds: int -> PidKind, left: seq<byte>, raw: seq<RawPid>, at: nat): Status {
    if forall k {:trigger Key(k)} :: Key(k) ==> at <= |raw| && ParsePids(kinds, left) == File(raw[at..], BBStream.EndMark)
    then Sound else Unsound
  }

  lemma PidsStart(kinds: int -> PidKind, contents: seq<byte>)
    requires ParsePids(kinds, contents).ending == BBStream.EndMark
    ensures PidsAhead(kinds, contents, ParsePids(kinds, contents).raw, 0) == Sound
  {
    assert ParsePids(kinds, contents).raw[0..] == ParsePids(kinds, contents).raw;
  }

  lemma NextPid(kinds: int -> PidKind, s: seq<byte>, raw: seq<RawPid>, at: nat, r: Result<Option<RawPid>>, left: seq<byte>)
    requires PidsAhead(kinds, s, raw, at) == Sound && Record(ReadPid(kinds, s), r, left) == Sound
    ensures at <= |raw| && r.Ok? && (r.value.None? <==> at == |raw|)
    ensures at < |raw| ==> r.value == Some(raw[at]) && PidsAhead(kinds, left, raw, at + 1) == Sound
  {
    assert Key(0);
    if at < |raw| {
      assert raw[at..][0] == raw[at] && raw[at..][1..] == raw[at + 1..];
    }
  }

  /** The times have been added up so far. */
  ghost function Timed(raw: seq<RawPid>, at: nat, time: uint64): Status {
    if forall k {:trigger Key(k)} :: Key(k) ==> at <= |raw| && time == TimeAt(raw, at) then Sound else Unsound
  }

  method AddTime(ghost raw: seq<RawPid>, ghost at: nat, time: uint64, rec: RawPid) returns (next: uint64)
    requires Timed(raw, at, time) == Sound && at < |raw| && rec == raw[at]
    ensures Timed(raw, at + 1, next) == Sound && next == TimeAt(raw, at + 1)
  {
    assert Key(0);
    next := TimeAfter(time, rec);
  }

  class PidReader {
    const kinds: int -> PidKind      // what the numbers of the record types stand for
    const decoder: Decoder
    var prevTime: uint64

    ghost const raw: seq<RawPid>     // the records of the file
    ghost var at: nat                // how many of them have been read
    ghost var ended: bool            // the end-of-file record has been read

    /** The decoder stands before the record at n. */
    ghost function Before(n: nat): Status
      reads decoder, decoder.buf
    {
      if forall k {:trigger Key(k)} :: Key(k) ==> decoder.Valid() && PidsAhead(kinds, decoder.Remaining(), raw, n) == Sound
      then Sound else Unsound
    }

    ghost predicate Valid()
      reads this, decoder, decoder.buf
    {
      at <= |raw| && Timed(raw, at, prevTime) == Sound && if ended then at == |raw| else Before(at) == Sound
    }

    constructor (contents: seq<byte>, kinds: int -> PidKind)
      requires ParsePids(kinds, contents).ending == BBStream.EndMark
      ensures Valid() && raw == ParsePids(kinds, contents).raw && at == 0 && !ended
      ensures fresh(decoder) && fresh(decoder.buf)
    {
      this.kinds, prevTime := kinds, 0;
      decoder := new Decoder.Open(contents);
      raw, at, ended := ParsePids(kinds, contents).raw, 0, false;
      new;
      PidsStart(kinds, contents);
    }

    method Fetch() returns (r: Option<RawPid>)
      requires Before(at) == Sound
      modifies decoder, decoder.buf
      ensures at <= |raw| && (r.None? <==> at == |raw|)
      ensures at < |raw| ==> r == Some(raw[at]) && Before(at + 1) == Sound
    {
      assert Key(0);
      ghost var s := decoder.Remaining();
      var rec := DecodePid(decoder, kinds);
      NextPid(kinds, s, raw, at, rec, decoder.Remaining());
      r := rec.value;
    }

    /** The next record and its time; eof on the end-of-file record. */
    method ReadPidEvent() returns (eof: bool, time: uint64, isSwitch: bool, pid: int)
      requires Valid() && !ended
      modifies this, decoder, decoder.buf
      ensures Valid() && ended == eof && at == old(at) + (if eof then 0 else 1)
      ensures at <= |raw| && (eof ==> at == |raw|)
      ensures !eof ==> var c := old(at); time == TimeAt(raw, c + 1) && isSwitch == raw[c].isSwitch && pid == raw[c].pid
    {
      var r := Fetch();
      if r.None? {
        ended := true;
        return true, 0, false, 0;
      }
      time := AddTime(raw, at, prevTime, r.value);
      Count(time);
      return false, time, r.value.isSwitch, r.value.pid;
    }

    /** What is counted here makes no difference to the decoder. */
    twostate lemma Kept(n: nat)
      requires old(Before(n)) == Sound && unchanged(decoder) && unchanged(decoder.buf)
      ensures Before(n) == Sound
    {}

    method Count(time: uint64)
      requires at < |raw| && !ended && Timed(raw, at + 1, time) == Sound && Before(at + 1) == Sound
      modifies `prevTime, `at
      ensures Valid() && at == old(at) + 1
    {
      prevTime, at := time, at + 1;
      Kept(at);
    }
  }

  // --- The exception file ---------------------------------------------------------------

  function RecnumAt(raw: seq<RawExc>, k: nat): uint64
    requires k <= |raw|
  {
    if k == 0 then 0 else RecnumAfter(RecnumAt(raw, k - 1), raw[k - 1])
  }

  function RecnumAfter(recnum: uint64, rec: RawExc): uint64 { ToUint64(recnum + rec.recnumDiff) }

  ghost predicate RecnumsOrdered(raw: seq<RawExc>) {
    forall i, j :: 0 <= i <= j <= |raw| ==> RecnumAt(raw, i) <= RecnumAt(raw, j)
  }

  /** The block of event n runs the instructions of the first exception record for n, else its static count. */
  function InsnsOf(raw: seq<RawExc>, k: nat, n: nat, otherwise: int): int
    requires k <= |raw|
    decreases |raw| - k
  {
    if k == |raw| then otherwise
    else if RecnumAt(raw, k + 1) == n then raw[k].numInsns
    else InsnsOf(raw, k + 1, n, otherwise)
  }

  lemma {:induction false} InsnsOfSkips(raw: seq<RawExc>, k: nat, m: nat, n: nat, otherwise: int)
    requires k <= m <= |raw| && forall i :: k < i <= m ==> RecnumAt(raw, i) != n
    ensures InsnsOf(raw, k, n, otherwise) == InsnsOf(raw, m, n, otherwise)
    decreases m - k
  {
    if k < m {
      InsnsOfSkips(raw, k + 1, m, n, otherwise);
    }
  }

  /** After reading c records: what is remembered of the last, and that all before it are for events before n. */
  ghost predicate ExcsRead(raw: seq<RawExc>, c: nat, ended: bool, recnum: uint64, insns: int, n: nat)
    requires c <= |raw|
  {
    (ended ==> c == |raw|) &&
    (if c == 0 then recnum == 0 else recnum == RecnumAt(raw, c) && insns == raw[c - 1].numInsns) &&
    ExcsBefore(raw, if ended || c == 0 then c else c - 1, n)
  }

  ghost predicate ExcsBefore(raw: seq<RawExc>, c: nat, n: nat)
    requires c <= |raw|
  {
    forall i :: 0 < i <= c ==> RecnumAt(raw, i) < n
  }

  /** Reading on until the record numbers reach n finds the first record for n, if there is one. */
  lemma ExcsFound(raw: seq<RawExc>, c: nat, ended: bool, recnum: uint64, insns: int, n: nat, otherwise: int)
    requires c <= |raw| && RecnumsOrdered(raw) && ExcsRead(raw, c, ended, recnum, insns, n)
    requires n > 0 && (ended || recnum >= n)
    ensures InsnsOf(raw, 0, n, otherwise) == if !ended && recnum == n then insns else otherwise
  {
    if !ended && recnum == n {
      InsnsOfSkips(raw, 0, c - 1, n, otherwise);
    } else {
      InsnsOfSkips(raw, 0, |raw|, n, otherwise);
    }
  }

  ghost function ExcsAhead(left: seq<byte>, raw: seq<RawExc>, at: nat): Status {
    if forall k {:trigger Key(k)} :: Key(k) ==> at <= |raw| && ParseExcs(left) == File(raw[at..], BBStream.EndMark)
    then Sound else Unsound
  }

  lemma ExcsStart(contents: seq<byte>)
    requires ParseExcs(contents).ending == BBStream.EndMark
    ensures ExcsAhead(contents, ParseExcs(contents).raw, 0) == Sound
  {
    assert ParseExcs(contents).raw[0..] == ParseExcs(contents).raw;
  }

  lemma NextExc(s: seq<byte>, raw: seq<RawExc>, at: nat, r: Result<Option<RawExc>>, left: seq<byte>)
    requires ExcsAhead(s, raw, at) == Sound && Record(ReadExcRec(s), r, left) == Sound
    ensures at <= |raw| && r.Ok? && (r.value.None? <==> at == |raw|)
    ensures at < |raw| ==> r.value == Some(raw[at]) && ExcsAhead(left, raw, at + 1) == Sound
  {
    assert Key(0);
    if at < |raw| {
      assert raw[at..][0] == raw[at] && raw[at..][1..] == raw[at + 1..];
    }
  }

  /** The record numbers have been added up so far. */
  ghost function Summed(raw: seq<RawExc>, at: nat, recnum: uint64): Status {
    if forall k {:trigger Key(k)} :: Key(k) ==> at <= |raw| && recnum == RecnumAt(raw, at) then Sound else Unsound
  }

  method AddRecnum(ghost raw: seq<RawExc>, ghost at: nat, recnum: uint64, rec: RawExc) returns (next: uint64)
    requires Summed(raw, at, recnum) == Sound && at < |raw| && rec == raw[at]
    ensures Summed(raw, at + 1, next) == Sound && next == RecnumAt(raw, at + 1)
  {
    assert Key(0);
    next := RecnumAfter(recnum, rec);
  }

  class ExcReader {
    const decoder: Decoder
    var prevRecnum: uint64

    ghost const raw: seq<RawExc>
    ghost var at: nat
    ghost var ended: bool

    /** The decoder stands before the record at n. */
    ghost function Before(n: nat): Status
      reads decoder, decoder.buf
    {
      if forall k {:trigger Key(k)} :: Key(k) ==> decoder.Valid() && ExcsAhead(decoder.Remaining(), raw, n) == Sound
      then Sound else Unsound
    }

    ghost predicate Valid()
      reads this, decoder, decoder.buf
    {
      at <= |raw| && Summed(raw, at, prevRecnum) == Sound && if ended then at == |raw| else Before(at) == Sound
    }

    constructor (contents: seq<byte>)
      requires ParseExcs(contents).ending == BBStream.EndMark
      ensures Valid() && raw == ParseExcs(contents).raw && at == 0 && !ended && fresh(decoder) && fresh(decoder.buf)
    {
      prevRecnum := 0;
      decoder := new Decoder.Open(contents);
      raw, at, ended := ParseExcs(contents).raw, 0, false;
      new;
      ExcsStart(contents);
    }

    method Fetch() returns (r: Option<RawExc>)
      requires Before(at) == Sound
      modifies decoder, decoder.buf
      ensures at <= |raw| && (r.None? <==> at == |raw|)
      ensures at < |raw| ==> r == Some(raw[at]) && Before(at + 1) == Sound
    {
      assert Key(0);
      ghost var s := decoder.Remaining();
      var rec := DecodeExc(decoder);
      NextExc(s, raw, at, rec, decoder.Remaining());
      r := rec.value;
    }

    method ReadExc() returns (eof: bool, recnum: uint64, numInsns: int)
      requires Valid() && !ended
      modifies this, decoder, decoder.buf
      ensures Valid() && ended == eof && at == old(at) + (if eof then 0 else 1)
      ensures at <= |raw| && (eof ==> at == |raw|)
      ensures !eof ==> var c := old(at); recnum == RecnumAt(raw, c + 1) && numInsns == raw[c].numInsns
    {
      var r := Fetch();
      if r.None? {
        ended := true;
        return true, 0, 0;
      }
      recnum := AddRecnum(raw, at, prevRecnum, r.value);
      Count(recnum);
      return false, recnum, r.value.numInsns;
    }

    /** What is counted here makes no difference to the decoder. */
    twostate lemma Kept(n: nat)
      requires old(Before(n)) == Sound && unchanged(decoder) && unchanged(decoder.buf)
      ensures Before(n) == Sound
    {}

    method Count(recnum: uint64)
      requires at < |raw| && !ended && Summed(raw, at + 1, recnum) == Sound && Before(at + 1) == Sound
      modifies `prevRecnum, `at
      ensures Valid() && at == old(at) + 1
    {
      prevRecnum, at := recnum, at + 1;
      Kept(at);
    }
  }

  // --- TraceReaderBase --------------------------------------------------------------------

  /** The records of both files, and blocks_[bb].rec.num_insns. */
  datatype SideFiles = SideFiles(pids: seq<RawPid>, excs: seq<RawExc>, staticInsns: uint64 -> int)

  /** The files themselves, and what the numbers of the record types stand for. */
  datatype SideBytes = SideBytes(pids: seq<byte>, excs: seq<byte>, kinds: int -> PidKind, staticInsns: uint64 -> int)
  {
    ghost function Files(): SideFiles {
      SideFiles(ParsePids(kinds, pids).raw, ParseExcs(excs).raw, staticInsns)
    }

    /** Both files end with their end record, and neither goes back. */
    ghost predicate Complete() {
      ParsePids(kinds, pids).ending == BBStream.EndMark && ParseExcs(excs).ending == BBStream.EndMark &&
      TimesOrdered(Files().pids) && RecnumsOrdered(Files().excs)
    }
  }

  /** Where the lookahead for pids stands: c records read, and what is known of the time asked for last. */
  ghost predicate PidLooked(raw: seq<RawPid>, c: nat, ended: bool, nextTime: uint64, nextPid: int, pid: int, last: int) {
    c <= |raw| && TimesOrdered(raw) &&
    if ended then c == |raw| && nextTime == NEVER && SwitchesBy(raw, c, last) && pid == LastSwitch(raw, c, last)
    else if c == 0 then nextTime == 0 && nextPid == 0 && pid == 0
    else
      raw[c - 1].isSwitch && nextTime == TimeAt(raw, c) && nextPid == raw[c - 1].pid &&
      SwitchesBy(raw, c - 1, last) && pid == LastSwitch(raw, c - 1, last)
  }

  ghost function PidState(raw: seq<RawPid>, c: nat, ended: bool, nextTime: uint64, nextPid: int, pid: int, last: int): Status {
    if forall k {:trigger Key(k)} :: Key(k) ==> PidLooked(raw, c, ended, nextTime, nextPid, pid, last) then Sound else Unsound
  }

  /** In the search for the next switch after a time, with pid the last one's so far. */
  ghost function PidScan(raw: seq<RawPid>, c: nat, pid: int, time: int): Status {
    if forall k {:trigger Key(k)} :: Key(k) ==>
      c <= |raw| && TimesOrdered(raw) && SwitchesBy(raw, c, time) && pid == LastSwitch(raw, c, time)
    then Sound else Unsound
  }

  /** The question for a later time: answered at once, or after reading on. */
  lemma PidAsked(raw: seq<RawPid>, c: nat, ended: bool, nextTime: uint64, nextPid: int, pid: int, last: int, time: uint64)
    requires PidState(raw, c, ended, nextTime, nextPid, pid, last) == Sound && last <= time < NEVER
    ensures time < nextTime ==> PidState(raw, c, ended, nextTime, nextPid, pid, time) == Sound && pid == PidAt(raw, time)
    ensures time >= nextTime ==> !ended && PidScan(raw, c, nextPid, time) == Sound
  {
    assert Key(0);
    var n := if ended || c == 0 then c else c - 1;
    LastSwitchSettled(raw, n, last, time);
    if time < nextTime {
      LaterRecordsDoNotCount(raw, n, |raw|, time);
    }
  }

  lemma PidFound(raw: seq<RawPid>, c: nat, pid: int, time: uint64, nextPid: int)
    requires PidScan(raw, c, pid, time) == Sound
    ensures c == |raw| ==> PidState(raw, c, true, NEVER, nextPid, pid, time) == Sound && pid == PidAt(raw, time)
    ensures c < |raw| && !raw[c].isSwitch ==> PidScan(raw, c + 1, pid, time) == Sound
    ensures c < |raw| && raw[c].isSwitch && TimeAt(raw, c + 1) <= time ==> PidScan(raw, c + 1, raw[c].pid, time) == Sound
    ensures c < |raw| && raw[c].isSwitch && TimeAt(raw, c + 1) > time ==>
              PidState(raw, c + 1, false, TimeAt(raw, c + 1), raw[c].pid, pid, time) == Sound && pid == PidAt(raw, time)
  {
    assert Key(0);
    if c < |raw| && TimeAt(raw, c + 1) > time {
      LaterRecordsDoNotCount(raw, c, |raw|, time);
    }
  }

  /** Where the lookahead for exceptions stands, before the event n. */
  ghost function ExcState(raw: seq<RawExc>, c: nat, ended: bool, recnum: uint64, insns: int, n: nat): Status {
    if forall k {:trigger Key(k)} :: Key(k) ==>
      c <= |raw| && RecnumsOrdered(raw) && ExcsRead(raw, c, ended, recnum, insns, n)
    then Sound else Unsound
  }

  lemma ExcCounted(raw: seq<RawExc>, c: nat, ended: bool, recnum: uint64, insns: int, n: nat)
    requires ExcState(raw, c, ended, recnum, insns, n) == Sound
    ensures ExcState(raw, c, ended, recnum, insns, n + 1) == Sound
  {
    assert Key(0);
  }

  /** What a call of ReadExc says of the record at c. */
  ghost predicate SaysExc(raw: seq<RawExc>, c: nat, eof: bool, recnum: uint64, insns: int) {
    if eof then c == |raw| else c < |raw| && recnum == RecnumAt(raw, c + 1) && insns == raw[c].numInsns
  }

  ghost function Said(raw: seq<RawExc>, c: nat, eof: bool, recnum: uint64, insns: int): Status {
    if forall k {:trigger Key(k)} :: Key(k) ==> SaysExc(raw, c, eof, recnum, insns) then Sound else Unsound
  }

  lemma ExcFetched(raw: seq<RawExc>, c: nat, recnum: uint64, insns: int, n: nat, eof: bool, nextRecnum: uint64, nextInsns: int)
    requires ExcState(raw, c, false, recnum, insns, n) == Sound && recnum < n && Said(raw, c, eof, nextRecnum, nextInsns) == Sound
    ensures eof ==> ExcState(raw, c, true, recnum, insns, n) == Sound
    ensures !eof ==> ExcState(raw, c + 1, false, nextRecnum, nextInsns, n) == Sound
  {
    assert Key(0);
  }

  lemma ExcAnswered(raw: seq<RawExc>, c: nat, ended: bool, recnum: uint64, insns: int, n: nat, otherwise: int)
    requires ExcState(raw, c, ended, recnum, insns, n) == Sound && n > 0 && (ended || recnum >= n)
    ensures InsnsOf(raw, 0, n, otherwise) == if !ended && recnum == n then insns else otherwise
  {
    assert Key(0);
    ExcsFound(raw, c, ended, recnum, insns, n, otherwise);
  }

  lemma LooksStart(side: SideBytes)
    requires side.Complete()
    ensures PidState(side.Files().pids, 0, false, 0, 0, 0, 0) == Sound
    ensures ExcState(side.Files().excs, 0, false, 0, 0, 0) == Sound
  {}

  method OpenSide(side: SideBytes) returns (pids: PidReader, excs: ExcReader)
    requires side.Complete()
    ensures fresh(pids) && fresh(pids.decoder) && fresh(pids.decoder.buf)
    ensures fresh(excs) && fresh(excs.decoder) && fresh(excs.decoder.buf)
    ensures pids.decoder != excs.decoder && pids.decoder.buf != excs.decoder.buf
    ensures pids.Valid() && !pids.ended && pids.raw == side.Files().pids && PidState(pids.raw, pids.at, false, 0, 0, 0, 0) == Sound
    ensures excs.Valid() && !excs.ended && excs.raw == side.Files().excs && ExcState(excs.raw, excs.at, false, 0, 0, 0) == Sound
  {
    pids := new PidReader(side.pids, side.kinds);
    excs := new ExcReader(side.excs);
    LooksStart(side);
  }

  class TraceReaderBase {
    const pidReader: PidReader
    const excReader: ExcReader
    const staticInsns: uint64 -> int

    var currentPid: int
    var nextPid: int
    var nextPidSwitchTime: uint64

    var excEnd: bool
    var excRecnum: uint64
    var excNumInsns: int
    var bbRecnum: uint64

    ghost const files: SideFiles
    ghost const repr: set<object>    // what reading the side files changes
    ghost var lastTime: int          // the latest time asked for

    /** The objects behind the two readers are their own. */
    ghost predicate Owned() {
      repr == {pidReader, pidReader.decoder, pidReader.decoder.buf, excReader, excReader.decoder, excReader.decoder.buf} &&
      pidReader.decoder != excReader.decoder && pidReader.decoder.buf != excReader.decoder.buf &&
      files == SideFiles(pidReader.raw, excReader.raw, staticInsns)
    }

    ghost predicate PidsValid()
      reads this, pidReader, pidReader.decoder, pidReader.decoder.buf
    {
      pidReader.Valid() &&
      PidState(pidReader.raw, pidReader.at, pidReader.ended, nextPidSwitchTime, nextPid, currentPid, lastTime) == Sound
    }

    ghost predicate ExcsValid()
      reads this, excReader, excReader.decoder, excReader.decoder.buf
    {
      excReader.Valid() && excEnd == excReader.ended &&
      ExcState(excReader.raw, excReader.at, excEnd, excRecnum, excNumInsns, bbRecnum) == Sound
    }

    ghost predicate Valid()
      reads this, repr
    {
      Owned() && PidsValid() && ExcsValid()
    }

    ghost function Status(): Status
      reads this, repr
    {
      if forall k {:trigger Key(k)} :: Key(k) ==> Valid() then Sound else Unsound
    }

    lemma Folded()
      requires Valid()
      ensures Status() == Sound
    {}

    constructor (side: SideBytes)
      requires side.Complete()
      ensures Valid() && fresh(repr) && this !in repr && bbRecnum == 0 && lastTime == 0 && files == side.Files()
    {
      var pids, excs := OpenSide(side);
      pidReader, excReader, staticInsns := pids, excs, side.staticInsns;
      currentPid, nextPid, nextPidSwitchTime := 0, 0, 0;
      excEnd, excRecnum, excNumInsns, bbRecnum := false, 0, 0, 0;
      lastTime, files := 0, side.Files();
      repr := {pids, pids.decoder, pids.decoder.buf, excs, excs.decoder, excs.decoder.buf};
    }

    method CountEvent()
      requires Valid() && bbRecnum < TWO64 - 1
      modifies `bbRecnum
      ensures Valid() && bbRecnum == old(bbRecnum) + 1
    {
      ExcCounted(excReader.raw, excReader.at, excEnd, excRecnum, excNumInsns, bbRecnum);
      bbRecnum := bbRecnum + 1;
    }

    /** The loop of FindCurrentPid: on to the first switch later than time, or to the end of the file. */
    method ReadToSwitch(time: uint64)
      requires pidReader.Valid() && time < NEVER && Scanning(time)
      modifies this`currentPid, this`nextPid, this`nextPidSwitchTime, pidReader, pidReader.decoder, pidReader.decoder.buf
      ensures PidsValid() && currentPid == PidAt(pidReader.raw, time)
    {
      var done := false;
      while !done
        invariant pidReader.Valid() && if done then PidsValid() && currentPid == PidAt(pidReader.raw, time) else Scanning(time)
        decreases |pidReader.raw| - pidReader.at, !done
      {
        done := ReadOne(time);
      }
    }

    ghost predicate Scanning(time: uint64)
      reads this, pidReader
    {
      !pidReader.ended && lastTime == time && PidScan(pidReader.raw, pidReader.at, currentPid, time) == Sound
    }

    /** One record of the pid file; done at the first switch later than time and at the end. */
    method ReadOne(time: uint64) returns (done: bool)
      requires pidReader.Valid() && time < NEVER && Scanning(time)
      modifies this`currentPid, this`nextPid, this`nextPidSwitchTime, pidReader, pidReader.decoder, pidReader.decoder.buf
      ensures pidReader.Valid() && pidReader.at >= old(pidReader.at) && (!done ==> pidReader.at > old(pidReader.at))
      ensures if done then PidsValid() && currentPid == PidAt(pidReader.raw, time) else Scanning(time)
    {
      ghost var c := pidReader.at;
      var eof, eventTime, isSwitch, eventPid := pidReader.ReadPidEvent();
      done := TakeRecord(eof, eventTime, isSwitch, eventPid, time, c);
    }

    /** What the record that was read means for the pid at the time. */
    method TakeRecord(eof: bool, eventTime: uint64, isSwitch: bool, eventPid: int, time: uint64, ghost c: nat)
      returns (done: bool)
      requires pidReader.Valid() && time < NEVER && lastTime == time && pidReader.ended == eof
      requires PidScan(pidReader.raw, c, currentPid, time) == Sound && pidReader.at == c + if eof then 0 else 1
      requires var raw := pidReader.raw;
               if eof then c == |raw|
               else c < |raw| && eventTime == TimeAt(raw, c + 1) && isSwitch == raw[c].isSwitch && eventPid == raw[c].pid
      modifies `currentPid, `nextPid, `nextPidSwitchTime
      ensures pidReader.Valid() && (eof ==> done)
      ensures if done then PidsValid() && currentPid == PidAt(pidReader.raw, time) else Scanning(time)
    {
      PidFound(pidReader.raw, c, currentPid, time, nextPid);
      done := true;
      if eof {
        nextPidSwitchTime := NEVER;
      } else if !isSwitch {
        done := false;
      } else if eventTime > time {
        nextPid, nextPidSwitchTime := eventPid, eventTime;
      } else {
        currentPid, done := eventPid, false;
      }
    }

    /** The pid running at the given time; times must not go back from call to call. */
    method FindCurrentPid(time: uint64) returns (pid: int)
      requires Valid() && lastTime <= time < NEVER
      modifies this, repr
      ensures Valid() && lastTime == time && bbRecnum == old(bbRecnum)
      ensures pid == PidAt(files.pids, time)
    {
      PidAsked(pidReader.raw, pidReader.at, pidReader.ended, nextPidSwitchTime, nextPid, currentPid, lastTime, time);
      lastTime := time;
      if time >= nextPidSwitchTime {
        currentPid := nextPid;
        ReadToSwitch(time);
      }
      pid := currentPid;
    }

    /** Reads exception records until their numbers reach the event's. */
    method ReadExcs()
      requires ExcsValid()
      modifies this`excEnd, this`excRecnum, this`excNumInsns, excReader, excReader.decoder, excReader.decoder.buf
      ensures ExcsValid() && (excEnd || excRecnum >= bbRecnum)
    {
      while !excEnd && excRecnum < bbRecnum
        invariant ExcsValid()
        decreases |excReader.raw| - excReader.at, !excEnd
      {
        ReadOneExc();
      }
    }

    method ReadOneExc()
      requires ExcsValid() && !excEnd && excRecnum < bbRecnum
      modifies this`excEnd, this`excRecnum, this`excNumInsns, excReader, excReader.decoder, excReader.decoder.buf
      ensures ExcsValid() && excReader.at <= |excReader.raw| && excReader.at >= old(excReader.at)
      ensures !excEnd ==> excReader.at > old(excReader.at)
    {
      ghost var c := excReader.at;
      var eof, recnum, insns := excReader.ReadExc();
      assert Said(excReader.raw, c, eof, recnum, insns) == Sound;
      TakeExc(eof, recnum, insns, c);
    }

    method TakeExc(eof: bool, recnum: uint64, insns: int, ghost c: nat)
      requires excReader.Valid() && excReader.ended == eof && excRecnum < bbRecnum
      requires ExcState(excReader.raw, c, false, excRecnum, excNumInsns, bbRecnum) == Sound
      requires excReader.at == (if eof then c else c + 1) && Said(excReader.raw, c, eof, recnum, insns) == Sound
      modifies `excEnd, `excRecnum, `excNumInsns
      ensures ExcsValid() && excEnd == eof
    {
      ExcFetched(excReader.raw, c, excRecnum, excNumInsns, bbRecnum, eof, recnum, insns);
      if eof {
        excEnd := true;
      } else {
        excEnd, excRecnum, excNumInsns := false, recnum, insns;
      }
    }

    /** How many instructions the event with ordinal bbRecnum executed. */
    method FindNumInsns(bbNum: uint64) returns (numInsns: int)
      requires Valid() && bbRecnum > 0
      modifies this, repr
      ensures Valid() && bbRecnum == old(bbRecnum) && lastTime == old(lastTime)
      ensures numInsns == InsnsOf(files.excs, 0, bbRecnum, files.staticInsns(bbNum))
    {
      ReadExcs();
      ExcAnswered(excReader.raw, excReader.at, excEnd, excRecnum, excNumInsns, bbRecnum, staticInsns(bbNum));
      if !excEnd && excRecnum == bbRecnum {
        numInsns := excNumInsns;
      } else {
        numInsns := staticInsns(bbNum);
      }
    }
  }
}
