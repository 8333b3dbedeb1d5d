/** The bytes of a basic-block trace: delta-coded records closed by a record with time difference 0. */
module BBStream {
  import opened Words
  import opened Varint
  import opened Decoding
  import opened BBMerge

  datatype Ending = EndMark | Cut | ReservedByte

  datatype HeadRead = Head(bbDiff: int64, timeDelta: int64, repeat: int64, rest: seq<byte>) | NoHead(ending: Ending)

  function Broken(d: Decoded): Ending
    requires !d.Value?
  {
    if d.PastEnd? then Cut else ReservedByte
  }

  /** The three codes every record starts with. */
  function ReadHead(s: seq<byte>): (h: HeadRead)
    ensures h.Head? ==> |h.rest| < |s|
  {
    var bbDiff := DecodeFirst(true, s);
    if !bbDiff.Value? then NoHead(Broken(bbDiff)) else
    var timeDelta := DecodeFirst(false, bbDiff.rest);
    if !timeDelta.Value? then NoHead(Broken(timeDelta)) else
    var repeat := DecodeFirst(false, timeDelta.rest);
    if !repeat.Value? then NoHead(Broken(repeat)) else Head(bbDiff.val, timeDelta.val, repeat.val, repeat.rest)
  }

  /** Adds the differences of a record to the block number and start time of the one before. */
  function Moved(r: BBRec, bbDiff: int64, timeDelta: int64): BBRec {
    r.(bbNum := ToUint64(r.bbNum + bbDiff), startTime := ToUint64(r.startTime + timeDelta))
  }

  datatype RecRead = Next(rec: BBRec, rest: seq<byte>) | Stop(ending: Ending)

  /** One record from the front of s, given the record before it. */
  function ReadRec(prev: BBRec, s: seq<byte>): (r: RecRead)
    ensures r.Next? ==> |r.rest| < |s|
  {
    var h := ReadHead(s);
    if h.NoHead? then Stop(h.ending)
    else if ToUint64(h.timeDelta) == 0 then Stop(EndMark)
    else
      var r := prev.(repeat := ToUint64(h.repeat));
      if r.repeat == 0 then Next(Moved(r, h.bbDiff, h.timeDelta), h.rest) else
      var timeDiff := DecodeFirst(false, h.rest);
      if !timeDiff.Value? then Stop(Broken(timeDiff))
      else Next(Moved(r.(timeDiff := ToUint64(timeDiff.val)), h.bbDiff, h.timeDelta), timeDiff.rest)
  }

  datatype Stream = Stream(recs: seq<BBRec>, ending: Ending)

  /** All records of s, and how the stream ends. */
  function Parse(prev: BBRec, s: seq<byte>): Stream
    decreases |s|
  {
    match ReadRec(prev, s)
    case Stop(ending) => Stream([], ending)
    case Next(rec, rest) => var more := Parse(rec, rest); Stream([rec] + more.recs, more.ending)
  }

  // --- Writing: any choice of code lengths is read back --------------------------------

  /** A record as differences from the one before it; lens are the lengths of its four codes. */
  datatype Delta = Delta(bbDiff: int64, timeDelta: uint64, repeat: uint64, timeDiff: uint64, lens: (nat, nat, nat, nat))

  predicate DeltaFits(d: Delta) {
    Fits(true, d.lens.0, d.bbDiff) && Fits(false, d.lens.1, d.timeDelta) && Fits(false, d.lens.2, d.repeat) &&
    (d.repeat > 0 ==> Fits(false, d.lens.3, d.timeDiff))
  }

  function WriteRec(d: Delta): seq<byte>
    requires DeltaFits(d)
  {
    Encode(true, d.lens.0, d.bbDiff) + Encode(false, d.lens.1, d.timeDelta) + Encode(false, d.lens.2, d.repeat)
    + if d.repeat > 0 then Encode(false, d.lens.3, d.timeDiff) else []
  }

  function Write(ds: seq<Delta>): seq<byte>
    requires forall i :: 0 <= i < |ds| ==> DeltaFits(ds[i])
  {
    if ds == [] then [] else WriteRec(ds[0]) + Write(ds[1..])
  }

  function Sum(prev: BBRec, d: Delta): BBRec {
    BBRec(ToUint64(prev.bbNum + d.bbDiff), ToUint64(prev.startTime + d.timeDelta), d.repeat,
          if d.repeat > 0 then d.timeDiff else prev.timeDiff)
  }

  function Sums(prev: BBRec, ds: seq<Delta>): seq<BBRec>
    decreases |ds|
  {
    if ds == [] then [] else [Sum(prev, ds[0])] + Sums(Sum(prev, ds[0]), ds[1..])
  }

  /** The front of s is a code that reads as v and leaves rest. */
  predicate Reads(signed: bool, s: seq<byte>, v: int, rest: seq<byte>) {
    var d := DecodeFirst(signed, s);
    d.Value? && AsRead(signed, d.val) == v && d.rest == rest
  }

  lemma ReadBack(signed: bool, len: nat, v: int, tail: seq<byte>)
    requires Fits(signed, len, v)
    ensures Reads(signed, Encode(signed, len, v) + tail, v, tail)
  {
    DecodeFirstOfCode(Field(signed, len, v), tail);
  }

  lemma SameSum(prev: uint64, v: int64)
    ensures ToUint64(prev + v) == ToUint64(prev + ToUint64(v))
  {
    assert (prev + v) % TWO64 == (prev + v % TWO64) % TWO64;
  }

  lemma ReadRecFromCodes(prev: BBRec, d: Delta, s0: seq<byte>, s1: seq<byte>, s2: seq<byte>, s3: seq<byte>, s4: seq<byte>)
    requires Reads(true, s0, d.bbDiff, s1) && Reads(false, s1, d.timeDelta, s2) && Reads(false, s2, d.repeat, s3)
    requires if d.repeat > 0 then Reads(false, s3, d.timeDiff, s4) else s4 == s3
    ensures ReadRec(prev, s0) == if d.timeDelta == 0 then Stop(EndMark) else Next(Sum(prev, d), s4)
  {
    SameSum(prev.startTime, DecodeFirst(false, s1).val);
  }

  lemma ReadRecOfDelta(prev: BBRec, d: Delta, tail: seq<byte>)
    requires DeltaFits(d)
    ensures ReadRec(prev, WriteRec(d) + tail)
         == if d.timeDelta == 0 then Stop(EndMark) else Next(Sum(prev, d), tail)
  {
    var c0, c1, c2 := Encode(true, d.lens.0, d.bbDiff), Encode(false, d.lens.1, d.timeDelta), Encode(false, d.lens.2, d.repeat);
    var c3 := if d.repeat > 0 then Encode(false, d.lens.3, d.timeDiff) else [];
    ReadBack(true, d.lens.0, d.bbDiff, c1 + (c2 + (c3 + tail)));
    ReadBack(false, d.lens.1, d.timeDelta, c2 + (c3 + tail));
    ReadBack(false, d.lens.2, d.repeat, c3 + tail);
    if d.repeat > 0 {
      ReadBack(false, d.lens.3, d.timeDiff, tail);
    }
    Reassociate(c0, c1, c2, c3, tail);
    ReadRecFromCodes(prev, d, WriteRec(d) + tail, c1 + (c2 + (c3 + tail)), c2 + (c3 + tail), c3 + tail, tail);
  }

  lemma Reassociate<T>(a: seq<T>, b: seq<T>, c: seq<T>, d: seq<T>, e: seq<T>)
    ensures a + b + c + d + e == a + (b + (c + (d + e)))
    ensures d == [] ==> d + e == e
  {}

  lemma ParseStep(prev: BBRec, s: seq<byte>)
    ensures match ReadRec(prev, s)
            case Stop(ending) => Parse(prev, s) == Stream([], ending)
            case Next(rec, rest) => Parse(prev, s) == Stream([rec] + Parse(rec, rest).recs, Parse(rec, rest).ending)
  {}

  /** Round trip: a written trace parses to the summed-up records, whatever follows the end mark. */
  lemma {:induction false} ParseWritten(prev: BBRec, ds: seq<Delta>, mark: Delta, tail: seq<byte>)
    requires forall i :: 0 <= i < |ds| ==> DeltaFits(ds[i]) && ds[i].timeDelta != 0
    requires DeltaFits(mark) && mark.timeDelta == 0
    ensures Parse(prev, Write(ds) + (WriteRec(mark) + tail)) == Stream(Sums(prev, ds), EndMark)
    decreases |ds|
  {
    var ending := WriteRec(mark) + tail;
    if ds == [] {
      assert Write(ds) + ending == ending;
      ReadRecOfDelta(prev, mark, tail);
      ParseStep(prev, ending);
    } else {
      var more := Write(ds[1..]) + ending;
      Reassociate(WriteRec(ds[0]), Write(ds[1..]), ending, [], []);
      assert Write(ds) + ending == WriteRec(ds[0]) + more;
      ReadRecOfDelta(prev, ds[0], more);
      ParseStep(prev, WriteRec(ds[0]) + more);
      ParseWritten(Sum(prev, ds[0]), ds[1..], mark, tail);
    }
  }

  function TotalDelta(ds: seq<Delta>): nat {
    if ds == [] then 0 else ds[0].timeDelta + TotalDelta(ds[1..])
  }

  /** Start times increase as long as the summed differences stay within 64 bits. */
  lemma {:induction false} SumsIncrease(prev: BBRec, ds: seq<Delta>)
    requires forall i :: 0 <= i < |ds| ==> ds[i].timeDelta != 0
    requires prev.startTime + TotalDelta(ds) < TWO64
    ensures StartsIncrease(Sums(prev, ds))
    ensures forall r :: r in Sums(prev, ds) ==> prev.startTime < r.startTime
    decreases |ds|
  {
    if ds != [] {
      var first := Sum(prev, ds[0]);
      assert first.startTime == prev.startTime + ds[0].timeDelta;
      SumsIncrease(first, ds[1..]);
    }
  }
}
