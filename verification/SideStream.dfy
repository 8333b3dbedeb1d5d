/** The bytes of the pid file and the exception file: delta-coded records, each closed by a record of its own. */
module SideStream {
  import opened Words
  import opened Options
  import opened Folding
  import opened Varint
  import opened Decoding
  import opened BBStream

  /** What a number of the record type stands for; numbers that stand for nothing have no fields. */
  datatype PidKind =
    | EndOfFile | Switch | Exit | Fork | Clone | Mmap | Munmap | SymbolAdd | SymbolRemove | Exec | Name | KthreadName
    | Unlisted

  /** A number converted to a C int. */
  function ToInt32(n: int): int {
    var m := n % TWO32;
    if 2 * m < TWO32 then m else m - TWO32
  }

  /** What is read from the front of a string, and the rest; or what it breaks off with. */
  datatype Front<T> = Front(value: T, rest: seq<byte>) | Broke(ending: Ending)
  {
    predicate IsFailure() { Broke? }
    function PropagateFailure<U>(): Front<U> requires Broke? { Broke(ending) }
    function Extract(): (T, seq<byte>) requires Front? { (value, rest) }
  }

  function Number(s: seq<byte>): (r: Front<int64>)
    ensures r.Front? ==> |r.rest| < |s|
    ensures r != Broke(EndMark)
  {
    var d := DecodeFirst(false, s);
    if d.Value? then Front(d.val, d.rest) else Broke(Broken(d))
  }

  function Least(n: int, m: nat): nat { if n < 0 then 0 else if n < m then n else m }

  /** A counted string: as many bytes as are said, or all that are left. */
  function Text(s: seq<byte>): (r: Front<()>)
    ensures r.Front? ==> |r.rest| < |s|
    ensures r != Broke(EndMark)
  {
    var (len, rest) :- Number(s);
    Front((), rest[Least(ToInt32(len), |rest|)..])
  }

  function Texts(n: nat, s: seq<byte>): (r: Front<()>)
    ensures r.Front? ==> |r.rest| <= |s|
    ensures r != Broke(EndMark)
  {
    if n == 0 then Front((), s)
    else
      var (_, rest) :- Text(s);
      Texts(n - 1, rest)
  }

  /** Two numbers, of which the second is kept. */
  function Pair(s: seq<byte>): (r: Front<int64>)
    ensures r.Front? ==> |r.rest| < |s|
    ensures r != Broke(EndMark)
  {
    var (_, rest) :- Number(s);
    Number(rest)
  }

  /** Two numbers, both kept. */
  function Both(s: seq<byte>): (r: Front<(int64, int64)>)
    ensures r.Front? ==> |r.rest| < |s|
    ensures r != Broke(EndMark)
  {
    var (first, s1) :- Number(s);
    var (second, rest) :- Number(s1);
    Front((first, second), rest)
  }

  /** A number and a text. */
  function Named(s: seq<byte>): (r: Front<int64>)
    ensures r.Front? ==> |r.rest| < |s|
    ensures r != Broke(EndMark)
  {
    var (num, s1) :- Number(s);
    var (_, rest) :- Text(s1);
    Front(num, rest)
  }

  /** A number and a text behind what has been read. */
  function Behind(front: Front<int64>): (r: Front<int64>)
    requires front != Broke(EndMark)
    ensures r.Front? ==> front.Front? && |r.rest| < |front.rest|
    ensures r != Broke(EndMark)
  {
    var (_, rest) :- front;
    Named(rest)
  }

  /** A count and as many texts. */
  function Strings(s: seq<byte>): (r: Front<int64>)
    ensures r.Front? ==> |r.rest| < |s|
    ensures r != Broke(EndMark)
  {
    var (argc, s1) :- Number(s);
    var (_, rest) :- Texts(Least(ToInt32(argc), TWO32), s1);
    Front(argc, rest)
  }

  /** The fields of a record of some kind. The last number is kept: the pid, where there is one. */
  function Fields(kind: PidKind, s: seq<byte>): (r: Front<int64>)
    ensures r.Front? ==> |r.rest| <= |s|
    ensures r != Broke(EndMark)
  {
    match kind
    case Switch | Exit | SymbolRemove => Number(s)
    case Fork | Clone | Munmap => Pair(s)
    case SymbolAdd | Name => Named(s)
    case KthreadName => Behind(Number(s))
    case Mmap => Behind(Pair(s))
    case Exec => Strings(s)
    case EndOfFile | Unlisted => Front(0, s)
  }

  // --- The pid file ---------------------------------------------------------------------------------

  datatype RawPid = RawPid(timeDiff: uint64, isSwitch: bool, pid: int)

  /** The first pid record of s; EndMark is the end-of-file record. */
  function ReadPid(kinds: int -> PidKind, s: seq<byte>): (r: Front<RawPid>)
    ensures r.Front? ==> |r.rest| < |s|
  {
    var (head, s1) :- Both(s);
    var kind := kinds(ToInt32(head.1));
    if kind.EndOfFile? then Broke(EndMark)
    else
      var (pid, rest) :- Fields(kind, s1);
      Front(RawPid(ToUint64(head.0), kind.Switch?, ToInt32(pid)), rest)
  }

  /** All records of a file, and how it ends. */
  datatype File<T> = File(raw: seq<T>, ending: Ending)

  function ParsePids(kinds: int -> PidKind, s: seq<byte>): File<RawPid>
    decreases |s|
  {
    match ReadPid(kinds, s)
    case Broke(ending) => File([], ending)
    case Front(rec, rest) => var more := ParsePids(kinds, rest); File([rec] + more.raw, more.ending)
  }

  // --- The exception file -----------------------------------------------------------------------------

  datatype RawExc = RawExc(recnumDiff: uint64, numInsns: int)

  /** The five numbers behind the time and the pc; the record number and the instruction count are kept. */
  function ExcTail(s: seq<byte>): (r: Front<(int64, int64)>)
    ensures r.Front? ==> |r.rest| < |s|
    ensures r != Broke(EndMark)
  {
    var (recnumDiff, s1) :- Number(s);
    var (_, s2) :- Pair(s1);
    var (numInsns, rest) :- Pair(s2);
    Front((recnumDiff, numInsns), rest)
  }

  /** The first exception record of s; one whose first two numbers are zero ends the file. */
  function ReadExcRec(s: seq<byte>): (r: Front<RawExc>)
    ensures r.Front? ==> |r.rest| < |s|
  {
    var (head, s1) :- Both(s);
    var (tail, rest) :- ExcTail(s1);
    if ToUint64(head.0) == 0 && head.1 % TWO32 == 0 then Broke(EndMark)
    else Front(RawExc(ToUint64(tail.0), ToInt32(tail.1)), rest)
  }

  function ParseExcs(s: seq<byte>): File<RawExc>
    decreases |s|
  {
    match ReadExcRec(s)
    case Broke(ending) => File([], ending)
    case Front(rec, rest) => var more := ParseExcs(rest); File([rec] + more.raw, more.ending)
  }

  // --- Writing: any choice of code lengths is read back ---------------------------------------------------

  /** A number, or a counted string; len is the length of its code. */
  datatype Piece = Num(len: nat, v: nat) | Str(len: nat, chars: seq<byte>)

  predicate PieceFits(p: Piece) {
    match p
    case Num(len, v) => Fits(false, len, v)
    case Str(len, chars) => |chars| < 0x8000_0000 && Fits(false, len, |chars|)
  }

  predicate AllFit(ps: seq<Piece>) {
    forall i :: 0 <= i < |ps| ==> PieceFits(ps[i])
  }

  function WritePiece(p: Piece): seq<byte>
    requires PieceFits(p)
  {
    match p
    case Num(len, v) => Encode(false, len, v)
    case Str(len, chars) => Encode(false, len, |chars|) + chars
  }

  function WritePieces(ps: seq<Piece>, tail: seq<byte>): seq<byte>
    requires AllFit(ps)
  {
    if ps == [] then tail else WritePiece(ps[0]) + WritePieces(ps[1..], tail)
  }

  /** v was read, in 64 bits. */
  predicate IsNumber(r: Front<int64>, v: nat, rest: seq<byte>) {
    r.Front? && ToUint64(r.value) == v && r.rest == rest
  }

  lemma NumStep(ps: seq<Piece>, tail: seq<byte>)
    requires AllFit(ps) && ps != [] && ps[0].Num?
    ensures IsNumber(Number(WritePieces(ps, tail)), ps[0].v, WritePieces(ps[1..], tail))
  {
    ReadBack(false, ps[0].len, ps[0].v, WritePieces(ps[1..], tail));
  }

  lemma TextOf(s: seq<byte>, chars: seq<byte>, rest: seq<byte>)
    requires IsNumber(Number(s), |chars|, chars + rest) && |chars| < 0x8000_0000
    ensures Text(s) == Front((), rest)
  {
    SmallInt32(Number(s).value, |chars|);
    assert Least(|chars|, |chars + rest|) == |chars|;
    assert (chars + rest)[|chars|..] == rest;
  }

  lemma StrStep(ps: seq<Piece>, tail: seq<byte>)
    requires AllFit(ps) && ps != [] && ps[0].Str?
    ensures Text(WritePieces(ps, tail)) == Front((), WritePieces(ps[1..], tail))
  {
    var chars, rest := ps[0].chars, WritePieces(ps[1..], tail);
    Associative(Encode(false, ps[0].len, |chars|), chars, rest);
    ReadBack(false, ps[0].len, |chars|, chars + rest);
    TextOf(WritePieces(ps, tail), chars, rest);
  }

  lemma SmallInt32(val: int64, n: nat)
    requires ToUint64(val) == n < 0x8000_0000
    ensures ToInt32(val) == n
  {
    assert val % TWO32 == n % TWO32;
  }

  lemma PairBack(ps: seq<Piece>, tail: seq<byte>)
    requires AllFit(ps) && |ps| >= 2 && ps[0].Num? && ps[1].Num?
    ensures IsNumber(Pair(WritePieces(ps, tail)), ps[1].v, WritePieces(ps[2..], tail))
  {
    NumStep(ps, tail);
    assert ps[1..][1..] == ps[2..];
    NumStep(ps[1..], tail);
  }

  lemma NamedBack(ps: seq<Piece>, tail: seq<byte>)
    requires AllFit(ps) && |ps| >= 2 && ps[0].Num? && ps[1].Str?
    ensures IsNumber(Named(WritePieces(ps, tail)), ps[0].v, WritePieces(ps[2..], tail))
  {
    NumStep(ps, tail);
    assert ps[1..][1..] == ps[2..];
    StrStep(ps[1..], tail);
  }

  lemma {:induction false} StrsStep(ps: seq<Piece>, tail: seq<byte>)
    requires AllFit(ps) && forall i :: 0 <= i < |ps| ==> ps[i].Str?
    ensures Texts(|ps|, WritePieces(ps, tail)) == Front((), tail)
  {
    if ps != [] {
      StrStep(ps, tail);
      StrsStep(ps[1..], tail);
    }
  }

  /** What a record of some kind consists of, behind its type. */
  predicate HasShape(kind: PidKind, ps: seq<Piece>) {
    match kind
    case Switch | Exit | SymbolRemove => |ps| == 1 && ps[0].Num?
    case Fork | Clone | Munmap => |ps| == 2 && ps[0].Num? && ps[1].Num?
    case SymbolAdd | Name => |ps| == 2 && ps[0].Num? && ps[1].Str?
    case KthreadName => |ps| == 3 && ps[0].Num? && ps[1].Num? && ps[2].Str?
    case Mmap => |ps| == 4 && ps[0].Num? && ps[1].Num? && ps[2].Num? && ps[3].Str?
    case Exec =>
      0 < |ps| <= 0x8000_0000 && ps[0] == Num(ps[0].len, |ps| - 1) && forall i :: 0 < i < |ps| ==> ps[i].Str?
    case EndOfFile | Unlisted => ps == []
  }

  lemma StringsOf(s: seq<byte>, n: nat, s1: seq<byte>, tail: seq<byte>)
    requires IsNumber(Number(s), n, s1) && n < 0x8000_0000 && Texts(n, s1) == Front((), tail)
    ensures Strings(s) == Front(Number(s).value, tail)
  {
    SmallInt32(Number(s).value, n);
  }

  lemma StringsBack(ps: seq<Piece>, tail: seq<byte>)
    requires AllFit(ps) && HasShape(Exec, ps)
    ensures var r := Strings(WritePieces(ps, tail)); r.Front? && r.rest == tail
  {
    NumStep(ps, tail);
    StrsStep(ps[1..], tail);
    StringsOf(WritePieces(ps, tail), |ps| - 1, WritePieces(ps[1..], tail), tail);
  }

  /** The fields of a record are read up to what follows, and the pid of a switch is the one written. */
  predicate ReadsFields(kind: PidKind, ps: seq<Piece>, r: Front<int64>, tail: seq<byte>) {
    r.Front? && r.rest == tail && (kind.Switch? && ps != [] && ps[0].Num? ==> ToUint64(r.value) == ps[0].v)
  }

  lemma FieldsBack(kind: PidKind, ps: seq<Piece>, tail: seq<byte>)
    requires AllFit(ps) && HasShape(kind, ps)
    ensures ReadsFields(kind, ps, Fields(kind, WritePieces(ps, tail)), tail)
  {
    match kind {
      case Switch | Exit | SymbolRemove => NumStep(ps, tail);
      case Fork | Clone | Munmap => PairBack(ps, tail);
      case SymbolAdd | Name => NamedBack(ps, tail);
      case KthreadName =>
        NumStep(ps, tail);
        NamedBack(ps[1..], tail);
      case Mmap =>
        PairBack(ps, tail);
        NamedBack(ps[2..], tail);
      case Exec => StringsBack(ps, tail);
      case EndOfFile | Unlisted =>
    }
  }

  /** A pid record as it is written: the time since the one before it, the number of its type, and its fields. */
  datatype PidEntry = PidEntry(time: Piece, recType: Piece, fields: seq<Piece>)

  predicate EntryFits(kinds: int -> PidKind, e: PidEntry) {
    e.time.Num? && e.recType.Num? && e.recType.v < 0x8000_0000 && AllFit([e.time, e.recType] + e.fields) &&
    HasShape(kinds(e.recType.v), e.fields) && (kinds(e.recType.v).Switch? ==> e.fields[0].v < 0x8000_0000)
  }

  function WriteEntry(kinds: int -> PidKind, e: PidEntry, tail: seq<byte>): seq<byte>
    requires EntryFits(kinds, e)
  {
    WritePieces([e.time, e.recType] + e.fields, tail)
  }

  predicate Shows(kinds: int -> PidKind, e: PidEntry, rec: RawPid)
    requires EntryFits(kinds, e)
  {
    rec.timeDiff == e.time.v && rec.isSwitch == kinds(e.recType.v).Switch? && (rec.isSwitch ==> rec.pid == e.fields[0].v)
  }

  lemma BothBack(ps: seq<Piece>, tail: seq<byte>)
    requires AllFit(ps) && |ps| >= 2 && ps[0].Num? && ps[1].Num?
    ensures var r := Both(WritePieces(ps, tail));
            r.Front? && ToUint64(r.value.0) == ps[0].v && ToUint64(r.value.1) == ps[1].v && r.rest == WritePieces(ps[2..], tail)
  {
    NumStep(ps, tail);
    assert ps[1..][1..] == ps[2..];
    NumStep(ps[1..], tail);
  }

  lemma EntryBack(kinds: int -> PidKind, e: PidEntry, tail: seq<byte>)
    requires EntryFits(kinds, e)
    ensures var r := ReadPid(kinds, WriteEntry(kinds, e, tail));
            if kinds(e.recType.v).EndOfFile? then r == Broke(EndMark)
            else r.Front? && Shows(kinds, e, r.value) && r.rest == tail
  {
    var ps, s := [e.time, e.recType] + e.fields, WriteEntry(kinds, e, tail);
    BothBack(ps, tail);
    assert ps[2..] == e.fields;
    SmallInt32(Both(s).value.1, e.recType.v);
    var kind := kinds(e.recType.v);
    FieldsBack(kind, e.fields, tail);
    if kind.Switch? {
      SmallInt32(Fields(kind, WritePieces(e.fields, tail)).value, e.fields[0].v);
    }
  }

  function WriteEntries(kinds: int -> PidKind, es: seq<PidEntry>, tail: seq<byte>): seq<byte>
    requires forall i :: 0 <= i < |es| ==> EntryFits(kinds, es[i])
  {
    if es == [] then tail else WriteEntry(kinds, es[0], WriteEntries(kinds, es[1..], tail))
  }

  /** A written pid file is read back up to its end record: every time difference, and the pid of every switch. */
  lemma {:induction false} ParsePidsWritten(kinds: int -> PidKind, es: seq<PidEntry>, mark: PidEntry, tail: seq<byte>)
    requires forall i :: 0 <= i < |es| ==> EntryFits(kinds, es[i]) && !kinds(es[i].recType.v).EndOfFile?
    requires EntryFits(kinds, mark) && kinds(mark.recType.v).EndOfFile?
    ensures var file := ParsePids(kinds, WriteEntries(kinds, es, WriteEntry(kinds, mark, tail)));
            file.ending == EndMark && |file.raw| == |es| &&
            forall i :: 0 <= i < |es| ==> Shows(kinds, es[i], file.raw[i])
  {
    if es == [] {
      EntryBack(kinds, mark, tail);
    } else {
      EntryBack(kinds, es[0], WriteEntries(kinds, es[1..], WriteEntry(kinds, mark, tail)));
      ParsePidsWritten(kinds, es[1..], mark, tail);
    }
  }

  /** The seven numbers of an exception record. */
  predicate ExcFits(ps: seq<Piece>) {
    |ps| == 7 && AllFit(ps) && (forall i :: 0 <= i < 7 ==> ps[i].Num?) && ps[6].v < 0x8000_0000
  }

  predicate EndsExcs(ps: seq<Piece>)
    requires ExcFits(ps)
  {
    ps[0].v == 0 && ps[1].v % TWO32 == 0
  }

  function ShownExc(ps: seq<Piece>): RawExc
    requires ExcFits(ps)
  {
    RawExc(ps[2].v, ps[6].v)
  }

  lemma LowHalf(val: int64, n: nat)
    requires ToUint64(val) == n
    ensures val % TWO32 == n % TWO32
  {}

  /** An exception record that is written is read back: its record number difference and its instruction count. */
  lemma ExcBack(ps: seq<Piece>, tail: seq<byte>)
    requires ExcFits(ps)
    ensures ReadExcRec(WritePieces(ps, tail)) == if EndsExcs(ps) then Broke(EndMark) else Front(ShownExc(ps), tail)
  {
    var s := WritePieces(ps, tail);
    BothBack(ps, tail);
    TailBack(ps[2..], tail);
    ExcOf(s, Both(s).value, Both(s).rest, ExcTail(Both(s).rest).value, tail);
    LowHalf(Both(s).value.1, ps[1].v);
  }

  lemma ExcOf(s: seq<byte>, head: (int64, int64), s1: seq<byte>, last: (int64, int64), tail: seq<byte>)
    requires Both(s) == Front(head, s1) && ExcTail(s1) == Front(last, tail)
    ensures ReadExcRec(s) == if ToUint64(head.0) == 0 && head.1 % TWO32 == 0 then Broke(EndMark)
                             else Front(RawExc(ToUint64(last.0), ToInt32(last.1)), tail)
  {}

  lemma TailBack(ps: seq<Piece>, tail: seq<byte>)
    requires |ps| == 5 && AllFit(ps) && (forall i :: 0 <= i < 5 ==> ps[i].Num?) && ps[4].v < 0x8000_0000
    ensures var r := ExcTail(WritePieces(ps, tail));
            r.Front? && r.rest == tail && ToUint64(r.value.0) == ps[0].v && ToInt32(r.value.1) == ps[4].v
  {
    NumStep(ps, tail);
    PairBack(ps[1..], tail);
    assert ps[1..][2..] == ps[3..];
    PairBack(ps[3..], tail);
    SmallInt32(ExcTail(WritePieces(ps, tail)).value.1, ps[4].v);
  }

  function WriteExcs(recs: seq<seq<Piece>>, tail: seq<byte>): seq<byte>
    requires forall i :: 0 <= i < |recs| ==> ExcFits(recs[i])
  {
    if recs == [] then tail
    else
      assert ExcFits(recs[0]);
      WritePieces(recs[0], WriteExcs(recs[1..], tail))
  }

  /** And a written exception file. */
  lemma {:induction false} ParseExcsWritten(recs: seq<seq<Piece>>, mark: seq<Piece>, tail: seq<byte>)
    requires forall i :: 0 <= i < |recs| ==> ExcFits(recs[i]) && !EndsExcs(recs[i])
    requires ExcFits(mark) && EndsExcs(mark)
    ensures var file := ParseExcs(WriteExcs(recs, WritePieces(mark, tail)));
            file.ending == EndMark && |file.raw| == |recs| &&
            forall i :: 0 <= i < |recs| ==> file.raw[i] == ShownExc(recs[i])
  {
    if recs == [] {
      ExcBack(mark, tail);
    } else {
      var more := WriteExcs(recs[1..], WritePieces(mark, tail));
      ExcBack(recs[0], more);
      assert ParseExcs(WritePieces(recs[0], more)) == File([ShownExc(recs[0])] + ParseExcs(more).raw, ParseExcs(more).ending);
      ParseExcsWritten(recs[1..], mark, tail);
    }
  }

  // --- Reading with a decoder -------------------------------------------------------------------------

  /** Fatal is the decoder's exit on a truncated file. */
  datatype Result<T> = Ok(value: T) | Fatal
  {
    predicate IsFailure() { Fatal? }
    function PropagateFailure<U>(): Result<U> requires Fatal? { Fatal }
    function Extract(): T requires Ok? { value }
  }

  /** The decoder has delivered the front that was there; a reserved prefix leaves it anywhere. */
  ghost predicate Delivered<T>(front: Front<T>, r: Result<T>, left: seq<byte>) {
    match front
    case Front(v, rest) => r == Ok(v) && left == rest
    case Broke(ending) => ending == Cut ==> r == Fatal
  }

  method DecodeNumber(decoder: Decoder) returns (r: Result<int64>)
    requires decoder.Valid()
    modifies decoder, decoder.buf
    ensures decoder.Valid() && Delivered(Number(old(decoder.Remaining())), r, decoder.Remaining())
  {
    var o := decoder.Decode(false);
    r := if o.Truncated? then Fatal else Ok(o.val);
  }

  method DecodeText(decoder: Decoder) returns (r: Result<()>)
    requires decoder.Valid()
    modifies decoder, decoder.buf
    ensures decoder.Valid() && Delivered(Text(old(decoder.Remaining())), r, decoder.Remaining())
  {
    var num :- DecodeNumber(decoder);
    var len := ToInt32(num);
    if len > 0 {
      var path := new byte[len];
      decoder.Read(path, len);
    }
    r := Ok(());
  }

  /** n texts are left of all, unless a reserved prefix has come up. */
  ghost function Todo(n: nat, s: seq<byte>, all: Front<()>): Status {
    if forall k {:trigger Key(k)} :: Key(k) ==> all == Broke(ReservedByte) || Texts(n, s) == all then Sound else Unsound
  }

  /** Each pass takes one of them from the front. */
  lemma TodoStep(n: nat, s: seq<byte>, all: Front<()>, r: Result<()>, left: seq<byte>)
    requires n > 0 && Todo(n, s, all) == Sound && Delivered(Text(s), r, left)
    ensures r.Ok? ==> Todo(n - 1, left, all) == Sound
    ensures r.Fatal? ==> Delivered(all, r, left)
  {
    assert Key(0);
  }

  lemma TodoDone(s: seq<byte>, all: Front<()>)
    requires Todo(0, s, all) == Sound
    ensures Delivered(all, Ok(()), s)
  {
    assert Key(0);
  }

  method DecodeTexts(decoder: Decoder, n: nat) returns (r: Result<()>)
    requires decoder.Valid()
    modifies decoder, decoder.buf
    ensures decoder.Valid() && Delivered(Texts(n, old(decoder.Remaining())), r, decoder.Remaining())
  {
    ghost var all := Texts(n, decoder.Remaining());
    for i := 0 to n
      invariant decoder.Valid() && Todo(n - i, decoder.Remaining(), all) == Sound
    {
      ghost var s := decoder.Remaining();
      r := DecodeText(decoder);
      TodoStep(n - i, s, all, r, decoder.Remaining());
      if r.Fatal? {
        return;
      }
    }
    TodoDone(decoder.Remaining(), all);
    r := Ok(());
  }

  method DecodePair(decoder: Decoder) returns (r: Result<int64>)
    requires decoder.Valid()
    modifies decoder, decoder.buf
    ensures decoder.Valid() && Delivered(Pair(old(decoder.Remaining())), r, decoder.Remaining())
  {
    var _ :- DecodeNumber(decoder);
    r := DecodeNumber(decoder);
  }

  method DecodeNamed(decoder: Decoder) returns (r: Result<int64>)
    requires decoder.Valid()
    modifies decoder, decoder.buf
    ensures decoder.Valid() && Delivered(Named(old(decoder.Remaining())), r, decoder.Remaining())
  {
    var num :- DecodeNumber(decoder);
    var _ :- DecodeText(decoder);
    r := Ok(num);
  }

  method DecodeStrings(decoder: Decoder) returns (r: Result<int64>)
    requires decoder.Valid()
    modifies decoder, decoder.buf
    ensures decoder.Valid() && Delivered(Strings(old(decoder.Remaining())), r, decoder.Remaining())
  {
    var argc :- DecodeNumber(decoder);
    var _ :- DecodeTexts(decoder, Least(ToInt32(argc), TWO32));
    r := Ok(argc);
  }

  method DecodeThread(decoder: Decoder) returns (r: Result<int64>)
    requires decoder.Valid()
    modifies decoder, decoder.buf
    ensures decoder.Valid() && Delivered(Behind(Number(old(decoder.Remaining()))), r, decoder.Remaining())
  {
    var _ :- DecodeNumber(decoder);
    r := DecodeNamed(decoder);
  }

  method DecodeMmap(decoder: Decoder) returns (r: Result<int64>)
    requires decoder.Valid()
    modifies decoder, decoder.buf
    ensures decoder.Valid() && Delivered(Behind(Pair(old(decoder.Remaining()))), r, decoder.Remaining())
  {
    var _ :- DecodePair(decoder);
    r := DecodeNamed(decoder);
  }

  /** The cases of ReadPidEvent behind the record type. */
  method DecodeFields(decoder: Decoder, kind: PidKind) returns (r: Result<int64>)
    requires decoder.Valid()
    modifies decoder, decoder.buf
    ensures decoder.Valid() && Delivered(Fields(kind, old(decoder.Remaining())), r, decoder.Remaining())
  {
    match kind {
      case Switch | Exit | SymbolRemove => r := DecodeNumber(decoder);
      case Fork | Clone | Munmap => r := DecodePair(decoder);
      case SymbolAdd | Name => r := DecodeNamed(decoder);
      case KthreadName => r := DecodeThread(decoder);
      case Mmap => r := DecodeMmap(decoder);
      case Exec => r := DecodeStrings(decoder);
      case EndOfFile | Unlisted => r := Ok(0);
    }
  }

  method DecodeBoth(decoder: Decoder) returns (r: Result<(int64, int64)>)
    requires decoder.Valid()
    modifies decoder, decoder.buf
    ensures decoder.Valid() && Delivered(Both(old(decoder.Remaining())), r, decoder.Remaining())
  {
    var first :- DecodeNumber(decoder);
    var second :- DecodeNumber(decoder);
    r := Ok((first, second));
  }

  /** A record was there, or its end mark. */
  ghost predicate DeliveredRecord<T>(front: Front<T>, r: Result<Option<T>>, left: seq<byte>) {
    match front
    case Front(v, rest) => r == Ok(Some(v)) && left == rest
    case Broke(EndMark) => r == Ok(None)
    case Broke(Cut) => r == Fatal
    case Broke(ReservedByte) => true
  }

  ghost function Record<T>(front: Front<T>, r: Result<Option<T>>, left: seq<byte>): Status {
    if forall k {:trigger Key(k)} :: Key(k) ==> DeliveredRecord(front, r, left) then Sound else Unsound
  }

  /** ReadPidEvent; None is the end-of-file record. */
  method DecodePid(decoder: Decoder, kinds: int -> PidKind) returns (r: Result<Option<RawPid>>)
    requires decoder.Valid()
    modifies decoder, decoder.buf
    ensures decoder.Valid() && Record(ReadPid(kinds, old(decoder.Remaining())), r, decoder.Remaining()) == Sound
  {
    var head :- DecodeBoth(decoder);
    var kind := kinds(ToInt32(head.1));
    if kind.EndOfFile? {
      return Ok(None);
    }
    var pid :- DecodeFields(decoder, kind);
    r := Ok(Some(RawPid(ToUint64(head.0), kind.Switch?, ToInt32(pid))));
  }

  method DecodeExcTail(decoder: Decoder) returns (r: Result<(int64, int64)>)
    requires decoder.Valid()
    modifies decoder, decoder.buf
    ensures decoder.Valid() && Delivered(ExcTail(old(decoder.Remaining())), r, decoder.Remaining())
  {
    var recnumDiff :- DecodeNumber(decoder);
    var _ :- DecodePair(decoder);
    var numInsns :- DecodePair(decoder);
    r := Ok((recnumDiff, numInsns));
  }

  /** ReadExc; None is the record that ends the file. */
  method DecodeExc(decoder: Decoder) returns (r: Result<Option<RawExc>>)
    requires decoder.Valid()
    modifies decoder, decoder.buf
    ensures decoder.Valid() && Record(ReadExcRec(old(decoder.Remaining())), r, decoder.Remaining()) == Sound
  {
    var head :- DecodeBoth(decoder);
    var tail :- DecodeExcTail(decoder);
    if ToUint64(head.0) == 0 && head.1 % TWO32 == 0 {
      return Ok(None);
    }
    r := Ok(Some(RawExc(ToUint64(tail.0), ToInt32(tail.1))));
  }
}
