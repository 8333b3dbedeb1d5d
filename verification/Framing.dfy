/** The hexadecimal header codec and the frame parser of qemud's serial protocol, as pure functions. */
module Framing {
  import opened Words

  const HEADER_SIZE := 6
  const CHANNEL_SIZE := 2
  const LENGTH_SIZE := 4
  const MAX_PAYLOAD := 4000

  // --- Hexadecimal numbers ------------------------------------------------------------

  /** The value of an ASCII hex digit, or -1. */
  function HexDigit(c: byte): int {
    if '0' as int <= c <= '9' as int then c - '0' as int
    else if 'a' as int <= c <= 'f' as int then c - 'a' as int + 10
    else if 'A' as int <= c <= 'F' as int then c - 'A' as int + 10
    else -1
  }

  function HexChar(d: int): byte
    requires 0 <= d < 16
  {
    if d < 10 then '0' as int + d else 'a' as int + d - 10
  }

  /** The number a string of hex digits denotes, or -1 if any character is not one. */
  function HexValue(s: seq<byte>): (v: int)
    ensures v >= -1
  {
    if s == [] then 0
    else
      var high, low := HexValue(s[..|s| - 1]), HexDigit(s[|s| - 1]);
      if high < 0 || low < 0 then -1 else high * 16 + low
  }

  /** The low width hex digits of v, two's complement if v is negative. */
  function ToHex(v: int, width: nat): (s: seq<byte>)
    ensures |s| == width
    decreases width
  {
    if width == 0 then [] else ToHex(v / 16, width - 1) + [HexChar(v % 16)]
  }

  /** v >> 4k */
  function Shr4(v: int, k: nat): int
    decreases k
  {
    if k == 0 then v else Shr4(v / 16, k - 1)
  }

  lemma {:induction false} ToHexAt(v: int, width: nat, i: nat)
    requires i < width
    ensures ToHex(v, width)[i] == HexChar(Shr4(v, width - 1 - i) % 16)
    decreases width
  {
    if i < width - 1 {
      ToHexAt(v / 16, width - 1, i);
    }
  }

  /** The low k hex digits of v as a number. */
  function Low4(v: int, k: nat): nat
    decreases k
  {
    if k == 0 then 0 else Low4(v / 16, k - 1) * 16 + v % 16
  }

  lemma {:induction false} HexReadsBack(v: int, width: nat)
    ensures HexValue(ToHex(v, width)) == Low4(v, width)
    decreases width
  {
    if width > 0 {
      HexReadsBack(v / 16, width - 1);
      var s := ToHex(v, width);
      assert s[..|s| - 1] == ToHex(v / 16, width - 1);
    }
  }

  function Pow16(k: nat): nat { if k == 0 then 1 else 16 * Pow16(k - 1) }

  lemma {:induction false} LowOfSmall(v: int, k: nat)
    requires 0 <= v < Pow16(k)
    ensures Low4(v, k) == v
    decreases k
  {
    if k > 0 {
      LowOfSmall(v / 16, k - 1);
    }
  }

  /** Reading back a written number is exact for everything that fits the width. */
  lemma {:induction false} HexRoundTrip(v: int, width: nat)
    requires 0 <= v < Pow16(width)
    ensures HexValue(ToHex(v, width)) == v
  {
    HexReadsBack(v, width);
    LowOfSmall(v, width);
  }

  /** hex2int */
  method Hex2Int(data: seq<byte>) returns (result: int)
    requires |data| <= 7
    ensures result == HexValue(data)
  {
    result := 0;
    for i := 0 to |data|
      invariant result == HexValue(data[..i]) >= 0
    {
      assert data[..i + 1][..i] == data[..i];
      var d := HexDigit(data[i]);
      if d < 0 {
        NotHex(data, i);
        return -1;
      }
      result := result * 16 + d;
    }
    assert data[..|data|] == data;
  }

  lemma {:induction false} NotHex(s: seq<byte>, i: nat)
    requires i < |s| && HexDigit(s[i]) < 0
    ensures HexValue(s) == -1
  {
    if i < |s| - 1 {
      NotHex(s[..|s| - 1], i);
    }
  }

  /** int2hex */
  method Int2Hex(value: int, width: nat) returns (to: seq<byte>)
    ensures to == ToHex(value, width)
  {
    to := [];
    var w: nat := width;
    while w > 0
      invariant w <= width && |to| == width - w
      invariant forall i :: 0 <= i < |to| ==> to[i] == ToHex(value, width)[i]
    {
      w := w - 1;
      ToHexAt(value, width, |to|);
      to := to + [HexChar(Shr4(value, w) % 16)];
    }
    assert to == ToHex(value, width);
  }

  // --- The frame parser, one byte at a time ----------------------------------------------

  datatype Frame = Frame(channel: int, payload: seq<byte>)

  /** datalen is 0 while a header is being read; part is what has been read of header or payload. */
  datatype Parser = Parser(datalen: int, channel: int, part: seq<byte>)

  const START := Parser(0, 0, [])

  predicate Ready(p: Parser) {
    p.datalen >= 0 && |p.part| < if p.datalen == 0 then HEADER_SIZE else p.datalen
  }

  /** A complete header: malformed and empty frames leave the parser waiting for the next header. */
  function HeaderDone(header: seq<byte>): Parser
    requires |header| == HEADER_SIZE
  {
    var len := HexValue(header[2..6]);
    Parser(if len <= 0 then 0 else len, HexValue(header[0..2]), [])
  }

  /** A complete payload: it is delivered unless its channel was malformed. */
  function Delivered(channel: int, payload: seq<byte>): seq<Frame> {
    if channel < 0 then [] else [Frame(channel, payload)]
  }

  function FeedByte(p: Parser, b: byte): (Parser, seq<Frame>) {
    var part := p.part + [b];
    if p.datalen == 0 then
      (if |part| == HEADER_SIZE then HeaderDone(part) else p.(part := part), [])
    else if |part| == p.datalen then (Parser(0, p.channel, []), Delivered(p.channel, part))
    else (p.(part := part), [])
  }

  function Feed(p: Parser, s: seq<byte>): (Parser, seq<Frame>)
    decreases |s|
  {
    if s == [] then (p, [])
    else
      var (q, now) := FeedByte(p, s[0]);
      var (r, later) := Feed(q, s[1..]);
      (r, now + later)
  }

  lemma {:induction false} FeedConcat(p: Parser, a: seq<byte>, b: seq<byte>)
    ensures var (q, f) := Feed(p, a);
            var (r, g) := Feed(q, b);
            Feed(p, a + b) == (r, f + g)
    decreases |a|
  {
    if a == [] {
      assert a + b == b;
      assert [] + Feed(p, b).1 == Feed(p, b).1;
    } else {
      assert (a + b)[0] == a[0] && (a + b)[1..] == a[1..] + b;
      var (q, now) := FeedByte(p, a[0]);
      FeedConcat(q, a[1..], b);
      Associative(now, Feed(q, a[1..]).1, Feed(Feed(q, a[1..]).0, b).1);
    }
  }

  /** How many more bytes complete what the parser is reading. */
  function Wanted(p: Parser): int {
    (if p.datalen == 0 then HEADER_SIZE else p.datalen) - |p.part|
  }

  /** What the block copies of the receiver do: up to Wanted bytes at once. */
  function FeedBlock(p: Parser, s: seq<byte>): (Parser, seq<Frame>)
    requires |s| <= Wanted(p)
  {
    var part := p.part + s;
    if |s| < Wanted(p) then (p.(part := part), [])
    else if p.datalen == 0 then (HeaderDone(part), [])
    else (Parser(0, p.channel, []), Delivered(p.channel, part))
  }

  lemma {:induction false} FeedIsBlock(p: Parser, s: seq<byte>)
    requires Ready(p) && 0 < |s| <= Wanted(p)
    ensures Feed(p, s) == FeedBlock(p, s)
    decreases |s|
  {
    var (q, now) := FeedByte(p, s[0]);
    if |s| == 1 {
      assert s == [s[0]];
      assert now + [] == now;
    } else {
      FeedIsBlock(q, s[1..]);
      assert now + Feed(q, s[1..]).1 == Feed(q, s[1..]).1;
      assert p.part + s == q.part + s[1..];
    }
  }

  function Max(a: int, b: int): int { if a < b then b else a }

  /** The longest payload declared by any header of the stream, or already being read. */
  function MaxDeclared(p: Parser, s: seq<byte>): int
    decreases |s|
  {
    if s == [] then p.datalen else Max(p.datalen, MaxDeclared(FeedByte(p, s[0]).0, s[1..]))
  }

  lemma {:induction false} MaxDeclaredSplit(p: Parser, a: seq<byte>, b: seq<byte>)
    ensures MaxDeclared(p, a + b) == Max(MaxDeclared(p, a), MaxDeclared(Feed(p, a).0, b))
    decreases |a|
  {
    if a == [] {
      assert a + b == b;
      if b != [] {
        assert MaxDeclared(p, b) >= p.datalen;
      }
    } else {
      assert (a + b)[0] == a[0] && (a + b)[1..] == a[1..] + b;
      MaxDeclaredSplit(FeedByte(p, a[0]).0, a[1..], b);
    }
  }

  // --- Frames on the wire ----------------------------------------------------------------

  function Wire(f: Frame): seq<byte> {
    ToHex(f.channel, CHANNEL_SIZE) + ToHex(|f.payload|, LENGTH_SIZE) + f.payload
  }

  function WireAll(frames: seq<Frame>): seq<byte> {
    if frames == [] then [] else Wire(frames[0]) + WireAll(frames[1..])
  }

  predicate Sendable(f: Frame) {
    0 <= f.channel <= 255 && 0 < |f.payload| <= MAX_PAYLOAD
  }

  function FeedChunks(p: Parser, chunks: seq<seq<byte>>): (Parser, seq<Frame>)
    decreases |chunks|
  {
    if chunks == [] then (p, [])
    else
      var (q, now) := Feed(p, chunks[0]);
      var (r, later) := FeedChunks(q, chunks[1..]);
      (r, now + later)
  }

  function Joined(chunks: seq<seq<byte>>): seq<byte> {
    if chunks == [] then [] else chunks[0] + Joined(chunks[1..])
  }

  /** How the stream is cut into reads makes no difference. */
  lemma {:induction false} ChunkingIrrelevant(p: Parser, chunks: seq<seq<byte>>)
    ensures FeedChunks(p, chunks) == Feed(p, Joined(chunks))
    decreases |chunks|
  {
    if chunks != [] {
      FeedConcat(p, chunks[0], Joined(chunks[1..]));
      ChunkingIrrelevant(Feed(p, chunks[0]).0, chunks[1..]);
    }
  }

  lemma HeaderOf(c: seq<byte>, l: seq<byte>)
    requires |c| == 2 && |l| == 4 && HexValue(l) > 0
    ensures HeaderDone(c + l) == Parser(HexValue(l), HexValue(c), [])
  {
    assert (c + l)[0..2] == c && (c + l)[2..6] == l;
  }

  lemma FeedHeaderAndPayload(p: Parser, header: seq<byte>, payload: seq<byte>)
    requires p.datalen == 0 && p.part == [] && |header| == HEADER_SIZE && payload != []
    requires HeaderDone(header).datalen == |payload|
    ensures var channel := HeaderDone(header).channel;
            Feed(p, header + payload) == (Parser(0, channel, []), Delivered(channel, payload))
  {
    var q := HeaderDone(header);
    assert p.part + header == header && q.part + payload == payload;
    FeedIsBlock(p, header);
    FeedIsBlock(q, payload);
    FeedConcat(p, header, payload);
    assert [] + Delivered(q.channel, payload) == Delivered(q.channel, payload);
  }

  lemma FeedFields(p: Parser, f: Frame, c: seq<byte>, l: seq<byte>)
    requires p.datalen == 0 && p.part == [] && |c| == CHANNEL_SIZE && |l| == LENGTH_SIZE
    requires HexValue(c) == f.channel >= 0 && HexValue(l) == |f.payload| > 0
    ensures Feed(p, c + l + f.payload) == (Parser(0, f.channel, []), [f])
  {
    HeaderOf(c, l);
    FeedHeaderAndPayload(p, c + l, f.payload);
  }

  lemma FieldsRead(f: Frame)
    requires Sendable(f)
    ensures HexValue(ToHex(f.channel, CHANNEL_SIZE)) == f.channel
    ensures HexValue(ToHex(|f.payload|, LENGTH_SIZE)) == |f.payload|
  {
    assert Pow16(CHANNEL_SIZE) == 0x100 && Pow16(LENGTH_SIZE) == 0x1_0000;
    HexRoundTrip(f.channel, CHANNEL_SIZE);
    HexRoundTrip(|f.payload|, LENGTH_SIZE);
  }

  lemma FeedWire(p: Parser, f: Frame)
    requires p.datalen == 0 && p.part == [] && Sendable(f)
    ensures Feed(p, Wire(f)) == (Parser(0, f.channel, []), [f])
  {
    FieldsRead(f);
    FeedFields(p, f, ToHex(f.channel, CHANNEL_SIZE), ToHex(|f.payload|, LENGTH_SIZE));
  }

  lemma {:induction false} FeedWireAll(p: Parser, frames: seq<Frame>)
    requires p.datalen == 0 && p.part == [] && forall f :: f in frames ==> Sendable(f)
    ensures Feed(p, WireAll(frames)).1 == frames
    decreases |frames|
  {
    if frames != [] {
      FeedWire(p, frames[0]);
      FeedConcat(p, Wire(frames[0]), WireAll(frames[1..]));
      FeedWireAll(Parser(0, frames[0].channel, []), frames[1..]);
    }
  }

  /** Within one block only its end can declare a length. */
  lemma {:induction false} BlockDeclares(p: Parser, s: seq<byte>)
    requires Ready(p) && 0 < |s| <= Wanted(p)
    ensures MaxDeclared(p, s) == Max(p.datalen, Feed(p, s).0.datalen)
    decreases |s|
  {
    if |s| > 1 {
      BlockDeclares(FeedByte(p, s[0]).0, s[1..]);
    }
  }

  /** A frame that may be sent declares no more than its own length, which the receiver's buffer holds. */
  lemma WireDeclares(p: Parser, f: Frame)
    requires p.datalen == 0 && p.part == [] && Sendable(f)
    ensures MaxDeclared(p, Wire(f)) <= MAX_PAYLOAD
  {
    FieldsRead(f);
    var c, l := ToHex(f.channel, CHANNEL_SIZE), ToHex(|f.payload|, LENGTH_SIZE);
    HeaderOf(c, l);
    var header := c + l;
    var q := HeaderDone(header);
    FeedIsBlock(p, header);
    assert p.part + header == header;
    BlockDeclares(p, header);
    FeedIsBlock(q, f.payload);
    BlockDeclares(q, f.payload);
    MaxDeclaredSplit(p, header, f.payload);
  }

  /** So does any sequence of such frames. */
  lemma {:induction false} WireAllDeclares(p: Parser, frames: seq<Frame>)
    requires p.datalen == 0 && p.part == [] && forall f :: f in frames ==> Sendable(f)
    ensures MaxDeclared(p, WireAll(frames)) <= MAX_PAYLOAD
    decreases |frames|
  {
    if frames != [] {
      WireDeclares(p, frames[0]);
      FeedWire(p, frames[0]);
      MaxDeclaredSplit(p, Wire(frames[0]), WireAll(frames[1..]));
      WireAllDeclares(Parser(0, frames[0].channel, []), frames[1..]);
    }
  }

  /**
   * In the middle of a stream of frames: what has been read delivers the first of the frames, and what is
   * read next declares no length that is too large.
   */
  lemma MidStream(frames: seq<Frame>, done: seq<byte>, next: seq<byte>, rest: seq<byte>)
    requires forall f :: f in frames ==> Sendable(f)
    requires done + next + rest == WireAll(frames)
    ensures MaxDeclared(Feed(START, done).0, next) <= MAX_PAYLOAD
    ensures Feed(START, done).1 <= frames
  {
    WireAllDeclares(START, frames);
    MaxDeclaredSplit(START, done + next, rest);
    MaxDeclaredSplit(START, done, next);
    Associative(done, next, rest);
    PrefixDelivers(frames, done, next + rest);
  }

  lemma PrefixDelivers(frames: seq<Frame>, done: seq<byte>, rest: seq<byte>)
    requires (forall f :: f in frames ==> Sendable(f)) && done + rest == WireAll(frames)
    ensures Feed(START, done).1 <= frames
  {
    FeedWireAll(START, frames);
    FeedConcat(START, done, rest);
  }

  lemma {:induction false} WireAllMore(frames: seq<Frame>, f: Frame)
    ensures WireAll(frames + [f]) == WireAll(frames) + Wire(f)
  {
    if frames == [] {
      assert [] + [f] == [f] && [f][1..] == [];
      assert Wire(f) + [] == Wire(f);
    } else {
      assert (frames + [f])[1..] == frames[1..] + [f];
      WireAllMore(frames[1..], f);
      Associative(Wire(frames[0]), WireAll(frames[1..]), Wire(f));
    }
  }

  /** End to end: whatever the chunking, the receiver delivers exactly the frames that were sent. */
  lemma FramingRoundTrip(frames: seq<Frame>, chunks: seq<seq<byte>>)
    requires forall f :: f in frames ==> Sendable(f)
    requires Joined(chunks) == WireAll(frames)
    ensures FeedChunks(START, chunks).1 == frames
  {
    ChunkingIrrelevant(START, chunks);
    FeedWireAll(START, frames);
  }
}
