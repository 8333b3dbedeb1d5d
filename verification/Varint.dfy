/**
 * The variable-length integer code of the trace files (decoder.cpp).
 * A code starts with a prefix byte that fixes its length; 7 data bits per byte up to
 * 6 bytes, or a bare prefix followed by a 64-bit big-endian word (9 bytes).
 */
module Varint {
  import opened Words

  // --- The three prefix tables ---------------------------------------------------

  function PrefixLen(b: byte): (len: nat)
    ensures 1 <= len <= 17
  {
    if b < 0x80 then 1 else if b < 0xc0 then 2 else if b < 0xe0 then 3
    else if b < 0xf0 then 4 else if b < 0xf8 then 5 else if b < 0xfc then 6
    else if b < 0xfe then 9 else 17
  }

  function PrefixData(b: byte): byte {
    if b < 0x80 then b else if b < 0xc0 then b - 0x80 else if b < 0xe0 then b - 0xc0
    else if b < 0xf0 then b - 0xe0 else if b < 0xf8 then b - 0xf0
    else if b < 0xfc then b - 0xf8 else 0
  }

  function PrefixSignedData(b: byte): int {
    if b < 0x40 then b else if b < 0x80 then b - 0x80
    else if b < 0xa0 then b - 0x80 else if b < 0xc0 then b - 0xc0
    else if b < 0xd0 then b - 0xc0 else if b < 0xe0 then b - 0xe0
    else if b < 0xe8 then b - 0xe0 else if b < 0xf0 then b - 0xf0
    else if b < 0xf4 then b - 0xf0 else if b < 0xf8 then b - 0xf8
    else if b < 0xfa then b - 0xf8 else if b < 0xfc then b - 0xfc
    else if b == 0xfd || b == 0xff then -1 else 0
  }

  function FirstData(signed: bool, b: byte): int {
    if signed then PrefixSignedData(b) else PrefixData(b)
  }

  const RESERVED_PREFIX: byte := 0xfe

  // --- What the two branches of Decode compute -------------------------------------

  /** The byte-by-byte branch: shift in one byte after another, in 64-bit arithmetic. */
  function Accumulate(v: int64, s: seq<byte>): int64 {
    if s == [] then v else ToInt64(Accumulate(v, s[..|s| - 1]) * 256 + s[|s| - 1])
  }

  lemma AccumulateStep(v: int64, s: seq<byte>, i: nat)
    requires i < |s|
    ensures Accumulate(v, s[..i + 1]) == ToInt64(Accumulate(v, s[..i]) * 256 + s[i])
  {
    var t := s[..i + 1];
    assert t[..|t| - 1] == s[..i] && t[|t| - 1] == s[i];
  }

  /** val64 shifted up by k bytes, with a k-byte field put in below it. */
  function Shifted(val64: int, k: nat, field: nat): int64 {
    ToInt64(Shl8(val64, k) + field)
  }

  /** The wide-load branch: one shift of the prefix data, or a bare 64-bit word. */
  function WideValue(signed: bool, code: seq<byte>): int64
    requires |code| > 0 && |code| == PrefixLen(code[0])
  {
    if |code| == 9 then ToInt64(BigEndian(code[1..]))
    else if |code| == 17 then FirstData(signed, code[0])
    else Shifted(FirstData(signed, code[0]), |code| - 1, BigEndian(code[1..]))
  }

  function ByteValue(signed: bool, code: seq<byte>): int64
    requires |code| > 0
  {
    Accumulate(FirstData(signed, code[0]), code[1..])
  }

  lemma ToInt64Congruent(a: int, b: int, k: int)
    requires a == b + k * TWO64
    ensures ToInt64(a) == ToInt64(b)
  {
    assert a % TWO64 == b % TWO64;
  }

  lemma ToInt64Offset(x: int) returns (k: int)
    ensures ToInt64(x) == x + k * TWO64
  {
    k := -(x / TWO64) - (if x % TWO64 < TWO63 then 0 else 1);
  }

  lemma ToInt64Shift(x: int, b: int)
    ensures ToInt64(ToInt64(x) * 256 + b) == ToInt64(x * 256 + b)
  {
    var k := ToInt64Offset(x);
    ToInt64Congruent(ToInt64(x) * 256 + b, x * 256 + b, 256 * k);
  }

  lemma {:induction false} AccumulateIsShifted(v: int64, s: seq<byte>)
    ensures Accumulate(v, s) == Shifted(v, |s|, BigEndian(s))
  {
    if s != [] {
      var t := s[..|s| - 1];
      AccumulateIsShifted(v, t);
      ToInt64Shift(Shl8(v, |t|) + BigEndian(t), s[|s| - 1]);
    }
  }

  /** The two branches agree on every code whose prefix is not reserved. */
  lemma BranchesAgree(signed: bool, code: seq<byte>)
    requires |code| > 0 && |code| == PrefixLen(code[0])
    requires code[0] < RESERVED_PREFIX
    ensures WideValue(signed, code) == ByteValue(signed, code)
  {
    var v, s := FirstData(signed, code[0]), code[1..];
    AccumulateIsShifted(v, s);
    if |code| == 9 {
      ShiftsByConstant(v);
      ToInt64Congruent(Shl8(v, 8) + BigEndian(s), BigEndian(s), v);
    }
  }

  lemma ShiftsByConstant(v: int)
    ensures Shl8(v, 0) == v && Shl8(v, 1) == v * 0x100 && Shl8(v, 2) == v * 0x1_0000
    ensures Shl8(v, 3) == v * 0x100_0000 && Shl8(v, 4) == v * TWO32
    ensures Shl8(v, 5) == v * 0x100_0000_0000 && Shl8(v, 8) == v * TWO64
  {
    assert Shl8(v, 2) == Shl8(v, 1) * 256;
    assert Shl8(v, 4) == Shl8(v, 3) * 256;
    assert Shl8(v, 6) == Shl8(v, 5) * 256;
    assert Shl8(v, 8) == Shl8(v, 7) * 256;
  }

  lemma {:induction false} AccumulateSplit(v: int64, a: seq<byte>, b: seq<byte>)
    ensures Accumulate(v, a + b) == Accumulate(Accumulate(v, a), b)
    decreases |b|
  {
    if b == [] {
      assert a + b == a;
    } else {
      assert (a + b)[..|a + b| - 1] == a + b[..|b| - 1];
      AccumulateSplit(v, a, b[..|b| - 1]);
    }
  }

  /**
   * Over all codes: a reserved prefix makes the wide branch drop the sixteen bytes that the other branch
   * reads, and the two agree exactly when the last eight of them happen to hold the prefix's own data.
   */
  lemma BranchesAgreeIff(signed: bool, code: seq<byte>)
    requires |code| > 0 && |code| == PrefixLen(code[0])
    ensures WideValue(signed, code) == ByteValue(signed, code) <==>
            code[0] < RESERVED_PREFIX || ToInt64(BigEndian(code[9..])) == FirstData(signed, code[0])
  {
    if code[0] < RESERVED_PREFIX {
      BranchesAgree(signed, code);
    } else {
      var v, a, b := FirstData(signed, code[0]), code[1..9], code[9..];
      assert code[1..] == a + b;
      AccumulateSplit(v, a, b);
      var u := Accumulate(v, a);
      AccumulateIsShifted(u, b);
      ShiftsByConstant(u);
      ToInt64Congruent(Shl8(u, 8) + BigEndian(b), BigEndian(b), u);
    }
  }

  // --- The code itself: which bytes stand for which number ---------------------------

  predicate CodeLen(len: nat) { 1 <= len <= 6 || len == 9 }

  /** How many bit patterns a code of len bytes carries. */
  function Patterns(len: nat): nat
    requires CodeLen(len)
  {
    match len
    case 1 => 0x80
    case 2 => 0x4000
    case 3 => 0x20_0000
    case 4 => 0x1000_0000
    case 5 => 0x8_0000_0000
    case 6 => 0x400_0000_0000
    case _ => TWO64
  }

  function PrefixBase(len: nat): byte
    requires CodeLen(len)
  {
    match len
    case 1 => 0
    case 2 => 0x80
    case 3 => 0xc0
    case 4 => 0xe0
    case 5 => 0xf0
    case 6 => 0xf8
    case _ => 0xfc
  }

  /** The code of len bytes carrying a given bit pattern. */
  function Code(len: nat, bits: nat): (code: seq<byte>)
    requires CodeLen(len) && bits < Patterns(len)
    ensures |code| == len
  {
    TopBits(len, bits);
    if len == 9 then [0xfc] + ToBigEndian(bits, 8)
    else [PrefixBase(len) + Shr8(bits, len - 1)] + ToBigEndian(bits, len - 1)
  }

  /** The data bits of a prefix byte: 8 - len of them. */
  lemma TopBits(len: nat, bits: nat)
    requires CodeLen(len) && bits < Patterns(len)
    ensures len < 9 ==> var top := Shr8(bits, len - 1);
      PrefixBase(len) + top < 0x100 && PrefixLen(PrefixBase(len) + top) == len &&
      PrefixData(PrefixBase(len) + top) == top
  {
    if len < 9 {
      ShiftParts(bits, len - 1);
      ShiftsByConstant(Shr8(bits, len - 1));
    }
  }

  /** The sign of a prefix byte is its top data bit. */
  lemma SignedTop(len: nat, top: nat)
    requires CodeLen(len) && len < 9 && top < DataRange(len)
    ensures var b := PrefixBase(len) + top;
            b < 0x100 && PrefixSignedData(b) == if 2 * top < DataRange(len) then top else top - DataRange(len)
  {}

  /** How many values the data bits of a prefix byte have. */
  function DataRange(len: nat): nat
    requires CodeLen(len) && len < 9
  {
    match len
    case 1 => 0x80
    case 2 => 0x40
    case 3 => 0x20
    case 4 => 0x10
    case 5 => 8
    case _ => 4
  }

  /** The sign of a code is the top data bit of its prefix byte. */
  lemma SignBit(len: nat, bits: nat)
    requires CodeLen(len) && len < 9 && bits < Patterns(len)
    ensures var b := PrefixBase(len) + Shr8(bits, len - 1);
            b < 0x100 && Shl8(PrefixSignedData(b), len - 1) + Low8(bits, len - 1)
                      == if 2 * bits < Patterns(len) then bits else bits - Patterns(len)
  {
    var top := Shr8(bits, len - 1);
    ShiftParts(bits, len - 1);
    LowBound(bits, len - 1);
    ShiftsByConstant(1);
    ShiftsByConstant(top);
    ShiftsByConstant(top - DataRange(len));
    SignedTop(len, top);
  }

  lemma {:induction false} LowBound(n: nat, k: nat)
    ensures Low8(n, k) < Shl8(1, k)
    decreases k
  {
    if k > 0 {
      LowBound(n / 256, k - 1);
    }
  }

  function Complement(v: int, n: nat): int { if v >= 0 then v else v + n }

  /** The codes that stand for v: any length whose data bits can hold it. */
  predicate Fits(signed: bool, len: nat, v: int) {
    CodeLen(len) &&
    if signed then 0 <= 2 * v + Patterns(len) < 2 * Patterns(len) else 0 <= v < Patterns(len)
  }

  function Encode(signed: bool, len: nat, v: int): (code: seq<byte>)
    requires Fits(signed, len, v)
  {
    Code(len, Complement(v, Patterns(len)))
  }

  /** Decode returns an int64; callers of the unsigned form read it as a uint64. */
  function AsRead(signed: bool, v: int64): int { if signed then v else ToUint64(v) }

  lemma CodePrefix(len: nat, bits: nat)
    requires CodeLen(len) && bits < Patterns(len)
    ensures var code := Code(len, bits); PrefixLen(code[0]) == len && code[0] < RESERVED_PREFIX
  {
    TopBits(len, bits);
  }

  lemma ToInt64Reads(x: int)
    ensures -TWO63 <= x < TWO63 ==> ToInt64(x) == x
    ensures 0 <= x < TWO64 ==> ToUint64(ToInt64(x)) == x
    ensures -TWO63 <= x < 0 ==> ToInt64(x + TWO64) == x
  {}

  lemma WholeWord(bits: nat)
    requires bits < TWO64
    ensures Low8(bits, 8) == bits
  {
    ShiftParts(bits, 8);
    ShiftsByConstant(Shr8(bits, 8));
  }

  lemma WideIsBits(signed: bool, len: nat, bits: nat)
    requires CodeLen(len) && bits < Patterns(len)
    ensures var code := Code(len, bits);
            |code| == PrefixLen(code[0]) &&
            WideValue(signed, code)
              == ToInt64(if len < 9 && signed && 2 * bits >= Patterns(len) then bits - Patterns(len) else bits)
  {
    var code := Code(len, bits);
    CodePrefix(len, bits);
    if len == 9 {
      assert code[1..] == ToBigEndian(bits, 8);
      BigEndianRoundTrip(bits, 8);
      WholeWord(bits);
    } else {
      assert code[1..] == ToBigEndian(bits, len - 1);
      BigEndianRoundTrip(bits, len - 1);
      TopBits(len, bits);
      ShiftParts(bits, len - 1);
      SignBit(len, bits);
    }
  }

  /** Round trip: every code of v, signed or not, reads back as v. */
  lemma DecodeEncode(signed: bool, len: nat, v: int)
    requires Fits(signed, len, v)
    ensures var code := Encode(signed, len, v);
            |code| == PrefixLen(code[0]) && AsRead(signed, WideValue(signed, code)) == v &&
            AsRead(signed, ByteValue(signed, code)) == v
  {
    WideIsBits(signed, len, Complement(v, Patterns(len)));
    CodePrefix(len, Complement(v, Patterns(len)));
    BranchesAgree(signed, Encode(signed, len, v));
    ToInt64Reads(v);
  }
}
