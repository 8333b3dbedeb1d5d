/** Machine integers and big-endian byte strings, shared by the trace reader and qemud models. */
module Words {

  const TWO8 := 0x100
  const TWO32 := 0x1_0000_0000
  const TWO63 := 0x8000_0000_0000_0000
  const TWO64 := 0x1_0000_0000_0000_0000
  /** The all-ones time, which the trace readers keep for "no further record". */
  const NEVER := TWO64 - 1

  type byte = b: int | 0 <= b < TWO8
  type uint32 = n: int | 0 <= n < TWO32
  type uint64 = n: int | 0 <= n < TWO64
  type int64 = n: int | -TWO63 <= n < TWO63

  function ToUint64(n: int): uint64 { n % TWO64 }

  function ToInt64(n: int): int64 {
    var m := n % TWO64;
    if m < TWO63 then m else m - TWO64
  }

  // Shifts by whole bytes.

  /** v << 8k */
  function Shl8(v: int, k: nat): int {
    if k == 0 then v else Shl8(v, k - 1) * 256
  }

  /** n >> 8k */
  function Shr8(n: nat, k: nat): nat {
    if k == 0 then n else Shr8(n / 256, k - 1)
  }

  /** The low k bytes of n. */
  function Low8(n: nat, k: nat): nat {
    if k == 0 then 0 else Low8(n / 256, k - 1) * 256 + n % 256
  }

  /** The number whose base-256 digits are s, most significant first. */
  function BigEndian(s: seq<byte>): (n: nat) {
    if s == [] then 0 else BigEndian(s[..|s| - 1]) * 256 + s[|s| - 1]
  }

  /** The low width bytes of n, most significant first. */
  function ToBigEndian(n: nat, width: nat): (s: seq<byte>)
    ensures |s| == width
  {
    if width == 0 then [] else ToBigEndian(n / 256, width - 1) + [n % 256]
  }

  lemma {:induction false} ShiftParts(n: nat, k: nat)
    ensures n == Shl8(Shr8(n, k), k) + Low8(n, k)
  {
    if k > 0 {
      ShiftParts(n / 256, k - 1);
    }
  }

  /** Cutting a big-endian number before its last k bytes is a shift and a mask. */
  lemma {:induction false} BigEndianSplit(s: seq<byte>, k: nat)
    requires k <= |s|
    ensures Shr8(BigEndian(s), k) == BigEndian(s[..|s| - k])
    ensures Low8(BigEndian(s), k) == BigEndian(s[|s| - k..])
  {
    if k == 0 {
      assert s[..|s|] == s;
    } else {
      var t, u := s[..|s| - 1], s[|s| - k..];
      BigEndianSplit(t, k - 1);
      assert t[..|t| - (k - 1)] == s[..|s| - k];
      assert t[|t| - (k - 1)..] == u[..|u| - 1];
    }
  }

  lemma {:induction false} BigEndianRoundTrip(n: nat, width: nat)
    ensures BigEndian(ToBigEndian(n, width)) == Low8(n, width)
  {
    if width > 0 {
      BigEndianRoundTrip(n / 256, width - 1);
      var s := ToBigEndian(n, width);
      assert s[..|s| - 1] == ToBigEndian(n / 256, width - 1);
    }
  }

  // Facts about sequences that need saying.

  lemma Associative<T>(a: seq<T>, b: seq<T>, c: seq<T>)
    ensures (a + b) + c == a + (b + c)
  {}

  lemma SliceOfSlice<T>(s: seq<T>, lo: nat, hi: nat, n: nat)
    requires lo + n <= hi <= |s|
    ensures s[lo..hi][..n] == s[lo..lo + n] && s[lo..hi][n..] == s[lo + n..hi]
  {}

  // Copying between buffers.

  /** d with src written over it from position at. */
  function Overwrite<T>(d: seq<T>, at: nat, src: seq<T>): (r: seq<T>)
    requires at + |src| <= |d|
    ensures |r| == |d|
  {
    d[..at] + src + d[at + |src|..]
  }

  /** Two stretches written one after the other read back as one. */
  lemma OverwriteTwice<T>(d: seq<T>, s1: seq<T>, s2: seq<T>)
    requires |s1| + |s2| <= |d|
    ensures Overwrite(Overwrite(d, 0, s1), |s1|, s2)[..|s1| + |s2|] == s1 + s2
  {}

  /** fread and memcpy: writes bytes into dest from position at. */
  method CopyIn(dest: array<byte>, at: nat, src: seq<byte>)
    requires at + |src| <= dest.Length
    modifies dest
    ensures dest[..] == Overwrite(old(dest[..]), at, src)
  {
    forall i | 0 <= i < |src| {
      dest[at + i] := src[i];
    }
  }
}
