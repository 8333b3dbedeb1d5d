/** The sliding-buffer decoder of the trace files (decoder.cpp, decoder.h). */
module Decoding {
  import opened Words
  import opened Varint

  const BUF_SIZE := 4096
  const DECODING_SPACE := 9
  /** The wide load reads eight bytes wherever it starts; these stand for what follows buf_ in memory. */
  const SLACK := 8

  /** One decoding step on a plain byte string: what the buffered decoder must agree with. */
  datatype Decoded = PastEnd | Reserved | Value(val: int64, rest: seq<byte>)

  function DecodeFirst(signed: bool, s: seq<byte>): (d: Decoded)
    ensures d.Value? ==> |d.rest| < |s|
  {
    if s == [] then PastEnd
    else if s[0] >= RESERVED_PREFIX then Reserved
    else if |s| < PrefixLen(s[0]) then PastEnd
    else Value(WideValue(signed, s[..PrefixLen(s[0])]), s[PrefixLen(s[0])..])
  }

  /** What a call of Decode comes to: Truncated is the exit with "decoding past end of file". */
  datatype Outcome = Truncated | Got(val: int64)

  class Decoder {
    // The stream: fread takes bytes from file at position pos.
    const file: seq<byte>
    var pos: nat

    const buf: array<byte>
    var next: nat
    var end: nat

    ghost predicate Valid()
      reads this
    {
      buf.Length == BUF_SIZE + SLACK &&
      next <= end <= BUF_SIZE && pos <= |file| &&
      (end < BUF_SIZE ==> pos == |file|)
    }

    /** Everything the decoder has still to deliver. */
    ghost function Remaining(): (s: seq<byte>)
      requires Valid()
      reads this, buf
    {
      buf[next..end] + file[pos..]
    }

    constructor Open(contents: seq<byte>)
      ensures Valid() && fresh(buf)
      ensures file == contents && Remaining() == contents
    {
      var rval := if |contents| < BUF_SIZE then |contents| else BUF_SIZE;
      file, buf := contents, new byte[BUF_SIZE + SLACK](_ => 0);
      pos, next, end := rval, 0, rval;
      new;
      forall i | 0 <= i < rval {
        buf[i] := contents[i];
      }
      assert buf[..rval] == contents[..rval];
    }

    /** Moves the unread bytes to the front of the buffer. */
    method Slide() returns (len: nat)
      requires Valid()
      modifies buf
      ensures len == end - next && buf[..len] == old(buf[next..end])
    {
      ghost var was, unread := buf[..], buf[next..end];
      len := end - next;
      CopyIn(buf, 0, buf[next..end]);
      OverwrittenFront(was, unread);
    }

    /** Reads more of the file behind the len bytes at the front, as much as there is room for. */
    method TopUp(len: nat)
      requires len <= BUF_SIZE && buf.Length == BUF_SIZE + SLACK && pos <= |file|
      modifies this, buf
      ensures Valid() && next == 0 && (end == BUF_SIZE || pos == |file|)
      ensures Remaining() == old(buf[..len]) + old(file[pos..])
    {
      ghost var unread, left := buf[..len], file[pos..];
      var nbytes := BUF_SIZE - len;
      var rval := if |file| - pos < nbytes then |file| - pos else nbytes;
      ghost var more, was := file[pos..pos + rval], buf[..];
      CopyIn(buf, len, file[pos..pos + rval]);
      OverwrittenBehind(was, len, more);
      end, next, pos := len + rval, 0, pos + rval;
      assert buf[..end] == unread + more;
      Regroup(unread, left, rval);
    }

    /** Slides the unread bytes to the front and tops the buffer up; delivers nothing, loses nothing. */
    method FillBuffer()
      requires Valid()
      modifies this, buf
      ensures Valid() && Remaining() == old(Remaining())
      ensures end - next >= DECODING_SPACE || pos == |file|
      ensures next == end ==> Remaining() == []
    {
      if end - next < DECODING_SPACE && end == BUF_SIZE {
        var len := Slide();
        TopUp(len);
      }
    }

    /** One memcpy of n buffered bytes to dest at offset at. */
    method Take(dest: array<byte>, at: nat, n: nat)
      requires Valid() && n <= end - next && at + n <= dest.Length && dest != buf
      modifies `next, dest
      ensures Valid()
      ensures n <= |old(Remaining())| && Remaining() == old(Remaining())[n..]
      ensures dest[..] == Overwrite(old(dest[..]), at, old(Remaining())[..n])
    {
      CutFirst(buf[next..end], file[pos..], n);
      SliceOfSlice(buf[..], next, end, n);
      CopyIn(dest, at, buf[next..next + n]);
      next := next + n;
    }

    /** How many bytes can be copied without reading the file, after a refill if there were none. */
    method Available() returns (nbytes: nat)
      requires Valid()
      modifies this, buf
      ensures Valid() && Remaining() == old(Remaining()) && nbytes == end - next
      ensures nbytes == 0 ==> Remaining() == []
    {
      nbytes := end - next;
      if nbytes == 0 {
        FillBuffer();
        nbytes := end - next;
      }
    }

    /** Copies up to len bytes to dest, fewer only when the stream ends. */
    method Read(dest: array<byte>, len: nat)
      requires Valid() && len <= dest.Length && dest != buf
      modifies this, buf, dest
      ensures Valid()
      ensures var all := old(Remaining());
              var n := if len < |all| then len else |all|;
              dest[..] == Overwrite(old(dest[..]), 0, all[..n]) && Remaining() == all[n..]
    {
      ghost var was, got, left := dest[..], [], Remaining();
      assert Overwrite(was, 0, []) == was;
      var done := 0;
      while done < len
        invariant Valid() && done <= len && done == |got| && dest.Length == |was|
        invariant Remaining() == left && got + left == old(Remaining())
        invariant dest[..] == Overwrite(was, 0, got)
        decreases len - done
      {
        var nbytes := Available();
        if nbytes == 0 {
          break;
        }
        if nbytes > len - done {
          nbytes := len - done;
        }
        assert nbytes <= |left|;
        Take(dest, done, nbytes);
        CopyStep(was, got, left, nbytes);
        got, left, done := got + left[..nbytes], left[nbytes..], done + nbytes;
      }
      CutFirst(got, left, done);
    }

    /** What both branches of Decode begin with: top up, look at the prefix, check the length. */
    method Prefix() returns (byte0: byte, enough: bool)
      requires Valid()
      modifies this, buf
      ensures Valid() && Remaining() == old(Remaining()) && next <= BUF_SIZE && byte0 == buf[next]
      ensures enough <==> next + PrefixLen(byte0) <= end
      ensures var s := Remaining();
        (s == [] ==> !enough) && (s != [] ==> byte0 == s[0]) &&
        (s != [] && s[0] < RESERVED_PREFIX ==> (enough <==> PrefixLen(s[0]) <= |s|))
      ensures enough ==> var s, len := Remaining(), PrefixLen(byte0);
        len <= |s| && buf[next..next + len] == s[..len] && buf[next + len..end] + file[pos..] == s[len..]
    {
      if end - next < DECODING_SPACE {
        FillBuffer();
      }
      byte0 := buf[next];
      var len := PrefixLen(byte0);
      enough := next + len <= end;
      ghost var inBuf, onFile := buf[next..end], file[pos..];
      if next < end {
        assert inBuf[0] == byte0;
        assert (inBuf + onFile)[0] == inBuf[0];
      }
      assert pos == |file| ==> Remaining() == inBuf;
      if enough {
        CutFirst(inBuf, onFile, len);
        SliceOfSlice(buf[..], next, end, len);
      }
    }

    /** The loop of the byte-by-byte branch: shifts the next n bytes into val64. */
    method ShiftIn(first: int64, n: nat) returns (val64: int64)
      requires Valid() && next + n <= end
      modifies `next
      ensures next == old(next) + n && val64 == Accumulate(first, buf[old(next)..old(next) + n])
    {
      ghost var tail := buf[next..next + n];
      val64 := first;
      for ii := 0 to n
        invariant next == old(next) + ii && val64 == Accumulate(first, tail[..ii])
      {
        AccumulateStep(first, tail, ii);
        assert buf[next] == tail[ii];
        val64 := ToInt64(val64 * 256 + buf[next]);
        next := next + 1;
      }
      assert tail[..n] == tail;
    }

    /** The byte-by-byte branch of Decode. */
    method DecodeBytewise(signed: bool) returns (o: Outcome)
      requires Valid()
      modifies this, buf
      ensures Valid()
      ensures match DecodeFirst(signed, old(Remaining()))
              case PastEnd => o == Truncated && Remaining() == old(Remaining())
              case Reserved => true
              case Value(v, rest) => o == Got(v) && Remaining() == rest
    {
      var byte0, enough := Prefix();
      if !enough {
        return Truncated;
      }
      var val64 := ByteLoad(signed, byte0);
      o := Got(val64);
    }

    /** The code at next, byte by byte; every code but a reserved one as the other branch reads it. */
    method ByteLoad(signed: bool, byte0: byte) returns (val64: int64)
      requires Valid() && next < end && byte0 == buf[next] && next + PrefixLen(byte0) <= end
      modifies `next
      ensures next == old(next) + PrefixLen(byte0)
      ensures val64 == ByteValue(signed, buf[old(next)..next])
      ensures byte0 < RESERVED_PREFIX ==> val64 == WideValue(signed, buf[old(next)..next])
    {
      var len := PrefixLen(byte0);
      ghost var code := buf[next..next + len];
      if byte0 < RESERVED_PREFIX {
        BranchesAgree(signed, code);
      }
      assert code[1..] == buf[next + 1..next + len];
      next := next + 1;
      val64 := ShiftIn(FirstData(signed, byte0), len - 1);
    }

    /** The branch for little-endian machines: one eight-byte load, then a shift chosen by the length. */
    method Decode(signed: bool) returns (o: Outcome)
      requires Valid()
      modifies this, buf
      ensures Valid()
      ensures match DecodeFirst(signed, old(Remaining()))
              case PastEnd => o == Truncated && Remaining() == old(Remaining())
              case Reserved => true
              case Value(v, rest) => o == Got(v) && Remaining() == rest
    {
      var byte0, enough := Prefix();
      if !enough {
        return Truncated;
      }
      var val64 := WideLoad(signed, byte0);
      next := next + PrefixLen(byte0);
      o := Got(val64);
    }

    /** The byte-swapped load of the eight bytes at next, whatever lies beyond end, and what the length makes of it. */
    method WideLoad(signed: bool, byte0: byte) returns (val64: int64)
      requires Valid() && next <= BUF_SIZE && byte0 == buf[next] && next + PrefixLen(byte0) <= end
      ensures byte0 < RESERVED_PREFIX ==> val64 == WideValue(signed, buf[next..next + PrefixLen(byte0)])
    {
      ghost var loaded := buf[next..next + 8];
      var data := BigEndian(buf[next..next + 8]);
      var len := PrefixLen(byte0);
      ghost var code := buf[next..next + len];
      val64 := FirstData(signed, byte0);
      if len <= 6 {
        // (val64 << 8(len - 1)) | the len - 1 bytes after the prefix
        assert code == loaded[..len];
        LoadedField(loaded, code, len - 1);
        val64 := Shifted(val64, len - 1, Low8(Shr8(data, 8 - len), len - 1));
      } else if len == 9 {
        assert code[1..] == buf[next + 1..next + 9];
        val64 := ToInt64(BigEndian(buf[next + 1..next + 9]));
      }
    }
  }

  lemma OverwrittenFront(d: seq<byte>, src: seq<byte>)
    requires |src| <= |d|
    ensures Overwrite(d, 0, src)[..|src|] == src
  {}

  lemma OverwrittenBehind(d: seq<byte>, at: nat, src: seq<byte>)
    requires at + |src| <= |d|
    ensures Overwrite(d, at, src)[..at + |src|] == d[..at] + src
  {}

  /** What one memcpy of Read adds to a destination already holding the bytes got. */
  lemma CopyStep(was: seq<byte>, got: seq<byte>, left: seq<byte>, n: nat)
    requires n <= |left| && |got| + n <= |was|
    ensures got + left[..n] + left[n..] == got + left
    ensures Overwrite(Overwrite(was, 0, got), |got|, left[..n]) == Overwrite(was, 0, got + left[..n])
  {}

  /** Moving n bytes from the file to the buffer delivers the same bytes. */
  lemma Regroup<T>(a: seq<T>, b: seq<T>, n: nat)
    requires n <= |b|
    ensures a + b == a + b[..n] + b[n..]
  {}

  /** Cutting a concatenation inside its first part. */
  lemma CutFirst<T>(a: seq<T>, b: seq<T>, n: nat)
    requires n <= |a|
    ensures (a + b)[..n] == a[..n] && (a + b)[n..] == a[n..] + b
  {}

  /** The shifted and masked load is exactly the code's data bytes. */
  lemma LoadedField(loaded: seq<byte>, code: seq<byte>, k: nat)
    requires |loaded| == 8 && k < 8 && |code| == k + 1 && code == loaded[..k + 1]
    ensures Low8(Shr8(BigEndian(loaded), 7 - k), k) == BigEndian(code[1..])
  {
    BigEndianSplit(loaded, 7 - k);
    BigEndianSplit(code, k);
  }

  // --- Streams of codes ------------------------------------------------------------

  datatype Field = Field(signed: bool, len: nat, v: int)

  predicate FieldsFit(fields: seq<Field>) {
    forall i :: 0 <= i < |fields| ==> Fits(fields[i].signed, fields[i].len, fields[i].v)
  }

  function EncodeAll(fields: seq<Field>): seq<byte>
    requires FieldsFit(fields)
  {
    if fields == [] then []
    else Encode(fields[0].signed, fields[0].len, fields[0].v) + EncodeAll(fields[1..])
  }

  function Signs(fields: seq<Field>): seq<bool> {
    if fields == [] then [] else [fields[0].signed] + Signs(fields[1..])
  }

  function Values(fields: seq<Field>): seq<int> {
    if fields == [] then [] else [fields[0].v] + Values(fields[1..])
  }

  /** Successive steps, one for each requested signedness. */
  function DecodeMany(signs: seq<bool>, s: seq<byte>): (r: (seq<int>, seq<byte>)) {
    if signs == [] then ([], s)
    else match DecodeFirst(signs[0], s)
      case Value(v, rest) =>
        var (vs, tail) := DecodeMany(signs[1..], rest);
        ([AsRead(signs[0], v)] + vs, tail)
      case _ => ([], s)
  }

  lemma DecodeFirstOfCode(f: Field, tail: seq<byte>)
    requires Fits(f.signed, f.len, f.v)
    ensures var d := DecodeFirst(f.signed, Encode(f.signed, f.len, f.v) + tail);
            d.Value? && AsRead(f.signed, d.val) == f.v && d.rest == tail
  {
    DecodeEncode(f.signed, f.len, f.v);
    CodePrefix(f.len, Complement(f.v, Patterns(f.len)));
    var code := Encode(f.signed, f.len, f.v);
    assert (code + tail)[..|code|] == code;
  }

  lemma DecodeManyCons(sign: bool, signs: seq<bool>, s: seq<byte>)
    ensures DecodeFirst(sign, s).Value? ==>
      var d := DecodeFirst(sign, s);
      var (vs, tail) := DecodeMany(signs, d.rest);
      DecodeMany([sign] + signs, s) == ([AsRead(sign, d.val)] + vs, tail)
  {
    assert ([sign] + signs)[1..] == signs;
  }

  /** Concatenated codes decode to the encoded values, in order, and nothing more is consumed. */
  lemma {:induction false} SuccessiveDecodes(fields: seq<Field>, tail: seq<byte>)
    requires FieldsFit(fields)
    ensures DecodeMany(Signs(fields), EncodeAll(fields) + tail) == (Values(fields), tail)
  {
    if fields == [] {
      assert EncodeAll(fields) + tail == tail;
    } else {
      var f, more := fields[0], fields[1..];
      DecodeFirstOfCode(f, EncodeAll(more) + tail);
      assert EncodeAll(fields) + tail == Encode(f.signed, f.len, f.v) + (EncodeAll(more) + tail);
      SuccessiveDecodes(more, tail);
      DecodeManyCons(f.signed, Signs(more), EncodeAll(fields) + tail);
    }
  }
}
