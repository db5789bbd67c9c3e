// The byte cursor over an MDF file that the block parsers read from and the
// writer writes to. It stands for ByteInput / ReadWrite over an in-memory
// buffer: numbers are little-endian, reading past the end fails, and a
// position outside the buffer is rejected like ByteBuffer.position does.

module Io {
  import opened JavaTypes
  import opened Results

  /** The n bytes at p, or the failure of reading them. */
  function BytesAt(s: seq<byte>, p: int, n: int): (r: Result<seq<byte>>)
    ensures r.Ok? <==> 0 <= n && 0 <= p && p + n <= |s|
    ensures r.Ok? ==> r.value == s[p..p + n] && |r.value| == n
  {
    if n < 0 then Err(NegativeArraySize)
    else if 0 <= p && p + n <= |s| then Ok(s[p..p + n])
    else Err(EndOfInput)
  }

  /** The signed little-endian number made of n >= 1 bytes. */
  function SignedLe(bs: seq<byte>): (r: int)
    ensures |bs| >= 1 ==> -Pow2(8 * |bs| - 1) <= r < Pow2(8 * |bs| - 1)
  {
    if |bs| == 0 then 0 else WrapBits(LittleEndian(bs), 8 * |bs|)
  }

  /** The signed n-byte number at p. */
  function IntAt(s: seq<byte>, p: int, n: nat): (r: Result<int>)
    requires n >= 1
    ensures r.Ok? <==> 0 <= p && p + n <= |s|
    ensures r.Ok? ==> -Pow2(8 * n - 1) <= r.value < Pow2(8 * n - 1)
  {
    var bs :- BytesAt(s, p, n);
    Ok(SignedLe(bs))
  }

  function I16At(s: seq<byte>, p: int): (r: Result<int16>)
    ensures r.Ok? <==> 0 <= p && p + 2 <= |s|
    ensures r.Ok? ==> r.value == SignedLe(s[p..p + 2])
    ensures r.Err? ==> r.error == EndOfInput
  {
    Pow2Values();
    var v :- IntAt(s, p, 2);
    Ok(v)
  }

  function I32At(s: seq<byte>, p: int): (r: Result<int32>)
    ensures r.Ok? <==> 0 <= p && p + 4 <= |s|
    ensures r.Ok? ==> r.value == SignedLe(s[p..p + 4])
    ensures r.Err? ==> r.error == EndOfInput
  {
    Pow2Values();
    var v :- IntAt(s, p, 4);
    Ok(v)
  }

  function I64At(s: seq<byte>, p: int): (r: Result<int64>)
    ensures r.Ok? <==> 0 <= p && p + 8 <= |s|
    ensures r.Ok? ==> r.value == SignedLe(s[p..p + 8])
    ensures r.Err? ==> r.error == EndOfInput
  {
    Pow2Values();
    var v :- IntAt(s, p, 8);
    Ok(v)
  }

  /** The byte at p, as readU8 returns it: a Java byte. */
  function U8At(s: seq<byte>, p: int): (r: Result<int8>)
    ensures r.Ok? <==> 0 <= p < |s|
    ensures r.Ok? ==> r.value == WrapBits(s[p], 8)
    ensures r.Err? ==> r.error == EndOfInput
  {
    Pow2Values();
    if 0 <= p < |s| then Ok(Wrap8(s[p])) else Err(EndOfInput)
  }

  /** s with data written at p, growing s when data runs past its end. */
  function Overwrite(s: seq<byte>, p: nat, data: seq<byte>): (r: seq<byte>)
    requires p <= |s|
    ensures |r| == if p + |data| > |s| then p + |data| else |s|
    ensures r[..p] == s[..p]
    ensures r[p..p + |data|] == data
    ensures forall i :: p + |data| <= i < |s| ==> r[i] == s[i]
  {
    s[..p] + data + if p + |data| < |s| then s[p + |data|..] else []
  }

  /** Whether ByteBuffer.position(Math.toIntExact(p)) accepts p for a buffer of the given size. */
  function SeekCheck(p: int, size: nat): (r: Result<()>)
    ensures r.Ok? <==> 0 <= p <= size && p <= INT_MAX
  {
    if p < -0x8000_0000 || p > INT_MAX then Err(Arithmetic("integer overflow"))
    else if p < 0 || p > size then Err(IllegalArgument("position out of range"))
    else Ok(())
  }

  /** n zero bytes, as writePadding(n) emits. */
  function Zeros(n: nat): (r: seq<byte>)
    ensures |r| == n && forall i :: 0 <= i < n ==> r[i] == 0
  {
    seq(n, _ => 0)
  }

  /** String.getBytes(ISO_8859_1): chars above 0xFF become '?'. */
  function Latin1Encode(s: string): (r: seq<byte>)
    ensures |r| == |s|
    ensures forall i :: 0 <= i < |s| ==> r[i] == if (s[i] as int) < 0x100 then s[i] as int else 0x3F
  {
    seq(|s|, i requires 0 <= i < |s| => if (s[i] as int) < 0x100 then s[i] as int else 0x3F)
  }

  /** new String(bytes, ISO_8859_1): each byte is the char of the same value. */
  function Latin1Decode(bs: seq<byte>): (r: string)
    ensures |r| == |bs|
    ensures forall i :: 0 <= i < |bs| ==> r[i] as int == bs[i]
  {
    seq(|bs|, i requires 0 <= i < |bs| => bs[i] as char)
  }

  /** Latin-1 text survives encoding and decoding. */
  lemma {:induction false} Latin1RoundTrip(s: string)
    requires forall i :: 0 <= i < |s| ==> (s[i] as int) < 0x100
    ensures Latin1Decode(Latin1Encode(s)) == s
  {
    var d := Latin1Decode(Latin1Encode(s));
    assert forall i :: 0 <= i < |s| ==> d[i] == s[i];
  }

  /** The two parts of a slice that holds a + b. */
  lemma {:induction false} SplitSlice(t: seq<byte>, p: int, a: seq<byte>, b: seq<byte>)
    requires 0 <= p && p + |a| + |b| <= |t|
    requires t[p..p + |a| + |b|] == a + b
    ensures t[p..p + |a|] == a
    ensures t[p + |a|..p + |a| + |b|] == b
  {
    assert t[p..p + |a|] == t[p..p + |a| + |b|][..|a|];
    assert t[p + |a|..p + |a| + |b|] == t[p..p + |a| + |b|][|a|..];
  }

  /** A four-byte slice is the list of its four bytes. */
  lemma {:induction false} FourBytes(s: seq<byte>, p: int)
    requires 0 <= p && p + 4 <= |s|
    ensures s[p..p + 4] == [s[p], s[p + 1], s[p + 2], s[p + 3]]
  {
    var u := s[p..p + 4];
    assert u[0] == s[p] && u[1] == s[p + 1] && u[2] == s[p + 2] && u[3] == s[p + 3];
  }

  /** The bytes u found at q: any part u[a..b] of them is found at q + a. */
  lemma {:induction false} SubSlice(t: seq<byte>, q: int, u: seq<byte>, a: int, b: int)
    requires 0 <= q && q + |u| <= |t| && t[q..q + |u|] == u
    requires 0 <= a <= b <= |u|
    ensures t[q + a..q + b] == u[a..b]
  {
    forall k | a <= k < b
      ensures t[q + k] == u[k]
    {
      assert t[q..q + |u|][k] == t[q + k];
    }
    assert |t[q + a..q + b]| == |u[a..b]|;
    forall j | 0 <= j < b - a
      ensures t[q + a..q + b][j] == u[a..b][j]
    {
      assert t[q + a + j] == u[a + j];
    }
  }

  /** SubSlice with the lengths and the bounds in t given by the caller: m = |u|, o = q + a, e = q + b. */
  lemma {:induction false} SubSliceAt(t: seq<byte>, q: int, u: seq<byte>, m: int, a: int, b: int, o: int, e: int)
    requires m == |u| && 0 <= q && q + m <= |t| && t[q..q + m] == u
    requires 0 <= a <= b <= m && o == q + a && e == q + b
    ensures t[o..e] == u[a..b]
  {
    SubSlice(t, q, u, a, b);
  }

  /** Writing a and then b right after it is writing a + b. */
  lemma {:induction false} OverwriteTwice(s: seq<byte>, p: nat, a: seq<byte>, b: seq<byte>)
    requires p <= |s|
    ensures Overwrite(Overwrite(s, p, a), p + |a|, b) == Overwrite(s, p, a + b)
  {
    var l := Overwrite(Overwrite(s, p, a), p + |a|, b);
    var r := Overwrite(s, p, a + b);
    assert |l| == |r|;
    forall i | 0 <= i < |l|
      ensures l[i] == r[i]
    {
      if i < p {
        assert l[i] == l[..p + |a|][i];
      } else if i < p + |a| {
        assert l[i] == l[..p + |a|][i];
        assert r[i] == r[p..p + |a + b|][i - p];
      } else if i < p + |a| + |b| {
        assert l[i] == l[p + |a|..p + |a| + |b|][i - p - |a|];
        assert r[i] == r[p..p + |a + b|][i - p];
      }
    }
  }

  /** Bytes u = a + b found at p: a is found at p, m being its length. */
  lemma {:induction false} SplitFirst(t: seq<byte>, p: int, u: seq<byte>, a: seq<byte>, b: seq<byte>, m: int, k: int)
    requires u == a + b && m == |a| && k == |u|
    requires 0 <= p && p + k <= |t| && t[p..p + k] == u
    ensures t[p..p + m] == a
  {
    SplitSlice(t, p, a, b);
  }

  /** Bytes u = a + b found at p, k bytes in all: b is found from o = p + |a| to e = p + k. */
  lemma {:induction false} SplitSecond(t: seq<byte>, p: int, u: seq<byte>, a: seq<byte>, b: seq<byte>, k: int, o: int, e: int)
    requires u == a + b && k == |u| && o == p + |a| && e == p + k
    requires 0 <= p && p + k <= |t| && t[p..p + k] == u
    ensures t[o..e] == b
  {
    SplitSlice(t, p, a, b);
  }

  /** Writing nothing changes nothing. */
  lemma {:induction false} OverwriteNothing(s: seq<byte>, p: nat)
    requires p <= |s|
    ensures Overwrite(s, p, []) == s
  {
    assert s[..p] + s[p..] == s;
  }

  /** Writing data at p leaves the bytes from p + |data| on as they were. */
  lemma {:induction false} OverwriteBeyond(s: seq<byte>, p: nat, data: seq<byte>, a: int, b: int)
    requires p <= |s| && p + |data| <= a <= b <= |s|
    ensures Overwrite(s, p, data)[a..b] == s[a..b]
  {
    var r := Overwrite(s, p, data);
    assert forall i :: 0 <= i < b - a ==> r[a..b][i] == r[a + i];
  }

  /** Reading back n little-endian bytes of a Java value gives the value. */
  lemma {:induction false} IntAtOfLeBytes(t: seq<byte>, p: int, x: int, n: nat)
    requires n >= 1 && 0 <= p && p + n <= |t|
    requires -Pow2(8 * n - 1) <= x < Pow2(8 * n - 1)
    requires t[p..p + n] == LeBytes(x, n)
    ensures IntAt(t, p, n) == Ok(x)
  {
    LeRoundTrip(x, n);
  }

  /** Two little-endian bytes of a short read back as the short. */
  lemma {:induction false} I16AtOfLeBytes(t: seq<byte>, p: int, x: int16)
    requires 0 <= p && p + 2 <= |t| && t[p..p + 2] == LeBytes(x, 2)
    ensures I16At(t, p) == Ok(x)
  {
    Pow2Values();
    IntAtOfLeBytes(t, p, x, 2);
  }

  /** Four little-endian bytes of an int read back as the int. */
  lemma {:induction false} I32AtOfLeBytes(t: seq<byte>, p: int, x: int32)
    requires 0 <= p && p + 4 <= |t| && t[p..p + 4] == LeBytes(x, 4)
    ensures I32At(t, p) == Ok(x)
  {
    Pow2Values();
    IntAtOfLeBytes(t, p, x, 4);
  }

  /** Eight little-endian bytes of a long read back as the long. */
  lemma {:induction false} I64AtOfLeBytes(t: seq<byte>, p: int, x: int64)
    requires 0 <= p && p + 8 <= |t| && t[p..p + 8] == LeBytes(x, 8)
    ensures I64At(t, p) == Ok(x)
  {
    Pow2Values();
    IntAtOfLeBytes(t, p, x, 8);
  }

  /** The signed value of the eight little-endian bytes of a long is the long. */
  lemma {:induction false} SignedLeOfLong(x: int64)
    ensures SignedLe(LeBytes(x, 8)) == x
  {
    Pow2Values();
    LeRoundTrip(x, 8);
  }

  /** A short at offset a of the bytes u found at p is read at o = p + a. */
  lemma {:induction false} I16InPiece(t: seq<byte>, p: int, u: seq<byte>, m: int, a: int, o: int, x: int16)
    requires m == |u| && 0 <= p && p + m <= |t| && t[p..p + m] == u
    requires 0 <= a && a + 2 <= m && u[a..a + 2] == LeBytes(x, 2) && o == p + a
    ensures I16At(t, o) == Ok(x)
  {
    SubSliceAt(t, p, u, m, a, a + 2, o, o + 2);
    I16AtOfLeBytes(t, o, x);
  }

  /** An int at offset a of the bytes u found at p is read at o = p + a. */
  lemma {:induction false} I32InPiece(t: seq<byte>, p: int, u: seq<byte>, m: int, a: int, o: int, x: int32)
    requires m == |u| && 0 <= p && p + m <= |t| && t[p..p + m] == u
    requires 0 <= a && a + 4 <= m && u[a..a + 4] == LeBytes(x, 4) && o == p + a
    ensures I32At(t, o) == Ok(x)
  {
    SubSliceAt(t, p, u, m, a, a + 4, o, o + 4);
    I32AtOfLeBytes(t, o, x);
  }

  /** A long at offset a of the bytes u found at p is read at o = p + a. */
  lemma {:induction false} I64InPiece(t: seq<byte>, p: int, u: seq<byte>, m: int, a: int, o: int, x: int64)
    requires m == |u| && 0 <= p && p + m <= |t| && t[p..p + m] == u
    requires 0 <= a && a + 8 <= m && u[a..a + 8] == LeBytes(x, 8) && o == p + a
    ensures I64At(t, o) == Ok(x)
  {
    SubSliceAt(t, p, u, m, a, a + 8, o, o + 8);
    I64AtOfLeBytes(t, o, x);
  }

  class ByteInput {
    var bytes: seq<byte>
    var pos: int

    /** A ByteBuffer holds at most Integer.MAX_VALUE bytes. */
    ghost predicate Valid()
      reads this
    {
      0 <= pos <= |bytes| <= INT_MAX
    }

    constructor(content: seq<byte>)
      requires |content| <= INT_MAX
      ensures Valid()
      ensures bytes == content && pos == 0
    {
      bytes := content;
      pos := 0;
    }

    method ReadInt(n: nat) returns (r: Result<int>)
      requires Valid() && n >= 1
      modifies this
      ensures Valid() && bytes == old(bytes)
      ensures r == IntAt(old(bytes), old(pos), n)
      ensures pos == if r.Ok? then old(pos) + n else old(pos)
    {
      r := IntAt(bytes, pos, n);
      if r.Ok? {
        pos := pos + n;
      }
    }

    /** readU8: the byte at the position, as a Java byte. */
    method ReadU8() returns (r: Result<int8>)
      requires Valid()
      modifies this
      ensures Valid() && bytes == old(bytes)
      ensures r.Ok? <==> old(pos) + 1 <= |bytes|
      ensures r.Ok? ==> r.value == WrapBits(bytes[old(pos)], 8) && pos == old(pos) + 1
      ensures r.Err? ==> r.error == EndOfInput && pos == old(pos)
      ensures r == U8At(old(bytes), old(pos))
    {
      var v := ReadInt(1);
      Pow2Values();
      if v.Err? {
        return Err(v.error);
      }
      assert old(bytes)[old(pos)..old(pos) + 1] == [bytes[old(pos)]];
      assert LittleEndian([bytes[old(pos)]]) == bytes[old(pos)] by {
        assert [bytes[old(pos)]][1..] == [];
      }
      return Ok(v.value);
    }

    method ReadI16() returns (r: Result<int16>)
      requires Valid()
      modifies this
      ensures Valid() && bytes == old(bytes)
      ensures r == I16At(old(bytes), old(pos))
      ensures pos == if r.Ok? then old(pos) + 2 else old(pos)
    {
      var v := ReadInt(2);
      Pow2Values();
      if v.Err? {
        return Err(v.error);
      }
      return Ok(v.value);
    }

    method ReadI32() returns (r: Result<int32>)
      requires Valid()
      modifies this
      ensures Valid() && bytes == old(bytes)
      ensures r == I32At(old(bytes), old(pos))
      ensures pos == if r.Ok? then old(pos) + 4 else old(pos)
    {
      var v := ReadInt(4);
      Pow2Values();
      if v.Err? {
        return Err(v.error);
      }
      return Ok(v.value);
    }

    method ReadI64() returns (r: Result<int64>)
      requires Valid()
      modifies this
      ensures Valid() && bytes == old(bytes)
      ensures r == I64At(old(bytes), old(pos))
      ensures pos == if r.Ok? then old(pos) + 8 else old(pos)
    {
      var v := ReadInt(8);
      Pow2Values();
      if v.Err? {
        return Err(v.error);
      }
      return Ok(v.value);
    }

    /** readBytes(n), and readString(n, charset) before decoding. */
    method ReadBytes(n: int) returns (r: Result<seq<byte>>)
      requires Valid()
      modifies this
      ensures Valid() && bytes == old(bytes)
      ensures r == BytesAt(old(bytes), old(pos), n)
      ensures pos == if r.Ok? then old(pos) + n else old(pos)
    {
      r := BytesAt(bytes, pos, n);
      if r.Ok? {
        pos := pos + n;
      }
    }

    /** seek(p): p must be an int (Math.toIntExact) inside the buffer. */
    method Seek(p: int) returns (r: Result<()>)
      requires Valid()
      modifies this
      ensures Valid() && bytes == old(bytes)
      ensures r == SeekCheck(p, |bytes|)
      ensures pos == if r.Ok? then p else old(pos)
    {
      r := SeekCheck(p, |bytes|);
      if r.Ok? {
        pos := p;
      }
    }

    /** skip(n) moves the position by n. */
    method Skip(n: int) returns (r: Result<()>)
      requires Valid()
      modifies this
      ensures Valid() && bytes == old(bytes)
      ensures r == SeekCheck(old(pos) + n, |bytes|)
      ensures pos == if r.Ok? then old(pos) + n else old(pos)
    {
      r := Seek(pos + n);
    }

    /** write(...) of ReadWrite: the bytes go at the position, which moves past them. */
    method Write(data: seq<byte>)
      requires Valid() && pos + |data| <= INT_MAX
      modifies this
      ensures Valid()
      ensures bytes == Overwrite(old(bytes), old(pos), data)
      ensures pos == old(pos) + |data|
    {
      bytes := Overwrite(bytes, pos, data);
      pos := pos + |data|;
    }

    /** write(short), write(int), write(long): the value's n bytes, little-endian. */
    method WriteLe(x: int, n: nat)
      requires Valid() && pos + n <= INT_MAX
      modifies this
      ensures Valid()
      ensures bytes == Overwrite(old(bytes), old(pos), LeBytes(x, n))
      ensures pos == old(pos) + n
    {
      Write(LeBytes(x, n));
    }

    method WritePadding(n: nat)
      requires Valid() && pos + n <= INT_MAX
      modifies this
      ensures Valid()
      ensures bytes == Overwrite(old(bytes), old(pos), Zeros(n))
      ensures pos == old(pos) + n
    {
      Write(Zeros(n));
    }

    /**
     * The next write after w was written from p0 on over b0: what is written
     * so far grows by data.
     */
    method WriteNext(data: seq<byte>, ghost b0: seq<byte>, ghost p0: nat, ghost w: seq<byte>)
      requires Valid() && pos + |data| <= INT_MAX
      requires p0 <= |b0| && bytes == Overwrite(b0, p0, w) && pos == p0 + |w|
      modifies this
      ensures Valid()
      ensures bytes == Overwrite(b0, p0, w + data) && pos == p0 + |w + data|
    {
      Write(data);
      OverwriteTwice(b0, p0, w, data);
    }

    /** write(short), write(int) or write(long) after w. */
    method WriteLeNext(x: int, n: nat, ghost b0: seq<byte>, ghost p0: nat, ghost w: seq<byte>)
      requires Valid() && pos + n <= INT_MAX
      requires p0 <= |b0| && bytes == Overwrite(b0, p0, w) && pos == p0 + |w|
      modifies this
      ensures Valid()
      ensures bytes == Overwrite(b0, p0, w + LeBytes(x, n)) && pos == p0 + |w + LeBytes(x, n)|
    {
      WriteNext(LeBytes(x, n), b0, p0, w);
    }

    /** writePadding(n) after w. */
    method WritePaddingNext(n: nat, ghost b0: seq<byte>, ghost p0: nat, ghost w: seq<byte>)
      requires Valid() && pos + n <= INT_MAX
      requires p0 <= |b0| && bytes == Overwrite(b0, p0, w) && pos == p0 + |w|
      modifies this
      ensures Valid()
      ensures bytes == Overwrite(b0, p0, w + Zeros(n)) && pos == p0 + |w + Zeros(n)|
    {
      WriteNext(Zeros(n), b0, p0, w);
    }
  }
}
