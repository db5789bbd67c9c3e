// The ##DZ block: data stored deflated, optionally after a byte transposition
// that groups byte i of every record together. The transposition reads the
// inflated bytes as n rows of m bytes (the column size n is the zip parameter)
// and writes them out column by column; bytes past the last full row stay put.
// Inflating is not modelled: it is a parameter of the dispatch.

module DataZippedBlocks {
  import opened JavaTypes
  import opened Results
  import opened Text
  import opened BlockTypeIds

  datatype ZipType = DEFLATE | TRANSPOSITION_DEFLATE

  /** ZipType.values(), in declaration order. */
  const ZIP_TYPES: seq<ZipType> := [DEFLATE, TRANSPOSITION_DEFLATE]

  function Ordinal(z: ZipType): nat {
    match z
    case DEFLATE => 0
    case TRANSPOSITION_DEFLATE => 1
  }

  /** ZipType.parse: the constant with that ordinal, or a format error. */
  function ParseZipType(value: int): (r: Result<ZipType>)
    ensures r.Ok? <==> 0 <= value < 2
    ensures r.Ok? ==> Ordinal(r.value) == value
    ensures r.Err? ==> r.error == FormatError("Unknown zip type: " + IntToString(value))
  {
    if 0 <= value < |ZIP_TYPES| then Ok(ZIP_TYPES[value])
    else Err(FormatError("Unknown zip type: " + IntToString(value)))
  }

  /** Every zip type is parsed back from its ordinal. */
  lemma {:induction false} ParseOrdinal(z: ZipType)
    ensures ParseZipType(Ordinal(z)) == Ok(z)
  {
    match z
    case DEFLATE =>
    case TRANSPOSITION_DEFLATE =>
  }

  datatype DataZippedBlock = DataZippedBlock(
    originalBlockTypeId: BlockTypeId,
    zipType: ZipType,
    zipParameter: int64,
    originalDataLength: int64,
    dataPos: int64,
    dataLength: int32)
  {
    /** The channel is as long as the original, uncompressed data. */
    function GetChannelLength(): (r: int64)
      ensures r == originalDataLength
    {
      originalDataLength
    }
  }

  // ---------------------------------------------------------------------
  // The transposition as a function of the bytes.

  /** The byte of the input that lands at p: p is column p / n of row p % n. */
  function Source(p: nat, n: nat, m: nat): (q: nat)
    requires 0 < n && p < n * m
    ensures q < n * m
  {
    SourceBound(p, n, m);
    (p % n) * m + p / n
  }

  lemma {:induction false} QuotientBelow(p: nat, n: nat, m: nat)
    requires 0 < n && p < n * m
    ensures p / n < m && 0 < m
  {
    if p / n >= m {
      MulMonotone(m, p / n, n);
      assert false;
    }
  }

  lemma {:induction false} SourceBound(p: nat, n: nat, m: nat)
    requires 0 < n && p < n * m
    ensures (p % n) * m + p / n < n * m
  {
    QuotientBelow(p, n, m);
    MulMonotone(p % n, n - 1, m);
    assert (n - 1) * m + m == n * m;
  }

  lemma {:induction false} RowAndColumn(p: int, n: int)
    requires n > 0
    ensures p == (p / n) * n + p % n
  {
  }

  /** Row i, column j of the output: offset j * n + i. */
  lemma {:induction false} OutputIndex(i: nat, j: nat, n: nat, m: nat)
    requires i < n && j < m
    ensures j * n + i < n * m
    ensures (j * n + i) % n == i && (j * n + i) / n == j
  {
    DivModUnique(j * n + i, n, j, i);
    MulMonotone(j, m - 1, n);
    assert (m - 1) * n + n == n * m;
  }

  /**
   * The transposed bytes: the first n * m bytes taken as n rows of m are
   * written column by column, the rest are copied.
   */
  function Transposition(s: seq<byte>, n: nat, m: nat): (r: seq<byte>)
    requires 0 < n && n * m <= |s|
    ensures |r| == |s|
    ensures r[n * m..] == s[n * m..]
  {
    seq(|s|, p requires 0 <= p < |s| => if p < n * m then s[Source(p, n, m)] else s[p])
  }

  /** Byte j of row i of the input is byte i of row j of the output. */
  lemma {:induction false} TransposedAt(s: seq<byte>, n: nat, m: nat, i: nat, j: nat)
    requires 0 < n && n * m <= |s| && i < n && j < m
    ensures j * n + i < |s| && i * m + j < |s|
    ensures Transposition(s, n, m)[j * n + i] == s[i * m + j]
  {
    OutputIndex(i, j, n, m);
    assert Source(j * n + i, n, m) == i * m + j;
  }

  /** The position of a byte moved twice, with the roles of n and m swapped, is where it began. */
  lemma {:induction false} SourceInverse(p: nat, n: nat, m: nat)
    requires 0 < n && p < n * m
    ensures 0 < m && Source(p, n, m) < m * n && Source(Source(p, n, m), m, n) == p
  {
    QuotientBelow(p, n, m);
    var q := Source(p, n, m);
    DivModUnique(q, m, p % n, p / n);
  }

  /** Transposing back, with n rows of m swapped for m rows of n, gives the input. */
  lemma {:induction false} TransposedInverse(s: seq<byte>, n: nat, m: nat)
    requires 0 < n && 0 < m && n * m <= |s|
    ensures Transposition(Transposition(s, n, m), m, n) == s
  {
    var t := Transposition(s, n, m);
    var u := Transposition(t, m, n);
    forall p | 0 <= p < |s|
      ensures u[p] == s[p]
    {
      if p < n * m {
        SourceInverse(p, m, n);
        assert u[p] == t[Source(p, m, n)];
      }
    }
  }

  /** With one row or one column nothing moves. */
  lemma {:induction false} TransposedIdentity(s: seq<byte>, n: nat, m: nat)
    requires 0 < n && n * m <= |s| && (n == 1 || m <= 1)
    ensures Transposition(s, n, m) == s
  {
    var t := Transposition(s, n, m);
    forall p | 0 <= p < n * m
      ensures t[p] == s[p]
    {
      if n == 1 {
        assert p % n == 0 && p / n == p;
      } else {
        assert m == 1;
        DivModUnique(p, n, 0, p);
      }
    }
  }

  /** A sequence read off another through an injective index map holds the same elements. */
  lemma {:induction false} ReindexedIsPermutation<T>(a: seq<T>, b: seq<T>, f: int -> int)
    requires |a| == |b|
    requires forall p :: 0 <= p < |b| ==> 0 <= f(p) < |a| && b[p] == a[f(p)]
    requires forall p, q :: 0 <= p < q < |b| ==> f(p) != f(q)
    ensures multiset(a) == multiset(b)
    decreases |b|
  {
    if |b| > 0 {
      var last := |b| - 1;
      var q := f(last);
      var swapped := a[q := a[last]][last := a[q]];
      var g := (p: int) => if f(p) == last then q else f(p);
      assert multiset(swapped[..last]) == multiset(b[..last]) by {
        ReindexRest(a, b, f, g);
        ReindexedIsPermutation(swapped[..last], b[..last], g);
      }
      assert multiset(swapped) == multiset(a) by {
        SwapKeepsElements(a, q, last);
      }
      assert swapped == swapped[..last] + [swapped[last]];
      assert b == b[..last] + [b[last]];
    }
  }

  /** Swapping two elements keeps the multiset. */
  lemma {:induction false} SwapKeepsElements<T>(a: seq<T>, q: nat, last: nat)
    requires q < |a| && last < |a|
    ensures multiset(a[q := a[last]][last := a[q]]) == multiset(a)
  {
    if q != last {
      calc {
        multiset(a[q := a[last]][last := a[q]]);
        multiset(a[q := a[last]]) - multiset{a[last]} + multiset{a[q]};
        multiset(a) - multiset{a[q]} + multiset{a[last]} - multiset{a[last]} + multiset{a[q]};
        multiset(a);
      }
    }
  }

  /** After moving b's last element into place, the rest of b is reindexed by g. */
  lemma {:induction false} ReindexRest<T>(a: seq<T>, b: seq<T>, f: int -> int, g: int -> int)
    requires |a| == |b| > 0
    requires forall p :: 0 <= p < |b| ==> 0 <= f(p) < |a| && b[p] == a[f(p)]
    requires forall p, q :: 0 <= p < q < |b| ==> f(p) != f(q)
    requires forall p :: g(p) == if f(p) == |b| - 1 then f(|b| - 1) else f(p)
    ensures var last, q := |b| - 1, f(|b| - 1);
      var swapped := a[q := a[last]][last := a[q]];
      (forall p :: 0 <= p < last ==> 0 <= g(p) < last && b[..last][p] == swapped[..last][g(p)]) &&
      (forall p, p' :: 0 <= p < p' < last ==> g(p) != g(p'))
  {
    var last, q := |b| - 1, f(|b| - 1);
    var swapped := a[q := a[last]][last := a[q]];
    forall p | 0 <= p < last
      ensures 0 <= g(p) < last && b[..last][p] == swapped[..last][g(p)]
    {
      assert f(p) != q;
    }
    forall p, p' | 0 <= p < p' < last
      ensures g(p) != g(p')
    {
      assert f(p) != f(p') && f(p) != q && f(p') != q;
    }
  }

  /** The transposition only rearranges the bytes. */
  lemma {:induction false} TransposedPermutes(s: seq<byte>, n: nat, m: nat)
    requires 0 < n && n * m <= |s|
    ensures multiset(Transposition(s, n, m)) == multiset(s)
  {
    var t := Transposition(s, n, m);
    var f := (p: int) => if 0 <= p < n * m then Source(p, n, m) else p;
    forall p, q | 0 <= p < q < |t|
      ensures f(p) != f(q)
    {
      if q < n * m {
        SourceInverse(p, n, m);
        SourceInverse(q, n, m);
      }
    }
    ReindexedIsPermutation(s, t, f);
  }

  // ---------------------------------------------------------------------
  // transposed, as written: Math.toIntExact, the division and the two loops.

  /**
   * What transposed yields for the inflated bytes s: an ArithmeticException
   * for a column size outside int or zero; nothing moves for a negative one.
   */
  function TransposedBytes(s: seq<byte>, columnSize: int64): (r: Result<seq<byte>>)
    ensures r.Err? <==> columnSize == 0 || columnSize < -0x8000_0000 || columnSize > INT_MAX
    ensures r.Ok? ==> |r.value| == |s| && multiset(r.value) == multiset(s)
    ensures r.Ok? && columnSize < 0 ==> r.value == s
  {
    if columnSize < -0x8000_0000 || columnSize > INT_MAX then Err(Arithmetic("integer overflow"))
    else if columnSize == 0 then Err(Arithmetic("/ by zero"))
    else if columnSize < 0 then Ok(s)
    else
      var m := |s| / columnSize;
      assert columnSize * m <= |s|;
      TransposedPermutes(s, columnSize, m);
      Ok(Transposition(s, columnSize, m))
  }

  /** transposed: reads all bytes, fills the result column by column, copies the tail. */
  method Transposed(columnSize: int64, bytes: array<byte>) returns (r: Result<array<byte>>)
    ensures r.Err? ==> TransposedBytes(bytes[..], columnSize) == Err(r.error)
    ensures r.Ok? ==> fresh(r.value) && TransposedBytes(bytes[..], columnSize) == Ok(r.value[..])
  {
    if columnSize < -0x8000_0000 || columnSize > INT_MAX {
      return Err(Arithmetic("integer overflow"));
    }
    var n: int32 := columnSize;
    if n == 0 {
      return Err(Arithmetic("/ by zero"));
    }
    var result := new byte[bytes.Length](_ => 0);
    var k := 0;
    if n > 0 {
      // For a negative n the loops do not run and everything is copied.
      var m := bytes.Length / n;
      assert n * m <= bytes.Length;
      k := FillColumns(bytes, result, n, m);
    }
    forall p | k <= p < bytes.Length {
      result[p] := bytes[p];
    }
    r := Ok(result);
    if n > 0 {
      assert result[..] == Transposition(bytes[..], n, bytes.Length / n);
    } else {
      assert result[..] == bytes[..];
    }
  }

  /** The two nested loops: byte k of the input goes to row j, column i. */
  method FillColumns(bytes: array<byte>, result: array<byte>, n: nat, m: nat) returns (k: nat)
    requires bytes != result && result.Length == bytes.Length
    requires 0 < n && n * m <= bytes.Length
    modifies result
    ensures k == n * m
    ensures forall p :: 0 <= p < k ==> result[p] == bytes[Source(p, n, m)]
  {
    k := 0;
    var i := 0;
    while i < n
      invariant 0 <= i <= n && k == i * m
      invariant forall p :: 0 <= p < n * m && p % n < i ==> result[p] == bytes[Source(p, n, m)]
    {
      k := FillColumn(bytes, result, n, m, i, k);
      MulPred(i + 1, m);
      i := i + 1;
    }
  }

  /** The inner loop: the m bytes of row i go to column i of the output. */
  method FillColumn(bytes: array<byte>, result: array<byte>, n: nat, m: nat, i: nat, k0: nat)
    returns (k: nat)
    requires bytes != result && result.Length == bytes.Length
    requires 0 < n && n * m <= bytes.Length && i < n && k0 == i * m
    modifies result
    ensures k == k0 + m
    ensures forall p :: 0 <= p < n * m && p % n == i ==> result[p] == bytes[Source(p, n, m)]
    ensures forall p :: 0 <= p < result.Length && !(p < n * m && p % n == i) ==> result[p] == old(result[p])
  {
    k := k0;
    var j := 0;
    while j < m
      invariant 0 <= j <= m && k == k0 + j
      invariant forall p :: 0 <= p < n * m && p % n == i && p / n < j ==> result[p] == bytes[Source(p, n, m)]
      invariant forall p :: 0 <= p < result.Length && !(p < n * m && p % n == i && p / n < j) ==>
                  result[p] == old(result[p])
    {
      OutputIndex(i, j, n, m);
      assert Source(j * n + i, n, m) == k;
      result[j * n + i] := bytes[k];
      forall p | 0 <= p < result.Length && p % n == i && p / n == j
        ensures p == j * n + i
      {
        RowAndColumn(p, n);
      }
      j := j + 1;
      k := k + 1;
    }
    forall p | 0 <= p < n * m && p % n == i
      ensures p / n < m
    {
      QuotientBelow(p, n, m);
    }
  }

  // ---------------------------------------------------------------------
  // createUncompressedStream.

  /**
   * The uncompressed data of the block: DEFLATE only inflates,
   * TRANSPOSITION_DEFLATE inflates and then transposes with the zip
   * parameter as column size. Either way it is as long as the inflated data.
   */
  method CreateUncompressed(block: DataZippedBlock, compressed: seq<byte>,
                            inflate: seq<byte> -> Result<seq<byte>>)
    returns (r: Result<seq<byte>>)
    ensures block.zipType == DEFLATE ==> r == inflate(compressed)
    ensures block.zipType == TRANSPOSITION_DEFLATE ==>
              r == (match inflate(compressed)
                    case Err(e) => Err(e)
                    case Ok(s) => TransposedBytes(s, block.zipParameter))
    ensures r.Ok? ==> inflate(compressed).Ok? && |r.value| == |inflate(compressed).value|
  {
    match block.zipType
    case DEFLATE =>
      r := inflate(compressed);
    case TRANSPOSITION_DEFLATE =>
      var inflated :- inflate(compressed);
      var bytes := new byte[|inflated|](p requires 0 <= p < |inflated| => inflated[p]);
      assert bytes[..] == inflated;
      var t := Transposed(block.zipParameter, bytes);
      if t.Err? {
        return Err(t.error);
      }
      r := Ok(t.value[..]);
  }
}
