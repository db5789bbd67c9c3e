// The start offsets of the data blocks of a data list: either equal-length
// blocks (a block count and one length) or an explicit array of offsets.
// get, last, size and indexOfPosition locate a byte of the concatenated
// data in one of its blocks.

module Offsets {
  import opened JavaTypes
  import opened Results
  import opened Text

  /** A Java long[]: at most Integer.MAX_VALUE entries. */
  type LongArray = s: seq<int64> | |s| <= INT_MAX

  datatype Offsets =
    | EqualLength(number: int32, length: int64)
    | Values(offsets: LongArray)

  /** What the Values constructor guarantees: the first offset, if any, is 0. */
  predicate WellFormed(o: Offsets) {
    o.Values? ==> |o.offsets| == 0 || o.offsets[0] == 0
  }

  /** new EqualLength(number, length): the count must fit an int. */
  function NewEqualLength(number: int64, length: int64): (r: Result<Offsets>)
    ensures r.Ok? <==> -0x8000_0000 <= number <= INT_MAX
    ensures r.Ok? ==> r.value == EqualLength(number, length)
    ensures r.Err? ==> r.error == NotImplemented("Too many DT blocks: " + IntToString(number))
  {
    Wrap32Exact(number);
    if Wrap32(number) != number then
      Err(NotImplemented("Too many DT blocks: " + IntToString(number)))
    else
      Ok(EqualLength(number, length))
  }

  /** new Values(offsets): a non-empty array must start at offset 0. */
  function NewValues(offsets: LongArray): (r: Result<Offsets>)
    ensures r.Ok? <==> |offsets| == 0 || offsets[0] == 0
    ensures r.Ok? ==> r.value == Values(offsets) && WellFormed(r.value)
    ensures r.Err? ==> r.error == FormatError("First offset must be 0")
  {
    if |offsets| > 0 && offsets[0] != 0 then Err(FormatError("First offset must be 0"))
    else Ok(Values(offsets))
  }

  function Size(o: Offsets): (r: int64)
    ensures o.EqualLength? ==> r == o.number
    ensures o.Values? ==> r == |o.offsets| && 0 <= r <= INT_MAX
  {
    match o
    case EqualLength(number, _) => number
    case Values(offsets) => |offsets|
  }

  /** The offset of the last block; (number - 1) * length is a long product. */
  function Last(o: Offsets): (r: int64)
  {
    match o
    case EqualLength(number, length) => if number > 0 then Wrap64((number - 1) * length) else 0
    case Values(offsets) => if |offsets| > 0 then offsets[|offsets| - 1] else 0
  }

  /** get(index): the start offset of block index; index * length is a long product. */
  function Get(o: Offsets, index: int32): (r: Result<int64>)
    ensures r.Ok? <==> 0 <= index < Size(o)
    ensures index < 0 ==> r == Err(IllegalArgument(""))
    ensures 0 <= index && Size(o) <= index ==> r == Err(IndexOutOfBounds)
    ensures r.Ok? && o.Values? ==> r.value == o.offsets[index]
    ensures r.Ok? && o.EqualLength? ==> r.value == Wrap64(index * o.length)
  {
    if index < 0 then Err(IllegalArgument(""))
    else if index >= Size(o) then Err(IndexOutOfBounds)
    else
      match o
      case EqualLength(_, length) => Ok(Wrap64(index * length))
      case Values(offsets) => Ok(offsets[index])
  }

  /** Java's long division, which truncates toward zero. */
  function TruncDiv(x: int, d: int): (q: int)
    requires d != 0
  {
    if (x >= 0) == (d > 0) then Abs(x) / Abs(d) else -(Abs(x) / Abs(d))
  }

  function Abs(x: int): nat {
    if x < 0 then -x else x
  }

  /** Truncating division of a non-negative number by a positive one is floor division. */
  lemma {:induction false} TruncDivOfNonnegative(x: int, d: int)
    requires x >= 0 && d > 0
    ensures TruncDiv(x, d) == x / d
  {
  }

  function Min(a: int, b: int): int {
    if a <= b then a else b
  }

  /** EqualLength.indexOfPosition: Math.min(Math.toIntExact(position / length), number - 1). */
  function EqualIndexOfPosition(number: int32, length: int64, position: int64): (r: Result<int32>)
  {
    if position < 0 then Err(IllegalArgument(""))
    else if length == 0 then Err(Arithmetic("/ by zero"))
    else
      var q := TruncDiv(position, length);
      if !(-0x8000_0000 <= q <= INT_MAX) then Err(Arithmetic("integer overflow"))
      else Ok(Min(q, Wrap32(number - 1)))
  }

  /** Values.indexOfPosition from block i on: the block before the first offset beyond position. */
  function ScanFrom(offsets: LongArray, position: int64, i: nat): (r: int32)
    requires 1 <= i
    decreases |offsets| - i
  {
    if i >= |offsets| then |offsets| - 1
    else if offsets[i] > position then i - 1
    else ScanFrom(offsets, position, i + 1)
  }

  /** indexOfPosition of either kind of offsets. */
  function IndexOfPositionOf(o: Offsets, position: int64): Result<int32> {
    match o
    case EqualLength(number, length) => EqualIndexOfPosition(number, length, position)
    case Values(offsets) => Ok(ScanFrom(offsets, position, 1))
  }

  /** indexOfPosition, Values scanning its offsets with a loop. */
  method IndexOfPosition(o: Offsets, position: int64) returns (r: Result<int32>)
    ensures r == IndexOfPositionOf(o, position)
  {
    match o
    case EqualLength(number, length) =>
      r := EqualIndexOfPosition(number, length, position);
    case Values(offsets) =>
      var i := 1;
      while i < |offsets|
        invariant 1 <= i <= |offsets| || (i == 1 && |offsets| == 0)
        invariant ScanFrom(offsets, position, i) == ScanFrom(offsets, position, 1)
        decreases |offsets| - i
      {
        if offsets[i] > position {
          return Ok(i - 1);
        }
        i := i + 1;
      }
      return Ok(|offsets| - 1);
  }

  // ---------------------------------------------------------------------
  // What indexOfPosition finds.

  /** The scan from i ends at the block before the first offset above position. */
  lemma {:induction false} ScanFromMeaning(offsets: LongArray, position: int64, i: nat)
    requires 1 <= i <= |offsets| || (i == 1 && |offsets| == 0)
    decreases |offsets| - i
    ensures var r := ScanFrom(offsets, position, i);
      i - 1 <= r < |offsets| || (r == -1 && |offsets| == 0)
    ensures var r := ScanFrom(offsets, position, i);
      forall j :: i <= j <= r ==> offsets[j] <= position
    ensures var r := ScanFrom(offsets, position, i);
      0 <= r + 1 < |offsets| ==> offsets[r + 1] > position
  {
    if i < |offsets| && offsets[i] <= position {
      ScanFromMeaning(offsets, position, i + 1);
    }
  }

  /**
   * Values.indexOfPosition is -1 for no blocks; otherwise every offset from
   * the second to the result is at most position and the next one is beyond it.
   */
  lemma {:induction false} ValuesIndexOfPosition(offsets: LongArray, position: int64)
    ensures var r := ScanFrom(offsets, position, 1);
      (|offsets| == 0 <==> r == -1) && -1 <= r < |offsets|
    ensures var r := ScanFrom(offsets, position, 1);
      (forall j :: 1 <= j <= r ==> offsets[j] <= position) &&
      (0 <= r + 1 < |offsets| ==> offsets[r + 1] > position)
  {
    ScanFromMeaning(offsets, position, 1);
  }

  predicate Sorted(s: seq<int64>) {
    forall i, j :: 0 <= i <= j < |s| ==> s[i] <= s[j]
  }

  /**
   * For sorted offsets starting at 0 and a position at or after it, the
   * result is the last block whose offset is at most position.
   */
  lemma {:induction false} SortedIndexOfPosition(offsets: LongArray, position: int64)
    requires |offsets| >= 1 && offsets[0] == 0 && Sorted(offsets) && position >= 0
    ensures var r := ScanFrom(offsets, position, 1);
      0 <= r < |offsets| && offsets[r] <= position &&
      forall j :: r < j < |offsets| ==> offsets[j] > position
  {
    ValuesIndexOfPosition(offsets, position);
    var r := ScanFrom(offsets, position, 1);
    assert offsets[r] <= position by {
      if r >= 1 {
        assert 1 <= r <= r;
      }
    }
    forall j | r < j < |offsets|
      ensures offsets[j] > position
    {
      assert offsets[r + 1] <= offsets[j];
    }
  }

  /**
   * EqualLength.indexOfPosition is the block of position clamped to the last
   * block: min(position / length, number - 1).
   */
  lemma {:induction false} EqualLengthIndexOfPosition(number: int32, length: int64, position: int64)
    requires position >= 0 && length > 0 && number >= 1
    ensures var r := EqualIndexOfPosition(number, length, position);
      (r.Ok? <==> position / length <= INT_MAX) &&
      (r.Ok? ==> r.value == Min(position / length, number - 1))
  {
    TruncDivOfNonnegative(position, length);
    Pow2Values();
    WrapBitsInRange(number - 1, 32);
    assert 0 <= position / length by {
      FloorDivBounds(position, length, 0, position + 1);
    }
  }

  /** The block indexOfPosition reports for equal lengths starts at or before position. */
  lemma {:induction false} EqualLengthBlockContains(number: int32, length: int64, position: int64)
    requires position >= 0 && length > 0 && number >= 1
    requires EqualIndexOfPosition(number, length, position).Ok?
    ensures var i := EqualIndexOfPosition(number, length, position).value;
      0 <= i < number &&
      Get(EqualLength(number, length), i) == Ok(i * length) && i * length <= position &&
      (i < number - 1 ==> position < (i + 1) * length)
  {
    EqualLengthIndexOfPosition(number, length, position);
    var i := EqualIndexOfPosition(number, length, position).value;
    var q := position / length;
    FloorDivBracket(position, length);
    assert i <= q;
    assert 0 <= i * length <= position by {
      MulMonotone(i, q, length);
      MulNonneg(i, length);
    }
    Wrap64Exact(i * length);
  }

  /** last() is get(size() - 1) when there is a block, and 0 with size 0 otherwise. */
  lemma {:induction false} LastIsGetOfLastIndex(o: Offsets)
    ensures Size(o) > 0 ==> Get(o, Size(o) - 1) == Ok(Last(o))
    ensures Size(o) == 0 ==> Last(o) == 0
  {
  }
}
