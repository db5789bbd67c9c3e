// RecordByteBuffer: the view of one record that the channel readers read
// from. Every read is at buffer.position() + pos; little-endian reads switch
// the buffer to little-endian order first, big-endian reads to big-endian.
// The buffer's limit is its capacity, so its bytes are the whole record.
// float and double reads are kept as their bit patterns.

module RecordBuffers {
  import opened JavaTypes
  import opened Results

  datatype ByteOrder = BigEndianOrder | LittleEndianOrder

  /** What a read depends on: the buffer's bytes, its position and the record index. */
  datatype RecordView = RecordView(bytes: seq<byte>, position: int, recordIndex: int64)

  predicate ViewValid(v: RecordView) {
    0 <= v.position <= |v.bytes| <= INT_MAX
  }

  /** The absolute index of a read: the int sum buffer.position() + pos. */
  function IndexOf(v: RecordView, pos: int32): int32 {
    Wrap32(v.position + pos)
  }

  /**
   * getShort/getInt/getLong at the absolute index: the n bytes there in the
   * given order, as a signed number; an index outside the buffer throws.
   */
  function NumberAt(v: RecordView, pos: int32, n: nat, order: ByteOrder): (r: Result<int>)
    requires n >= 1
    ensures r.Ok? <==> 0 <= IndexOf(v, pos) && IndexOf(v, pos) + n <= |v.bytes|
    ensures r.Ok? ==> -Pow2(8 * n - 1) <= r.value < Pow2(8 * n - 1)
    ensures r.Err? ==> r.error == IndexOutOfBounds
  {
    var i := IndexOf(v, pos);
    if 0 <= i && i + n <= |v.bytes| then
      var window := v.bytes[i..i + n];
      Ok(WrapBits(if order.LittleEndianOrder? then LittleEndian(window) else BigEndian(window), 8 * n))
    else Err(IndexOutOfBounds)
  }

  /** readU8: the byte at the index, as a Java byte. */
  function ByteAt(v: RecordView, pos: int32): (r: Result<int8>)
    ensures r.Ok? <==> 0 <= IndexOf(v, pos) < |v.bytes|
    ensures r.Ok? ==> r.value == WrapBits(v.bytes[IndexOf(v, pos)], 8)
    ensures r.Err? ==> r.error == IndexOutOfBounds
  {
    Pow2Values();
    match NumberAt(v, pos, 1, LittleEndianOrder)
    case Ok(x) => Ok(x)
    case Err(e) => Err(e)
  }

  function ShortAt(v: RecordView, pos: int32, order: ByteOrder): (r: Result<int16>)
    ensures r.Ok? <==> 0 <= IndexOf(v, pos) && IndexOf(v, pos) + 2 <= |v.bytes|
  {
    Pow2Values();
    match NumberAt(v, pos, 2, order)
    case Ok(x) => Ok(x)
    case Err(e) => Err(e)
  }

  function IntAt(v: RecordView, pos: int32, order: ByteOrder): (r: Result<int32>)
    ensures r.Ok? <==> 0 <= IndexOf(v, pos) && IndexOf(v, pos) + 4 <= |v.bytes|
  {
    Pow2Values();
    match NumberAt(v, pos, 4, order)
    case Ok(x) => Ok(x)
    case Err(e) => Err(e)
  }

  function LongAt(v: RecordView, pos: int32, order: ByteOrder): (r: Result<int64>)
    ensures r.Ok? <==> 0 <= IndexOf(v, pos) && IndexOf(v, pos) + 8 <= |v.bytes|
  {
    Pow2Values();
    match NumberAt(v, pos, 8, order)
    case Ok(x) => Ok(x)
    case Err(e) => Err(e)
  }

  /**
   * readBytes: slice() starts at the position, position(pos) must stay
   * within the slice, and the n bytes from there must all be present.
   */
  function BytesAt(v: RecordView, pos: int32, n: nat): (r: Result<seq<byte>>)
    requires ViewValid(v)
    ensures r.Ok? <==> 0 <= pos && v.position + pos + n <= |v.bytes|
    ensures r.Ok? ==> |r.value| == n && r.value == v.bytes[v.position + pos..v.position + pos + n]
    ensures (pos < 0 || v.position + pos > |v.bytes|) ==> r == Err(IllegalArgument("newPosition out of range"))
  {
    var sliceLength := |v.bytes| - v.position;
    if pos < 0 || pos > sliceLength then Err(IllegalArgument("newPosition out of range"))
    else if n > sliceLength - pos then Err(BufferUnderflow)
    else Ok(v.bytes[v.position + pos..v.position + pos + n])
  }

  // ---------------------------------------------------------------------
  // What the reads return.

  /**
   * The int sum position + pos can only wrap to a negative index, so a read
   * succeeds exactly when the n bytes from position + pos lie in the buffer,
   * and yields their value in the read's byte order.
   */
  lemma {:induction false} NumberAtWindow(v: RecordView, pos: int32, n: nat, order: ByteOrder)
    requires ViewValid(v) && n >= 1
    ensures var i := v.position + pos;
      NumberAt(v, pos, n, order).Ok? <==> 0 <= i && i + n <= |v.bytes|
    ensures var i := v.position + pos;
      NumberAt(v, pos, n, order).Ok? ==>
        NumberAt(v, pos, n, order).value ==
          WrapBits(if order.LittleEndianOrder? then LittleEndian(v.bytes[i..i + n]) else BigEndian(v.bytes[i..i + n]), 8 * n)
  {
    if v.position + pos > INT_MAX {
      WrapAboveIntMax(v.position + pos);
    } else {
      Wrap32Exact(v.position + pos);
    }
  }

  /** An int sum between Integer.MAX_VALUE and 2^32 wraps to a negative int. */
  lemma {:induction false} WrapAboveIntMax(x: int)
    requires INT_MAX < x < 0x1_0000_0000
    ensures Wrap32(x) == x - 0x1_0000_0000
  {
    Pow2Values();
    ModAddMultiple(0, -1, Pow2(32));
    WrapBitsCongruent(x, x - 0x1_0000_0000, 32);
    WrapBitsInRange(x - 0x1_0000_0000, 32);
  }

  /** A big-endian read is the little-endian read of the reversed bytes. */
  lemma {:induction false} BigIsReversedLittle(v: RecordView, pos: int32, n: nat)
    requires n >= 1 && NumberAt(v, pos, n, BigEndianOrder).Ok?
    ensures var i := IndexOf(v, pos);
      NumberAt(v, pos, n, BigEndianOrder).value == WrapBits(LittleEndian(Reverse(v.bytes[i..i + n])), 8 * n)
  {
    var i := IndexOf(v, pos);
    BigEndianIsReversed(v.bytes[i..i + n]);
  }

  /** The n little-endian bytes of x at the index read back as x. */
  lemma {:induction false} LittleEndianReadsBack(v: RecordView, pos: int32, n: nat, x: int)
    requires n >= 1 && -Pow2(8 * n - 1) <= x < Pow2(8 * n - 1)
    requires var i := IndexOf(v, pos); 0 <= i && i + n <= |v.bytes| && v.bytes[i..i + n] == LeBytes(x, n)
    ensures NumberAt(v, pos, n, LittleEndianOrder) == Ok(x)
  {
    LeRoundTrip(x, n);
  }

  /** Bytes whose reversal is the little-endian bytes of x read back as x in big-endian order. */
  lemma {:induction false} BigEndianReadsBack(v: RecordView, pos: int32, n: nat, x: int)
    requires n >= 1 && -Pow2(8 * n - 1) <= x < Pow2(8 * n - 1)
    requires var i := IndexOf(v, pos); 0 <= i && i + n <= |v.bytes| && Reverse(v.bytes[i..i + n]) == LeBytes(x, n)
    ensures NumberAt(v, pos, n, BigEndianOrder) == Ok(x)
  {
    BigIsReversedLittle(v, pos, n);
    LeRoundTrip(x, n);
  }

  // ---------------------------------------------------------------------
  // The object.

  class RecordByteBuffer {
    var bytes: seq<byte>
    var position: int
    var order: ByteOrder
    var recordIndex: int64

    ghost predicate Valid()
      reads this
    {
      ViewValid(View())
    }

    function View(): RecordView
      reads this
    {
      RecordView(bytes, position, recordIndex)
    }

    /** new RecordByteBuffer(buffer, recordIndex) over a freshly allocated, cleared buffer. */
    constructor(content: seq<byte>, recordIndex: int64)
      requires |content| <= INT_MAX
      ensures Valid() && bytes == content && position == 0
      ensures order == BigEndianOrder && this.recordIndex == recordIndex
    {
      bytes := content;
      position := 0;
      order := BigEndianOrder;
      this.recordIndex := recordIndex;
    }

    /** incRecordIndex: one more on the long record index; nothing else changes. */
    method IncRecordIndex()
      modifies this
      ensures recordIndex == Wrap64(old(recordIndex) + 1)
      ensures bytes == old(bytes) && position == old(position) && order == old(order)
    {
      recordIndex := Wrap64(recordIndex + 1);
    }

    /** getRecordIndex: the index of the current record, which incRecordIndex raises by one. */
    function GetRecordIndex(): (n: int64)
      reads this
      ensures n == View().recordIndex
    {
      recordIndex
    }

    /** readU8 reads an absolute index and leaves the order alone. */
    function ReadU8(pos: int32): (r: Result<int8>)
      reads this
      ensures r.Ok? <==> 0 <= Wrap32(position + pos) < |bytes|
      ensures r.Ok? ==> r.value == WrapBits(bytes[Wrap32(position + pos)], 8)
      ensures r.Err? ==> r.error == IndexOutOfBounds
    {
      ByteAt(View(), pos)
    }

    method ReadI16Le(pos: int32) returns (r: Result<int16>)
      modifies this
      ensures r == ShortAt(old(View()), pos, LittleEndianOrder)
      ensures order == LittleEndianOrder && View() == old(View())
    {
      order := LittleEndianOrder;
      r := ShortAt(View(), pos, order);
    }

    method ReadI32Le(pos: int32) returns (r: Result<int32>)
      modifies this
      ensures r == IntAt(old(View()), pos, LittleEndianOrder)
      ensures order == LittleEndianOrder && View() == old(View())
    {
      order := LittleEndianOrder;
      r := IntAt(View(), pos, order);
    }

    method ReadI64Le(pos: int32) returns (r: Result<int64>)
      modifies this
      ensures r == LongAt(old(View()), pos, LittleEndianOrder)
      ensures order == LittleEndianOrder && View() == old(View())
    {
      order := LittleEndianOrder;
      r := LongAt(View(), pos, order);
    }

    /** readF32Le: the bit pattern of the float. */
    method ReadF32Le(pos: int32) returns (r: Result<int32>)
      modifies this
      ensures r == IntAt(old(View()), pos, LittleEndianOrder)
      ensures order == LittleEndianOrder && View() == old(View())
    {
      order := LittleEndianOrder;
      r := IntAt(View(), pos, order);
    }

    /** readF64Le: the bit pattern of the double. */
    method ReadF64Le(pos: int32) returns (r: Result<int64>)
      modifies this
      ensures r == LongAt(old(View()), pos, LittleEndianOrder)
      ensures order == LittleEndianOrder && View() == old(View())
    {
      order := LittleEndianOrder;
      r := LongAt(View(), pos, order);
    }

    method ReadI16Be(pos: int32) returns (r: Result<int16>)
      modifies this
      ensures r == ShortAt(old(View()), pos, BigEndianOrder)
      ensures order == BigEndianOrder && View() == old(View())
    {
      order := BigEndianOrder;
      r := ShortAt(View(), pos, order);
    }

    method ReadI32Be(pos: int32) returns (r: Result<int32>)
      modifies this
      ensures r == IntAt(old(View()), pos, BigEndianOrder)
      ensures order == BigEndianOrder && View() == old(View())
    {
      order := BigEndianOrder;
      r := IntAt(View(), pos, order);
    }

    method ReadI64Be(pos: int32) returns (r: Result<int64>)
      modifies this
      ensures r == LongAt(old(View()), pos, BigEndianOrder)
      ensures order == BigEndianOrder && View() == old(View())
    {
      order := BigEndianOrder;
      r := LongAt(View(), pos, order);
    }

    method ReadF32Be(pos: int32) returns (r: Result<int32>)
      modifies this
      ensures r == IntAt(old(View()), pos, BigEndianOrder)
      ensures order == BigEndianOrder && View() == old(View())
    {
      order := BigEndianOrder;
      r := IntAt(View(), pos, order);
    }

    method ReadF64Be(pos: int32) returns (r: Result<int64>)
      modifies this
      ensures r == LongAt(old(View()), pos, BigEndianOrder)
      ensures order == BigEndianOrder && View() == old(View())
    {
      order := BigEndianOrder;
      r := LongAt(View(), pos, order);
    }

    /**
     * readBytes(pos, dest): fills dest with the dest.Length bytes at
     * position + pos, as Java bytes; on failure dest is left as it was.
     */
    method ReadBytes(pos: int32, dest: array<int8>) returns (r: Result<()>)
      requires Valid()
      modifies dest
      ensures r.Ok? <==> BytesAt(View(), pos, dest.Length).Ok?
      ensures r.Err? ==> r.error == BytesAt(View(), pos, dest.Length).error && dest[..] == old(dest[..])
      ensures r.Ok? ==> forall k :: 0 <= k < dest.Length ==> dest[k] == Wrap8(BytesAt(View(), pos, dest.Length).value[k])
    {
      var got := BytesAt(View(), pos, dest.Length);
      if got.Err? {
        return Err(got.error);
      }
      for k := 0 to dest.Length
        invariant forall j :: 0 <= j < k ==> dest[j] == Wrap8(got.value[j])
      {
        dest[k] := Wrap8(got.value[k]);
      }
      return Ok(());
    }
  }
}
