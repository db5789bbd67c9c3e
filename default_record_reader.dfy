// DefaultRecordReader: reads the records of one channel group in turn. Each
// record is fetched from the data source into one reused buffer of dataBytes
// + invalidationBytes bytes, and the channel readers then run over that
// buffer in list order. The counter cycle counts the records begun.

module DefaultRecordReaders {
  import opened JavaTypes
  import opened Results
  import opened Text
  import Io
  import opened RecordBuffers
  import opened RecordReaders

  /**
   * What one dataSource.read(buffer) delivers: bytes placed from the start of
   * the cleared buffer (with the buffer's position left at 0, as the data
   * sources do), the end of the data (-1), or an IOException.
   */
  datatype Fill = Filled(data: seq<byte>) | EndOfData | ReadFailed(error: Exception)

  /** The value read returns: the number of bytes placed, or -1 at the end. */
  function ReadCount(f: Fill): (r: Result<int>)
    ensures r.Err? <==> f.ReadFailed?
    ensures r.Ok? ==> (r.value == -1 <==> f.EndOfData?)
    ensures f.Filled? ==> r == Ok(|f.data|)
  {
    match f
    case Filled(data) => Ok(|data|)
    case EndOfData => Ok(-1)
    case ReadFailed(e) => Err(e)
  }

  /** The buffer after a fill: the delivered bytes first, the rest as before (clear() does not zero). */
  function Refilled(bytes: seq<byte>, f: Fill): (r: seq<byte>)
    requires f.Filled? ==> |f.data| <= |bytes|
    ensures |r| == |bytes|
    ensures f.Filled? ==> r[..|f.data|] == f.data && r[|f.data|..] == bytes[|f.data|..]
    ensures !f.Filled? ==> r == bytes
  {
    if f.Filled? then f.data + bytes[|f.data|..] else bytes
  }

  /** A fill of exactly the capacity replaces the whole buffer. */
  lemma {:induction false} FullFillReplaces(bytes: seq<byte>, data: seq<byte>)
    requires |data| == |bytes|
    ensures Refilled(bytes, Filled(data)) == data
  {
    assert bytes[|data|..] == [];
  }

  function EarlyEndMessage(cycle: int, size: int): string {
    "Early end of data at cycle " + IntToString(cycle) + " of " + IntToString(size)
  }

  // ---------------------------------------------------------------------
  // One record.

  /**
   * The channel readers run in list order over the same record: the values
   * of all of them, or the error of the first that fails.
   */
  function RecordOf(readers: seq<Reader>, v: RecordView): (r: Result<seq<Value>>)
    requires ViewValid(v)
    ensures r.Ok? ==> |r.value| == |readers|
    ensures r.Ok? ==> forall i :: 0 <= i < |readers| ==> Read(readers[i], v) == Ok(r.value[i])
    ensures r.Err? ==> exists i :: 0 <= i < |readers| && Read(readers[i], v) == Err(r.error) &&
                                   forall j :: 0 <= j < i ==> Read(readers[j], v).Ok?
    decreases |readers|
  {
    if readers == [] then Ok([])
    else
      var last := |readers| - 1;
      match RecordOf(readers[..last], v)
      case Err(e) =>
        assert forall i :: 0 <= i < last ==> readers[..last][i] == readers[i];
        Err(e)
      case Ok(front) =>
        assert forall i :: 0 <= i < last ==> readers[..last][i] == readers[i];
        match Read(readers[last], v)
        case Err(e) => Err(e)
        case Ok(x) => Ok(front + [x])
  }

  /** A record fails exactly when some reader fails, and then with the first failure. */
  lemma {:induction false} RecordOfFirstFailure(readers: seq<Reader>, v: RecordView, k: nat)
    requires ViewValid(v) && k < |readers|
    requires forall j :: 0 <= j < k ==> Read(readers[j], v).Ok?
    requires Read(readers[k], v).Err?
    ensures RecordOf(readers, v) == Err(Read(readers[k], v).error)
    decreases |readers|
  {
    var last := |readers| - 1;
    if k < last {
      RecordOfFirstFailure(readers[..last], v, k);
    } else {
      RecordOfAllOk(readers[..last], v);
    }
  }

  /** When every reader succeeds, the record holds their values in order. */
  lemma {:induction false} RecordOfAllOk(readers: seq<Reader>, v: RecordView)
    requires ViewValid(v)
    requires forall j :: 0 <= j < |readers| ==> Read(readers[j], v).Ok?
    ensures RecordOf(readers, v).Ok?
    decreases |readers|
  {
    if readers != [] {
      var last := |readers| - 1;
      assert forall i :: 0 <= i < last ==> readers[..last][i] == readers[i];
      RecordOfAllOk(readers[..last], v);
    }
  }

  /** One more reader that succeeds extends the record by its value. */
  lemma {:induction false} RecordOfSnoc(readers: seq<Reader>, v: RecordView, i: nat, values: seq<Value>)
    requires ViewValid(v) && i < |readers|
    requires RecordOf(readers[..i], v) == Ok(values) && Read(readers[i], v).Ok?
    ensures RecordOf(readers[..i + 1], v) == Ok(values + [Read(readers[i], v).value])
  {
    assert readers[..i + 1][..i] == readers[..i];
  }

  /** A reader that fails after a successful prefix fails the whole record with its error. */
  lemma {:induction false} RecordOfFailsAfter(readers: seq<Reader>, v: RecordView, i: nat, values: seq<Value>)
    requires ViewValid(v) && i < |readers|
    requires RecordOf(readers[..i], v) == Ok(values) && Read(readers[i], v).Err?
    ensures RecordOf(readers, v) == Err(Read(readers[i], v).error)
  {
    assert forall j :: 0 <= j < i ==> readers[..i][j] == readers[j];
    RecordOfFirstFailure(readers, v, i);
  }

  /** The loop over channelReaders: each reads into the record in turn; an exception ends the loop. */
  method ReadRecord(readers: seq<Reader>, v: RecordView) returns (r: Result<seq<Value>>)
    requires ViewValid(v)
    ensures r == RecordOf(readers, v)
  {
    var values: seq<Value> := [];
    var i := 0;
    while i < |readers|
      invariant 0 <= i <= |readers|
      invariant RecordOf(readers[..i], v) == Ok(values)
    {
      var x := Read(readers[i], v);
      if x.Err? {
        RecordOfFailsAfter(readers, v, i, values);
        return Err(x.error);
      }
      RecordOfSnoc(readers, v, i, values);
      values := values + [x.value];
      i := i + 1;
    }
    assert readers[..i] == readers;
    r := Ok(values);
  }

  /**
   * The outcome of prepareRead once it has begun cycle: the read's
   * IOException, a format error when other than capacity bytes arrived, or
   * a full buffer.
   */
  function PrepareOutcome(capacity: nat, cycle: int, size: int, f: Fill): (r: Result<()>)
    ensures r.Ok? <==> f.Filled? && |f.data| == capacity
    ensures f.ReadFailed? ==> r == Err(f.error)
    ensures !f.ReadFailed? && !r.Ok? ==> r == Err(FormatError(EarlyEndMessage(cycle, size)))
  {
    match ReadCount(f)
    case Err(e) => Err(e)
    case Ok(count) =>
      if count != capacity then Err(FormatError(EarlyEndMessage(cycle, size)))
      else Ok(())
  }

  /** The outcome of a next that has begun cycle: the error of prepareRead, or the record. */
  function NextOutcome(readers: seq<Reader>, capacity: nat, cycle: int, size: int, f: Fill, v: RecordView)
    : (r: Result<seq<Value>>)
    requires ViewValid(v)
    ensures PrepareOutcome(capacity, cycle, size, f).Err? ==> r == Err(PrepareOutcome(capacity, cycle, size, f).error)
    ensures PrepareOutcome(capacity, cycle, size, f).Ok? ==> r == RecordOf(readers, v)
  {
    match PrepareOutcome(capacity, cycle, size, f)
    case Err(e) => Err(e)
    case Ok(_) => RecordOf(readers, v)
  }

  /** The end of the data is always an early end, whatever the capacity. */
  lemma {:induction false} EndOfDataIsEarly(capacity: nat, cycle: int, size: int)
    ensures PrepareOutcome(capacity, cycle, size, EndOfData) == Err(FormatError(EarlyEndMessage(cycle, size)))
  {
  }

  /** Every delivery the source makes fits the buffer's remaining space. */
  ghost predicate FitsBuffer(source: seq<Fill>, capacity: nat) {
    forall i :: 0 <= i < |source| && source[i].Filled? ==> |source[i].data| <= capacity
  }

  function Head(source: seq<Fill>): Fill {
    if source == [] then EndOfData else source[0]
  }

  function Tail(source: seq<Fill>): seq<Fill> {
    if source == [] then [] else source[1..]
  }

  /** ByteBuffer.allocate(dataBytes + invalidationBytes), with the int sum; a negative capacity throws. */
  function CapacityOf(dataBytes: int32, invalidationBytes: int32): (r: Result<nat>)
    ensures r.Ok? <==> Wrap32(dataBytes + invalidationBytes) >= 0
    ensures r.Ok? ==> r.value == Wrap32(dataBytes + invalidationBytes) && r.value <= INT_MAX
    ensures 0 <= dataBytes && 0 <= invalidationBytes && dataBytes + invalidationBytes <= INT_MAX ==>
              r == Ok(dataBytes + invalidationBytes)
  {
    Wrap32Exact(dataBytes + invalidationBytes);
    var c := Wrap32(dataBytes + invalidationBytes);
    if c < 0 then Err(IllegalArgument("capacity < 0")) else Ok(c)
  }

  // ---------------------------------------------------------------------
  // The reader.

  class DefaultRecordReader {
    const readers: seq<Reader>
    /** The cycle count of the channel group block. */
    const cycleCount: int64
    const capacity: nat
    const buffer: RecordByteBuffer
    var cycle: int64
    /** The data source, as the deliveries its successive reads make. */
    var source: seq<Fill>

    ghost predicate Valid()
      reads this, buffer
    {
      buffer.Valid() && buffer.position == 0 && |buffer.bytes| == capacity &&
      0 <= cycle && (cycle <= cycleCount || cycle == 0) &&
      0 <= buffer.recordIndex <= cycle &&
      FitsBuffer(source, capacity)
    }

    /** A reader over a fresh zeroed buffer of the given capacity, before the first record. */
    constructor(readers: seq<Reader>, cycleCount: int64, capacity: nat, source: seq<Fill>)
      requires capacity <= INT_MAX && FitsBuffer(source, capacity)
      ensures Valid() && fresh(buffer)
      ensures this.readers == readers && this.cycleCount == cycleCount && this.capacity == capacity
      ensures this.source == source && cycle == 0
      ensures buffer.bytes == Io.Zeros(capacity) && buffer.recordIndex == 0
    {
      this.readers := readers;
      this.cycleCount := cycleCount;
      this.capacity := capacity;
      buffer := new RecordByteBuffer(Io.Zeros(capacity), 0);
      cycle := 0;
      this.source := source;
    }

    /** size(): the number of records of the group. */
    function Size(): (n: int64)
      reads this
      ensures n == cycleCount
      ensures Valid() ==> cycle <= n || cycle == 0
    {
      cycleCount
    }

    /** remaining(): the records not yet begun. */
    function Remaining(): (n: int64)
      reads this, buffer
      requires Valid()
      ensures n == cycleCount - cycle
      ensures n <= cycleCount
    {
      cycleCount - cycle
    }

    /** hasNext(): a record is left exactly when the count of remaining records is positive. */
    function HasNext(): (b: bool)
      reads this, buffer
      requires Valid()
      ensures b <==> Remaining() > 0
    {
      cycle < cycleCount
    }

    /** dataSource.read(buffer): the next delivery of the source, placed into the buffer. */
    method ReadSource() returns (r: Result<int>)
      requires Valid()
      modifies this, buffer
      ensures Valid()
      ensures r == ReadCount(Head(old(source)))
      ensures r.Ok? ==> r.value <= capacity
      ensures source == Tail(old(source)) && cycle == old(cycle)
      ensures buffer.bytes == Refilled(old(buffer.bytes), Head(old(source)))
      ensures buffer.position == 0 && buffer.recordIndex == old(buffer.recordIndex)
    {
      var f := Head(source);
      source := Tail(source);
      if f.Filled? {
        buffer.bytes := Refilled(buffer.bytes, f);
      }
      r := ReadCount(f);
    }

    /**
     * prepareRead(): past the end a NoSuchElementException with nothing
     * changed; otherwise cycle moves on first, then the buffer is refilled
     * and must come back full.
     */
    method PrepareRead() returns (r: Result<()>)
      requires Valid()
      modifies this, buffer
      ensures Valid() && buffer.recordIndex == old(buffer.recordIndex)
      ensures !old(HasNext()) ==>
                r == Err(NoSuchElement("")) && cycle == old(cycle) && source == old(source) &&
                buffer.bytes == old(buffer.bytes)
      ensures old(HasNext()) ==>
                cycle == old(cycle) + 1 && Remaining() == old(Remaining()) - 1 && source == Tail(old(source)) &&
                buffer.bytes == Refilled(old(buffer.bytes), Head(old(source))) &&
                r == PrepareOutcome(capacity, cycle, cycleCount, Head(old(source)))
    {
      if cycle >= cycleCount {
        return Err(NoSuchElement(""));
      }
      cycle := cycle + 1;
      var count := ReadSource();
      if count.Err? {
        return Err(count.error);
      }
      if count.value != capacity {
        return Err(FormatError(EarlyEndMessage(cycle, cycleCount)));
      }
      return Ok(());
    }

    /** finishRead(): the record index moves on by one; nothing else changes. */
    method FinishRead()
      requires Valid() && buffer.recordIndex < cycle
      modifies buffer
      ensures Valid()
      ensures buffer.recordIndex == old(buffer.recordIndex) + 1
      ensures buffer.bytes == old(buffer.bytes) && buffer.position == old(buffer.position)
    {
      buffer.IncRecordIndex();
      Wrap64Exact(old(buffer.recordIndex) + 1);
    }

    /**
     * next(): prepareRead, the channel readers in order over the refilled
     * buffer, then finishRead; an exception skips what follows it, so only a
     * record whose every channel reads increments the record index.
     */
    method Next() returns (r: Result<seq<Value>>)
      requires Valid()
      modifies this, buffer
      ensures Valid()
      ensures !old(HasNext()) ==>
                r == Err(NoSuchElement("")) && cycle == old(cycle) && source == old(source) &&
                buffer.bytes == old(buffer.bytes) && buffer.recordIndex == old(buffer.recordIndex)
      ensures old(HasNext()) ==>
                cycle == old(cycle) + 1 && Remaining() == old(Remaining()) - 1 && source == Tail(old(source)) &&
                buffer.bytes == Refilled(old(buffer.bytes), Head(old(source))) &&
                r == NextOutcome(readers, capacity, cycle, cycleCount, Head(old(source)),
                                 RecordView(buffer.bytes, 0, old(buffer.recordIndex))) &&
                buffer.recordIndex == old(buffer.recordIndex) + (if r.Ok? then 1 else 0)
    {
      var prepared := PrepareRead();
      if prepared.Err? {
        return Err(prepared.error);
      }
      r := ReadRecord(readers, buffer.View());
      if r.Err? {
        return;
      }
      FinishRead();
    }
  }

  /** The reader over a channel group: the buffer holds the data and invalidation bytes. */
  method Open(readers: seq<Reader>, cycleCount: int64, dataBytes: int32, invalidationBytes: int32,
              source: seq<Fill>) returns (r: Result<DefaultRecordReader>)
    requires CapacityOf(dataBytes, invalidationBytes).Ok? ==>
               FitsBuffer(source, CapacityOf(dataBytes, invalidationBytes).value)
    ensures r.Err? <==> CapacityOf(dataBytes, invalidationBytes).Err?
    ensures r.Ok? ==> fresh(r.value) && fresh(r.value.buffer) && r.value.Valid() && r.value.cycle == 0
    ensures r.Ok? ==> r.value.capacity == CapacityOf(dataBytes, invalidationBytes).value &&
                      |r.value.buffer.bytes| == r.value.capacity
  {
    var c := CapacityOf(dataBytes, invalidationBytes);
    if c.Err? {
      return Err(c.error);
    }
    var reader := new DefaultRecordReader(readers, cycleCount, c.value, source);
    return Ok(reader);
  }
}
