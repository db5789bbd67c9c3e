// The byte channel over the data blocks of a data list: it reads the blocks
// one after another as one stream of bytes, and seeks by locating the block
// that holds a position and skipping into it. Each data link resolves to a
// data storage (a ##DT or ##DZ block) whose channel delivers its bytes; the
// resolution is a function of the link, and NIL resolves to nothing.

module SeekableDataListReads {
  import opened JavaTypes
  import opened Results
  import opened Links
  import opened Offsets
  import opened DataLists

  const NIL_DATA := "Data link in DL block should not be NIL"
  const NIL_LAST := "Link to DT block can not be NIL"
  const END_OF_STREAM := "Unexpected end of stream"
  const NO_VALUE := "No value present"

  /** A resolved data block: the bytes its channel delivers and the length it declares. */
  datatype Storage = Storage(content: seq<byte>, channelLength: int64)

  /** A block's channel: the bytes it has not delivered yet. */
  datatype Channel = Channel(rest: seq<byte>)

  /** The value of a java.nio.ByteBuffer: its contents (of its capacity's length), position and limit. */
  datatype Buffer = Buffer(data: seq<byte>, position: int, limit: int)
  {
    ghost predicate Valid() {
      0 <= position <= limit <= |data| <= INT_MAX
    }

    function Remaining(): int {
      limit - position
    }
  }

  /** Buffer.limit(newLimit): refused beyond the capacity or below 0; pulls the position back to the new limit. */
  function WithLimit(b: Buffer, newLimit: int): (r: Result<Buffer>)
    requires b.Valid()
    ensures r.Ok? <==> 0 <= newLimit <= |b.data|
    ensures r.Ok? ==> r.value.Valid() && r.value.data == b.data && r.value.limit == newLimit
    ensures r.Ok? ==> r.value.position == Min(b.position, newLimit)
  {
    if newLimit < 0 || newLimit > |b.data| then Err(IllegalArgument(""))
    else Ok(b.(limit := newLimit, position := Min(b.position, newLimit)))
  }

  /** Buffer.put(bytes) at the position, which advances past them. */
  function PutBytes(b: Buffer, bytes: seq<byte>): (r: Buffer)
    requires b.Valid() && |bytes| <= b.Remaining()
    ensures r.Valid() && r.limit == b.limit && r.position == b.position + |bytes| && |r.data| == |b.data|
  {
    b.(data := b.data[..b.position] + bytes + b.data[b.position + |bytes|..], position := b.position + |bytes|)
  }

  /** ByteBuffer.allocate(n): n zero bytes, all of them free. */
  function Allocated(n: int32): (b: Buffer)
    requires n >= 0
    ensures b.Valid() && b.Remaining() == n
  {
    Buffer(seq(n, _ => 0), 0, n)
  }

  /** What one channel read does: the count it returns, the channel and the buffer after it. */
  datatype Transfer = Transfer(count: int, channel: Channel, dst: Buffer)

  /**
   * ReadableByteChannel.read(dst): 0 when the buffer has no room, -1 at the
   * end of the stream, otherwise as many bytes as both the buffer and the
   * channel have.
   */
  function ReadInto(c: Channel, dst: Buffer): (t: Transfer)
    requires dst.Valid()
    ensures t.dst.Valid() && t.dst.limit == dst.limit && |t.dst.data| == |dst.data|
    ensures -1 <= t.count <= dst.Remaining()
    ensures t.count == -1 <==> dst.Remaining() > 0 && |c.rest| == 0
    ensures t.count >= 0 ==> t.count == Min(dst.Remaining(), |c.rest|)
    ensures t.count >= 0 ==> c.rest == c.rest[..t.count] + t.channel.rest
    ensures t.count >= 0 ==> t.dst == PutBytes(dst, c.rest[..t.count])
    ensures t.count < 0 ==> t.channel == c && t.dst == dst
  {
    if dst.Remaining() == 0 then Transfer(0, c, dst)
    else if |c.rest| == 0 then Transfer(-1, c, dst)
    else
      var n := Min(dst.Remaining(), |c.rest|);
      assert c.rest == c.rest[..n] + c.rest[n..];
      Transfer(n, Channel(c.rest[n..]), PutBytes(dst, c.rest[..n]))
  }

  /** Math.toIntExact. */
  function ToIntExact(x: int): (r: Result<int32>)
    ensures r.Ok? <==> -0x8000_0000 <= x <= INT_MAX
    ensures r.Ok? ==> r.value == x
    ensures r.Err? ==> r.error == Arithmetic("integer overflow")
  {
    if x < -0x8000_0000 || x > INT_MAX then Err(Arithmetic("integer overflow")) else Ok(x)
  }

  /** The fields of the reader that its operations update. */
  datatype ReadState = ReadState(blockIndex: int32, channel: Option<Channel>, remaining: int64, closed: bool, pos: int64)

  /** A fresh reader: before the first block, at position 0, no channel open. */
  const INITIAL := ReadState(-1, None, 0, false, 0)

  /** An operation's outcome: its result, and the fields after it, which an exception leaves as they were then. */
  datatype Step<T> = Step(result: Result<T>, state: ReadState)

  /** setBlockChannel(storage): the storage's channel, and its declared length as the remaining length. */
  function Opened(s: ReadState, storage: Storage): (t: ReadState)
    ensures t.channel == Some(Channel(storage.content)) && t.remaining == storage.channelLength
    ensures t.blockIndex == s.blockIndex && t.pos == s.pos && t.closed == s.closed
  {
    s.(channel := Some(Channel(storage.content)), remaining := storage.channelLength)
  }

  /**
   * ensureDataStream: with nothing left in the current block, move to the
   * next one (the index is an int and wraps) and open its channel; the
   * answer is false once the index passes the last block.
   */
  function EnsureDataStreamOf(s: ReadState, blocks: seq<Link>, resolve: Link -> Option<Storage>): (r: Step<bool>)
    ensures s.remaining != 0 ==> r == Step(Ok(true), s)
    ensures s.remaining == 0 ==> r.state.blockIndex == Wrap32(s.blockIndex + 1)
    ensures r.state.pos == s.pos && r.state.closed == s.closed
    ensures r.result == Ok(false) <==> s.remaining == 0 && Wrap32(s.blockIndex + 1) >= |blocks|
    ensures r.result == Ok(false) ==> r.state == s.(blockIndex := Wrap32(s.blockIndex + 1))
    ensures r.result.Err? <==>
      (s.remaining == 0 && Wrap32(s.blockIndex + 1) < |blocks|
       && (Wrap32(s.blockIndex + 1) < 0 || resolve(blocks[Wrap32(s.blockIndex + 1)]).None?))
    ensures r.result.Err? ==> r.state.channel == s.channel && r.state.remaining == 0
  {
    if s.remaining != 0 then Step(Ok(true), s)
    else
      var i := Wrap32(s.blockIndex + 1);
      var t := s.(blockIndex := i);
      if i >= |blocks| then Step(Ok(false), t)
      else if i < 0 then Step(Err(IndexOutOfBounds), t)
      else
        match resolve(blocks[i])
        case None => Step(Err(FormatError(NIL_DATA)), t)
        case Some(storage) => Step(Ok(true), Opened(t, storage))
  }

  /** The outcome of read: its result, the fields and the destination buffer after it. */
  datatype ReadOutcome = ReadOutcome(result: Result<int32>, state: ReadState, dst: Buffer)

  /** The limit read sets on dst: the position plus the bytes to read, so that exactly those fit. */
  function Bounded(dst: Buffer, remaining: int32): (r: Result<Buffer>)
    requires dst.Valid()
    ensures 0 <= remaining <= dst.Remaining() ==> r == Ok(dst.(limit := dst.position + remaining))
  {
    WithLimit(dst, dst.position + remaining)
  }

  /** The limit read sets on dst as written: the bytes to read alone, whatever the position. */
  function BoundedAsWritten(dst: Buffer, remaining: int32): (r: Result<Buffer>)
    requires dst.Valid()
    ensures 0 <= remaining <= dst.Remaining() && r.Ok? ==> r.value.position == Min(dst.position, remaining)
  {
    WithLimit(dst, remaining)
  }

  /**
   * The part of read after the stream is ensured, given dst with its limit
   * set for the read: read from the block's channel, restore dst's limit
   * whatever happens, and advance pos and the remaining length by the count.
   */
  function TransferOf(s: ReadState, dst: Buffer, bounded: Result<Buffer>): (r: ReadOutcome)
    requires dst.Valid()
    requires bounded.Ok? ==> bounded.value.Valid() && |bounded.value.data| == |dst.data|
    ensures r.dst.Valid()
    ensures r.result.Ok? ==> bounded.Ok? && s.channel.Some?
    ensures r.result.Ok? && bounded.value.limit <= dst.limit ==>
      var n := r.result.value;
      && 0 <= n <= bounded.value.Remaining()
      && r.dst.position == bounded.value.position + n && r.dst.limit == dst.limit
      && r.state == s.(channel := r.state.channel, pos := Wrap64(s.pos + n), remaining := Wrap64(s.remaining - n))
  {
    match bounded
    case Err(e) => ReadOutcome(Err(e), s, dst)
    case Ok(b) => ChannelReadOf(s, b, dst.limit)
  }

  /** The read from the block's channel into dst bounded for it, and the restore of dst's old limit. */
  function ChannelReadOf(s: ReadState, b: Buffer, oldLimit: int): (r: ReadOutcome)
    requires b.Valid() && 0 <= oldLimit <= |b.data|
    ensures r.dst.Valid()
    ensures r.result.Ok? ==> s.channel.Some?
    ensures r.result.Ok? && b.limit <= oldLimit ==>
      var n := r.result.value;
      && 0 <= n <= b.Remaining()
      && r.dst.position == b.position + n && r.dst.limit == oldLimit
      && r.state == s.(channel := r.state.channel, pos := Wrap64(s.pos + n), remaining := Wrap64(s.remaining - n))
  {
    match s.channel
    case None => ReadOutcome(Err(NullPointer), s, WithLimit(b, oldLimit).value)
    case Some(c) =>
      var t := ReadInto(c, b);
      var back := WithLimit(t.dst, oldLimit).value;
      if t.count < 0 then ReadOutcome(Err(IllegalState(END_OF_STREAM)), s, back)
      else
        ReadOutcome(Ok(t.count),
                    s.(channel := Some(t.channel), pos := Wrap64(s.pos + t.count), remaining := Wrap64(s.remaining - t.count)),
                    back)
  }

  /** The number of bytes read asks for: the smaller of the block's remaining length and dst's room, cast to int. */
  function ReadLength(s: ReadState, dst: Buffer): int32 {
    Wrap32(Min(s.remaining, dst.Remaining()))
  }

  /** While the remaining length is not negative, the length to read fits dst's room. */
  lemma {:induction false} ReadLengthFits(s: ReadState, dst: Buffer)
    requires dst.Valid() && s.remaining >= 0
    ensures ReadLength(s, dst) == Min(s.remaining, dst.Remaining())
    ensures Bounded(dst, ReadLength(s, dst)) == Ok(dst.(limit := dst.position + ReadLength(s, dst)))
  {
    Wrap32Exact(Min(s.remaining, dst.Remaining()));
  }

  /**
   * read(dst): refused once closed; -1 after the last block; otherwise at
   * most the block's remaining bytes go into dst, pos moves on by the count
   * and dst keeps its limit.
   */
  function ReadOf(s: ReadState, dst: Buffer, blocks: seq<Link>, resolve: Link -> Option<Storage>): (r: ReadOutcome)
    requires dst.Valid()
    ensures r.dst.Valid()
    ensures s.closed ==> r == ReadOutcome(Err(ClosedChannel), s, dst)
    ensures !s.closed && EnsureDataStreamOf(s, blocks, resolve).result == Ok(false) ==> r == ReadOutcome(Ok(-1), EnsureDataStreamOf(s, blocks, resolve).state, dst)
  {
    if s.closed then ReadOutcome(Err(ClosedChannel), s, dst)
    else
      var e := EnsureDataStreamOf(s, blocks, resolve);
      if e.result.Err? then ReadOutcome(Err(e.result.error), e.state, dst)
      else if !e.result.value then ReadOutcome(Ok(-1), e.state, dst)
      else
        TransferOf(e.state, dst, Bounded(dst, ReadLength(e.state, dst)))
  }

  /**
   * A read that returns a count n moves at most as many bytes as the block
   * has left and dst has room for: pos and the remaining length shift by n,
   * dst advances by n and keeps its limit.
   */
  lemma {:induction false} ReadMovesAtMost(s: ReadState, dst: Buffer, blocks: seq<Link>, resolve: Link -> Option<Storage>)
    requires dst.Valid()
    requires EnsureDataStreamOf(s, blocks, resolve).state.remaining >= 0
    ensures var r := ReadOf(s, dst, blocks, resolve);
      var e := EnsureDataStreamOf(s, blocks, resolve).state;
      r.result.Ok? && r.result.value >= 0 ==>
        var n := r.result.value;
        && n <= dst.Remaining() && n <= e.remaining
        && r.state.pos == Wrap64(s.pos + n) && r.state.remaining == Wrap64(e.remaining - n)
        && r.dst.position == dst.position + n && r.dst.limit == dst.limit
  {
    var e := EnsureDataStreamOf(s, blocks, resolve);
    if !s.closed && e.result == Ok(true) {
      ReadLengthFits(e.state, dst);
      assert ReadOf(s, dst, blocks, resolve) == TransferOf(e.state, dst, Bounded(dst, ReadLength(e.state, dst)));
    }
  }

  /** read(dst) as written, where dst.limit(remaining) ignores dst's position. */
  function ReadAsWrittenOf(s: ReadState, dst: Buffer, blocks: seq<Link>, resolve: Link -> Option<Storage>): (r: ReadOutcome)
    requires dst.Valid()
    ensures r.dst.Valid()
    ensures s.closed ==> r == ReadOutcome(Err(ClosedChannel), s, dst)
  {
    if s.closed then ReadOutcome(Err(ClosedChannel), s, dst)
    else
      var e := EnsureDataStreamOf(s, blocks, resolve);
      if e.result.Err? then ReadOutcome(Err(e.result.error), e.state, dst)
      else if !e.result.value then ReadOutcome(Ok(-1), e.state, dst)
      else TransferOf(e.state, dst, BoundedAsWritten(dst, ReadLength(e.state, dst)))
  }

  /**
   * The skip of position(p): read toSkip bytes into a fresh buffer (the count
   * is ignored) and take toSkip off the remaining length; a negative count is
   * refused by ByteBuffer.allocate, a missing channel fails the call.
   */
  function SkipOf(s: ReadState, toSkip: int32): (r: Step<()>)
    ensures r.state.pos == s.pos && r.state.blockIndex == s.blockIndex && r.state.closed == s.closed
    ensures toSkip == 0 ==> r == Step(Ok(()), s)
    ensures r.result.Ok? <==> toSkip == 0 || (toSkip > 0 && s.channel.Some?)
    ensures toSkip > 0 && s.channel.Some? ==> r.state.remaining == Wrap64(s.remaining - toSkip)
    ensures toSkip > 0 && s.channel.Some? && toSkip <= |s.channel.value.rest| ==> r.state.channel == Some(Channel(s.channel.value.rest[toSkip..]))
  {
    if toSkip == 0 then Step(Ok(()), s)
    else if toSkip < 0 then Step(Err(IllegalArgument("")), s)
    else
      match s.channel
      case None => Step(Err(NullPointer), s)
      case Some(c) =>
        var t := ReadInto(c, Allocated(toSkip));
        Step(Ok(()), s.(channel := Some(t.channel), remaining := Wrap64(s.remaining - toSkip)))
  }

  /** position(p) into block i from another block or backwards: reopen block i and skip to p within it. */
  function ReopenedAt(t: ReadState, d: DataList, resolve: Link -> Option<Storage>, i: int32, newPosition: int64): (r: Step<()>)
    requires i >= 0
    ensures r.state.pos == t.pos && r.state.blockIndex == t.blockIndex && r.state.closed == t.closed
  {
    match Get(d.offsets, i)
    case Err(e) => Step(Err(e), t)
    case Ok(offset) =>
      match ToIntExact(Wrap64(newPosition - offset))
      case Err(e) => Step(Err(e), t)
      case Ok(toSkip) =>
        if i >= |d.dataBlocks| then Step(Err(IndexOutOfBounds), t)
        else
          match resolve(d.dataBlocks[i])
          case None => Step(Err(NoSuchElement(NO_VALUE)), t)
          case Some(storage) => SkipOf(Opened(t, storage), toSkip)
  }

  /**
   * position(p): nothing at all when p is the current position; otherwise pos
   * becomes p at once, then the block holding p becomes the current one (a
   * negative index drops the block), reopened unless p lies ahead in the
   * same block, where the channel just skips forward.
   */
  function PositionOf(s: ReadState, d: DataList, resolve: Link -> Option<Storage>, newPosition: int64): (r: Step<()>)
    ensures s.pos == newPosition ==> r == Step(Ok(()), s)
    ensures r.state.pos == newPosition && r.state.closed == s.closed
    ensures s.pos != newPosition && IndexOfPositionOf(d.offsets, newPosition).Ok? ==>
      var i := IndexOfPositionOf(d.offsets, newPosition).value;
      r.state.blockIndex == (if i < 0 then -1 else i)
    ensures s.pos != newPosition && IndexOfPositionOf(d.offsets, newPosition).Ok? && IndexOfPositionOf(d.offsets, newPosition).value < 0 ==>
      r == Step(Ok(()), s.(pos := newPosition, blockIndex := -1, remaining := 0))
    ensures s.pos != newPosition && IndexOfPositionOf(d.offsets, newPosition).Err? ==>
      r == Step(Err(IndexOfPositionOf(d.offsets, newPosition).error), s.(pos := newPosition))
  {
    if s.pos == newPosition then Step(Ok(()), s)
    else
      var moved := s.(pos := newPosition);
      match IndexOfPositionOf(d.offsets, newPosition)
      case Err(e) => Step(Err(e), moved)
      case Ok(i) =>
        if i < 0 then Step(Ok(()), moved.(blockIndex := -1, remaining := 0))
        else
          var t := moved.(blockIndex := i);
          if i != s.blockIndex || newPosition < s.pos then ReopenedAt(t, d, resolve, i, newPosition)
          else
            match ToIntExact(Wrap64(newPosition - s.pos))
            case Err(e) => Step(Err(e), t)
            case Ok(toSkip) => SkipOf(t, toSkip)
  }

  /** size(): 0 without blocks; otherwise where the last block starts plus its channel length. */
  function SizeOf(d: DataList, resolve: Link -> Option<Storage>): (r: Result<int64>)
    ensures |d.dataBlocks| == 0 ==> r == Ok(0)
    ensures |d.dataBlocks| > 0 ==> (r.Err? <==> resolve(d.dataBlocks[|d.dataBlocks| - 1]).None?)
    ensures r.Err? ==> r.error == FormatError(NIL_LAST)
  {
    if |d.dataBlocks| == 0 then Ok(0)
    else
      match resolve(d.dataBlocks[|d.dataBlocks| - 1])
      case None => Err(FormatError(NIL_LAST))
      case Some(storage) => Ok(Wrap64(Last(d.offsets) + storage.channelLength))
  }

  /** With as many offsets as blocks, size is the last block's offset plus its channel length. */
  lemma {:induction false} SizeIsEndOfLastBlock(d: DataList, resolve: Link -> Option<Storage>)
    requires |d.dataBlocks| == Size(d.offsets) > 0
    requires resolve(d.dataBlocks[|d.dataBlocks| - 1]).Some?
    ensures Get(d.offsets, |d.dataBlocks| - 1).Ok?
    ensures SizeOf(d, resolve) == Ok(Wrap64(Get(d.offsets, |d.dataBlocks| - 1).value + resolve(d.dataBlocks[|d.dataBlocks| - 1]).value.channelLength))
  {
    LastIsGetOfLastIndex(d.offsets);
  }

  /**
   * The reader stands at pos inside its current block: the block starts at
   * its offset at or before pos, and the channel holds exactly the block's
   * bytes from pos on, as many as the remaining length says.
   */
  ghost predicate AtPosition(s: ReadState, d: DataList, resolve: Link -> Option<Storage>) {
    && 0 <= s.blockIndex < |d.dataBlocks|
    && s.channel.Some?
    && resolve(d.dataBlocks[s.blockIndex]).Some?
    && Get(d.offsets, s.blockIndex).Ok?
    && var content := resolve(d.dataBlocks[s.blockIndex]).value.content;
       var within := s.pos - Get(d.offsets, s.blockIndex).value;
       && 0 <= within <= |content|
       && s.channel.value.rest == content[within..]
       && s.remaining == |s.channel.value.rest|
  }

  /** The bytes of the current block from pos on (for a reader at its position). */
  ghost function Ahead(s: ReadState, d: DataList, resolve: Link -> Option<Storage>): seq<byte>
    requires AtPosition(s, d, resolve)
  {
    s.channel.value.rest
  }

  /**
   * Reading at a position inside a block delivers the block's next bytes:
   * as many as dst has room for and the block still holds, written at dst's
   * position; the reader stays at its position, which moves on by the count.
   */
  lemma {:induction false} ReadDeliversBlockBytes(s: ReadState, dst: Buffer, d: DataList, resolve: Link -> Option<Storage>)
    requires AtPosition(s, d, resolve) && !s.closed && s.remaining > 0 && dst.Valid()
    requires s.pos + s.remaining <= 0x7FFF_FFFF_FFFF_FFFF
    ensures var r := ReadOf(s, dst, d.dataBlocks, resolve);
      var n := Min(s.remaining, dst.Remaining());
      && r.result == Ok(n)
      && r.dst == PutBytes(dst, Ahead(s, d, resolve)[..n])
      && r.state.pos == s.pos + n
      && AtPosition(r.state, d, resolve)
      && Ahead(s, d, resolve) == Ahead(s, d, resolve)[..n] + Ahead(r.state, d, resolve)
  {
    var c := s.channel.value;
    var n := Min(s.remaining, dst.Remaining());
    assert EnsureDataStreamOf(s, d.dataBlocks, resolve) == Step(Ok(true), s);
    assert ReadLength(s, dst) == n by {
      Wrap32Exact(n);
    }
    var b := dst.(limit := dst.position + n);
    assert Bounded(dst, n) == Ok(b);
    var t := ReadInto(c, b);
    assert t.count == n;
    assert WithLimit(t.dst, dst.limit).value == PutBytes(dst, c.rest[..n]);
    Wrap64Exact(s.pos + n);
    Wrap64Exact(s.remaining - n);
    var r := ReadOf(s, dst, d.dataBlocks, resolve);
    assert r.state == s.(channel := Some(t.channel), pos := s.pos + n, remaining := s.remaining - n);
    var content := resolve(d.dataBlocks[s.blockIndex]).value.content;
    var within := s.pos - Get(d.offsets, s.blockIndex).value;
    assert t.channel.rest == content[within + n..];
  }

  /**
   * At the end of a block, reading moves to the next one when it starts
   * where the current one ended (a fresh reader stands at the end of a
   * block -1 ending at 0): the reader then stands at the start of that block.
   */
  lemma {:induction false} NextBlockStartsAtPosition(s: ReadState, d: DataList, resolve: Link -> Option<Storage>)
    requires s.remaining == 0 && -1 <= s.blockIndex < INT_MAX && s.blockIndex + 1 < |d.dataBlocks|
    requires Get(d.offsets, s.blockIndex + 1) == Ok(s.pos)
    requires resolve(d.dataBlocks[s.blockIndex + 1]).Some?
    requires resolve(d.dataBlocks[s.blockIndex + 1]).value.channelLength == |resolve(d.dataBlocks[s.blockIndex + 1]).value.content|
    ensures var e := EnsureDataStreamOf(s, d.dataBlocks, resolve);
      && e.result == Ok(true) && e.state.blockIndex == s.blockIndex + 1 && e.state.pos == s.pos
      && AtPosition(e.state, d, resolve)
      && Ahead(e.state, d, resolve) == resolve(d.dataBlocks[s.blockIndex + 1]).value.content
  {
    Wrap32Exact(s.blockIndex + 1);
    var e := EnsureDataStreamOf(s, d.dataBlocks, resolve);
    var storage := resolve(d.dataBlocks[s.blockIndex + 1]).value;
    assert e.state == Opened(s.(blockIndex := s.blockIndex + 1), storage);
    assert storage.content[0..] == storage.content;
  }

  /**
   * Seeking to a position that lies in a block (the block indexOfPosition
   * finds, whose offset is at or before the position and whose bytes reach
   * it) leaves the reader standing at that position in that block, whether
   * it reopens the block or skips forward in it.
   */
  lemma {:induction false} PositionLandsInBlock(s: ReadState, d: DataList, resolve: Link -> Option<Storage>, newPosition: int64, i: int32)
    requires s.pos != newPosition
    requires IndexOfPositionOf(d.offsets, newPosition) == Ok(i) && 0 <= i < |d.dataBlocks|
    requires Get(d.offsets, i).Ok? && Get(d.offsets, i).value <= newPosition
    requires resolve(d.dataBlocks[i]).Some?
    requires newPosition - Get(d.offsets, i).value <= |resolve(d.dataBlocks[i]).value.content| <= INT_MAX
    requires resolve(d.dataBlocks[i]).value.channelLength == |resolve(d.dataBlocks[i]).value.content|
    requires i == s.blockIndex && newPosition > s.pos ==> AtPosition(s, d, resolve)
    ensures var r := PositionOf(s, d, resolve, newPosition);
      && r.result == Ok(())
      && r.state.pos == newPosition && r.state.blockIndex == i
      && AtPosition(r.state, d, resolve)
      && Ahead(r.state, d, resolve) == resolve(d.dataBlocks[i]).value.content[newPosition - Get(d.offsets, i).value..]
  {
    var t := s.(pos := newPosition, blockIndex := i);
    if i != s.blockIndex || newPosition < s.pos {
      assert PositionOf(s, d, resolve, newPosition) == ReopenedAt(t, d, resolve, i, newPosition);
      ReopenLandsInBlock(t, d, resolve, i, newPosition);
    } else {
      Wrap64Exact(newPosition - s.pos);
      assert PositionOf(s, d, resolve, newPosition) == SkipOf(t, newPosition - s.pos);
      SkipLandsInBlock(s, t, d, resolve, newPosition);
    }
  }

  /** Reopening block i at a position within its bytes leaves the reader there. */
  lemma {:induction false} ReopenLandsInBlock(t: ReadState, d: DataList, resolve: Link -> Option<Storage>, i: int32, newPosition: int64)
    requires t.pos == newPosition && t.blockIndex == i && 0 <= i < |d.dataBlocks|
    requires Get(d.offsets, i).Ok? && Get(d.offsets, i).value <= newPosition
    requires resolve(d.dataBlocks[i]).Some?
    requires newPosition - Get(d.offsets, i).value <= |resolve(d.dataBlocks[i]).value.content| <= INT_MAX
    requires resolve(d.dataBlocks[i]).value.channelLength == |resolve(d.dataBlocks[i]).value.content|
    ensures var r := ReopenedAt(t, d, resolve, i, newPosition);
      && r.result == Ok(()) && r.state.pos == newPosition && r.state.blockIndex == i
      && AtPosition(r.state, d, resolve)
      && Ahead(r.state, d, resolve) == resolve(d.dataBlocks[i]).value.content[newPosition - Get(d.offsets, i).value..]
  {
    var storage := resolve(d.dataBlocks[i]).value;
    var toSkip := newPosition - Get(d.offsets, i).value;
    Wrap64Exact(toSkip);
    var o := Opened(t, storage);
    assert ReopenedAt(t, d, resolve, i, newPosition) == SkipOf(o, toSkip);
    if toSkip == 0 {
      assert storage.content[0..] == storage.content;
    } else {
      Wrap64Exact(storage.channelLength - toSkip);
    }
  }

  /** Skipping forward within the current block keeps the reader at its (new) position. */
  lemma {:induction false} SkipLandsInBlock(s: ReadState, t: ReadState, d: DataList, resolve: Link -> Option<Storage>, newPosition: int64)
    requires AtPosition(s, d, resolve) && newPosition > s.pos
    requires t == s.(pos := newPosition)
    requires newPosition - Get(d.offsets, s.blockIndex).value <= |resolve(d.dataBlocks[s.blockIndex]).value.content| <= INT_MAX
    ensures var r := SkipOf(t, newPosition - s.pos);
      && r.result == Ok(()) && r.state.pos == newPosition && r.state.blockIndex == s.blockIndex
      && AtPosition(r.state, d, resolve)
      && Ahead(r.state, d, resolve) == resolve(d.dataBlocks[s.blockIndex]).value.content[newPosition - Get(d.offsets, s.blockIndex).value..]
  {
    var content := resolve(d.dataBlocks[s.blockIndex]).value.content;
    var within := s.pos - Get(d.offsets, s.blockIndex).value;
    var toSkip := newPosition - s.pos;
    var c := s.channel.value;
    Wrap64Exact(s.remaining - toSkip);
    assert c.rest[toSkip..] == content[within + toSkip..];
  }

  /** A sample of the discrepancy: a buffer filled up to 60 of 100 bytes, a block with 50 bytes left. */
  const SAMPLE_STATE := ReadState(0, Some(Channel(seq(50, _ => 7))), 50, false, 0)
  const SAMPLE_DST := Buffer(seq(100, _ => 0), 60, 100)

  /**
   * As written, the limit of 40 lies below the position 60, so the position
   * falls back to 40: read takes no byte, returns 0 for a non-empty block,
   * and rewinds dst over 20 bytes already in it.
   */
  lemma {:induction false} ReadAsWrittenRewindsBuffer(blocks: seq<Link>, resolve: Link -> Option<Storage>)
    ensures var r := ReadAsWrittenOf(SAMPLE_STATE, SAMPLE_DST, blocks, resolve);
      r.result == Ok(0) && r.dst.position == 40 < SAMPLE_DST.position
  {
    var e := EnsureDataStreamOf(SAMPLE_STATE, blocks, resolve);
    assert e == Step(Ok(true), SAMPLE_STATE);
    assert ReadLength(SAMPLE_STATE, SAMPLE_DST) == 40 by {
      Wrap32Exact(40);
    }
    var b := BoundedAsWritten(SAMPLE_DST, 40);
    assert b == Ok(SAMPLE_DST.(limit := 40, position := 40));
    Wrap64Exact(0);
    Wrap64Exact(50);
  }

  /** With the limit at position plus the count, the same read fills dst's 40 free bytes. */
  lemma {:induction false} ReadFillsBuffer(blocks: seq<Link>, resolve: Link -> Option<Storage>)
    ensures var r := ReadOf(SAMPLE_STATE, SAMPLE_DST, blocks, resolve);
      r.result == Ok(40) && r.dst.position == 100
  {
    var e := EnsureDataStreamOf(SAMPLE_STATE, blocks, resolve);
    assert e == Step(Ok(true), SAMPLE_STATE);
    assert ReadLength(SAMPLE_STATE, SAMPLE_DST) == 40 by {
      Wrap32Exact(40);
    }
  }

  /** A java.nio.ByteBuffer, as a destination of reads. */
  class ByteBuffer {
    var data: seq<byte>
    var position: int
    var limit: int

    function Value(): Buffer
      reads this
    {
      Buffer(data, position, limit)
    }

    ghost predicate Valid()
      reads this
    {
      Value().Valid()
    }

    constructor (data: seq<byte>, position: int, limit: int)
      requires Buffer(data, position, limit).Valid()
      ensures Valid() && Value() == Buffer(data, position, limit)
    {
      this.data := data;
      this.position := position;
      this.limit := limit;
    }

    /** limit(newLimit). */
    method SetLimit(newLimit: int) returns (r: Result<()>)
      requires Valid()
      modifies this
      ensures Valid()
      ensures WithLimit(old(Value()), newLimit).Ok? ==> r == Ok(()) && Value() == WithLimit(old(Value()), newLimit).value
      ensures WithLimit(old(Value()), newLimit).Err? ==> r == Err(WithLimit(old(Value()), newLimit).error) && Value() == old(Value())
    {
      if newLimit < 0 || newLimit > |data| {
        return Err(IllegalArgument(""));
      }
      limit := newLimit;
      if position > newLimit {
        position := newLimit;
      }
      return Ok(());
    }

    /** put(bytes). */
    method Put(bytes: seq<byte>)
      requires Valid() && |bytes| <= limit - position
      modifies this
      ensures Valid() && Value() == PutBytes(old(Value()), bytes)
    {
      data := data[..position] + bytes + data[position + |bytes|..];
      position := position + |bytes|;
    }
  }

  /** The channel over a data list's blocks, read in order. */
  class SeekableDataListRead {
    const dataList: DataList
    const resolve: Link -> Option<Storage>
    var blockIndex: int32
    var blockChannel: Option<Channel>
    var remainingDataLength: int64
    var closed: bool
    var pos: int64

    function State(): ReadState
      reads this
    {
      ReadState(blockIndex, blockChannel, remainingDataLength, closed, pos)
    }

    constructor (dataList: DataList, resolve: Link -> Option<Storage>)
      ensures this.dataList == dataList && this.resolve == resolve && State() == INITIAL
    {
      this.dataList := dataList;
      this.resolve := resolve;
      blockIndex := -1;
      blockChannel := None;
      remainingDataLength := 0;
      closed := false;
      pos := 0;
    }

    /** dup(): a fresh reader over the same blocks. */
    method Dup() returns (r: SeekableDataListRead)
      ensures fresh(r) && r.dataList == dataList && r.resolve == resolve && r.State() == INITIAL
    {
      r := new SeekableDataListRead(dataList, resolve);
    }

    method SetBlockChannel(storage: Storage)
      modifies this
      ensures State() == Opened(old(State()), storage)
    {
      blockChannel := Some(Channel(storage.content));
      remainingDataLength := storage.channelLength;
    }

    method EnsureDataStream() returns (r: Result<bool>)
      modifies this
      ensures Step(r, State()) == EnsureDataStreamOf(old(State()), dataList.dataBlocks, resolve)
    {
      if remainingDataLength == 0 {
        var dataBlocks := dataList.dataBlocks;
        blockIndex := Wrap32(blockIndex + 1);
        if blockIndex >= |dataBlocks| {
          return Ok(false);
        }
        if blockIndex < 0 {
          return Err(IndexOutOfBounds);
        }
        var storage := resolve(dataBlocks[blockIndex]);
        if storage.None? {
          return Err(FormatError(NIL_DATA));
        }
        SetBlockChannel(storage.value);
      }
      return Ok(true);
    }

    /** blockChannel.read(dst). */
    method ReadChannel(dst: ByteBuffer) returns (n: int)
      requires blockChannel.Some? && dst.Valid()
      modifies this, dst
      ensures dst.Valid()
      ensures var t := ReadInto(old(blockChannel).value, old(dst.Value()));
        n == t.count && State() == old(State()).(channel := Some(t.channel)) && dst.Value() == t.dst
    {
      var c := blockChannel.value;
      if dst.limit - dst.position == 0 {
        return 0;
      }
      if |c.rest| == 0 {
        return -1;
      }
      n := Min(dst.limit - dst.position, |c.rest|);
      dst.Put(c.rest[..n]);
      blockChannel := Some(Channel(c.rest[n..]));
    }

    method Read(dst: ByteBuffer) returns (r: Result<int32>)
      requires dst.Valid()
      modifies this, dst
      ensures dst.Valid()
      ensures ReadOutcome(r, State(), dst.Value()) == ReadOf(old(State()), old(dst.Value()), dataList.dataBlocks, resolve)
    {
      if closed {
        return Err(ClosedChannel);
      }
      var hasData := EnsureDataStream();
      if hasData.Err? {
        return Err(hasData.error);
      }
      if !hasData.value {
        return Ok(-1);
      }
      r := Transfer(dst);
    }

    /** The part of read(dst) after the stream is ensured. */
    method Transfer(dst: ByteBuffer) returns (r: Result<int32>)
      requires dst.Valid()
      modifies this, dst
      ensures dst.Valid()
      ensures ReadOutcome(r, State(), dst.Value())
        == TransferOf(old(State()), old(dst.Value()), Bounded(old(dst.Value()), ReadLength(old(State()), old(dst.Value()))))
    {
      ghost var s0 := State();
      ghost var b0 := dst.Value();
      var remaining := Wrap32(Min(remainingDataLength, dst.limit - dst.position));
      assert remaining == ReadLength(s0, b0);
      var oldLimit := dst.limit;
      var bounded := dst.SetLimit(dst.position + remaining);
      if bounded.Err? {
        return Err(bounded.error);
      }
      assert Bounded(b0, remaining) == Ok(dst.Value());
      r := ReadBounded(dst, oldLimit);
    }

    /** The read from the channel into dst, bounded for it, and the restore of dst's old limit. */
    method ReadBounded(dst: ByteBuffer, oldLimit: int) returns (r: Result<int32>)
      requires dst.Valid() && 0 <= oldLimit <= |dst.data|
      modifies this, dst
      ensures dst.Valid()
      ensures ReadOutcome(r, State(), dst.Value()) == ChannelReadOf(old(State()), old(dst.Value()), oldLimit)
    {
      ghost var s0 := State();
      ghost var b1 := dst.Value();
      var ignored: Result<()>;
      if blockChannel.None? {
        ignored := dst.SetLimit(oldLimit);
        return Err(NullPointer);
      }
      ghost var t := ReadInto(blockChannel.value, b1);
      var bytes := ReadChannel(dst);
      assert dst.Value() == t.dst && bytes == t.count;
      ignored := dst.SetLimit(oldLimit);
      assert dst.Value() == WithLimit(t.dst, oldLimit).value;
      if bytes < 0 {
        return Err(IllegalState(END_OF_STREAM));
      }
      assert ChannelReadOf(s0, b1, oldLimit)
        == ReadOutcome(Ok(bytes), s0.(channel := Some(t.channel), pos := Wrap64(s0.pos + bytes), remaining := Wrap64(s0.remaining - bytes)), dst.Value());
      pos := Wrap64(pos + bytes);
      remainingDataLength := Wrap64(remainingDataLength - bytes);
      return Ok(bytes);
    }

    function Position(): int64
      reads this
    {
      pos
    }

    /** The skip at the end of position(p). */
    method Skip(toSkip: int32) returns (r: Result<()>)
      modifies this
      ensures Step(r, State()) == SkipOf(old(State()), toSkip)
    {
      if toSkip == 0 {
        return Ok(());
      }
      if toSkip < 0 {
        return Err(IllegalArgument(""));
      }
      if blockChannel.None? {
        return Err(NullPointer);
      }
      var scratch := new ByteBuffer(seq(toSkip, _ => 0), 0, toSkip);
      var ignored := ReadChannel(scratch);
      remainingDataLength := Wrap64(remainingDataLength - toSkip);
      return Ok(());
    }

    /** position(newPosition). */
    method PositionTo(newPosition: int64) returns (r: Result<()>)
      modifies this
      ensures Step(r, State()) == PositionOf(old(State()), dataList, resolve, newPosition)
    {
      if pos == newPosition {
        return Ok(());
      }
      var oldBlockIndex := blockIndex;
      var oldPosition := pos;
      pos := newPosition;
      var index := IndexOfPosition(dataList.offsets, newPosition);
      if index.Err? {
        return Err(index.error);
      }
      blockIndex := index.value;
      if blockIndex < 0 {
        blockIndex := -1;
        remainingDataLength := 0;
        return Ok(());
      }
      if blockIndex != oldBlockIndex || newPosition < oldPosition {
        r := Reopen(newPosition);
      } else {
        var exact := ToIntExact(Wrap64(newPosition - oldPosition));
        if exact.Err? {
          return Err(exact.error);
        }
        r := Skip(exact.value);
      }
    }

    /** The reopening of the current block in position(newPosition), and the skip to newPosition in it. */
    method Reopen(newPosition: int64) returns (r: Result<()>)
      requires blockIndex >= 0
      modifies this
      ensures Step(r, State()) == ReopenedAt(old(State()), dataList, resolve, old(blockIndex), newPosition)
    {
      var offset := Get(dataList.offsets, blockIndex);
      if offset.Err? {
        return Err(offset.error);
      }
      var exact := ToIntExact(Wrap64(newPosition - offset.value));
      if exact.Err? {
        return Err(exact.error);
      }
      if blockIndex >= |dataList.dataBlocks| {
        return Err(IndexOutOfBounds);
      }
      var storage := resolve(dataList.dataBlocks[blockIndex]);
      if storage.None? {
        return Err(NoSuchElement(NO_VALUE));
      }
      SetBlockChannel(storage.value);
      r := Skip(exact.value);
    }

    method Size() returns (r: Result<int64>)
      ensures r == SizeOf(dataList, resolve)
    {
      var dataBlocks := dataList.dataBlocks;
      if |dataBlocks| == 0 {
        return Ok(0);
      }
      var last := resolve(dataBlocks[|dataBlocks| - 1]);
      if last.None? {
        return Err(FormatError(NIL_LAST));
      }
      return Ok(Wrap64(Last(dataList.offsets) + last.value.channelLength));
    }

    function IsOpen(): bool
      reads this
    {
      !closed
    }

    /** close(): closing the block's channel is not observable here; the reader refuses reads from now on. */
    method Close()
      modifies this
      ensures State() == old(State()).(closed := true)
    {
      closed := true;
    }
  }
}
