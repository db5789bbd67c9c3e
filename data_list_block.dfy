// The ##DL block: a list of links to data blocks, the link to the next list
// of the chain, and where each data block starts in the concatenated data,
// given as one common length or as an explicit offset per block.

module DataListBlocks {
  import opened JavaTypes
  import opened Results
  import opened Text
  import opened Io
  import opened Links
  import opened Flags
  import opened BlockTypeIds
  import opened BlockHeaders
  import opened Offsets

  /** BlockTypeId.of('D', 'L'), as its packed value: '#', '#', 'D', 'L' low byte first. */
  const DL_ID: BlockTypeId := BlockTypeId(0x4C44_2323)

  lemma {:induction false} DataListIdIsOf()
    ensures DL_ID == OfChars('D' as int, 'L' as int)
  {
    PackedValue('D' as int, 'L' as int);
    Pow2Values();
    WrapBitsInRange(0x4C44_2323, 32);
  }

  /** LengthOrOffsets: the common block length, or the offsets of the blocks. */
  datatype LengthOrOffsets = LengthInfo(length: int64) | OffsetsInfo(offsets: LongArray)

  /** A Java list of links: at most Integer.MAX_VALUE of them. */
  type LinkList = s: seq<Link> | |s| <= INT_MAX

  datatype DataListBlock = DataListBlock(
    nextDataList: Link,
    data: LinkList,
    offsetInfo: LengthOrOffsets,
    flags: BitFlags)

  /** The data links: every link but the first, which points to the next list. */
  function DataLinks(links: seq<int64>): (data: LinkList)
    requires 1 <= |links| <= INT_MAX
    ensures |data| == |links| - 1
    ensures forall i :: 0 <= i < |data| ==> data[i] == Of(links[i + 1])
  {
    seq(|links| - 1, i requires 0 <= i < |links| - 1 => Of(links[i + 1]))
  }

  /** The first link and the data links give back the links of the header. */
  lemma {:induction false} DataLinksKeepLinks(links: seq<int64>)
    requires 1 <= |links| <= INT_MAX
    ensures [Of(links[0]).AsLong()] + seq(|links| - 1, i requires 0 <= i < |links| - 1 => DataLinks(links)[i].AsLong()) == links
  {
    var rebuilt := [Of(links[0]).AsLong()] + seq(|links| - 1, i requires 0 <= i < |links| - 1 => DataLinks(links)[i].AsLong());
    assert |rebuilt| == |links|;
    forall i | 0 <= i < |links|
      ensures rebuilt[i] == links[i]
    {
      if i > 0 {
        assert rebuilt[i] == DataLinks(links)[i - 1].AsLong();
      }
    }
  }

  /** getDataLinks: copies links[1..] into the data array in a loop. */
  method GetDataLinks(links: seq<int64>) returns (data: LinkList)
    requires 1 <= |links| <= INT_MAX
    ensures data == DataLinks(links)
  {
    var a := new Link[|links| - 1];
    var i := 1;
    while i < |links|
      invariant 1 <= i <= |links|
      invariant forall j :: 0 <= j < i - 1 ==> a[j] == Of(links[j + 1])
    {
      a[i - 1] := Of(links[i]);
      i := i + 1;
    }
    data := a[..];
  }

  function CountMessage(count: int32, size: int): string {
    "Count attribute in DL block is inconsistent: " + IntToString(count) + " vs. " + IntToString(size)
  }

  /** The flags byte, three reserved bytes and the count at q. */
  function FlagsAndCountAt(s: seq<byte>, q: int): (r: Result<(BitFlags, int32)>)
    requires 0 <= q
    ensures r.Ok? <==> q + 8 <= |s| && q + 4 <= INT_MAX
    ensures r.Ok? ==> r.value == (OfByte(U8At(s, q).value, DataListFlagConstants), I32At(s, q + 4).value)
  {
    var b :- U8At(s, q);
    var _ :- SeekCheck(q + 4, |s|);
    var count :- I32At(s, q + 4);
    Ok((OfByte(b, DataListFlagConstants), count))
  }

  /** With EQUAL_LENGTH one length at q, otherwise count offsets in file order. */
  function OffsetInfoAt(s: seq<byte>, q: int, flags: BitFlags, count: nat): (r: Result<LengthOrOffsets>)
    requires 0 <= q <= |s| && count <= INT_MAX
    ensures r.Ok? ==> (r.value.LengthInfo? <==> flags.IsSet(EQUAL_LENGTH))
    ensures r.Ok? && r.value.LengthInfo? ==> I64At(s, q) == Ok(r.value.length)
    ensures r.Ok? && r.value.OffsetsInfo? ==>
              LinksAt(s, q, count).Ok? && LinksAt(s, q, count).value == r.value.offsets
  {
    if flags.IsSet(EQUAL_LENGTH) then
      var length :- I64At(s, q);
      Ok(LengthInfo(length))
    else
      var offsets :- LinksAt(s, q, count);
      Ok(OffsetsInfo(offsets))
  }

  /** Explicit offsets, one per data link. */
  predicate Consistent(b: DataListBlock) {
    b.offsetInfo.OffsetsInfo? ==> |b.offsetInfo.offsets| == |b.data|
  }

  /** The fields after the header at q, then the count check. */
  function BodyAt(s: seq<byte>, q: int, links: seq<int64>): (r: Result<DataListBlock>)
    requires 0 <= q && 1 <= |links| <= INT_MAX
    ensures r.Ok? ==> I32At(s, q + 4) == Ok(|links| - 1)
    ensures r.Ok? ==> r.value.nextDataList == Of(links[0]) && r.value.data == DataLinks(links)
    ensures r.Ok? ==> r.value.flags == OfByte(U8At(s, q).value, DataListFlagConstants)
    ensures r.Ok? ==> q + 8 <= |s| && OffsetInfoAt(s, q + 8, r.value.flags, |links| - 1) == Ok(r.value.offsetInfo)
    ensures r.Ok? ==> Consistent(r.value)
  {
    var fc :- FlagsAndCountAt(s, q);
    if fc.1 != |links| - 1 then Err(FormatError(CountMessage(fc.1, |links| - 1)))
    else
      var info :- OffsetInfoAt(s, q + 8, fc.0, fc.1);
      Ok(DataListBlock(Of(links[0]), DataLinks(links), info, fc.0))
  }

  /** A count field other than the number of data links is a format error. */
  lemma {:induction false} CountMismatchRejected(s: seq<byte>, q: int, links: seq<int64>)
    requires 0 <= q && 1 <= |links| <= INT_MAX
    requires q + 8 <= |s| <= INT_MAX && I32At(s, q + 4).value != |links| - 1
    ensures BodyAt(s, q, links) == Err(FormatError(CountMessage(I32At(s, q + 4).value, |links| - 1)))
  {
  }

  /** What DataListBlock.parse yields for the block at p. */
  function DataListAt(s: seq<byte>, p: int): (r: Result<DataListBlock>)
    requires 0 <= p <= |s| <= INT_MAX
    ensures r.Ok? ==> Consistent(r.value)
  {
    match ExpectingAt(s, p, DL_ID, 1, 8)
    case Err(e) => Err(e)
    case Ok(h) => BodyAt(s, p + 24 + 8 * |h.links|, h.links)
  }

  /** A header error is the error of the block. */
  lemma {:induction false} DataListAtHeaderError(s: seq<byte>, p: int)
    requires 0 <= p <= |s| <= INT_MAX
    requires ExpectingAt(s, p, DL_ID, 1, 8).Err?
    ensures DataListAt(s, p) == Err(ExpectingAt(s, p, DL_ID, 1, 8).error)
  {
  }

  /** After an accepted header, the block is the fields that follow its links. */
  lemma {:induction false} DataListAtBody(s: seq<byte>, p: int)
    requires 0 <= p <= |s| <= INT_MAX
    requires ExpectingAt(s, p, DL_ID, 1, 8).Ok?
    ensures var links := ExpectingAt(s, p, DL_ID, 1, 8).value.links;
      1 <= |links| <= INT_MAX && DataListAt(s, p) == BodyAt(s, p + 24 + 8 * |links|, links)
  {
  }

  /** parse: the header with at least one link and eight data bytes, then the fields. */
  method Parse(input: ByteInput) returns (r: Result<DataListBlock>)
    requires input.Valid()
    modifies input
    ensures input.Valid() && input.bytes == old(input.bytes)
    ensures r == DataListAt(old(input.bytes), old(input.pos))
  {
    ghost var s, p := input.bytes, input.pos;
    var h := ParseExpecting(DL_ID, input, 1, 8);
    if h.Err? {
      DataListAtHeaderError(s, p);
      return Err(h.error);
    }
    DataListAtBody(s, p);
    r := ParseBody(input, h.value.links);
  }

  /** The reads of parse after the header. */
  method ParseBody(input: ByteInput, links: seq<int64>) returns (r: Result<DataListBlock>)
    requires input.Valid() && 1 <= |links| <= INT_MAX
    modifies input
    ensures input.Valid() && input.bytes == old(input.bytes)
    ensures r == BodyAt(old(input.bytes), old(input.pos), links)
  {
    ghost var s, q := input.bytes, input.pos;
    var nextDataList := Of(links[0]);
    var data := GetDataLinks(links);
    var fc :- ReadFlagsAndCount(input);
    var flags, count := fc.0, fc.1;
    assert input.bytes == s && input.pos == q + 8;
    assert FlagsAndCountAt(s, q) == Ok(fc);
    if count != |data| {
      return Err(FormatError(CountMessage(count, |data|)));
    }
    var info :- ReadOffsetInfo(input, flags, count);
    return Ok(DataListBlock(nextDataList, data, info, flags));
  }

  method ReadFlagsAndCount(input: ByteInput) returns (r: Result<(BitFlags, int32)>)
    requires input.Valid()
    modifies input
    ensures input.Valid() && input.bytes == old(input.bytes)
    ensures r == FlagsAndCountAt(old(input.bytes), old(input.pos))
    ensures r.Ok? ==> input.pos == old(input.pos) + 8
  {
    var b :- input.ReadU8();
    var _ :- input.Skip(3);
    var count :- input.ReadI32();
    return Ok((OfByte(b, DataListFlagConstants), count));
  }

  /** The offset information: one readI64, or the loop filling new long[count]. */
  method ReadOffsetInfo(input: ByteInput, flags: BitFlags, count: nat) returns (r: Result<LengthOrOffsets>)
    requires input.Valid() && count <= INT_MAX
    modifies input
    ensures input.Valid() && input.bytes == old(input.bytes)
    ensures r == OffsetInfoAt(old(input.bytes), old(input.pos), flags, count)
  {
    if flags.IsSet(EQUAL_LENGTH) {
      var length :- input.ReadI64();
      return Ok(LengthInfo(length));
    }
    var offsets :- ReadLinks(input, count);
    return Ok(OffsetsInfo(offsets));
  }

  /**
   * The offsets of the list's blocks: a common length covers as many blocks
   * as there are data links.
   */
  function OffsetsOf(b: DataListBlock): (r: Result<Offsets>)
    ensures b.offsetInfo.LengthInfo? ==> r == Ok(EqualLength(|b.data|, b.offsetInfo.length))
    ensures b.offsetInfo.OffsetsInfo? ==> r == NewValues(b.offsetInfo.offsets)
    ensures r.Ok? ==> WellFormed(r.value)
  {
    match b.offsetInfo
    case LengthInfo(length) => NewEqualLength(|b.data|, length)
    case OffsetsInfo(offsets) => NewValues(offsets)
  }

  /** A list has as many offsets as data links when its explicit offsets do. */
  lemma {:induction false} OffsetsOfSize(b: DataListBlock)
    requires Consistent(b) && OffsetsOf(b).Ok?
    ensures Size(OffsetsOf(b).value) == |b.data|
  {
  }
}
