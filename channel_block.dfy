// The ##CN block: one channel of a channel group. Its header carries eight
// links and at least 72 data bytes: the channel type, sync type and data
// type as enum ordinals, where the value sits in the record (bit offset,
// byte offset, bit count), its flags and invalidation bit, a precision, an
// attachment count and three value ranges. Doubles are kept as their bit
// patterns.

module ChannelBlocks {
  import opened JavaTypes
  import opened Results
  import opened Text
  import opened Io
  import opened Links
  import opened Flags
  import opened BlockTypeIds
  import opened BlockHeaders

  /** BlockTypeId.of('C', 'N'), as its packed value: '#', '#', 'C', 'N' low byte first. */
  const CN_ID: BlockTypeId := BlockTypeId(0x4E43_2323)

  lemma {:induction false} ChannelIdIsOf()
    ensures CN_ID == OfChars('C' as int, 'N' as int)
  {
    PackedValue('C' as int, 'N' as int);
    Pow2Values();
    WrapBitsInRange(0x4E43_2323, 32);
  }

  datatype ChannelType =
    | FixedLengthDataChannel | VariableLengthDataChannel | MasterChannel | VirtualMasterChannel
    | SynchronizationChannel | MaximumLengthChannel | VirtualDataChannel

  datatype SyncType = NoSync | TimeSync | AngleSync | DistanceSync | IndexSync

  datatype ChannelDataType =
    | UintLe | UintBe | IntLe | IntBe | FloatLe | FloatBe
    | StringLatin1 | StringUtf8 | StringUtf16Le | StringUtf16Be
    | ByteArray | MimeSample | MimeStream | CanopenDate | CanopenTime | ComplexLe | ComplexBe

  /** The enum constants in declaration order: values(). */
  const CHANNEL_TYPES: seq<ChannelType> := [
    FixedLengthDataChannel, VariableLengthDataChannel, MasterChannel, VirtualMasterChannel,
    SynchronizationChannel, MaximumLengthChannel, VirtualDataChannel]

  const SYNC_TYPES: seq<SyncType> := [NoSync, TimeSync, AngleSync, DistanceSync, IndexSync]

  const DATA_TYPES: seq<ChannelDataType> := [
    UintLe, UintBe, IntLe, IntBe, FloatLe, FloatBe,
    StringLatin1, StringUtf8, StringUtf16Le, StringUtf16Be,
    ByteArray, MimeSample, MimeStream, CanopenDate, CanopenTime, ComplexLe, ComplexBe]

  /** ChannelType.parse: the constant with that ordinal. */
  function ParseChannelType(value: int): (r: Result<ChannelType>)
    ensures r.Ok? <==> 0 <= value < 7
    ensures r.Ok? ==> r.value == CHANNEL_TYPES[value]
    ensures r.Err? ==> r.error == FormatError("Unknown channel type: " + IntToString(value))
  {
    if 0 <= value < |CHANNEL_TYPES| then Ok(CHANNEL_TYPES[value])
    else Err(FormatError("Unknown channel type: " + IntToString(value)))
  }

  function ParseSyncType(value: int): (r: Result<SyncType>)
    ensures r.Ok? <==> 0 <= value < 5
    ensures r.Ok? ==> r.value == SYNC_TYPES[value]
    ensures r.Err? ==> r.error == FormatError("Unknown sync type: " + IntToString(value))
  {
    if 0 <= value < |SYNC_TYPES| then Ok(SYNC_TYPES[value])
    else Err(FormatError("Unknown sync type: " + IntToString(value)))
  }

  function ParseDataType(value: int): (r: Result<ChannelDataType>)
    ensures r.Ok? <==> 0 <= value < 17
    ensures r.Ok? ==> r.value == DATA_TYPES[value]
    ensures r.Err? ==> r.error == FormatError("Unknown channel data type: " + IntToString(value))
  {
    if 0 <= value < |DATA_TYPES| then Ok(DATA_TYPES[value])
    else Err(FormatError("Unknown channel data type: " + IntToString(value)))
  }

  /** Every channel type is listed once, so parse finds it again from its ordinal alone. */
  lemma {:induction false} ChannelTypeOrdinals(t: ChannelType)
    ensures exists i :: 0 <= i < 7 && ParseChannelType(i) == Ok(t)
    ensures forall i, j :: 0 <= i < j < 7 ==> CHANNEL_TYPES[i] != CHANNEL_TYPES[j]
  {
    var i := match t
      case FixedLengthDataChannel => 0 case VariableLengthDataChannel => 1 case MasterChannel => 2
      case VirtualMasterChannel => 3 case SynchronizationChannel => 4 case MaximumLengthChannel => 5
      case VirtualDataChannel => 6;
    assert ParseChannelType(i) == Ok(t);
  }

  lemma {:induction false} SyncTypeOrdinals(y: SyncType)
    ensures exists i :: 0 <= i < 5 && ParseSyncType(i) == Ok(y)
    ensures forall i, j :: 0 <= i < j < 5 ==> SYNC_TYPES[i] != SYNC_TYPES[j]
  {
    var i := match y
      case NoSync => 0 case TimeSync => 1 case AngleSync => 2 case DistanceSync => 3 case IndexSync => 4;
    assert ParseSyncType(i) == Ok(y);
  }

  lemma {:induction false} DataTypeOrdinals(d: ChannelDataType)
    ensures exists i :: 0 <= i < 17 && ParseDataType(i) == Ok(d)
    ensures forall i, j :: 0 <= i < j < 17 ==> DATA_TYPES[i] != DATA_TYPES[j]
  {
    var i := match d
      case UintLe => 0 case UintBe => 1 case IntLe => 2 case IntBe => 3 case FloatLe => 4 case FloatBe => 5
      case StringLatin1 => 6 case StringUtf8 => 7 case StringUtf16Le => 8 case StringUtf16Be => 9
      case ByteArray => 10 case MimeSample => 11 case MimeStream => 12 case CanopenDate => 13
      case CanopenTime => 14 case ComplexLe => 15 case ComplexBe => 16;
    assert ParseDataType(i) == Ok(d);
  }

  /** A Range of two doubles, as their bit patterns. */
  datatype Range = Range(lower: int64, upper: int64)

  datatype ChannelBlock = ChannelBlock(
    nextChannel: Link,
    component: int64,
    channelName: Link,
    channelSource: Link,
    conversionRule: Link,
    signalData: int64,
    physicalUnit: Link,
    comment: Link,
    channelType: ChannelType,
    syncType: SyncType,
    dataType: ChannelDataType,
    bitOffset: int8,
    byteOffset: int32,
    bitCount: int32,
    flags: BitFlags,
    invalidationBit: int32,
    precision: int8,
    attachmentCount: int16,
    valueRange: Range,
    limit: Range,
    limitExtended: Range)

  // ---------------------------------------------------------------------
  // The data section, in file order, in four groups.

  datatype Kinds = Kinds(channelType: ChannelType, syncType: SyncType, dataType: ChannelDataType)

  datatype Layout = Layout(bitOffset: int8, byteOffset: int32, bitCount: int32, flags: int32, invalidationBit: int32)

  /** The three enum bytes; each is parsed right after it is read. */
  function KindsAt(s: seq<byte>, q: int): (r: Result<Kinds>)
    requires 0 <= q
    ensures r.Ok? ==> q + 3 <= |s|
  {
    var t :- U8At(s, q);
    var channelType :- ParseChannelType(t);
    var y :- U8At(s, q + 1);
    var syncType :- ParseSyncType(y);
    var d :- U8At(s, q + 2);
    var dataType :- ParseDataType(d);
    Ok(Kinds(channelType, syncType, dataType))
  }

  /** bitOffset, byteOffset, bitCount, the flags int and the invalidation bit: 17 bytes. */
  function LayoutAt(s: seq<byte>, q: int): (r: Result<Layout>)
    requires 0 <= q
    ensures r.Ok? <==> q + 17 <= |s|
    ensures r.Err? ==> r.error == EndOfInput
    ensures r.Ok? ==> r.value.bitOffset == WrapBits(s[q], 8) && r.value.byteOffset == SignedLe(s[q + 1..q + 5])
    ensures r.Ok? ==> r.value.bitCount == SignedLe(s[q + 5..q + 9]) && r.value.flags == SignedLe(s[q + 9..q + 13])
    ensures r.Ok? ==> r.value.invalidationBit == SignedLe(s[q + 13..q + 17])
  {
    var bitOffset :- U8At(s, q);
    var byteOffset :- I32At(s, q + 1);
    var bitCount :- I32At(s, q + 5);
    var flags :- I32At(s, q + 9);
    var invalidationBit :- I32At(s, q + 13);
    Ok(Layout(bitOffset, byteOffset, bitCount, flags, invalidationBit))
  }

  /** The precision byte, one skipped byte and the attachment count: 4 bytes. */
  function PrecisionAt(s: seq<byte>, q: int): (r: Result<(int8, int16)>)
    requires 0 <= q
    ensures r.Ok? <==> q + 4 <= |s| && q + 2 <= INT_MAX
    ensures r.Ok? ==> r.value.0 == WrapBits(s[q], 8) && r.value.1 == SignedLe(s[q + 2..q + 4])
  {
    var precision :- U8At(s, q);
    var _ :- SeekCheck(q + 2, |s|);
    var attachmentCount :- I16At(s, q + 2);
    Ok((precision, attachmentCount))
  }

  function RangeAt(s: seq<byte>, q: int): (r: Result<Range>)
    requires 0 <= q
    ensures r.Ok? <==> q + 16 <= |s|
    ensures r.Err? ==> r.error == EndOfInput
    ensures r.Ok? ==> r.value.lower == SignedLe(s[q..q + 8]) && r.value.upper == SignedLe(s[q + 8..q + 16])
  {
    var lower :- I64At(s, q);
    var upper :- I64At(s, q + 8);
    Ok(Range(lower, upper))
  }

  /** The three ranges: 48 bytes. */
  function RangesAt(s: seq<byte>, q: int): (r: Result<(Range, Range, Range)>)
    requires 0 <= q
    ensures r.Ok? <==> q + 48 <= |s|
    ensures r.Err? ==> r.error == EndOfInput
    ensures r.Ok? ==> RangeAt(s, q) == Ok(r.value.0) && RangeAt(s, q + 16) == Ok(r.value.1) && RangeAt(s, q + 32) == Ok(r.value.2)
  {
    var valueRange :- RangeAt(s, q);
    var limit :- RangeAt(s, q + 16);
    var limitExtended :- RangeAt(s, q + 32);
    Ok((valueRange, limit, limitExtended))
  }

  /** The block made of its eight links and its data fields. */
  function Assemble(links: seq<int64>, k: Kinds, l: Layout, extra: (int8, int16), ranges: (Range, Range, Range)): (c: ChannelBlock)
    requires |links| >= 8
    ensures LinksOf(c) == links[..8]
  {
    ChannelBlock(
      Of(links[0]), links[1], Of(links[2]), Of(links[3]), Of(links[4]), links[5], Of(links[6]), Of(links[7]),
      k.channelType, k.syncType, k.dataType, l.bitOffset, l.byteOffset, l.bitCount,
      OfInt(l.flags, ChannelFlagConstants), l.invalidationBit, extra.0, extra.1,
      ranges.0, ranges.1, ranges.2)
  }

  /** The eight link fields of a block, as raw values in header order. */
  function LinksOf(c: ChannelBlock): seq<int64> {
    [c.nextChannel.raw, c.component, c.channelName.raw, c.channelSource.raw,
     c.conversionRule.raw, c.signalData, c.physicalUnit.raw, c.comment.raw]
  }

  /** The precision group and the ranges: the last 52 bytes. */
  function TailAt(s: seq<byte>, q: int): (r: Result<((int8, int16), (Range, Range, Range))>)
    requires 0 <= q
    ensures r.Ok? <==> q + 52 <= |s| && q + 2 <= INT_MAX
    ensures r.Ok? ==> PrecisionAt(s, q) == Ok(r.value.0) && RangesAt(s, q + 4) == Ok(r.value.1)
  {
    var extra :- PrecisionAt(s, q);
    var ranges :- RangesAt(s, q + 4);
    Ok((extra, ranges))
  }

  /** The fields after the header at q. */
  function FieldsAt(s: seq<byte>, q: int, links: seq<int64>): (r: Result<ChannelBlock>)
    requires 0 <= q && |links| >= 8
    ensures r.Ok? <==> KindsAt(s, q).Ok? && q + 72 <= |s| && q + 22 <= INT_MAX
    ensures r.Ok? ==> LinksOf(r.value) == links[..8]
    ensures r.Ok? ==> r.value.bitOffset == WrapBits(s[q + 3], 8) && r.value.byteOffset == SignedLe(s[q + 4..q + 8])
  {
    var k :- KindsAt(s, q);
    var l :- LayoutAt(s, q + 3);
    var t :- TailAt(s, q + 20);
    Ok(Assemble(links, k, l, t.0, t.1))
  }

  /** What ChannelBlock.parse yields for the block at p. */
  function ChannelAt(s: seq<byte>, p: int): (r: Result<ChannelBlock>)
    requires 0 <= p <= |s| <= INT_MAX
    ensures r.Ok? ==> ExpectingAt(s, p, CN_ID, 8, 72).Ok?
    ensures r.Ok? ==> LinksOf(r.value) == ExpectingAt(s, p, CN_ID, 8, 72).value.links[..8]
  {
    match ExpectingAt(s, p, CN_ID, 8, 72)
    case Err(e) => Err(e)
    case Ok(h) => FieldsAt(s, h.DataStart(p), h.links)
  }

  /**
   * parse demands a ##CN header with at least eight links and 72 data
   * bytes: whatever the header lacks, the block is that header's error.
   */
  lemma {:induction false} ChannelAtNeedsHeader(s: seq<byte>, p: int)
    requires 0 <= p <= |s| <= INT_MAX
    ensures ChannelAt(s, p).Ok? ==>
              var h := HeaderAt(s, p, CN_ID);
              h.Ok? && |h.value.links| >= 8 && h.value.DataLength() >= 72
    ensures ExpectingAt(s, p, CN_ID, 8, 72).Err? ==> ChannelAt(s, p) == Err(ExpectingAt(s, p, CN_ID, 8, 72).error)
    ensures HeaderAt(s, p, CN_ID).Ok? && |HeaderAt(s, p, CN_ID).value.links| < 8 ==> ChannelAt(s, p).Err? && ChannelAt(s, p).error.FormatError?
  {
    ExpectingAtMeaning(s, p, CN_ID, 8, 72);
  }

  lemma {:induction false} ChannelAtHeaderError(s: seq<byte>, p: int)
    requires 0 <= p <= |s| <= INT_MAX
    requires ExpectingAt(s, p, CN_ID, 8, 72).Err?
    ensures ChannelAt(s, p) == Err(ExpectingAt(s, p, CN_ID, 8, 72).error)
  {
  }

  lemma {:induction false} ChannelAtBody(s: seq<byte>, p: int, h: BlockHeader, q: int)
    requires 0 <= p <= |s| <= INT_MAX
    requires ExpectingAt(s, p, CN_ID, 8, 72) == Ok(h) && q == h.DataStart(p)
    ensures 8 <= |h.links| && ChannelAt(s, p) == FieldsAt(s, q, h.links)
  {
  }

  /** The links of the header land in the block's link fields, in order. */
  lemma {:induction false} ChannelLinks(s: seq<byte>, p: int)
    requires 0 <= p <= |s| <= INT_MAX && ChannelAt(s, p).Ok?
    ensures LinksOf(ChannelAt(s, p).value) == ExpectingAt(s, p, CN_ID, 8, 72).value.links[..8]
  {
    var h := ExpectingAt(s, p, CN_ID, 8, 72).value;
    ChannelAtBody(s, p, h, h.DataStart(p));
  }

  method ParseChannel(input: ByteInput) returns (r: Result<ChannelBlock>)
    requires input.Valid()
    modifies input
    ensures input.Valid() && input.bytes == old(input.bytes)
    ensures r == ChannelAt(old(input.bytes), old(input.pos))
  {
    ghost var s, p := input.bytes, input.pos;
    var h := ParseExpecting(CN_ID, input, 8, 72);
    if h.Err? {
      ChannelAtHeaderError(s, p);
      return Err(h.error);
    }
    ChannelAtBody(s, p, h.value, input.pos);
    r := ParseFields(input, h.value.links);
  }

  method ParseFields(input: ByteInput, links: seq<int64>) returns (r: Result<ChannelBlock>)
    requires input.Valid() && |links| >= 8
    modifies input
    ensures input.Valid() && input.bytes == old(input.bytes)
    ensures r == FieldsAt(old(input.bytes), old(input.pos), links)
  {
    ghost var s, q := input.bytes, input.pos;
    var k :- ReadKinds(input);
    assert KindsAt(s, q) == Ok(k) && input.pos == q + 3;
    var l :- ReadLayout(input);
    assert LayoutAt(s, q + 3) == Ok(l) && input.pos == q + 20;
    var t :- ReadTail(input);
    return Ok(Assemble(links, k, l, t.0, t.1));
  }

  method ReadTail(input: ByteInput) returns (r: Result<((int8, int16), (Range, Range, Range))>)
    requires input.Valid()
    modifies input
    ensures input.Valid() && input.bytes == old(input.bytes)
    ensures r == TailAt(old(input.bytes), old(input.pos))
  {
    var extra :- ReadPrecision(input);
    var ranges :- ReadRanges(input);
    return Ok((extra, ranges));
  }

  method ReadKinds(input: ByteInput) returns (r: Result<Kinds>)
    requires input.Valid()
    modifies input
    ensures input.Valid() && input.bytes == old(input.bytes)
    ensures r == KindsAt(old(input.bytes), old(input.pos))
    ensures r.Ok? ==> input.pos == old(input.pos) + 3
  {
    var t :- input.ReadU8();
    var channelType :- ParseChannelType(t);
    var y :- input.ReadU8();
    var syncType :- ParseSyncType(y);
    var d :- input.ReadU8();
    var dataType :- ParseDataType(d);
    return Ok(Kinds(channelType, syncType, dataType));
  }

  method ReadLayout(input: ByteInput) returns (r: Result<Layout>)
    requires input.Valid()
    modifies input
    ensures input.Valid() && input.bytes == old(input.bytes)
    ensures r == LayoutAt(old(input.bytes), old(input.pos))
    ensures r.Ok? ==> input.pos == old(input.pos) + 17
  {
    var bitOffset :- input.ReadU8();
    var byteOffset :- input.ReadI32();
    var bitCount :- input.ReadI32();
    var flags :- input.ReadI32();
    var invalidationBit :- input.ReadI32();
    return Ok(Layout(bitOffset, byteOffset, bitCount, flags, invalidationBit));
  }

  method ReadPrecision(input: ByteInput) returns (r: Result<(int8, int16)>)
    requires input.Valid()
    modifies input
    ensures input.Valid() && input.bytes == old(input.bytes)
    ensures r == PrecisionAt(old(input.bytes), old(input.pos))
    ensures r.Ok? ==> input.pos == old(input.pos) + 4
  {
    var precision :- input.ReadU8();
    var _ :- input.Skip(1);
    var attachmentCount :- input.ReadI16();
    return Ok((precision, attachmentCount));
  }

  method ReadRange(input: ByteInput) returns (r: Result<Range>)
    requires input.Valid()
    modifies input
    ensures input.Valid() && input.bytes == old(input.bytes)
    ensures r == RangeAt(old(input.bytes), old(input.pos))
    ensures r.Ok? ==> input.pos == old(input.pos) + 16
  {
    var lower :- input.ReadI64();
    var upper :- input.ReadI64();
    return Ok(Range(lower, upper));
  }

  method ReadRanges(input: ByteInput) returns (r: Result<(Range, Range, Range)>)
    requires input.Valid()
    modifies input
    ensures input.Valid() && input.bytes == old(input.bytes)
    ensures r == RangesAt(old(input.bytes), old(input.pos))
    ensures r.Ok? ==> input.pos == old(input.pos) + 48
  {
    var valueRange :- ReadRange(input);
    var limit :- ReadRange(input);
    var limitExtended :- ReadRange(input);
    return Ok((valueRange, limit, limitExtended));
  }

  // ---------------------------------------------------------------------
  // getPrecision.

  /**
   * getPrecision: nothing without PRECISION_VALID; otherwise the precision
   * byte unsigned, with 0xFF standing for Integer.MAX_VALUE.
   */
  function GetPrecision(c: ChannelBlock): (r: Option<int32>)
    ensures r.Some? <==> c.flags.IsSet(PRECISION_VALID)
    ensures r.Some? && c.precision == Wrap8(0xFF) ==> r.value == INT_MAX
    ensures r.Some? && c.precision != Wrap8(0xFF) ==> r.value == Unsigned(c.precision, 8) && 0 <= r.value < 0xFF
  {
    UnsignedByte(c.precision);
    if c.flags.IsSet(PRECISION_VALID) then
      if c.precision == Wrap8(0xFF) then Some(INT_MAX)
      else Some(Unsigned(c.precision, 8))
    else None
  }

  /** Byte.toUnsignedInt, and (byte) 0xFF is the byte -1. */
  lemma {:induction false} UnsignedByte(b: int8)
    ensures Unsigned(b, 8) == if b >= 0 then b else b + 0x100
    ensures Wrap8(0xFF) == -1
  {
    Pow2Values();
    if b >= 0 {
      DivModUnique(b, 0x100, 0, b);
    } else {
      DivModUnique(b, 0x100, -1, b + 0x100);
    }
    DivModUnique(0xFF, 0x100, 0, 0xFF);
  }

  // ---------------------------------------------------------------------
  // ChannelBlock.Iterator: follows the next-channel links.

  class Iterator {
    var next: Link

    constructor(start: Link)
      ensures next == start
    {
      next := start;
    }

    /** hasNext: a channel is left exactly when the next link is not NIL (address 0). */
    function HasNext(): (b: bool)
      reads this
      ensures b <==> next.raw != 0
    {
      !next.IsNil()
    }

    /**
     * next(): the channel at the next link, whose own next link is followed
     * afterwards; a NIL link resolves to nothing, and orElseThrow throws.
     */
    method Next(input: ByteInput) returns (r: Result<ChannelBlock>)
      requires input.Valid()
      modifies this, input
      ensures input.Valid() && input.bytes == old(input.bytes)
      ensures old(next).IsNil() ==> r == Err(NoSuchElement("No value present")) && next == old(next)
      ensures !old(next).IsNil() && SeekCheck(old(next).raw, |input.bytes|).Err? ==>
                r == Err(SeekCheck(old(next).raw, |input.bytes|).error) && next == old(next)
      ensures !old(next).IsNil() && SeekCheck(old(next).raw, |input.bytes|).Ok? ==>
                r == ChannelAt(input.bytes, old(next).raw)
      ensures r.Ok? ==> next == r.value.nextChannel
      ensures r.Err? ==> next == old(next)
    {
      if next.IsNil() {
        return Err(NoSuchElement("No value present"));
      }
      var seek := input.Seek(next.raw);
      if seek.Err? {
        return Err(seek.error);
      }
      r := ParseChannel(input);
      if r.Ok? {
        next := r.value.nextChannel;
      }
    }
  }
}
