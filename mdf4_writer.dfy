// Mdf4Writer: writes the identification block, block headers and the header
// block of a new MDF file through the byte cursor, and finalizes the file by
// replacing the unfinished-file magic.

module Mdf4Writers {
  import opened JavaTypes
  import opened Results
  import opened Text
  import opened Io
  import opened BlockTypeIds
  import opened BlockHeaders
  import opened Links
  import opened Flags
  import opened MdfFormatVersions
  import opened IdBlocks

  /** Mdf4File.TOOL_VERSION: the format version this writer produces. */
  const TOOL_VERSION := MdfFormatVersion(4, 2)

  /** HeaderBlock.ID: of('H', 'D'). */
  function HeaderBlockId(): BlockTypeId {
    OfChars('H' as int, 'D' as int)
  }

  // ---------------------------------------------------------------------
  // Block headers.

  /** The raw addresses of the links, in order. */
  function Raws(links: seq<Link>): (r: seq<int64>)
    ensures |r| == |links| && forall i :: 0 <= i < |links| ==> r[i] == links[i].raw
  {
    seq(|links|, i requires 0 <= i < |links| => links[i].raw)
  }

  /** The links written one after the other, eight little-endian bytes each. */
  function LinksBytes(links: seq<Link>): (r: seq<byte>)
    ensures |r| == 8 * |links|
  {
    seq(8 * |links|, j requires 0 <= j < 8 * |links| => LeBytes(links[j / 8].raw, 8)[j % 8])
  }

  /** Link i of written links is found at offset 8 * i. */
  lemma {:induction false} LinksBytesAt(t: seq<byte>, q: int, links: seq<Link>, i: nat)
    requires 0 <= q && q + 8 * |links| <= |t| && i < |links|
    requires t[q..q + 8 * |links|] == LinksBytes(links)
    ensures t[q + 8 * i..q + 8 * i + 8] == LeBytes(links[i].raw, 8)
  {
    LinkBytesAt(links, i);
    SubSliceAt(t, q, LinksBytes(links), 8 * |links|, 8 * i, 8 * i + 8, q + 8 * i, q + 8 * i + 8);
  }

  /** Link i is the eight bytes at offset 8 * i of the written links. */
  lemma {:induction false} LinkBytesAt(links: seq<Link>, i: nat)
    requires i < |links|
    ensures LinksBytes(links)[8 * i..8 * i + 8] == LeBytes(links[i].raw, 8)
  {
    forall k | 0 <= k < 8
      ensures LinksBytes(links)[8 * i..8 * i + 8][k] == LeBytes(links[i].raw, 8)[k]
    {
      LinksByte(links, i, k);
    }
  }

  lemma {:induction false} LinksByte(links: seq<Link>, i: nat, k: nat)
    requires i < |links| && k < 8
    ensures LinksBytes(links)[8 * i + k] == LeBytes(links[i].raw, 8)[k]
  {
    DivModUnique(8 * i + k, 8, i, k);
  }

  /** The length field: dataLength + 24 + 8 * n in long arithmetic. */
  function LengthField(dataLength: int64, n: nat): int64 {
    Wrap64(dataLength + 24 + 8 * n)
  }

  /** The fixed 24 bytes writeBlockHeader emits first: id, 4 padding bytes, length, link count. */
  function HeaderFixedBytes(id: int32, n: nat, dataLength: int64): (r: seq<byte>)
    ensures |r| == 24
  {
    LeBytes(id, 4) + Zeros(4) + LeBytes(LengthField(dataLength, n), 8) + LeBytes(n, 8)
  }

  /** What writeBlockHeader emits: the fixed fields, then the links. */
  function BlockHeaderBytes(typeId: BlockTypeId, links: seq<Link>, dataLength: int64): (r: seq<byte>)
    ensures |r| == 24 + 8 * |links|
  {
    HeaderFixedBytes(typeId.id, |links|, dataLength) + LinksBytes(links)
  }

  /** The header after the length field is recovered: getDataLength gives dataLength back. */
  lemma {:induction false} DataLengthOfLengthField(dataLength: int64, links: seq<int64>)
    ensures BlockHeader(LengthField(dataLength, |links|), links).DataLength() == dataLength
  {
    var n := |links|;
    var l := LengthField(dataLength, n);
    var d := BlockHeader(l, links).DataLength();
    Pow2Values();
    MultiplesAdd(d - (l - 24 - 8 * n), l - (dataLength + 24 + 8 * n), 0x1_0000_0000_0000_0000);
    assert d - (l - 24 - 8 * n) + (l - (dataLength + 24 + 8 * n)) == d - dataLength;
    SameLong(d, dataLength);
  }

  lemma {:induction false} MultiplesAdd(a: int, b: int, m: int)
    requires m > 0 && a % m == 0 && b % m == 0
    ensures (a + b) % m == 0
  {
    DivExact(b, m);
    ModAddMultiple(a, b / m, m);
  }

  /** Two longs that agree modulo 2^64 are equal. */
  lemma {:induction false} SameLong(x: int64, y: int64)
    requires (x - y) % 0x1_0000_0000_0000_0000 == 0
    ensures x == y
  {
    DivExact(x - y, 0x1_0000_0000_0000_0000);
  }

  /** The links read back from written link bytes are the links' addresses. */
  lemma {:induction false} WrittenLinksParse(t: seq<byte>, q: int, links: seq<Link>)
    requires 0 <= q && q + 8 * |links| <= |t|
    requires t[q..q + 8 * |links|] == LinksBytes(links)
    ensures LinksAt(t, q, |links|) == Ok(Raws(links))
  {
    var r := LinksAt(t, q, |links|);
    assert r.Ok?;
    var raws := Raws(links);
    forall i | 0 <= i < |links|
      ensures r.value[i] == raws[i]
    {
      LinksBytesAt(t, q, links, i);
      SignedLeOfLong(links[i].raw);
    }
    assert r.value == raws;
  }

  /**
   * A header that writeBlockHeader wrote parses back with the same type id,
   * the same links in order, and the data length it was written with.
   */
  lemma {:induction false} WrittenHeaderParses(t: seq<byte>, p: int, typeId: BlockTypeId, links: seq<Link>, dataLength: int64)
    requires 0 <= p && p + 24 + 8 * |links| <= |t| <= INT_MAX
    requires t[p..p + 24 + 8 * |links|] == BlockHeaderBytes(typeId, links, dataLength)
    ensures HeaderAt(t, p, typeId) == Ok(BlockHeader(LengthField(dataLength, |links|), Raws(links)))
    ensures HeaderAt(t, p, typeId).value.DataLength() == dataLength
  {
    WrittenHeaderReads(t, p, typeId, links, dataLength);
    DataLengthOfLengthField(dataLength, Raws(links));
  }

  lemma {:induction false} WrittenHeaderReads(t: seq<byte>, p: int, typeId: BlockTypeId, links: seq<Link>, dataLength: int64)
    requires 0 <= p && p + 24 + 8 * |links| <= |t| <= INT_MAX
    requires t[p..p + 24 + 8 * |links|] == BlockHeaderBytes(typeId, links, dataLength)
    ensures HeaderAt(t, p, typeId) == Ok(BlockHeader(LengthField(dataLength, |links|), Raws(links)))
  {
    WrittenHeaderFields(t, p, typeId, links, dataLength);
    WrittenHeaderLinks(t, p, typeId, links, dataLength);
    HeaderOfFields(t, p, typeId, LengthField(dataLength, |links|), Raws(links));
  }

  /** The fixed fields of a written header. */
  lemma {:induction false} WrittenHeaderFields(t: seq<byte>, p: int, typeId: BlockTypeId, links: seq<Link>, dataLength: int64)
    requires 0 <= p && p + 24 + 8 * |links| <= |t| <= INT_MAX
    requires t[p..p + 24 + 8 * |links|] == BlockHeaderBytes(typeId, links, dataLength)
    ensures I32At(t, p) == Ok(typeId.id)
    ensures I64At(t, p + 8) == Ok(LengthField(dataLength, |links|))
    ensures I64At(t, p + 16) == Ok(|links|)
  {
    var u := BlockHeaderBytes(typeId, links, dataLength);
    BlockHeaderPieces(typeId, links, dataLength);
    I32InPiece(t, p, u, 24 + 8 * |links|, 0, p, typeId.id);
    I64InPiece(t, p, u, 24 + 8 * |links|, 8, p + 8, LengthField(dataLength, |links|));
    I64InPiece(t, p, u, 24 + 8 * |links|, 16, p + 16, |links|);
  }

  /** The links of a written header read back. */
  lemma {:induction false} WrittenHeaderLinks(t: seq<byte>, p: int, typeId: BlockTypeId, links: seq<Link>, dataLength: int64)
    requires 0 <= p && p + 24 + 8 * |links| <= |t| <= INT_MAX
    requires t[p..p + 24 + 8 * |links|] == BlockHeaderBytes(typeId, links, dataLength)
    ensures LinksAt(t, p + 24, |links|) == Ok(Raws(links))
  {
    WrittenLinksSlice(t, p, typeId, links, dataLength);
    WrittenLinksParse(t, p + 24, links);
  }

  /** Where the links of a written header are. */
  lemma {:induction false} WrittenLinksSlice(t: seq<byte>, p: int, typeId: BlockTypeId, links: seq<Link>, dataLength: int64)
    requires 0 <= p && p + 24 + 8 * |links| <= |t|
    requires t[p..p + 24 + 8 * |links|] == BlockHeaderBytes(typeId, links, dataLength)
    ensures t[p + 24..p + 24 + 8 * |links|] == LinksBytes(links)
  {
    BlockHeaderPieces(typeId, links, dataLength);
    SubSliceAt(t, p, BlockHeaderBytes(typeId, links, dataLength), 24 + 8 * |links|, 24, 24 + 8 * |links|,
               p + 24, p + 24 + 8 * |links|);
  }

  /** Where the fields of a block header sit in its bytes. */
  lemma {:induction false} BlockHeaderPieces(typeId: BlockTypeId, links: seq<Link>, dataLength: int64)
    ensures BlockHeaderBytes(typeId, links, dataLength)[0..0 + 4] == LeBytes(typeId.id, 4)
    ensures BlockHeaderBytes(typeId, links, dataLength)[8..8 + 8] == LeBytes(LengthField(dataLength, |links|), 8)
    ensures BlockHeaderBytes(typeId, links, dataLength)[16..16 + 8] == LeBytes(|links|, 8)
    ensures BlockHeaderBytes(typeId, links, dataLength)[24..24 + 8 * |links|] == LinksBytes(links)
  {
    FivePieces(LeBytes(typeId.id, 4), Zeros(4), LeBytes(LengthField(dataLength, |links|), 8), LeBytes(|links|, 8),
               LinksBytes(links), 8 * |links|);
  }

  /** Where the pieces of a + b + c + d + e sit, for pieces of 4, 4, 8, 8 and m bytes. */
  lemma {:induction false} FivePieces(a: seq<byte>, b: seq<byte>, c: seq<byte>, d: seq<byte>, e: seq<byte>, m: int)
    requires |a| == 4 && |b| == 4 && |c| == 8 && |d| == 8 && |e| == m
    ensures (a + b + c + d + e)[0..0 + 4] == a
    ensures (a + b + c + d + e)[8..8 + 8] == c
    ensures (a + b + c + d + e)[16..16 + 8] == d
    ensures (a + b + c + d + e)[24..24 + m] == e
  {
    var r := a + b + c + d + e;
    assert r[..24] == a + b + c + d;
    assert r[24..24 + m] == e;
    assert r[..24][..16] == a + b + c;
    assert r[..24][16..] == d;
    assert r[..16][8..] == c;
    assert r[..8][..4] == a;
  }

  /** Appending the bytes of link i to those of the links before it. */
  lemma {:induction false} LinksBytesSnoc(links: seq<Link>, i: nat)
    requires i < |links|
    ensures LinksBytes(links[..i + 1]) == LinksBytes(links[..i]) + LeBytes(links[i].raw, 8)
  {
    var l, r := LinksBytes(links[..i + 1]), LinksBytes(links[..i]) + LeBytes(links[i].raw, 8);
    forall j | 0 <= j < 8 * i + 8
      ensures l[j] == r[j]
    {
      if j < 8 * i {
        assert links[..i + 1][j / 8] == links[..i][j / 8];
      } else {
        DivModUnique(j, 8, i, j - 8 * i);
      }
    }
    assert l == r;
  }

  // ---------------------------------------------------------------------
  // The header block (HD).

  /** TimeStamp: nanoseconds, zone and daylight-saving offsets in minutes, flags. */
  datatype TimeStamp = TimeStamp(time: int64, timeZoneOffsetMin: int32, dstOffsetMin: int32, timeFlags: BitFlags)

  /**
   * The fields of HeaderBlock that writeHeader writes. The two doubles are
   * given by their 64-bit patterns; timeClass is the raw byte of its value.
   */
  datatype HeaderBlock = HeaderBlock(
    firstDataGroup: Link, firstFileHistory: int64, firstChannelHierarchy: int64,
    firstAttachment: int64, firstEventBlock: int64, comment: Link,
    startTime: TimeStamp, timeClass: int8, headerFlags: BitFlags,
    startAngleRad: int64, startDistanceM: int64)

  /** The six links of the header block, in the order writeHeader lists them. */
  function HeaderLinks(h: HeaderBlock): (r: seq<Link>)
    ensures |r| == 6
    ensures r[0] == h.firstDataGroup && r[5] == h.comment
    ensures r[1].raw == h.firstFileHistory && r[2].raw == h.firstChannelHierarchy
    ensures r[3].raw == h.firstAttachment && r[4].raw == h.firstEventBlock
  {
    [h.firstDataGroup, Link(h.firstFileHistory), Link(h.firstChannelHierarchy),
     Link(h.firstAttachment), Link(h.firstEventBlock), h.comment]
  }

  /** TimeStamp.write: long, short, short, byte. */
  function TimeStampBytes(ts: TimeStamp): (r: seq<byte>)
    ensures |r| == 13
  {
    LeBytes(ts.time, 8) + LeBytes(Wrap16(ts.timeZoneOffsetMin), 2) + LeBytes(Wrap16(ts.dstOffsetMin), 2)
      + LeBytes(ts.timeFlags.AsByte(), 1)
  }

  /** The header block: its block header, then its 32 data bytes in the order writeHeader writes them. */
  /** The bytes of the header block after the start time. */
  function HeaderFieldsBytes(h: HeaderBlock): (r: seq<byte>) {
    LeBytes(h.timeClass, 1) + LeBytes(h.headerFlags.AsByte(), 1) + Zeros(1) + LeBytes(h.startAngleRad, 8)
      + LeBytes(h.startDistanceM, 8)
  }

  function HeaderBlockBytes(h: HeaderBlock): (r: seq<byte>)
    ensures |r| == 104
  {
    BlockHeaderBytes(HeaderBlockId(), HeaderLinks(h), 32) + TimeStampBytes(h.startTime) + HeaderFieldsBytes(h)
  }

  /** The first piece of a + b + c, m bytes long, comes first. */
  lemma {:induction false} FirstOfThree(a: seq<byte>, b: seq<byte>, c: seq<byte>, m: int)
    requires |a| == m
    ensures (a + b + c)[0..m] == a
  {
    var r := a + b + c;
    assert forall i :: 0 <= i < m ==> r[i] == a[i];
  }

  /**
   * A header block that writeHeader wrote passes parseExpecting(ID, input,
   * 6, 24) with its six links in order and 32 data bytes.
   */
  lemma {:induction false} WrittenHeaderBlockParses(t: seq<byte>, p: int, h: HeaderBlock)
    requires 0 <= p && p + 104 <= |t| <= INT_MAX
    requires t[p..p + 104] == HeaderBlockBytes(h)
    ensures ExpectingAt(t, p, HeaderBlockId(), 6, 24) == Ok(BlockHeader(104, Raws(HeaderLinks(h))))
    ensures ExpectingAt(t, p, HeaderBlockId(), 6, 24).value.DataLength() == 32
  {
    HeaderOfHeaderBlock(t, p, h);
    WrittenHeaderParses(t, p, HeaderBlockId(), HeaderLinks(h), 32);
    LengthField104();
    ExpectingOfHeader(t, p, HeaderBlockId(), 6, 24, BlockHeader(104, Raws(HeaderLinks(h))));
  }

  /** A header with enough links and data bytes passes parseExpecting unchanged. */
  lemma {:induction false} ExpectingOfHeader(s: seq<byte>, p: int, expected: BlockTypeId, links: int32, minimumSize: int32,
                                             h: BlockHeader)
    requires 0 <= p <= |s| <= INT_MAX
    requires HeaderAt(s, p, expected) == Ok(h)
    requires |h.links| >= links && h.DataLength() >= minimumSize
    ensures ExpectingAt(s, p, expected, links, minimumSize) == Ok(h)
  {
  }

  /** A written header block starts with the block header writeBlockHeader wrote. */
  lemma {:induction false} HeaderOfHeaderBlock(t: seq<byte>, p: int, h: HeaderBlock)
    requires 0 <= p && p + 104 <= |t|
    requires t[p..p + 104] == HeaderBlockBytes(h)
    ensures t[p..p + 24 + 8 * |HeaderLinks(h)|] == BlockHeaderBytes(HeaderBlockId(), HeaderLinks(h), 32)
  {
    var ls := HeaderLinks(h);
    var hb := BlockHeaderBytes(HeaderBlockId(), ls, 32);
    FirstOfThree(hb, TimeStampBytes(h.startTime), HeaderFieldsBytes(h), 72);
    SubSliceAt(t, p, HeaderBlockBytes(h), 104, 0, 72, p, p + 72);
  }

  lemma {:induction false} LengthField104()
    ensures LengthField(32, 6) == 104
  {
    Pow2Values();
    WrapBitsInRange(104, 64);
  }

  // ---------------------------------------------------------------------
  // The identification block.

  /** major + "." + minor + "    ", as writeIdBlock concatenates it. */
  function VersionTextAsWritten(v: MdfFormatVersion): string {
    IntToString(v.major) + "." + IntToString(v.minor) + "    "
  }

  /** The version text with the minor number zero-padded to the two digits the reader expects. */
  function WrittenVersionText(v: MdfFormatVersion): string {
    IntToString(v.major) + "." + (if 0 <= v.minor < 10 then "0" else "") + IntToString(v.minor) + "    "
  }

  /** For every version the format can express, the padded text is the one the reader parses. */
  lemma {:induction false} WrittenVersionTextIsVersionText(v: MdfFormatVersion)
    requires Expressible(v)
    ensures WrittenVersionText(v) == VersionText(v)
  {
    if v.minor >= 10 {
      DivModUnique(v.minor / 10, 10, 0, v.minor / 10);
      assert NatToString(v.minor) == [DigitChar(v.minor / 10), DigitChar(v.minor % 10)];
    } else {
      DivModUnique(v.minor, 10, 0, v.minor);
    }
  }

  /** The program id field: "mdf4j" padded with NULs to eight characters. */
  const PROGRAM_ID: string := "mdf4j\0\0\0"

  /** Everything writeIdBlock writes after the magic, for a given version text. */
  function IdBlockTail(v: MdfFormatVersion, versionText: string): seq<byte> {
    Latin1Encode(versionText) + Latin1Encode(PROGRAM_ID) + LeBytes(0, 2) + LeBytes(0, 2)
      + LeBytes(Wrap16(v.AsInt()), 2) + LeBytes(0, 2) + Zeros(28) + LeBytes(0, 2) + LeBytes(0, 2)
  }

  /** writeIdBlock as written: the unpadded version text after the unfinished-file magic. */
  function IdBlockBytesAsWritten(v: MdfFormatVersion): seq<byte> {
    Latin1Encode(UNFINISHED_FILE_MAGIC) + IdBlockTail(v, VersionTextAsWritten(v))
  }

  /** writeIdBlock with the padded version text, under the given magic. */
  function IdBlockBytes(magic: string, v: MdfFormatVersion): seq<byte> {
    Latin1Encode(magic) + IdBlockTail(v, WrittenVersionText(v))
  }

  /** Where the fields sit in the tail of an identification block, for a version text of n characters. */
  lemma {:induction false} TailPieces(a: seq<byte>, b: seq<byte>, c: seq<byte>, d: seq<byte>, e: seq<byte>,
                                      f: seq<byte>, g: seq<byte>, h: seq<byte>, i: seq<byte>, n: int)
    requires |a| == n && |b| == 8 && |c| == 2 && |d| == 2 && |e| == 2 && |f| == 2 && |g| == 28 && |h| == 2 && |i| == 2
    ensures (a + b + c + d + e + f + g + h + i)[0..n] == a
    ensures (a + b + c + d + e + f + g + h + i)[n..n + 8] == b
    ensures (a + b + c + d + e + f + g + h + i)[n + 8..n + 8 + 2] == c
    ensures (a + b + c + d + e + f + g + h + i)[n + 10..n + 10 + 2] == d
    ensures (a + b + c + d + e + f + g + h + i)[n + 12..n + 12 + 2] == e
    ensures (a + b + c + d + e + f + g + h + i)[n + 14..n + 14 + 2] == f
    ensures (a + b + c + d + e + f + g + h + i)[n + 44..n + 44 + 2] == h
    ensures (a + b + c + d + e + f + g + h + i)[n + 46..n + 46 + 2] == i
  {
    var r := a + b + c + d + e + f + g + h + i;
    assert forall k :: 0 <= k < n ==> r[k] == a[k];
    assert forall k :: 0 <= k < 8 ==> r[n + k] == b[k];
    assert forall k :: 0 <= k < 2 ==> r[n + 8 + k] == c[k];
    assert forall k :: 0 <= k < 2 ==> r[n + 10 + k] == d[k];
    assert forall k :: 0 <= k < 2 ==> r[n + 12 + k] == e[k];
    assert forall k :: 0 <= k < 2 ==> r[n + 14 + k] == f[k];
    assert forall k :: 0 <= k < 2 ==> r[n + 44 + k] == h[k];
    assert forall k :: 0 <= k < 2 ==> r[n + 46 + k] == i[k];
  }

  /** The fields of IdBlockTail at their offsets, for a version text of n characters. */
  lemma {:induction false} IdBlockTailPieces(v: MdfFormatVersion, text: string, n: int)
    requires |text| == n
    ensures IdBlockTail(v, text)[0..n] == Latin1Encode(text)
    ensures IdBlockTail(v, text)[n..n + 8] == Latin1Encode(PROGRAM_ID)
    ensures IdBlockTail(v, text)[n + 8..n + 8 + 2] == LeBytes(0, 2)
    ensures IdBlockTail(v, text)[n + 10..n + 10 + 2] == LeBytes(0, 2)
    ensures IdBlockTail(v, text)[n + 12..n + 12 + 2] == LeBytes(Wrap16(v.AsInt()), 2)
    ensures IdBlockTail(v, text)[n + 14..n + 14 + 2] == LeBytes(0, 2)
    ensures IdBlockTail(v, text)[n + 44..n + 44 + 2] == LeBytes(0, 2)
    ensures IdBlockTail(v, text)[n + 46..n + 46 + 2] == LeBytes(0, 2)
    ensures |IdBlockTail(v, text)| == n + 48
  {
    TailPieces(Latin1Encode(text), Latin1Encode(PROGRAM_ID), LeBytes(0, 2), LeBytes(0, 2),
               LeBytes(Wrap16(v.AsInt()), 2), LeBytes(0, 2), Zeros(28), LeBytes(0, 2), LeBytes(0, 2), n);
  }

  lemma {:induction false} IdBlockLength(magic: string, v: MdfFormatVersion)
    requires |magic| == 8 && Expressible(v)
    ensures |WrittenVersionText(v)| == 8
    ensures |IdBlockTail(v, WrittenVersionText(v))| == 56
    ensures |IdBlockBytes(magic, v)| == 64
  {
    WrittenVersionTextIsVersionText(v);
    IdBlockTailPieces(v, WrittenVersionText(v), 8);
  }

  /** The version text of a version survives Latin-1 encoding. */
  lemma {:induction false} VersionTextLatin1(v: MdfFormatVersion)
    requires Expressible(v)
    ensures Latin1Decode(Latin1Encode(VersionText(v))) == VersionText(v)
  {
    Latin1RoundTrip(VersionText(v));
  }

  /** The magic, version text and program id of an identification block whose tail writeIdBlock wrote. */
  lemma {:induction false} IdBlockTextsParse(t: seq<byte>, magic: string, v: MdfFormatVersion)
    requires Expressible(v) && (magic == UNFINISHED_FILE_MAGIC || magic == FILE_MAGIC)
    requires 64 <= |t| <= INT_MAX
    requires t[0..8] == Latin1Encode(magic)
    requires t[8..64] == IdBlockTail(v, WrittenVersionText(v))
    ensures Latin1Decode(t[0..8]) == magic
    ensures VersionAt(t, 8) == Ok(v)
    ensures t[16..24] == Latin1Encode(PROGRAM_ID)
  {
    var text := WrittenVersionText(v);
    var u := IdBlockTail(v, text);
    IdBlockLength(magic, v);
    IdBlockTailPieces(v, text, 8);
    Latin1RoundTrip(magic);
    SubSliceAt(t, 8, u, 56, 0, 8, 8, 16);
    WrittenVersionTextIsVersionText(v);
    VersionTextLatin1(v);
    VersionTextRoundTrip(v);
    SubSliceAt(t, 8, u, 56, 8, 16, 16, 24);
  }

  /** The six shorts of an identification block whose tail writeIdBlock wrote. */
  lemma {:induction false} IdBlockShortsParse(t: seq<byte>, v: MdfFormatVersion)
    requires Expressible(v)
    requires 64 <= |t| <= INT_MAX
    requires t[8..64] == IdBlockTail(v, WrittenVersionText(v))
    ensures I16At(t, 24) == Ok(0) && I16At(t, 26) == Ok(0) && I16At(t, 28) == Ok(Wrap16(v.AsInt()))
    ensures I16At(t, 30) == Ok(0) && I16At(t, 60) == Ok(0) && I16At(t, 62) == Ok(0)
  {
    var u := IdBlockTail(v, WrittenVersionText(v));
    IdBlockLength(FILE_MAGIC, v);
    IdBlockTailPieces(v, WrittenVersionText(v), 8);
    I16InPiece(t, 8, u, 56, 16, 24, 0);
    I16InPiece(t, 8, u, 56, 18, 26, 0);
    I16InPiece(t, 8, u, 56, 20, 28, Wrap16(v.AsInt()));
    I16InPiece(t, 8, u, 56, 22, 30, 0);
    I16InPiece(t, 8, u, 56, 52, 60, 0);
    I16InPiece(t, 8, u, 56, 54, 62, 0);
  }

  /** The program id the writer puts after the version text. */
  lemma {:induction false} ProgramIdOfTool()
    ensures ProgramId(Latin1Decode(Latin1Encode(PROGRAM_ID))) == "mdf4j"
  {
    Latin1RoundTrip(PROGRAM_ID);
    assert PROGRAM_ID[..5] == "mdf4j";
    Arrays.FirstIndexIsUnique(PROGRAM_ID, '\0', 5);
  }

  /** asInt of an expressible version is below 1000, so the short cast keeps it. */
  lemma {:induction false} AsIntFitsShort(v: MdfFormatVersion)
    requires Expressible(v)
    ensures 0 <= v.AsInt() < 1000 && Wrap16(v.AsInt()) == v.AsInt()
  {
    Pow2Values();
    WrapBitsInRange(v.AsInt(), 16);
  }

  /** IdBlock.parse on fields that hold what writeIdBlock writes. */
  lemma {:induction false} IdBlockOfFields(t: seq<byte>, magic: string, v: MdfFormatVersion)
    requires Expressible(v) && (magic == UNFINISHED_FILE_MAGIC || magic == FILE_MAGIC)
    requires 64 <= |t| <= INT_MAX
    requires Latin1Decode(t[0..8]) == magic && VersionAt(t, 8) == Ok(v)
    requires t[16..24] == Latin1Encode(PROGRAM_ID)
    requires I16At(t, 24) == Ok(0) && I16At(t, 26) == Ok(0) && I16At(t, 28) == Ok(Wrap16(v.AsInt()))
    requires I16At(t, 30) == Ok(0) && I16At(t, 60) == Ok(0) && I16At(t, 62) == Ok(0)
    ensures magic == UNFINISHED_FILE_MAGIC ==>
              IdBlockAt(t, 0) == Ok(IdBlock(v, "mdf4j", Some(OfShort(0, UnfinalizedFlagConstants)), Some(0)))
    ensures magic == FILE_MAGIC ==> IdBlockAt(t, 0) == Ok(IdBlock(v, "mdf4j", None, None))
  {
    ProgramIdOfTool();
    AsIntFitsShort(v);
    assert FieldsAt(t, 8) == Ok(Fields(v, Latin1Encode(PROGRAM_ID), 0, 0, v.AsInt(), 0));
  }

  /**
   * With the padded text, every expressible version survives: the 64 bytes
   * parse as an unfinished file of that version written by "mdf4j", with
   * no unfinalized flags set.
   */
  lemma {:induction false} WrittenIdBlockParses(t: seq<byte>, v: MdfFormatVersion)
    requires Expressible(v)
    requires 64 <= |t| <= INT_MAX && t[0..64] == IdBlockBytes(UNFINISHED_FILE_MAGIC, v)
    ensures IdBlockAt(t, 0) == Ok(IdBlock(v, "mdf4j", Some(OfShort(0, UnfinalizedFlagConstants)), Some(0)))
  {
    var tail := IdBlockTail(v, WrittenVersionText(v));
    IdBlockLength(UNFINISHED_FILE_MAGIC, v);
    SplitFirst(t, 0, IdBlockBytes(UNFINISHED_FILE_MAGIC, v), Latin1Encode(UNFINISHED_FILE_MAGIC), tail, 8, 64);
    SplitSecond(t, 0, IdBlockBytes(UNFINISHED_FILE_MAGIC, v), Latin1Encode(UNFINISHED_FILE_MAGIC), tail, 64, 8, 64);
    IdBlockTextsParse(t, UNFINISHED_FILE_MAGIC, v);
    IdBlockShortsParse(t, v);
    IdBlockOfFields(t, UNFINISHED_FILE_MAGIC, v);
  }

  /**
   * After finalizeFile, the same block parses as a finished file: the
   * version and program id are kept and the unfinalized flags are gone.
   */
  lemma {:induction false} FinalizedIdBlockParses(t: seq<byte>, v: MdfFormatVersion)
    requires Expressible(v)
    requires 64 <= |t| <= INT_MAX && t[0..64] == IdBlockBytes(UNFINISHED_FILE_MAGIC, v)
    ensures IdBlockAt(Overwrite(t, 0, Latin1Encode(FILE_MAGIC)), 0) == Ok(IdBlock(v, "mdf4j", None, None))
  {
    var f := Overwrite(t, 0, Latin1Encode(FILE_MAGIC));
    var tail := IdBlockTail(v, WrittenVersionText(v));
    IdBlockLength(UNFINISHED_FILE_MAGIC, v);
    SplitSecond(t, 0, IdBlockBytes(UNFINISHED_FILE_MAGIC, v), Latin1Encode(UNFINISHED_FILE_MAGIC), tail, 64, 8, 64);
    OverwriteBeyond(t, 0, Latin1Encode(FILE_MAGIC), 8, 64);
    assert f[0..8] == Latin1Encode(FILE_MAGIC);
    IdBlockTextsParse(f, FILE_MAGIC, v);
    IdBlockShortsParse(f, v);
    IdBlockOfFields(f, FILE_MAGIC, v);
  }

  /** "4.2    ": the text writeIdBlock builds for TOOL_VERSION. */
  lemma {:induction false} ToolVersionTextAsWritten()
    ensures VersionTextAsWritten(TOOL_VERSION) == "4.2    "
  {
  }

  /** "4.02    ": the padded text the corrected writer builds for TOOL_VERSION. */
  lemma {:induction false} ToolVersionTextCorrected()
    ensures WrittenVersionText(TOOL_VERSION) == "4.02    "
  {
  }

  /** The eight characters the reader takes as the version text from the block as written. */
  lemma {:induction false} RejectedVersionBytes(t: seq<byte>)
    requires 23 <= |t| && t[8..15] == Latin1Encode("4.2    ") && t[15..23] == Latin1Encode(PROGRAM_ID)
    ensures Latin1Decode(t[8..16]) == "4.2    m"
  {
    var d := Latin1Decode(t[8..16]);
    assert t[15..23][0] == t[15];
    assert forall i :: 0 <= i < 7 ==> t[8..15][i] == t[8 + i];
    assert forall i :: 0 <= i < 8 ==> d[i] as int == t[8 + i];
  }

  /**
   * As written, the tool version 4.2 becomes the seven characters "4.2    ",
   * so the block is 63 bytes long and the reader, taking eight characters,
   * rejects the version text "4.2    m".
   */
  lemma {:induction false} ToolVersionTextRejected(t: seq<byte>)
    requires 63 <= |t| <= INT_MAX
    requires t[0..63] == IdBlockBytesAsWritten(TOOL_VERSION)
    ensures |IdBlockBytesAsWritten(TOOL_VERSION)| == 63
    ensures IdBlockAt(t, 0) == Err(FormatError("Unable to parse MDF format version, got 4.2    m"))
  {
    var text := VersionTextAsWritten(TOOL_VERSION);
    ToolVersionTextAsWritten();
    var tail := IdBlockTail(TOOL_VERSION, text);
    IdBlockTailPieces(TOOL_VERSION, text, 7);
    var u := IdBlockBytesAsWritten(TOOL_VERSION);
    SplitFirst(t, 0, u, Latin1Encode(UNFINISHED_FILE_MAGIC), tail, 8, 63);
    SplitSecond(t, 0, u, Latin1Encode(UNFINISHED_FILE_MAGIC), tail, 63, 8, 63);
    SubSliceAt(t, 8, tail, 55, 0, 7, 8, 15);
    SubSliceAt(t, 8, tail, 55, 7, 15, 15, 23);
    RejectedVersionBytes(t);
    Latin1RoundTrip(UNFINISHED_FILE_MAGIC);
    RejectedVersion(t);
  }

  lemma {:induction false} RejectedVersion(t: seq<byte>)
    requires 63 <= |t| <= INT_MAX
    requires Latin1Decode(t[0..8]) == UNFINISHED_FILE_MAGIC && Latin1Decode(t[8..16]) == "4.2    m"
    ensures IdBlockAt(t, 0) == Err(FormatError("Unable to parse MDF format version, got 4.2    m"))
  {
    assert !IsVersionText("4.2    m");
    assert FieldsAt(t, 8) == Err(FormatError("Unable to parse MDF format version, got 4.2    m"));
  }

  // ---------------------------------------------------------------------
  // The writer.

  class Mdf4Writer {
    const input: ByteInput

    constructor(input: ByteInput)
      ensures this.input == input
    {
      this.input := input;
    }

    /** writeBlockHeader: 24 + 8n bytes at the position, which moves past them. */
    method WriteBlockHeader(typeId: BlockTypeId, links: seq<Link>, dataLength: int64)
      requires input.Valid() && input.pos + 24 + 8 * |links| <= INT_MAX
      modifies input
      ensures input.Valid()
      ensures input.bytes == Overwrite(old(input.bytes), old(input.pos), BlockHeaderBytes(typeId, links, dataLength))
      ensures input.pos == old(input.pos) + 24 + 8 * |links|
    {
      ghost var b0, p0 := input.bytes, input.pos;
      WriteFixedHeader(typeId.id, |links|, dataLength);
      WriteLinks(links);
      OverwriteTwice(b0, p0, HeaderFixedBytes(typeId.id, |links|, dataLength), LinksBytes(links));
    }

    /** The four writes of writeBlockHeader before the links. */
    method WriteFixedHeader(id: int32, n: nat, dataLength: int64)
      requires input.Valid() && input.pos + 24 <= INT_MAX
      modifies input
      ensures input.Valid()
      ensures input.bytes == Overwrite(old(input.bytes), old(input.pos), HeaderFixedBytes(id, n, dataLength))
      ensures input.pos == old(input.pos) + 24
    {
      ghost var b0, p0 := input.bytes, input.pos;
      input.WriteLe(id, 4);
      ghost var w := LeBytes(id, 4);
      input.WritePaddingNext(4, b0, p0, w);
      w := w + Zeros(4);
      input.WriteLeNext(LengthField(dataLength, n), 8, b0, p0, w);
      w := w + LeBytes(LengthField(dataLength, n), 8);
      input.WriteLeNext(n, 8, b0, p0, w);
    }

    /** The loop of writeBlockHeader: each link's address as a long. */
    method WriteLinks(links: seq<Link>)
      requires input.Valid() && input.pos + 8 * |links| <= INT_MAX
      modifies input
      ensures input.Valid()
      ensures input.bytes == Overwrite(old(input.bytes), old(input.pos), LinksBytes(links))
      ensures input.pos == old(input.pos) + 8 * |links|
    {
      ghost var b0, p0 := input.bytes, input.pos;
      assert LinksBytes(links[..0]) == [];
      OverwriteNothing(b0, p0);
      for i := 0 to |links|
        invariant input.Valid()
        invariant input.pos == p0 + 8 * i
        invariant input.bytes == Overwrite(b0, p0, LinksBytes(links[..i]))
      {
        input.WriteLeNext(links[i].raw, 8, b0, p0, LinksBytes(links[..i]));
        LinksBytesSnoc(links, i);
      }
      assert links[..|links|] == links;
    }

    /** TimeStamp.write: the time, the two offsets as shorts, the flags byte. */
    method WriteTimeStamp(ts: TimeStamp)
      requires input.Valid() && input.pos + 13 <= INT_MAX
      modifies input
      ensures input.Valid()
      ensures input.bytes == Overwrite(old(input.bytes), old(input.pos), TimeStampBytes(ts))
      ensures input.pos == old(input.pos) + 13
    {
      ghost var b0, p0 := input.bytes, input.pos;
      input.WriteLe(ts.time, 8);
      ghost var w := LeBytes(ts.time, 8);
      input.WriteLeNext(Wrap16(ts.timeZoneOffsetMin), 2, b0, p0, w);
      w := w + LeBytes(Wrap16(ts.timeZoneOffsetMin), 2);
      input.WriteLeNext(Wrap16(ts.dstOffsetMin), 2, b0, p0, w);
      w := w + LeBytes(Wrap16(ts.dstOffsetMin), 2);
      input.WriteLeNext(ts.timeFlags.AsByte(), 1, b0, p0, w);
    }

    /** writeHeader: the HD block header with six links and 32 data bytes, then the data. */
    method WriteHeader(h: HeaderBlock)
      requires input.Valid() && input.pos + 104 <= INT_MAX
      modifies input
      ensures input.Valid()
      ensures input.bytes == Overwrite(old(input.bytes), old(input.pos), HeaderBlockBytes(h))
      ensures input.pos == old(input.pos) + 104
    {
      ghost var b0, p0 := input.bytes, input.pos;
      ghost var w := BlockHeaderBytes(HeaderBlockId(), HeaderLinks(h), 32);
      assert |w| == 72;
      WriteBlockHeader(HeaderBlockId(), HeaderLinks(h), 32);
      WriteHeaderBody(h, b0, p0, w);
    }

    /** The writes of writeHeader after the block header w. */
    method WriteHeaderBody(h: HeaderBlock, ghost b0: seq<byte>, ghost p0: nat, ghost w: seq<byte>)
      requires input.Valid() && input.pos + 32 <= INT_MAX
      requires p0 <= |b0| && input.bytes == Overwrite(b0, p0, w) && input.pos == p0 + |w|
      modifies input
      ensures input.Valid()
      ensures input.bytes == Overwrite(b0, p0, w + TimeStampBytes(h.startTime) + HeaderFieldsBytes(h))
      ensures input.pos == p0 + |w| + 32
    {
      WriteTimeStamp(h.startTime);
      OverwriteTwice(b0, p0, w, TimeStampBytes(h.startTime));
      WriteHeaderFields(h);
      OverwriteTwice(b0, p0, w + TimeStampBytes(h.startTime), HeaderFieldsBytes(h));
    }

    /** The writes of writeHeader after the start time. */
    method WriteHeaderFields(h: HeaderBlock)
      requires input.Valid() && input.pos + 19 <= INT_MAX
      modifies input
      ensures input.Valid()
      ensures input.bytes == Overwrite(old(input.bytes), old(input.pos), HeaderFieldsBytes(h))
      ensures input.pos == old(input.pos) + 19
    {
      ghost var b0, p0 := input.bytes, input.pos;
      input.WriteLe(h.timeClass, 1);
      ghost var w := LeBytes(h.timeClass, 1);
      input.WriteLeNext(h.headerFlags.AsByte(), 1, b0, p0, w);
      w := w + LeBytes(h.headerFlags.AsByte(), 1);
      input.WritePaddingNext(1, b0, p0, w);
      w := w + Zeros(1);
      input.WriteLeNext(h.startAngleRad, 8, b0, p0, w);
      w := w + LeBytes(h.startAngleRad, 8);
      input.WriteLeNext(h.startDistanceM, 8, b0, p0, w);
    }

    /** writeIdBlock(version), with the version text padded to the two minor digits. */
    method WriteIdBlock(version: MdfFormatVersion)
      requires input.Valid() && input.pos + |IdBlockBytes(UNFINISHED_FILE_MAGIC, version)| <= INT_MAX
      modifies input
      ensures input.Valid()
      ensures input.bytes == Overwrite(old(input.bytes), old(input.pos), IdBlockBytes(UNFINISHED_FILE_MAGIC, version))
      ensures input.pos == old(input.pos) + |IdBlockBytes(UNFINISHED_FILE_MAGIC, version)|
    {
      ghost var b0, p0 := input.bytes, input.pos;
      input.Write(Latin1Encode(UNFINISHED_FILE_MAGIC));
      WriteIdBlockTail(version);
      OverwriteTwice(b0, p0, Latin1Encode(UNFINISHED_FILE_MAGIC), IdBlockTail(version, WrittenVersionText(version)));
    }

    /** The writes of writeIdBlock after the magic. */
    method WriteIdBlockTail(version: MdfFormatVersion)
      requires input.Valid() && input.pos + |IdBlockTail(version, WrittenVersionText(version))| <= INT_MAX
      modifies input
      ensures input.Valid()
      ensures input.bytes == Overwrite(old(input.bytes), old(input.pos), IdBlockTail(version, WrittenVersionText(version)))
      ensures input.pos == old(input.pos) + |IdBlockTail(version, WrittenVersionText(version))|
    {
      ghost var b0, p0 := input.bytes, input.pos;
      input.Write(Latin1Encode(WrittenVersionText(version)));
      ghost var w := Latin1Encode(WrittenVersionText(version));
      input.WriteNext(Latin1Encode(PROGRAM_ID), b0, p0, w);
      w := w + Latin1Encode(PROGRAM_ID);
      input.WriteLeNext(0, 2, b0, p0, w);
      w := w + LeBytes(0, 2);
      input.WriteLeNext(0, 2, b0, p0, w);
      w := w + LeBytes(0, 2);
      input.WriteLeNext(Wrap16(version.AsInt()), 2, b0, p0, w);
      w := w + LeBytes(Wrap16(version.AsInt()), 2);
      input.WriteLeNext(0, 2, b0, p0, w);
      w := w + LeBytes(0, 2);
      input.WritePaddingNext(28, b0, p0, w);
      w := w + Zeros(28);
      input.WriteLeNext(0, 2, b0, p0, w);
      w := w + LeBytes(0, 2);
      input.WriteLeNext(0, 2, b0, p0, w);
    }

    /** finalizeFile: seek to 0 and write FILE_MAGIC over the unfinished magic. */
    method FinalizeFile()
      requires input.Valid()
      modifies input
      ensures input.Valid()
      ensures input.bytes == Overwrite(old(input.bytes), 0, Latin1Encode(FILE_MAGIC))
      ensures input.pos == 8
    {
      var sought := input.Seek(0);
      input.Write(Latin1Encode(FILE_MAGIC));
    }
  }

  /** Builder.create: a new writer on the input that has written the id block of TOOL_VERSION. */
  method Create(input: ByteInput) returns (w: Mdf4Writer)
    requires input.Valid() && input.pos + 64 <= INT_MAX
    modifies input
    ensures w.input == input && input.Valid()
    ensures input.bytes == Overwrite(old(input.bytes), old(input.pos), IdBlockBytes(UNFINISHED_FILE_MAGIC, TOOL_VERSION))
  {
    IdBlockLength(UNFINISHED_FILE_MAGIC, TOOL_VERSION);
    w := new Mdf4Writer(input);
    w.WriteIdBlock(TOOL_VERSION);
  }
}
