// The channel readers of RecordReaderFactory. createChannelReader checks a
// channel once and builds a reader for it; the reader then yields the
// channel's value for each record. A reader is a value of the datatype
// Reader and Read is its read method; the visitor a reader calls is the
// Value it returns. float and double values are kept as their bit patterns,
// string values as the bytes of their text together with the charset.

module RecordReaders {
  import opened JavaTypes
  import opened Bits
  import opened Results
  import opened Text
  import opened Arrays
  import opened Flags
  import Io
  import opened ChannelBlocks
  import opened RecordBuffers

  datatype Encoding = Latin1 | Utf8 | Utf16Le | Utf16Be

  /** The visit a read ends in: visitU8 ... visitF64, visitString, visitByteArray or visitInvalid. */
  datatype Value =
    | U8(u8: int8) | U16(u16: int16) | U32(u32: int32) | U64(u64: int64)
    | I8(i8: int8) | I16(i16: int16) | I32(i32: int32) | I64(i64: int64)
    | F16(halfBits: int16) | F32(floatBits: int32) | F64(doubleBits: int64)
    | Str(encoding: Encoding, text: seq<byte>)
    | Bytes(content: seq<byte>)
    | Scaled(p1: int64, p2: int64, raw: Value)   // LinearConversion: raw * p2 + p1 as a double
    | Invalid
  {
    predicate IsInteger() {
      U8? || U16? || U32? || U64? || I8? || I16? || I32? || I64?
    }
  }

  /**
   * The number an integer visit stands for: the visitU* methods carry
   * unsigned numbers in Java's signed types (Byte.toUnsignedInt and so on),
   * the visitI* methods signed ones.
   */
  function IntegerValue(x: Value): int
    requires x.IsInteger()
  {
    match x
    case U8(b) => Unsigned(b, 8)
    case U16(s) => Unsigned(s, 16)
    case U32(i) => Unsigned(i, 32)
    case U64(l) => Unsigned(l, 64)
    case I8(b) => b
    case I16(s) => s
    case I32(i) => i
    case I64(l) => l
  }

  /** A bit count the integer readers accept. */
  type IntegerBits = b: int32 | b <= 64

  /** A bit count the float readers accept. */
  type FloatBits = b: int32 | b == 16 || b == 32 || b == 64 witness 16

  /** The ValueRead objects createChannelReader builds, with the values they capture. */
  datatype Reader =
    | NoValue                                                        // NoValueRead over InvalidDeserializer
    | UnsignedRead(uOrder: ByteOrder, uOffset: int32, uBits: IntegerBits)
    | SignedRead(sOrder: ByteOrder, sOffset: int32, sBits: IntegerBits)
    | FloatRead(fOrder: ByteOrder, fOffset: int32, fBits: FloatBits)
    | StringRead(encoding: Encoding, tOffset: int32, tBytes: int32)
    | ByteArrayRead(bOffset: int32, bBytes: int32)
    | RecordIndexRead                                                // the virtual channel reader
    | LinearRead(p1: int64, p2: int64, scaled: Reader)
    | InvalidationRead(byteIndex: int32, bitMask: int32, inner: Reader)

  // ---------------------------------------------------------------------
  // Integers.

  /** (1 << bc) - 1 in int (w = 32) or long (w = 64) arithmetic. */
  function LowMask(bc: int, w: nat): int
    requires w >= 1
  {
    WrapBits(ShiftLeft(1, bc, w) - 1, w)
  }

  /** The mask of bc ones, also for bc = w - 1 where 1 << bc is negative. */
  lemma {:induction false} LowMaskValue(bc: nat, w: nat)
    requires bc < w
    ensures LowMask(bc, w) == Pow2(bc) - 1
  {
    ShiftDistance(bc, w);
    assert Pow2(w) == 2 * Pow2(w - 1);
    if bc < w - 1 {
      Pow2Monotone(bc + 1, w - 1);
      WrapBitsInRange(Pow2(bc), w);
      WrapBitsInRange(Pow2(bc) - 1, w);
    } else {
      DivModUnique(Pow2(w), Pow2(w), 1, 0);
      WrapBitsCongruent(Pow2(bc), Pow2(bc) - Pow2(w), w);
      WrapBitsInRange(Pow2(bc) - Pow2(w), w);
      DivModUnique(-Pow2(w), Pow2(w), -1, 0);
      WrapBitsCongruent(-Pow2(w - 1) - 1, Pow2(w - 1) - 1, w);
      WrapBitsInRange(Pow2(w - 1) - 1, w);
    }
  }

  /**
   * The number of bytes the masked readers read for bc bits, as written:
   * readU8, readI16, readI32 or readI64, whatever the field's own size.
   */
  function ContainerBytes(bc: int): nat {
    if bc <= 8 then 1 else if bc <= 16 then 2 else if bc <= 32 then 4 else 8
  }

  /** The bytes a field of bc bits occupies. */
  function FieldBytes(bc: int): (n: nat)
    ensures n >= 1
  {
    if bc <= 8 then 1 else (bc + 7) / 8
  }

  /**
   * An unsigned read of bc bits at offset o: one read for the exact widths,
   * otherwise the low bc bits of an n-byte read.
   */
  function UnsignedAt(v: RecordView, o: int32, bc: IntegerBits, n: nat, order: ByteOrder): Result<Value>
    requires n >= 1
  {
    if bc == 8 || bc == 16 || bc == 32 || bc == 64 then ExactUnsignedAt(v, o, bc, order)
    else if bc < 8 then MaskedByteAt(v, o, bc)
    else if bc < 16 then MaskedShortAt(v, o, bc, order)
    else if bc < 32 then MaskedIntAt(v, o, bc, n, order)
    else MaskedLongAt(v, o, bc, n, order)
  }

  /** visitU8(readU8), visitU16(readI16), visitU32(readI32) and visitU64(readI64). */
  function ExactUnsignedAt(v: RecordView, o: int32, bc: IntegerBits, order: ByteOrder): Result<Value> {
    if bc == 8 then
      var b :- ByteAt(v, o);
      Ok(U8(b))
    else if bc == 16 then
      var s :- ShortAt(v, o, order);
      Ok(U16(s))
    else if bc == 32 then
      var i :- IntAt(v, o, order);
      Ok(U32(i))
    else
      var l :- LongAt(v, o, order);
      Ok(U64(l))
  }

  /** createSmallUnsignedRead: (byte) (readU8 & mask). */
  function MaskedByteAt(v: RecordView, o: int32, bc: int32): Result<Value> {
    var b :- ByteAt(v, o);
    Ok(U8(Wrap8(And(b, LowMask(bc, 32), 32))))
  }

  /** (short) (readI16 & mask). */
  function MaskedShortAt(v: RecordView, o: int32, bc: int32, order: ByteOrder): Result<Value> {
    var s :- ShortAt(v, o, order);
    Ok(U16(Wrap16(And(s, LowMask(bc, 32), 32))))
  }

  /** readI32 & mask, on the n bytes read. */
  function MaskedIntAt(v: RecordView, o: int32, bc: int32, n: nat, order: ByteOrder): Result<Value>
    requires n >= 1
  {
    var x :- NumberAt(v, o, n, order);
    Pow2Values();
    Ok(U32(And(x, LowMask(bc, 32), 32)))
  }

  /** readI64 & mask, with the mask (1L << bc) - 1L, on the n bytes read. */
  function MaskedLongAt(v: RecordView, o: int32, bc: int32, n: nat, order: ByteOrder): Result<Value>
    requires n >= 1
  {
    var x :- NumberAt(v, o, n, order);
    Pow2Values();
    Ok(U64(And(x, LowMask(bc, 64), 64)))
  }

  /**
   * A signed read of bc bits at offset o: one read for the exact widths,
   * otherwise the low bc bits of an n-byte read shifted to the top of an int
   * or long and back with an arithmetic shift.
   */
  function SignedAt(v: RecordView, o: int32, bc: IntegerBits, n: nat, order: ByteOrder): Result<Value>
    requires n >= 1
  {
    if bc == 8 || bc == 16 || bc == 32 || bc == 64 then ExactSignedAt(v, o, bc, order)
    else if bc < 8 then ExtendedByteAt(v, o, bc)
    else if bc < 16 then ExtendedShortAt(v, o, bc, order)
    else if bc < 32 then ExtendedIntAt(v, o, bc, n, order)
    else ExtendedLongAt(v, o, bc, n, order)
  }

  /** visitI8(readU8), visitI16(readI16), visitI32(readI32) and visitI64(readI64). */
  function ExactSignedAt(v: RecordView, o: int32, bc: IntegerBits, order: ByteOrder): Result<Value> {
    if bc == 8 then
      var b :- ByteAt(v, o);
      Ok(I8(b))
    else if bc == 16 then
      var s :- ShortAt(v, o, order);
      Ok(I16(s))
    else if bc == 32 then
      var i :- IntAt(v, o, order);
      Ok(I32(i))
    else
      var l :- LongAt(v, o, order);
      Ok(I64(l))
  }

  /** createSmallIntegerRead: (byte) (readU8 << u >> u) with u = 32 - bc. */
  function ExtendedByteAt(v: RecordView, o: int32, bc: int32): Result<Value> {
    var b :- ByteAt(v, o);
    var u := Wrap32(32 - bc);
    Ok(I8(Wrap8(ShiftRight(ShiftLeft(b, u, 32), u, 32))))
  }

  /** (short) (readI16 << u >> u) with u = 32 - bc. */
  function ExtendedShortAt(v: RecordView, o: int32, bc: int32, order: ByteOrder): Result<Value> {
    var s :- ShortAt(v, o, order);
    var u := Wrap32(32 - bc);
    Ok(I16(Wrap16(ShiftRight(ShiftLeft(s, u, 32), u, 32))))
  }

  /** readI32 << u >> u with u = 32 - bc, on the n bytes read. */
  function ExtendedIntAt(v: RecordView, o: int32, bc: int32, n: nat, order: ByteOrder): Result<Value>
    requires n >= 1
  {
    var x :- NumberAt(v, o, n, order);
    var u := Wrap32(32 - bc);
    Pow2Values();
    ShiftRightInRange(ShiftLeft(x, u, 32), u, 32);
    Ok(I32(ShiftRight(ShiftLeft(x, u, 32), u, 32)))
  }

  /** readI64 << u >> u with u = 64 - bc, on the n bytes read. */
  function ExtendedLongAt(v: RecordView, o: int32, bc: int32, n: nat, order: ByteOrder): Result<Value>
    requires n >= 1
  {
    var x :- NumberAt(v, o, n, order);
    var u := Wrap32(64 - bc);
    Pow2Values();
    ShiftRightInRange(ShiftLeft(x, u, 64), u, 64);
    Ok(I64(ShiftRight(ShiftLeft(x, u, 64), u, 64)))
  }

  /** visitF16 of the raw short, visitF32 and visitF64 of the raw bits. */
  function FloatAt(v: RecordView, o: int32, bc: FloatBits, order: ByteOrder): Result<Value> {
    if bc == 16 then
      var s :- ShortAt(v, o, order);
      Ok(F16(s))
    else if bc == 32 then
      var i :- IntAt(v, o, order);
      Ok(F32(i))
    else
      var l :- LongAt(v, o, order);
      Ok(F64(l))
  }

  // ---------------------------------------------------------------------
  // Strings.

  const MISSING_ZERO := FormatError("Missing zero termination of string value")

  /** A UTF-16 code unit 0 at byte index j: two zero bytes at an even index. */
  predicate ZeroUnitAt(bs: seq<byte>, j: int) {
    0 <= j && j + 1 < |bs| && j % 2 == 0 && bs[j] == 0 && bs[j + 1] == 0
  }

  /** The byte index of the first UTF-16 code unit 0, or -1. */
  function FirstZeroUnit(bs: seq<byte>): (k: int)
    decreases |bs|
    ensures k == -1 <==> forall j :: !ZeroUnitAt(bs, j)
    ensures k != -1 ==> ZeroUnitAt(bs, k) && forall j :: 0 <= j < k ==> !ZeroUnitAt(bs, j)
  {
    if |bs| < 2 then -1
    else if bs[0] == 0 && bs[1] == 0 then
      assert ZeroUnitAt(bs, 0);
      0
    else
      var k := FirstZeroUnit(bs[2..]);
      assert forall j :: ZeroUnitAt(bs[2..], j) <==> ZeroUnitAt(bs, j + 2);
      assert forall j :: 0 <= j < 2 ==> !ZeroUnitAt(bs, j);
      if k == -1 then
        assert forall j :: ZeroUnitAt(bs, j) ==> ZeroUnitAt(bs[2..], j - 2);
        -1
      else
        assert forall j :: 2 <= j < k + 2 && ZeroUnitAt(bs, j) ==> ZeroUnitAt(bs[2..], j - 2);
        k + 2
  }

  /**
   * The value of a string channel: its text ends at the first NUL, a zero
   * byte for UTF-8 and Latin-1, a zero code unit for UTF-16; without a NUL
   * the value is a format error.
   */
  function StringValue(enc: Encoding, buf: seq<byte>): (r: Result<Value>)
    ensures r.Err? ==> r.error == MISSING_ZERO
    ensures r.Ok? ==> r.value.Str? && r.value.encoding == enc && r.value.text <= buf
    ensures (enc.Latin1? || enc.Utf8?) ==> (r.Ok? <==> 0 in buf)
    ensures (enc.Latin1? || enc.Utf8?) && r.Ok? ==>
              0 !in r.value.text && buf[|r.value.text|] == 0
    ensures (enc.Utf16Le? || enc.Utf16Be?) ==> (r.Ok? <==> exists j :: ZeroUnitAt(buf, j))
    ensures (enc.Utf16Le? || enc.Utf16Be?) && r.Ok? ==>
              ZeroUnitAt(buf, |r.value.text|) && forall j :: 0 <= j < |r.value.text| ==> !ZeroUnitAt(buf, j)
  {
    var size := if enc.Latin1? || enc.Utf8? then FirstIndex(buf, 0) else FirstZeroUnit(buf);
    if size == -1 then Err(MISSING_ZERO) else Ok(Str(enc, buf[..size]))
  }

  /** trimString: the text before the first '\0'; none is a format error. */
  function TrimString(data: string): (r: Result<string>)
    ensures r.Ok? <==> '\0' in data
    ensures r.Ok? ==> r.value <= data && '\0' !in r.value && data[|r.value|] == '\0'
    ensures r.Err? ==> r.error == MISSING_ZERO
  {
    var size := FirstIndex(data, '\0');
    if size == -1 then Err(MISSING_ZERO) else Ok(data[..size])
  }

  /**
   * The Latin-1 string read as written: the bytes before the first zero
   * byte are decoded and then trimmed at a '\0' once more.
   */
  function Latin1StringAsWritten(buf: seq<byte>): Result<string> {
    var size := FirstIndex(buf, 0);
    if size == -1 then Err(MISSING_ZERO) else TrimString(Io.Latin1Decode(buf[..size]))
  }

  /** The text before the first zero byte holds no '\0', so trimming it again always fails. */
  lemma {:induction false} Latin1StringAsWrittenFails(buf: seq<byte>)
    ensures Latin1StringAsWritten(buf) == Err(MISSING_ZERO)
  {
    var size := FirstIndex(buf, 0);
    if size != -1 {
      var text := Io.Latin1Decode(buf[..size]);
      forall i | 0 <= i < |text|
        ensures text[i] != '\0'
      {
        assert buf[..size][i] in buf[..size];
      }
    }
  }

  /**
   * The corrected Latin-1 value is what decoding the whole buffer and
   * trimming it at the first '\0' yields, as the UTF-16 reads do.
   */
  lemma {:induction false} Latin1ValueIsTrimmedText(buf: seq<byte>)
    requires 0 in buf
    ensures StringValue(Latin1, buf).Ok?
    ensures TrimString(Io.Latin1Decode(buf)) == Ok(Io.Latin1Decode(StringValue(Latin1, buf).value.text))
  {
    var size := FirstIndex(buf, 0);
    var data := Io.Latin1Decode(buf);
    forall i | 0 <= i < size
      ensures data[..size][i] != '\0'
    {
      assert buf[..size][i] in buf[..size];
    }
    FirstIndexIsUnique(data, '\0', size);
    assert data[..size] == Io.Latin1Decode(buf[..size]);
  }

  // ---------------------------------------------------------------------
  // Reading.

  /** ValueRead.read on the record buffer. */
  function Read(r: Reader, v: RecordView): (res: Result<Value>)
    requires ViewValid(v)
    ensures r.NoValue? ==> res == Ok(Invalid)
    ensures r.RecordIndexRead? ==> res == Ok(U64(v.recordIndex))
    ensures (r.StringRead? && r.tBytes < 0) || (r.ByteArrayRead? && r.bBytes < 0) ==> res == Err(NegativeArraySize)
    decreases r
  {
    match r
    case NoValue => Ok(Invalid)
    case UnsignedRead(order, o, bc) => UnsignedAt(v, o, bc, FieldBytes(bc), order)
    case SignedRead(order, o, bc) => SignedAt(v, o, bc, FieldBytes(bc), order)
    case FloatRead(order, o, bc) => FloatAt(v, o, bc, order)
    case StringRead(enc, o, n) =>
      if n < 0 then Err(NegativeArraySize)
      else
        var buf :- BytesAt(v, o, n);
        StringValue(enc, buf)
    case ByteArrayRead(o, n) =>
      if n < 0 then Err(NegativeArraySize)
      else
        var buf :- BytesAt(v, o, n);
        Ok(Bytes(buf))
    case RecordIndexRead => Ok(U64(v.recordIndex))
    case LinearRead(p1, p2, inner) =>
      var x :- Read(inner, v);
      Ok(if x.Invalid? then Invalid else Scaled(p1, p2, x))
    case InvalidationRead(index, mask, inner) =>
      var b :- ByteAt(v, index);
      if And(b, mask, 32) != 0 then Ok(Invalid) else Read(inner, v)
  }

  /** A byte array is the field's bytes, a conversion scales or stays invalid, and a valid value had its invalidation bit clear. */
  lemma {:induction false} ReadMeaning(r: Reader, v: RecordView)
    requires ViewValid(v)
    ensures r.ByteArrayRead? && Read(r, v).Ok? ==>
              0 <= r.bOffset && 0 <= r.bBytes && v.position + r.bOffset + r.bBytes <= |v.bytes| &&
              Read(r, v).value == Bytes(v.bytes[v.position + r.bOffset..v.position + r.bOffset + r.bBytes])
    ensures r.LinearRead? && Read(r, v).Ok? ==> Read(r.scaled, v).Ok? && (Read(r, v).value.Invalid? || Read(r, v).value.Scaled?)
    ensures r.InvalidationRead? && Read(r, v).Ok? && !Read(r, v).value.Invalid? ==>
              ByteAt(v, r.byteIndex).Ok? && And(ByteAt(v, r.byteIndex).value, r.bitMask, 32) == 0
  {
  }

  /** A number below 2^bc keeps its unsigned value through a wrap to w >= bc bits. */
  lemma {:induction false} UnsignedFits(u: nat, bc: nat, w: nat)
    requires 1 <= bc <= w && u < Pow2(bc)
    ensures Unsigned(WrapBits(u, w), w) == u
  {
    Pow2Monotone(bc, w);
    UnsignedOfWrap(u, w);
    DivModUnique(u, Pow2(w), 0, u);
  }

  /** A signed number of bc bits is unchanged by a wrap to w >= bc bits. */
  lemma {:induction false} SignedFits(s: int, bc: nat, w: nat)
    requires 1 <= bc <= w && -Pow2(bc - 1) <= s < Pow2(bc - 1)
    ensures WrapBits(s, w) == s
  {
    Pow2Monotone(bc - 1, w - 1);
    WrapBitsInRange(s, w);
  }

  /** The smallest of the Java widths 8, 16, 32 and 64 that holds bc bits. */
  function ContainerWidth(bc: int): nat {
    if bc <= 8 then 8 else if bc <= 16 then 16 else if bc <= 32 then 32 else 64
  }

  /** The visitU* value of the smallest Java type holding an unsigned number of bc bits. */
  function UnsignedValue(bc: int, u: nat): (x: Value)
    requires 1 <= bc <= 64 && u < Pow2(bc)
    ensures x.IsInteger() && IntegerValue(x) == u
  {
    UnsignedFits(u, bc, ContainerWidth(bc));
    if bc <= 8 then U8(Wrap8(u))
    else if bc <= 16 then U16(Wrap16(u))
    else if bc <= 32 then U32(Wrap32(u))
    else U64(Wrap64(u))
  }

  /** The visitI* value of the smallest Java type holding a signed number of bc bits. */
  function SignedValue(bc: int, s: int): (x: Value)
    requires 1 <= bc <= 64 && -Pow2(bc - 1) <= s < Pow2(bc - 1)
    ensures x.IsInteger() && IntegerValue(x) == s
  {
    SignedFits(s, bc, ContainerWidth(bc));
    if bc <= 8 then I8(Wrap8(s))
    else if bc <= 16 then I16(Wrap16(s))
    else if bc <= 32 then I32(Wrap32(s))
    else I64(Wrap64(s))
  }

  /** x & ((1 << bc) - 1) keeps the low bc bits of x. */
  lemma {:induction false} MaskIsLowBits(x: int, bc: nat, w: nat)
    requires 1 <= bc < w
    ensures And(x, LowMask(bc, w), w) == Unsigned(x, bc)
  {
    LowMaskValue(bc, w);
    AndLowMask(x, bc, w);
  }

  /** x << (w - bc) >> (w - bc) is the signed value of the low bc bits of x. */
  lemma {:induction false} ShiftsExtendLowBits(x: int, bc: nat, w: nat)
    requires 1 <= bc < w <= 64
    ensures ShiftRight(ShiftLeft(x, Wrap32(w - bc), w), Wrap32(w - bc), w) == WrapBits(x, bc)
  {
    Wrap32Exact(w - bc);
    SignExtendByShifts(x, w - bc, w);
  }

  /** A one-byte read does not depend on the byte order. */
  lemma {:induction false} OneByteAnyOrder(v: RecordView, o: int32, order: ByteOrder)
    ensures NumberAt(v, o, 1, order) == NumberAt(v, o, 1, LittleEndianOrder)
  {
    var i := RecordBuffers.IndexOf(v, o);
    if 0 <= i && i + 1 <= |v.bytes| {
      var s := v.bytes[i..i + 1];
      assert s[1..] == [] && s[..0] == [];
      assert LittleEndian(s) == s[0] == BigEndian(s);
    }
  }

  /**
   * A field fetched from the record: the value of its low bc bits, or the
   * error of the fetch.
   */
  function UnsignedOutcome(x: Result<int>, bc: int): (r: Result<Value>)
    requires 1 <= bc <= 64
    ensures r.Ok? <==> x.Ok?
    ensures r.Err? ==> r.error == x.error
    ensures r.Ok? ==> r.value.IsInteger() && IntegerValue(r.value) == Unsigned(x.value, bc)
  {
    match x
    case Ok(n) => Ok(UnsignedValue(bc, Unsigned(n, bc)))
    case Err(e) => Err(e)
  }

  /** As UnsignedOutcome, with the low bc bits read in two's complement. */
  function SignedOutcome(x: Result<int>, bc: int): (r: Result<Value>)
    requires 1 <= bc <= 64
    ensures r.Ok? <==> x.Ok?
    ensures r.Err? ==> r.error == x.error
    ensures r.Ok? ==> r.value.IsInteger() && IntegerValue(r.value) == WrapBits(x.value, bc)
  {
    match x
    case Ok(n) => Ok(SignedValue(bc, WrapBits(n, bc)))
    case Err(e) => Err(e)
  }

  lemma {:induction false} MaskedByteRead(v: RecordView, o: int32, bc: int32, order: ByteOrder)
    requires 1 <= bc < 8
    ensures MaskedByteAt(v, o, bc) == UnsignedOutcome(NumberAt(v, o, 1, order), bc)
  {
    OneByteAnyOrder(v, o, order);
    if NumberAt(v, o, 1, order).Ok? {
      MaskIsLowBits(NumberAt(v, o, 1, order).value, bc, 32);
    }
  }

  lemma {:induction false} MaskedShortRead(v: RecordView, o: int32, bc: int32, order: ByteOrder)
    requires 8 < bc < 16
    ensures MaskedShortAt(v, o, bc, order) == UnsignedOutcome(NumberAt(v, o, 2, order), bc)
  {
    if NumberAt(v, o, 2, order).Ok? {
      MaskIsLowBits(NumberAt(v, o, 2, order).value, bc, 32);
    }
  }

  lemma {:induction false} MaskedIntRead(v: RecordView, o: int32, bc: int32, n: nat, order: ByteOrder)
    requires 16 < bc < 32 && n >= 1
    ensures MaskedIntAt(v, o, bc, n, order) == UnsignedOutcome(NumberAt(v, o, n, order), bc)
  {
    if NumberAt(v, o, n, order).Ok? {
      var x := NumberAt(v, o, n, order).value;
      MaskIsLowBits(x, bc, 32);
      SignedFits(Unsigned(x, bc), bc + 1, 32);
    }
  }

  lemma {:induction false} MaskedLongRead(v: RecordView, o: int32, bc: int32, n: nat, order: ByteOrder)
    requires 32 < bc < 64 && n >= 1
    ensures MaskedLongAt(v, o, bc, n, order) == UnsignedOutcome(NumberAt(v, o, n, order), bc)
  {
    if NumberAt(v, o, n, order).Ok? {
      var x := NumberAt(v, o, n, order).value;
      MaskIsLowBits(x, bc, 64);
      SignedFits(Unsigned(x, bc), bc + 1, 64);
    }
  }

  lemma {:induction false} ExactUnsignedByteRead(v: RecordView, o: int32, order: ByteOrder)
    ensures ExactUnsignedAt(v, o, 8, order) == UnsignedOutcome(NumberAt(v, o, 1, order), 8)
  {
    OneByteAnyOrder(v, o, order);
    if NumberAt(v, o, 1, order).Ok? {
      var x := NumberAt(v, o, 1, order).value;
      Pow2Values();
      WrapOfUnsigned(x, 8);
      assert ExactUnsignedAt(v, o, 8, order) == Ok(U8(x));
    }
  }

  lemma {:induction false} ExactUnsignedShortRead(v: RecordView, o: int32, order: ByteOrder)
    ensures ExactUnsignedAt(v, o, 16, order) == UnsignedOutcome(NumberAt(v, o, 2, order), 16)
  {
    if NumberAt(v, o, 2, order).Ok? {
      var x := NumberAt(v, o, 2, order).value;
      Pow2Values();
      WrapOfUnsigned(x, 16);
      assert ExactUnsignedAt(v, o, 16, order) == Ok(U16(x));
    }
  }

  lemma {:induction false} ExactUnsignedIntRead(v: RecordView, o: int32, order: ByteOrder)
    ensures ExactUnsignedAt(v, o, 32, order) == UnsignedOutcome(NumberAt(v, o, 4, order), 32)
  {
    if NumberAt(v, o, 4, order).Ok? {
      var x := NumberAt(v, o, 4, order).value;
      Pow2Values();
      WrapOfUnsigned(x, 32);
      assert ExactUnsignedAt(v, o, 32, order) == Ok(U32(x));
    }
  }

  lemma {:induction false} ExactUnsignedLongRead(v: RecordView, o: int32, order: ByteOrder)
    ensures ExactUnsignedAt(v, o, 64, order) == UnsignedOutcome(NumberAt(v, o, 8, order), 64)
  {
    if NumberAt(v, o, 8, order).Ok? {
      var x := NumberAt(v, o, 8, order).value;
      Pow2Values();
      WrapOfUnsigned(x, 64);
      assert ExactUnsignedAt(v, o, 64, order) == Ok(U64(x));
    }
  }

  /**
   * An unsigned field of 1 to 64 bits reads as the low bitCount bits of the
   * bytes it occupies, in the smallest Java type that holds them; the read
   * fails exactly when those bytes are not all in the record.
   */
  lemma {:induction false} UnsignedReadKeepsLowBits(v: RecordView, order: ByteOrder, o: int32, bc: IntegerBits)
    requires ViewValid(v) && 1 <= bc
    ensures Read(UnsignedRead(order, o, bc), v) == UnsignedOutcome(NumberAt(v, o, FieldBytes(bc), order), bc)
  {
    assert Read(UnsignedRead(order, o, bc), v) == UnsignedAt(v, o, bc, FieldBytes(bc), order);
    if bc == 8 {
      ExactUnsignedByteRead(v, o, order);
    } else if bc == 16 {
      assert FieldBytes(bc) == 2;
      ExactUnsignedShortRead(v, o, order);
    } else if bc == 32 {
      assert FieldBytes(bc) == 4;
      ExactUnsignedIntRead(v, o, order);
    } else if bc == 64 {
      assert FieldBytes(bc) == 8;
      ExactUnsignedLongRead(v, o, order);
    } else if bc < 8 {
      assert FieldBytes(bc) == 1;
      MaskedByteRead(v, o, bc, order);
    } else if bc < 16 {
      assert FieldBytes(bc) == 2;
      MaskedShortRead(v, o, bc, order);
    } else if bc < 32 {
      MaskedIntRead(v, o, bc, FieldBytes(bc), order);
    } else {
      MaskedLongRead(v, o, bc, FieldBytes(bc), order);
    }
  }

  lemma {:induction false} ExtendedByteRead(v: RecordView, o: int32, bc: int32, order: ByteOrder)
    requires 1 <= bc < 8
    ensures ExtendedByteAt(v, o, bc) == SignedOutcome(NumberAt(v, o, 1, order), bc)
  {
    OneByteAnyOrder(v, o, order);
    if NumberAt(v, o, 1, order).Ok? {
      ShiftsExtendLowBits(NumberAt(v, o, 1, order).value, bc, 32);
    }
  }

  lemma {:induction false} ExtendedShortRead(v: RecordView, o: int32, bc: int32, order: ByteOrder)
    requires 8 < bc < 16
    ensures ExtendedShortAt(v, o, bc, order) == SignedOutcome(NumberAt(v, o, 2, order), bc)
  {
    if NumberAt(v, o, 2, order).Ok? {
      ShiftsExtendLowBits(NumberAt(v, o, 2, order).value, bc, 32);
    }
  }

  lemma {:induction false} ExtendedIntRead(v: RecordView, o: int32, bc: int32, n: nat, order: ByteOrder)
    requires 16 < bc < 32 && n >= 1
    ensures ExtendedIntAt(v, o, bc, n, order) == SignedOutcome(NumberAt(v, o, n, order), bc)
  {
    if NumberAt(v, o, n, order).Ok? {
      var x := NumberAt(v, o, n, order).value;
      ShiftsExtendLowBits(x, bc, 32);
      SignedFits(WrapBits(x, bc), bc, 32);
    }
  }

  lemma {:induction false} ExtendedLongRead(v: RecordView, o: int32, bc: int32, n: nat, order: ByteOrder)
    requires 32 < bc < 64 && n >= 1
    ensures ExtendedLongAt(v, o, bc, n, order) == SignedOutcome(NumberAt(v, o, n, order), bc)
  {
    if NumberAt(v, o, n, order).Ok? {
      var x := NumberAt(v, o, n, order).value;
      ShiftsExtendLowBits(x, bc, 64);
      SignedFits(WrapBits(x, bc), bc, 64);
    }
  }

  lemma {:induction false} ExactSignedByteRead(v: RecordView, o: int32, order: ByteOrder)
    ensures ExactSignedAt(v, o, 8, order) == SignedOutcome(NumberAt(v, o, 1, order), 8)
  {
    OneByteAnyOrder(v, o, order);
    if NumberAt(v, o, 1, order).Ok? {
      var x := NumberAt(v, o, 1, order).value;
      Pow2Values();
      WrapBitsInRange(x, 8);
      assert ExactSignedAt(v, o, 8, order) == Ok(I8(x));
    }
  }

  lemma {:induction false} ExactSignedShortRead(v: RecordView, o: int32, order: ByteOrder)
    ensures ExactSignedAt(v, o, 16, order) == SignedOutcome(NumberAt(v, o, 2, order), 16)
  {
    if NumberAt(v, o, 2, order).Ok? {
      var x := NumberAt(v, o, 2, order).value;
      Pow2Values();
      WrapBitsInRange(x, 16);
      assert ExactSignedAt(v, o, 16, order) == Ok(I16(x));
    }
  }

  lemma {:induction false} ExactSignedIntRead(v: RecordView, o: int32, order: ByteOrder)
    ensures ExactSignedAt(v, o, 32, order) == SignedOutcome(NumberAt(v, o, 4, order), 32)
  {
    if NumberAt(v, o, 4, order).Ok? {
      var x := NumberAt(v, o, 4, order).value;
      Pow2Values();
      WrapBitsInRange(x, 32);
      assert ExactSignedAt(v, o, 32, order) == Ok(I32(x));
    }
  }

  lemma {:induction false} ExactSignedLongRead(v: RecordView, o: int32, order: ByteOrder)
    ensures ExactSignedAt(v, o, 64, order) == SignedOutcome(NumberAt(v, o, 8, order), 64)
  {
    if NumberAt(v, o, 8, order).Ok? {
      var x := NumberAt(v, o, 8, order).value;
      Pow2Values();
      WrapBitsInRange(x, 64);
      assert ExactSignedAt(v, o, 64, order) == Ok(I64(x));
    }
  }

  /**
   * A signed field of 1 to 64 bits reads as the two's-complement value of
   * the low bitCount bits of the bytes it occupies.
   */
  lemma {:induction false} SignedReadExtendsLowBits(v: RecordView, order: ByteOrder, o: int32, bc: IntegerBits)
    requires ViewValid(v) && 1 <= bc
    ensures Read(SignedRead(order, o, bc), v) == SignedOutcome(NumberAt(v, o, FieldBytes(bc), order), bc)
  {
    assert Read(SignedRead(order, o, bc), v) == SignedAt(v, o, bc, FieldBytes(bc), order);
    if bc == 8 {
      ExactSignedByteRead(v, o, order);
    } else if bc == 16 {
      assert FieldBytes(bc) == 2;
      ExactSignedShortRead(v, o, order);
    } else if bc == 32 {
      assert FieldBytes(bc) == 4;
      ExactSignedIntRead(v, o, order);
    } else if bc == 64 {
      assert FieldBytes(bc) == 8;
      ExactSignedLongRead(v, o, order);
    } else if bc < 8 {
      assert FieldBytes(bc) == 1;
      ExtendedByteRead(v, o, bc, order);
    } else if bc < 16 {
      assert FieldBytes(bc) == 2;
      ExtendedShortRead(v, o, bc, order);
    } else if bc < 32 {
      ExtendedIntRead(v, o, bc, FieldBytes(bc), order);
    } else {
      ExtendedLongRead(v, o, bc, FieldBytes(bc), order);
    }
  }

  /**
   * A big-endian unsigned field of k whole bytes reads as the big-endian
   * number of exactly those k bytes.
   */
  lemma {:induction false} BigEndianFieldValue(v: RecordView, o: int32, k: nat)
    requires ViewValid(v) && 1 <= k <= 8
    ensures var r := Read(UnsignedRead(BigEndianOrder, o, 8 * k), v);
      var i := v.position + o;
      r.Ok? ==> 0 <= i && i + k <= |v.bytes| && IntegerValue(r.value) == BigEndian(v.bytes[i..i + k])
  {
    var bc := 8 * k;
    assert FieldBytes(bc) == k;
    UnsignedReadKeepsLowBits(v, BigEndianOrder, o, bc);
    NumberAtWindow(v, o, k, BigEndianOrder);
    var x := NumberAt(v, o, k, BigEndianOrder);
    if x.Ok? {
      var i := v.position + o;
      var be := BigEndian(v.bytes[i..i + k]);
      UnsignedOfWrap(be, bc);
      DivModUnique(be, Pow2(bc), 0, be);
    }
  }

  /**
   * As written, a big-endian field of 17 to 31 bits is read with readI32Be
   * and masked to its low bits, which drops the field's first byte and
   * takes in the byte after it.
   */
  function BigEndianAsWritten(v: RecordView, o: int32, bc: IntegerBits): Result<Value> {
    UnsignedAt(v, o, bc, ContainerBytes(bc), BigEndianOrder)
  }

  /** The record of the counterexample: the bytes 01 02 03 04. */
  const SAMPLE: RecordView := RecordView([1, 2, 3, 4], 0, 0)

  lemma {:induction false} SampleDigits()
    ensures BigEndian([1, 2, 3]) == 0x01_0203 && BigEndian([1, 2, 3, 4]) == 0x0102_0304
  {
    var s4: seq<byte> := [1, 2, 3, 4];
    assert s4[..3] == [1, 2, 3] && s4[..3][..2] == [1, 2] && s4[..3][..2][..1] == [1];
    assert [1, 2, 3, 4][..1][..0] == [];
    assert BigEndian([1]) == 1;
    assert BigEndian([1, 2]) == 0x0102;
  }

  lemma {:induction false} SampleFourBytes()
    ensures NumberAt(SAMPLE, 0, 4, BigEndianOrder) == Ok(0x0102_0304)
  {
    NumberAtWindow(SAMPLE, 0, 4, BigEndianOrder);
    SampleDigits();
    assert SAMPLE.bytes[0..4] == [1, 2, 3, 4];
    Pow2Values();
    WrapBitsInRange(0x0102_0304, 32);
  }

  lemma {:induction false} SampleThreeBytes()
    ensures NumberAt(SAMPLE, 0, 3, BigEndianOrder) == Ok(0x01_0203)
  {
    NumberAtWindow(SAMPLE, 0, 3, BigEndianOrder);
    SampleDigits();
    assert SAMPLE.bytes[0..3] == [1, 2, 3];
    Pow2Values();
    Pow2Add(8, 15);
    WrapBitsInRange(0x01_0203, 24);
  }

  lemma {:induction false} LowBitsOfSample()
    ensures Unsigned(0x0102_0304, 24) == 0x02_0304 && Unsigned(0x01_0203, 24) == 0x01_0203
  {
    Pow2Values();
    Pow2Add(8, 16);
    DivModUnique(0x0102_0304, Pow2(24), 1, 0x02_0304);
    DivModUnique(0x01_0203, Pow2(24), 0, 0x01_0203);
  }

  /** The 24-bit field 01 02 03 followed by 04: as written 0x020304, intended 0x010203. */
  lemma {:induction false} BigEndianAsWrittenDropsFirstByte()
    ensures BigEndianAsWritten(SAMPLE, 0, 24) == Ok(U32(0x02_0304))
    ensures Read(UnsignedRead(BigEndianOrder, 0, 24), SAMPLE) == Ok(U32(0x01_0203))
  {
    SampleFourBytes();
    SampleThreeBytes();
    LowBitsOfSample();
    assert ContainerBytes(24) == 4 && FieldBytes(24) == 3;
    MaskedIntRead(SAMPLE, 0, 24, 4, BigEndianOrder);
    UnsignedReadKeepsLowBits(SAMPLE, BigEndianOrder, 0, 24);
    Wrap32Exact(0x02_0304);
    Wrap32Exact(0x01_0203);
  }

  /**
   * As written, a big-endian signed field of 17 to 31 or 33 to 63 bits is
   * read with readI32Be or readI64Be and sign-extended from its low bits by
   * the shift pair, which drops the field's first byte in the same way.
   */
  function SignedBigEndianAsWritten(v: RecordView, o: int32, bc: IntegerBits): Result<Value> {
    SignedAt(v, o, bc, ContainerBytes(bc), BigEndianOrder)
  }

  /** The low 24 bits of the samples, taken as signed numbers. */
  lemma {:induction false} SignedLowBitsOfSample()
    ensures WrapBits(0x0102_0304, 24) == 0x02_0304 && WrapBits(0x01_0203, 24) == 0x01_0203
  {
    Pow2Values();
    Pow2Add(8, 16);
    Pow2Add(8, 15);
    ModAddMultiple(0, 1, Pow2(24));
    WrapBitsCongruent(0x0102_0304, 0x02_0304, 24);
    WrapBitsInRange(0x02_0304, 24);
    WrapBitsInRange(0x01_0203, 24);
  }

  /** The signed 24-bit field 01 02 03 followed by 04: as written 0x020304, intended 0x010203. */
  lemma {:induction false} SignedBigEndianAsWrittenDropsFirstByte()
    ensures SignedBigEndianAsWritten(SAMPLE, 0, 24) == Ok(I32(0x02_0304))
    ensures Read(SignedRead(BigEndianOrder, 0, 24), SAMPLE) == Ok(I32(0x01_0203))
  {
    SampleFourBytes();
    SampleThreeBytes();
    SignedLowBitsOfSample();
    assert ContainerBytes(24) == 4 && FieldBytes(24) == 3;
    ExtendedIntRead(SAMPLE, 0, 24, 4, BigEndianOrder);
    SignedReadExtendsLowBits(SAMPLE, BigEndianOrder, 0, 24);
    Wrap32Exact(0x02_0304);
    Wrap32Exact(0x01_0203);
  }

  /**
   * An invalidation reader with mask 1 << k yields invalid exactly when bit k
   * of its byte is set; otherwise the inner reader's result passes unchanged.
   */
  lemma {:induction false} InvalidationBitDecides(index: int32, mask: int32, k: nat, inner: Reader, v: RecordView)
    requires ViewValid(v) && k < 8 && mask == Pow2(k)
    ensures ByteAt(v, index).Err? ==> Read(InvalidationRead(index, mask, inner), v) == Err(ByteAt(v, index).error)
    ensures ByteAt(v, index).Ok? ==>
              Read(InvalidationRead(index, mask, inner), v) ==
                if BitOf(ByteAt(v, index).value, k) then Ok(Invalid) else Read(inner, v)
  {
    if ByteAt(v, index).Ok? {
      AndPow2IsBit(ByteAt(v, index).value, k);
    }
  }

  /** x & (1 << k) is nonzero exactly when bit k of x is set. */
  lemma {:induction false} AndPow2IsBit(x: int, k: nat)
    requires k < 32
    ensures And(x, Pow2(k), 32) != 0 <==> BitOf(x, k)
  {
    var a := And(x, Pow2(k), 32);
    ZeroIffNoBits(a, 32);
    if BitOf(x, k) {
      BitOfJavaAnd(x, Pow2(k), 32, k);
      BitOfPow2(k, k);
    } else {
      forall i | 0 <= i < 32
        ensures !BitOf(a, i)
      {
        BitOfJavaAnd(x, Pow2(k), 32, i);
        BitOfPow2(k, i);
      }
    }
  }

  // ---------------------------------------------------------------------
  // Creating the readers.

  /** The layout of a record: record id, data bytes, then invalidation bytes. */
  datatype RecordLayout = RecordLayout(recordIdSize: int32, dataBytes: int32, invalidationBytes: int32)

  const TOO_WIDE := "Integer with more than 64 bits are not implemented, got "

  /** The unsigned and signed readers reject more than 64 bits. */
  function CreateIntegerRead(signed: bool, order: ByteOrder, c: ChannelBlock): (r: Result<Reader>)
    ensures r.Ok? <==> c.bitCount <= 64
    ensures r.Err? ==> r.error == NotImplemented(TOO_WIDE + IntToString(c.bitCount))
    ensures r.Ok? ==> r.value == if signed then SignedRead(order, c.byteOffset, c.bitCount)
                                 else UnsignedRead(order, c.byteOffset, c.bitCount)
  {
    if c.bitCount > 64 then Err(NotImplemented(TOO_WIDE + IntToString(c.bitCount)))
    else if signed then Ok(SignedRead(order, c.byteOffset, c.bitCount))
    else Ok(UnsignedRead(order, c.byteOffset, c.bitCount))
  }

  /** Only 16, 32 and 64 bit floats; the two byte orders word their error differently. */
  function CreateFloatRead(order: ByteOrder, c: ChannelBlock): (r: Result<Reader>)
    ensures r.Ok? <==> c.bitCount == 16 || c.bitCount == 32 || c.bitCount == 64
    ensures r.Ok? ==> r.value == FloatRead(order, c.byteOffset, c.bitCount)
    ensures r.Err? && order.LittleEndianOrder? ==>
              r.error == NotImplemented("Only floating point numbers with 32 or 64 bits are implemented, got "
                                        + IntToString(c.bitCount) + " bits")
    ensures r.Err? && order.BigEndianOrder? ==>
              r.error == NotImplemented("Only floating point numbers with 4 or 8 bytes are implemented")
  {
    if c.bitCount == 16 || c.bitCount == 32 || c.bitCount == 64 then Ok(FloatRead(order, c.byteOffset, c.bitCount))
    else if order.LittleEndianOrder? then
      Err(NotImplemented("Only floating point numbers with 32 or 64 bits are implemented, got "
                         + IntToString(c.bitCount) + " bits"))
    else Err(NotImplemented("Only floating point numbers with 4 or 8 bytes are implemented"))
  }

  /**
   * Strings and byte arrays need whole bytes. Java's % and / truncate, but
   * whether the remainder is zero and the quotient of a multiple of 8 are
   * the same as Dafny's.
   */
  function CreateStringRead(enc: Encoding, c: ChannelBlock): (r: Result<Reader>)
    ensures r.Ok? <==> c.bitCount % 8 == 0
    ensures r.Ok? ==> r.value == StringRead(enc, c.byteOffset, c.bitCount / 8) && 8 * r.value.tBytes == c.bitCount
    ensures r.Err? ==> r.error == FormatError("Bit count must be a multiple of 8 for string channels")
  {
    if c.bitCount % 8 != 0 then Err(FormatError("Bit count must be a multiple of 8 for string channels"))
    else Ok(StringRead(enc, c.byteOffset, c.bitCount / 8))
  }

  function CreateByteArrayRead(c: ChannelBlock): (r: Result<Reader>)
    ensures r.Ok? <==> c.bitCount % 8 == 0
    ensures r.Ok? ==> r.value == ByteArrayRead(c.byteOffset, c.bitCount / 8) && 8 * r.value.bBytes == c.bitCount
    ensures r.Err? ==> r.error == FormatError("Bit count must be a multiple of 8 for byte array channels")
  {
    if c.bitCount % 8 != 0 then Err(FormatError("Bit count must be a multiple of 8 for byte array channels"))
    else Ok(ByteArrayRead(c.byteOffset, c.bitCount / 8))
  }

  function DataTypeName(d: ChannelDataType): string {
    match d
    case UintLe => "UINT_LE"
    case UintBe => "UINT_BE"
    case IntLe => "INT_LE"
    case IntBe => "INT_BE"
    case FloatLe => "FLOAT_LE"
    case FloatBe => "FLOAT_BE"
    case StringLatin1 => "STRING_LATIN1"
    case StringUtf8 => "STRING_UTF8"
    case StringUtf16Le => "STRING_UTF16LE"
    case StringUtf16Be => "STRING_UTF16BE"
    case ByteArray => "BYTE_ARRAY"
    case MimeSample => "MIME_SAMPLE"
    case MimeStream => "MIME_STREAM"
    case CanopenDate => "CANOPEN_DATE"
    case CanopenTime => "CANOPEN_TIME"
    case ComplexLe => "COMPLEX_LE"
    case ComplexBe => "COMPLEX_BE"
  }

  /** The data types with a reader: integers, floats, the four string charsets and byte arrays. */
  predicate ReadableDataType(d: ChannelDataType) {
    !(d.MimeSample? || d.MimeStream? || d.CanopenDate? || d.CanopenTime? || d.ComplexLe? || d.ComplexBe?)
  }

  /** The byte order a numeric data type names. */
  function DataTypeOrder(d: ChannelDataType): Option<ByteOrder> {
    if d.UintLe? || d.IntLe? || d.FloatLe? then Some(LittleEndianOrder)
    else if d.UintBe? || d.IntBe? || d.FloatBe? then Some(BigEndianOrder)
    else None
  }

  /** The byte order a numeric reader reads in. */
  function ReaderOrder(r: Reader): Option<ByteOrder> {
    match r
    case UnsignedRead(order, _, _) => Some(order)
    case SignedRead(order, _, _) => Some(order)
    case FloatRead(order, _, _) => Some(order)
    case _ => None
  }

  function UnsupportedDataType(d: ChannelDataType): Exception {
    NotImplemented("Reading data type " + DataTypeName(d) + " not implemented")
  }

  /** The integer and floating-point cases of createFixedLengthDataReader. */
  function CreateNumericReader(c: ChannelBlock): (r: Result<Reader>)
    requires DataTypeOrder(c.dataType).Some?
    ensures r.Ok? ==> ReaderOrder(r.value) == DataTypeOrder(c.dataType)
  {
    var order := DataTypeOrder(c.dataType).value;
    if c.dataType.UintLe? || c.dataType.UintBe? then CreateIntegerRead(false, order, c)
    else if c.dataType.IntLe? || c.dataType.IntBe? then CreateIntegerRead(true, order, c)
    else CreateFloatRead(order, c)
  }

  /** The string and byte-array cases of createFixedLengthDataReader. */
  function CreateBytesReader(c: ChannelBlock): (r: Result<Reader>)
    requires ReadableDataType(c.dataType) && DataTypeOrder(c.dataType).None?
    ensures r.Ok? ==> ReaderOrder(r.value).None?
  {
    if c.dataType.StringLatin1? then CreateStringRead(Latin1, c)
    else if c.dataType.StringUtf8? then CreateStringRead(Utf8, c)
    else if c.dataType.StringUtf16Le? then CreateStringRead(Utf16Le, c)
    else if c.dataType.StringUtf16Be? then CreateStringRead(Utf16Be, c)
    else CreateByteArrayRead(c)
  }

  /** createFixedLengthDataReader: the reader for the data type. */
  function CreateFixedLengthDataReader(c: ChannelBlock): (r: Result<Reader>)
    ensures !ReadableDataType(c.dataType) ==> r == Err(UnsupportedDataType(c.dataType))
    ensures r.Ok? ==> ReadableDataType(c.dataType) && ReaderOrder(r.value) == DataTypeOrder(c.dataType)
  {
    if !ReadableDataType(c.dataType) then Err(UnsupportedDataType(c.dataType))
    else if DataTypeOrder(c.dataType).Some? then CreateNumericReader(c)
    else CreateBytesReader(c)
  }

  /** A virtual channel occupies no bits and yields the record index. */
  function CreateVirtualDataReader(c: ChannelBlock): (r: Result<Reader>)
    ensures r.Ok? <==> c.bitCount == 0
    ensures r.Ok? ==> r.value == RecordIndexRead
    ensures r.Err? ==> r.error == FormatError("Bit count of virtual master channel must be zero, but got "
                                              + IntToString(c.bitCount))
  {
    if c.bitCount != 0 then
      Err(FormatError("Bit count of virtual master channel must be zero, but got " + IntToString(c.bitCount)))
    else Ok(RecordIndexRead)
  }

  function ChannelTypeName(t: ChannelType): string {
    match t
    case FixedLengthDataChannel => "FIXED_LENGTH_DATA_CHANNEL"
    case VariableLengthDataChannel => "VARIABLE_LENGTH_DATA_CHANNEL"
    case MasterChannel => "MASTER_CHANNEL"
    case VirtualMasterChannel => "VIRTUAL_MASTER_CHANNEL"
    case SynchronizationChannel => "SYNCHRONIZATION_CHANNEL"
    case MaximumLengthChannel => "MAXIMUM_LENGTH_CHANNEL"
    case VirtualDataChannel => "VIRTUAL_DATA_CHANNEL"
  }

  datatype ConversionType =
    | Identity | Linear | Rational | Algebraic | InterpolatedValueTable | ValueValueTable
    | ValueRangeValueTable | ValueTextTable | ValueRangeTextTable | TextValueTable | TextTextTable
    | BitfieldTextTable

  function ConversionTypeName(k: ConversionType): string {
    match k
    case Identity => "IDENTITY"
    case Linear => "LINEAR"
    case Rational => "RATIONAL"
    case Algebraic => "ALGEBRAIC"
    case InterpolatedValueTable => "INTERPOLATED_VALUE_TABLE"
    case ValueValueTable => "VALUE_VALUE_TABLE"
    case ValueRangeValueTable => "VALUE_RANGE_VALUE_TABLE"
    case ValueTextTable => "VALUE_TEXT_TABLE"
    case ValueRangeTextTable => "VALUE_RANGE_TEXT_TABLE"
    case TextValueTable => "TEXT_VALUE_TABLE"
    case TextTextTable => "TEXT_TEXT_TABLE"
    case BitfieldTextTable => "BITFIELD_TEXT_TABLE"
  }

  /** The resolved ##CC block: its conversion type and its parameters as raw long bits. */
  datatype Conversion = Conversion(kind: ConversionType, vals: seq<int64>)

  /**
   * The conversion switch: none and IDENTITY keep the reader, LINEAR wraps
   * it with vals[0] and vals[1], everything else is not implemented.
   * conversion is what resolving the conversion rule link yields.
   */
  function Convert(base: Reader, conversion: Result<Option<Conversion>>): (r: Result<Reader>)
    ensures conversion.Err? ==> r == Err(conversion.error)
    ensures conversion.Ok? && (conversion.value.None? || conversion.value.value.kind.Identity?) ==> r == Ok(base)
    ensures conversion.Ok? && conversion.value.Some? && conversion.value.value.kind.Linear? ==>
              var vals := conversion.value.value.vals;
              if |vals| < 2 then r == Err(IndexOutOfBounds) else r == Ok(LinearRead(vals[0], vals[1], base))
    ensures conversion.Ok? && conversion.value.Some? && !conversion.value.value.kind.Identity? &&
            !conversion.value.value.kind.Linear? ==>
              r == Err(NotImplemented("Channel conversion not implemented: "
                                      + ConversionTypeName(conversion.value.value.kind)))
  {
    match conversion
    case Err(e) => Err(e)
    case Ok(None) => Ok(base)
    case Ok(Some(cc)) =>
      match cc.kind
      case Identity => Ok(base)
      case Linear => if |cc.vals| < 2 then Err(IndexOutOfBounds) else Ok(LinearRead(cc.vals[0], cc.vals[1], base))
      case _ => Err(NotImplemented("Channel conversion not implemented: " + ConversionTypeName(cc.kind)))
  }

  function InvalidBitMessage(bit: int32, groupBits: int32): string {
    "Invalid invalidation bit position " + IntToString(bit) + " in " + IntToString(groupBits) + " invalidation bits"
  }

  /**
   * createInvalidationReader: the bit must lie within the group's
   * invalidation bytes; the reader tests bit (bit & 7) of the byte at
   * recordIdSize + dataBytes + (bit >>> 3), all in int arithmetic.
   */
  function CreateInvalidationReader(layout: RecordLayout, c: ChannelBlock, inner: Reader): (r: Result<Reader>)
    ensures r.Ok? ==> r.value.InvalidationRead? && r.value.inner == inner
  {
    var groupBits := Wrap32(layout.invalidationBytes * 8);
    var bit := c.invalidationBit;
    if bit >= groupBits then Err(FormatError(InvalidBitMessage(bit, groupBits)))
    else
      Ok(InvalidationRead(InvalidationByteIndex(layout, bit), InvalidationMask(bit), inner))
  }

  /** recordIdSize + dataBytes + (bit >>> 3), in int arithmetic. */
  function InvalidationByteIndex(layout: RecordLayout, bit: int32): int32 {
    Wrap32(Wrap32(layout.recordIdSize + layout.dataBytes) + UnsignedShiftRight(bit, 3, 32))
  }

  /** 1 << (bit & 7). */
  function InvalidationMask(bit: int32): int32 {
    Pow2Values();
    ShiftLeft(1, And(bit, 7, 32), 32)
  }

  /** The byte of an invalidation bit, for sizes whose sum fits an int. */
  lemma {:induction false} ByteOfBit(layout: RecordLayout, bit: int32)
    requires 0 <= layout.recordIdSize && 0 <= layout.dataBytes && 0 <= bit
    requires layout.recordIdSize + layout.dataBytes + bit / 8 <= INT_MAX
    ensures InvalidationByteIndex(layout, bit) == layout.recordIdSize + layout.dataBytes + bit / 8
  {
    var base := layout.recordIdSize + layout.dataBytes;
    Pow2Values();
    Wrap32Exact(base);
    ShiftDistance(3, 32);
    DivModUnique(bit, Pow2(32), 0, bit);
    WrapBitsInRange(bit / 8, 32);
    Wrap32Exact(base + bit / 8);
  }

  /** The mask of an invalidation bit selects bit (bit % 8) of a byte. */
  lemma {:induction false} MaskOfBit(bit: int32)
    requires 0 <= bit
    ensures InvalidationMask(bit) == Pow2(bit % 8)
  {
    Pow2Values();
    AndLowMask(bit, 3, 32);
    ShiftDistance(bit % 8, 32);
    Pow2Monotone(bit % 8, 7);
    WrapBitsInRange(Pow2(bit % 8), 32);
  }

  /**
   * For a layout whose sizes fit an int, a bit within the invalidation
   * bytes is bit (bit % 8) of the byte at recordIdSize + dataBytes + bit / 8.
   */
  lemma {:induction false} InvalidationBytePosition(layout: RecordLayout, c: ChannelBlock, inner: Reader)
    requires 0 <= layout.recordIdSize && 0 <= layout.dataBytes && 0 <= layout.invalidationBytes
    requires layout.recordIdSize + layout.dataBytes + layout.invalidationBytes <= INT_MAX
    requires 8 * layout.invalidationBytes <= INT_MAX
    requires 0 <= c.invalidationBit < 8 * layout.invalidationBytes
    ensures var r := CreateInvalidationReader(layout, c, inner);
      r.Ok? && r.value.byteIndex == layout.recordIdSize + layout.dataBytes + c.invalidationBit / 8 &&
      r.value.bitMask == Pow2(c.invalidationBit % 8)
  {
    Wrap32Exact(layout.invalidationBytes * 8);
    assert c.invalidationBit / 8 < layout.invalidationBytes;
    ByteOfBit(layout, c.invalidationBit);
    MaskOfBit(c.invalidationBit);
  }

  /** A bit at or beyond the group's invalidation bits is a format error. */
  lemma {:induction false} InvalidationBitOutOfRange(layout: RecordLayout, c: ChannelBlock, inner: Reader)
    requires 0 <= layout.invalidationBytes && 8 * layout.invalidationBytes <= INT_MAX
    requires c.invalidationBit >= 8 * layout.invalidationBytes
    ensures CreateInvalidationReader(layout, c, inner) ==
              Err(FormatError(InvalidBitMessage(c.invalidationBit, 8 * layout.invalidationBytes)))
  {
    Wrap32Exact(layout.invalidationBytes * 8);
  }

  /** The channel types createChannelReader handles. */
  predicate ReadableChannelType(t: ChannelType) {
    t.FixedLengthDataChannel? || t.MasterChannel? || t.SynchronizationChannel? ||
    t.VirtualDataChannel? || t.VirtualMasterChannel?
  }

  /** The reader for the channel type, before conversion. */
  function CreateTypedReader(c: ChannelBlock): (r: Result<Reader>)
    ensures !ReadableChannelType(c.channelType) ==>
              r == Err(NotImplemented("Channel type not implemented: " + ChannelTypeName(c.channelType)))
    ensures (c.channelType.VirtualDataChannel? || c.channelType.VirtualMasterChannel?) ==>
              r == CreateVirtualDataReader(c)
    ensures (c.channelType.FixedLengthDataChannel? || c.channelType.MasterChannel? ||
             c.channelType.SynchronizationChannel?) ==> r == CreateFixedLengthDataReader(c)
  {
    match c.channelType
    case FixedLengthDataChannel => CreateFixedLengthDataReader(c)
    case MasterChannel => CreateFixedLengthDataReader(c)
    case SynchronizationChannel => CreateFixedLengthDataReader(c)
    case VirtualDataChannel => CreateVirtualDataReader(c)
    case VirtualMasterChannel => CreateVirtualDataReader(c)
    case _ => Err(NotImplemented("Channel type not implemented: " + ChannelTypeName(c.channelType)))
  }

  /**
   * createChannelReader: a bit offset is not implemented, a channel whose
   * values are all invalid reads nothing, otherwise the typed reader with
   * its conversion and, when the channel has one, its invalidation bit.
   */
  function CreateChannelReader(layout: RecordLayout, c: ChannelBlock, conversion: Result<Option<Conversion>>)
    : (r: Result<Reader>)
    ensures c.bitOffset != 0 ==> r == Err(NotImplemented("Non-zero bit offset is not implemented"))
    ensures c.bitOffset == 0 && c.flags.IsSet(ALL_VALUES_INVALID) ==> r == Ok(NoValue)
    ensures c.bitOffset == 0 && !c.flags.IsSet(ALL_VALUES_INVALID) && CreateTypedReader(c).Err? ==>
              r == Err(CreateTypedReader(c).error)
    ensures c.bitOffset == 0 && !c.flags.IsSet(ALL_VALUES_INVALID) && CreateTypedReader(c).Ok? ==>
              var converted := Convert(CreateTypedReader(c).value, conversion);
              if converted.Err? then r == Err(converted.error)
              else if c.flags.IsSet(INVALIDATION_BIT_VALID) then r == CreateInvalidationReader(layout, c, converted.value)
              else r == converted
  {
    if c.bitOffset != 0 then Err(NotImplemented("Non-zero bit offset is not implemented"))
    else if c.flags.IsSet(ALL_VALUES_INVALID) then Ok(NoValue)
    else
      var base :- CreateTypedReader(c);
      var converted :- Convert(base, conversion);
      if c.flags.IsSet(INVALIDATION_BIT_VALID) then CreateInvalidationReader(layout, c, converted)
      else Ok(converted)
  }

  /** A channel whose values are all invalid reads as invalid in every record. */
  lemma {:induction false} AllValuesInvalidReadsInvalid(
    layout: RecordLayout, c: ChannelBlock, conversion: Result<Option<Conversion>>, v: RecordView)
    requires ViewValid(v) && c.bitOffset == 0 && c.flags.IsSet(ALL_VALUES_INVALID)
    ensures CreateChannelReader(layout, c, conversion).Ok?
    ensures Read(CreateChannelReader(layout, c, conversion).value, v) == Ok(Invalid)
  {
  }
}
