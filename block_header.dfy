// The generic preamble of every MDF 4 block: the type id, four padding
// bytes, the total block length, the link count and the links.

module BlockHeaders {
  import opened JavaTypes
  import opened Bits
  import opened Results
  import opened Text
  import opened Io
  import opened BlockTypeIds

  datatype BlockHeader = BlockHeader(length: int64, links: seq<int64>)
  {
    /** getDataLength: length - 24 - 8 * links, in long arithmetic. */
    function DataLength(): (d: int64)
      ensures length - 24 - 8 * |links| >= -0x8000_0000_0000_0000 ==> d == length - 24 - 8 * |links|
      ensures (d - (length - 24 - 8 * |links|)) % 0x1_0000_0000_0000_0000 == 0
    {
      Pow2Values();
      if length - 24 - 8 * |links| >= -0x8000_0000_0000_0000 then
        WrapBitsInRange(length - 24 - 8 * |links|, 64);
        Wrap64(length - 24 - 8 * |links|)
      else
        Wrap64(length - 24 - 8 * |links|)
    }

    /** Where the data section starts for a header that starts at p. */
    function DataStart(p: int): int {
      p + 24 + 8 * |links|
    }
  }

  /** The n links stored one after the other from q, read in file order. */
  function LinksAt(s: seq<byte>, q: int, n: nat): (r: Result<seq<int64>>)
    requires 0 <= q <= |s|
    decreases n
    ensures r.Ok? <==> q + 8 * n <= |s|
    ensures r.Ok? ==> |r.value| == n
    ensures r.Ok? ==> forall i :: 0 <= i < n ==> r.value[i] == SignedLe(s[q + 8 * i..q + 8 * i + 8])
    ensures r.Err? ==> r.error == EndOfInput
  {
    if n == 0 then Ok([])
    else
      var prev :- LinksAt(s, q, n - 1);
      var l :- I64At(s, q + 8 * (n - 1));
      Ok(prev + [l])
  }

  function HashPrefixMessage(hash1: int8, hash2: int8): string {
    "Block type does not start with '##', got " + Hex2(Unsigned(hash1, 8)) + Hex2(Unsigned(hash2, 8))
  }

  function UnexpectedTypeMessage(expected: BlockTypeId, first: int8, second: int8): string {
    "Expected block type '" + expected.ToString() + "', got "
      + [ByteChar(first), ByteChar(second)]
      + " (" + Hex2(Unsigned(first, 8)) + Hex2(Unsigned(second, 8)) + ")"
  }

  /** newWrongBlockTypeException: which of the two messages depends on the '##' bytes. */
  function WrongBlockType(expected: BlockTypeId, typeId: int32): Exception {
    Pow2Values();
    var hash1 := Wrap8(And(typeId, 0xFF, 32));
    var hash2 := Wrap8(And(ShiftRight(typeId, 8, 32), 0xFF, 32));
    if hash1 != HASH || hash2 != HASH then FormatError(HashPrefixMessage(hash1, hash2))
    else
      var first := Wrap8(And(ShiftRight(typeId, 16, 32), 0xFF, 32));
      var second := Wrap8(And(ShiftRight(typeId, 24, 32), 0xFF, 32));
      FormatError(UnexpectedTypeMessage(expected, first, second))
  }

  /** What parse(expected, input) yields when the input is at p in s. */
  function HeaderAt(s: seq<byte>, p: int, expected: BlockTypeId): (r: Result<BlockHeader>)
    requires 0 <= p <= |s| <= INT_MAX
    ensures I32At(s, p).Err? ==> r == Err(EndOfInput)
    ensures I32At(s, p).Ok? && I32At(s, p).value != expected.id ==> r == Err(WrongBlockType(expected, I32At(s, p).value))
    ensures I32At(s, p) == Ok(expected.id) ==> r == LengthAndLinksAt(s, p + 4)
    ensures r.Ok? ==> |r.value.links| <= INT_MAX && p + 24 + 8 * |r.value.links| <= |s|
  {
    var typeId :- I32At(s, p);
    if expected.id != typeId then Err(WrongBlockType(expected, typeId))
    else LengthAndLinksAt(s, p + 4)
  }

  /** The rest of parse once the type id before q has matched. */
  function LengthAndLinksAt(s: seq<byte>, q: int): (r: Result<BlockHeader>)
    requires 0 <= q <= |s| <= INT_MAX
    ensures r.Ok? ==> |r.value.links| <= INT_MAX && q + 20 + 8 * |r.value.links| <= |s|
  {
    var _ :- SeekCheck(q + 4, |s|);
    var length :- I64At(s, q + 4);
    var linkCount :- I64At(s, q + 12);
    if linkCount < -0x8000_0000 || linkCount > INT_MAX then Err(Arithmetic("integer overflow"))
    else if linkCount < 0 then Err(NegativeArraySize)
    else
      var links :- LinksAt(s, q + 20, linkCount);
      Ok(BlockHeader(length, links))
  }

  /** What follows the id: accepted when the link count is in int range and every link is present. */
  lemma {:induction false} LengthAndLinksAtMeaning(s: seq<byte>, q: int)
    requires 0 <= q <= |s| <= INT_MAX
    ensures LengthAndLinksAt(s, q).Ok? <==>
              q + 20 <= |s| && 0 <= I64At(s, q + 12).value <= INT_MAX && q + 20 + 8 * I64At(s, q + 12).value <= |s|
    ensures LengthAndLinksAt(s, q).Ok? ==>
              LengthAndLinksAt(s, q).value.length == I64At(s, q + 4).value &&
              |LengthAndLinksAt(s, q).value.links| == I64At(s, q + 12).value
    ensures LengthAndLinksAt(s, q).Ok? ==>
              forall i :: 0 <= i < |LengthAndLinksAt(s, q).value.links| ==>
                LengthAndLinksAt(s, q).value.links[i] == SignedLe(s[q + 20 + 8 * i..q + 28 + 8 * i])
  {
  }

  /** The header parse accepts: the expected id, a link count in int range, and all links present. */
  lemma {:induction false} HeaderAtMeaning(s: seq<byte>, p: int, expected: BlockTypeId)
    requires 0 <= p <= |s| <= INT_MAX
    ensures HeaderAt(s, p, expected).Ok? <==>
              p + 24 <= |s| && I32At(s, p) == Ok(expected.id) &&
              0 <= I64At(s, p + 16).value <= INT_MAX && p + 24 + 8 * I64At(s, p + 16).value <= |s|
    ensures HeaderAt(s, p, expected).Ok? ==>
              HeaderAt(s, p, expected).value.length == I64At(s, p + 8).value &&
              |HeaderAt(s, p, expected).value.links| == I64At(s, p + 16).value
    ensures HeaderAt(s, p, expected).Ok? ==>
              forall i :: 0 <= i < |HeaderAt(s, p, expected).value.links| ==>
                HeaderAt(s, p, expected).value.links[i] == SignedLe(s[p + 24 + 8 * i..p + 32 + 8 * i])
  {
    if I32At(s, p) == Ok(expected.id) {
      var r := LengthAndLinksAt(s, p + 4);
      LengthAndLinksAtMeaning(s, p + 4);
      assert HeaderAt(s, p, expected) == r;
      if r.Ok? {
        forall i | 0 <= i < |r.value.links|
          ensures r.value.links[i] == SignedLe(s[p + 24 + 8 * i..p + 32 + 8 * i])
        {
          assert p + 4 + 20 + 8 * i == p + 24 + 8 * i;
        }
      }
    }
  }

  /** A header whose fields read as these values parses to the header of those values. */
  lemma {:induction false} HeaderOfFields(s: seq<byte>, p: int, expected: BlockTypeId, length: int64, links: seq<int64>)
    requires 0 <= p && p + 24 + 8 * |links| <= |s| <= INT_MAX
    requires I32At(s, p) == Ok(expected.id) && I64At(s, p + 8) == Ok(length) && I64At(s, p + 16) == Ok(|links|)
    requires LinksAt(s, p + 24, |links|) == Ok(links)
    ensures HeaderAt(s, p, expected) == Ok(BlockHeader(length, links))
  {
    var q := p + 4;
    assert q + 4 == p + 8 && q + 12 == p + 16 && q + 20 == p + 24;
    assert LengthAndLinksAt(s, q) == Ok(BlockHeader(length, links));
  }

  /**
   * parse: reads the header at the input position and leaves the position
   * just after the last link.
   */
  method Parse(expected: BlockTypeId, input: ByteInput) returns (r: Result<BlockHeader>)
    requires input.Valid()
    modifies input
    ensures input.Valid() && input.bytes == old(input.bytes)
    ensures r == HeaderAt(old(input.bytes), old(input.pos), expected)
    ensures r.Ok? ==> input.pos == old(input.pos) + 24 + 8 * |r.value.links|
  {
    var typeId :- input.ReadI32();
    if expected.id != typeId {
      return Err(WrongBlockType(expected, typeId));
    }
    r := ReadLengthAndLinks(input);
  }

  /** The reads of parse after the type id: padding, length, link count, links. */
  method ReadLengthAndLinks(input: ByteInput) returns (r: Result<BlockHeader>)
    requires input.Valid()
    modifies input
    ensures input.Valid() && input.bytes == old(input.bytes)
    ensures r == LengthAndLinksAt(old(input.bytes), old(input.pos))
    ensures r.Ok? ==> input.pos == old(input.pos) + 20 + 8 * |r.value.links|
  {
    ghost var s, q := input.bytes, input.pos;
    var _ :- input.Skip(4);
    var length :- input.ReadI64();
    var linkCount :- input.ReadI64();
    assert input.pos == q + 20 && input.bytes == s;
    if linkCount < -0x8000_0000 || linkCount > INT_MAX {
      return Err(Arithmetic("integer overflow"));
    }
    if linkCount < 0 {
      return Err(NegativeArraySize);
    }
    var links :- ReadLinks(input, linkCount);
    return Ok(BlockHeader(length, links));
  }

  /** The loop of parse that reads n links in file order. */
  method ReadLinks(input: ByteInput, n: nat) returns (r: Result<seq<int64>>)
    requires input.Valid()
    modifies input
    ensures input.Valid() && input.bytes == old(input.bytes)
    ensures r == LinksAt(old(input.bytes), old(input.pos), n)
    ensures r.Ok? ==> input.pos == old(input.pos) + 8 * n
  {
    ghost var s, q := input.bytes, input.pos;
    var links: seq<int64> := [];
    var i := 0;
    while i < n
      invariant 0 <= i <= n
      invariant input.Valid() && input.bytes == s
      invariant input.pos == q + 8 * i
      invariant LinksAt(s, q, i) == Ok(links)
    {
      var link := input.ReadI64();
      if link.Err? {
        assert LinksAt(s, q, n).Err?;
        return Err(link.error);
      }
      links := links + [link.value];
      i := i + 1;
    }
    return Ok(links);
  }

  /** The four base-256 digits of a little-endian number. */
  lemma {:induction false} LittleEndianDigits(b0: int, b1: int, b2: int, b3: int)
    requires 0 <= b0 < 0x100 && 0 <= b1 < 0x100 && 0 <= b2 < 0x100 && 0 <= b3 < 0x100
    ensures var x := b0 + 0x100 * b1 + 0x1_0000 * b2 + 0x100_0000 * b3;
      x % 0x100 == b0 && (x / 0x100) % 0x100 == b1 &&
      (x / 0x1_0000) % 0x100 == b2 && (x / 0x100_0000) % 0x100 == b3
  {
    var x := b0 + 0x100 * b1 + 0x1_0000 * b2 + 0x100_0000 * b3;
    assert x % 0x100 == b0 && (x / 0x100) % 0x100 == b1 by {
      DivModUnique(x, 0x100, b1 + 0x100 * b2 + 0x1_0000 * b3, b0);
      DivModUnique(b1 + 0x100 * b2 + 0x1_0000 * b3, 0x100, b2 + 0x100 * b3, b1);
    }
    assert (x / 0x1_0000) % 0x100 == b2 by {
      DivModUnique(x, 0x1_0000, b2 + 0x100 * b3, b0 + 0x100 * b1);
      DivModUnique(b2 + 0x100 * b3, 0x100, b3, b2);
    }
    assert (x / 0x100_0000) % 0x100 == b3 by {
      DivModUnique(x, 0x100_0000, b3, b0 + 0x100 * b1 + 0x1_0000 * b2);
      DivModUnique(b3, 0x100, 0, b3);
    }
  }

  /** The four bytes of an int whose unsigned value has the digits b0..b3. */
  lemma {:induction false} IdDigits(id: int32, x: int, b0: int, b1: int, b2: int, b3: int)
    requires 0 <= b0 < 0x100 && 0 <= b1 < 0x100 && 0 <= b2 < 0x100 && 0 <= b3 < 0x100
    requires x == b0 + 0x100 * b1 + 0x1_0000 * b2 + 0x100_0000 * b3
    requires id == x || id == x - 0x1_0000_0000
    ensures And(id, 0xFF, 32) == b0
    ensures And(ShiftRight(id, 8, 32), 0xFF, 32) == b1
    ensures And(ShiftRight(id, 16, 32), 0xFF, 32) == b2
    ensures And(ShiftRight(id, 24, 32), 0xFF, 32) == b3
  {
    assert Pow2(0) == 1 && Pow2(8) == 0x100 && Pow2(16) == 0x1_0000 && Pow2(24) == 0x100_0000
        && Pow2(32) == 0x1_0000_0000 by {
      Pow2Values();
      Pow2Add(8, 16);
    }
    assert And(id, 0xFF, 32) == b0 by {
      LittleEndianDigits(b0, b1, b2, b3);
      ByteOfId(id, x, 0);
      DivModUnique(0, 32, 0, 0);
      DivModUnique(id, 1, id, 0);
    }
    assert And(ShiftRight(id, 8, 32), 0xFF, 32) == b1 by {
      LittleEndianDigits(b0, b1, b2, b3);
      ByteOfId(id, x, 8);
    }
    assert And(ShiftRight(id, 16, 32), 0xFF, 32) == b2 by {
      LittleEndianDigits(b0, b1, b2, b3);
      ByteOfId(id, x, 16);
    }
    assert And(ShiftRight(id, 24, 32), 0xFF, 32) == b3 by {
      LittleEndianDigits(b0, b1, b2, b3);
      ByteOfId(id, x, 24);
    }
  }

  /** The bytes of a type id are the bytes it was read from. */
  lemma {:induction false} TypeIdBytes(s: seq<byte>, p: int)
    requires 0 <= p && p + 4 <= |s|
    ensures var id := I32At(s, p).value;
      And(id, 0xFF, 32) == s[p] &&
      And(ShiftRight(id, 8, 32), 0xFF, 32) == s[p + 1] &&
      And(ShiftRight(id, 16, 32), 0xFF, 32) == s[p + 2] &&
      And(ShiftRight(id, 24, 32), 0xFF, 32) == s[p + 3]
  {
    var id := I32At(s, p).value;
    var b0: int, b1: int, b2: int, b3: int := s[p], s[p + 1], s[p + 2], s[p + 3];
    var x: int := b0 + 0x100 * b1 + 0x1_0000 * b2 + 0x100_0000 * b3;
    assert id == x || id == x - 0x1_0000_0000 by {
      FourBytes(s, p);
      LittleEndian4(b0, b1, b2, b3);
      Pow2Values();
      WrapBitsOfUnsigned(x, 32);
    }
    IdDigits(id, x, b0, b1, b2, b3);
  }

  /** A Java byte equals '#' exactly when the unsigned byte does. */
  lemma {:induction false} HashByte(b: byte)
    ensures Wrap8(b) == HASH <==> b == HASH
  {
    Pow2Values();
    if b < 0x80 {
      WrapBitsInRange(b, 8);
    } else {
      WrapBitsOfUnsigned(b, 8);
    }
  }

  /**
   * A wrong type id read from the file gets the '##' message exactly when
   * the file's first two bytes there are not '#', and otherwise names the
   * two type bytes found.
   */
  lemma {:induction false} WrongBlockTypeMessage(s: seq<byte>, p: int, expected: BlockTypeId)
    requires 0 <= p && p + 4 <= |s|
    ensures var e := WrongBlockType(expected, I32At(s, p).value);
      (s[p] != HASH || s[p + 1] != HASH) <==> e == FormatError(HashPrefixMessage(Wrap8(s[p]), Wrap8(s[p + 1])))
    ensures s[p] == HASH && s[p + 1] == HASH ==>
      WrongBlockType(expected, I32At(s, p).value) == FormatError(UnexpectedTypeMessage(expected, Wrap8(s[p + 2]), Wrap8(s[p + 3])))
  {
    TypeIdBytes(s, p);
    HashByte(s[p]);
    HashByte(s[p + 1]);
    var m1 := HashPrefixMessage(Wrap8(s[p]), Wrap8(s[p + 1]));
    var m2 := UnexpectedTypeMessage(expected, Wrap8(s[p + 2]), Wrap8(s[p + 3]));
    assert m1[0] == 'B' && m2[0] == 'E';
  }

  /** parseExpecting: parse, then demand a minimum number of links and data bytes. */
  function ExpectingAt(s: seq<byte>, p: int, expected: BlockTypeId, links: int32, minimumSize: int32): (r: Result<BlockHeader>)
    requires 0 <= p <= |s| <= INT_MAX
    ensures r.Ok? ==> |r.value.links| >= links && r.value.DataLength() >= minimumSize
    ensures r.Ok? ==> |r.value.links| <= INT_MAX && p + 24 + 8 * |r.value.links| <= |s|
  {
    var h :- HeaderAt(s, p, expected);
    if |h.links| < links then
      Err(FormatError("Expecting a minium of " + IntToString(links) + " in " + expected.ToString()
        + " block, but got " + IntToString(|h.links|) + " links"))
    else if h.DataLength() < minimumSize then
      Err(FormatError("Expecting a minium of " + IntToString(minimumSize) + " data bytes in " + expected.ToString()
        + " block, but got " + IntToString(h.DataLength()) + " data bytes"))
    else Ok(h)
  }

  /**
   * parseExpecting accepts exactly the headers parse accepts that have enough
   * links and data bytes; a header error passes through, a shortfall is a format error.
   */
  lemma {:induction false} ExpectingAtMeaning(s: seq<byte>, p: int, expected: BlockTypeId, links: int32, minimumSize: int32)
    requires 0 <= p <= |s| <= INT_MAX
    ensures var r := ExpectingAt(s, p, expected, links, minimumSize);
      r.Ok? <==>
        HeaderAt(s, p, expected).Ok? &&
        |HeaderAt(s, p, expected).value.links| >= links &&
        HeaderAt(s, p, expected).value.DataLength() >= minimumSize
    ensures var r := ExpectingAt(s, p, expected, links, minimumSize);
      r.Ok? ==> r == HeaderAt(s, p, expected)
    ensures var r := ExpectingAt(s, p, expected, links, minimumSize);
      HeaderAt(s, p, expected).Err? ==> r == HeaderAt(s, p, expected)
    ensures var r := ExpectingAt(s, p, expected, links, minimumSize);
      r.Err? && HeaderAt(s, p, expected).Ok? ==> r.error.FormatError?
  {
  }

  method ParseExpecting(expected: BlockTypeId, input: ByteInput, links: int32, minimumSize: int32)
      returns (r: Result<BlockHeader>)
    requires input.Valid()
    modifies input
    ensures input.Valid() && input.bytes == old(input.bytes)
    ensures r == ExpectingAt(old(input.bytes), old(input.pos), expected, links, minimumSize)
    ensures r.Ok? ==> input.pos == old(input.pos) + 24 + 8 * |r.value.links|
  {
    var h :- Parse(expected, input);
    if |h.links| < links {
      return Err(FormatError("Expecting a minium of " + IntToString(links) + " in " + expected.ToString()
        + " block, but got " + IntToString(|h.links|) + " links"));
    }
    if h.DataLength() < minimumSize {
      return Err(FormatError("Expecting a minium of " + IntToString(minimumSize) + " data bytes in "
        + expected.ToString() + " block, but got " + IntToString(h.DataLength()) + " data bytes"));
    }
    return Ok(h);
  }
}
