// The four-byte block type identifier "##XY" of an MDF 4 block, packed into
// one Java int with the first '#' in the low byte.

module BlockTypeIds {
  import opened JavaTypes
  import opened Bits
  import opened Results
  import opened Text
  import opened Io

  const HASH: int := 0x23  // '#'

  /** Two ids are equal exactly when their packed ints are (datatype equality). */
  datatype BlockTypeId = BlockTypeId(id: int32)
  {
    /** (char) ((id >> 16) & 0xFF) */
    function FirstChar(): (c: char16)
      ensures c < 0x100
    {
      Pow2Values();
      AndLowMask(ShiftRight(id, 16, 32), 8, 32);
      And(ShiftRight(id, 16, 32), 0xFF, 32)
    }

    /** (char) ((id >> 24) & 0xFF) */
    function SecondChar(): (c: char16)
      ensures c < 0x100
    {
      Pow2Values();
      AndLowMask(ShiftRight(id, 24, 32), 8, 32);
      And(ShiftRight(id, 24, 32), 0xFF, 32)
    }

    /** toString: the two type characters. */
    function ToString(): (s: string)
      ensures |s| == 2
    {
      [FirstChar() as char, SecondChar() as char]
    }
  }

  /** Java's (char) cast of a byte: sign extension to 16 bits. */
  function CharOfByte(b: int8): (c: char16)
    ensures b >= 0 ==> c == b
    ensures b < 0 ==> c == 0x1_0000 + b
  {
    Pow2Values();
    if b >= 0 then
      DivModUnique(b, Pow2(16), 0, b);
      Unsigned(b, 16)
    else
      DivModUnique(b, Pow2(16), -1, 0x1_0000 + b);
      Unsigned(b, 16)
  }

  /** The constant part '#' | ('#' << 8) of of(char, char), which the Java compiler folds. */
  const HASH_PAIR: int := 0x2323

  /** A byte cast to char, as a character: never a surrogate. */
  function ByteChar(b: int8): (c: char)
    ensures c as int == CharOfByte(b)
  {
    CharOfByte(b) as char
  }

  /** of(char a, char b): '#' | ('#' << 8) | (a << 16) | (b << 24), the first two terms folded. */
  function OfChars(a: char16, b: char16): BlockTypeId {
    Pow2Values();
    BlockTypeId(Or(Or(HASH_PAIR, ShiftLeft(a, 16, 32), 32), ShiftLeft(b, 24, 32), 32))
  }

  /** of(byte a, byte b): the bytes are first cast to char. */
  function OfBytes(a: int8, b: int8): BlockTypeId {
    OfChars(CharOfByte(a), CharOfByte(b))
  }

  /** HASH_PAIR is the value of '#' | ('#' << 8). */
  lemma {:induction false} HashPair()
    ensures Or(HASH, ShiftLeft(HASH, 8, 32), 32) == HASH_PAIR
  {
    Pow2Values();
    OrBelow(HASH, HASH, 8, 32);
    WrapBitsInRange(0x2323, 32);
  }

  lemma {:induction false} TypeCharsAbove(a: int, b: int)
    requires 0 <= a < 0x100 && 0 <= b < 0x100
    ensures Or(0x2323, ShiftLeft(a, 16, 32), 32) == 0x2323 + 0x1_0000 * a
    ensures Or(0x2323 + 0x1_0000 * a, ShiftLeft(b, 24, 32), 32) == WrapBits(0x2323 + 0x1_0000 * a + 0x100_0000 * b, 32)
  {
    Pow2Values();
    Pow2Add(8, 16);
    assert Pow2(24) == 0x100_0000;
    assert a * Pow2(16) == 0x1_0000 * a;
    assert b * Pow2(24) == 0x100_0000 * b;
    OrBelow(0x2323, a, 16, 32);
    WrapBitsInRange(0x2323 + 0x1_0000 * a, 32);
    OrBelow(0x2323 + 0x1_0000 * a, b, 24, 32);
  }

  /** The packed value before the final narrowing to int. */
  lemma {:induction false} PackedValue(a: char16, b: char16)
    requires a < 0x100 && b < 0x100
    ensures OfChars(a, b).id == WrapBits(0x2323 + 0x1_0000 * a + 0x100_0000 * b, 32)
  {
    TypeCharsAbove(a, b);
  }

  /** of(a, b) packs '#', '#', a, b into one int, low byte first. */
  lemma {:induction false} OfCharsIsLittleEndian(a: char16, b: char16)
    requires a < 0x100 && b < 0x100
    ensures OfChars(a, b).id == SignedLe([HASH, HASH, a, b])
  {
    var big := 0x2323 + 0x1_0000 * a + 0x100_0000 * b;
    assert SignedLe([HASH, HASH, a, b]) == WrapBits(big, 32) by {
      LittleEndian4(HASH, HASH, a, b);
    }
    assert OfChars(a, b).id == WrapBits(big, 32) by {
      PackedValue(a, b);
    }
  }

  /** Dividing out the low bytes leaves a multiple of p8 above the wanted byte. */
  lemma {:induction false} ShiftedResidue(y: int, x: int, m: int, pn: int, p8: int, rest: int)
    requires pn > 0 && p8 > 0 && rest > 0
    requires y == x + m * (pn * (p8 * rest))
    ensures (y / pn) % p8 == (x / pn) % p8
  {
    assert m * (pn * (p8 * rest)) == ((m * rest) * p8) * pn;
    ModAddMultiple(x, (m * rest) * p8, pn);
    ModAddMultiple(x / pn, m * rest, p8);
  }

  /** (id >> n) & 0xFF reads byte n / 8 of the unsigned x that id is the wrap of. */
  lemma {:induction false} ByteOfId(id: int32, x: int, n: nat)
    requires n <= 24
    requires 0 <= x < Pow2(32) && (id == x || id == x - Pow2(32))
    ensures And(ShiftRight(id, n, 32), 0xFF, 32) == (x / Pow2(n)) % 0x100
  {
    var pn := Pow2(n);
    var p8 := Pow2(8);
    var rest := Pow2(24 - n);
    assert Pow2(32) == pn * (p8 * rest) by {
      Pow2Add(n, 32 - n);
      Pow2Add(8, 24 - n);
    }
    assert (id / pn) % p8 == (x / pn) % p8 by {
      if id == x {
        ShiftedResidue(id, x, 0, pn, p8, rest);
      } else {
        ShiftedResidue(id, x, -1, pn, p8, rest);
      }
    }
    assert ShiftRight(id, n, 32) == id / pn by {
      DivModUnique(n, 32, 0, n);
    }
    assert And(id / pn, 0xFF, 32) == (id / pn) % p8 by {
      Pow2Values();
      AndLowMask(id / pn, 8, 32);
    }
    assert p8 == 0x100 by {
      Pow2Values();
    }
  }

  /** For byte-range chars, getFirstChar and getSecondChar give a and b back. */
  lemma {:induction false} CharsRoundTrip(a: char16, b: char16)
    requires a < 0x100 && b < 0x100
    ensures OfChars(a, b).FirstChar() == a
    ensures OfChars(a, b).SecondChar() == b
  {
    FirstCharRoundTrip(a, b);
    SecondCharRoundTrip(a, b);
  }

  /** toString of an id packed from two byte-range chars spells exactly those two chars. */
  lemma {:induction false} ToStringOfChars(a: char16, b: char16)
    requires a < 0x100 && b < 0x100
    ensures OfChars(a, b).ToString() == [a as char, b as char]
  {
    CharsRoundTrip(a, b);
  }

  lemma {:induction false} FirstCharRoundTrip(a: char16, b: char16)
    requires a < 0x100 && b < 0x100
    ensures OfChars(a, b).FirstChar() == a
  {
    PackedValue(a, b);
    FirstOfPacked(OfChars(a, b), a, b);
  }

  lemma {:induction false} SecondCharRoundTrip(a: char16, b: char16)
    requires a < 0x100 && b < 0x100
    ensures OfChars(a, b).SecondChar() == b
  {
    PackedValue(a, b);
    SecondOfPacked(OfChars(a, b), a, b);
  }

  lemma {:induction false} FirstOfPacked(t: BlockTypeId, a: char16, b: char16)
    requires a < 0x100 && b < 0x100
    requires t.id == WrapBits(0x2323 + 0x1_0000 * a + 0x100_0000 * b, 32)
    ensures t.FirstChar() == a
  {
    var big := 0x2323 + 0x1_0000 * a + 0x100_0000 * b;
    Pow2Values();
    Pow2Add(8, 16);
    WrapBitsOfUnsigned(big, 32);
    ByteOfId(t.id, big, 16);
    DivModUnique(big, 0x1_0000, a + 0x100 * b, 0x2323);
    DivModUnique(a + 0x100 * b, 0x100, b, a);
  }

  lemma {:induction false} SecondOfPacked(t: BlockTypeId, a: char16, b: char16)
    requires a < 0x100 && b < 0x100
    requires t.id == WrapBits(0x2323 + 0x1_0000 * a + 0x100_0000 * b, 32)
    ensures t.SecondChar() == b
  {
    var big := 0x2323 + 0x1_0000 * a + 0x100_0000 * b;
    Pow2Values();
    Pow2Add(8, 16);
    WrapBitsOfUnsigned(big, 32);
    ByteOfId(t.id, big, 24);
    DivModUnique(big, 0x100_0000, b, 0x2323 + 0x1_0000 * a);
    DivModUnique(b, 0x100, 0, b);
  }

  /** Equal ids of byte-range chars have equal chars. */
  lemma {:induction false} OfCharsInjective(a: char16, b: char16, c: char16, d: char16)
    requires a < 0x100 && b < 0x100 && c < 0x100 && d < 0x100
    ensures OfChars(a, b) == OfChars(c, d) <==> a == c && b == d
  {
    if OfChars(a, b) == OfChars(c, d) {
      CharsRoundTrip(a, b);
      CharsRoundTrip(c, d);
    }
  }

  /** The message parse raises for a missing "##": the two bytes in decimal. */
  function NotABlock(hash1: int8, hash2: int8): Exception {
    FormatError("Not a block: prefix: " + IntToString(hash1) + "," + IntToString(hash2))
  }

  /** The four bytes at p as Java bytes, or the end of input when fewer remain. */
  function FourAt(s: seq<byte>, p: int): (r: Result<(int8, int8, int8, int8)>)
    requires 0 <= p <= |s|
    ensures r.Ok? <==> p + 4 <= |s|
    ensures r.Err? ==> r.error == EndOfInput
  {
    if p + 4 > |s| then Err(EndOfInput)
    else Ok((Wrap8(s[p]), Wrap8(s[p + 1]), Wrap8(s[p + 2]), Wrap8(s[p + 3])))
  }

  /** What parse returns for the buffer s read from position p. */
  function TypeIdAt(s: seq<byte>, p: int): (r: Result<BlockTypeId>)
    requires 0 <= p <= |s|
    ensures r.Ok? <==> p + 4 <= |s| && s[p] == HASH && s[p + 1] == HASH
    ensures p + 4 > |s| ==> r == Err(EndOfInput)
  {
    var four :- FourAt(s, p);
    var (hash1, hash2, first, second) := four;
    Pow2Values();
    DivModUnique(s[p], Pow2(8), 0, s[p]);
    DivModUnique(s[p + 1], Pow2(8), 0, s[p + 1]);
    if hash1 != HASH || hash2 != HASH then Err(NotABlock(hash1, hash2))
    else Ok(OfBytes(first, second))
  }

  /**
   * The four reads of parse: on success the bytes at the old position, wrapped to
   * Java bytes; when the input ends first, the position has run to the end.
   */
  method ReadFour(input: ByteInput) returns (r: Result<(int8, int8, int8, int8)>)
    requires input.Valid()
    modifies input
    ensures input.Valid() && input.bytes == old(input.bytes)
    ensures r == FourAt(input.bytes, old(input.pos))
    ensures input.pos == if r.Ok? then old(input.pos) + 4 else |input.bytes|
  {
    var hash1 :- input.ReadU8();
    var hash2 :- input.ReadU8();
    var first :- input.ReadU8();
    var second :- input.ReadU8();
    return Ok((hash1, hash2, first, second));
  }

  /**
   * parse: reads the four bytes, seeks back, and checks the "##" prefix. The
   * position is restored unless the input ends inside the four bytes.
   */
  method Parse(input: ByteInput) returns (r: Result<BlockTypeId>)
    requires input.Valid()
    modifies input
    ensures input.Valid() && input.bytes == old(input.bytes)
    ensures r == TypeIdAt(old(input.bytes), old(input.pos))
    ensures input.pos == if old(input.pos) + 4 <= |input.bytes| then old(input.pos) else |input.bytes|
  {
    var backup := input.pos;
    var four :- ReadFour(input);
    var ok := input.Seek(backup);
    var (hash1, hash2, first, second) := four;
    if hash1 != HASH || hash2 != HASH {
      return Err(NotABlock(hash1, hash2));
    }
    return Ok(OfBytes(first, second));
  }

  /** For an ASCII type id, parse yields the int that readI32 reads there. */
  lemma {:induction false} ParseAgreesWithReadI32(s: seq<byte>, p: int)
    requires 0 <= p && p + 4 <= |s|
    requires s[p] == HASH && s[p + 1] == HASH && s[p + 2] < 0x80 && s[p + 3] < 0x80
    ensures TypeIdAt(s, p).Ok? && TypeIdAt(s, p).value.id == IntAt(s, p, 4).value
  {
    var c, d := s[p + 2], s[p + 3];
    assert Wrap8(c) == c && Wrap8(d) == d by {
      Pow2Values();
      WrapBitsInRange(c, 8);
      WrapBitsInRange(d, 8);
    }
    assert CharOfByte(c) == c && CharOfByte(d) == d;
    assert TypeIdAt(s, p) == Ok(OfChars(c, d));
    assert OfChars(c, d).id == SignedLe([HASH, HASH, c, d]) by {
      OfCharsIsLittleEndian(c, d);
    }
    FourBytes(s, p);
  }

}
