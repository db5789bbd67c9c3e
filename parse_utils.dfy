// ParseUtils: the zero-terminated text of TX and MD blocks, and the
// all-bits-set test on raw flag words.

module ParseUtils {
  import opened JavaTypes
  import opened Bits
  import opened Results
  import opened Io
  import opened Arrays
  import opened Flags

  /**
   * The text up to the first NUL. UTF-8 encodes NUL as the single byte 0 and
   * never uses 0 inside another character, so the cut is made on the bytes;
   * decoding the kept bytes is not modelled.
   */
  function TextOf(data: seq<byte>): (r: Result<seq<byte>>)
    ensures r.Ok? <==> 0 in data
    ensures r.Ok? ==> r.value == data[..FirstIndex(data, 0)]
    ensures r.Ok? ==> 0 !in r.value && r.value + [0] <= data
    ensures r.Err? ==> r.error == FormatError("Missing zero termination of text block")
  {
    var size := FirstIndex(data, 0);
    if size == -1 then Err(FormatError("Missing zero termination of text block"))
    else
      assert data[..size] + [0] == data[..size + 1];
      Ok(data[..size])
  }

  /** parseText(input, length) for the input at p in s. */
  function TextAt(s: seq<byte>, p: int, length: int64): (r: Result<seq<byte>>)
    ensures length < -0x8000_0000 || length > INT_MAX ==> r == Err(Arithmetic("integer overflow"))
    ensures 0 <= length <= INT_MAX && 0 <= p && p + length <= |s| ==> r == TextOf(s[p..p + length])
    ensures 0 <= length <= INT_MAX && 0 <= p && p + length > |s| ==> r == Err(EndOfInput)
    ensures -0x8000_0000 <= length < 0 ==> r == Err(NegativeArraySize)
  {
    if length < -0x8000_0000 || length > INT_MAX then Err(Arithmetic("integer overflow"))
    else
      var data :- BytesAt(s, p, length);
      TextOf(data)
  }

  method ParseText(input: ByteInput, length: int64) returns (r: Result<seq<byte>>)
    requires input.Valid()
    modifies input
    ensures input.Valid() && input.bytes == old(input.bytes)
    ensures r == TextAt(old(input.bytes), old(input.pos), length)
    ensures r.Ok? ==> input.pos == old(input.pos) + length
  {
    if length < -0x8000_0000 || length > INT_MAX {
      return Err(Arithmetic("integer overflow"));
    }
    var data :- input.ReadBytes(length);
    return TextOf(data);
  }

  /** flagsSet(toTest, flags): (toTest & flags) == flags. */
  predicate FlagsSet(toTest: int32, flags: int32) {
    And(toTest, flags, 32) == flags
  }

  /** flagsSet holds exactly when every bit of flags is set in toTest. */
  lemma {:induction false} FlagsSetMeaning(toTest: int32, flags: int32)
    ensures FlagsSet(toTest, flags) <==> forall i :: 0 <= i < 32 ==> BitOf(flags, i) ==> BitOf(toTest, i)
  {
    AllOfIsSuperset(BitFlags(toTest, []), BitFlags(flags, []));
  }

  /** No flags are always set. */
  lemma {:induction false} FlagsSetZero(toTest: int32)
    ensures FlagsSet(toTest, 0)
  {
    FlagsSetMeaning(toTest, 0);
    Pow2Values();
    ZeroIffNoBits(0, 32);
  }
}
