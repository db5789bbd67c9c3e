// The boxed unsigned long that channels of unsigned 64-bit integers deliver:
// the raw bits of a Java long, read as a number from 0 to 2^64 - 1.

module UnsignedLongs {
  import opened JavaTypes
  import opened Bits
  import opened Text

  const LONG_UNSIGNED_MASK: int64 := 0x7fff_ffff_ffff_ffff

  /** BigInteger.setBit(n) on a nonnegative number. */
  function SetBit(b: nat, n: nat): nat {
    if BitOf(b, n) then b else b + Pow2(n)
  }

  /** The mask keeps the low 63 bits: value & LONG_UNSIGNED_MASK. */
  function MaskedValue(value: int64): (r: int64)
    ensures r == Unsigned(value, 63)
  {
    Pow2Values();
    AndLowMask(value, 63, 64);
    And(value, LONG_UNSIGNED_MASK, 64)
  }

  /** The low 63 bits of a long, as a number: value, or value + 2^63 when negative. */
  lemma {:induction false} LowBitsOfLong(value: int64)
    ensures value >= 0 ==> Unsigned(value, 63) == value
    ensures value < 0 ==> Unsigned(value, 63) == value + 0x8000_0000_0000_0000
    ensures value < 0 ==> Unsigned(value, 64) == value + 0x1_0000_0000_0000_0000
  {
    Pow2Values();
    if value >= 0 {
      DivModUnique(value, Pow2(63), 0, value);
    } else {
      DivModUnique(value, Pow2(63), -1, value + Pow2(63));
      DivModUnique(value, Pow2(64), -1, value + Pow2(64));
    }
  }

  /** Setting bit 63 of the masked value gives back the unsigned value. */
  lemma {:induction false} SetTopBitIsUnsigned(value: int64)
    ensures value < 0 ==> SetBit(MaskedValue(value), 63) == Unsigned(value, 64)
    ensures value >= 0 ==> MaskedValue(value) == Unsigned(value, 64) == value
  {
    LowBitsOfLong(value);
    var masked := MaskedValue(value);
    var p := Pow2(63);
    assert p == 0x8000_0000_0000_0000 && Pow2(64) == 2 * p by {
      Pow2Values();
    }
    assert !BitOf(masked, 63) by {
      DivModUnique(masked, p, 0, masked);
    }
    if value >= 0 {
      DivModUnique(value, Pow2(64), 0, value);
    }
  }

  /**
   * The unsigned value as a BigInteger: the masked low 63 bits, with bit 63
   * set again when the long is negative.
   */
  function ToBigIntegerValue(value: int64): (r: nat)
    ensures r == Unsigned(value, 64)
    ensures value >= 0 ==> r == value
    ensures Wrap64(r) == value
  {
    SetTopBitIsUnsigned(value);
    assert Wrap64(Unsigned(value, 64)) == value by {
      Pow2Values();
      WrapOfUnsigned(value, 64);
    }
    var masked := MaskedValue(value);
    if value < 0 then SetBit(masked, 63) else masked
  }

  /** Long.toUnsignedString: the decimal digits of the unsigned value. */
  function ToUnsignedString(value: int64): (s: string)
    ensures |s| >= 1 && forall i :: 0 <= i < |s| ==> IsDigit(s[i])
    ensures s[0] == '0' ==> |s| == 1
    ensures DigitsValue(s) == Unsigned(value, 64)
  {
    DigitsOfNat(ToBigIntegerValue(value));
    NatToString(ToBigIntegerValue(value))
  }

  datatype UnsignedLong = UnsignedLong(value: int64)
  {
    /**
     * Number.longValue: the value with only its top bit cleared, so a value
     * of 2^63 or more comes out 2^63 smaller.
     */
    function LongValue(): (r: int64)
      ensures 0 <= r
      ensures value >= 0 ==> r == value
      ensures value < 0 ==> r == value + 0x8000_0000_0000_0000
      ensures r == ToBigIntegerValue(value) % 0x8000_0000_0000_0000
    {
      LowBitsOfLong(value);
      Pow2Values();
      MaskedValue(value)
    }

    /** Number.intValue: the low 32 bits, which clearing bit 63 leaves alone. */
    function IntValue(): (r: int32)
      ensures Unsigned(r, 32) == Unsigned(value, 32)
      ensures 0 <= value <= INT_MAX ==> r == value
    {
      var l := LongValue();
      Pow2Values();
      UnsignedOfWrap(l, 32);
      assert Unsigned(l, 32) == Unsigned(value, 32) by {
        if value < 0 {
          ModAddMultiple(value, 0x8000_0000, Pow2(32));
        }
      }
      Wrap32Exact(value);
      Wrap32(l)
    }

    /** Two boxes are equal exactly when they hold the same unsigned number. */
    function Equals(o: UnsignedLong): (r: bool)
      ensures r <==> ToBigIntegerValue(value) == ToBigIntegerValue(o.value)
    {
      value == o.value
    }

    /**
     * Long.hashCode: (int) (value ^ (value >>> 32)), so bit i of the hash is
     * bit i of the value xor bit i + 32.
     */
    function HashCode(): (r: int32)
      ensures forall i :: 0 <= i < 32 ==> (BitOf(r, i) <==> BitOf(value, i) != BitOf(value, i + 32))
    {
      var shifted := UnsignedShiftRight(value, 32, 64);
      var mixed := Xor(value, shifted, 64);
      HashBits(value, shifted, mixed);
      Wrap32(mixed)
    }

    /** toString: Long.toUnsignedString of the stored bits. */
    function ToString(): (s: string)
      ensures |s| >= 1 && forall i :: 0 <= i < |s| ==> IsDigit(s[i])
      ensures s[0] == '0' ==> |s| == 1
      ensures DigitsValue(s) == Unsigned(value, 64)
    {
      ToUnsignedString(value)
    }
  }

  lemma {:induction false} HashBits(value: int64, shifted: int, mixed: int)
    requires shifted == UnsignedShiftRight(value, 32, 64)
    requires mixed == Xor(value, shifted, 64)
    ensures forall i :: 0 <= i < 32 ==> (BitOf(Wrap32(mixed), i) <==> BitOf(value, i) != BitOf(value, i + 32))
  {
    forall i | 0 <= i < 32
      ensures BitOf(Wrap32(mixed), i) <==> BitOf(value, i) != BitOf(value, i + 32)
    {
      BitOfWrap(mixed, 32, i);
      BitOfJavaXor(value, shifted, 64, i);
      BitOfUnsignedShift(value, 32, 64, i);
    }
  }
}
