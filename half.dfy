// Half: IEEE 754-2008 binary16 values kept as their 16-bit patterns (a Java
// short), the classification predicates on such a pattern, and toFloat, which
// widens a binary16 pattern to the binary32 pattern of the same value. Floats
// are modelled by their 32-bit patterns (what Float.intBitsToFloat receives).

module Halves {
  import opened JavaTypes
  import opened Bits

  const POSITIVE_INFINITY: int16 := 0x7C00
  /** (short) 0xFC00. */
  const NEGATIVE_INFINITY: int16 := -0x400
  const NaN: int16 := 0x7C01
  const MAX_VALUE: int16 := 0x7BFF
  const MIN_NORMAL: int16 := 0x0400
  const MIN_VALUE: int16 := 0x0001

  lemma {:induction false} HalfPowers()
    ensures Pow2(0) == 1 && Pow2(1) == 2 && Pow2(5) == 32 && Pow2(8) == 0x100
    ensures Pow2(10) == 0x400 && Pow2(11) == 0x800 && Pow2(13) == 0x2000
    ensures Pow2(15) == 0x8000 && Pow2(16) == 0x1_0000 && Pow2(23) == 0x80_0000
    ensures Pow2(31) == 0x8000_0000 && Pow2(32) == 0x1_0000_0000
  {
    Pow2Values();
    assert Pow2(1) == 2;
    assert Pow2(2) == 4;
    Pow2Add(2, 3);
    Pow2Add(5, 5);
    Pow2Add(3, 8);
    Pow2Add(5, 8);
    Pow2Add(8, 15);
  }

  // ---------------------------------------------------------------------
  // The fields of a binary16 pattern: sign bit 15, exponent bits 10-14,
  // significand bits 0-9.

  function Exponent(bits: int16): nat {
    BitField(bits, 10, 5)
  }

  function Significand(bits: int16): nat {
    BitField(bits, 0, 10)
  }

  /** The three fields make up the pattern, and the sign bit is set exactly for negative shorts. */
  lemma {:induction false} HalfFields(bits: int16)
    ensures Exponent(bits) < 32 && Significand(bits) < 0x400
    ensures BitField(bits, 15, 1) == (if bits < 0 then 1 else 0)
    ensures Unsigned(bits, 16) == BitField(bits, 15, 1) * 0x8000 + Exponent(bits) * 0x400 + Significand(bits)
    ensures bits == Unsigned(bits, 16) - (if bits < 0 then 0x1_0000 else 0)
  {
    HalfPowers();
    var u := Unsigned(bits, 16);
    if bits < 0 {
      DivModUnique(bits, 0x1_0000, -1, bits + 0x1_0000);
    } else {
      DivModUnique(bits, 0x1_0000, 0, bits);
    }
    BitFieldOfUnsigned(bits, 15, 1, 16);
    BitFieldOfUnsigned(bits, 10, 5, 16);
    BitFieldOfUnsigned(bits, 0, 10, 16);
    var q := u / 0x400;
    DivDiv(u, 0x400, 32);
    assert u == q * 0x400 + u % 0x400;
    assert q == (q / 32) * 32 + q % 32;
    assert u / 0x8000 < 2;
    DivModUnique(u / 0x8000, 2, 0, u / 0x8000);
  }

  /** What Java's bits & 0x8000, bits & 0x7c00 and bits & 0x03ff give on the widened short. */
  lemma {:induction false} HalfMasks(bits: int16)
    ensures And(bits, 0x8000, 32) == (if bits < 0 then 0x8000 else 0)
    ensures And(bits, 0x7c00, 32) == Exponent(bits) * 0x400
    ensures And(bits, 0x03ff, 32) == Significand(bits)
  {
    HalfPowers();
    MaskedField(bits, 15, 1, 32);
    MaskedField(bits, 10, 5, 32);
    MaskedField(bits, 0, 10, 32);
    HalfFields(bits);
  }

  lemma {:induction false} ConstantFields()
    ensures Exponent(POSITIVE_INFINITY) == 31 && Significand(POSITIVE_INFINITY) == 0
    ensures Exponent(NEGATIVE_INFINITY) == 31 && Significand(NEGATIVE_INFINITY) == 0
    ensures Exponent(NaN) == 31 && Significand(NaN) == 1
    ensures Exponent(0) == 0 && Significand(0) == 0
    ensures Exponent(-0x8000) == 0 && Significand(-0x8000) == 0
  {
    HalfPowers();
    HalfFields(POSITIVE_INFINITY);
    HalfFields(NEGATIVE_INFINITY);
    HalfFields(NaN);
    HalfFields(0);
    HalfFields(-0x8000);
  }

  // ---------------------------------------------------------------------
  // Classification.

  /** isNaN: all exponent bits set and a nonzero significand. */
  function IsNaN(bits: int16): (r: bool)
    ensures r <==> Exponent(bits) == 31 && Significand(bits) != 0
  {
    HalfMasks(bits);
    HalfFields(bits);
    And(bits, 0x7c00, 32) == 0x7c00 && And(bits, 0x03ff, 32) != 0
  }

  /** isInfinite: the two infinity constants, which are the patterns with all exponent bits set and a zero significand. */
  function IsInfinite(bits: int16): (r: bool)
    ensures r <==> Exponent(bits) == 31 && Significand(bits) == 0
  {
    HalfFields(bits);
    ConstantFields();
    bits == POSITIVE_INFINITY || bits == NEGATIVE_INFINITY
  }

  /** isFinite: not all exponent bits set. */
  function IsFinite(bits: int16): (r: bool)
    ensures r <==> Exponent(bits) != 31
  {
    HalfMasks(bits);
    HalfFields(bits);
    And(bits, 0x7c00, 32) != 0x7c00
  }

  /** Every pattern is exactly one of finite, infinite and NaN. */
  lemma {:induction false} ClassesPartition(bits: int16)
    ensures IsFinite(bits) <==> !IsInfinite(bits) && !IsNaN(bits)
    ensures !(IsInfinite(bits) && IsNaN(bits))
  {
  }

  /** A Half holds the raw pattern it was made from. */
  datatype Half = FromShortBits(value: int16) {
    function RawShortBits(): int16 {
      value
    }

    /** shortBits: every NaN becomes the NaN constant; other patterns are returned as they are. */
    function ShortBits(): (r: int16)
      ensures IsNaN(r) <==> IsNaN(value)
      ensures !IsNaN(value) ==> r == value
      ensures IsNaN(value) ==> r == NaN
    {
      ConstantFields();
      if IsNaN(value) then NaN else value
    }
  }

  /** shortBits is idempotent, and two Halves have the same shortBits exactly when both are NaN or their patterns agree. */
  lemma {:induction false} ShortBitsNormalizes(h: Half, g: Half)
    ensures FromShortBits(h.ShortBits()).ShortBits() == h.ShortBits()
    ensures h.ShortBits() == g.ShortBits() <==> (IsNaN(h.value) && IsNaN(g.value)) || h.value == g.value
  {
    var a := h.ShortBits();
    var b := g.ShortBits();
    assert FromShortBits(a).value == a;
    if IsNaN(h.value) != IsNaN(g.value) {
      assert IsNaN(a) != IsNaN(b);
    }
  }

  // ---------------------------------------------------------------------
  // binary32 patterns: sign bit 31, exponent bits 23-30, significand bits 0-22.

  function FloatExponent(f: int32): nat {
    BitField(f, 23, 8)
  }

  function FloatSignificand(f: int32): nat {
    BitField(f, 0, 23)
  }

  predicate FloatIsNaN(f: int32) {
    FloatExponent(f) == 255 && FloatSignificand(f) != 0
  }

  predicate FloatIsInfinite(f: int32) {
    FloatExponent(f) == 255 && FloatSignificand(f) == 0
  }

  /** The binary32 pattern with the given sign, biased exponent and significand. */
  function FloatBits(negative: bool, exponent: nat, significand: nat): (f: int32)
    requires exponent < 0x100 && significand < 0x80_0000
    ensures f < 0 <==> negative
    ensures FloatExponent(f) == exponent && FloatSignificand(f) == significand
  {
    HalfPowers();
    var r := (if negative then -0x8000_0000 else 0) + exponent * 0x80_0000 + significand;
    DivModUnique(r, 0x80_0000, (if negative then -0x100 else 0) + exponent, significand);
    DivModUnique((if negative then -0x100 else 0) + exponent, 0x100, if negative then -1 else 0, exponent);
    DivModUnique(r, 1, r, 0);
    r
  }

  // ---------------------------------------------------------------------
  // toFloat.

  /** How many doublings take 1 <= m < 0x800 to bit 10. */
  function Shifts(m: int): (r: nat)
    requires 1 <= m < 0x800
    ensures m >= 0x400 <==> r == 0
    decreases 0x800 - m
  {
    if m >= 0x400 then 0 else 1 + Shifts(2 * m)
  }

  /** m doubled until bit 10 is its highest set bit. */
  function NormalizedSig(m: int): (r: int)
    requires 1 <= m < 0x800
    ensures 0x400 <= r < 0x800
    decreases 0x800 - m
  {
    if m >= 0x400 then m else NormalizedSig(2 * m)
  }

  /** At most 10 - k doublings are needed once bit k is reached. */
  lemma {:induction false} ShiftsBound(m: int, k: nat)
    requires 1 <= m < 0x800 && k <= 10 && Pow2(k) <= m
    ensures Shifts(m) <= 10 - k
    decreases 0x800 - m
  {
    if m < 0x400 {
      HalfPowers();
      ShiftsBound(2 * m, k + 1);
    }
  }

  /** The normalized significand is m times 2 to the number of doublings. */
  lemma {:induction false} NormalizedSigScales(m: int)
    requires 1 <= m < 0x800
    ensures NormalizedSig(m) == m * Pow2(Shifts(m))
    decreases 0x800 - m
  {
    if m < 0x400 {
      NormalizedSigScales(2 * m);
      var k := Shifts(2 * m);
      assert Pow2(k + 1) == 2 * Pow2(k);
      assert (2 * m) * Pow2(k) == m * (2 * Pow2(k));
    }
  }

  /**
   * The binary32 pattern of the value of a binary16 pattern: zeros, infinities
   * and NaNs keep their kind, normal values rebias the exponent from 15 to
   * 127, and subnormal values become normal floats.
   */
  function FloatOfHalf(bits: int16): (f: int32)
    ensures f < 0 <==> bits < 0
  {
    WideExponentBound(bits);
    FloatBits(bits < 0, WideExponent(bits), WideSignificand(bits) * 0x2000)
  }

  /** The biased binary32 exponent of the value of a binary16 pattern. */
  function WideExponent(bits: int16): nat {
    HalfFields(bits);
    var e, m := Exponent(bits), Significand(bits);
    if e == 0 && m == 0 then 0
    else if e == 0 then ShiftsBound(m, 0); 113 - Shifts(m)
    else if e == 31 then 0xFF
    else e + 112
  }

  /** The top ten significand bits of the binary32 pattern (the lower 13 are zero). */
  function WideSignificand(bits: int16): nat {
    HalfFields(bits);
    var e, m := Exponent(bits), Significand(bits);
    if e == 0 && m != 0 then NormalizedSig(m) - 0x400 else m
  }

  lemma {:induction false} WideExponentBound(bits: int16)
    ensures WideExponent(bits) < 0x100 && WideSignificand(bits) < 0x400
  {
    HalfFields(bits);
    if Exponent(bits) == 0 && Significand(bits) != 0 {
      ShiftsBound(Significand(bits), 0);
    }
  }

  /** Infinities stay infinities, NaNs stay NaNs, finite values stay finite. */
  lemma {:induction false} ToFloatKeepsClass(bits: int16)
    ensures FloatIsNaN(FloatOfHalf(bits)) <==> IsNaN(bits)
    ensures FloatIsInfinite(FloatOfHalf(bits)) <==> IsInfinite(bits)
    ensures FloatOfHalf(POSITIVE_INFINITY) == 0x7F80_0000
    ensures FloatOfHalf(NEGATIVE_INFINITY) == -0x80_0000
  {
    HalfFields(bits);
    ConstantFields();
  }

  /** The two zeros map to the two float zeros. */
  lemma {:induction false} ToFloatKeepsZeros()
    ensures FloatOfHalf(0) == 0
    ensures FloatOfHalf(-0x8000) == -0x8000_0000
  {
    ConstantFields();
  }

  /** Normal values: exponent rebiased by 112, significand moved up 13 bits. */
  lemma {:induction false} ToFloatRebiases(bits: int16)
    requires 1 <= Exponent(bits) <= 30
    ensures FloatExponent(FloatOfHalf(bits)) == Exponent(bits) + 112
    ensures FloatSignificand(FloatOfHalf(bits)) == Significand(bits) * Pow2(13)
  {
    HalfFields(bits);
    HalfPowers();
  }

  /** The significand and exponent of a finite binary16 value, scaled so that the value times 2^150 is their product. */
  function HalfScaled(bits: int16): int {
    var e, m := Exponent(bits), Significand(bits);
    if e == 0 then m * Pow2(1 + 125) else (0x400 + m) * Pow2(e + 125)
  }

  /** The value of a normal binary32 pattern times 2^150. */
  function FloatScaled(f: int32): int {
    (Pow2(23) + FloatSignificand(f)) * Pow2(FloatExponent(f))
  }

  /** Every finite nonzero binary16 value becomes a normal float of exactly the same magnitude. */
  lemma {:induction false} ToFloatKeepsValue(bits: int16)
    requires Exponent(bits) != 31 && !(Exponent(bits) == 0 && Significand(bits) == 0)
    ensures 1 <= FloatExponent(FloatOfHalf(bits)) <= 254
    ensures FloatScaled(FloatOfHalf(bits)) == HalfScaled(bits)
  {
    HalfFields(bits);
    HalfPowers();
    var e, m := Exponent(bits), Significand(bits);
    var f := FloatOfHalf(bits);
    if e == 0 {
      ShiftsBound(m, 0);
      var k, n := Shifts(m), NormalizedSig(m);
      NormalizedSigScales(m);
      assert FloatScaled(f) == (n * 0x2000) * Pow2(113 - k);
      SubnormalScale(m, k);
    } else {
      assert FloatScaled(f) == ((0x400 + m) * 0x2000) * Pow2(e + 112);
      NormalScale(0x400 + m, e);
    }
  }

  lemma {:induction false} SubnormalScale(m: int, k: nat)
    requires k <= 113
    ensures ((m * Pow2(k)) * 0x2000) * Pow2(113 - k) == m * Pow2(1 + 125)
  {
    HalfPowers();
    Pow2Add(k, 13);
    Pow2Add(k + 13, 113 - k);
    Associate(m, Pow2(k), Pow2(13), Pow2(113 - k));
  }

  lemma {:induction false} Associate(m: int, a: int, b: int, c: int)
    ensures ((m * a) * b) * c == m * ((a * b) * c)
  {
  }

  lemma {:induction false} NormalScale(h: int, e: nat)
    ensures (h * 0x2000) * Pow2(e + 112) == h * Pow2(e + 125)
  {
    HalfPowers();
    Pow2Add(13, e + 112);
    var b, c := Pow2(13), Pow2(e + 112);
    assert (h * b) * c == h * (b * c);
  }

  /** One pass of toFloat's normalisation loop: the doubling and the bit-10 test. */
  lemma {:induction false} DoubleStep(s: int)
    requires 1 <= s < 0x400
    ensures ShiftLeft(s, 1, 32) == 2 * s
    ensures (And(2 * s, 0x400, 32) != 0) <==> 2 * s >= 0x400
  {
    HalfPowers();
    assert s * Pow2(1 % 32) == 2 * s;
    WrapBitsInRange(2 * s, 32);
    MaskedField(2 * s, 10, 1, 32);
    assert (Pow2(1) - 1) * Pow2(10) == 0x400;
    if 2 * s >= 0x400 {
      DivModUnique(2 * s, 0x400, 1, 2 * s - 0x400);
    } else {
      DivModUnique(2 * s, 0x400, 0, 2 * s);
    }
    DivModUnique((2 * s) / 0x400, 2, 0, (2 * s) / 0x400);
  }

  /** Java's sign << 16 | (exponent | significant) << 13 for a float exponent and a 10-bit significand. */
  lemma {:induction false} AssembleFloat(negative: bool, e: nat, s: nat)
    requires e < 0x100 && s < 0x400
    ensures Or(ShiftLeft(if negative then 0x8000 else 0, 16, 32), ShiftLeft(Or(e * 0x400, s, 32), 13, 32), 32)
         == FloatBits(negative, e, s * 0x2000)
  {
    HalfPowers();
    OrOfDisjoint(e * 0x400, s, e, 10, 32);
    var low := (e * 0x400 + s) * 0x2000;
    assert (e * 0x400 + s) * Pow2(13 % 32) == low;
    WrapBitsInRange(low, 32);
    if negative {
      assert 0x8000 * Pow2(16 % 32) == 0x8000_0000;
      DivModUnique(0x8000_0000, 0x1_0000_0000, 0, 0x8000_0000);
      assert WrapBits(0x8000_0000, 32) == -0x8000_0000;
      OrSignBit(low, 32);
    } else {
      assert 0 * Pow2(16 % 32) == 0;
      WrapBitsInRange(0, 32);
      DivModUnique(0, 0x1_0000_0000, 0, 0);
      DivModUnique(low, 0x1_0000_0000, 0, low);
      BitOrZeroLeft(low, 32);
      WrapBitsInRange(low, 32);
    }
  }

  /**
   * toFloat's do-while loop on a nonzero subnormal significand: shift left
   * and lower the exponent until bit 10 is set, then drop bit 10.
   */
  method Normalize(m: int32) returns (significant: int32, exponent: int32)
    requires 1 <= m < 0x400
    ensures significant == NormalizedSig(m) - 0x400
    ensures exponent == 0x400 * (113 - Shifts(m))
  {
    ShiftsBound(m, 0);
    significant := m;
    exponent := 0x1c400;
    var done := false;
    while !done
      invariant 1 <= significant < 0x800
      invariant NormalizedSig(significant) == NormalizedSig(m)
      invariant exponent == 0x400 * (113 - Shifts(m) + Shifts(significant))
      invariant done <==> significant >= 0x400
      decreases 0x800 - significant
    {
      DoubleStep(significant);
      ShiftsBound(2 * significant, 0);
      Wrap32Exact(exponent - 0x400);
      significant := ShiftLeft(significant, 1, 32);
      exponent := Wrap32(exponent - 0x400);
      done := And(significant, 0x400, 32) != 0;
    }
    HalfPowers();
    AndLowMask(significant, 10, 32);
    DivModUnique(significant, 0x400, 1, significant - 0x400);
    significant := And(significant, 0x3ff, 32);
  }

  /** toFloat's first three lines: the sign, significand and exponent fields of the widened short, left in place. */
  method SplitFields(bits: int16) returns (sign: int32, significant: int32, exponent: int32)
    ensures sign == (if bits < 0 then 0x8000 else 0)
    ensures significant == Significand(bits) && significant < 0x400
    ensures exponent == Exponent(bits) * 0x400 && Exponent(bits) < 32
  {
    HalfMasks(bits);
    HalfFields(bits);
    sign := And(bits, 0x8000, 32);
    significant := And(bits, 0x03ff, 32);
    exponent := And(bits, 0x7c00, 32);
  }

  /** toFloat's last line: sign << 16 | (exponent | significant) << 13, for the fields the three cases leave. */
  method Pack(sign: int32, exponent: int32, significant: int32, ghost e: nat) returns (f: int32)
    requires sign == 0 || sign == 0x8000
    requires exponent == e * 0x400 && e < 0x100 && 0 <= significant < 0x400
    ensures f == FloatBits(sign != 0, e, significant * 0x2000)
  {
    AssembleFloat(sign != 0, e, significant);
    f := Or(ShiftLeft(sign, 16, 32), ShiftLeft(Or(exponent, significant, 32), 13, 32), 32);
  }

  /** toFloat's three exponent cases: zero or subnormal, infinity or NaN, normal. */
  method Widen(bits: int16, significant0: int32, exponent0: int32) returns (significant: int32, exponent: int32)
    requires significant0 == Significand(bits) && exponent0 == Exponent(bits) * 0x400 && Exponent(bits) < 32
    requires significant0 < 0x400
    ensures exponent == WideExponent(bits) * 0x400 && significant == WideSignificand(bits)
  {
    significant, exponent := significant0, exponent0;
    if exponent == 0 {
      if significant != 0 {
        ShiftsBound(significant, 0);
        significant, exponent := Normalize(significant);
      }
    } else if exponent == 0x7c00 {
      exponent := 0x3fc00;
    } else {
      Wrap32Exact(exponent + 0x1c000);
      exponent := Wrap32(exponent + 0x1c000);
    }
  }

  /** Half.toFloat: the field masks, the three exponent cases, and the final assembly. */
  method ToFloat(bits: int16) returns (f: int32)
    ensures f == FloatOfHalf(bits)
  {
    var sign, significant, exponent := SplitFields(bits);
    significant, exponent := Widen(bits, significant, exponent);
    WideExponentBound(bits);
    f := Pack(sign, exponent, significant, WideExponent(bits));
  }
}
