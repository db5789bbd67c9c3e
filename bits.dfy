// Java's bitwise | and ~ on int, and a bit-by-bit reading of &, | and ~ that
// the flag and block-id algebra is stated in. A number's bits are those of its
// unsigned w-bit value; bit i is BitOf(x, i).

module Bits {
  import opened JavaTypes

  predicate BitOf(x: int, i: nat) {
    (x / Pow2(i)) % 2 == 1
  }

  function BitOr(a: nat, b: nat, w: nat): (r: nat)
    ensures r < Pow2(w)
  {
    if w == 0 then 0
    else (if a % 2 == 1 || b % 2 == 1 then 1 else 0) + 2 * BitOr(a / 2, b / 2, w - 1)
  }

  /** Java's | on int (w = 32) or long (w = 64). */
  function Or(x: int, y: int, w: nat): (r: int)
    requires w >= 1
    ensures -Pow2(w - 1) <= r < Pow2(w - 1)
  {
    WrapBits(BitOr(Unsigned(x, w), Unsigned(y, w), w), w)
  }

  /** Java's ~ on a w-bit number. */
  function Not(x: int, w: nat): (r: int)
    requires w >= 1
    ensures -Pow2(w - 1) <= r < Pow2(w - 1)
  {
    WrapBits(Pow2(w) - 1 - Unsigned(x, w), w)
  }

  // ---------------------------------------------------------------------
  // Reading bits off a number.

  lemma {:induction false} BitOfStep(x: int, i: nat)
    requires i >= 1
    ensures BitOf(x, i) == BitOf(x / 2, i - 1)
  {
    Pow2Add(1, i - 1);
    DivDiv(x, 2, Pow2(i - 1));
  }

  lemma {:induction false} DivDiv(x: int, a: int, b: int)
    requires a >= 1 && b >= 1
    ensures x / (a * b) == (x / a) / b
  {
    var q := (x / a) / b;
    var s := (x / a) % b;
    var t := x % a;
    assert x == (q * b + s) * a + t;
    assert x == q * (a * b) + (s * a + t);
    MulNonneg(s, a);
    MulMonotone(s, b - 1, a);
    DivModUnique(x, a * b, q, s * a + t);
  }

  lemma {:induction false} BitOfZero(x: int)
    ensures BitOf(x, 0) == (x % 2 == 1)
  {
  }

  /** The bits of a number below 2^w are its bits below w. */
  lemma {:induction false} BitOfHigh(x: nat, w: nat, i: nat)
    requires x < Pow2(w) && i >= w
    ensures !BitOf(x, i)
  {
    Pow2Monotone(w, i);
    DivModUnique(x, Pow2(i), 0, x);
  }

  lemma {:induction false} BitOfAnd(a: nat, b: nat, w: nat, i: nat)
    requires i < w
    ensures BitOf(BitAnd(a, b, w), i) == (BitOf(a, i) && BitOf(b, i))
  {
    var r := BitAnd(a, b, w);
    var rest := BitAnd(a / 2, b / 2, w - 1);
    assert r == (a % 2) * (b % 2) + 2 * rest;
    DivModUnique(r, 2, rest, (a % 2) * (b % 2));
    if i > 0 {
      BitOfAnd(a / 2, b / 2, w - 1, i - 1);
      BitOfStep(r, i);
      BitOfStep(a, i);
      BitOfStep(b, i);
    }
  }

  lemma {:induction false} BitOfOr(a: nat, b: nat, w: nat, i: nat)
    requires i < w
    ensures BitOf(BitOr(a, b, w), i) == (BitOf(a, i) || BitOf(b, i))
  {
    var r := BitOr(a, b, w);
    var low := if a % 2 == 1 || b % 2 == 1 then 1 else 0;
    var rest := BitOr(a / 2, b / 2, w - 1);
    assert r == low + 2 * rest;
    DivModUnique(r, 2, rest, low);
    if i > 0 {
      BitOfOr(a / 2, b / 2, w - 1, i - 1);
      BitOfStep(r, i);
      BitOfStep(a, i);
      BitOfStep(b, i);
    }
  }

  lemma {:induction false} BitOfComplement(a: nat, w: nat, i: nat)
    requires a < Pow2(w) && i < w
    ensures BitOf(Pow2(w) - 1 - a, i) == !BitOf(a, i)
  {
    var c := Pow2(w) - 1 - a;
    var p := Pow2(w - 1);
    assert Pow2(w) == 2 * p;
    var q := a / 2;
    assert a == 2 * q + a % 2;
    assert c == 2 * (p - 1 - q) + (1 - a % 2);
    DivModUnique(c, 2, p - 1 - q, 1 - a % 2);
    if i > 0 {
      assert q < p;
      BitOfComplement(q, w - 1, i - 1);
      BitOfStep(c, i);
      BitOfStep(a, i);
    }
  }

  /** Two numbers below 2^w with the same bits are equal. */
  lemma {:induction false} BitsDetermine(a: nat, b: nat, w: nat)
    requires a < Pow2(w) && b < Pow2(w)
    requires forall i :: 0 <= i < w ==> BitOf(a, i) == BitOf(b, i)
    ensures a == b
  {
    if w == 0 {
    } else {
      assert BitOf(a, 0) == BitOf(b, 0);
      forall i | 0 <= i < w - 1
        ensures BitOf(a / 2, i) == BitOf(b / 2, i)
      {
        BitOfStep(a, i + 1);
        BitOfStep(b, i + 1);
        assert BitOf(a, i + 1) == BitOf(b, i + 1);
      }
      assert Pow2(w) == 2 * Pow2(w - 1);
      DivModUnique(a, 2, a / 2, a % 2);
      DivModUnique(b, 2, b / 2, b % 2);
      BitsDetermine(a / 2, b / 2, w - 1);
    }
  }

  lemma {:induction false} BitOfPow2(k: nat, i: nat)
    ensures BitOf(Pow2(k), i) == (i == k)
  {
    if i == 0 {
      if k == 0 {
        DivModUnique(1, 2, 0, 1);
      } else {
        DivModUnique(Pow2(k), 2, Pow2(k - 1), 0);
      }
    } else if k == 0 {
      DivModUnique(1, Pow2(i), 0, 1);
      Pow2Monotone(1, i);
    } else {
      BitOfStep(Pow2(k), i);
      DivModUnique(Pow2(k), 2, Pow2(k - 1), 0);
      BitOfPow2(k - 1, i - 1);
    }
  }

  /** ORing in a multiple of 2^k above a number below 2^k is addition. */
  lemma {:induction false} BitOrDisjoint(x: nat, y: nat, k: nat, w: nat)
    requires x < Pow2(k) && k <= w
    requires x + y * Pow2(k) < Pow2(w)
    ensures BitOr(x, y * Pow2(k), w) == x + y * Pow2(k)
  {
    if k == 0 {
      BitOrZeroLeft(y, w);
    } else {
      var p := Pow2(k - 1);
      assert Pow2(k) == 2 * p;
      var s := y * Pow2(k);
      assert s == 2 * (y * p);
      DivModUnique(s, 2, y * p, 0);
      var q := x / 2;
      assert x == 2 * q + x % 2;
      assert q < p;
      assert x + s == 2 * (q + y * p) + x % 2;
      assert Pow2(w) == 2 * Pow2(w - 1);
      assert q + y * p < Pow2(w - 1);
      BitOrDisjoint(q, y, k - 1, w - 1);
    }
  }

  lemma {:induction false} BitOrZeroLeft(y: nat, w: nat)
    requires y < Pow2(w)
    ensures BitOr(0, y, w) == y
  {
    if w > 0 {
      assert Pow2(w) == 2 * Pow2(w - 1);
      assert y == 2 * (y / 2) + y % 2;
      BitOrZeroLeft(y / 2, w - 1);
    }
  }

  lemma {:induction false} BitOrZeroRight(x: nat, w: nat)
    requires x < Pow2(w)
    ensures BitOr(x, 0, w) == x
  {
    if w > 0 {
      assert Pow2(w) == 2 * Pow2(w - 1);
      assert x == 2 * (x / 2) + x % 2;
      BitOrZeroRight(x / 2, w - 1);
    }
  }

  /** Adding an even multiple of p keeps the parity of the quotient by p. */
  lemma {:induction false} ScaledQuotientParity(x: int, u: int, p: int, k: int)
    requires p > 0 && x == u + (2 * k) * p
    ensures (x / p) % 2 == (u / p) % 2
  {
    ModAddMultiple(u, 2 * k, p);
    ModAddMultiple(u / p, k, 2);
  }

  /** The bits of a Java number are those of its unsigned w-bit value. */
  lemma {:induction false} BitOfUnsigned(x: int, w: nat, i: nat)
    requires i < w
    ensures BitOf(Unsigned(x, w), i) == BitOf(x, i)
  {
    var u := Unsigned(x, w);
    var p := Pow2(i);
    var m := Pow2(w - i - 1);
    var pw := Pow2(w);
    assert pw == p * (2 * m) by {
      Pow2Add(i, w - i);
      Pow2Add(1, w - i - 1);
    }
    var q := x / pw;
    assert x == u + (2 * (q * m)) * p by {
      assert x == q * pw + u;
      assert q * pw == (2 * (q * m)) * p;
    }
    ScaledQuotientParity(x, u, p, q * m);
  }


  // ---------------------------------------------------------------------
  // The same readings for Java's operators on signed w-bit numbers.

  lemma {:induction false} BitOfWrap(z: int, w: nat, i: nat)
    requires w >= 1 && i < w
    ensures BitOf(WrapBits(z, w), i) == BitOf(z, i)
  {
    BitOfUnsigned(WrapBits(z, w), w, i);
    BitOfUnsigned(z, w, i);
    UnsignedOfWrap(z, w);
  }

  lemma {:induction false} BitOfJavaAnd(x: int, y: int, w: nat, i: nat)
    requires w >= 1 && i < w
    ensures BitOf(And(x, y, w), i) == (BitOf(x, i) && BitOf(y, i))
  {
    BitOfWrap(BitAnd(Unsigned(x, w), Unsigned(y, w), w), w, i);
    BitOfAnd(Unsigned(x, w), Unsigned(y, w), w, i);
    BitOfUnsigned(x, w, i);
    BitOfUnsigned(y, w, i);
  }

  lemma {:induction false} BitOfJavaOr(x: int, y: int, w: nat, i: nat)
    requires w >= 1 && i < w
    ensures BitOf(Or(x, y, w), i) == (BitOf(x, i) || BitOf(y, i))
  {
    BitOfWrap(BitOr(Unsigned(x, w), Unsigned(y, w), w), w, i);
    BitOfOr(Unsigned(x, w), Unsigned(y, w), w, i);
    BitOfUnsigned(x, w, i);
    BitOfUnsigned(y, w, i);
  }

  lemma {:induction false} BitOfJavaNot(x: int, w: nat, i: nat)
    requires w >= 1 && i < w
    ensures BitOf(Not(x, w), i) == !BitOf(x, i)
  {
    BitOfWrap(Pow2(w) - 1 - Unsigned(x, w), w, i);
    BitOfComplement(Unsigned(x, w), w, i);
    BitOfUnsigned(x, w, i);
  }

  /** 1 << k in Java has exactly bit k % w set. */
  lemma {:induction false} BitOfJavaShiftOne(k: int, w: nat, i: nat)
    requires w >= 1 && i < w
    ensures BitOf(ShiftLeft(1, k, w), i) == (i == k % w)
  {
    BitOfWrap(Pow2(k % w), w, i);
    BitOfPow2(k % w, i);
  }

  /** Two Java w-bit numbers with the same w bits are equal. */
  lemma {:induction false} JavaBitsDetermine(x: int, y: int, w: nat)
    requires w >= 1
    requires -Pow2(w - 1) <= x < Pow2(w - 1) && -Pow2(w - 1) <= y < Pow2(w - 1)
    requires forall i :: 0 <= i < w ==> BitOf(x, i) == BitOf(y, i)
    ensures x == y
  {
    forall i | 0 <= i < w
      ensures BitOf(Unsigned(x, w), i) == BitOf(Unsigned(y, w), i)
    {
      BitOfUnsigned(x, w, i);
      BitOfUnsigned(y, w, i);
    }
    BitsDetermine(Unsigned(x, w), Unsigned(y, w), w);
    WrapOfUnsigned(x, w);
    WrapOfUnsigned(y, w);
  }

  /** A Java number is zero exactly when none of its w bits is set. */
  lemma {:induction false} ZeroIffNoBits(x: int, w: nat)
    requires w >= 1
    requires -Pow2(w - 1) <= x < Pow2(w - 1)
    ensures x == 0 <==> forall i :: 0 <= i < w ==> !BitOf(x, i)
  {
    if forall i :: 0 <= i < w ==> !BitOf(x, i) {
      forall i | 0 <= i < w
        ensures BitOf(x, i) == BitOf(0, i)
      {
        DivModUnique(0, Pow2(i), 0, 0);
      }
      JavaBitsDetermine(x, 0, w);
    }
    if x == 0 {
      forall i | 0 <= i < w
        ensures !BitOf(x, i)
      {
        DivModUnique(0, Pow2(i), 0, 0);
      }
    }
  }

  /** x | (y << k) is addition when y << k lands above the bits of x. */
  lemma {:induction false} JavaOrDisjoint(x: int, y: int, k: nat, w: nat)
    requires w >= 1 && k < w && 0 <= y
    requires Unsigned(x, w) < Pow2(k)
    requires Unsigned(x, w) + y * Pow2(k) < Pow2(w)
    ensures Or(x, ShiftLeft(y, k, w), w) == WrapBits(Unsigned(x, w) + y * Pow2(k), w)
  {
    var v := y * Pow2(k);
    DivModUnique(k, w, 0, k);
    assert ShiftLeft(y, k, w) == WrapBits(v, w);
    MulNonneg(y, Pow2(k));
    UnsignedOfWrap(v, w);
    DivModUnique(v, Pow2(w), 0, v);
    BitOrDisjoint(Unsigned(x, w), y, k, w);
  }

  /** u | (y << k) is u + y * 2^k, wrapped, for 0 <= u < 2^k. */
  lemma {:induction false} OrBelow(u: int, y: int, k: nat, w: nat)
    requires w >= 1 && k < w && 0 <= y && 0 <= u < Pow2(k)
    requires u + y * Pow2(k) < Pow2(w)
    ensures Or(u, ShiftLeft(y, k, w), w) == WrapBits(u + y * Pow2(k), w)
  {
    Pow2Monotone(k, w);
    DivModUnique(u, Pow2(w), 0, u);
    JavaOrDisjoint(u, y, k, w);
  }

  // ---------------------------------------------------------------------
  // Bit fields: x & (((1 << n) - 1) << k) and the OR of disjoint fields.

  /** Bits k .. k + n - 1 of x, as an unsigned number. */
  function BitField(x: int, k: nat, n: nat): (r: nat)
    ensures r < Pow2(n)
  {
    (x / Pow2(k)) % Pow2(n)
  }

  lemma {:induction false} MulPositive(a: int, b: int, c: int)
    requires a > 0 && b > 0 && c > 0
    ensures a * b * c > 0
  {
    MulNonneg(a - 1, b);
    assert a * b >= b;
    MulNonneg(a * b - 1, c);
  }

  /** Reducing modulo a * b * c first does not change (x / a) % b. */
  lemma {:induction false} FieldOfMod(x: int, a: int, b: int, c: int)
    requires a > 0 && b > 0 && c > 0
    ensures ((x % (a * b * c)) / a) % b == (x / a) % b
  {
    var m := a * b * c;
    MulPositive(a, b, c);
    var q, u := x / m, x % m;
    var s, t := u / a, u % a;
    assert x == (q * b * c + s) * a + t by {
      assert x == q * m + u;
      assert q * m == (q * b * c) * a;
      assert u == s * a + t;
    }
    DivModUnique(x, a, q * b * c + s, t);
    assert q * b * c == (q * c) * b;
    ModAddMultiple(s, q * c, b);
  }

  /** A field below bit w is the same in x and in its unsigned w-bit value. */
  lemma {:induction false} BitFieldOfUnsigned(x: int, k: nat, n: nat, w: nat)
    requires k + n <= w
    ensures BitField(Unsigned(x, w), k, n) == BitField(x, k, n)
  {
    Pow2Add(k, n);
    Pow2Add(k + n, w - k - n);
    FieldOfMod(x, Pow2(k), Pow2(n), Pow2(w - k - n));
  }

  lemma {:induction false} DivNat(a: int, p: int)
    requires a >= 0 && p > 0
    ensures a / p >= 0
  {
  }

  /** (a >>> k) on a non-negative number. */
  function DropBits(a: nat, k: nat): (r: nat)
    ensures r == a / Pow2(k)
  {
    DivNat(a, Pow2(k));
    a / Pow2(k)
  }

  /** c << k on a non-negative number, without wrapping. */
  function Scaled(c: nat, k: nat): (r: nat)
    ensures r == c * Pow2(k)
  {
    MulNonneg(c, Pow2(k));
    c * Pow2(k)
  }

  /** AND with c << k looks at the bits of a from k on. */
  lemma {:induction false} BitAndShifted(a: nat, c: nat, k: nat, w: nat)
    requires k <= w
    ensures BitAnd(a, Scaled(c, k), w) == Pow2(k) * BitAnd(DropBits(a, k), c, w - k)
  {
    if k > 0 {
      var p := Pow2(k - 1);
      assert Pow2(k) == 2 * p;
      var b := Scaled(c, k);
      var b1 := Scaled(c, k - 1);
      assert b == 2 * b1;
      DivModUnique(b, 2, b1, 0);
      assert BitAnd(a, b, w) == 2 * BitAnd(a / 2, b1, w - 1);
      BitAndShifted(a / 2, c, k - 1, w - 1);
      DivDiv(a, 2, p);
      assert DropBits(a / 2, k - 1) == DropBits(a, k);
      var rest := BitAnd(DropBits(a, k), c, w - k);
      assert BitAnd(a / 2, b1, w - 1) == p * rest;
      Twice(p, rest);
    }
  }

  lemma {:induction false} Twice(p: int, r: int)
    ensures 2 * (p * r) == (2 * p) * r
  {
  }

  /** The AND of MaskedField on the unsigned value. */
  lemma {:induction false} MaskedFieldBits(u: nat, x: int, k: nat, n: nat, w: nat)
    requires u == Unsigned(x, w) && k + n <= w
    ensures BitAnd(u, Scaled(Pow2(n) - 1, k), w) == BitField(x, k, n) * Pow2(k)
  {
    BitAndShifted(u, Pow2(n) - 1, k, w);
    BitAndLowMask(DropBits(u, k), n, w - k);
    BitFieldOfUnsigned(x, k, n, w);
    MulRotate(1, BitField(x, k, n), Pow2(k));
  }

  /** The mask ((1 << n) - 1) << k stays below the sign bit when k + n < w. */
  lemma {:induction false} FieldMaskBounds(k: nat, n: nat, w: nat)
    requires k + n < w
    ensures Scaled(Pow2(n) - 1, k) < Pow2(w - 1)
  {
    Pow2Add(n, k);
    Pow2Monotone(n + k, w - 1);
    assert Scaled(Pow2(n) - 1, k) == Pow2(n) * Pow2(k) - Pow2(k);
  }

  /** A field left in place lies between 0 and its mask. */
  lemma {:induction false} FieldInMask(f: nat, k: nat, n: nat)
    requires f < Pow2(n)
    ensures 0 <= f * Pow2(k) <= Scaled(Pow2(n) - 1, k)
  {
    MulMonotone(f, Pow2(n) - 1, Pow2(k));
    MulNonneg(f, Pow2(k));
  }

  /** Java's x & (((1 << n) - 1) << k) below bit w - 1: field k, n of x, left in place. */
  lemma {:induction false} MaskedField(x: int, k: nat, n: nat, w: nat)
    requires k + n < w
    ensures And(x, (Pow2(n) - 1) * Pow2(k), w) == BitField(x, k, n) * Pow2(k)
  {
    var m := Scaled(Pow2(n) - 1, k);
    FieldMaskBounds(k, n, w);
    assert Unsigned(m, w) == m by {
      assert Pow2(w) == 2 * Pow2(w - 1);
      DivModUnique(m, Pow2(w), 0, m);
    }
    MaskedFieldBits(Unsigned(x, w), x, k, n, w);
    FieldInMask(BitField(x, k, n), k, n);
    WrapBitsInRange(BitField(x, k, n) * Pow2(k), w);
  }

  lemma {:induction false} BitOrCommutes(a: nat, b: nat, w: nat)
    ensures BitOr(a, b, w) == BitOr(b, a, w)
  {
    if w > 0 {
      BitOrCommutes(a / 2, b / 2, w - 1);
    }
  }

  /** hi | lo is addition when lo lies below bit k and hi is a multiple of 2^k, both non-negative. */
  lemma {:induction false} OrOfDisjoint(hi: int, lo: int, y: nat, k: nat, w: nat)
    requires k < w && hi == y * Pow2(k) && 0 <= lo < Pow2(k)
    requires hi + lo < Pow2(w - 1)
    ensures Or(hi, lo, w) == hi + lo
  {
    assert Pow2(w) == 2 * Pow2(w - 1);
    MulNonneg(y, Pow2(k));
    DivModUnique(hi, Pow2(w), 0, hi);
    DivModUnique(lo, Pow2(w), 0, lo);
    BitOrCommutes(hi, lo, w);
    BitOrDisjoint(lo, y, k, w);
    WrapBitsInRange(hi + lo, w);
  }

  /** Setting the sign bit of a non-negative w-bit number subtracts 2^(w - 1). */
  lemma {:induction false} OrSignBit(x: int, w: nat)
    requires w >= 1 && 0 <= x < Pow2(w - 1)
    ensures Or(-Pow2(w - 1), x, w) == x - Pow2(w - 1)
  {
    var h := Pow2(w - 1);
    var pw := Pow2(w);
    assert pw == 2 * h;
    assert Unsigned(-h, w) == h by {
      DivModUnique(-h, pw, -1, h);
    }
    assert Unsigned(x, w) == x by {
      DivModUnique(x, pw, 0, x);
    }
    assert BitOr(h, x, w) == x + h by {
      BitOrCommutes(h, x, w);
      assert h == 1 * Pow2(w - 1);
      BitOrDisjoint(x, 1, w - 1, w);
    }
    assert WrapBits(x + h, w) == x - h by {
      WrapBitsInRange(x - h, w);
      DivModUnique(2 * h, pw, 1, 0);
      WrapBitsCongruent(x + h, x - h, w);
    }
  }

  // ---------------------------------------------------------------------
  // Exclusive or, and the bits of an unsigned right shift.

  function BitXor(a: nat, b: nat, w: nat): (r: nat)
    ensures r < Pow2(w)
  {
    if w == 0 then 0
    else (if a % 2 != b % 2 then 1 else 0) + 2 * BitXor(a / 2, b / 2, w - 1)
  }

  /** Java's ^ on int (w = 32) or long (w = 64). */
  function Xor(x: int, y: int, w: nat): (r: int)
    requires w >= 1
    ensures -Pow2(w - 1) <= r < Pow2(w - 1)
  {
    WrapBits(BitXor(Unsigned(x, w), Unsigned(y, w), w), w)
  }

  lemma {:induction false} BitOfXor(a: nat, b: nat, w: nat, i: nat)
    requires i < w
    ensures BitOf(BitXor(a, b, w), i) == (BitOf(a, i) != BitOf(b, i))
  {
    var r := BitXor(a, b, w);
    var low := if a % 2 != b % 2 then 1 else 0;
    var rest := BitXor(a / 2, b / 2, w - 1);
    assert r == low + 2 * rest;
    DivModUnique(r, 2, rest, low);
    if i > 0 {
      BitOfXor(a / 2, b / 2, w - 1, i - 1);
      BitOfStep(r, i);
      BitOfStep(a, i);
      BitOfStep(b, i);
    }
  }

  lemma {:induction false} BitOfJavaXor(x: int, y: int, w: nat, i: nat)
    requires w >= 1 && i < w
    ensures BitOf(Xor(x, y, w), i) == (BitOf(x, i) != BitOf(y, i))
  {
    BitOfWrap(BitXor(Unsigned(x, w), Unsigned(y, w), w), w, i);
    BitOfXor(Unsigned(x, w), Unsigned(y, w), w, i);
    BitOfUnsigned(x, w, i);
    BitOfUnsigned(y, w, i);
  }

  /** Bit i of x >>> k is bit i + k of x, for i + k below the width. */
  lemma {:induction false} BitOfUnsignedShift(x: int, k: nat, w: nat, i: nat)
    requires k < w && i + k < w
    ensures BitOf(UnsignedShiftRight(x, k, w), i) == BitOf(x, i + k)
  {
    var u := Unsigned(x, w);
    DivModUnique(k, w, 0, k);
    BitOfWrap(u / Pow2(k), w, i);
    DivDiv(u, Pow2(k), Pow2(i));
    Pow2Add(k, i);
    BitOfUnsigned(x, w, i + k);
  }
}
