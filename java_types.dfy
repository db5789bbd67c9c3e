// Java's fixed-width integers, their wrap-around, shifts and masks, and the
// little- and big-endian byte layouts that MDF 4 files and record buffers use.
// Java values are kept as mathematical integers in their signed range; a
// narrowing cast or an overflowing operation is written out as a wrap.

module JavaTypes {

  /** A byte as it sits in a file or buffer: its unsigned value. */
  type byte = x: int | 0 <= x < 0x100

  type int8 = x: int | -0x80 <= x < 0x80
  type int16 = x: int | -0x8000 <= x < 0x8000
  type int32 = x: int | -0x8000_0000 <= x < 0x8000_0000
  type int64 = x: int | -0x8000_0000_0000_0000 <= x < 0x8000_0000_0000_0000

  /** A Java char: an unsigned 16-bit code unit. */
  type char16 = x: int | 0 <= x < 0x1_0000

  const INT_MAX: int32 := 0x7FFF_FFFF

  function Pow2(n: nat): (r: int)
    ensures r >= 1
  {
    if n == 0 then 1 else 2 * Pow2(n - 1)
  }

  lemma {:induction false} Pow2Add(a: nat, b: nat)
    ensures Pow2(a + b) == Pow2(a) * Pow2(b)
  {
    if a > 0 {
      Pow2Add(a - 1, b);
    }
  }

  lemma {:induction false} Pow2Monotone(a: nat, b: nat)
    requires a <= b
    ensures Pow2(a) <= Pow2(b)
  {
    if a < b {
      Pow2Monotone(a, b - 1);
    }
  }

  lemma {:induction false} Pow2Values()
    ensures Pow2(3) == 8 && Pow2(7) == 0x80 && Pow2(8) == 0x100
    ensures Pow2(15) == 0x8000 && Pow2(16) == 0x1_0000
    ensures Pow2(31) == 0x8000_0000 && Pow2(32) == 0x1_0000_0000
    ensures Pow2(63) == 0x8000_0000_0000_0000 && Pow2(64) == 0x1_0000_0000_0000_0000
  {
    assert Pow2(3) == 8;
    assert Pow2(7) == 0x80;
    assert Pow2(8) == 0x100;
    assert Pow2(15) == 0x8000 by {
      Pow2Add(7, 8);
    }
    assert Pow2(16) == 0x1_0000 by {
      Pow2Add(8, 8);
    }
    assert Pow2(31) == 0x8000_0000 by {
      Pow2Add(15, 16);
    }
    assert Pow2(32) == 0x1_0000_0000 by {
      Pow2Add(16, 16);
    }
    assert Pow2(63) == 0x8000_0000_0000_0000 by {
      Pow2Add(31, 32);
    }
    assert Pow2(64) == 0x1_0000_0000_0000_0000 by {
      Pow2Add(32, 32);
    }
  }

  // ---------------------------------------------------------------------
  // Division by a positive number, in small steps the solver can follow.

  lemma {:induction false} MulRotate(a: int, b: int, c: int)
    ensures a * (b * c) == (a * c) * b
  {
  }

  lemma {:induction false} DivExact(d: int, p: int)
    requires p > 0 && d % p == 0
    ensures d == (d / p) * p
  {
  }

  lemma {:induction false} MulPred(a: int, b: int)
    ensures a * b == (a - 1) * b + b
  {
  }

  lemma {:induction false} MulNonneg(a: int, b: int)
    requires a >= 0 && b >= 0
    ensures a * b >= 0
  {
  }

  lemma {:induction false} MulBound(d: int, p: int)
    requires p > 0 && d != 0
    ensures d * p >= p || d * p <= -p
  {
    if d > 0 {
      MulNonneg(d - 1, p);
      assert d * p == (d - 1) * p + p;
    } else {
      MulNonneg(-d - 1, p);
      assert d * p == -((-d - 1) * p) - p;
    }
  }

  /** Quotient and remainder are determined by x == q * p + r, 0 <= r < p. */
  lemma {:induction false} DivModUnique(x: int, p: int, q: int, r: int)
    requires p > 0 && 0 <= r < p && x == q * p + r
    ensures x / p == q && x % p == r
  {
    var q0 := x / p;
    var r0 := x % p;
    assert q0 * p + r0 == x;
    assert (q - q0) * p == r0 - r;
    if q != q0 {
      MulBound(q - q0, p);
    }
  }

  lemma {:induction false} ModAddMultiple(y: int, k: int, p: int)
    requires p > 0
    ensures (y + k * p) % p == y % p
    ensures (y + k * p) / p == y / p + k
  {
    var q := y / p;
    var r := y % p;
    assert y + k * p == (q + k) * p + r;
    DivModUnique(y + k * p, p, q + k, r);
  }

  /** The two's-complement value of the low w bits of x (a Java narrowing cast). */
  function WrapBits(x: int, w: nat): (r: int)
    requires w >= 1
    ensures -Pow2(w - 1) <= r < Pow2(w - 1)
    ensures (r - x) % Pow2(w) == 0
  {
    var p := Pow2(w);
    var u := x % p;
    var q := x / p;
    assert p == 2 * Pow2(w - 1);
    assert (u - x) % p == 0 by {
      assert u - x == (-q) * p;
      ModAddMultiple(0, -q, p);
    }
    assert (u - p - x) % p == 0 by {
      assert u - p - x == (-q - 1) * p;
      ModAddMultiple(0, -q - 1, p);
    }
    if u >= Pow2(w - 1) then u - p else u
  }

  function Wrap8(x: int): int8 {
    Pow2Values();
    WrapBits(x, 8)
  }

  function Wrap16(x: int): int16 {
    Pow2Values();
    WrapBits(x, 16)
  }

  function Wrap32(x: int): int32 {
    Pow2Values();
    WrapBits(x, 32)
  }

  function Wrap64(x: int): int64 {
    Pow2Values();
    WrapBits(x, 64)
  }

  /** The Java cast (int) x keeps x exactly when x lies in the int range. */
  lemma {:induction false} Wrap32Exact(x: int)
    ensures Wrap32(x) == x <==> -0x8000_0000 <= x <= INT_MAX
  {
    Pow2Values();
    if -0x8000_0000 <= x <= INT_MAX {
      WrapBitsInRange(x, 32);
    }
  }

  /** A long product or sum keeps its value exactly when it lies in the long range. */
  lemma {:induction false} Wrap64Exact(x: int)
    ensures Wrap64(x) == x <==> -0x8000_0000_0000_0000 <= x < 0x8000_0000_0000_0000
  {
    Pow2Values();
    if -0x8000_0000_0000_0000 <= x < 0x8000_0000_0000_0000 {
      WrapBitsInRange(x, 64);
    }
  }

  /** Wrapping an intermediate long sum does not change the wrapped total. */
  lemma {:induction false} Wrap64Add(x: int, y: int)
    ensures Wrap64(Wrap64(x) + y) == Wrap64(x + y)
  {
    Pow2Values();
    WrapBitsCongruent(Wrap64(x) + y, x + y, 64);
  }

  /** Floor division by a positive number brackets a non-negative x. */
  lemma {:induction false} FloorDivBracket(x: int, d: int)
    requires x >= 0 && d > 0
    ensures 0 <= x / d && (x / d) * d <= x < (x / d + 1) * d
  {
    assert x == (x / d) * d + x % d;
    if x / d < 0 {
      MulBound(x / d, d);
    }
  }

  /** A value already in the signed range of w bits is its own wrap. */
  lemma {:induction false} WrapBitsInRange(x: int, w: nat)
    requires w >= 1
    requires -Pow2(w - 1) <= x < Pow2(w - 1)
    ensures WrapBits(x, w) == x
  {
    var p := Pow2(w);
    assert p == 2 * Pow2(w - 1);
    if x < 0 {
      DivModUnique(x, p, -1, x + p);
    } else {
      DivModUnique(x, p, 0, x);
    }
  }

  /** Wrapping a w-bit unsigned value subtracts 2^w or nothing. */
  lemma {:induction false} WrapBitsOfUnsigned(x: int, w: nat)
    requires w >= 1 && 0 <= x < Pow2(w)
    ensures WrapBits(x, w) == x || WrapBits(x, w) == x - Pow2(w)
  {
    DivModUnique(x, Pow2(w), 0, x);
  }

  /** Wrapping depends only on the residue modulo 2^w. */
  lemma {:induction false} WrapBitsCongruent(x: int, y: int, w: nat)
    requires w >= 1
    requires (x - y) % Pow2(w) == 0
    ensures WrapBits(x, w) == WrapBits(y, w)
  {
    var p := Pow2(w);
    var k := (x - y) / p;
    assert x - y == k * p + (x - y) % p;
    assert x == y + k * p;
    assert x % p == y % p by {
      ModAddMultiple(y, k, p);
    }
  }

  /** The unsigned value of the low w bits of a Java number. */
  function Unsigned(x: int, w: nat): (r: nat)
    ensures r < Pow2(w)
  {
    x % Pow2(w)
  }

  lemma {:induction false} UnsignedOfWrap(x: int, w: nat)
    requires w >= 1
    ensures Unsigned(WrapBits(x, w), w) == Unsigned(x, w)
  {
    var p := Pow2(w);
    var r := WrapBits(x, w);
    var k := (r - x) / p;
    assert r - x == k * p + 0;
    assert r == x + k * p;
    ModAddMultiple(x, k, p);
  }

  lemma {:induction false} WrapOfUnsigned(x: int, w: nat)
    requires w >= 1
    requires -Pow2(w - 1) <= x < Pow2(w - 1)
    ensures WrapBits(Unsigned(x, w), w) == x
  {
    var p := Pow2(w);
    var q := x / p;
    assert Unsigned(x, w) == x + (-q) * p;
    ModAddMultiple(x, -q, p);
    assert (Unsigned(x, w) - x) % p == 0 by {
      ModAddMultiple(0, -q, p);
    }
    WrapBitsCongruent(Unsigned(x, w), x, w);
    WrapBitsInRange(x, w);
  }

  // ---------------------------------------------------------------------
  // Shifts. Java masks the distance to the operand width; << wraps, >> is
  // arithmetic (floor division by a power of two), >>> fills with zeros.

  function ShiftLeft(x: int, n: int, w: nat): (r: int)
    requires w >= 1
    ensures -Pow2(w - 1) <= r < Pow2(w - 1)
  {
    WrapBits(x * Pow2(n % w), w)
  }

  function ShiftRight(x: int, n: int, w: nat): int
    requires w >= 1
  {
    x / Pow2(n % w)
  }

  function UnsignedShiftRight(x: int, n: int, w: nat): (r: int)
    requires w >= 1
    ensures -Pow2(w - 1) <= r < Pow2(w - 1)
  {
    WrapBits(Unsigned(x, w) / Pow2(n % w), w)
  }

  lemma {:induction false} FloorDivBounds(x: int, d: int, lo: int, hi: int)
    requires d >= 1
    requires lo <= 0 < hi
    requires lo <= x < hi
    ensures lo <= x / d < hi
  {
    var q := x / d;
    var r := x % d;
    assert x == q * d + r;
    if q > 0 {
      MulNonneg(q, d - 1);
      assert q * d == q + q * (d - 1);
    } else if q < 0 {
      MulNonneg(-(q + 1), d - 1);
      assert (q + 1) * d == (q + 1) + (q + 1) * (d - 1);
      assert (q + 1) * d == q * d + d;
    }
  }

  /** An arithmetic right shift stays in the signed range of its operand. */
  lemma {:induction false} ShiftRightInRange(x: int, n: int, w: nat)
    requires w >= 1
    requires -Pow2(w - 1) <= x < Pow2(w - 1)
    ensures -Pow2(w - 1) <= ShiftRight(x, n, w) < Pow2(w - 1)
  {
    FloorDivBounds(x, Pow2(n % w), -Pow2(w - 1), Pow2(w - 1));
  }

  /** Multiplying by a power of two scales a residue into a larger one. */
  lemma {:induction false} ScaledResidue(r: int, pb: int, pk: int)
    requires 0 <= r < pb && pk >= 1
    ensures 0 <= r * pk <= pb * pk - pk
  {
    MulNonneg(r, pk);
    MulNonneg(pb - 1 - r, pk);
    assert (pb - 1) * pk - r * pk == (pb - 1 - r) * pk;
  }

  lemma {:induction false} MulMonotone(a: int, b: int, c: int)
    requires a <= b && c >= 1
    ensures a * c <= b * c
  {
    MulNonneg(b - a, c);
    assert b * c - a * c == (b - a) * c;
  }

  /** The shift distance k < w is not masked. */
  lemma {:induction false} ShiftDistance(k: nat, w: nat)
    requires k < w
    ensures k % w == k
  {
    DivModUnique(k, w, 0, k);
  }

  /** x << k wraps x * 2^k, which only depends on the low w-k bits of x. */
  lemma {:induction false} ShiftLeftLowBits(x: int, k: nat, w: nat)
    requires 1 <= k < w
    ensures ShiftLeft(x, k, w) == WrapBits((x % Pow2(w - k)) * Pow2(k), w)
  {
    ShiftDistance(k, w);
    Pow2Add(w - k, k);
    ScaledLowBits(x, Pow2(k), Pow2(w - k), Pow2(w));
    WrapBitsCongruent(x * Pow2(k), (x % Pow2(w - k)) * Pow2(k), w);
  }

  /** x * pk and (x mod pb) * pk differ by a multiple of pw = pb * pk. */
  lemma {:induction false} ScaledLowBits(x: int, pk: int, pb: int, pw: int)
    requires pk >= 1 && pb >= 1 && pw == pb * pk
    ensures (x * pk - (x % pb) * pk) % pw == 0
  {
    var r := x % pb;
    var q := x / pb;
    assert x == q * pb + r;
    assert x * pk == q * pw + r * pk by {
      assert x * pk == (q * pb + r) * pk;
      assert (q * pb) * pk == q * (pb * pk);
    }
    ModAddMultiple(0, q, pw);
    assert x * pk - r * pk == q * pw;
  }

  /** WrapScaledResidue on plain numbers: pw = pb * pk, pb = 2 * half. */
  lemma {:induction false} ScaledWrap(r: int, pk: int, pb: int, half: int, pw: int)
    requires pk >= 1 && half >= 1 && pb == 2 * half && pw == pb * pk && 0 <= r < pb
    ensures (if (r * pk) % pw >= half * pk then (r * pk) % pw - pw else (r * pk) % pw) / pk
            == (if r >= half then r - pb else r)
  {
    ScaledResidue(r, pb, pk);
    DivModUnique(r * pk, pw, 0, r * pk);
    if r >= half {
      MulMonotone(half, r, pk);
      assert r * pk - pw == (r - pb) * pk;
      DivModUnique((r - pb) * pk, pk, r - pb, 0);
    } else {
      MulMonotone(r, half - 1, pk);
      DivModUnique(r * pk, pk, r, 0);
    }
  }

  /** Wrapping a scaled residue and dividing the scale out again. */
  lemma {:induction false} WrapScaledResidue(r: int, k: nat, w: nat)
    requires 1 <= k < w
    requires 0 <= r < Pow2(w - k)
    ensures WrapBits(r * Pow2(k), w) / Pow2(k) == WrapBits(r, w - k)
  {
    var b := w - k;
    var pk := Pow2(k);
    var pb := Pow2(b);
    var pw := Pow2(w);
    var half := Pow2(b - 1);
    assert pw == pb * pk && Pow2(w - 1) == half * pk && pb == 2 * half by {
      Pow2Add(b, k);
      Pow2Add(b - 1, k);
    }
    assert r % pb == r by {
      DivModUnique(r, pb, 0, r);
    }
    ScaledWrap(r, pk, pb, half, pw);
  }


  /**
   * Shifting the low w-k bits of x to the top and back down with an
   * arithmetic shift sign-extends them: x << k >> k in Java keeps
   * exactly the low w-k bits, read as a signed number.
   */
  lemma {:induction false} SignExtendByShifts(x: int, k: nat, w: nat)
    requires 1 <= k < w
    ensures ShiftRight(ShiftLeft(x, k, w), k, w) == WrapBits(x, w - k)
  {
    ShiftDistance(k, w);
    var r := x % Pow2(w - k);
    ShiftLeftLowBits(x, k, w);
    WrapScaledResidue(r, k, w);
    var q := x / Pow2(w - k);
    assert x == q * Pow2(w - k) + r;
    ModAddMultiple(0, q, Pow2(w - k));
    WrapBitsCongruent(x, r, w - k);
  }

  // ---------------------------------------------------------------------
  // Bitwise AND on the unsigned value of w-bit numbers, bit by bit.

  function BitAnd(a: nat, b: nat, w: nat): (r: nat)
    ensures r < Pow2(w)
  {
    if w == 0 then 0
    else (a % 2) * (b % 2) + 2 * BitAnd(a / 2, b / 2, w - 1)
  }

  /** Java's & on int (w = 32) or long (w = 64). */
  function And(x: int, y: int, w: nat): (r: int)
    requires w >= 1
    ensures -Pow2(w - 1) <= r < Pow2(w - 1)
  {
    WrapBits(BitAnd(Unsigned(x, w), Unsigned(y, w), w), w)
  }

  /** AND with a mask of k ones keeps the residue modulo 2^k. */
  lemma {:induction false} BitAndLowMask(a: nat, k: nat, w: nat)
    requires k <= w
    ensures BitAnd(a, Pow2(k) - 1, w) == a % Pow2(k)
  {
    if k == 0 {
      BitAndZero(a, w);
    } else {
      BitAndLowMask(a / 2, k - 1, w - 1);
      assert (Pow2(k) - 1) % 2 == 1;
      assert (Pow2(k) - 1) / 2 == Pow2(k - 1) - 1;
      ModHalf(a, k);
    }
  }

  lemma {:induction false} BitAndZero(a: nat, w: nat)
    ensures BitAnd(a, 0, w) == 0
  {
    if w > 0 {
      BitAndZero(a / 2, w - 1);
    }
  }

  lemma {:induction false} ModHalf(a: nat, k: nat)
    requires k >= 1
    ensures a % Pow2(k) == a % 2 + 2 * ((a / 2) % Pow2(k - 1))
  {
    var p := Pow2(k - 1);
    var q := (a / 2) / p;
    var s := (a / 2) % p;
    assert a / 2 == q * p + s;
    assert a == 2 * (a / 2) + a % 2;
    assert a == q * (2 * p) + (a % 2 + 2 * s);
    DivModUnique(a, 2 * p, q, a % 2 + 2 * s);
  }

  /**
   * Java's x & ((1 << k) - 1) for 0 <= k < w: the low k bits of x as an
   * unsigned number.
   */
  lemma {:induction false} AndLowMask(x: int, k: nat, w: nat)
    requires 1 <= w && k < w
    ensures And(x, Pow2(k) - 1, w) == Unsigned(x, k)
  {
    var pk := Pow2(k);
    var pw := Pow2(w);
    Pow2Monotone(k, w - 1);
    assert pw == 2 * Pow2(w - 1);
    DivModUnique(pk - 1, pw, 0, pk - 1);
    assert Unsigned(pk - 1, w) == pk - 1;
    BitAndLowMask(Unsigned(x, w), k, w);
    Pow2Add(k, w - k);
    ModOfMod(x, pk, Pow2(w - k));
    assert BitAnd(Unsigned(x, w), Unsigned(pk - 1, w), w) == Unsigned(x, k);
    WrapBitsInRange(Unsigned(x, k), w);
  }

  lemma {:induction false} ModOfMod(x: int, p: int, m: int)
    requires p >= 1 && m >= 1
    ensures (x % (p * m)) % p == x % p
  {
    MulNonneg(p, m - 1);
    var q := x / (p * m);
    var t := x % (p * m);
    assert x == q * (p * m) + t;
    assert q * (p * m) == (q * m) * p;
    ModAddMultiple(t, q * m, p);
  }

  // ---------------------------------------------------------------------
  // Byte layouts.

  function LittleEndian(s: seq<byte>): (r: nat)
    ensures r < Pow2(8 * |s|)
  {
    if |s| == 0 then 0
    else
      Pow2Add(8, 8 * (|s| - 1));
      Pow2Values();
      s[0] + 0x100 * LittleEndian(s[1..])
  }

  function BigEndian(s: seq<byte>): (r: nat)
    ensures r < Pow2(8 * |s|)
  {
    if |s| == 0 then 0
    else
      Pow2Add(8 * (|s| - 1), 8);
      Pow2Values();
      0x100 * BigEndian(s[..|s| - 1]) + s[|s| - 1]
  }

  function Reverse<T>(s: seq<T>): (r: seq<T>)
    ensures |r| == |s|
    ensures forall i :: 0 <= i < |s| ==> r[i] == s[|s| - 1 - i]
  {
    if |s| == 0 then [] else Reverse(s[1..]) + [s[0]]
  }

  /** A big-endian number is the little-endian number of the reversed bytes. */
  lemma {:induction false} BigEndianIsReversed(s: seq<byte>)
    ensures BigEndian(s) == LittleEndian(Reverse(s))
  {
    if |s| > 0 {
      var init := s[..|s| - 1];
      BigEndianIsReversed(init);
      var rs := Reverse(s);
      assert rs[0] == s[|s| - 1];
      assert rs[1..] == Reverse(init);
    }
  }

  /** The n little-endian bytes of the unsigned value of x. */
  function LeBytes(x: int, n: nat): (r: seq<byte>)
    decreases n
    ensures |r| == n
  {
    if n == 0 then [] else [x % 0x100] + LeBytes(x / 0x100, n - 1)
  }

  lemma {:induction false} LittleEndianOfLeBytes(x: int, n: nat)
    decreases n
    ensures LittleEndian(LeBytes(x, n)) == Unsigned(x, 8 * n)
  {
    if n == 0 {
      DivModUnique(x, 1, x, 0);
    } else {
      LittleEndianOfLeBytes(x / 0x100, n - 1);
      var s := LeBytes(x, n);
      assert s[1..] == LeBytes(x / 0x100, n - 1);
      assert Pow2(8 * n) == 0x100 * Pow2(8 * (n - 1)) by {
        Pow2Values();
        Pow2Add(8, 8 * (n - 1));
      }
      LowDigitSplit(x, Pow2(8 * (n - 1)));
    }
  }

  /** The residue modulo 256 * p is the low byte plus 256 times the residue of the rest. */
  lemma {:induction false} LowDigitSplit(x: int, p: int)
    requires p >= 1
    ensures x % (0x100 * p) == x % 0x100 + 0x100 * ((x / 0x100) % p)
  {
    var rest := (x / 0x100) % p;
    var q := (x / 0x100) / p;
    assert x / 0x100 == q * p + rest;
    assert x == 0x100 * (x / 0x100) + x % 0x100;
    assert x == q * (0x100 * p) + (x % 0x100 + 0x100 * rest);
    ScaledResidue(rest, p, 0x100);
    DivModUnique(x, 0x100 * p, q, x % 0x100 + 0x100 * rest);
  }

  /** Reading back what was written in little-endian gives the Java value. */
  lemma {:induction false} LeRoundTrip(x: int, n: nat)
    requires n >= 1
    requires -Pow2(8 * n - 1) <= x < Pow2(8 * n - 1)
    ensures WrapBits(LittleEndian(LeBytes(x, n)), 8 * n) == x
  {
    LittleEndianOfLeBytes(x, n);
    WrapOfUnsigned(x, 8 * n);
  }

  /** The value of four little-endian bytes. */
  lemma {:induction false} LittleEndian4(b0: byte, b1: byte, b2: byte, b3: byte)
    ensures LittleEndian([b0, b1, b2, b3]) == b0 + 0x100 * b1 + 0x1_0000 * b2 + 0x100_0000 * b3
  {
    assert [b3][1..] == [];
    assert LittleEndian([b3]) == b3;
    assert [b2, b3][1..] == [b3];
    assert LittleEndian([b2, b3]) == b2 + 0x100 * b3;
    assert [b1, b2, b3][1..] == [b2, b3];
    assert LittleEndian([b1, b2, b3]) == b1 + 0x100 * b2 + 0x1_0000 * b3;
    assert [b0, b1, b2, b3][1..] == [b1, b2, b3];
  }
}
