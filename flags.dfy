// BitFlags: a set of enum flags packed into one Java int, each enum constant
// naming its bit by number. The enum class is modelled as the list of its
// constants in declaration order.

module Flags {
  import opened JavaTypes
  import opened Bits
  import opened Text

  /** An enum constant implementing BitFlag. */
  datatype Flag = Flag(name: string, bitNumber: int32)

  /** The ChannelFlag enum of channel blocks. */
  const ALL_VALUES_INVALID := Flag("ALL_VALUES_INVALID", 0)
  const INVALIDATION_BIT_VALID := Flag("INVALIDATION_BIT_VALID", 1)
  const PRECISION_VALID := Flag("PRECISION_VALID", 2)
  const LIMIT_RANGE_VALID := Flag("LIMIT_RANGE_VALID", 4)

  const ChannelFlagConstants: seq<Flag> := [
    ALL_VALUES_INVALID, INVALIDATION_BIT_VALID, PRECISION_VALID,
    Flag("VALUE_RANGE_VALID", 3), LIMIT_RANGE_VALID,
    Flag("EXTENDED_LIMIT_RANGE_VALID", 5), Flag("DISCRETE_VALUE", 6),
    Flag("CALIBRATION", 7), Flag("CALCULATED", 8), Flag("VIRTUAL", 9),
    Flag("BUS_EVENT", 10), Flag("STRICTLY_MONOTONOUS", 11),
    Flag("DEFAULT_X_AXIS", 12), Flag("EVENT_SIGNAL", 13),
    Flag("VLSD_DATA_STREAM", 14)]

  /** The flags of ##DL blocks, as DataListFlags declares them. */
  const EQUAL_LENGTH := Flag("EQUAL_LENGTH", 0)
  const DataListFlagConstants: seq<Flag> := [
    EQUAL_LENGTH, Flag("TIME_VALUES", 1), Flag("ANGLE_VALUES", 2), Flag("DISTANCE_VALUES", 3)]

  /** The int with only the flag's bit set: 1 << bitNumber. */
  function Mask(flag: Flag): int32 {
    Pow2Values();
    ShiftLeft(1, flag.bitNumber, 32)
  }

  datatype BitFlags = BitFlags(value: int32, constants: seq<Flag>)
  {
    /** merge: bitwise OR of two flag sets of the same enum. */
    function Merge(other: BitFlags): BitFlags {
      Pow2Values();
      BitFlags(Or(value, other.value, 32), constants)
    }

    function Add(flag: Flag): BitFlags {
      Pow2Values();
      BitFlags(Or(value, Mask(flag), 32), constants)
    }

    predicate AllOf(test: BitFlags) {
      And(value, test.value, 32) == test.value
    }

    predicate IsSet(flag: Flag) {
      IsSetBit(flag.bitNumber)
    }

    predicate IsSetBit(bit: int) {
      And(value, ShiftLeft(1, bit, 32), 32) != 0
    }

    predicate AnyOf(test: BitFlags) {
      And(value, test.value, 32) != 0
    }

    predicate IsEmpty() {
      value == 0
    }

    function AsInt(): int32 {
      value
    }

    function AsShort(): int16 {
      Wrap16(value)
    }

    function AsByte(): int8 {
      Wrap8(value)
    }
  }

  function Empty(constants: seq<Flag>): BitFlags {
    BitFlags(0, constants)
  }

  /** The OR of 1 << bitNumber over the given constants (of(cls, values...)). */
  function MaskOf(values: seq<Flag>): int32
    decreases |values|
  {
    Pow2Values();
    if |values| == 0 then 0
    else Or(MaskOf(values[..|values| - 1]), Mask(values[|values| - 1]), 32)
  }

  function OfFlags(constants: seq<Flag>, values: seq<Flag>): BitFlags {
    BitFlags(MaskOf(values), constants)
  }

  /** of(byte): the byte is read unsigned (Byte.toUnsignedInt). */
  function OfByte(b: int8, constants: seq<Flag>): BitFlags {
    Pow2Values();
    BitFlags(Unsigned(b, 8), constants)
  }

  /** of(short): the short is read unsigned (Short.toUnsignedInt). */
  function OfShort(s: int16, constants: seq<Flag>): BitFlags {
    Pow2Values();
    BitFlags(Unsigned(s, 16), constants)
  }

  function OfInt(v: int32, constants: seq<Flag>): BitFlags {
    BitFlags(v, constants)
  }

  // ---------------------------------------------------------------------
  // What the operations mean, bit by bit.

  /** isSet(bit) tests bit (bit mod 32) of the value. */
  lemma {:induction false} IsSetBitMeaning(f: BitFlags, bit: int)
    ensures f.IsSetBit(bit) <==> BitOf(f.value, bit % 32)
  {
    Pow2Values();
    var m := ShiftLeft(1, bit, 32);
    var a := And(f.value, m, 32);
    forall i | 0 <= i < 32
      ensures BitOf(a, i) == (BitOf(f.value, i) && i == bit % 32)
    {
      BitOfJavaAnd(f.value, m, 32, i);
      BitOfJavaShiftOne(bit, 32, i);
    }
    ZeroIffNoBits(a, 32);
  }

  /** add(flag) sets the flag's bit and leaves every other bit as it was. */
  lemma {:induction false} AddSetsOnlyItsBit(f: BitFlags, flag: Flag)
    ensures f.Add(flag).IsSet(flag)
    ensures forall i :: 0 <= i < 32 && i != flag.bitNumber % 32 ==>
              BitOf(f.Add(flag).value, i) == BitOf(f.value, i)
    ensures f.Add(flag).constants == f.constants
  {
    Pow2Values();
    var g := f.Add(flag);
    forall i | 0 <= i < 32
      ensures BitOf(g.value, i) == (BitOf(f.value, i) || i == flag.bitNumber % 32)
    {
      BitOfJavaOr(f.value, Mask(flag), 32, i);
      BitOfJavaShiftOne(flag.bitNumber, 32, i);
    }
    IsSetBitMeaning(g, flag.bitNumber);
  }

  /** merge sets exactly the bits set in either operand. */
  lemma {:induction false} MergeBits(a: BitFlags, b: BitFlags, i: nat)
    requires i < 32
    ensures BitOf(a.Merge(b).value, i) <==> BitOf(a.value, i) || BitOf(b.value, i)
  {
    BitOfJavaOr(a.value, b.value, 32, i);
  }

  /** merge is commutative and idempotent. */
  lemma {:induction false} MergeCommutativeIdempotent(a: BitFlags, b: BitFlags)
    requires a.constants == b.constants
    ensures a.Merge(b) == b.Merge(a)
    ensures a.Merge(a) == a
  {
    Pow2Values();
    forall i | 0 <= i < 32
      ensures BitOf(a.Merge(b).value, i) == BitOf(b.Merge(a).value, i)
      ensures BitOf(a.Merge(a).value, i) == BitOf(a.value, i)
    {
      MergeBits(a, b, i);
      MergeBits(b, a, i);
      MergeBits(a, a, i);
    }
    JavaBitsDetermine(a.Merge(b).value, b.Merge(a).value, 32);
    JavaBitsDetermine(a.Merge(a).value, a.value, 32);
  }

  /** allOf(test): every bit of test is set here. */
  lemma {:induction false} AllOfIsSuperset(f: BitFlags, test: BitFlags)
    ensures f.AllOf(test) <==> forall i :: 0 <= i < 32 ==> BitOf(test.value, i) ==> BitOf(f.value, i)
  {
    Pow2Values();
    var a := And(f.value, test.value, 32);
    forall i | 0 <= i < 32
      ensures BitOf(a, i) == (BitOf(f.value, i) && BitOf(test.value, i))
    {
      BitOfJavaAnd(f.value, test.value, 32, i);
    }
    if forall i :: 0 <= i < 32 ==> BitOf(test.value, i) ==> BitOf(f.value, i) {
      JavaBitsDetermine(a, test.value, 32);
    }
  }

  /** anyOf(test): some bit is set in both. */
  lemma {:induction false} AnyOfIsIntersection(f: BitFlags, test: BitFlags)
    ensures f.AnyOf(test) <==> exists i :: 0 <= i < 32 && BitOf(test.value, i) && BitOf(f.value, i)
  {
    Pow2Values();
    var a := And(f.value, test.value, 32);
    forall i | 0 <= i < 32
      ensures BitOf(a, i) == (BitOf(f.value, i) && BitOf(test.value, i))
    {
      BitOfJavaAnd(f.value, test.value, 32, i);
    }
    ZeroIffNoBits(a, 32);
  }

  /** isEmpty holds exactly when no bit is set. */
  lemma {:induction false} IsEmptyMeansNoBit(f: BitFlags)
    ensures f.IsEmpty() <==> forall bit :: 0 <= bit < 32 ==> !f.IsSetBit(bit)
  {
    Pow2Values();
    forall bit | 0 <= bit < 32
      ensures f.IsSetBit(bit) <==> BitOf(f.value, bit)
    {
      IsSetBitMeaning(f, bit);
      DivModUnique(bit, 32, 0, bit);
    }
    ZeroIffNoBits(f.value, 32);
  }

  /** of(byte) zero-extends: the low 8 bits are the byte's, the others are clear. */
  lemma {:induction false} OfByteZeroExtends(b: int8, constants: seq<Flag>)
    ensures 0 <= OfByte(b, constants).value < 0x100
    ensures forall i :: 0 <= i < 32 ==> BitOf(OfByte(b, constants).value, i) == (i < 8 && BitOf(b, i))
  {
    Pow2Values();
    var v := OfByte(b, constants).value;
    forall i | 0 <= i < 32
      ensures BitOf(v, i) == (i < 8 && BitOf(b, i))
    {
      if i < 8 {
        BitOfUnsigned(b, 8, i);
      } else {
        BitOfHigh(v, 8, i);
      }
    }
  }

  /** of(short) zero-extends: the low 16 bits are the short's, the others are clear. */
  lemma {:induction false} OfShortZeroExtends(s: int16, constants: seq<Flag>)
    ensures 0 <= OfShort(s, constants).value < 0x1_0000
    ensures forall i :: 0 <= i < 32 ==> BitOf(OfShort(s, constants).value, i) == (i < 16 && BitOf(s, i))
  {
    Pow2Values();
    var v := OfShort(s, constants).value;
    forall i | 0 <= i < 32
      ensures BitOf(v, i) == (i < 16 && BitOf(s, i))
    {
      if i < 16 {
        BitOfUnsigned(s, 16, i);
      } else {
        BitOfHigh(v, 16, i);
      }
    }
  }

  /** of(cls, values...) sets exactly the bits the given constants name. */
  lemma {:induction false} MaskOfBits(values: seq<Flag>, i: nat)
    requires i < 32
    ensures BitOf(MaskOf(values), i) <==> exists j :: 0 <= j < |values| && values[j].bitNumber % 32 == i
    decreases |values|
  {
    Pow2Values();
    if |values| == 0 {
      DivModUnique(0, Pow2(i), 0, 0);
    } else {
      var init := values[..|values| - 1];
      var last := values[|values| - 1];
      MaskOfBits(init, i);
      BitOfJavaOr(MaskOf(init), Mask(last), 32, i);
      BitOfJavaShiftOne(last.bitNumber, 32, i);
      if exists j :: 0 <= j < |init| && init[j].bitNumber % 32 == i {
        var j :| 0 <= j < |init| && init[j].bitNumber % 32 == i;
        assert values[j] == init[j];
      }
      if exists j :: 0 <= j < |values| && values[j].bitNumber % 32 == i {
        var j :| 0 <= j < |values| && values[j].bitNumber % 32 == i;
        if j < |init| {
          assert init[j] == values[j];
        }
      }
    }
  }

  // ---------------------------------------------------------------------
  // allSet and hasUnknown, as written: the loop ORs the bit NUMBERS of the
  // constants, not their masks 1 << bitNumber.

  function AllSetOf(constants: seq<Flag>): int32
    decreases |constants|
  {
    Pow2Values();
    if |constants| == 0 then 0
    else Or(AllSetOf(constants[..|constants| - 1]), constants[|constants| - 1].bitNumber, 32)
  }

  method AllSet(constants: seq<Flag>) returns (r: int32)
    ensures forall i :: 0 <= i < 32 ==>
              (BitOf(r, i) <==> exists j :: 0 <= j < |constants| && BitOf(constants[j].bitNumber, i))
  {
    Pow2Values();
    var value: int32 := 0;
    for k := 0 to |constants|
      invariant value == AllSetOf(constants[..k])
    {
      assert constants[..k + 1][..k] == constants[..k];
      value := Or(value, constants[k].bitNumber, 32);
    }
    assert constants[..|constants|] == constants;
    forall i | 0 <= i < 32
      ensures BitOf(value, i) <==> exists j :: 0 <= j < |constants| && BitOf(constants[j].bitNumber, i)
    {
      AllSetOfBits(constants, i);
    }
    r := value;
  }

  lemma {:induction false} AllSetOfBits(constants: seq<Flag>, i: nat)
    requires i < 32
    ensures BitOf(AllSetOf(constants), i) <==>
              exists j :: 0 <= j < |constants| && BitOf(constants[j].bitNumber, i)
    decreases |constants|
  {
    Pow2Values();
    if |constants| == 0 {
      DivModUnique(0, Pow2(i), 0, 0);
    } else {
      var init := constants[..|constants| - 1];
      var last := constants[|constants| - 1];
      AllSetOfBits(init, i);
      BitOfJavaOr(AllSetOf(init), last.bitNumber, 32, i);
      if exists j :: 0 <= j < |init| && BitOf(init[j].bitNumber, i) {
        var j :| 0 <= j < |init| && BitOf(init[j].bitNumber, i);
        assert constants[j] == init[j];
      }
      if exists j :: 0 <= j < |constants| && BitOf(constants[j].bitNumber, i) {
        var j :| 0 <= j < |constants| && BitOf(constants[j].bitNumber, i);
        if j < |init| {
          assert init[j] == constants[j];
        }
      }
    }
  }

  /** hasUnknown as written: some set bit is outside allSet(). */
  function HasUnknownAsWritten(f: BitFlags): bool {
    Pow2Values();
    And(Not(AllSetOf(f.constants), 32), f.value, 32) != 0
  }

  method HasUnknown(f: BitFlags) returns (b: bool)
    ensures b == HasUnknownAsWritten(f)
  {
    Pow2Values();
    var all := AllSet(f.constants);
    AllSetOfBits(f.constants, 0);
    assert all == AllSetOf(f.constants) by {
      forall i | 0 <= i < 32
        ensures BitOf(all, i) == BitOf(AllSetOf(f.constants), i)
      {
        AllSetOfBits(f.constants, i);
      }
      JavaBitsDetermine(all, AllSetOf(f.constants), 32);
    }
    b := And(Not(all, 32), f.value, 32) != 0;
  }

  /** hasUnknown as evidently intended: a set bit that no constant claims. */
  function HasUnknownCorrected(f: BitFlags): bool {
    Pow2Values();
    And(Not(MaskOf(f.constants), 32), f.value, 32) != 0
  }

  lemma {:induction false} HasUnknownCorrectedMeaning(f: BitFlags)
    ensures HasUnknownCorrected(f) <==>
              exists i :: 0 <= i < 32 && BitOf(f.value, i) &&
                forall j :: 0 <= j < |f.constants| ==> f.constants[j].bitNumber % 32 != i
  {
    Pow2Values();
    var all := MaskOf(f.constants);
    var a := And(Not(all, 32), f.value, 32);
    forall i | 0 <= i < 32
      ensures BitOf(a, i) == (BitOf(f.value, i) &&
                forall j :: 0 <= j < |f.constants| ==> f.constants[j].bitNumber % 32 != i)
    {
      BitOfJavaAnd(Not(all, 32), f.value, 32, i);
      BitOfJavaNot(all, 32, i);
      MaskOfBits(f.constants, i);
    }
    ZeroIffNoBits(a, 32);
  }

  lemma {:induction false} ChannelBitNumbers()
    ensures forall j :: 0 <= j < |ChannelFlagConstants| ==> ChannelFlagConstants[j].bitNumber == j
  {
  }

  /** No bit number of a channel flag (0..14) has bit 4 set. */
  lemma {:induction false} ChannelBitNumbersLackBit4()
    ensures !exists j :: 0 <= j < |ChannelFlagConstants| && BitOf(ChannelFlagConstants[j].bitNumber, 4)
  {
    ChannelBitNumbers();
    forall j | 0 <= j < |ChannelFlagConstants|
      ensures !BitOf(ChannelFlagConstants[j].bitNumber, 4)
    {
      Pow2Values();
      DivModUnique(j, Pow2(4), 0, j);
    }
  }

  /**
   * The as-written hasUnknown reports LIMIT_RANGE_VALID (bit 4) as unknown:
   * the bit numbers 0..14 ORed together are 15, which has no bit 4.
   */
  lemma {:induction false} HasUnknownMisreportsKnownFlag()
    ensures HasUnknownAsWritten(BitFlags(16, ChannelFlagConstants))
  {
    Pow2Values();
    var all := AllSetOf(ChannelFlagConstants);
    assert BitOf(16, 4) by {
      DivModUnique(16, Pow2(4), 1, 0);
    }
    ChannelBitNumbersLackBit4();
    AllSetOfBits(ChannelFlagConstants, 4);
    BitOfJavaAnd(Not(all, 32), 16, 32, 4);
    BitOfJavaNot(all, 32, 4);
    ZeroIffNoBits(And(Not(all, 32), 16, 32), 32);
  }

  /** The corrected hasUnknown finds nothing unknown in a value that is one constant's bit. */
  lemma {:induction false} SingleKnownBit(f: BitFlags, j: nat)
    requires j < |f.constants| && 0 <= f.constants[j].bitNumber < 32
    requires f.value == Pow2(f.constants[j].bitNumber)
    ensures !HasUnknownCorrected(f)
  {
    var k := f.constants[j].bitNumber;
    HasUnknownCorrectedMeaning(f);
    assert k % 32 == k by {
      DivModUnique(k, 32, 0, k);
    }
    forall i | 0 <= i < 32 && BitOf(f.value, i)
      ensures f.constants[j].bitNumber % 32 == i
    {
      BitOfPow2(k, i);
    }
  }

  /** The corrected hasUnknown finds nothing unknown in the same value. */
  lemma {:induction false} HasUnknownCorrectedOnLimitRange()
    ensures !HasUnknownCorrected(BitFlags(16, ChannelFlagConstants))
  {
    assert ChannelFlagConstants[4].bitNumber == 4;
    assert Pow2(4) == 16;
    SingleKnownBit(BitFlags(16, ChannelFlagConstants), 4);
  }


  // ---------------------------------------------------------------------
  // toString

  /** Names of the constants that are set, in declaration order. */
  function KnownNames(f: BitFlags, cs: seq<Flag>): seq<string>
    decreases |cs|
  {
    if |cs| == 0 then []
    else KnownNames(f, cs[..|cs| - 1]) + (if f.IsSet(cs[|cs| - 1]) then [cs[|cs| - 1].name] else [])
  }

  /** The value with the bits of every set constant of cs cleared. */
  function Cleared(f: BitFlags, cs: seq<Flag>): int32
    decreases |cs|
  {
    Pow2Values();
    if |cs| == 0 then f.value
    else
      var v := Cleared(f, cs[..|cs| - 1]);
      if f.IsSet(cs[|cs| - 1]) then And(v, Not(Mask(cs[|cs| - 1]), 32), 32) else v
  }

  /** "UnknownBit" + i for every bit i below n set in v, ascending. */
  function UnknownNames(v: int32, n: nat): seq<string>
    decreases n
  {
    Pow2Values();
    if n == 0 then []
    else UnknownNames(v, n - 1) + (if And(v, ShiftLeft(1, n - 1, 32), 32) != 0 then ["UnknownBit" + IntToString(n - 1)] else [])
  }

  /** The names toString joins: the set constants, then the unclaimed set bits. */
  function ToStringItems(f: BitFlags): seq<string> {
    ItemsOf(KnownNames(f, f.constants), Cleared(f, f.constants))
  }

  /** The known names, followed by the unknown bits of v when v is not zero. */
  function ItemsOf(known: seq<string>, v: int32): seq<string> {
    known + (if v != 0 then UnknownNames(v, 32) else [])
  }

  function ToStringOf(f: BitFlags): string {
    AppendAll("", ToStringItems(f))
  }

  lemma {:induction false} AppendAllSnoc(sb: string, items: seq<string>, item: string)
    ensures AppendAll(sb, items + [item]) == AppendItem(AppendAll(sb, items), item)
    decreases |items|
  {
    if |items| > 0 {
      assert (items + [item])[1..] == items[1..] + [item];
      AppendAllSnoc(AppendItem(sb, items[0]), items[1..], item);
    }
  }

  /** One step of the first toString loop. */
  lemma {:induction false} KnownStep(f: BitFlags, cs: seq<Flag>, k: nat)
    requires k < |cs|
    ensures KnownNames(f, cs[..k + 1]) == KnownNames(f, cs[..k]) + (if f.IsSet(cs[k]) then [cs[k].name] else [])
    ensures Cleared(f, cs[..k + 1]) ==
              if f.IsSet(cs[k]) then And(Cleared(f, cs[..k]), Not(Mask(cs[k]), 32), 32) else Cleared(f, cs[..k])
  {
    assert cs[..k + 1][..k] == cs[..k];
  }

  /** One step of the second toString loop. */
  lemma {:induction false} UnknownStep(known: seq<string>, v: int32, i: nat)
    ensures known + UnknownNames(v, i + 1) ==
              (known + UnknownNames(v, i)) +
              (if And(v, ShiftLeft(1, i, 32), 32) != 0 then ["UnknownBit" + IntToString(i)] else [])
  {
  }

  /** The second toString loop: UnknownBitN for every set bit N of v. */
  method AppendUnknownBits(sb0: string, known: seq<string>, v: int32) returns (sb: string)
    requires sb0 == AppendAll("", known)
    ensures sb == AppendAll("", known + UnknownNames(v, 32))
  {
    sb := sb0;
    assert known + UnknownNames(v, 0) == known;
    for i := 0 to 32
      invariant sb == AppendAll("", known + UnknownNames(v, i))
    {
      var name := "UnknownBit" + IntToString(i);
      UnknownStep(known, v, i);
      if And(v, ShiftLeft(1, i, 32), 32) != 0 {
        AppendAllSnoc("", known + UnknownNames(v, i), name);
        sb := AppendItem(sb, name);
      } else {
        assert (known + UnknownNames(v, i)) + [] == known + UnknownNames(v, i);
      }
    }
  }

  /** The first toString loop: the names of the set constants, clearing their bits in v. */
  method AppendKnownFlags(f: BitFlags) returns (sb: string, v: int32)
    ensures sb == AppendAll("", KnownNames(f, f.constants))
    ensures v == Cleared(f, f.constants)
  {
    var cs := f.constants;
    v := f.value;
    sb := "";
    for k := 0 to |cs|
      invariant sb == AppendAll("", KnownNames(f, cs[..k]))
      invariant v == Cleared(f, cs[..k])
    {
      var flag := cs[k];
      KnownStep(f, cs, k);
      if f.IsSet(flag) {
        AppendAllSnoc("", KnownNames(f, cs[..k]), flag.name);
        sb := AppendItem(sb, flag.name);
        Pow2Values();
        v := And(v, Not(Mask(flag), 32), 32);
      } else {
        assert KnownNames(f, cs[..k]) + [] == KnownNames(f, cs[..k]);
      }
    }
    assert cs[..|cs|] == cs;
  }

  /** The items of toString: the known names, then the unknown bits when any remain. */
  lemma {:induction false} ToStringItemsSplit(f: BitFlags, known: seq<string>, v: int32)
    requires known == KnownNames(f, f.constants) && v == Cleared(f, f.constants)
    ensures v != 0 ==> ToStringItems(f) == known + UnknownNames(v, 32)
    ensures v == 0 ==> ToStringItems(f) == known
  {
    if v == 0 {
      assert known + [] == known;
    }
  }

  method ToString(f: BitFlags) returns (s: string)
    ensures s == ToStringOf(f)
  {
    var sb, v := AppendKnownFlags(f);
    var known := KnownNames(f, f.constants);
    ToStringItemsSplit(f, known, v);
    if v != 0 {
      sb := AppendUnknownBits(sb, known, v);
    }
    s := sb;
  }

  /** What remains after clearing: the set bits that no set constant of cs claims. */
  lemma {:induction false} ClearedBits(f: BitFlags, cs: seq<Flag>, i: nat)
    requires i < 32
    ensures BitOf(Cleared(f, cs), i) <==>
              BitOf(f.value, i) && forall j :: 0 <= j < |cs| ==> cs[j].bitNumber % 32 != i
    decreases |cs|
  {
    Pow2Values();
    if |cs| > 0 {
      var init := cs[..|cs| - 1];
      var last := cs[|cs| - 1];
      assert cs == init + [last];
      ClearedBits(f, init, i);
      IsSetBitMeaning(f, last.bitNumber);
      if f.IsSet(last) {
        BitOfJavaAnd(Cleared(f, init), Not(Mask(last), 32), 32, i);
        BitOfJavaNot(Mask(last), 32, i);
        BitOfJavaShiftOne(last.bitNumber, 32, i);
      }
      UnclaimedSnoc(cs, init, last, i);
    }
  }

  /** No constant of init + [last] claims bit i iff none of init does and last does not. */
  lemma {:induction false} UnclaimedSnoc(cs: seq<Flag>, init: seq<Flag>, last: Flag, i: nat)
    requires cs == init + [last]
    ensures (forall j :: 0 <= j < |cs| ==> cs[j].bitNumber % 32 != i) <==>
              (forall j :: 0 <= j < |init| ==> init[j].bitNumber % 32 != i) && last.bitNumber % 32 != i
  {
    if forall j :: 0 <= j < |init| ==> init[j].bitNumber % 32 != i {
      if last.bitNumber % 32 != i {
        forall j | 0 <= j < |cs|
          ensures cs[j].bitNumber % 32 != i
        {
          if j < |init| {
            assert cs[j] == init[j];
          }
        }
      } else {
        assert cs[|init|] == last;
      }
    } else {
      var j :| 0 <= j < |init| && init[j].bitNumber % 32 == i;
      assert cs[j] == init[j];
    }
  }

  /**
   * toString lists the names of the set constants in declaration order, then
   * UnknownBitN for each remaining set bit N in ascending order, separated by
   * commas when the names are nonempty.
   */
  lemma {:induction false} ToStringIsJoin(f: BitFlags)
    requires forall j :: 0 <= j < |f.constants| ==> |f.constants[j].name| > 0
    ensures ToStringOf(f) == Join(ToStringItems(f))
  {
    KnownNamesNonempty(f, f.constants);
    ItemsOfNonempty(KnownNames(f, f.constants), Cleared(f, f.constants));
    AppendAllIsJoin(ToStringItems(f));
  }

  lemma {:induction false} ItemsOfNonempty(known: seq<string>, v: int32)
    requires forall k :: 0 <= k < |known| ==> |known[k]| > 0
    ensures forall k :: 0 <= k < |ItemsOf(known, v)| ==> |ItemsOf(known, v)[k]| > 0
  {
    if v != 0 {
      UnknownNamesNonempty(v, 32);
      NonemptyConcat(known, UnknownNames(v, 32), ItemsOf(known, v));
    } else {
      assert ItemsOf(known, v) == known;
    }
  }

  lemma {:induction false} NonemptyConcat(a: seq<string>, b: seq<string>, c: seq<string>)
    requires forall k :: 0 <= k < |a| ==> |a[k]| > 0
    requires forall k :: 0 <= k < |b| ==> |b[k]| > 0
    requires c == a + b
    ensures forall k :: 0 <= k < |c| ==> |c[k]| > 0
  {
    forall k | 0 <= k < |c|
      ensures |c[k]| > 0
    {
      if k >= |a| {
        assert c[k] == b[k - |a|];
      }
    }
  }


  lemma {:induction false} KnownNamesNonempty(f: BitFlags, cs: seq<Flag>)
    requires forall j :: 0 <= j < |cs| ==> |cs[j].name| > 0
    ensures forall k :: 0 <= k < |KnownNames(f, cs)| ==> |KnownNames(f, cs)[k]| > 0
    decreases |cs|
  {
    if |cs| > 0 {
      KnownNamesNonempty(f, cs[..|cs| - 1]);
    }
  }

  lemma {:induction false} UnknownNamesNonempty(v: int32, n: nat)
    ensures forall k :: 0 <= k < |UnknownNames(v, n)| ==> |UnknownNames(v, n)[k]| > 0
    decreases n
  {
    if n > 0 {
      UnknownNamesNonempty(v, n - 1);
    }
  }

  /** UnknownBitN appears exactly for the set bits N of the value. */
  lemma {:induction false} UnknownNamesCover(v: int32, n: nat, i: nat)
    requires n <= 32 && i < n
    ensures "UnknownBit" + IntToString(i) in UnknownNames(v, n) <==> BitOf(v, i)
    decreases n
  {
    var last := if And(v, ShiftLeft(1, n - 1, 32), 32) != 0 then ["UnknownBit" + IntToString(n - 1)] else [];
    assert UnknownNames(v, n) == UnknownNames(v, n - 1) + last;
    if i < n - 1 {
      UnknownNamesCover(v, n - 1, i);
      UnknownNameInjective(i, n - 1);
    } else {
      UnknownNamesAbove(v, n - 1, i);
      SetBitTest(v, i);
    }
  }

  lemma {:induction false} SetBitTest(v: int32, i: nat)
    requires i < 32
    ensures And(v, ShiftLeft(1, i, 32), 32) != 0 <==> BitOf(v, i)
  {
    IsSetBitMeaning(BitFlags(v, []), i);
    DivModUnique(i, 32, 0, i);
  }

  /** UnknownNames(v, n) names no bit at or above n. */
  lemma {:induction false} UnknownNamesAbove(v: int32, n: nat, i: nat)
    requires n <= i
    ensures "UnknownBit" + IntToString(i) !in UnknownNames(v, n)
    decreases n
  {
    if n > 0 {
      UnknownNamesAbove(v, n - 1, i);
      UnknownNameInjective(n - 1, i);
    }
  }

  lemma {:induction false} UnknownNameInjective(a: nat, b: nat)
    ensures "UnknownBit" + IntToString(a) == "UnknownBit" + IntToString(b) ==> a == b
  {
    var sa := "UnknownBit" + IntToString(a);
    var sb := "UnknownBit" + IntToString(b);
    assert sa[10..] == NatToString(a);
    assert sb[10..] == NatToString(b);
    DigitsOfNat(a);
    DigitsOfNat(b);
  }
}
