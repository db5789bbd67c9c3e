// The visitor that reads the value of a size channel (the length of a
// variable-length signal) into an int cell: a size must be a non-negative Java
// array length; negative signed values are malformed, and values the JVM
// cannot allocate are not supported.

module SizeVisitors {
  import opened JavaTypes
  import opened Results
  import opened Text
  import opened UnsignedLongs

  /** The largest array length the JVM reliably allocates. */
  const MAX_ARRAY_LENGTH: int32 := INT_MAX - 8

  const NOT_BIG := "Not big value for size channel: "
  const INVALID := "Invalid value for size channel: "

  /** A mutable int, as the visitor's target. */
  class IntCell {
    var value: int32

    constructor (value: int32)
      ensures this.value == value
    {
      this.value := value;
    }

    method Get() returns (r: int32)
      ensures r == value
    {
      r := value;
    }

    method Set(value: int32)
      modifies this
      ensures this.value == value
    {
      this.value := value;
    }
  }

  /** An unsigned 64-bit value: rejected when its unsigned value exceeds the maximum. */
  method VisitU64(value: int64, target: IntCell) returns (r: Result<()>)
    modifies target
    ensures r.Ok? <==> ToBigIntegerValue(value) <= MAX_ARRAY_LENGTH
    ensures r.Ok? ==> target.value == value
    ensures r.Err? ==> r.error == NotImplemented(NOT_BIG + ToUnsignedString(value))
    ensures r.Err? ==> target.value == old(target.value)
  {
    UnsignedSizeCheck(value);
    if value < 0 || value > MAX_ARRAY_LENGTH {
      return Err(NotImplemented(NOT_BIG + ToUnsignedString(value)));
    }
    Wrap32Exact(value);
    target.Set(Wrap32(value));
    return Ok(());
  }

  /** An int: negative is malformed, above the maximum is not supported. */
  method VisitI32(value: int32, target: IntCell) returns (r: Result<()>)
    modifies target
    ensures r.Ok? <==> 0 <= value <= MAX_ARRAY_LENGTH
    ensures r.Ok? ==> target.value == value
    ensures value < 0 ==> r == Err(FormatError(INVALID + IntToString(value)))
    ensures value > MAX_ARRAY_LENGTH ==> r == Err(NotImplemented(NOT_BIG + IntToString(value)))
    ensures r.Err? ==> target.value == old(target.value)
  {
    if value < 0 {
      return Err(FormatError(INVALID + IntToString(value)));
    } else if value > MAX_ARRAY_LENGTH {
      return Err(NotImplemented(NOT_BIG + IntToString(value)));
    }
    target.Set(value);
    return Ok(());
  }

  /** A long: the same checks as for an int, then narrowed to int. */
  method VisitI64(value: int64, target: IntCell) returns (r: Result<()>)
    modifies target
    ensures r.Ok? <==> 0 <= value <= MAX_ARRAY_LENGTH
    ensures r.Ok? ==> target.value == value
    ensures value < 0 ==> r == Err(FormatError(INVALID + IntToString(value)))
    ensures value > MAX_ARRAY_LENGTH ==> r == Err(NotImplemented(NOT_BIG + IntToString(value)))
    ensures r.Err? ==> target.value == old(target.value)
  {
    if value < 0 {
      return Err(FormatError(INVALID + IntToString(value)));
    } else if value > MAX_ARRAY_LENGTH {
      return Err(NotImplemented(NOT_BIG + IntToString(value)));
    }
    Wrap32Exact(value);
    target.Set(Wrap32(value));
    return Ok(());
  }

  /**
   * The unsigned check of visitU64 accepts exactly the longs the signed
   * check of visitI64 accepts, and its message spells the unsigned value.
   */
  lemma {:induction false} UnsignedSizeCheck(value: int64)
    ensures (value < 0 || value > MAX_ARRAY_LENGTH) <==> ToBigIntegerValue(value) > MAX_ARRAY_LENGTH
    ensures DigitsValue(ToUnsignedString(value)) == ToBigIntegerValue(value)
  {
    if value < 0 {
      Pow2Values();
      assert ToBigIntegerValue(value) == value + Pow2(64) by {
        DivModUnique(value, Pow2(64), -1, value + Pow2(64));
      }
    }
  }
}
