// The format version of an MDF file: the eight Latin-1 characters "d.dd    "
// of the identification block, and its number major * 100 + minor.

module MdfFormatVersions {
  import opened JavaTypes
  import opened Results
  import opened Text
  import opened Io

  datatype MdfFormatVersion = MdfFormatVersion(major: int32, minor: int32)
  {
    /** asInt: major * 100 + minor in int arithmetic. */
    function AsInt(): (r: int32)
      ensures -0x8000_0000 <= major * 100 + minor <= INT_MAX ==> r == major * 100 + minor
    {
      Pow2Values();
      if -0x8000_0000 <= major * 100 + minor <= INT_MAX then
        WrapBitsInRange(major * 100 + minor, 32);
        Wrap32(major * 100 + minor)
      else
        Wrap32(major * 100 + minor)
    }
  }

  /** The text the pattern ^(\d)\.(\d\d) {4}$ matches, with \d the ASCII digits. */
  predicate IsVersionText(t: string) {
    |t| == 8 && IsDigit(t[0]) && t[1] == '.' && IsDigit(t[2]) && IsDigit(t[3]) && t[4..] == "    "
  }

  /** The version an eight-character text denotes, or the format error for any other text. */
  function ParseVersion(t: string): (r: Result<MdfFormatVersion>)
    ensures r.Ok? <==> IsVersionText(t)
    ensures r.Ok? ==> r.value.major == DigitValue(t[0]) && r.value.minor == 10 * DigitValue(t[2]) + DigitValue(t[3])
    ensures r.Err? ==> r.error == FormatError("Unable to parse MDF format version, got " + t)
  {
    if IsVersionText(t) then Ok(MdfFormatVersion(DigitValue(t[0]), 10 * DigitValue(t[2]) + DigitValue(t[3])))
    else Err(FormatError("Unable to parse MDF format version, got " + t))
  }

  /** parse: the eight bytes at p decoded as ISO 8859-1, then matched. */
  function VersionAt(s: seq<byte>, p: int): (r: Result<MdfFormatVersion>)
    ensures p + 8 > |s| && 0 <= p ==> r == Err(EndOfInput)
    ensures 0 <= p && p + 8 <= |s| ==> r == ParseVersion(Latin1Decode(s[p..p + 8]))
  {
    var bs :- BytesAt(s, p, 8);
    ParseVersion(Latin1Decode(bs))
  }

  method Parse(input: ByteInput) returns (r: Result<MdfFormatVersion>)
    requires input.Valid()
    modifies input
    ensures input.Valid() && input.bytes == old(input.bytes)
    ensures r == VersionAt(old(input.bytes), old(input.pos))
    ensures r.Ok? ==> input.pos == old(input.pos) + 8
  {
    var bs :- input.ReadBytes(8);
    return ParseVersion(Latin1Decode(bs));
  }

  /** A version the pattern can express: one major digit, two minor digits. */
  predicate Expressible(v: MdfFormatVersion) {
    0 <= v.major < 10 && 0 <= v.minor < 100
  }

  /** The identification text of a version, minor zero-padded to two digits. */
  function VersionText(v: MdfFormatVersion): (t: string)
    requires Expressible(v)
    ensures |t| == 8
  {
    [DigitChar(v.major), '.', DigitChar(v.minor / 10), DigitChar(v.minor % 10)] + "    "
  }

  /** Every expressible version survives writing its text and parsing it. */
  lemma {:induction false} VersionTextRoundTrip(v: MdfFormatVersion)
    requires Expressible(v)
    ensures IsVersionText(VersionText(v))
    ensures ParseVersion(VersionText(v)) == Ok(v)
  {
    var t := VersionText(v);
    assert t[4..] == "    ";
  }

  /** Every accepted text is the text of the version it denotes. */
  lemma {:induction false} ParsedVersionText(t: string)
    requires IsVersionText(t)
    ensures Expressible(ParseVersion(t).value)
    ensures VersionText(ParseVersion(t).value) == t
  {
    var v := ParseVersion(t).value;
    var d2, d3 := DigitValue(t[2]), DigitValue(t[3]);
    DivModUnique(v.minor, 10, d2, d3);
    assert DigitChar(d2) == t[2] && DigitChar(d3) == t[3] && DigitChar(v.major) == t[0];
    assert VersionText(v)[4..] == t[4..];
  }

  /** asInt tells expressible versions apart. */
  lemma {:induction false} AsIntInjective(a: MdfFormatVersion, b: MdfFormatVersion)
    requires Expressible(a) && Expressible(b)
    ensures a.AsInt() == b.AsInt() <==> a == b
  {
    if a.AsInt() == b.AsInt() {
      DivModUnique(a.AsInt(), 100, a.major, a.minor);
      DivModUnique(a.AsInt(), 100, b.major, b.minor);
    }
  }

  /** "4.10    " is version 4.10, number 410. */
  lemma {:induction false} Version410()
    ensures ParseVersion("4.10    ") == Ok(MdfFormatVersion(4, 10))
    ensures ParseVersion("4.10    ").value.AsInt() == 410
  {
    assert IsVersionText("4.10    ") by {
      assert "4.10    "[4..] == "    ";
    }
  }
}
