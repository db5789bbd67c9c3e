// The identification block at the start of an MDF file: the file magic, the
// format version text, the program id, the version number and, in files the
// writer has not finalized yet, the unfinalized flags.

module IdBlocks {
  import opened JavaTypes
  import opened Results
  import opened Text
  import opened Io
  import opened Arrays
  import opened Flags
  import opened MdfFormatVersions

  /** The file magic of ASAM MDF 4; Consts.java itself is not part of this model. */
  const FILE_MAGIC: string := "MDF     "
  /** The magic of a file whose writer has not finalized it yet. */
  const UNFINISHED_FILE_MAGIC: string := "UnFinMF "

  const UnfinalizedFlagConstants: seq<Flag> := [
    Flag("DIRTY_CGCA_CYCLE_COUNTERS", 0), Flag("DIRTY_SR_CYCLE_COUNTERS", 1),
    Flag("DIRTY_LAST_DT_LENGTH", 2), Flag("DIRTY_LAST_RD_LENGTH", 3),
    Flag("DIRTY_LAST_DL", 4), Flag("DIRTY_VLSD_BYTE_LENGTHS", 5), Flag("DIRTY_VLSD_OFFSET", 6)]

  /** Java null is None: the two flag fields exist only in unfinished files. */
  datatype IdBlock = IdBlock(
    formatId: MdfFormatVersion,
    programId: string,
    unfinalizedFlags: Option<BitFlags>,
    customUnfinalizedFlags: Option<int32>)
  {
    /** isUnfinalized: the unfinalized flags are present (not null). */
    function IsUnfinalized(): (b: bool)
      ensures b <==> unfinalizedFlags.Some?
    {
      unfinalizedFlags.Some?
    }
  }

  /** The program id up to its first NUL, or all of it when there is none. */
  function ProgramId(t: string): (r: string)
    ensures '\0' !in r && r <= t
    ensures '\0' in t ==> r + ['\0'] <= t
    ensures '\0' !in t ==> r == t
  {
    var size := FirstIndex(t, '\0');
    if size == -1 then t
    else
      assert t[..size] + ['\0'] == t[..size + 1];
      t[..size]
  }

  /**
   * The two flag words after the fill bytes: BitFlags.of(short) zero-extends
   * the first, CustomFlags.of(int) sign-extends the second.
   */
  function UnfinalizedAt(s: seq<byte>, p: int, unfinished: bool): (r: Result<(Option<BitFlags>, Option<int32>)>)
    ensures r.Ok? <==> !unfinished || (0 <= p && p + 4 <= |s|)
    ensures r.Ok? && !unfinished ==> r.value == (None, None)
    ensures r.Ok? && unfinished ==>
              r.value == (Some(OfShort(I16At(s, p).value, UnfinalizedFlagConstants)), Some(I16At(s, p + 2).value as int32))
    ensures r.Err? ==> r.error == EndOfInput
  {
    if !unfinished then Ok((None, None))
    else
      var flags :- I16At(s, p);
      var custom :- I16At(s, p + 2);
      Ok((Some(OfShort(flags, UnfinalizedFlagConstants)), Some(custom as int32)))
  }

  /** The checks parse makes once every field is read, in their order. */
  function CheckFields(version: MdfFormatVersion, byteOrder: int16, floatFormat: int16, versionNumber: int16, codePage: int16): (r: Result<()>)
    ensures r.Ok? <==> version.AsInt() == versionNumber && byteOrder == 0 && floatFormat == 0 && codePage == 0
    ensures version.AsInt() != versionNumber ==>
              r == Err(FormatError("File MDF versions do not match " + IntToString(version.AsInt()) + " vs " + IntToString(versionNumber)))
  {
    if version.AsInt() != versionNumber then
      Err(FormatError("File MDF versions do not match " + IntToString(version.AsInt()) + " vs " + IntToString(versionNumber)))
    else if byteOrder != 0 then Err(FormatError("Unexpected non-default byte order"))
    else if floatFormat != 0 then Err(FormatError("Unexpected non-default floating point format"))
    else if codePage != 0 then Err(FormatError("Unexpected code page number"))
    else Ok(())
  }

  /** The fields between the magic and the fill bytes. */
  datatype Fields = Fields(version: MdfFormatVersion, program: seq<byte>,
                           byteOrder: int16, floatFormat: int16, versionNumber: int16, codePage: int16)

  /** The four shorts read from q on. */
  function ShortsAt(s: seq<byte>, q: int): (r: Result<(int16, int16, int16, int16)>)
    requires 0 <= q
    ensures r.Ok? <==> q + 8 <= |s|
    ensures r.Ok? ==> r.value == (I16At(s, q).value, I16At(s, q + 2).value, I16At(s, q + 4).value, I16At(s, q + 6).value)
    ensures r.Err? ==> r.error == EndOfInput
  {
    var a :- I16At(s, q);
    var b :- I16At(s, q + 2);
    var c :- I16At(s, q + 4);
    var d :- I16At(s, q + 6);
    Ok((a, b, c, d))
  }

  method ReadShorts(input: ByteInput) returns (r: Result<(int16, int16, int16, int16)>)
    requires input.Valid()
    modifies input
    ensures input.Valid() && input.bytes == old(input.bytes)
    ensures r == ShortsAt(old(input.bytes), old(input.pos))
    ensures r.Ok? ==> input.pos == old(input.pos) + 8
  {
    var a :- input.ReadI16();
    var b :- input.ReadI16();
    var c :- input.ReadI16();
    var d :- input.ReadI16();
    return Ok((a, b, c, d));
  }

  /** The fields read from q on: version text, program id and four shorts. */
  function FieldsAt(s: seq<byte>, q: int): (r: Result<Fields>)
    requires 0 <= q
    ensures r.Ok? <==> q + 24 <= |s| && VersionAt(s, q).Ok?
    ensures r.Ok? ==> r.value == Fields(VersionAt(s, q).value, s[q + 8..q + 16], I16At(s, q + 16).value,
                                        I16At(s, q + 18).value, I16At(s, q + 20).value, I16At(s, q + 22).value)
  {
    var version :- VersionAt(s, q);
    var program :- BytesAt(s, q + 8, 8);
    var shorts :- ShortsAt(s, q + 16);
    Ok(Fields(version, program, shorts.0, shorts.1, shorts.2, shorts.3))
  }

  method ReadFields(input: ByteInput) returns (r: Result<Fields>)
    requires input.Valid()
    modifies input
    ensures input.Valid() && input.bytes == old(input.bytes)
    ensures r == FieldsAt(old(input.bytes), old(input.pos))
    ensures r.Ok? ==> input.pos == old(input.pos) + 24
  {
    var version :- MdfFormatVersions.Parse(input);
    var program :- input.ReadBytes(8);
    var shorts :- ReadShorts(input);
    return Ok(Fields(version, program, shorts.0, shorts.1, shorts.2, shorts.3));
  }

  const NOT_A_MDF_FILE := FormatError("File not a MDF file: file does not start with '" + FILE_MAGIC + "'")

  /** What IdBlock.parse yields for the input at p in s. */
  function IdBlockAt(s: seq<byte>, p: int): (r: Result<IdBlock>)
    requires 0 <= p <= |s| <= INT_MAX
    ensures p + 8 <= |s| && Latin1Decode(s[p..p + 8]) != FILE_MAGIC && Latin1Decode(s[p..p + 8]) != UNFINISHED_FILE_MAGIC ==>
              r == Err(NOT_A_MDF_FILE)
    ensures r.Ok? ==> p + 60 <= |s| && (r.value.IsUnfinalized() <==> Latin1Decode(s[p..p + 8]) == UNFINISHED_FILE_MAGIC)
    ensures r.Ok? && !r.value.IsUnfinalized() ==> Latin1Decode(s[p..p + 8]) == FILE_MAGIC
  {
    var magic :- BytesAt(s, p, 8);
    var fileId := Latin1Decode(magic);
    if fileId != FILE_MAGIC && fileId != UNFINISHED_FILE_MAGIC then Err(NOT_A_MDF_FILE)
    else AfterMagicAt(s, p + 8, fileId == UNFINISHED_FILE_MAGIC)
  }

  /** The rest of parse once the magic at q - 8 is accepted. */
  function AfterMagicAt(s: seq<byte>, q: int, unfinished: bool): (r: Result<IdBlock>)
    requires 0 <= q <= |s| <= INT_MAX
    ensures r.Ok? ==> q + 52 <= |s| && (r.value.IsUnfinalized() <==> unfinished)
    ensures r.Ok? && unfinished ==> q + 56 <= |s|
    ensures r.Ok? ==> r.value.programId == ProgramId(Latin1Decode(s[q + 8..q + 16]))
    ensures r.Ok? ==> VersionAt(s, q) == Ok(r.value.formatId) && I16At(s, q + 20) == Ok(r.value.formatId.AsInt())
    ensures r.Ok? ==> I16At(s, q + 16) == Ok(0) && I16At(s, q + 18) == Ok(0) && I16At(s, q + 22) == Ok(0)
  {
    var f :- FieldsAt(s, q);
    var _ :- SeekCheck(q + 52, |s|);
    var flags :- UnfinalizedAt(s, q + 52, unfinished);
    var _ :- CheckFields(f.version, f.byteOrder, f.floatFormat, f.versionNumber, f.codePage);
    Ok(IdBlock(f.version, ProgramId(Latin1Decode(f.program)), flags.0, flags.1))
  }

  /** What IdBlockAt promises: the checks it makes and the fields it reads. */
  lemma {:induction false} IdBlockAtMeaning(s: seq<byte>, p: int)
    requires 0 <= p <= |s| <= INT_MAX
    ensures p + 8 <= |s| && Latin1Decode(s[p..p + 8]) != FILE_MAGIC && Latin1Decode(s[p..p + 8]) != UNFINISHED_FILE_MAGIC ==>
              IdBlockAt(s, p) == Err(NOT_A_MDF_FILE)
    ensures IdBlockAt(s, p).Ok? ==> p + 60 <= |s|
    ensures IdBlockAt(s, p).Ok? ==> (IdBlockAt(s, p).value.IsUnfinalized() <==> Latin1Decode(s[p..p + 8]) == UNFINISHED_FILE_MAGIC)
    ensures IdBlockAt(s, p).Ok? && !IdBlockAt(s, p).value.IsUnfinalized() ==> Latin1Decode(s[p..p + 8]) == FILE_MAGIC
    ensures IdBlockAt(s, p).Ok? ==> VersionAt(s, p + 8) == Ok(IdBlockAt(s, p).value.formatId)
    ensures IdBlockAt(s, p).Ok? ==> IdBlockAt(s, p).value.programId == ProgramId(Latin1Decode(s[p + 16..p + 24]))
    ensures IdBlockAt(s, p).Ok? ==> IdBlockAt(s, p).value.formatId.AsInt() == I16At(s, p + 28).value
    ensures IdBlockAt(s, p).Ok? ==> I16At(s, p + 24) == Ok(0) && I16At(s, p + 26) == Ok(0) && I16At(s, p + 30) == Ok(0)
    ensures IdBlockAt(s, p).Ok? && IdBlockAt(s, p).value.IsUnfinalized() ==>
              p + 64 <= |s| && IdBlockAt(s, p).value.unfinalizedFlags == Some(OfShort(I16At(s, p + 60).value, UnfinalizedFlagConstants))
  {
  }

  method ReadUnfinalized(input: ByteInput, unfinished: bool) returns (r: Result<(Option<BitFlags>, Option<int32>)>)
    requires input.Valid()
    modifies input
    ensures input.Valid() && input.bytes == old(input.bytes)
    ensures r == UnfinalizedAt(old(input.bytes), old(input.pos), unfinished)
  {
    if !unfinished {
      return Ok((None, None));
    }
    var flags :- input.ReadI16();
    var custom :- input.ReadI16();
    return Ok((Some(OfShort(flags, UnfinalizedFlagConstants)), Some(custom as int32)));
  }

  /** The reads of parse after the magic, then the checks. */
  method ReadAfterMagic(input: ByteInput, unfinished: bool) returns (r: Result<IdBlock>)
    requires input.Valid()
    modifies input
    ensures input.Valid() && input.bytes == old(input.bytes)
    ensures r == AfterMagicAt(old(input.bytes), old(input.pos), unfinished)
  {
    var f :- ReadFields(input);
    var _ :- input.Skip(28);
    var flags :- ReadUnfinalized(input, unfinished);
    var _ :- CheckFields(f.version, f.byteOrder, f.floatFormat, f.versionNumber, f.codePage);
    return Ok(IdBlock(f.version, ProgramId(Latin1Decode(f.program)), flags.0, flags.1));
  }

  /** parse: reads the fields one after the other, then checks them. */
  method Parse(input: ByteInput) returns (r: Result<IdBlock>)
    requires input.Valid()
    modifies input
    ensures input.Valid() && input.bytes == old(input.bytes)
    ensures r == IdBlockAt(old(input.bytes), old(input.pos))
  {
    var magic :- input.ReadBytes(8);
    var fileId := Latin1Decode(magic);
    if fileId != FILE_MAGIC && fileId != UNFINISHED_FILE_MAGIC {
      return Err(NOT_A_MDF_FILE);
    }
    r := ReadAfterMagic(input, fileId == UNFINISHED_FILE_MAGIC);
  }

}
