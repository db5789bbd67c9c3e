# mdf4j decode core in Dafny

This project models the decode core of mdf4j, a Java reader for ASAM MDF 4.x measurement files, and proves properties of that model. It covers:

- **Block preamble.** The generic block header is a type id starting with `##`, 4 padding bytes, the block length, the link count and the links. The model has its parser, its `parseExpecting` checks, the type-id packing and the writer (`Mdf4Writer`) that emits headers, the header block and the identification block. Written block headers and the header block parse back to what was written. The identification block parses back only with the corrected, padded version text (Findings row 2).
- **Bit flags, links and results.** Flag sets are ints, links are raw file offsets with a resolve cache, and `Result` is a two-variant type with its combinators.
- **Identification block and format version.** The magic, the program id, the `d.dd` version text and the fixed fields are validated.
- **Data lists.** The `##DL` block parser, the two kinds of offset tables (equal length, explicit values), merging offsets across a chain, and `addOffsets` / `collectDataList` of the record reader factory.
- **Record layout.** The `RecordByteBuffer` endian reads and the channel readers that `createChannelReader` builds:
  - the invalidation byte and mask;
  - masked unsigned and sign-extended signed integers of odd widths;
  - NUL-terminated strings and byte arrays;
  - linear conversion as a tagged value;
  - binary16 to binary32 conversion of half floats as bit patterns.
- **Compressed blocks and cursors.** The byte-plane de-transposition of `##DZ` blocks and the inflate/transpose dispatch. Also the stateful cursors `SeekableDataListRead`, a channel over the blocks of a data list, and `DefaultRecordReader`, which fetches one record at a time into a reused buffer.
- **Small values.** The size-channel visitor and the unsigned-long box.

Java's integers are modelled as subset types of `int` (`int8` … `int64`). Wrap-around, arithmetic shifts and masks are written out in the `Bits` and `JavaTypes` modules. Exceptions are the `Exception` datatype of `Results`, as the error half of a `Result`. The byte input is an in-memory cursor over a `seq<byte>`. Blocks the cursors reach through links are resolved by a function that is a parameter.

Stateful Java objects are Dafny classes whose fields the methods update. Every method's `ensures` ties the new state and the result to a pure function of the old state. The properties are proved about those functions.

Three behaviours of the source shape the model:

- A channel with a non-zero bit offset is refused as not implemented (`RecordReaderFactory.java:65-67`), so no reader extracts a field that starts inside a byte.
- Structural errors are format errors (`FormatException`), for example a wrong block id or too few links (`BlockHeader.java:40-66`), rather than distinct error kinds.
- The de-transposition column size of a `##DZ` block is its zip parameter (`DataZippedBlock.java:56-66`).

## Model

| member | source | states |
|---|---|---|
| Arrays.FirstIndex | src/main/java/de/richardliebscher/mdf4/internal/Arrays.java:20-27 | the first index holding the element, -1 exactly when it does not occur, and no earlier index holds it |
| Arrays.FirstIndexIsUnique | src/main/java/de/richardliebscher/mdf4/internal/Arrays.java:20-27 | an index holding the element with none before it is the answer |
| Arrays.IndexOf | src/main/java/de/richardliebscher/mdf4/internal/Arrays.java:20-27 | the loop returns the first index of the element, or -1 when the array does not contain it |
| ParseUtils.TextOf | src/main/java/de/richardliebscher/mdf4/blocks/ParseUtils.java:22-26 | the text is accepted exactly when it contains a NUL, and is then everything before the first NUL; otherwise the missing-termination format error |
| ParseUtils.TextAt | src/main/java/de/richardliebscher/mdf4/blocks/ParseUtils.java:20-27 | a length beyond the int range fails toIntExact, a negative one is a negative array size, too few bytes end the input, otherwise the text of the bytes read |
| ParseUtils.ParseText | src/main/java/de/richardliebscher/mdf4/blocks/ParseUtils.java:20-27 | reads the text the pure definition gives and advances the input by the length on success |
| ParseUtils.FlagsSetMeaning | src/main/java/de/richardliebscher/mdf4/blocks/ParseUtils.java:29-31 | flagsSet holds exactly when every bit of the flags is set in the checked value |
| ParseUtils.FlagsSetZero | src/main/java/de/richardliebscher/mdf4/blocks/ParseUtils.java:29-31 | empty flags are always set |
| Links.Of | src/main/java/de/richardliebscher/mdf4/Link.java:56-76 | Link.of keeps the address, and the link is NIL exactly when the address is 0 |
| Links.OfInjective | src/main/java/de/richardliebscher/mdf4/Link.java:56-58 | two links are equal exactly when their addresses are |
| Links.Resolved | src/main/java/de/richardliebscher/mdf4/Link.java:119-127 | a NIL link resolves to nothing; otherwise the seek to the address (which may fail) and the block the parser reads there |
| Links.CachedLink.constructor | src/main/java/de/richardliebscher/mdf4/Link.java:36-38 | a new link holds its address and an empty cache |
| Links.CachedLink.Resolve | src/main/java/de/richardliebscher/mdf4/Link.java:91-109 | NIL gives nothing and leaves the input alone; a cached block is returned without parsing; otherwise one parse, whose result is cached on success |
| Links.CachedLink.ResolveNonCached | src/main/java/de/richardliebscher/mdf4/Link.java:119-127 | parses on every call, leaves the cache unchanged and gives the pure resolution |
| Links.ResolveTwice | src/main/java/de/richardliebscher/mdf4/Link.java:91-109 | resolving twice parses once and the second call returns the first block |
| MdfFormatVersions.MdfFormatVersion.AsInt | src/main/java/de/richardliebscher/mdf4/MdfFormatVersion.java:49-51 | major * 100 + minor whenever that fits an int |
| MdfFormatVersions.ParseVersion | src/main/java/de/richardliebscher/mdf4/MdfFormatVersion.java:21-41 | accepted exactly when the text matches one digit, a dot, two digits and four spaces; the version is the digits' value; otherwise the format error naming the text |
| MdfFormatVersions.VersionAt | src/main/java/de/richardliebscher/mdf4/MdfFormatVersion.java:33-42 | eight bytes at the position decoded as ISO 8859-1 and matched; too few bytes end the input |
| MdfFormatVersions.Parse | src/main/java/de/richardliebscher/mdf4/MdfFormatVersion.java:33-42 | reads the version the pure definition gives and advances the input by 8 on success |
| MdfFormatVersions.VersionText | src/main/java/de/richardliebscher/mdf4/MdfFormatVersion.java:21 | the eight-character text of a version |
| MdfFormatVersions.VersionTextRoundTrip | src/main/java/de/richardliebscher/mdf4/MdfFormatVersion.java:33-42 | every version with a one-digit major and a two-digit minor parses back from its text |
| MdfFormatVersions.ParsedVersionText | src/main/java/de/richardliebscher/mdf4/MdfFormatVersion.java:33-42 | every accepted text is the text of the version it denotes |
| MdfFormatVersions.AsIntInjective | src/main/java/de/richardliebscher/mdf4/MdfFormatVersion.java:49-51 | asInt tells such versions apart |
| MdfFormatVersions.Version410 | src/main/java/de/richardliebscher/mdf4/MdfFormatVersion.java:33-51 | the text of version 4.10 parses to 4.10, whose number is 410 |
| Results.Result.IsErr | src/main/java/de/richardliebscher/mdf4/Result.java:179-186 | isErr is the negation of isOk |
| Results.Result.Unwrap | src/main/java/de/richardliebscher/mdf4/Result.java:276-278 | unwrap gives the value of Ok, and for Err an unchecked exception wrapping the error |
| Results.Result.Get | src/main/java/de/richardliebscher/mdf4/Result.java:189-191 | get gives the value of Ok and throws the error of Err itself |
| Results.UnwrapWrapsGet | src/main/java/de/richardliebscher/mdf4/Result.java:271-278 | get leaves a result as it is, and unwrap differs from it only by wrapping the thrown error in an unchecked exception |
| Results.Result.GetOr | src/main/java/de/richardliebscher/mdf4/Result.java:281-283 | the value of Ok, the default for Err |
| Results.Result.GetOrElse | src/main/java/de/richardliebscher/mdf4/Result.java:286-288 | the value of Ok, the supplier's value for Err |
| Results.Result.Map | src/main/java/de/richardliebscher/mdf4/Result.java:209-211 | maps the value of Ok and keeps the error of Err |
| Results.Result.MapErr | src/main/java/de/richardliebscher/mdf4/Result.java:297-299 | keeps Ok and maps the error of Err |
| Results.NewErr | src/main/java/de/richardliebscher/mdf4/Result.java:256-258 | a null error is refused with a null pointer exception |
| Results.TryIo | src/main/java/de/richardliebscher/mdf4/Result.java:76-82 | a value becomes Ok, an IOException becomes Err, any other exception propagates |
| Results.MapComposes | src/main/java/de/richardliebscher/mdf4/Result.java:209-211 | map keeps the identity and composes |
| Results.GetOrAfterMap | src/main/java/de/richardliebscher/mdf4/Result.java:199-211 | getOr after map is map after getOr with the mapped default |
| Results.MapMapErrCommute | src/main/java/de/richardliebscher/mdf4/Result.java:209-217 | map and mapErr commute |
| BlockHeaders.BlockHeader.DataLength | src/main/java/de/richardliebscher/mdf4/blocks/BlockHeader.java:19-21 | the data length is the block length less 24 and 8 per link, computed modulo 2^64 as a long |
| BlockHeaders.LinksAt | src/main/java/de/richardliebscher/mdf4/blocks/BlockHeader.java:33-36 | n links are read when 8n bytes remain, link i being the little-endian long at 8i; otherwise the input ends |
| BlockHeaders.HeaderAt | src/main/java/de/richardliebscher/mdf4/blocks/BlockHeader.java:23-38 | a short input ends; a type id other than the expected one is the wrong-block-type error; otherwise the length and links that follow |
| BlockHeaders.LengthAndLinksAt | src/main/java/de/richardliebscher/mdf4/blocks/BlockHeader.java:29-37 | what follows the id of an accepted header fits the input |
| BlockHeaders.LengthAndLinksAtMeaning | src/main/java/de/richardliebscher/mdf4/blocks/BlockHeader.java:29-37 | accepted exactly when the padding, length and count are present, the count is in int range and every link is present; then the length and links are the longs stored there |
| BlockHeaders.HeaderAtMeaning | src/main/java/de/richardliebscher/mdf4/blocks/BlockHeader.java:23-38 | parse accepts exactly the expected id with an int-range link count and all links present, and yields the stored length and links |
| BlockHeaders.HeaderOfFields | src/main/java/de/richardliebscher/mdf4/blocks/BlockHeader.java:23-38 | a header whose stored fields read as given values parses to those values |
| BlockHeaders.Parse | src/main/java/de/richardliebscher/mdf4/blocks/BlockHeader.java:23-38 | reads the header the pure definition gives and leaves the input after the last link |
| BlockHeaders.ReadLengthAndLinks | src/main/java/de/richardliebscher/mdf4/blocks/BlockHeader.java:29-37 | the reads after the id: padding, length, count (toIntExact) and the links |
| BlockHeaders.ReadLinks | src/main/java/de/richardliebscher/mdf4/blocks/BlockHeader.java:34-36 | the loop reads the n links in file order |
| BlockHeaders.IdDigits | src/main/java/de/richardliebscher/mdf4/blocks/BlockHeader.java:41-48 | the masked shifts of the type id are its four bytes |
| BlockHeaders.HashByte | src/main/java/de/richardliebscher/mdf4/blocks/BlockHeader.java:43 | a Java byte equals '#' exactly when the unsigned byte does |
| BlockHeaders.WrongBlockTypeMessage | src/main/java/de/richardliebscher/mdf4/blocks/BlockHeader.java:40-52 | a wrong id gets the '##' message exactly when its first two bytes are not '#', and otherwise names the two type bytes found; the expected type is printed as its two-character id, an assumed format for BlockType's toString |
| BlockHeaders.ExpectingAt | src/main/java/de/richardliebscher/mdf4/blocks/BlockHeader.java:54-68 | an accepted header has at least the demanded links and data bytes, and fits the input |
| BlockHeaders.ExpectingAtMeaning | src/main/java/de/richardliebscher/mdf4/blocks/BlockHeader.java:54-68 | parseExpecting accepts exactly the parsed headers with enough links and data bytes; a header error passes through; a shortfall is the format error naming it |
| BlockHeaders.ParseExpecting | src/main/java/de/richardliebscher/mdf4/blocks/BlockHeader.java:54-68 | reads the header the pure definition gives and leaves the input after the last link |
| BlockTypeIds.BlockTypeId.FirstChar | src/main/java/de/richardliebscher/mdf4/blocks/BlockTypeId.java:26-28 | the first type character is a byte-range char |
| BlockTypeIds.BlockTypeId.SecondChar | src/main/java/de/richardliebscher/mdf4/blocks/BlockTypeId.java:30-32 | the second type character is a byte-range char |
| BlockTypeIds.BlockTypeId.ToString | src/main/java/de/richardliebscher/mdf4/blocks/BlockTypeId.java:57-62 | two characters |
| BlockTypeIds.ToStringOfChars | src/main/java/de/richardliebscher/mdf4/blocks/BlockTypeId.java:57-62 | an id packed from two characters below 0x100 prints as exactly those two characters, in order |
| BlockTypeIds.CharOfByte | src/main/java/de/richardliebscher/mdf4/blocks/BlockTypeId.java:34-36 | the (char) cast of a byte: itself when non-negative, sign-extended to 16 bits when negative |
| BlockTypeIds.HashPair | src/main/java/de/richardliebscher/mdf4/blocks/BlockTypeId.java:39 | the folded constant '#' + ('#' << 8), the two '#' bytes packed low byte first |
| BlockTypeIds.PackedValue | src/main/java/de/richardliebscher/mdf4/blocks/BlockTypeId.java:38-40 | the packed id is '#', '#', a, b as base-256 digits, wrapped to 32 bits |
| BlockTypeIds.OfCharsIsLittleEndian | src/main/java/de/richardliebscher/mdf4/blocks/BlockTypeId.java:38-40 | for byte-range chars the id is the little-endian int of the bytes '#', '#', a, b |
| BlockTypeIds.ByteOfId | src/main/java/de/richardliebscher/mdf4/blocks/BlockTypeId.java:26-32 | (id >> n) & 0xFF is byte n/8 of the id's unsigned value |
| BlockTypeIds.CharsRoundTrip | src/main/java/de/richardliebscher/mdf4/blocks/BlockTypeId.java:26-40 | getFirstChar and getSecondChar give back the chars the id was packed from |
| BlockTypeIds.OfCharsInjective | src/main/java/de/richardliebscher/mdf4/blocks/BlockTypeId.java:38-40 | ids packed from byte-range chars are equal exactly when the chars are |
| BlockTypeIds.FourAt | src/main/java/de/richardliebscher/mdf4/blocks/BlockTypeId.java:44-47 | four bytes are there exactly when four remain, otherwise the input ends |
| BlockTypeIds.TypeIdAt | src/main/java/de/richardliebscher/mdf4/blocks/BlockTypeId.java:42-54 | accepted exactly when four bytes remain and the first two are '#'; a short input ends |
| BlockTypeIds.ReadFour | src/main/java/de/richardliebscher/mdf4/blocks/BlockTypeId.java:44-47 | the four reads give the bytes at the position; a short input leaves the position at its end |
| BlockTypeIds.Parse | src/main/java/de/richardliebscher/mdf4/blocks/BlockTypeId.java:42-54 | parses the pure definition's id and restores the position unless the input ends inside the four bytes |
| BlockTypeIds.ParseAgreesWithReadI32 | src/main/java/de/richardliebscher/mdf4/blocks/BlockTypeId.java:42-54 | an id parsed this way is the int that readI32 reads at the same place |
| IdBlocks.ProgramId | src/main/java/de/richardliebscher/mdf4/blocks/IdBlock.java:39-43 | the program id is the text before the first NUL, or all of it when there is none |
| IdBlocks.IdBlock.IsUnfinalized | src/main/java/de/richardliebscher/mdf4/blocks/IdBlock.java:27-29 | a block is unfinalized exactly when its unfinalized flags are present |
| IdBlocks.UnfinalizedAt | src/main/java/de/richardliebscher/mdf4/blocks/IdBlock.java:50-58 | the two flag words are read only for an unfinished file (zero-extended and sign-extended), and are absent otherwise |
| IdBlocks.CheckFields | src/main/java/de/richardliebscher/mdf4/blocks/IdBlock.java:60-75 | accepted exactly when the version number matches the version text and byte order, float format and code page are 0, with each check's message in that order |
| IdBlocks.ShortsAt | src/main/java/de/richardliebscher/mdf4/blocks/IdBlock.java:45-48 | the four shorts are the little-endian shorts at q, q+2, q+4, q+6 |
| IdBlocks.ReadShorts | src/main/java/de/richardliebscher/mdf4/blocks/IdBlock.java:45-48 | reads the four shorts the pure definition gives and advances by 8 |
| IdBlocks.FieldsAt | src/main/java/de/richardliebscher/mdf4/blocks/IdBlock.java:38-48 | the version, the eight program bytes and the four shorts, when 24 bytes remain and the version parses |
| IdBlocks.ReadFields | src/main/java/de/richardliebscher/mdf4/blocks/IdBlock.java:38-48 | reads the fields the pure definition gives and advances by 24 |
| IdBlocks.IdBlockAtMeaning | src/main/java/de/richardliebscher/mdf4/blocks/IdBlock.java:31-78 | a magic other than the two is refused; an accepted block is unfinalized exactly for the unfinished magic and carries the version, program id and checked shorts stored in the file |
| IdBlocks.IdBlockAt | src/main/java/de/richardliebscher/mdf4/blocks/IdBlock.java:31-78 | eight bytes that are neither magic are the not-an-MDF-file error; an accepted block spans at least 60 bytes, is unfinalized exactly when the magic is "UnFinMF " and otherwise has the magic "MDF     " |
| IdBlocks.AfterMagicAt | src/main/java/de/richardliebscher/mdf4/blocks/IdBlock.java:38-77 | after an accepted magic: the block is unfinalized exactly when the magic was the unfinished one (and then 4 more bytes are read), the program id is cut from bytes q+8..q+16, the version number at q+20 matches the version text at q, and byte order, float format and code page are 0 |
| IdBlocks.ReadUnfinalized | src/main/java/de/richardliebscher/mdf4/blocks/IdBlock.java:50-58 | reads the flag words the pure definition gives |
| IdBlocks.ReadAfterMagic | src/main/java/de/richardliebscher/mdf4/blocks/IdBlock.java:38-77 | the reads after the magic, then the checks, as the pure definition gives |
| IdBlocks.Parse | src/main/java/de/richardliebscher/mdf4/blocks/IdBlock.java:31-78 | parses the block the pure definition gives |
| Offsets.NewEqualLength | src/main/java/de/richardliebscher/mdf4/blocks/Offsets.java:32-39 | a count outside the int range is refused with the too-many-blocks error |
| Offsets.NewValues | src/main/java/de/richardliebscher/mdf4/blocks/Offsets.java:82-88 | a non-empty array must start at 0, otherwise the format error |
| Offsets.Size | src/main/java/de/richardliebscher/mdf4/blocks/Offsets.java:47-98 | the count of equal-length blocks, or the number of offsets |
| Offsets.Get | src/main/java/de/richardliebscher/mdf4/blocks/Offsets.java:66-75 | a negative index is an illegal argument, one at or past the size is out of bounds; otherwise the stored offset or index * length as a long |
| Offsets.TruncDivOfNonnegative | src/main/java/de/richardliebscher/mdf4/blocks/Offsets.java:62 | Java's division of a non-negative by a positive long is floor division |
| Offsets.IndexOfPosition | src/main/java/de/richardliebscher/mdf4/blocks/Offsets.java:106-114 | the loop over the offsets returns what the scan defines |
| Offsets.ScanFromMeaning | src/main/java/de/richardliebscher/mdf4/blocks/Offsets.java:106-114 | the scan from i returns the block before the first later offset above the position, or the last block |
| Offsets.ValuesIndexOfPosition | src/main/java/de/richardliebscher/mdf4/blocks/Offsets.java:106-114 | -1 without offsets; otherwise every offset after the first up to the result is at most the position and the next one exceeds it |
| Offsets.SortedIndexOfPosition | src/main/java/de/richardliebscher/mdf4/blocks/Offsets.java:106-114 | for sorted offsets from 0 and a non-negative position, the result is the last block starting at or before the position |
| Offsets.EqualLengthIndexOfPosition | src/main/java/de/richardliebscher/mdf4/blocks/Offsets.java:57-63 | min(position / length, number - 1) for a non-negative position and positive length |
| Offsets.EqualLengthBlockContains | src/main/java/de/richardliebscher/mdf4/blocks/Offsets.java:57-75 | the block reported for equal lengths starts at or before the position |
| Offsets.LastIsGetOfLastIndex | src/main/java/de/richardliebscher/mdf4/blocks/Offsets.java:52-103 | last() is get(size() - 1) when there are blocks, and 0 otherwise |
| DataLists.NewDataList | src/main/java/de/richardliebscher/mdf4/extract/read/DataList.java:35-42 | a block count different from the offset count is refused with the illegal-argument message |
| DataLists.Empty | src/main/java/de/richardliebscher/mdf4/extract/read/DataList.java:70-72 | no blocks, no offsets, accepted by the constructor |
| DataLists.Single | src/main/java/de/richardliebscher/mdf4/extract/read/DataList.java:74-77 | the one link, starting at offset 0, accepted by the constructor |
| DataLists.MergeOffsets | src/main/java/de/richardliebscher/mdf4/extract/read/DataList.java:94-135 | null takes the second; equal lengths of one length add their counts as ints, differing lengths and mixed kinds are format errors; explicit offsets concatenate |
| DataLists.MergedOffsets | src/main/java/de/richardliebscher/mdf4/extract/read/DataList.java:84-89 | the merge of a chain gives offsets exactly when the chain is not empty |
| DataLists.MergeFailureStops | src/main/java/de/richardliebscher/mdf4/extract/read/DataList.java:84-89 | a failure while merging a prefix of the chain is the failure of the whole chain |
| DataLists.FromList | src/main/java/de/richardliebscher/mdf4/extract/read/DataList.java:79-92 | the loop gives the pure list of the chain, and the list holds every data link of the chain in order |
| DataLists.MergedOffsetsSize | src/main/java/de/richardliebscher/mdf4/extract/read/DataList.java:79-92 | the merged offsets count one block per data link while the links fit an int |
| DataLists.FromListKeepsLinks | src/main/java/de/richardliebscher/mdf4/extract/read/DataList.java:79-92 | fromList succeeds exactly when the merge does and keeps the chain's data links in chain order |
| DataLists.MergedValuesConcatenate | src/main/java/de/richardliebscher/mdf4/extract/read/DataList.java:119-131 | a chain of explicit offsets merges into their concatenation |
| DataLists.MergedEqualLengths | src/main/java/de/richardliebscher/mdf4/extract/read/DataList.java:101-109 | equal-length lists of one length merge into that length and the total count |
| DataListBlocks.DataListIdIsOf | src/main/java/de/richardliebscher/mdf4/blocks/DataListBlock.java:29 | the ##DL id is BlockTypeId.of('D', 'L') |
| DataListBlocks.DataLinks | src/main/java/de/richardliebscher/mdf4/blocks/DataListBlock.java:75-81 | the data links are the links after the first, in order |
| DataListBlocks.DataLinksKeepLinks | src/main/java/de/richardliebscher/mdf4/blocks/DataListBlock.java:30-32 | the next-list link and the data links together give back the header's links |
| DataListBlocks.GetDataLinks | src/main/java/de/richardliebscher/mdf4/blocks/DataListBlock.java:75-81 | the loop copies links 1.. into the data links |
| DataListBlocks.FlagsAndCountAt | src/main/java/de/richardliebscher/mdf4/blocks/DataListBlock.java:34-36 | the flags byte, three skipped bytes and the count, when eight bytes remain |
| DataListBlocks.OffsetInfoAt | src/main/java/de/richardliebscher/mdf4/blocks/DataListBlock.java:42-51 | one common length exactly when EQUAL_LENGTH is set, otherwise count offsets read in file order |
| DataListBlocks.BodyAt | src/main/java/de/richardliebscher/mdf4/blocks/DataListBlock.java:30-71 | an accepted body has a count equal to the data-link count, the next-list link, the data links, the flags, and one offset per data link, namely the length or the offsets that the offset-info read at q + 8 gives for the flags |
| DataListBlocks.CountMismatchRejected | src/main/java/de/richardliebscher/mdf4/blocks/DataListBlock.java:37-40 | a count other than the number of data links is the inconsistent-count format error |
| DataListBlocks.DataListAt | src/main/java/de/richardliebscher/mdf4/blocks/DataListBlock.java:28-72 | an accepted list has one explicit offset per data link |
| DataListBlocks.DataListAtHeaderError | src/main/java/de/richardliebscher/mdf4/blocks/DataListBlock.java:29 | a header error is the block's error |
| DataListBlocks.DataListAtBody | src/main/java/de/richardliebscher/mdf4/blocks/DataListBlock.java:28-72 | after an accepted header the block is the body that follows its links |
| DataListBlocks.Parse | src/main/java/de/richardliebscher/mdf4/blocks/DataListBlock.java:28-72 | parses the block the pure definition gives |
| DataListBlocks.ParseBody | src/main/java/de/richardliebscher/mdf4/blocks/DataListBlock.java:30-71 | the reads after the header, as the pure definition gives |
| DataListBlocks.ReadFlagsAndCount | src/main/java/de/richardliebscher/mdf4/blocks/DataListBlock.java:34-36 | reads the flags and count and advances by 8 |
| DataListBlocks.ReadOffsetInfo | src/main/java/de/richardliebscher/mdf4/blocks/DataListBlock.java:42-51 | the single read or the loop filling the offsets, as the pure definition gives |
| DataListBlocks.OffsetsOf | src/main/java/de/richardliebscher/mdf4/blocks/DataListBlock.java:42-51 | a common length covers as many blocks as there are data links; explicit offsets go through the Values constructor |
| DataListBlocks.OffsetsOfSize | src/main/java/de/richardliebscher/mdf4/blocks/DataListBlock.java:42-51 | a list has as many offsets as data links |
| DataListCollection.RunningOffsets | src/main/java/de/richardliebscher/mdf4/extract/impl/RecordReaderFactory.java:790-799 | n equal-length blocks extend the list by n offsets and keep what was there |
| DataListCollection.AddedOffsets | src/main/java/de/richardliebscher/mdf4/extract/impl/RecordReaderFactory.java:785-806 | explicit offsets are appended as they are; a common length appends one offset per data link and keeps the list |
| DataListCollection.AddOffsets | src/main/java/de/richardliebscher/mdf4/extract/impl/RecordReaderFactory.java:785-806 | the loops append what the pure definition gives |
| DataListCollection.RunningKeepsMultiples | src/main/java/de/richardliebscher/mdf4/extract/impl/RecordReaderFactory.java:790-799 | a list of multiples of the length stays a list of multiples: entry i is i * length as a long |
| DataListCollection.RunningFromEmpty | src/main/java/de/richardliebscher/mdf4/extract/impl/RecordReaderFactory.java:790-799 | from an empty list, equal-length blocks start at 0, length, 2 * length, ... |
| DataListCollection.RunningContinues | src/main/java/de/richardliebscher/mdf4/extract/impl/RecordReaderFactory.java:790-799 | after a non-empty list, new block k starts (k - size + 1) * length after the last offset |
| DataListCollection.Addresses | src/main/java/de/richardliebscher/mdf4/extract/impl/RecordReaderFactory.java:779-780 | one address per link, each the link's long value |
| DataListCollection.CollectDataList | src/main/java/de/richardliebscher/mdf4/extract/impl/RecordReaderFactory.java:768-782 | the addresses of all data links of the chain in order, and the offsets the lists add one after another |
| DataListCollection.CollectedOffsetsLength | src/main/java/de/richardliebscher/mdf4/extract/impl/RecordReaderFactory.java:768-806 | one offset per data link when every list's explicit offsets match its links |
| DataListCollection.CollectedValues | src/main/java/de/richardliebscher/mdf4/extract/impl/RecordReaderFactory.java:802-805 | with explicit offsets throughout, the collected offsets are their concatenation |
| DataListCollection.CollectedEqualLengths | src/main/java/de/richardliebscher/mdf4/extract/impl/RecordReaderFactory.java:790-799 | with one common length throughout, block i starts at i * length |
| DataListCollection.CollectAgreesWithFromList | src/main/java/de/richardliebscher/mdf4/extract/impl/RecordReaderFactory.java:768-782 | on a chain of one common length, collectDataList and DataList.fromList give the same addresses and each collected offset is the merged offset of that block |
| DataListCollection.CollectedRoot | src/main/java/de/richardliebscher/mdf4/extract/impl/RecordReaderFactory.java:741-766 | no root gives two empty arrays, a data block its own address at offset 0, a list chain its collection; a ##HL list with a zip type other than DEFLATE is not implemented, and one without a first list gives empty arrays |
| DataListCollection.CollectRoot | src/main/java/de/richardliebscher/mdf4/extract/impl/RecordReaderFactory.java:741-766 | the dispatch over the data root gives what the pure definition gives |
| ChannelBlocks.ChannelIdIsOf | src/main/java/de/richardliebscher/mdf4/blocks/ChannelBlock.java:48 | the ##CN id is BlockTypeId.of('C', 'N') |
| ChannelBlocks.ParseChannelType | src/main/java/de/richardliebscher/mdf4/blocks/ChannelType.java:21-27 | the constant with that ordinal for 0..6, otherwise the unknown-channel-type format error |
| ChannelBlocks.ParseSyncType | src/main/java/de/richardliebscher/mdf4/blocks/SyncType.java:19-25 | the constant with that ordinal for 0..4, otherwise the unknown-sync-type format error |
| ChannelBlocks.ParseDataType | src/main/java/de/richardliebscher/mdf4/blocks/ChannelDataType.java:25-31 | the constant with that ordinal for 0..16, otherwise the unknown-data-type format error |
| ChannelBlocks.ChannelTypeOrdinals | src/main/java/de/richardliebscher/mdf4/blocks/ChannelType.java:21-27 | every channel type has an ordinal that parses back to it, and no two ordinals give the same constant |
| ChannelBlocks.SyncTypeOrdinals | src/main/java/de/richardliebscher/mdf4/blocks/SyncType.java:19-25 | every sync type has an ordinal that parses back to it, and no two ordinals give the same constant |
| ChannelBlocks.DataTypeOrdinals | src/main/java/de/richardliebscher/mdf4/blocks/ChannelDataType.java:25-31 | every data type has an ordinal that parses back to it, and no two ordinals give the same constant |
| ChannelBlocks.KindsAt | src/main/java/de/richardliebscher/mdf4/blocks/ChannelBlock.java:49-51 | the three enum bytes are read and parsed one after the other, inside the input |
| ChannelBlocks.LayoutAt | src/main/java/de/richardliebscher/mdf4/blocks/ChannelBlock.java:52-56 | the layout group needs exactly 17 bytes, otherwise the end of input; bitOffset is the signed byte at q and byteOffset, bitCount, the flags and the invalidation bit are the little-endian ints at q+1, q+5, q+9 and q+13 |
| ChannelBlocks.PrecisionAt | src/main/java/de/richardliebscher/mdf4/blocks/ChannelBlock.java:57-59 | succeeds exactly when 4 bytes remain (and the skip target is an int); the precision is the signed byte at q and the attachment count the little-endian short at q+2, past the skipped byte |
| ChannelBlocks.RangeAt | src/main/java/de/richardliebscher/mdf4/blocks/ChannelBlock.java:60 | a range needs 16 bytes, otherwise the end of input; its bounds are the little-endian longs at q and q+8 |
| ChannelBlocks.RangesAt | src/main/java/de/richardliebscher/mdf4/blocks/ChannelBlock.java:60-62 | the three ranges need 48 bytes, otherwise the end of input, and are the ranges at q, q+16 and q+32 |
| ChannelBlocks.TailAt | src/main/java/de/richardliebscher/mdf4/blocks/ChannelBlock.java:57-62 | the tail needs exactly 52 bytes and is the precision group at q followed by the ranges at q+4 |
| ChannelBlocks.FieldsAt | src/main/java/de/richardliebscher/mdf4/blocks/ChannelBlock.java:49-71 | the data fields parse exactly when the three enum bytes parse and 72 bytes remain; the block carries the first eight links in order, the bit offset at q+3 and the byte offset at q+4 |
| ChannelBlocks.ChannelAt | src/main/java/de/richardliebscher/mdf4/blocks/ChannelBlock.java:47-72 | an accepted block has an accepted ##CN header with 8 links and 72 data bytes, and its link fields are the header's first eight links |
| ChannelBlocks.Assemble | src/main/java/de/richardliebscher/mdf4/blocks/ChannelBlock.java:64-71 | the eight header links land in the eight link fields in order |
| ChannelBlocks.ChannelAtNeedsHeader | src/main/java/de/richardliebscher/mdf4/blocks/ChannelBlock.java:47-72 | an accepted block has a ##CN header with at least 8 links and 72 data bytes; a header error is the block's error; fewer than 8 links is a format error |
| ChannelBlocks.ChannelAtHeaderError | src/main/java/de/richardliebscher/mdf4/blocks/ChannelBlock.java:48 | a failed parseExpecting is the block's error |
| ChannelBlocks.ChannelAtBody | src/main/java/de/richardliebscher/mdf4/blocks/ChannelBlock.java:47-72 | after an accepted header the block is the fields that follow its links |
| ChannelBlocks.ChannelLinks | src/main/java/de/richardliebscher/mdf4/blocks/ChannelBlock.java:64-68 | the links of an accepted block are the header's first eight links |
| ChannelBlocks.ParseChannel | src/main/java/de/richardliebscher/mdf4/blocks/ChannelBlock.java:47-72 | parses the block the pure definition gives |
| ChannelBlocks.ParseFields | src/main/java/de/richardliebscher/mdf4/blocks/ChannelBlock.java:49-62 | the field reads after the header, as the pure definition gives |
| ChannelBlocks.ReadTail | src/main/java/de/richardliebscher/mdf4/blocks/ChannelBlock.java:57-62 | the precision group and the ranges, as the pure definition gives |
| ChannelBlocks.ReadKinds | src/main/java/de/richardliebscher/mdf4/blocks/ChannelBlock.java:49-51 | the three enum bytes, advancing by 3 |
| ChannelBlocks.ReadLayout | src/main/java/de/richardliebscher/mdf4/blocks/ChannelBlock.java:52-56 | bitOffset, byteOffset, bitCount, flags and invalidation bit, advancing by 17 |
| ChannelBlocks.ReadPrecision | src/main/java/de/richardliebscher/mdf4/blocks/ChannelBlock.java:57-59 | the precision byte, one skipped byte and the attachment count, advancing by 4 |
| ChannelBlocks.ReadRange | src/main/java/de/richardliebscher/mdf4/blocks/ChannelBlock.java:60 | two doubles as their bits, advancing by 16 |
| ChannelBlocks.ReadRanges | src/main/java/de/richardliebscher/mdf4/blocks/ChannelBlock.java:60-62 | the three ranges, advancing by 48 |
| ChannelBlocks.GetPrecision | src/main/java/de/richardliebscher/mdf4/blocks/ChannelBlock.java:74-83 | a value exactly when PRECISION_VALID is set; 0xFF means Integer.MAX_VALUE, any other byte its unsigned value |
| ChannelBlocks.UnsignedByte | src/main/java/de/richardliebscher/mdf4/blocks/ChannelBlock.java:76-79 | Byte.toUnsignedInt adds 256 to a negative byte, and (byte) 0xFF is -1 |
| ChannelBlocks.Iterator.constructor | src/main/java/de/richardliebscher/mdf4/blocks/ChannelBlock.java:90-93 | the iterator starts at the given link |
| ChannelBlocks.Iterator.HasNext | src/main/java/de/richardliebscher/mdf4/blocks/ChannelBlock.java:95-98 | a channel is left exactly when the next link is not NIL, that is not address 0 |
| ChannelBlocks.Iterator.Next | src/main/java/de/richardliebscher/mdf4/blocks/ChannelBlock.java:101-106 | a NIL link is NoSuchElement, a link outside the file is the seek error, otherwise the channel there, after which the iterator follows its next-channel link; on error the iterator stays |
| Flags.IsSetBitMeaning | src/main/java/de/richardliebscher/mdf4/blocks/BitFlags.java:72-74 | isSet(bit) tests bit (bit mod 32) of the value |
| Flags.AddSetsOnlyItsBit | src/main/java/de/richardliebscher/mdf4/blocks/BitFlags.java:60-62 | add sets the flag's bit and no other, and keeps the enum |
| Flags.MergeBits | src/main/java/de/richardliebscher/mdf4/blocks/BitFlags.java:56-58 | merge sets exactly the bits set in either operand |
| Flags.MergeCommutativeIdempotent | src/main/java/de/richardliebscher/mdf4/blocks/BitFlags.java:56-58 | merge is commutative and idempotent |
| Flags.AllOfIsSuperset | src/main/java/de/richardliebscher/mdf4/blocks/BitFlags.java:64-66 | allOf holds exactly when every bit of the test is set |
| Flags.AnyOfIsIntersection | src/main/java/de/richardliebscher/mdf4/blocks/BitFlags.java:76-78 | anyOf holds exactly when some bit is set in both |
| Flags.IsEmptyMeansNoBit | src/main/java/de/richardliebscher/mdf4/blocks/BitFlags.java:80-82 | isEmpty holds exactly when no bit number tests set |
| Flags.OfByteZeroExtends | src/main/java/de/richardliebscher/mdf4/blocks/BitFlags.java:32-34 | of(byte) keeps the byte's 8 bits and clears the rest |
| Flags.OfShortZeroExtends | src/main/java/de/richardliebscher/mdf4/blocks/BitFlags.java:36-38 | of(short) keeps the short's 16 bits and clears the rest |
| Flags.MaskOfBits | src/main/java/de/richardliebscher/mdf4/blocks/BitFlags.java:45-49 | of(cls, values...) sets exactly the bits the given constants name |
| Flags.AllSet | src/main/java/de/richardliebscher/mdf4/blocks/BitFlags.java:96-102 | the loop ORs the bit numbers: bit i is set exactly when some constant's bit number has bit i |
| Flags.AllSetOfBits | src/main/java/de/richardliebscher/mdf4/blocks/BitFlags.java:96-102 | the same meaning for the pure definition |
| Flags.HasUnknown | src/main/java/de/richardliebscher/mdf4/blocks/BitFlags.java:104-106 | the as-written test: some set bit outside the OR of the bit numbers |
| Flags.HasUnknownCorrectedMeaning | src/main/java/de/richardliebscher/mdf4/blocks/BitFlags.java:104-106 | corrected: some set bit that no constant's bit number names |
| Flags.HasUnknownMisreportsKnownFlag | src/main/java/de/richardliebscher/mdf4/blocks/BitFlags.java:96-106 | the as-written test reports LIMIT_RANGE_VALID (bit 4) of a channel as unknown |
| Flags.HasUnknownCorrectedOnLimitRange | src/main/java/de/richardliebscher/mdf4/blocks/BitFlags.java:104-106 | the corrected test reports nothing unknown for that value |
| Flags.SingleKnownBit | src/main/java/de/richardliebscher/mdf4/blocks/BitFlags.java:104-106 | the corrected test reports nothing unknown for a value that is one constant's bit |
| Flags.AppendKnownFlags | src/main/java/de/richardliebscher/mdf4/blocks/BitFlags.java:110-120 | the first loop appends the names of the set constants in order and clears their bits |
| Flags.AppendUnknownBits | src/main/java/de/richardliebscher/mdf4/blocks/BitFlags.java:121-130 | the second loop appends UnknownBitN for every set bit N, ascending |
| Flags.ToString | src/main/java/de/richardliebscher/mdf4/blocks/BitFlags.java:109-132 | the string the pure definition gives |
| Flags.ToStringIsJoin | src/main/java/de/richardliebscher/mdf4/blocks/BitFlags.java:109-132 | toString is the comma join of the set constants' names, then UnknownBitN for the unclaimed set bits |
| Flags.UnknownNamesCover | src/main/java/de/richardliebscher/mdf4/blocks/BitFlags.java:121-130 | UnknownBitN is listed exactly for the set bits N |
| Flags.UnknownNameInjective | src/main/java/de/richardliebscher/mdf4/blocks/BitFlags.java:127 | two UnknownBit names are equal only for the same bit |
| RecordBuffers.NumberAt | src/main/java/de/richardliebscher/mdf4/extract/read/RecordByteBuffer.java:29-91 | a read at position + pos succeeds exactly when its n bytes lie in the buffer, gives a signed n-byte number, and is IndexOutOfBounds otherwise |
| RecordBuffers.ByteAt | src/main/java/de/richardliebscher/mdf4/extract/read/RecordByteBuffer.java:29-31 | readU8 succeeds exactly when the index lies in the buffer, and gives the byte there as a Java byte; otherwise an index-out-of-bounds error |
| RecordBuffers.ShortAt | src/main/java/de/richardliebscher/mdf4/extract/read/RecordByteBuffer.java:34-37 | getShort succeeds exactly when two bytes lie at the index |
| RecordBuffers.IntAt | src/main/java/de/richardliebscher/mdf4/extract/read/RecordByteBuffer.java:40-43 | getInt succeeds exactly when four bytes lie at the index |
| RecordBuffers.LongAt | src/main/java/de/richardliebscher/mdf4/extract/read/RecordByteBuffer.java:46-49 | getLong succeeds exactly when eight bytes lie at the index |
| RecordBuffers.BytesAt | src/main/java/de/richardliebscher/mdf4/extract/read/RecordByteBuffer.java:101-103 | readBytes succeeds exactly when pos is not negative and the n bytes from position + pos are present, and gives exactly those bytes; a pos outside the slice is the newPosition error |
| RecordBuffers.NumberAtWindow | src/main/java/de/richardliebscher/mdf4/extract/read/RecordByteBuffer.java:29-91 | the int sum of position and pos can only wrap negative, so a read succeeds exactly when its bytes lie in the buffer and yields their value in the read's order |
| RecordBuffers.BigIsReversedLittle | src/main/java/de/richardliebscher/mdf4/extract/read/RecordByteBuffer.java:64-91 | a big-endian read is the little-endian read of the reversed bytes |
| RecordBuffers.LittleEndianReadsBack | src/main/java/de/richardliebscher/mdf4/extract/read/RecordByteBuffer.java:34-61 | the little-endian bytes of x read back as x |
| RecordBuffers.BigEndianReadsBack | src/main/java/de/richardliebscher/mdf4/extract/read/RecordByteBuffer.java:64-91 | the reversed little-endian bytes of x read back as x in big-endian order |
| RecordBuffers.RecordByteBuffer.constructor | src/main/java/de/richardliebscher/mdf4/extract/read/RecordByteBuffer.java:13-16 | a buffer at position 0 in big-endian order with the given record index |
| RecordBuffers.RecordByteBuffer.IncRecordIndex | src/main/java/de/richardliebscher/mdf4/extract/read/RecordByteBuffer.java:19-21 | the record index grows by one as a long; nothing else changes |
| RecordBuffers.RecordByteBuffer.GetRecordIndex | src/main/java/de/richardliebscher/mdf4/extract/read/RecordByteBuffer.java:24-26 | the index of the current record, the one incRecordIndex raises by one |
| RecordBuffers.RecordByteBuffer.ReadU8 | src/main/java/de/richardliebscher/mdf4/extract/read/RecordByteBuffer.java:29-31 | the byte at the int sum position + pos as a Java byte, and an index-out-of-bounds error exactly when that index is outside the buffer |
| RecordBuffers.RecordByteBuffer.ReadI16Le | src/main/java/de/richardliebscher/mdf4/extract/read/RecordByteBuffer.java:34-37 | the little-endian short at the index, leaving the buffer little-endian and otherwise unchanged |
| RecordBuffers.RecordByteBuffer.ReadI32Le | src/main/java/de/richardliebscher/mdf4/extract/read/RecordByteBuffer.java:40-43 | the little-endian int at the index, leaving the buffer little-endian and otherwise unchanged |
| RecordBuffers.RecordByteBuffer.ReadI64Le | src/main/java/de/richardliebscher/mdf4/extract/read/RecordByteBuffer.java:46-49 | the little-endian long at the index, leaving the buffer little-endian and otherwise unchanged |
| RecordBuffers.RecordByteBuffer.ReadF32Le | src/main/java/de/richardliebscher/mdf4/extract/read/RecordByteBuffer.java:52-55 | the bits of the little-endian float at the index |
| RecordBuffers.RecordByteBuffer.ReadF64Le | src/main/java/de/richardliebscher/mdf4/extract/read/RecordByteBuffer.java:58-61 | the bits of the little-endian double at the index |
| RecordBuffers.RecordByteBuffer.ReadI16Be | src/main/java/de/richardliebscher/mdf4/extract/read/RecordByteBuffer.java:64-67 | the big-endian short at the index, leaving the buffer big-endian and otherwise unchanged |
| RecordBuffers.RecordByteBuffer.ReadI32Be | src/main/java/de/richardliebscher/mdf4/extract/read/RecordByteBuffer.java:70-73 | the big-endian int at the index, leaving the buffer big-endian and otherwise unchanged |
| RecordBuffers.RecordByteBuffer.ReadI64Be | src/main/java/de/richardliebscher/mdf4/extract/read/RecordByteBuffer.java:76-79 | the big-endian long at the index, leaving the buffer big-endian and otherwise unchanged |
| RecordBuffers.RecordByteBuffer.ReadF32Be | src/main/java/de/richardliebscher/mdf4/extract/read/RecordByteBuffer.java:82-85 | the bits of the big-endian float at the index |
| RecordBuffers.RecordByteBuffer.ReadF64Be | src/main/java/de/richardliebscher/mdf4/extract/read/RecordByteBuffer.java:88-91 | the bits of the big-endian double at the index |
| RecordBuffers.RecordByteBuffer.ReadBytes | src/main/java/de/richardliebscher/mdf4/extract/read/RecordByteBuffer.java:101-103 | fills the destination with the bytes at position + pos exactly when they are present; on failure the destination is untouched |
| Mdf4Writers.Raws | src/main/java/de/richardliebscher/mdf4/write/Mdf4Writer.java:160-162 | one raw address per link, in order |
| Mdf4Writers.LinksBytes | src/main/java/de/richardliebscher/mdf4/write/Mdf4Writer.java:160-162 | eight bytes per link |
| Mdf4Writers.LinkBytesAt | src/main/java/de/richardliebscher/mdf4/write/Mdf4Writer.java:160-162 | link i is the eight little-endian bytes at offset 8 * i |
| Mdf4Writers.BlockHeaderBytes | src/main/java/de/richardliebscher/mdf4/write/Mdf4Writer.java:154-163 | a block header is 24 bytes plus eight per link |
| Mdf4Writers.DataLengthOfLengthField | src/main/java/de/richardliebscher/mdf4/write/Mdf4Writer.java:158 | the length field written as dataLength + 24 + 8n gives dataLength back through getDataLength |
| Mdf4Writers.WrittenHeaderParses | src/main/java/de/richardliebscher/mdf4/write/Mdf4Writer.java:154-163 | a header that writeBlockHeader wrote parses back with the same type id, the same links in order and the data length it was written with |
| Mdf4Writers.BlockHeaderPieces | src/main/java/de/richardliebscher/mdf4/write/Mdf4Writer.java:156-162 | the id, the length field, the link count and the links sit at offsets 0, 8, 16 and 24 |
| Mdf4Writers.HeaderLinks | src/main/java/de/richardliebscher/mdf4/write/Mdf4Writer.java:172-182 | the six links of the header block in the order writeHeader lists them |
| Mdf4Writers.TimeStampBytes | src/main/java/de/richardliebscher/mdf4/TimeStamp.java:194-199 | a time stamp is 13 bytes |
| Mdf4Writers.HeaderBlockBytes | src/main/java/de/richardliebscher/mdf4/write/Mdf4Writer.java:171-190 | a header block is 104 bytes |
| Mdf4Writers.WrittenHeaderBlockParses | src/main/java/de/richardliebscher/mdf4/write/Mdf4Writer.java:171-190 | a header block that writeHeader wrote passes parseExpecting(HD, 6, 24) with its six links in order and 32 data bytes |
| Mdf4Writers.LengthField104 | src/main/java/de/richardliebscher/mdf4/write/Mdf4Writer.java:182 | 32 data bytes and six links give the length 104 |
| Mdf4Writers.WrittenVersionTextIsVersionText | src/main/java/de/richardliebscher/mdf4/write/Mdf4Writer.java:133-135 | the corrected text with the minor number zero-padded is the eight-character version text the reader parses |
| Mdf4Writers.IdBlockLength | src/main/java/de/richardliebscher/mdf4/write/Mdf4Writer.java:131-144 | the corrected identification block is 64 bytes, with an eight-character version text |
| Mdf4Writers.IdBlockTailPieces | src/main/java/de/richardliebscher/mdf4/write/Mdf4Writer.java:133-143 | the version text, program id and six shorts sit at their offsets after the magic |
| Mdf4Writers.IdBlockTextsParse | src/main/java/de/richardliebscher/mdf4/write/Mdf4Writer.java:131-136 | corrected (Findings row 2): the magic, the version and the program id of a written identification block read back |
| Mdf4Writers.IdBlockShortsParse | src/main/java/de/richardliebscher/mdf4/write/Mdf4Writer.java:137-143 | corrected (Findings row 2): the six shorts of a written identification block read back, the version short being asInt |
| Mdf4Writers.ProgramIdOfTool | src/main/java/de/richardliebscher/mdf4/write/Mdf4Writer.java:136 | the program id written reads back as "mdf4j" |
| Mdf4Writers.AsIntFitsShort | src/main/java/de/richardliebscher/mdf4/write/Mdf4Writer.java:139 | asInt of an expressible version fits the short cast |
| Mdf4Writers.WrittenIdBlockParses | src/main/java/de/richardliebscher/mdf4/write/Mdf4Writer.java:131-144 | with the padded text, every expressible version parses back as an unfinished file of that version written by mdf4j with no unfinalized flags |
| Mdf4Writers.FinalizedIdBlockParses | src/main/java/de/richardliebscher/mdf4/write/Mdf4Writer.java:83-86 | corrected (Findings row 2): after finalizeFile the block parses as a finished file of the same version and program |
| Mdf4Writers.ToolVersionTextAsWritten | src/main/java/de/richardliebscher/mdf4/write/Mdf4Writer.java:133-135 | as written, the text for 4.2 is "4.2    ", seven characters |
| Mdf4Writers.ToolVersionTextCorrected | src/main/java/de/richardliebscher/mdf4/write/Mdf4Writer.java:133-135 | corrected (Findings row 2): the padded text for TOOL_VERSION = of(4, 2) is "4.02    " |
| Mdf4Writers.ToolVersionTextRejected | src/main/java/de/richardliebscher/mdf4/write/Mdf4Writer.java:131-144 | as written, the block is 63 bytes and the reader rejects the version text "4.2    m" |
| Mdf4Writers.Mdf4Writer.constructor | src/main/java/de/richardliebscher/mdf4/write/Mdf4Writer.java:41-43 | a writer on the given output |
| Mdf4Writers.Mdf4Writer.WriteBlockHeader | src/main/java/de/richardliebscher/mdf4/write/Mdf4Writer.java:154-163 | writes the header bytes at the position and moves past them |
| Mdf4Writers.Mdf4Writer.WriteFixedHeader | src/main/java/de/richardliebscher/mdf4/write/Mdf4Writer.java:156-159 | writes the id, four padding bytes, the length and the link count |
| Mdf4Writers.Mdf4Writer.WriteLinks | src/main/java/de/richardliebscher/mdf4/write/Mdf4Writer.java:160-162 | writes each link's address as a long |
| Mdf4Writers.Mdf4Writer.WriteTimeStamp | src/main/java/de/richardliebscher/mdf4/TimeStamp.java:194-199 | writes the time, the two offsets as shorts and the flags byte |
| Mdf4Writers.Mdf4Writer.WriteHeader | src/main/java/de/richardliebscher/mdf4/write/Mdf4Writer.java:171-190 | writes the 104 bytes of the header block |
| Mdf4Writers.Mdf4Writer.WriteHeaderFields | src/main/java/de/richardliebscher/mdf4/write/Mdf4Writer.java:185-189 | writes the time class, the flags, one padding byte and the two doubles |
| Mdf4Writers.Mdf4Writer.WriteIdBlock | src/main/java/de/richardliebscher/mdf4/write/Mdf4Writer.java:131-144 | writes the corrected identification block |
| Mdf4Writers.Mdf4Writer.WriteIdBlockTail | src/main/java/de/richardliebscher/mdf4/write/Mdf4Writer.java:133-143 | corrected (Findings row 2): writes everything after the magic |
| Mdf4Writers.Mdf4Writer.FinalizeFile | src/main/java/de/richardliebscher/mdf4/write/Mdf4Writer.java:83-86 | writes FILE_MAGIC over the first eight bytes |
| Mdf4Writers.Create | src/main/java/de/richardliebscher/mdf4/write/Mdf4Writer.java:109-114 | corrected (Findings row 2): a new writer that has written the identification block of TOOL_VERSION |
| RecordReaders.LowMaskValue | src/main/java/de/richardliebscher/mdf4/extract/impl/RecordReaderFactory.java:225 | (1 << bc) - 1 is the mask of bc ones, also where 1 << bc is negative |
| RecordReaders.FieldBytes | src/main/java/de/richardliebscher/mdf4/extract/impl/RecordReaderFactory.java:222-247 | the corrected byte count of a field of bc bits, at least one |
| RecordReaders.FirstZeroUnit | src/main/java/de/richardliebscher/mdf4/extract/impl/RecordReaderFactory.java:574 | the byte index of the first zero UTF-16 code unit, or -1 exactly when there is none |
| RecordReaders.StringValue | src/main/java/de/richardliebscher/mdf4/extract/impl/RecordReaderFactory.java:563-576 | corrected (Findings row 1): a string channel's value ends at its first NUL (a zero byte for Latin-1 and UTF-8, a zero code unit for UTF-16), and without a NUL is the missing-termination format error |
| RecordReaders.TrimString | src/main/java/de/richardliebscher/mdf4/extract/impl/RecordReaderFactory.java:608-614 | the text before the first '\0', or the missing-termination error when there is none |
| RecordReaders.Latin1StringAsWrittenFails | src/main/java/de/richardliebscher/mdf4/extract/impl/RecordReaderFactory.java:567-572 | as written, a Latin-1 value is cut at its first zero byte and then trimmed again, which always fails |
| RecordReaders.Latin1ValueIsTrimmedText | src/main/java/de/richardliebscher/mdf4/extract/impl/RecordReaderFactory.java:572-574 | the corrected Latin-1 value is what trimming the whole decoded buffer gives, as for UTF-16 |
| RecordReaders.UnsignedFits | src/main/java/de/richardliebscher/mdf4/extract/impl/RecordReaderFactory.java:229-245 | a number below 2^bc keeps its unsigned value through a wrap to a wider type |
| RecordReaders.SignedFits | src/main/java/de/richardliebscher/mdf4/extract/impl/RecordReaderFactory.java:373-391 | a signed number of bc bits is unchanged by a wrap to a wider type |
| RecordReaders.UnsignedValue | src/main/java/de/richardliebscher/mdf4/extract/impl/RecordReaderFactory.java:191-247 | the visitU* value of the smallest Java type that holds the number carries that number |
| RecordReaders.SignedValue | src/main/java/de/richardliebscher/mdf4/extract/impl/RecordReaderFactory.java:331-391 | the visitI* value of the smallest Java type that holds the number carries that number |
| RecordReaders.MaskIsLowBits | src/main/java/de/richardliebscher/mdf4/extract/impl/RecordReaderFactory.java:225-245 | x & ((1 << bc) - 1) keeps the low bc bits of x |
| RecordReaders.ShiftsExtendLowBits | src/main/java/de/richardliebscher/mdf4/extract/impl/RecordReaderFactory.java:369-391 | x << (w - bc) >> (w - bc) is the two's-complement value of the low bc bits of x |
| RecordReaders.OneByteAnyOrder | src/main/java/de/richardliebscher/mdf4/extract/impl/RecordReaderFactory.java:321-329 | a one-byte read does not depend on the byte order |
| RecordReaders.UnsignedOutcome | src/main/java/de/richardliebscher/mdf4/extract/impl/RecordReaderFactory.java:222-247 | a fetched field gives the value of its low bc bits, or the fetch's error |
| RecordReaders.SignedOutcome | src/main/java/de/richardliebscher/mdf4/extract/impl/RecordReaderFactory.java:366-393 | a fetched field gives the two's-complement value of its low bc bits, or the fetch's error |
| RecordReaders.MaskedByteRead | src/main/java/de/richardliebscher/mdf4/extract/impl/RecordReaderFactory.java:321-329 | the small unsigned read is the low bc bits of the byte |
| RecordReaders.MaskedShortRead | src/main/java/de/richardliebscher/mdf4/extract/impl/RecordReaderFactory.java:224-231 | the masked short read is the low bc bits of the two bytes |
| RecordReaders.MaskedIntRead | src/main/java/de/richardliebscher/mdf4/extract/impl/RecordReaderFactory.java:232-239 | the masked int read is the low bc bits of the bytes read |
| RecordReaders.MaskedLongRead | src/main/java/de/richardliebscher/mdf4/extract/impl/RecordReaderFactory.java:240-247 | the masked long read is the low bc bits of the bytes read |
| RecordReaders.ExactUnsignedByteRead | src/main/java/de/richardliebscher/mdf4/extract/impl/RecordReaderFactory.java:191-197 | visitU8(readU8) carries the unsigned byte |
| RecordReaders.ExactUnsignedShortRead | src/main/java/de/richardliebscher/mdf4/extract/impl/RecordReaderFactory.java:198-204 | visitU16(readI16) carries the unsigned 16-bit number |
| RecordReaders.ExactUnsignedIntRead | src/main/java/de/richardliebscher/mdf4/extract/impl/RecordReaderFactory.java:205-211 | visitU32(readI32) carries the unsigned 32-bit number |
| RecordReaders.ExactUnsignedLongRead | src/main/java/de/richardliebscher/mdf4/extract/impl/RecordReaderFactory.java:212-218 | visitU64(readI64) carries the unsigned 64-bit number |
| RecordReaders.UnsignedReadKeepsLowBits | src/main/java/de/richardliebscher/mdf4/extract/impl/RecordReaderFactory.java:187-319 | corrected (Findings row 3): an unsigned field of 1 to 64 bits reads as the low bitCount bits of the bytes it occupies, and fails exactly when they are not all in the record |
| RecordReaders.ExtendedByteRead | src/main/java/de/richardliebscher/mdf4/extract/impl/RecordReaderFactory.java:469-478 | the small signed read is the two's-complement value of the byte's low bc bits |
| RecordReaders.ExtendedShortRead | src/main/java/de/richardliebscher/mdf4/extract/impl/RecordReaderFactory.java:368-376 | the extended short read is the two's-complement value of the low bc bits |
| RecordReaders.ExtendedIntRead | src/main/java/de/richardliebscher/mdf4/extract/impl/RecordReaderFactory.java:377-384 | the extended int read is the two's-complement value of the low bc bits |
| RecordReaders.ExtendedLongRead | src/main/java/de/richardliebscher/mdf4/extract/impl/RecordReaderFactory.java:385-393 | the extended long read is the two's-complement value of the low bc bits |
| RecordReaders.ExactSignedByteRead | src/main/java/de/richardliebscher/mdf4/extract/impl/RecordReaderFactory.java:331-364 | visitI8(readU8) carries the signed byte |
| RecordReaders.ExactSignedShortRead | src/main/java/de/richardliebscher/mdf4/extract/impl/RecordReaderFactory.java:331-364 | visitI16(readI16) carries the signed short |
| RecordReaders.ExactSignedIntRead | src/main/java/de/richardliebscher/mdf4/extract/impl/RecordReaderFactory.java:331-364 | visitI32(readI32) carries the signed int |
| RecordReaders.ExactSignedLongRead | src/main/java/de/richardliebscher/mdf4/extract/impl/RecordReaderFactory.java:331-364 | visitI64(readI64) carries the signed long |
| RecordReaders.SignedReadExtendsLowBits | src/main/java/de/richardliebscher/mdf4/extract/impl/RecordReaderFactory.java:331-467 | corrected (Findings row 6): a signed field of 1 to 64 bits reads as the two's-complement value of the low bitCount bits of the bytes it occupies |
| RecordReaders.BigEndianFieldValue | src/main/java/de/richardliebscher/mdf4/extract/impl/RecordReaderFactory.java:254-319 | corrected: a big-endian unsigned field of k whole bytes reads as the big-endian number of exactly those bytes |
| RecordReaders.BigEndianAsWrittenDropsFirstByte | src/main/java/de/richardliebscher/mdf4/extract/impl/RecordReaderFactory.java:299-306 | as written, the 24-bit big-endian field 01 02 03 before a byte 04 reads 0x020304; corrected, 0x010203 |
| RecordReaders.InvalidationBitDecides | src/main/java/de/richardliebscher/mdf4/extract/impl/RecordReaderFactory.java:138-147 | a failed byte read is the error; otherwise the value is invalid exactly when the masked bit is set, and the inner reader's result passes unchanged when it is not |
| RecordReaders.Read | src/main/java/de/richardliebscher/mdf4/extract/impl/RecordReaderFactory.java:62-147 | corrected (Findings rows 1, 3 and 6): an all-invalid channel reads as invalid, the virtual channel as its record index, and a negative string or byte-array length is a negative array size |
| RecordReaders.ReadMeaning | src/main/java/de/richardliebscher/mdf4/extract/impl/RecordReaderFactory.java:62-147 | a byte array is exactly the field's bytes, a conversion succeeds only when its inner read does and yields a scaled or invalid value, and a valid value means the invalidation bit was clear |
| RecordReaders.SignedBigEndianAsWrittenDropsFirstByte | src/main/java/de/richardliebscher/mdf4/extract/impl/RecordReaderFactory.java:446-461 | as written, the signed 24-bit big-endian field 01 02 03 before a byte 04 reads 0x020304; corrected, 0x010203 |
| RecordReaders.AndPow2IsBit | src/main/java/de/richardliebscher/mdf4/extract/impl/RecordReaderFactory.java:141 | x & (1 << k) is nonzero exactly when bit k is set |
| RecordReaders.CreateIntegerRead | src/main/java/de/richardliebscher/mdf4/extract/impl/RecordReaderFactory.java:248-251 | more than 64 bits is not implemented; otherwise the reader of that order, offset and width |
| RecordReaders.CreateFloatRead | src/main/java/de/richardliebscher/mdf4/extract/impl/RecordReaderFactory.java:480-541 | only 16, 32 and 64 bits, with each byte order's own error message |
| RecordReaders.CreateStringRead | src/main/java/de/richardliebscher/mdf4/extract/impl/RecordReaderFactory.java:543-550 | the bit count must be a multiple of 8, and the reader reads bitCount / 8 bytes |
| RecordReaders.CreateByteArrayRead | src/main/java/de/richardliebscher/mdf4/extract/impl/RecordReaderFactory.java:580-587 | the bit count must be a multiple of 8, and the reader reads bitCount / 8 bytes |
| RecordReaders.CreateNumericReader | src/main/java/de/richardliebscher/mdf4/extract/impl/RecordReaderFactory.java:152-164 | an integer or float reader reads in the byte order its data type names |
| RecordReaders.CreateBytesReader | src/main/java/de/richardliebscher/mdf4/extract/impl/RecordReaderFactory.java:165-174 | string and byte-array readers carry no byte order |
| RecordReaders.CreateFixedLengthDataReader | src/main/java/de/richardliebscher/mdf4/extract/impl/RecordReaderFactory.java:150-185 | an unreadable data type is not implemented; a reader found reads in the order its data type names |
| RecordReaders.CreateVirtualDataReader | src/main/java/de/richardliebscher/mdf4/extract/impl/RecordReaderFactory.java:616-635 | a virtual channel must have bit count 0 and reads the record index |
| RecordReaders.Convert | src/main/java/de/richardliebscher/mdf4/extract/impl/RecordReaderFactory.java:90-114 | no conversion and IDENTITY keep the reader, LINEAR wraps it, every other type is not implemented, and a failed resolution is the error |
| RecordReaders.CreateInvalidationReader | src/main/java/de/richardliebscher/mdf4/extract/impl/RecordReaderFactory.java:123-148 | an accepted reader wraps the given one |
| RecordReaders.ByteOfBit | src/main/java/de/richardliebscher/mdf4/extract/impl/RecordReaderFactory.java:135-136 | the invalidation byte is recordIdSize + dataBytes + bit / 8 for sizes that fit an int |
| RecordReaders.MaskOfBit | src/main/java/de/richardliebscher/mdf4/extract/impl/RecordReaderFactory.java:137 | the mask selects bit (bit mod 8) |
| RecordReaders.InvalidationBytePosition | src/main/java/de/richardliebscher/mdf4/extract/impl/RecordReaderFactory.java:127-137 | a bit within the invalidation bytes is bit (bit mod 8) of the byte at recordIdSize + dataBytes + bit / 8 |
| RecordReaders.InvalidationBitOutOfRange | src/main/java/de/richardliebscher/mdf4/extract/impl/RecordReaderFactory.java:129-132 | a bit at or beyond 8 * invalidationBytes is a format error |
| RecordReaders.CreateTypedReader | src/main/java/de/richardliebscher/mdf4/extract/impl/RecordReaderFactory.java:72-88 | fixed-length, master and synchronization channels get the fixed-length reader, virtual ones the record-index reader, other types are not implemented |
| RecordReaders.CreateChannelReader | src/main/java/de/richardliebscher/mdf4/extract/impl/RecordReaderFactory.java:62-121 | a bit offset is not implemented; ALL_VALUES_INVALID reads nothing; otherwise the typed reader, converted, wrapped with the invalidation reader when INVALIDATION_BIT_VALID is set, errors passing through |
| RecordReaders.AllValuesInvalidReadsInvalid | src/main/java/de/richardliebscher/mdf4/extract/impl/RecordReaderFactory.java:68-70 | a channel whose values are all invalid reads as invalid in every record |
| DefaultRecordReaders.ReadCount | src/main/java/de/richardliebscher/mdf4/extract/impl/DefaultRecordReader.java:150 | the read's value is the number of bytes placed, -1 exactly at the end of the data, and an IOException is the error |
| DefaultRecordReaders.Refilled | src/main/java/de/richardliebscher/mdf4/extract/impl/DefaultRecordReader.java:149-150 | a fill overwrites the buffer from its start with the delivered bytes and keeps the rest, since clear() does not zero |
| DefaultRecordReaders.FullFillReplaces | src/main/java/de/richardliebscher/mdf4/extract/impl/DefaultRecordReader.java:149-151 | a fill of exactly the capacity replaces the whole buffer |
| DefaultRecordReaders.RecordOf | src/main/java/de/richardliebscher/mdf4/extract/impl/DefaultRecordReader.java:124-126 | the values of all channel readers in list order over the same record, or the error of the first that fails |
| DefaultRecordReaders.RecordOfFirstFailure | src/main/java/de/richardliebscher/mdf4/extract/impl/DefaultRecordReader.java:124-126 | a record fails with the first failing reader's error |
| DefaultRecordReaders.RecordOfAllOk | src/main/java/de/richardliebscher/mdf4/extract/impl/DefaultRecordReader.java:124-126 | when every reader succeeds, the record holds their values in order |
| DefaultRecordReaders.RecordOfSnoc | src/main/java/de/richardliebscher/mdf4/extract/impl/DefaultRecordReader.java:124-126 | one more succeeding reader extends the record by its value |
| DefaultRecordReaders.RecordOfFailsAfter | src/main/java/de/richardliebscher/mdf4/extract/impl/DefaultRecordReader.java:124-126 | a reader that fails after readers that all succeeded ends the record with its error |
| DefaultRecordReaders.ReadRecord | src/main/java/de/richardliebscher/mdf4/extract/impl/DefaultRecordReader.java:124-126 | the loop over the channel readers gives the record the pure definition gives |
| DefaultRecordReaders.PrepareOutcome | src/main/java/de/richardliebscher/mdf4/extract/impl/DefaultRecordReader.java:150-154 | prepareRead succeeds exactly when a full buffer arrived; an IOException passes through; anything else is the early-end format error |
| DefaultRecordReaders.NextOutcome | src/main/java/de/richardliebscher/mdf4/extract/impl/DefaultRecordReader.java:120-130 | next fails with prepareRead's error, or yields the record |
| DefaultRecordReaders.EndOfDataIsEarly | src/main/java/de/richardliebscher/mdf4/extract/impl/DefaultRecordReader.java:151-153 | the end of the data is always an early end |
| DefaultRecordReaders.CapacityOf | src/main/java/de/richardliebscher/mdf4/extract/impl/DefaultRecordReader.java:57-58 | the buffer capacity is the int sum of data and invalidation bytes, and a negative sum throws |
| DefaultRecordReaders.DefaultRecordReader.constructor | src/main/java/de/richardliebscher/mdf4/extract/impl/DefaultRecordReader.java:49-62 | a reader over a zeroed buffer of the capacity, at cycle 0 and record index 0 |
| DefaultRecordReaders.DefaultRecordReader.Remaining | src/main/java/de/richardliebscher/mdf4/extract/impl/DefaultRecordReader.java:72-74 | remaining is size minus the records begun, never more than size |
| DefaultRecordReaders.DefaultRecordReader.Size | src/main/java/de/richardliebscher/mdf4/extract/impl/DefaultRecordReader.java:66-69 | size is the channel group's cycle count, and a valid reader's cycle never passes it once reading has begun |
| DefaultRecordReaders.DefaultRecordReader.HasNext | src/main/java/de/richardliebscher/mdf4/extract/impl/DefaultRecordReader.java:115-117 | a record is left exactly when remaining is positive |
| DefaultRecordReaders.DefaultRecordReader.ReadSource | src/main/java/de/richardliebscher/mdf4/extract/impl/DefaultRecordReader.java:150 | places the next delivery of the source in the buffer and returns its count, at most the capacity |
| DefaultRecordReaders.DefaultRecordReader.PrepareRead | src/main/java/de/richardliebscher/mdf4/extract/impl/DefaultRecordReader.java:143-155 | past the end NoSuchElement with nothing changed; otherwise the cycle moves on, remaining drops by one, the buffer is refilled, and the outcome is the pure one |
| DefaultRecordReaders.DefaultRecordReader.FinishRead | src/main/java/de/richardliebscher/mdf4/extract/impl/DefaultRecordReader.java:157-159 | the record index moves on by one and nothing else changes |
| DefaultRecordReaders.DefaultRecordReader.Next | src/main/java/de/richardliebscher/mdf4/extract/impl/DefaultRecordReader.java:120-130 | prepareRead, the channel readers in order, then finishRead: only a record whose every channel reads advances the record index |
| DefaultRecordReaders.Open | src/main/java/de/richardliebscher/mdf4/extract/impl/DefaultRecordReader.java:57-59 | a reader exists exactly when the capacity is valid, with a buffer of that capacity |
| Halves.HalfFields | src/main/java/de/richardliebscher/mdf4/extract/de/Half.java:80-82 | the sign bit, the 5 exponent bits and the 10 significand bits make up the 16-bit pattern, and the sign bit is set exactly for negative shorts |
| Halves.HalfMasks | src/main/java/de/richardliebscher/mdf4/extract/de/Half.java:80-82 | bits & 0x8000, bits & 0x7c00 and bits & 0x03ff on the sign-extended short give the sign, the exponent field in place and the significand |
| Halves.ConstantFields | src/main/java/de/richardliebscher/mdf4/extract/de/Half.java:16-26 | the infinity constants have all exponent bits set and a zero significand, NaN a significand of 1, and the zeros have neither |
| Halves.IsNaN | src/main/java/de/richardliebscher/mdf4/extract/de/Half.java:134-136 | true exactly when all exponent bits are set and the significand is nonzero |
| Halves.IsInfinite | src/main/java/de/richardliebscher/mdf4/extract/de/Half.java:144-146 | comparing with the two infinity constants is the same as all exponent bits set and a zero significand |
| Halves.IsFinite | src/main/java/de/richardliebscher/mdf4/extract/de/Half.java:154-156 | true exactly when the exponent bits are not all set |
| Halves.ClassesPartition | src/main/java/de/richardliebscher/mdf4/extract/de/Half.java:134-156 | every pattern is exactly one of finite, infinite and NaN |
| Halves.Half.ShortBits | src/main/java/de/richardliebscher/mdf4/extract/de/Half.java:120-126 | every NaN pattern becomes the canonical NaN and every other pattern is returned unchanged |
| Halves.ShortBitsNormalizes | src/main/java/de/richardliebscher/mdf4/extract/de/Half.java:120-126 | shortBits is idempotent, and two halves agree on it exactly when both are NaN or their patterns are equal |
| Halves.FloatBits | src/main/java/de/richardliebscher/mdf4/extract/de/Half.java:98 | the binary32 pattern built is negative exactly for the sign given and carries the given exponent and significand fields |
| Halves.Shifts | src/main/java/de/richardliebscher/mdf4/extract/de/Half.java:86-91 | no doubling is needed exactly when bit 10 is already reached |
| Halves.NormalizedSig | src/main/java/de/richardliebscher/mdf4/extract/de/Half.java:86-91 | the normalized significand has bit 10 as its highest set bit |
| Halves.ShiftsBound | src/main/java/de/richardliebscher/mdf4/extract/de/Half.java:86-91 | once bit k is set, at most 10 - k doublings remain, so the loop ends and the exponent stays positive |
| Halves.NormalizedSigScales | src/main/java/de/richardliebscher/mdf4/extract/de/Half.java:86-91 | the normalized significand is the input times 2 to the number of doublings |
| Halves.FloatOfHalf | src/main/java/de/richardliebscher/mdf4/extract/de/Half.java:79-99 | the float is negative exactly when the half is |
| Halves.ToFloatKeepsClass | src/main/java/de/richardliebscher/mdf4/extract/de/Half.java:93-94 | NaNs map to NaNs and infinities to infinities (both directions), and the two infinities map to the float infinities |
| Halves.ToFloatKeepsZeros | src/main/java/de/richardliebscher/mdf4/extract/de/Half.java:84 | positive and negative zero map to the float zeros of the same sign |
| Halves.ToFloatRebiases | src/main/java/de/richardliebscher/mdf4/extract/de/Half.java:95-98 | a normal half keeps its sign, its exponent is rebiased by 127 - 15 and its significand moves up 13 bits |
| Halves.ToFloatKeepsValue | src/main/java/de/richardliebscher/mdf4/extract/de/Half.java:79-99 | every finite nonzero half, subnormals included, becomes a normal float of exactly the same magnitude |
| Halves.DoubleStep | src/main/java/de/richardliebscher/mdf4/extract/de/Half.java:88-90 | one pass of the loop doubles the significand, and the bit-10 test holds exactly when the doubled value reaches 0x400 |
| Halves.AssembleFloat | src/main/java/de/richardliebscher/mdf4/extract/de/Half.java:98 | the shifts and ors of the last line build the binary32 pattern with that sign, exponent and significand |
| Halves.Normalize | src/main/java/de/richardliebscher/mdf4/extract/de/Half.java:85-91 | the loop ends with bit 10 dropped from the normalized significand and the exponent lowered by one per doubling from 113 |
| Halves.SplitFields | src/main/java/de/richardliebscher/mdf4/extract/de/Half.java:80-82 | the sign, significand and exponent fields of the pattern, in place |
| Halves.Pack | src/main/java/de/richardliebscher/mdf4/extract/de/Half.java:98 | the assembled int is the binary32 pattern with the sign, exponent and significand moved up 13 bits |
| Halves.Widen | src/main/java/de/richardliebscher/mdf4/extract/de/Half.java:84-97 | the three exponent cases leave the binary32 exponent and top significand bits of the half's value |
| Halves.ToFloat | src/main/java/de/richardliebscher/mdf4/extract/de/Half.java:79-99 | the method returns the binary32 pattern of the half's value, whose properties the lemmas above state |
| DataZippedBlocks.ParseZipType | src/main/java/de/richardliebscher/mdf4/blocks/ZipType.java:16-22 | exactly the ordinals 0 and 1 parse, to the constant with that ordinal; any other value is a format error naming it |
| DataZippedBlocks.ParseOrdinal | src/main/java/de/richardliebscher/mdf4/blocks/ZipType.java:16-22 | every zip type parses back from its ordinal |
| DataZippedBlocks.DataZippedBlock.GetChannelLength | src/main/java/de/richardliebscher/mdf4/blocks/DataZippedBlock.java:37-39 | the channel is as long as the original, uncompressed data |
| DataZippedBlocks.Source | src/main/java/de/richardliebscher/mdf4/blocks/DataZippedBlock.java:78 | the input offset that lands at an output offset lies inside the transposed region |
| DataZippedBlocks.SourceBound | src/main/java/de/richardliebscher/mdf4/blocks/DataZippedBlock.java:78 | row p % n, column p / n of n rows of m lies inside the n * m bytes |
| DataZippedBlocks.OutputIndex | src/main/java/de/richardliebscher/mdf4/blocks/DataZippedBlock.java:78 | output offset j * n + i lies inside the region and is row i, column j |
| DataZippedBlocks.Transposition | src/main/java/de/richardliebscher/mdf4/blocks/DataZippedBlock.java:68-84 | the result is as long as the input and the bytes after the n * m region are copied unchanged |
| DataZippedBlocks.TransposedAt | src/main/java/de/richardliebscher/mdf4/blocks/DataZippedBlock.java:71-80 | byte j of row i of the input is byte i of row j of the output |
| DataZippedBlocks.SourceInverse | src/main/java/de/richardliebscher/mdf4/blocks/DataZippedBlock.java:68-84 | moving a position with n rows of m and then with m rows of n gives it back |
| DataZippedBlocks.TransposedInverse | src/main/java/de/richardliebscher/mdf4/blocks/DataZippedBlock.java:68-84 | transposing back with the roles of rows and columns swapped restores the input |
| DataZippedBlocks.TransposedIdentity | src/main/java/de/richardliebscher/mdf4/blocks/DataZippedBlock.java:74-80 | with one row or one column no byte moves |
| DataZippedBlocks.TransposedPermutes | src/main/java/de/richardliebscher/mdf4/blocks/DataZippedBlock.java:81 | the transposition only rearranges the bytes (same multiset) |
| DataZippedBlocks.TransposedBytes | src/main/java/de/richardliebscher/mdf4/blocks/DataZippedBlock.java:68-84 | an arithmetic error exactly for a zero column size or one outside int; otherwise a permutation of the same length, and nothing moves for a negative column size |
| DataZippedBlocks.Transposed | src/main/java/de/richardliebscher/mdf4/blocks/DataZippedBlock.java:68-84 | the nested loops and the tail copy produce a fresh array holding the transposed bytes, or the same error |
| DataZippedBlocks.FillColumns | src/main/java/de/richardliebscher/mdf4/blocks/DataZippedBlock.java:75-80 | after the two loops every byte of the region holds the input byte that belongs there |
| DataZippedBlocks.FillColumn | src/main/java/de/richardliebscher/mdf4/blocks/DataZippedBlock.java:77-79 | the inner loop fills exactly column i with row i and leaves every other byte alone |
| DataZippedBlocks.CreateUncompressed | src/main/java/de/richardliebscher/mdf4/blocks/DataZippedBlock.java:56-66 | DEFLATE only inflates; TRANSPOSITION_DEFLATE inflates and transposes with the zip parameter as column size; the data is as long as the inflated data |
| UnsignedLongs.MaskedValue | src/main/java/de/richardliebscher/mdf4/extract/de/UnsignedLong.java:30 | value & LONG_UNSIGNED_MASK is the low 63 bits of the long |
| UnsignedLongs.LowBitsOfLong | src/main/java/de/richardliebscher/mdf4/extract/de/UnsignedLong.java:29-31 | the low 63 bits are the value, or the value plus 2^63 when it is negative; the 64 bits of a negative value are it plus 2^64 |
| UnsignedLongs.SetTopBitIsUnsigned | src/main/java/de/richardliebscher/mdf4/extract/de/UnsignedLong.java:69-76 | setting bit 63 of the masked value of a negative long gives its unsigned value; a nonnegative one is its own unsigned value |
| UnsignedLongs.ToBigIntegerValue | src/main/java/de/richardliebscher/mdf4/extract/de/UnsignedLong.java:69-76 | the result is the unsigned 64-bit value of the long, and wrapping it back to 64 bits gives the long |
| UnsignedLongs.ToUnsignedString | src/main/java/de/richardliebscher/mdf4/extract/de/UnsignedLong.java:84-86 | only decimal digits, with no leading zero unless the text is "0", and they spell the unsigned value |
| UnsignedLongs.UnsignedLong.LongValue | src/main/java/de/richardliebscher/mdf4/extract/de/UnsignedLong.java:29-31 | the value with its top bit cleared: the unsigned value modulo 2^63, so nonnegative values are unchanged |
| UnsignedLongs.UnsignedLong.IntValue | src/main/java/de/richardliebscher/mdf4/extract/de/UnsignedLong.java:24-26 | the low 32 bits of the value, so values that fit an int are unchanged |
| UnsignedLongs.UnsignedLong.Equals | src/main/java/de/richardliebscher/mdf4/extract/de/UnsignedLong.java:104-107 | two boxes are equal exactly when their unsigned values are |
| UnsignedLongs.UnsignedLong.HashCode | src/main/java/de/richardliebscher/mdf4/extract/de/UnsignedLong.java:109-112 | bit i of the hash is bit i of the value xor bit i + 32 |
| UnsignedLongs.UnsignedLong.ToString | src/main/java/de/richardliebscher/mdf4/extract/de/UnsignedLong.java:99-102 | only decimal digits, with no leading zero unless the text is "0", spelling the unsigned value of the stored bits |
| UnsignedLongs.HashBits | src/main/java/de/richardliebscher/mdf4/extract/de/UnsignedLong.java:111 | (int) (value ^ (value >>> 32)) has bit i equal to bit i xor bit i + 32 of the value |
| SizeVisitors.IntCell.constructor | src/main/java/de/richardliebscher/mdf4/internal/IntCell.java:13-15 | the cell holds the value given |
| SizeVisitors.IntCell.Get | src/main/java/de/richardliebscher/mdf4/internal/IntCell.java:25-27 | returns the value held |
| SizeVisitors.IntCell.Set | src/main/java/de/richardliebscher/mdf4/internal/IntCell.java:29-31 | the cell holds the new value |
| SizeVisitors.UnsignedSizeCheck | src/main/java/de/richardliebscher/mdf4/extract/impl/SizeVisitor.java:30-34 | the signed test of visitU64 rejects exactly the longs whose unsigned value exceeds the maximum array length, and its message spells the unsigned value |
| SizeVisitors.VisitU64 | src/main/java/de/richardliebscher/mdf4/extract/impl/SizeVisitor.java:30-38 | accepted exactly when the unsigned value is at most the maximum array length, which is then stored; otherwise a not-implemented error with the unsigned digits and the cell unchanged |
| SizeVisitors.VisitI32 | src/main/java/de/richardliebscher/mdf4/extract/impl/SizeVisitor.java:41-50 | accepted exactly from 0 to the maximum array length, which is stored; negative is a format error, too large not implemented, and the cell is then unchanged |
| SizeVisitors.VisitI64 | src/main/java/de/richardliebscher/mdf4/extract/impl/SizeVisitor.java:53-62 | the same checks and errors as for an int, and an accepted long is stored narrowed without change |
| SeekableDataListReads.Opened | src/main/java/de/richardliebscher/mdf4/extract/read/SeekableDataListRead.java:38-41 | the block's channel becomes current and its declared length the remaining length; nothing else changes |
| SeekableDataListReads.EnsureDataStreamOf | src/main/java/de/richardliebscher/mdf4/extract/read/SeekableDataListRead.java:124-137 | nothing happens while bytes remain; otherwise the (wrapping) block index moves on, false exactly past the last block, an error exactly for a block that does not resolve, with channel and length left |
| SeekableDataListReads.Bounded | src/main/java/de/richardliebscher/mdf4/extract/read/SeekableDataListRead.java:54-56 | the corrected limit: position plus the bytes to read |
| SeekableDataListReads.BoundedAsWritten | src/main/java/de/richardliebscher/mdf4/extract/read/SeekableDataListRead.java:56 | the limit as written pulls the position back to the byte count |
| SeekableDataListReads.TransferOf | src/main/java/de/richardliebscher/mdf4/extract/read/SeekableDataListRead.java:54-67 | success needs a bounded buffer and an open channel, and then the count advances pos, the remaining length and dst, with dst's old limit restored |
| SeekableDataListReads.ChannelReadOf | src/main/java/de/richardliebscher/mdf4/extract/read/SeekableDataListRead.java:58-67 | a channel read and the limit restore in the finally block: the count moves pos, the remaining length and dst |
| SeekableDataListReads.ReadLengthFits | src/main/java/de/richardliebscher/mdf4/extract/read/SeekableDataListRead.java:54 | the int cast of the smaller of the remaining length and dst's room is exact, and the corrected limit fits dst |
| SeekableDataListReads.ReadOf | src/main/java/de/richardliebscher/mdf4/extract/read/SeekableDataListRead.java:44-68 | corrected (Findings row 4): refused when closed, -1 with dst untouched after the last block, otherwise the transfer from the current block |
| SeekableDataListReads.ReadMovesAtMost | src/main/java/de/richardliebscher/mdf4/extract/read/SeekableDataListRead.java:54-64 | corrected (Findings row 4): a successful count is at most the block's remaining bytes and dst's room, and moves pos, the remaining length and dst by exactly that count, keeping dst's limit |
| SeekableDataListReads.ReadAsWrittenOf | src/main/java/de/richardliebscher/mdf4/extract/read/SeekableDataListRead.java:44-68 | the read as written, refused when closed |
| SeekableDataListReads.SkipOf | src/main/java/de/richardliebscher/mdf4/extract/read/SeekableDataListRead.java:100-104 | succeeds exactly for a zero count or a positive one with an open channel, which then drops that many bytes and takes them off the remaining length; pos, index and closed stay |
| SeekableDataListReads.ReopenedAt | src/main/java/de/richardliebscher/mdf4/extract/read/SeekableDataListRead.java:90-104 | reopening block i and skipping to the position keeps pos, the index and the closed flag |
| SeekableDataListReads.PositionOf | src/main/java/de/richardliebscher/mdf4/extract/read/SeekableDataListRead.java:76-108 | nothing changes for the current position; otherwise pos becomes the new position, the block holding it becomes current, and a position before every block drops the block |
| SeekableDataListReads.SizeOf | src/main/java/de/richardliebscher/mdf4/extract/read/SeekableDataListRead.java:111-122 | 0 without blocks; an error exactly when the last block does not resolve |
| SeekableDataListReads.SizeIsEndOfLastBlock | src/main/java/de/richardliebscher/mdf4/extract/read/SeekableDataListRead.java:111-122 | with one offset per block, the size is the last block's offset plus its channel length |
| SeekableDataListReads.ReadDeliversBlockBytes | src/main/java/de/richardliebscher/mdf4/extract/read/SeekableDataListRead.java:44-68 | corrected (Findings row 4): a reader at a position inside a block delivers exactly the next bytes of that block, as many as fit, and stays at the new position |
| SeekableDataListReads.NextBlockStartsAtPosition | src/main/java/de/richardliebscher/mdf4/extract/read/SeekableDataListRead.java:124-137 | at the end of a block whose successor starts at the current position, the next block opens and its bytes are the ones ahead |
| SeekableDataListReads.PositionLandsInBlock | src/main/java/de/richardliebscher/mdf4/extract/read/SeekableDataListRead.java:76-108 | positioning into a block leaves the reader in that block with its bytes from the new position ahead |
| SeekableDataListReads.ReopenLandsInBlock | src/main/java/de/richardliebscher/mdf4/extract/read/SeekableDataListRead.java:90-104 | reopening a block at a position within it leaves the reader there |
| SeekableDataListReads.SkipLandsInBlock | src/main/java/de/richardliebscher/mdf4/extract/read/SeekableDataListRead.java:96-104 | skipping forward within the current block leaves the reader at the new position with the rest of the block ahead |
| SeekableDataListReads.ReadAsWrittenRewindsBuffer | src/main/java/de/richardliebscher/mdf4/extract/read/SeekableDataListRead.java:54-56 | a buffer at position 60 of 100 with 50 bytes left in the block: the read as written returns 0 and moves the buffer back to 40 |
| SeekableDataListReads.ReadFillsBuffer | src/main/java/de/richardliebscher/mdf4/extract/read/SeekableDataListRead.java:54-56 | the same read with the corrected limit fills the 40 free bytes |
| SeekableDataListReads.ByteBuffer.constructor | src/main/java/de/richardliebscher/mdf4/extract/read/SeekableDataListRead.java:44 | the buffer holds the contents, position and limit given |
| SeekableDataListReads.ByteBuffer.SetLimit | src/main/java/de/richardliebscher/mdf4/extract/read/SeekableDataListRead.java:56 | the buffer becomes the one the limit call gives, or stays unchanged with that error |
| SeekableDataListReads.ByteBuffer.Put | src/main/java/de/richardliebscher/mdf4/extract/read/SeekableDataListRead.java:58 | the bytes are written at the position, which moves past them |
| SeekableDataListReads.SeekableDataListRead.constructor | src/main/java/de/richardliebscher/mdf4/extract/read/SeekableDataListRead.java:31-36 | a fresh reader over the data list, before the first block at position 0 |
| SeekableDataListReads.SeekableDataListRead.Dup | src/main/java/de/richardliebscher/mdf4/extract/read/SeekableDataListRead.java:152-154 | a fresh reader over the same blocks, in the initial state |
| SeekableDataListReads.SeekableDataListRead.SetBlockChannel | src/main/java/de/richardliebscher/mdf4/extract/read/SeekableDataListRead.java:38-41 | the new fields are the ones the pure definition gives |
| SeekableDataListReads.SeekableDataListRead.EnsureDataStream | src/main/java/de/richardliebscher/mdf4/extract/read/SeekableDataListRead.java:124-137 | the result and new fields are the ones the pure definition gives |
| SeekableDataListReads.SeekableDataListRead.ReadChannel | src/main/java/de/richardliebscher/mdf4/extract/read/SeekableDataListRead.java:58 | the count, the channel and the buffer after one channel read |
| SeekableDataListReads.SeekableDataListRead.Read | src/main/java/de/richardliebscher/mdf4/extract/read/SeekableDataListRead.java:44-68 | corrected (Findings row 4): the result, the fields and dst afterwards are the ones the pure read gives |
| SeekableDataListReads.SeekableDataListRead.Transfer | src/main/java/de/richardliebscher/mdf4/extract/read/SeekableDataListRead.java:54-67 | corrected (Findings row 4): the part after the stream is ensured agrees with the pure transfer |
| SeekableDataListReads.SeekableDataListRead.ReadBounded | src/main/java/de/richardliebscher/mdf4/extract/read/SeekableDataListRead.java:56-67 | the bounded channel read and the limit restore agree with the pure definition |
| SeekableDataListReads.SeekableDataListRead.Skip | src/main/java/de/richardliebscher/mdf4/extract/read/SeekableDataListRead.java:100-104 | the result and new fields are the ones the pure skip gives |
| SeekableDataListReads.SeekableDataListRead.PositionTo | src/main/java/de/richardliebscher/mdf4/extract/read/SeekableDataListRead.java:76-108 | the result and new fields are the ones the pure position(p) gives |
| SeekableDataListReads.SeekableDataListRead.Reopen | src/main/java/de/richardliebscher/mdf4/extract/read/SeekableDataListRead.java:90-104 | the reopen and skip agree with the pure definition |
| SeekableDataListReads.SeekableDataListRead.Size | src/main/java/de/richardliebscher/mdf4/extract/read/SeekableDataListRead.java:111-122 | returns the size the pure definition gives |
| SeekableDataListReads.SeekableDataListRead.Close | src/main/java/de/richardliebscher/mdf4/extract/read/SeekableDataListRead.java:145-150 | the reader is closed and nothing else changes |

## Left out

- Real I/O. In the model the file, its channels and `ByteInput` are an in-memory cursor over a byte sequence. A read past the end is the end-of-input error, and I/O failures other than that are not modelled.
- Deflate. `InflaterInputStream` is the function parameter `inflate` of `DataZippedBlocks.CreateUncompressed`. The streams are modelled as the whole byte sequences they deliver, so their laziness is not captured.
- DataZippedBlock.parse and getChannel are not modelled. The block is a value with its declared fields, and the model starts from the inflated bytes.
- Link resolution. Outside `Links.CachedLink`, the blocks a link points to are supplied by a resolve parameter: the seekable reader, the data-list chain and the data root. The parsing that would find them is not repeated.
- Floating point. float and double values are kept as their IEEE 754 bit patterns. `Half.toDouble`, `floatValue`, `doubleValue`, `intValue`, `longValue`, `toString`, `equals` and `hashCode` are not modelled. Nor are `UnsignedLong.floatValue`, `doubleValue` and `toString(long, int radix)`. `LinearConversion` is a tagged `Scaled` value, not a computed double.
- Charset decoding. A string value is its text bytes together with the charset. A Latin-1 byte is its own character. For UTF-16 the zero terminator is a zero code unit at an even offset. No decoding, replacement or normalisation is modelled.
- RecordByteBuffer.readString is not modelled on its own. String readers read with `ReadBytes` and cut the text with `StringValue`.
- RecordReaders.Read reads a masked little-endian integer of odd width from exactly its field bytes. The source reads the whole 2-, 4- or 8-byte container (`readI16`, `readI32`, `readI64`) and masks it. The value is the same; the model does not capture the source's end-of-record failure when the wider container runs past the record's last byte.
- The Visitor, Deserialize and DeserializeInto plumbing. A channel reader returns a `Value`, and the visitor call it would make is that value's constructor.
- SizeVisitor.expecting is not modelled; it only returns a description.
- IntCell.replace, update, swap and the no-argument and copy constructors are not modelled. Only the members the size visitor uses are.
- SizeVisitors.VisitU64 and the other visit methods store into the cell. Their contracts use `old`, so they say what is stored and that a rejection leaves the cell unchanged.
- The JDK's own argument checks are modelled only as far as the source meets them. The messages the JDK gives are modelled only where the model needs them: `ByteBuffer.allocate` of a negative capacity (`CapacityOf`) has "capacity < 0", a slice start outside the record (`RecordBuffers.BytesAt`) has "newPosition out of range", and a seek outside the input (`Io.SeekCheck`) has "position out of range". The other argument checks keep an empty message: `ByteBuffer.limit` with a bad limit, a negative skip, and a negative index into the offsets.
- SeekableDataListRead: closing the block channel in close() is not observable, so closing is the closed flag. A block read is assumed to deliver everything the channel has up to the buffer's room; channels that deliver fewer bytes per read are not modelled.
- DataListBlock.getOffsets is derived from the block's offset info (one length, or the explicit offsets).
- DataList.from, the dispatch over the kinds of data root, is modelled only as `DataListCollection.CollectRoot` over a root whose chain is already resolved.
- DefaultRecordReader's iterator() adapter and nextInto are not modelled; `next` is. The record builder of the reader factory is not modelled either.
- RecordReaderFactory.createSource, createFor, selectChannels and buildExtractors are not modelled. They resolve the channel group's blocks and wire the readers together; the model starts from the resolved blocks.
- Consts.java is not part of this model. The two magics `"MDF     "` and `"UnFinMF "` are taken from ASAM MDF 4.
- Concurrency, the parallel readers and the thread-local caches are not modelled.
- Io.ByteInput.Skip: when position() + n leaves the int range, the source's int sum wraps and ByteBuffer.position refuses the negative result with an IllegalArgumentException. The model reports Arithmetic("integer overflow") instead. The same holds for the skips inside `ChannelBlocks.PrecisionAt` and `IdBlocks.AfterMagicAt`.
- BlockHeaders.WrongBlockTypeMessage: BlockType.java is not part of this model. Its toString is assumed to print the two-character id that `BlockTypeId.ToString` gives.

## Findings

| source | as written | input that shows it | evidently intended | confidence | as-written member | corrected member |
|---|---|---|---|---|---|---|
| src/main/java/de/richardliebscher/mdf4/extract/impl/RecordReaderFactory.java:567-572 | the UTF-8 and Latin-1 string reader builds the text from the bytes before the first zero and then calls trimString (lines 608-614) on it, which looks for a zero again and finds none | a 2-byte Latin-1 field holding 'a' 0 fails with the missing-termination error | the value is the text before the first zero; a field without a zero is the error | not executed; high | RecordReaders.Latin1StringAsWrittenFails | RecordReaders.Latin1ValueIsTrimmedText |
| src/main/java/de/richardliebscher/mdf4/write/Mdf4Writer.java:133-135 | the version text is major + "." + minor + four spaces, and the writer's version is TOOL_VERSION = MdfFormatVersion.of(4, 2) (Mdf4File.java:28), so the text is the 7-character "4.2    " and the identification block has 63 bytes | writing with TOOL_VERSION: the reader sees the version text "4.2    m" and rejects the block. Mdf4FileTest.openEmpty (src/test/java/de/richardliebscher/mdf4/Mdf4FileTest.java:19-38) expects such a file to open, so the defect may belong to this revision of TOOL_VERSION only | an 8-character text "d.dd" plus four spaces, with the minor number in two digits: "4.02    " for of(4, 2) as the corrected writer gives it, or "4.20    " if the tool version is meant to be of(4, 20) | not executed; medium | Mdf4Writers.ToolVersionTextRejected | Mdf4Writers.WrittenIdBlockParses |
| src/main/java/de/richardliebscher/mdf4/extract/impl/RecordReaderFactory.java:299-306 | a big-endian unsigned field of a width that is not 8, 16, 32 or 64 bits is read as the wider 2-, 4- or 8-byte container, and its low bits are kept | bytes 01 02 03 04 with a 24-bit big-endian field at offset 0 give 0x020304 | the field's own 3 bytes, big-endian: 0x010203 | not executed; high | RecordReaders.BigEndianAsWrittenDropsFirstByte | RecordReaders.BigEndianFieldValue |
| src/main/java/de/richardliebscher/mdf4/extract/read/SeekableDataListRead.java:54-56 | read sets dst's limit to the number of bytes to read, whatever dst's position | dst at position 60 with limit and capacity 100, 50 bytes left in the block: read returns 0 and moves dst back to position 40 | the limit is dst's position plus the bytes to read, so the read fills dst's 40 free bytes | not executed; medium | SeekableDataListReads.ReadAsWrittenRewindsBuffer | SeekableDataListReads.ReadFillsBuffer |
| src/main/java/de/richardliebscher/mdf4/blocks/BitFlags.java:96-106 | allSet ORs the flags' bit numbers instead of their masks, so hasUnknown tests against the wrong set | the channel flag LIMIT_RANGE_VALID (bit 4, value 16) alone is reported as unknown | allSet is the OR of 1 << bit over the known flags | not executed; high | Flags.HasUnknownMisreportsKnownFlag | Flags.HasUnknownCorrectedOnLimitRange |
| src/main/java/de/richardliebscher/mdf4/extract/impl/RecordReaderFactory.java:446-461 | a big-endian signed field of 17 to 31 or 33 to 63 bits is read as the 4- or 8-byte container (readI32Be, readI64Be) and sign-extended from its low bits by the shift pair | bytes 01 02 03 04 with a signed 24-bit big-endian field at offset 0 give 0x020304 | the field's own 3 bytes, big-endian and sign-extended: 0x010203 | not executed; high | RecordReaders.SignedBigEndianAsWrittenDropsFirstByte | RecordReaders.SignedReadExtendsLowBits |
