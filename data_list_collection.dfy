// collectDataList: the data links and start offsets of all blocks of a data
// group, as two long arrays, gathered by walking the ##DL chain and letting
// addOffsets extend the offset list one list at a time.

module DataListCollection {
  import opened JavaTypes
  import opened Results
  import opened Links
  import opened Offsets
  import opened DataListBlocks
  import opened DataLists

  // ---------------------------------------------------------------------
  // addOffsets

  /**
   * The offset list after n equal-length blocks: each new block starts at 0
   * if the list is empty, and length after the last offset otherwise, in
   * wrapping long arithmetic.
   */
  function RunningOffsets(list: seq<int64>, n: nat, length: int64): (r: seq<int64>)
    decreases n
    ensures |r| == |list| + n && r[..|list|] == list
  {
    if n == 0 then list
    else
      var prev := RunningOffsets(list, n - 1, length);
      assert prev[..|list|] == list;
      prev + [if |prev| == 0 then 0 else Wrap64(prev[|prev| - 1] + length)]
  }

  /** What addOffsets appends for one list. */
  function AddedOffsets(list: seq<int64>, b: DataListBlock): (r: seq<int64>)
    ensures b.offsetInfo.OffsetsInfo? ==> r == list + b.offsetInfo.offsets
    ensures b.offsetInfo.LengthInfo? ==> |r| == |list| + |b.data| && r[..|list|] == list
  {
    match b.offsetInfo
    case LengthInfo(length) => RunningOffsets(list, |b.data|, length)
    case OffsetsInfo(offsets) => list + offsets
  }

  /** addOffsets: one loop adding an offset per data link, or one copying the explicit offsets. */
  method AddOffsets(list: seq<int64>, b: DataListBlock) returns (r: seq<int64>)
    ensures r == AddedOffsets(list, b)
  {
    r := list;
    match b.offsetInfo {
      case LengthInfo(length) =>
        var i := 0;
        while i < |b.data|
          invariant 0 <= i <= |b.data|
          invariant r == RunningOffsets(list, i, length)
        {
          if |r| == 0 {
            r := r + [0];
          } else {
            r := r + [Wrap64(r[|r| - 1] + length)];
          }
          i := i + 1;
        }
      case OffsetsInfo(offsets) =>
        var i := 0;
        while i < |offsets|
          invariant 0 <= i <= |offsets|
          invariant r == list + offsets[..i]
        {
          r := r + [offsets[i]];
          assert offsets[..i + 1] == offsets[..i] + [offsets[i]];
          i := i + 1;
        }
        assert offsets[..i] == offsets;
    }
  }

  /** i * length as a long. */
  function Multiple(i: int, length: int64): int64 {
    Wrap64(i * length)
  }

  lemma {:induction false} FirstMultiple(length: int64)
    ensures Multiple(0, length) == 0
  {
    Wrap64Exact(0);
  }

  /** The offset appended after a non-empty list of multiples is the next multiple. */
  lemma {:induction false} NextMultiple(k: nat, length: int64)
    requires k >= 1
    ensures Wrap64(Multiple(k - 1, length) + length) == Multiple(k, length)
  {
    MulPred(k, length);
    Wrap64Add((k - 1) * length, length);
  }

  /** The offset appended to a list, as RunningOffsets appends it. */
  function Next(prev: seq<int64>, length: int64): int64 {
    if |prev| == 0 then 0 else Wrap64(prev[|prev| - 1] + length)
  }

  lemma {:induction false} RunningStep(list: seq<int64>, n: nat, length: int64)
    requires n >= 1
    ensures RunningOffsets(list, n, length) ==
            RunningOffsets(list, n - 1, length) + [Next(RunningOffsets(list, n - 1, length), length)]
  {
  }

  /**
   * Equal-length blocks keep a list of multiples of length a list of
   * multiples: entry i is i * length, in long arithmetic.
   */
  lemma {:induction false} RunningKeepsMultiples(list: seq<int64>, n: nat, length: int64)
    requires forall i :: 0 <= i < |list| ==> list[i] == Multiple(i, length)
    decreases n
    ensures var r := RunningOffsets(list, n, length);
      forall i :: 0 <= i < |r| ==> r[i] == Multiple(i, length)
  {
    if n > 0 {
      RunningKeepsMultiples(list, n - 1, length);
      var prev := RunningOffsets(list, n - 1, length);
      RunningStep(list, n, length);
      NextOfMultiples(prev, length);
    }
  }

  lemma {:induction false} NextOfMultiples(prev: seq<int64>, length: int64)
    requires forall i :: 0 <= i < |prev| ==> prev[i] == Multiple(i, length)
    ensures Next(prev, length) == Multiple(|prev|, length)
  {
    if |prev| == 0 {
      FirstMultiple(length);
    } else {
      var k := |prev|;
      assert prev[k - 1] == Multiple(k - 1, length);
      NextMultiple(k, length);
    }
  }

  /** Starting from an empty list, equal-length blocks start at 0, length, 2 * length, ... */
  lemma {:induction false} RunningFromEmpty(n: nat, length: int64)
    ensures var r := RunningOffsets([], n, length);
      |r| == n && forall i :: 0 <= i < n ==> r[i] == Multiple(i, length)
  {
    RunningKeepsMultiples([], n, length);
  }

  /** last + j * length as a long. */
  function After(last: int64, j: int, length: int64): int64 {
    Wrap64(last + j * length)
  }

  lemma {:induction false} NoneAfter(last: int64, length: int64)
    ensures After(last, 0, length) == last
  {
    Wrap64Exact(last);
  }

  lemma {:induction false} NextAfter(last: int64, j: nat, length: int64)
    requires j >= 1
    ensures Wrap64(After(last, j - 1, length) + length) == After(last, j, length)
  {
    MulPred(j, length);
    Wrap64Add(last + (j - 1) * length, length);
  }

  /**
   * After a non-empty list, the new block at index k starts
   * (k - |list| + 1) * length after the last offset already there.
   */
  lemma {:induction false} RunningContinues(list: seq<int64>, n: nat, length: int64)
    requires |list| >= 1
    decreases n
    ensures var r := RunningOffsets(list, n, length);
      forall k :: |list| <= k < |r| ==> r[k] == After(list[|list| - 1], k - |list| + 1, length)
  {
    if n > 0 {
      RunningContinues(list, n - 1, length);
      var prev := RunningOffsets(list, n - 1, length);
      RunningStep(list, n, length);
      NextOfAfters(prev, list[|list| - 1], |list|, length);
    }
  }

  lemma {:induction false} NextOfAfters(prev: seq<int64>, x: int64, base: nat, length: int64)
    requires 1 <= base <= |prev| && prev[base - 1] == x
    requires forall k :: base <= k < |prev| ==> prev[k] == After(x, k - base + 1, length)
    ensures Next(prev, length) == After(x, |prev| - base + 1, length)
  {
    var j := |prev| - base + 1;
    var last := prev[|prev| - 1];
    if j == 1 {
      NoneAfter(x, length);
    } else {
      assert last == After(x, j - 1, length);
    }
    NextAfter(x, j, length);
  }

  // ---------------------------------------------------------------------
  // collectDataList over a resolved chain

  /**
   * A chain as the loop walks it: every list but the last has a next-list
   * link, and the last one has none.
   */
  predicate Linked(chain: seq<DataListBlock>) {
    |chain| >= 1 &&
    (forall k :: 0 <= k < |chain| - 1 ==> !chain[k].nextDataList.IsNil()) &&
    chain[|chain| - 1].nextDataList.IsNil()
  }

  /** The offsets collected from the lists of the chain, in chain order. */
  function CollectedOffsets(chain: seq<DataListBlock>): seq<int64>
    decreases |chain|
  {
    if |chain| == 0 then [] else AddedOffsets(CollectedOffsets(chain[..|chain| - 1]), chain[|chain| - 1])
  }

  /** Link::asLong over a list of links. */
  function Addresses(links: seq<Link>): (r: seq<int64>)
    ensures |r| == |links| && forall i :: 0 <= i < |r| ==> r[i] == links[i].AsLong()
  {
    seq(|links|, i requires 0 <= i < |links| => links[i].AsLong())
  }

  /** collectDataList(input, dataList): the data addresses and offsets of the chain. */
  method CollectDataList(chain: seq<DataListBlock>) returns (links: seq<int64>, offsets: seq<int64>)
    requires Linked(chain)
    ensures links == Addresses(AllData(chain))
    ensures offsets == CollectedOffsets(chain)
  {
    assert chain[..1] == [chain[0]] && [chain[0]][..0] == [];
    var dataLinks := chain[0].data;
    offsets := AddOffsets([], chain[0]);
    var i := 0;
    while !chain[i].nextDataList.IsNil()
      invariant 0 <= i < |chain|
      invariant dataLinks == AllData(chain[..i + 1])
      invariant offsets == CollectedOffsets(chain[..i + 1])
      decreases |chain| - i
    {
      i := i + 1;
      assert chain[..i + 1][..i] == chain[..i];
      dataLinks := dataLinks + chain[i].data;
      offsets := AddOffsets(offsets, chain[i]);
    }
    assert chain[..i + 1] == chain;
    links := Addresses(dataLinks);
  }

  /** Each list adds one offset per data link when its explicit offsets match its links. */
  lemma {:induction false} CollectedOffsetsLength(chain: seq<DataListBlock>)
    requires forall k :: 0 <= k < |chain| ==> Consistent(chain[k])
    decreases |chain|
    ensures |CollectedOffsets(chain)| == |AllData(chain)|
  {
    if |chain| > 0 {
      var init := chain[..|chain| - 1];
      assert forall k :: 0 <= k < |init| ==> init[k] == chain[k];
      CollectedOffsetsLength(init);
    }
  }

  /** With explicit offsets throughout, the collected offsets are their concatenation. */
  lemma {:induction false} CollectedValues(chain: seq<DataListBlock>)
    requires forall k :: 0 <= k < |chain| ==> chain[k].offsetInfo.OffsetsInfo?
    decreases |chain|
    ensures CollectedOffsets(chain) == ConcatOffsets(chain)
  {
    if |chain| > 0 {
      var init := chain[..|chain| - 1];
      assert forall k :: 0 <= k < |init| ==> init[k] == chain[k];
      CollectedValues(init);
    }
  }

  /**
   * With one common length throughout, block i starts at i * length, which
   * is where the merged equal-length offsets of fromList place it.
   */
  lemma {:induction false} CollectedEqualLengths(chain: seq<DataListBlock>, length: int64)
    requires forall k :: 0 <= k < |chain| ==> chain[k].offsetInfo == LengthInfo(length)
    decreases |chain|
    ensures |CollectedOffsets(chain)| == |AllData(chain)|
    ensures forall i :: 0 <= i < |CollectedOffsets(chain)| ==> CollectedOffsets(chain)[i] == Multiple(i, length)
  {
    if |chain| > 0 {
      var init := chain[..|chain| - 1];
      assert forall k :: 0 <= k < |init| ==> init[k] == chain[k];
      CollectedEqualLengths(init, length);
      RunningKeepsMultiples(CollectedOffsets(init), |chain[|chain| - 1].data|, length);
    }
  }

  /**
   * collectDataList and DataList.fromList agree on a chain of one common
   * length: the same addresses, and each collected offset is what the
   * merged offsets report for that block.
   */
  lemma {:induction false} CollectAgreesWithFromList(chain: seq<DataListBlock>, length: int64)
    requires |chain| >= 1 && |AllData(chain)| <= INT_MAX
    requires forall k :: 0 <= k < |chain| ==> chain[k].offsetInfo == LengthInfo(length)
    ensures FromListOf(chain).Ok?
    ensures Addresses(FromListOf(chain).value.dataBlocks) == Addresses(AllData(chain))
    ensures forall i: int32 :: 0 <= i < |CollectedOffsets(chain)| ==>
              Get(FromListOf(chain).value.offsets, i) == Ok(CollectedOffsets(chain)[i])
  {
    MergedEqualLengths(chain, length);
    assert forall k :: 0 <= k < |chain| ==> Consistent(chain[k]);
    FromListKeepsLinks(chain);
    CollectedEqualLengths(chain, length);
  }

  // ---------------------------------------------------------------------
  // collectDataList(input, dataGroup): the kinds of data root

  datatype ZipKind = Deflate | TranspositionDeflate

  /**
   * The data root of a data group, resolved: none, a single data block, a
   * chain of ##DL lists, or a ##HL list with its zip type and its chain (if
   * its first-list link is not NIL).
   */
  datatype DataRoot =
    | NoRoot
    | DataBlockRoot(address: int64)
    | ListRoot(chain: seq<DataListBlock>)
    | HeaderListRoot(zipType: ZipKind, first: Option<seq<DataListBlock>>)

  predicate RootLinked(root: DataRoot) {
    (root.ListRoot? ==> Linked(root.chain)) &&
    (root.HeaderListRoot? && root.first.Some? ==> Linked(root.first.value))
  }

  function ZipTypeName(z: ZipKind): string {
    match z
    case Deflate => "DEFLATE"
    case TranspositionDeflate => "TRANSPOSITION_DEFLATE"
  }

  /** What collectDataList(input, dataGroup) yields for a resolved root. */
  function CollectedRoot(root: DataRoot): (r: Result<(seq<int64>, seq<int64>)>)
    requires RootLinked(root)
    ensures root.NoRoot? ==> r == Ok(([], []))
    ensures root.DataBlockRoot? ==> r == Ok(([root.address], [0]))
    ensures root.ListRoot? ==> r == Ok((Addresses(AllData(root.chain)), CollectedOffsets(root.chain)))
    ensures root.HeaderListRoot? && root.zipType != Deflate ==>
              r == Err(NotImplemented("ZIP type not implemented: " + ZipTypeName(root.zipType)))
    ensures root.HeaderListRoot? && root.zipType == Deflate && root.first.None? ==> r == Ok(([], []))
  {
    match root
    case NoRoot => Ok(([], []))
    case DataBlockRoot(address) => Ok(([address], [0]))
    case ListRoot(chain) => Ok((Addresses(AllData(chain)), CollectedOffsets(chain)))
    case HeaderListRoot(zipType, first) =>
      if zipType != Deflate then Err(NotImplemented("ZIP type not implemented: " + ZipTypeName(zipType)))
      else if first.None? then Ok(([], []))
      else Ok((Addresses(AllData(first.value)), CollectedOffsets(first.value)))
  }

  method CollectRoot(root: DataRoot) returns (r: Result<(seq<int64>, seq<int64>)>)
    requires RootLinked(root)
    ensures r == CollectedRoot(root)
  {
    match root {
      case NoRoot => return Ok(([], []));
      case DataBlockRoot(address) => return Ok(([address], [0]));
      case ListRoot(chain) =>
        var links, offsets := CollectDataList(chain);
        return Ok((links, offsets));
      case HeaderListRoot(zipType, first) =>
        if zipType != Deflate {
          return Err(NotImplemented("ZIP type not implemented: " + ZipTypeName(zipType)));
        }
        if first.None? {
          return Ok(([], []));
        }
        var links, offsets := CollectDataList(first.value);
        return Ok((links, offsets));
    }
  }
}
