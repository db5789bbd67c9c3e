// The data blocks of a data group as one list: their links, in order, and
// the offsets at which each block starts in the concatenated data. A chain
// of ##DL blocks is flattened by appending their links and merging their
// offsets.

module DataLists {
  import opened JavaTypes
  import opened Results
  import opened Links
  import opened Offsets
  import opened DataListBlocks

  datatype DataList = DataList(dataBlocks: seq<Link>, offsets: Offsets)

  /** new DataList(dataBlocks, offsets): a block count that differs from the offset count is refused. */
  function NewDataList(dataBlocks: seq<Link>, offsets: Offsets): (r: Result<DataList>)
    ensures r.Ok? <==> |dataBlocks| == Size(offsets)
    ensures r.Ok? ==> r.value == DataList(dataBlocks, offsets)
    ensures r.Err? ==> r.error == IllegalArgument("dataBlocks and offsets must have equal size")
  {
    if |dataBlocks| != Size(offsets) then Err(IllegalArgument("dataBlocks and offsets must have equal size"))
    else Ok(DataList(dataBlocks, offsets))
  }

  /** empty(): no blocks, no offsets. */
  function Empty(): (d: DataList)
    ensures |d.dataBlocks| == 0 && Size(d.offsets) == 0 && WellFormed(d.offsets)
    ensures NewDataList(d.dataBlocks, d.offsets) == Ok(d)
  {
    NewDataList([], NewValues([]).value).value
  }

  /** single(link): one block, starting at offset 0. */
  function Single(link: Link): (d: DataList)
    ensures d.dataBlocks == [link] && Size(d.offsets) == 1 && Get(d.offsets, 0) == Ok(0)
    ensures WellFormed(d.offsets) && NewDataList(d.dataBlocks, d.offsets) == Ok(d)
  {
    NewDataList([link], NewValues([0]).value).value
  }

  const LENGTHS_DIFFER := FormatError("Lengths of equal length data list differ")
  const MIXED_LISTS := FormatError("Mix of equal length and non-equal length data lists")

  /**
   * mergeOffsets(a, b): null takes b; two equal-length offsets of the same
   * length add their counts in int arithmetic; explicit offsets concatenate.
   */
  function MergeOffsets(a: Option<Offsets>, b: Offsets): (r: Result<Offsets>)
    ensures a.None? ==> r == Ok(b)
    ensures a.Some? && a.value.EqualLength? && b.EqualLength? ==>
              if a.value.length != b.length then r == Err(LENGTHS_DIFFER)
              else r == Ok(EqualLength(Wrap32(a.value.number + b.number), b.length))
    ensures a.Some? && a.value.EqualLength? != b.EqualLength? ==> r == Err(MIXED_LISTS)
    ensures a.Some? && a.value.Values? && b.Values? && WellFormed(a.value) && WellFormed(b) &&
            |a.value.offsets| + |b.offsets| <= INT_MAX ==>
              r == Ok(Values(a.value.offsets + b.offsets)) && WellFormed(r.value)
  {
    match a
    case None => Ok(b)
    case Some(EqualLength(number1, length1)) =>
      (match b
       case EqualLength(number2, length2) =>
         if length1 != length2 then Err(LENGTHS_DIFFER)
         else NewEqualLength(Wrap32(number1 + number2), length2)
       case Values(_) => Err(MIXED_LISTS))
    case Some(Values(offsets1)) =>
      (match b
       case EqualLength(_, _) => Err(MIXED_LISTS)
       case Values(offsets2) =>
         if |offsets1| + |offsets2| > INT_MAX then Err(IllegalArgument("Stream size exceeds max array size"))
         else NewValues(offsets1 + offsets2))
  }

  // ---------------------------------------------------------------------
  // fromList: the do-while loop over the chain of ##DL blocks. Resolving
  // the next-list links is file input; the chain arrives resolved, first
  // list first, and ends where a next-list link is NIL.

  /** The data links of the lists, in chain order. */
  function AllData(chain: seq<DataListBlock>): seq<Link>
    decreases |chain|
  {
    if |chain| == 0 then [] else AllData(chain[..|chain| - 1]) + chain[|chain| - 1].data
  }

  /** The offsets of the lists merged in chain order; None for no lists. */
  function MergedOffsets(chain: seq<DataListBlock>): (r: Result<Option<Offsets>>)
    decreases |chain|
    ensures r.Ok? ==> (r.value.Some? <==> |chain| >= 1)
  {
    if |chain| == 0 then Ok(None)
    else
      var acc :- MergedOffsets(chain[..|chain| - 1]);
      var o :- OffsetsOf(chain[|chain| - 1]);
      var m :- MergeOffsets(acc, o);
      Ok(Some(m))
  }

  /** What fromList yields for a resolved chain. */
  function FromListOf(chain: seq<DataListBlock>): (r: Result<DataList>)
    requires |chain| >= 1
  {
    var m :- MergedOffsets(chain);
    NewDataList(AllData(chain), m.value)
  }

  /** A failure while merging a prefix of the chain is the failure of the whole chain. */
  lemma {:induction false} MergeFailureStops(chain: seq<DataListBlock>, k: nat)
    requires k <= |chain|
    requires MergedOffsets(chain[..k]).Err?
    decreases |chain|
    ensures MergedOffsets(chain) == MergedOffsets(chain[..k])
  {
    if k < |chain| {
      var init := chain[..|chain| - 1];
      assert init[..k] == chain[..k];
      MergeFailureStops(init, k);
    } else {
      assert chain[..k] == chain;
    }
  }

  method FromList(chain: seq<DataListBlock>) returns (r: Result<DataList>)
    requires |chain| >= 1
    ensures r == FromListOf(chain)
    ensures r.Ok? ==> r.value.dataBlocks == AllData(chain)
  {
    var resultLinks: seq<Link> := [];
    var resultOffsets: Option<Offsets> := None;
    var i := 0;
    while true
      invariant 0 <= i < |chain|
      invariant resultLinks == AllData(chain[..i])
      invariant MergedOffsets(chain[..i]) == Ok(resultOffsets)
      decreases |chain| - i
    {
      assert chain[..i + 1][..i] == chain[..i];
      var o := OffsetsOf(chain[i]);
      if o.Err? {
        MergeFailureStops(chain, i + 1);
        return Err(o.error);
      }
      var m := MergeOffsets(resultOffsets, o.value);
      if m.Err? {
        MergeFailureStops(chain, i + 1);
        return Err(m.error);
      }
      resultOffsets := Some(m.value);
      resultLinks := resultLinks + chain[i].data;
      i := i + 1;
      if i == |chain| {
        break;
      }
    }
    assert chain[..i] == chain;
    return NewDataList(resultLinks, resultOffsets.value);
  }

  // ---------------------------------------------------------------------
  // What fromList yields.

  /**
   * Merged offsets count one block per data link as long as the links fit an
   * int: the count sum of equal-length lists then does not wrap.
   */
  lemma {:induction false} MergedOffsetsSize(chain: seq<DataListBlock>)
    requires MergedOffsets(chain).Ok? && |chain| >= 1
    requires forall k :: 0 <= k < |chain| ==> Consistent(chain[k])
    requires |AllData(chain)| <= INT_MAX
    decreases |chain|
    ensures Size(MergedOffsets(chain).value.value) == |AllData(chain)|
  {
    var init := chain[..|chain| - 1];
    var last := chain[|chain| - 1];
    var acc := MergedOffsets(init).value;
    var o := OffsetsOf(last).value;
    OffsetsOfSize(last);
    if |init| >= 1 {
      assert forall k :: 0 <= k < |init| ==> init[k] == chain[k];
      MergedOffsetsSize(init);
      var a := acc.value;
      if a.EqualLength? && o.EqualLength? {
        Wrap32Exact(a.number + o.number);
      }
    }
  }

  /**
   * fromList succeeds exactly when the merge does, if the links fit an int;
   * the list keeps every data link of the chain, in chain order.
   */
  lemma {:induction false} FromListKeepsLinks(chain: seq<DataListBlock>)
    requires |chain| >= 1 && |AllData(chain)| <= INT_MAX
    requires forall k :: 0 <= k < |chain| ==> Consistent(chain[k])
    ensures FromListOf(chain).Ok? <==> MergedOffsets(chain).Ok?
    ensures FromListOf(chain).Ok? ==>
              FromListOf(chain).value == DataList(AllData(chain), MergedOffsets(chain).value.value)
  {
    if MergedOffsets(chain).Ok? {
      MergedOffsetsSize(chain);
    }
  }

  /** A chain of explicit offsets merges into their concatenation. */
  function ConcatOffsets(chain: seq<DataListBlock>): seq<int64>
    requires forall k :: 0 <= k < |chain| ==> chain[k].offsetInfo.OffsetsInfo?
    decreases |chain|
  {
    if |chain| == 0 then []
    else ConcatOffsets(chain[..|chain| - 1]) + chain[|chain| - 1].offsetInfo.offsets
  }

  lemma {:induction false} MergedValuesConcatenate(chain: seq<DataListBlock>)
    requires |chain| >= 1 && MergedOffsets(chain).Ok?
    requires forall k :: 0 <= k < |chain| ==> chain[k].offsetInfo.OffsetsInfo?
    decreases |chain|
    ensures MergedOffsets(chain).value.value.Values?
    ensures MergedOffsets(chain).value.value.offsets == ConcatOffsets(chain)
  {
    var init := chain[..|chain| - 1];
    if |init| >= 1 {
      assert forall k :: 0 <= k < |init| ==> init[k] == chain[k];
      MergedValuesConcatenate(init);
    }
  }

  /** Equal-length lists of one common length merge into that length and the total count. */
  lemma {:induction false} MergedEqualLengths(chain: seq<DataListBlock>, length: int64)
    requires |chain| >= 1 && |AllData(chain)| <= INT_MAX
    requires forall k :: 0 <= k < |chain| ==> chain[k].offsetInfo == LengthInfo(length)
    decreases |chain|
    ensures MergedOffsets(chain) == Ok(Some(EqualLength(|AllData(chain)|, length)))
  {
    var init := chain[..|chain| - 1];
    if |init| >= 1 {
      assert forall k :: 0 <= k < |init| ==> init[k] == chain[k];
      MergedEqualLengths(init, length);
      Wrap32Exact(|AllData(chain)|);
    }
  }
}
