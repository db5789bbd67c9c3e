// A link is the absolute file position of a block, 0 standing for NIL. The
// address is a value; the block that resolve caches lives in a small object
// that pairs the address with its mutable loaded field.

module Links {
  import opened JavaTypes
  import opened Results
  import opened Io

  datatype Link = Link(raw: int64)
  {
    predicate IsNil() {
      raw == 0
    }

    function AsLong(): int64 {
      raw
    }
  }

  const NIL: Link := Link(0)

  /** Link.of: 0 gives NIL, any other address a link to it. */
  function Of(raw: int64): (l: Link)
    ensures l.AsLong() == raw
    ensures l.IsNil() <==> raw == 0
    ensures raw == 0 ==> l == NIL
  {
    if raw == 0 then NIL else Link(raw)
  }

  /** Links are equal exactly when their addresses are. */
  lemma {:induction false} OfInjective(x: int64, y: int64)
    ensures Of(x) == Of(y) <==> x == y
  {
    assert Of(x).AsLong() == x && Of(y).AsLong() == y;
  }

  /**
   * A block type's parser, given as what it yields for the file's bytes when
   * started at a position.
   */
  type Parser<T> = (seq<byte>, int) -> Result<T>

  /** resolveNonCached: NIL gives nothing; otherwise seek to the address and parse. */
  function Resolved<T>(link: Link, parse: Parser<T>, bytes: seq<byte>): (r: Result<Option<T>>)
    ensures link.IsNil() ==> r == Ok(None)
    ensures !link.IsNil() && SeekCheck(link.raw, |bytes|).Err? ==> r == Err(SeekCheck(link.raw, |bytes|).error)
    ensures !link.IsNil() && SeekCheck(link.raw, |bytes|).Ok? ==> r == parse(bytes, link.raw).Map(b => Some(b))
  {
    if link.IsNil() then Ok(None)
    else
      var _ :- SeekCheck(link.raw, |bytes|);
      parse(bytes, link.raw).Map(b => Some(b))
  }

  /** A Link<T> with its cache of the block it points to. */
  class CachedLink<T> {
    const link: Link
    var loaded: Option<T>
    /** How often the parser has been run for this link. */
    ghost var parses: nat

    constructor(link: Link)
      ensures this.link == link && loaded == None && parses == 0
    {
      this.link := link;
      loaded := None;
      parses := 0;
    }

    /**
     * resolve: NIL yields nothing without touching the input. Otherwise the
     * first successful parse is kept, and later calls return it without
     * parsing again.
     */
    method Resolve(parse: Parser<T>, input: ByteInput) returns (r: Result<Option<T>>)
      requires input.Valid()
      modifies this, input
      ensures input.Valid() && input.bytes == old(input.bytes)
      ensures link.IsNil() ==> r == Ok(None) && input.pos == old(input.pos) && unchanged(this)
      ensures !link.IsNil() && old(loaded).Some? ==>
                r == Ok(old(loaded)) && input.pos == old(input.pos) && unchanged(this)
      ensures !link.IsNil() && old(loaded).None? ==>
                r == Resolved(link, parse, old(input.bytes)) &&
                parses == old(parses) + (if SeekCheck(link.raw, |input.bytes|).Ok? then 1 else 0) &&
                loaded == (if r.Ok? then r.value else None)
    {
      if !link.IsNil() {
        if loaded.None? {
          var _ :- input.Seek(link.raw);
          var block := parse(input.bytes, input.pos);
          parses := parses + 1;
          if block.Err? {
            return Err(block.error);
          }
          loaded := Some(block.value);
        }
        return Ok(loaded);
      }
      return Ok(None);
    }

    /** resolveNonCached: seeks and parses on every call; the cache is not consulted. */
    method ResolveNonCached(parse: Parser<T>, input: ByteInput) returns (r: Result<Option<T>>)
      requires input.Valid()
      modifies this, input
      ensures input.Valid() && input.bytes == old(input.bytes)
      ensures r == Resolved(link, parse, old(input.bytes))
      ensures loaded == old(loaded)
      ensures parses == old(parses) + (if !link.IsNil() && SeekCheck(link.raw, |input.bytes|).Ok? then 1 else 0)
      ensures link.IsNil() ==> input.pos == old(input.pos)
    {
      if !link.IsNil() {
        var _ :- input.Seek(link.raw);
        var block := parse(input.bytes, input.pos);
        parses := parses + 1;
        return block.Map(b => Some(b));
      }
      return Ok(None);
    }
  }

  /** Resolving twice parses once; the second call returns the first call's block. */
  method ResolveTwice<T>(l: CachedLink<T>, parse: Parser<T>, input: ByteInput)
      returns (first: Result<Option<T>>, second: Result<Option<T>>)
    requires input.Valid() && l.loaded.None? && !l.link.IsNil()
    modifies l, input
    ensures first == Resolved(l.link, parse, old(input.bytes))
    ensures first.Ok? ==> second == first && l.parses == old(l.parses) + 1
  {
    first := l.Resolve(parse, input);
    second := l.Resolve(parse, input);
  }
}
