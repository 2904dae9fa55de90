/**
 * The BBCode parser: a full tag table, the enabled subset of it, and the
 * operations that choose, extend and apply them.
 */
module BBCode {
  import opened Regex
  import opened RuleTable
  import opened Rewriting

  class Parser {
    /** Enabled tags, the ones parse applies. */
    var enabledTags: Table
    /** Every loaded tag, the ones stripTags applies. */
    var tags: Table

    /**
     * Both tables are PHP arrays (distinct names), and every enabled entry
     * is the entry of the full table under the same name.
     */
    ghost predicate Valid()
      reads this
    {
      && DistinctKeys(tags)
      && DistinctKeys(enabledTags)
      && SubMap(enabledTags, tags)
    }

    constructor (tags: Table)
      requires DistinctKeys(tags)
      ensures Valid()
      ensures this.tags == tags && enabledTags == tags
    {
      this.tags := tags;
      enabledTags := tags;
    }

    /** Repeats test-and-replace of (pattern, replace) until `pattern` no longer matches. */
    method SearchAndReplace(e: Engine, pattern: string, replace: string, source: string) returns (r: string)
      requires Converges(e, pattern, replace)
      ensures r == Settle(e, pattern, replace, source)
      ensures !e.matches(pattern, r)
      ensures !e.matches(pattern, source) ==> r == source
    {
      r := source;
      while e.matches(pattern, r)
        invariant Settle(e, pattern, replace, r) == Settle(e, pattern, replace, source)
        decreases e.measure(pattern, replace, r)
      {
        r := e.replaceAll(pattern, replace, r);
      }
    }

    /** Applies every enabled tag in order, with `i` appended to each pattern when asked. */
    method Parse(e: Engine, source: string, caseInsensitive: bool) returns (r: Result<string>)
      requires ReachableConverge(e, enabledTags, caseInsensitive, Replace)
      ensures r == Rewrite(e, enabledTags, source, caseInsensitive, Replace)
    {
      var s := source;
      var i := 0;
      while i < |enabledTags|
        invariant 0 <= i <= |enabledTags|
        invariant ReachableConverge(e, enabledTags[i..], caseInsensitive, Replace)
        invariant Rewrite(e, enabledTags, source, caseInsensitive, Replace) ==
                  Rewrite(e, enabledTags[i..], s, caseInsensitive, Replace)
      {
        var (name, parser) := enabledTags[i];
        assert enabledTags[i..][0] == (name, parser) && enabledTags[i..][1..] == enabledTags[i + 1..];
        match PatternOf(parser) {
          case None =>
            return Err(MissingPattern(name));
          case Some(p) =>
            var pattern := Effective(p, caseInsensitive);
            s := SearchAndReplace(e, pattern, parser.replace, s);
        }
        i := i + 1;
      }
      assert enabledTags[i..] == [];
      return Ok(s);
    }

    /** Applies every loaded tag in order, case-insensitively, substituting `content`. */
    method StripTags(e: Engine, source: string) returns (r: Result<string>)
      requires ReachableConverge(e, tags, true, Content)
      ensures r == Rewrite(e, tags, source, true, Content)
    {
      var s := source;
      var i := 0;
      while i < |tags|
        invariant 0 <= i <= |tags|
        invariant ReachableConverge(e, tags[i..], true, Content)
        invariant Rewrite(e, tags, source, true, Content) == Rewrite(e, tags[i..], s, true, Content)
      {
        var (name, parser) := tags[i];
        assert tags[i..][0] == (name, parser) && tags[i..][1..] == tags[i + 1..];
        match PatternOf(parser) {
          case None =>
            return Err(MissingPattern(name));
          case Some(p) =>
            s := SearchAndReplace(e, Effective(p, true), parser.content, s);
        }
        i := i + 1;
      }
      assert tags[i..] == [];
      return Ok(s);
    }

    method ParseCaseSensitive(e: Engine, source: string) returns (r: Result<string>)
      requires ReachableConverge(e, enabledTags, false, Replace)
      ensures r == Rewrite(e, enabledTags, source, false, Replace)
    {
      r := Parse(e, source, false);
    }

    method ParseCaseInsensitive(e: Engine, source: string) returns (r: Result<string>)
      requires ReachableConverge(e, enabledTags, true, Replace)
      ensures r == Rewrite(e, enabledTags, source, true, Replace)
    {
      r := Parse(e, source, true);
    }

    /** Enables exactly the loaded tags named in `names`, in the order they were loaded. */
    method Only(names: seq<Name>) returns (self: Parser)
      requires Valid()
      modifies this
      ensures Valid() && self == this
      ensures tags == old(tags)
      ensures enabledTags == IntersectKey(tags, names)
    {
      enabledTags := IntersectKey(tags, names);
      IntersectKeyMeaning(tags, names);
      FilterSubMap(tags, k => k in names);
      self := this;
    }

    /** Enables every loaded tag not named in `names`, in the order they were loaded. */
    method Except(names: seq<Name>) returns (self: Parser)
      requires Valid()
      modifies this
      ensures Valid() && self == this
      ensures tags == old(tags)
      ensures enabledTags == DiffKey(tags, names)
    {
      enabledTags := DiffKey(tags, names);
      DiffKeyMeaning(tags, names);
      FilterSubMap(tags, k => k !in names);
      self := this;
    }

    /** The enabled tags; nothing changes. */
    method GetAllBBCodes() returns (r: Table)
      requires Valid()
      ensures r == enabledTags
      ensures DistinctKeys(r) && KeySet(r) <= KeySet(tags)
    {
      r := enabledTags;
      SubMapKeys(enabledTags, tags);
    }

    /**
     * Stores the record {search, replace, content} under `name` in both
     * tables: in place where the name already stands, at the end otherwise.
     */
    method AddTag(name: Name, search: string, replace: string, content: string) returns (self: Parser)
      requires Valid()
      modifies this
      ensures Valid() && self == this
      ensures tags == Put(old(tags), name, Added(search, replace, content))
      ensures enabledTags == Put(old(enabledTags), name, Added(search, replace, content))
      ensures Lookup(tags, name) == Some(Added(search, replace, content))
      ensures Lookup(enabledTags, name) == Some(Added(search, replace, content))
      ensures forall k :: k != name ==> Lookup(tags, k) == Lookup(old(tags), k)
      ensures forall k :: k != name ==> Lookup(enabledTags, k) == Lookup(old(enabledTags), k)
    {
      var record := Added(search, replace, content);
      ghost var oldTags, oldEnabled := tags, enabledTags;
      tags := Put(tags, name, record);
      PutLookup(oldTags, name, record, name);
      enabledTags := Put(enabledTags, name, Lookup(tags, name).value);
      PutKeySet(oldTags, name, record);
      PutDistinct(oldTags, name, record);
      PutDistinct(oldEnabled, name, record);
      PutKeySet(oldEnabled, name, record);
      forall k ensures Lookup(tags, k) == (if k == name then Some(record) else Lookup(oldTags, k))
                    && Lookup(enabledTags, k) == (if k == name then Some(record) else Lookup(oldEnabled, k))
      {
        PutLookup(oldTags, name, record, k);
        PutLookup(oldEnabled, name, record, k);
      }
      self := this;
    }
  }

  /** Narrowing the enabled tags with only or except never changes what stripTags returns. */
  method StripTagsIgnoresSubsetting(p: Parser, e: Engine, names: seq<Name>, source: string)
    returns (before: Result<string>, afterOnly: Result<string>, afterExcept: Result<string>)
    requires p.Valid() && ReachableConverge(e, p.tags, true, Content)
    modifies p
    ensures afterOnly == before && afterExcept == before
  {
    before := p.StripTags(e, source);
    var _ := p.Only(names);
    afterOnly := p.StripTags(e, source);
    var _ := p.Except(names);
    afterExcept := p.StripTags(e, source);
  }

  /**
   * A tag registered by addTag is stored without a `pattern` key, so a
   * later parse reaches it and fails with that tag's name, whatever `source` is.
   */
  method ParseAfterAddTag(p: Parser, e: Engine, name: Name, search: string, replace: string, content: string,
                          source: string, caseInsensitive: bool) returns (r: Result<string>)
    requires p.Valid() && ReachableConverge(e, p.enabledTags, caseInsensitive, Replace)
    modifies p
    ensures r.Err?
  {
    var _ := p.AddTag(name, search, replace, content);
    PutAddedKeepsReachableConverge(e, old(p.enabledTags), name, Added(search, replace, content), caseInsensitive, Replace);
    r := p.Parse(e, source, caseInsensitive);
    LookupAt(p.enabledTags, name);
    RewriteFailsAtFirstMissingPattern(e, p.enabledTags, source, caseInsensitive, Replace);
    assert PatternOf(p.enabledTags[Position(p.enabledTags, name)].1).None?;
  }
}
