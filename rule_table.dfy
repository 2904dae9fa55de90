/**
 * Rule records and the ordered tables that hold them. A PHP array keyed by
 * tag name is an ordered map; it is modelled as a sequence of (name, rule)
 * pairs, and the three array operations the parser uses (key assignment,
 * array_intersect_key and array_diff_key) as functions over such sequences.
 */
module RuleTable {

  datatype Option<T> = None | Some(value: T)

  type Name = string

  /**
   * One tag record. A record from the loaded configuration carries the keys
   * `pattern`, `replace` and `content`. A record built by addTag with
   * compact('search', 'replace', 'content') carries `search` instead of
   * `pattern`.
   */
  datatype Rule =
    | Configured(pattern: string, replace: string, content: string)
    | Added(search: string, replace: string, content: string)

  /** An ordered map from tag name to record, in insertion order. */
  type Table = seq<(Name, Rule)>

  function KeySet(t: Table): set<Name>
  {
    if t == [] then {} else {t[0].0} + KeySet(t[1..])
  }

  /** No name occurs twice (every PHP array has this property). */
  predicate DistinctKeys(t: Table)
  {
    t == [] || (t[0].0 !in KeySet(t[1..]) && DistinctKeys(t[1..]))
  }

  /** `t[k]`: the record stored under `k`, if any. */
  function Lookup(t: Table, k: Name): Option<Rule>
  {
    if t == [] then None else if t[0].0 == k then Some(t[0].1) else Lookup(t[1..], k)
  }

  /** Index of the entry for `k`, or |t| when `k` is absent. */
  function Position(t: Table, k: Name): nat
  {
    if t == [] then 0 else if t[0].0 == k then 0 else 1 + Position(t[1..], k)
  }

  /** Every entry of `a` is the entry of `t` under the same name. */
  ghost predicate SubMap(a: Table, t: Table)
  {
    forall k :: k in KeySet(a) ==> Lookup(a, k) == Lookup(t, k)
  }

  /** The entries of `a` appear in the relative order their names have in `t`. */
  ghost predicate OrderedAsIn(a: Table, t: Table)
  {
    forall i, j :: 0 <= i < j < |a| ==> Position(t, a[i].0) < Position(t, a[j].0)
  }

  /** PHP's `$t[k] = v`: overwrite the entry for `k` where it stands, or append one. */
  function Put(t: Table, k: Name, v: Rule): Table
  {
    if t == [] then [(k, v)]
    else if t[0].0 == k then [(k, v)] + t[1..]
    else [t[0]] + Put(t[1..], k, v)
  }

  /** The entries of `t` whose name passes `keep`, in the order of `t`. */
  function Filter(t: Table, keep: Name -> bool): Table
  {
    if t == [] then []
    else if keep(t[0].0) then [t[0]] + Filter(t[1..], keep)
    else Filter(t[1..], keep)
  }

  /** array_intersect_key(t, array_flip(names)). */
  function IntersectKey(t: Table, names: seq<Name>): Table
  {
    Filter(t, k => k in names)
  }

  /** array_diff_key(t, array_flip(names)). */
  function DiffKey(t: Table, names: seq<Name>): Table
  {
    Filter(t, k => k !in names)
  }

  // ---------------------------------------------------------------------------
  // Lookup, keys and positions

  lemma {:induction false} LookupPresent(t: Table, k: Name)
    ensures Lookup(t, k).Some? <==> k in KeySet(t)
  {
    if t != [] && t[0].0 != k {
      LookupPresent(t[1..], k);
    }
  }

  lemma {:induction false} KeyAt(t: Table, i: nat)
    requires i < |t|
    ensures t[i].0 in KeySet(t)
    ensures DistinctKeys(t) ==> Lookup(t, t[i].0) == Some(t[i].1) && Position(t, t[i].0) == i
  {
    if i > 0 {
      KeyAt(t[1..], i - 1);
      assert t[1..][i - 1] == t[i];
    }
  }

  /** A record found under `k` is the entry at the position of `k`. */
  lemma {:induction false} LookupAt(t: Table, k: Name)
    requires Lookup(t, k).Some?
    ensures Position(t, k) < |t| && t[Position(t, k)] == (k, Lookup(t, k).value)
  {
    if t[0].0 != k {
      LookupAt(t[1..], k);
    }
  }

  /** A sub-map has no names its host lacks. */
  lemma SubMapKeys(a: Table, t: Table)
    requires SubMap(a, t)
    ensures KeySet(a) <= KeySet(t)
  {
    forall k | k in KeySet(a) ensures k in KeySet(t) {
      LookupPresent(a, k);
      LookupPresent(t, k);
    }
  }

  // ---------------------------------------------------------------------------
  // Key assignment

  /** After `$t[k] = v`, `k` holds `v` and every other name holds what it held. */
  lemma {:induction false} PutLookup(t: Table, k: Name, v: Rule, j: Name)
    ensures Lookup(Put(t, k, v), j) == if j == k then Some(v) else Lookup(t, j)
  {
    if t != [] && t[0].0 != k {
      PutLookup(t[1..], k, v, j);
    }
  }

  lemma {:induction false} PutKeySet(t: Table, k: Name, v: Rule)
    ensures KeySet(Put(t, k, v)) == KeySet(t) + {k}
  {
    if t != [] && t[0].0 != k {
      PutKeySet(t[1..], k, v);
    }
  }

  lemma {:induction false} PutDistinct(t: Table, k: Name, v: Rule)
    requires DistinctKeys(t)
    ensures DistinctKeys(Put(t, k, v))
  {
    if t != [] && t[0].0 != k {
      PutDistinct(t[1..], k, v);
      PutKeySet(t[1..], k, v);
    }
  }

  /** Every entry after `$t[k] = v` is the new one or an entry `t` already had. */
  lemma {:induction false} PutEntries(t: Table, k: Name, v: Rule)
    ensures forall i :: 0 <= i < |Put(t, k, v)| ==> Put(t, k, v)[i] == (k, v) || Put(t, k, v)[i] in t
  {
    if t != [] && t[0].0 != k {
      PutEntries(t[1..], k, v);
      forall i | 0 <= i < |Put(t, k, v)| ensures Put(t, k, v)[i] == (k, v) || Put(t, k, v)[i] in t {
        if i > 0 {
          assert Put(t, k, v)[i] == Put(t[1..], k, v)[i - 1];
        }
      }
    }
  }

  /** An existing name is overwritten at its own position; nothing else moves. */
  lemma {:induction false} PutOverwritesInPlace(t: Table, k: Name, v: Rule)
    requires k in KeySet(t)
    ensures |Put(t, k, v)| == |t|
    ensures forall i :: 0 <= i < |t| ==> Put(t, k, v)[i] == if i == Position(t, k) then (k, v) else t[i]
  {
    if t[0].0 != k {
      PutOverwritesInPlace(t[1..], k, v);
      forall i | 0 <= i < |t|
        ensures Put(t, k, v)[i] == if i == Position(t, k) then (k, v) else t[i]
      {
        if i > 0 {
          assert Put(t, k, v)[i] == Put(t[1..], k, v)[i - 1];
        }
      }
    }
  }

  /** A new name is appended after every existing entry. */
  lemma {:induction false} PutAppends(t: Table, k: Name, v: Rule)
    requires k !in KeySet(t)
    ensures Put(t, k, v) == t + [(k, v)]
  {
    if t != [] {
      PutAppends(t[1..], k, v);
      assert t == [t[0]] + t[1..];
    }
  }

  // ---------------------------------------------------------------------------
  // Filtering

  /** A filtered table holds exactly the records of the names that pass. */
  lemma {:induction false} FilterLookup(t: Table, keep: Name -> bool, k: Name)
    ensures Lookup(Filter(t, keep), k) == if keep(k) then Lookup(t, k) else None
  {
    if t != [] {
      FilterLookup(t[1..], keep, k);
    }
  }

  lemma {:induction false} FilterKeySet(t: Table, keep: Name -> bool)
    ensures KeySet(Filter(t, keep)) == set k | k in KeySet(t) && keep(k)
  {
    if t != [] {
      FilterKeySet(t[1..], keep);
    }
  }

  /** Filtering a table with distinct names keeps them distinct and keeps the order of `t`. */
  lemma {:induction false} FilterKeepsOrder(t: Table, keep: Name -> bool)
    requires DistinctKeys(t)
    ensures DistinctKeys(Filter(t, keep))
    ensures OrderedAsIn(Filter(t, keep), t)
  {
    if t != [] {
      var rest := Filter(t[1..], keep);
      FilterKeepsOrder(t[1..], keep);
      FilterKeySet(t[1..], keep);
      assert KeySet(rest) <= KeySet(t[1..]);
      // No entry of `rest` is named t[0].0, so its positions in `t` are one more than in t[1..].
      forall i | 0 <= i < |rest|
        ensures rest[i].0 != t[0].0 && Position(t, rest[i].0) == 1 + Position(t[1..], rest[i].0)
      {
        KeyAt(rest, i);
      }
      if keep(t[0].0) {
        var r := [t[0]] + rest;
        assert Filter(t, keep) == r;
        forall i, j | 0 <= i < j < |r|
          ensures Position(t, r[i].0) < Position(t, r[j].0)
        {
          assert r[j] == rest[j - 1];
          if i > 0 {
            assert r[i] == rest[i - 1];
          }
        }
      }
    }
  }

  /** A filtered table is a sub-map of the table it came from. */
  lemma FilterSubMap(t: Table, keep: Name -> bool)
    ensures SubMap(Filter(t, keep), t)
  {
    forall k | k in KeySet(Filter(t, keep))
      ensures Lookup(Filter(t, keep), k) == Lookup(t, k)
    {
      FilterKeySet(t, keep);
      FilterLookup(t, keep, k);
    }
  }

  /** Only the verdict of `keep` on the names of `t` matters. */
  lemma {:induction false} FilterExtensional(t: Table, keep1: Name -> bool, keep2: Name -> bool)
    requires forall k :: k in KeySet(t) ==> keep1(k) == keep2(k)
    ensures Filter(t, keep1) == Filter(t, keep2)
  {
    if t != [] {
      FilterExtensional(t[1..], keep1, keep2);
    }
  }

  lemma {:induction false} FilterAll(t: Table, keep: Name -> bool)
    requires forall k :: k in KeySet(t) ==> keep(k)
    ensures Filter(t, keep) == t
  {
    if t != [] {
      FilterAll(t[1..], keep);
      assert t == [t[0]] + t[1..];
    }
  }

  lemma {:induction false} FilterNone(t: Table, keep: Name -> bool)
    requires forall k :: k in KeySet(t) ==> !keep(k)
    ensures Filter(t, keep) == []
  {
    if t != [] {
      FilterNone(t[1..], keep);
    }
  }

  // ---------------------------------------------------------------------------
  // array_intersect_key and array_diff_key by name list

  /**
   * `IntersectKey(t, names)` is exactly the entries of `t` named in `names`:
   * it holds their records, no other names, in the order of `t`.
   */
  lemma IntersectKeyMeaning(t: Table, names: seq<Name>)
    requires DistinctKeys(t)
    ensures DistinctKeys(IntersectKey(t, names)) && OrderedAsIn(IntersectKey(t, names), t)
    ensures KeySet(IntersectKey(t, names)) == set k | k in KeySet(t) && k in names
    ensures forall k :: Lookup(IntersectKey(t, names), k) == if k in names then Lookup(t, k) else None
  {
    FilterKeepsOrder(t, k => k in names);
    FilterKeySet(t, k => k in names);
    forall k ensures Lookup(IntersectKey(t, names), k) == if k in names then Lookup(t, k) else None {
      FilterLookup(t, k => k in names, k);
    }
  }

  /** `DiffKey(t, names)` is `t` without the entries named in `names`, in the order of `t`. */
  lemma DiffKeyMeaning(t: Table, names: seq<Name>)
    requires DistinctKeys(t)
    ensures DistinctKeys(DiffKey(t, names)) && OrderedAsIn(DiffKey(t, names), t)
    ensures KeySet(DiffKey(t, names)) == set k | k in KeySet(t) && k !in names
    ensures forall k :: Lookup(DiffKey(t, names), k) == if k in names then None else Lookup(t, k)
  {
    FilterKeepsOrder(t, k => k !in names);
    FilterKeySet(t, k => k !in names);
    forall k ensures Lookup(DiffKey(t, names), k) == if k in names then None else Lookup(t, k) {
      FilterLookup(t, k => k !in names, k);
    }
  }

  /** The order of the names, and repeats among them, do not change the result. */
  lemma IntersectKeyIgnoresNameOrder(t: Table, names1: seq<Name>, names2: seq<Name>)
    requires forall k :: k in names1 <==> k in names2
    ensures IntersectKey(t, names1) == IntersectKey(t, names2)
    ensures DiffKey(t, names1) == DiffKey(t, names2)
  {
    FilterExtensional(t, k => k in names1, k => k in names2);
    FilterExtensional(t, k => k !in names1, k => k !in names2);
  }

  /** Names `t` lacks are ignored: only the names of `t` in the list matter. */
  lemma IntersectKeyIgnoresUnknownNames(t: Table, names: seq<Name>, unknown: seq<Name>)
    requires forall k :: k in unknown ==> k !in KeySet(t)
    ensures IntersectKey(t, names + unknown) == IntersectKey(t, names)
    ensures DiffKey(t, names + unknown) == DiffKey(t, names)
  {
    FilterExtensional(t, k => k in names + unknown, k => k in names);
    FilterExtensional(t, k => k !in names + unknown, k => k !in names);
  }

  lemma IntersectKeyEmpty(t: Table)
    ensures IntersectKey(t, []) == []
    ensures DiffKey(t, []) == t
  {
    FilterNone(t, k => k in []);
    FilterAll(t, k => k !in []);
  }

  /** Restricting twice to the same names is restricting once. */
  lemma {:induction false} IntersectKeyIdempotent(t: Table, names: seq<Name>)
    ensures IntersectKey(IntersectKey(t, names), names) == IntersectKey(t, names)
  {
    FilterKeySet(t, k => k in names);
    FilterAll(IntersectKey(t, names), k => k in names);
  }

  /** The names kept by IntersectKey and by DiffKey split the names of `t` in two. */
  lemma IntersectDiffPartition(t: Table, names: seq<Name>)
    ensures KeySet(IntersectKey(t, names)) * KeySet(DiffKey(t, names)) == {}
    ensures KeySet(IntersectKey(t, names)) + KeySet(DiffKey(t, names)) == KeySet(t)
  {
    FilterKeySet(t, k => k in names);
    FilterKeySet(t, k => k !in names);
  }

  /**
   * Enabled order can drift from load order: enable only "b", then assign
   * "a" (already loaded first) in both tables, and "a" ends up after "b" in
   * the enabled table although it precedes "b" in the full one.
   */
  lemma AssignmentCanReorderSubset(ra: Rule, rb: Rule, r: Rule)
    ensures var t := [("a", ra), ("b", rb)];
            var enabled := IntersectKey(t, ["b"]);
            Put(t, "a", r) == [("a", r), ("b", rb)] &&
            Put(enabled, "a", r) == [("b", rb), ("a", r)] &&
            !OrderedAsIn(Put(enabled, "a", r), Put(t, "a", r))
  {
    var t := [("a", ra), ("b", rb)];
    assert t[1..] == [("b", rb)];
    var keep := k => k in ["b"];
    assert !keep("a") && keep("b");
    assert Filter(t[1..][1..], keep) == [];
    assert Filter(t[1..], keep) == [("b", rb)];
    assert IntersectKey(t, ["b"]) == [("b", rb)];
    var t', e' := [("a", r), ("b", rb)], [("b", rb), ("a", r)];
    assert t'[1..] == [("b", rb)] && e'[1..] == [("a", r)];
    assert Position(t', "b") == 1 && Position(t', "a") == 0;
    assert Position(t', e'[0].0) > Position(t', e'[1].0);
  }
}
