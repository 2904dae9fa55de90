/**
 * The rule-by-rule rewrite that parse and stripTags perform: each rule of a
 * table, in table order, is settled on the output of the rule before it.
 */
module Rewriting {
  import opened Regex
  import opened RuleTable

  /** Which template of a record a pass substitutes: `replace` (parse) or `content` (stripTags). */
  datatype Template = Replace | Content

  /** Reading the `pattern` key of a record that has none (a record made by addTag). */
  datatype Error = MissingPattern(name: Name)

  datatype Result<T> = Ok(value: T) | Err(error: Error)

  /** `$parser['pattern']`: present on configured records only. */
  function PatternOf(r: Rule): Option<string>
  {
    match r
    case Configured(pattern, _, _) => Some(pattern)
    case Added(_, _, _) => None
  }

  function TemplateOf(r: Rule, which: Template): string
  {
    if which == Replace then r.replace else r.content
  }

  /**
   * The pattern handed to the engine: the stored pattern, with the modifier
   * `i` appended exactly when the pass is case-insensitive.
   */
  function Effective(p: string, caseInsensitive: bool): (q: string)
    ensures |p| <= |q| && q[..|p|] == p
    ensures caseInsensitive <==> |q| == |p| + 1
    ensures caseInsensitive ==> q[|p|] == 'i'
    ensures !caseInsensitive ==> q == p
  {
    if caseInsensitive then p + "i" else p
  }

  /**
   * Every rule a pass over `t` reaches settles: each configured rule up to
   * the first record without a `pattern`, where the pass stops.
   */
  ghost predicate ReachableConverge(e: Engine, t: Table, caseInsensitive: bool, which: Template)
    decreases |t|
  {
    t == [] ||
    match PatternOf(t[0].1)
    case None => true
    case Some(p) =>
      Converges(e, Effective(p, caseInsensitive), TemplateOf(t[0].1, which)) &&
      ReachableConverge(e, t[1..], caseInsensitive, which)
  }

  /**
   * The result of folding table `t` over `s`: each rule's pattern is settled
   * with its template, and the output goes on to the next rule. A record
   * without a `pattern` key stops the fold with an error.
   */
  function Rewrite(e: Engine, t: Table, s: string, caseInsensitive: bool, which: Template): Result<string>
    requires ReachableConverge(e, t, caseInsensitive, which)
    decreases |t|
  {
    if t == [] then Ok(s)
    else
      match PatternOf(t[0].1)
      case None => Err(MissingPattern(t[0].0))
      case Some(p) =>
        var s' := Settle(e, Effective(p, caseInsensitive), TemplateOf(t[0].1, which), s);
        Rewrite(e, t[1..], s', caseInsensitive, which)
  }

  /** Text that no pattern of the table matches comes back unchanged. */
  lemma {:induction false} RewriteQuiet(e: Engine, t: Table, s: string, caseInsensitive: bool, which: Template)
    requires ReachableConverge(e, t, caseInsensitive, which)
    requires forall i :: 0 <= i < |t| ==> PatternOf(t[i].1).Some?
    requires forall i :: 0 <= i < |t| ==> !e.matches(Effective(PatternOf(t[i].1).value, caseInsensitive), s)
    ensures Rewrite(e, t, s, caseInsensitive, which) == Ok(s)
  {
    if t != [] {
      assert PatternOf(t[0].1).Some?;
      RewriteQuiet(e, t[1..], s, caseInsensitive, which);
    }
  }

  /** Folding `a + b` is folding `a` and then folding `b` over its output. */
  lemma {:induction false} RewriteAppend(e: Engine, a: Table, b: Table, s: string, caseInsensitive: bool, which: Template)
    requires ReachableConverge(e, a + b, caseInsensitive, which)
    ensures ReachableConverge(e, a, caseInsensitive, which)
    ensures Rewrite(e, a, s, caseInsensitive, which).Ok? ==> ReachableConverge(e, b, caseInsensitive, which)
    ensures Rewrite(e, a + b, s, caseInsensitive, which) ==
      match Rewrite(e, a, s, caseInsensitive, which)
      case Ok(m) => Rewrite(e, b, m, caseInsensitive, which)
      case Err(x) => Err(x)
  {
    if a == [] {
      assert a + b == b;
    } else {
      assert (a + b)[0] == a[0] && (a + b)[1..] == a[1..] + b;
      match PatternOf(a[0].1)
      case None =>
      case Some(p) =>
        var s' := Settle(e, Effective(p, caseInsensitive), TemplateOf(a[0].1, which), s);
        RewriteAppend(e, a[1..], b, s', caseInsensitive, which);
    }
  }

  /**
   * The fold fails exactly when some record lacks a `pattern`, and then it
   * names the first such record.
   */
  lemma {:induction false} RewriteFailsAtFirstMissingPattern(e: Engine, t: Table, s: string, caseInsensitive: bool, which: Template)
    requires ReachableConverge(e, t, caseInsensitive, which)
    ensures Rewrite(e, t, s, caseInsensitive, which).Err? <==> exists i :: 0 <= i < |t| && PatternOf(t[i].1).None?
    ensures Rewrite(e, t, s, caseInsensitive, which).Err? ==>
      exists i :: 0 <= i < |t| && PatternOf(t[i].1).None? && t[i].0 == Rewrite(e, t, s, caseInsensitive, which).error.name &&
        forall j :: 0 <= j < i ==> PatternOf(t[j].1).Some?
  {
    if t != [] {
      match PatternOf(t[0].1)
      case None =>
      case Some(p) =>
        var s' := Settle(e, Effective(p, caseInsensitive), TemplateOf(t[0].1, which), s);
        RewriteFailsAtFirstMissingPattern(e, t[1..], s', caseInsensitive, which);
        if exists i :: 0 <= i < |t| && PatternOf(t[i].1).None? {
          var i :| 0 <= i < |t| && PatternOf(t[i].1).None?;
          assert t[1..][i - 1] == t[i];
        }
        if Rewrite(e, t, s, caseInsensitive, which).Err? {
          var i :| 0 <= i < |t[1..]| && PatternOf(t[1..][i].1).None? &&
            t[1..][i].0 == Rewrite(e, t, s, caseInsensitive, which).error.name &&
            forall j :: 0 <= j < i ==> PatternOf(t[1..][j].1).Some?;
          assert forall j :: 1 <= j < i + 1 ==> t[j] == t[1..][j - 1];
        }
    }
  }

  /** When the fold succeeds, the last rule's pattern no longer matches its output. */
  lemma LastRuleSettled(e: Engine, t: Table, s: string, caseInsensitive: bool, which: Template)
    requires ReachableConverge(e, t, caseInsensitive, which)
    requires t != [] && Rewrite(e, t, s, caseInsensitive, which).Ok?
    ensures PatternOf(t[|t| - 1].1).Some?
    ensures !e.matches(Effective(PatternOf(t[|t| - 1].1).value, caseInsensitive), Rewrite(e, t, s, caseInsensitive, which).value)
  {
    var init, last := t[..|t| - 1], t[|t| - 1];
    assert t == init + [last];
    RewriteAppend(e, init, [last], s, caseInsensitive, which);
  }

  /**
   * Assigning a record without a `pattern` keeps every reachable rule
   * convergent: the new record only ends the pass earlier, or where it stood.
   */
  lemma {:induction false} PutAddedKeepsReachableConverge(e: Engine, t: Table, k: Name, r: Rule, caseInsensitive: bool, which: Template)
    requires ReachableConverge(e, t, caseInsensitive, which)
    requires PatternOf(r).None?
    ensures ReachableConverge(e, Put(t, k, r), caseInsensitive, which)
  {
    if t != [] && t[0].0 != k && PatternOf(t[0].1).Some? {
      PutAddedKeepsReachableConverge(e, t[1..], k, r, caseInsensitive, which);
      assert Put(t, k, r)[0] == t[0] && Put(t, k, r)[1..] == Put(t[1..], k, r);
    }
  }
}
