/**
 * The regular-expression library the parser calls (PHP's preg_match and
 * preg_replace), kept abstract, and the "replace until it no longer matches"
 * primitive built on it.
 */
module Regex {

  /**
   * A regular-expression engine handed to the parser. `matches(p, s)` is
   * preg_match(p, s) reporting a match; `replaceAll(p, t, s)` is
   * preg_replace(p, t, s), every match of `p` in `s` rewritten by template `t`.
   * `measure(p, t, s)` is the convergence measure that the tag definitions
   * come with: a well-behaved rule makes it drop on every replacement.
   */
  datatype Engine = Engine(
    matches: (string, string) -> bool,
    replaceAll: (string, string, string) -> string,
    measure: (string, string, string) -> nat)

  /** Rule (p, t) converges: while `p` still matches, a replacement shrinks the measure. */
  ghost predicate Converges(e: Engine, p: string, t: string)
  {
    forall s :: e.matches(p, s) ==> e.measure(p, t, e.replaceAll(p, t, s)) < e.measure(p, t, s)
  }

  /**
   * The text that repeated test-and-replace of (p, t) ends with: the first
   * text along the replacement chain that `p` no longer matches.
   */
  function Settle(e: Engine, p: string, t: string, s: string): (r: string)
    requires Converges(e, p, t)
    ensures !e.matches(p, r)
    ensures !e.matches(p, s) ==> r == s
    decreases e.measure(p, t, s)
  {
    if e.matches(p, s) then Settle(e, p, t, e.replaceAll(p, t, s)) else s
  }

  /** `s` after exactly `n` replacements of (p, t), whether or not `p` still matches. */
  function Iterate(e: Engine, p: string, t: string, s: string, n: nat): string
    decreases n
  {
    if n == 0 then s else Iterate(e, p, t, e.replaceAll(p, t, s), n - 1)
  }

  /** How many replacements repeated test-and-replace performs before `p` stops matching. */
  function Steps(e: Engine, p: string, t: string, s: string): nat
    requires Converges(e, p, t)
    decreases e.measure(p, t, s)
  {
    if e.matches(p, s) then 1 + Steps(e, p, t, e.replaceAll(p, t, s)) else 0
  }

  /**
   * Settle agrees with the plain iteration of replaceAll: it is the iterate
   * after Steps replacements, and `p` matched every iterate before it, so no
   * replacement was skipped and none was made on a text `p` did not match.
   */
  lemma {:induction false} SettleIsFirstQuietIterate(e: Engine, p: string, t: string, s: string)
    requires Converges(e, p, t)
    ensures Settle(e, p, t, s) == Iterate(e, p, t, s, Steps(e, p, t, s))
    ensures !e.matches(p, Iterate(e, p, t, s, Steps(e, p, t, s)))
    ensures forall k :: 0 <= k < Steps(e, p, t, s) ==> e.matches(p, Iterate(e, p, t, s, k))
    decreases e.measure(p, t, s)
  {
    if e.matches(p, s) {
      var s' := e.replaceAll(p, t, s);
      SettleIsFirstQuietIterate(e, p, t, s');
      forall k | 0 <= k < Steps(e, p, t, s)
        ensures e.matches(p, Iterate(e, p, t, s, k))
      {
        if k > 0 {
          assert Iterate(e, p, t, s, k) == Iterate(e, p, t, s', k - 1);
        }
      }
    }
  }

  /** Running test-and-replace a second time on its own result changes nothing (a corollary of the second ensures of Settle). */
  lemma SettleIdempotent(e: Engine, p: string, t: string, s: string)
    requires Converges(e, p, t)
    ensures Settle(e, p, t, Settle(e, p, t, s)) == Settle(e, p, t, s)
  {
  }
}
