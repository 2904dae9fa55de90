# BBCode parser rule engine, modelled in Dafny

This project models the `Parser` class of a Laravel BBCode package
(`src/Parser.php`). The parser holds two ordered tables keyed by tag name.
`tags` holds every loaded tag, and `enabledTags` is the subset that `parse`
applies. Each tag record carries a regular expression (`pattern`), a
replacement template (`replace`) and a stripping template (`content`).
`parse` and `stripTags` work through a table in order. For each rule they
repeat "test, then replace" until the rule's pattern no longer matches, and
the next rule starts from that text. `only`, `except` and `addTag` choose or
extend the tables.

Files:

- `regex.dfy` (module `Regex`): the regular-expression engine as a parameter
  (`Engine`: `matches`, `replaceAll` and a convergence `measure`), and
  `Settle`, the text that repeated test-and-replace ends with.
- `rule_table.dfy` (module `RuleTable`): the tag record, and the ordered tables
  as sequences of (name, rule) pairs. It models PHP key assignment (`Put`),
  `array_intersect_key` (`IntersectKey`) and `array_diff_key` (`DiffKey`),
  together with their lemmas.
- `rewriting.dfy` (module `Rewriting`): `Rewrite`, the rule-by-rule fold that
  `parse` and `stripTags` compute, and its lemmas.
- `parser.dfy` (module `BBCode`): class `Parser`, with both tables as fields,
  the object invariant `Valid()`, one method per PHP method, and two client
  methods.

The regular-expression library is foreign code, so `preg_match` and
`preg_replace` are the function fields of an `Engine` value. Every operation
that uses them takes that value as a parameter. The PHP loop at line 78
terminates only when the tag definitions converge. The model states this as
`Converges`: while a pattern matches, each replacement strictly lowers the
engine's measure. `parse` and `stripTags` require this, as
`ReachableConverge`, of every configured rule up to the first record without
a `pattern`. That covers every rule the pass can run.

Behaviour of the code that the model follows:

- `addTag` stores `compact('search', 'replace', 'content')`. That record has
  no `pattern` key, yet `parse` and `stripTags` read `pattern`. The model
  keeps this: `Rule` has a `Configured` form (from the loaded configuration)
  and an `Added` form (from `addTag`). Any pass that reaches an `Added` record
  ends in `Err(MissingPattern(name))`, as `BBCode.ParseAfterAddTag` shows.
- Enabled-table order does not always follow the full table's order. Take an
  existing name that `only` left out. `addTag` on that name overwrites it in
  place in `tags` but appends it to `enabledTags`. `AssignmentCanReorderSubset`
  gives a concrete case. So the object invariant is only "every enabled entry
  is the full table's entry under that name". It does not claim a shared order.

## Model

| member | source | states |
|---|---|---|
| Regex.Settle | src/Parser.php:76-83 | the result of repeated test-and-replace is a text the pattern does not match; a text it does not match comes back unchanged |
| Regex.SettleIsFirstQuietIterate | src/Parser.php:78-80 | the settled text is the replacement chain's iterate after `Steps` replacements; the pattern matched every earlier iterate, so each replacement happened on a matching text and the loop stopped at the first non-matching one |
| Regex.SettleIdempotent | src/Parser.php:76-83 | settling an already settled text changes nothing (a corollary of the second ensures of `Settle`) |
| RuleTable.Put | src/Parser.php:163-164 | no contract of its own: `$t[name] = v`; its meaning is given by PutLookup, PutOverwritesInPlace, PutAppends, PutKeySet and PutDistinct |
| RuleTable.IntersectKey | src/Parser.php:119 | no contract of its own: `array_intersect_key(tags, array_flip(names))`; its meaning is given by IntersectKeyMeaning, IntersectKeyIgnoresNameOrder, IntersectKeyIgnoresUnknownNames and IntersectKeyEmpty |
| RuleTable.DiffKey | src/Parser.php:135 | no contract of its own: `array_diff_key(tags, array_flip(names))`; its meaning is given by DiffKeyMeaning, IntersectKeyIgnoresNameOrder, IntersectKeyEmpty and IntersectDiffPartition |
| RuleTable.Lookup | src/Parser.php:164 | no contract of its own: `$this->tags[$name]`, the record stored under a name; its meaning is given by PutLookup, FilterLookup, LookupPresent and LookupAt |
| RuleTable.PutLookup | src/Parser.php:163 | after `$tags[name] = v`, `name` holds `v` and every other name holds its old record |
| RuleTable.PutOverwritesInPlace | src/Parser.php:163 | assigning an existing name replaces the entry at that name's position; the length and every other entry stay unchanged |
| RuleTable.PutAppends | src/Parser.php:163 | assigning a new name appends `(name, v)` after all existing entries |
| RuleTable.PutKeySet | src/Parser.php:163-164 | the names after assignment are the old names plus `name` |
| RuleTable.PutDistinct | src/Parser.php:163-164 | assignment keeps the names distinct |
| RuleTable.PutEntries | src/Parser.php:164 | every entry after assignment is either the new entry or one the table already had |
| RuleTable.FilterLookup | src/Parser.php:119 | a filtered table holds the original record of each name that passes the filter and nothing for the other names |
| RuleTable.FilterKeepsOrder | src/Parser.php:135 | filtering keeps the names distinct and keeps the original table's order |
| RuleTable.IntersectKeyMeaning | src/Parser.php:119 | `array_intersect_key(tags, flip(names))` holds exactly the entries of `tags` named in `names`, with their records, its names are the intersection of the two name sets, and it keeps `tags` order |
| RuleTable.DiffKeyMeaning | src/Parser.php:135 | `array_diff_key(tags, flip(names))` holds exactly the entries of `tags` not named in `names`, with their records, and keeps `tags` order |
| RuleTable.IntersectKeyIgnoresNameOrder | src/Parser.php:118-119 | two name lists naming the same set give the same intersection and the same difference, so order and repeats in the list do not matter |
| RuleTable.IntersectKeyIgnoresUnknownNames | src/Parser.php:133-135 | appending names absent from `tags` to the list changes neither result |
| RuleTable.IntersectKeyEmpty | src/Parser.php:116-138 | with no names, the intersection is empty and the difference is the whole table |
| RuleTable.IntersectKeyIdempotent | src/Parser.php:119 | filtering an already filtered table again with the same names changes nothing; repeating `only(names)` on the parser is idempotent for a different reason, since `Only` always recomputes from the unchanged `tags` |
| RuleTable.IntersectDiffPartition | src/Parser.php:131-138 | for any name list, the names kept by `only` and by `except` are disjoint and together make up the names of `tags` |
| RuleTable.AssignmentCanReorderSubset | src/Parser.php:163-164 | after `only(["b"])`, assigning an earlier loaded name `a` in both tables leaves the enabled table out of `tags` order |
| Rewriting.PatternOf | src/Parser.php:43 | no contract of its own: `$parser['pattern']`, present on configured records and absent on records made by `addTag`; its consequence is given by RewriteFailsAtFirstMissingPattern |
| Rewriting.Rewrite | src/Parser.php:40-49 | no contract of its own: the `foreach` fold of `parse` (and of `stripTags` at lines 58-65); its meaning is given by RewriteQuiet, RewriteAppend, RewriteFailsAtFirstMissingPattern and LastRuleSettled |
| Rewriting.PutAddedKeepsReachableConverge | src/Parser.php:164 | assigning a record without a `pattern` into a table keeps every rule a pass can reach convergent |
| Rewriting.TemplateOf | src/Parser.php:45 | no contract of its own: `$parser['replace']` for `parse` (and `$parser['content']` for `stripTags` at line 61); its meaning is given by the contracts of Parser.Parse and Parser.StripTags through Rewrite |
| Rewriting.Effective | src/Parser.php:43 | the pattern handed to the engine starts with the stored pattern, and is exactly one character longer, that character being `i`, exactly when the pass is case-insensitive |
| Rewriting.RewriteQuiet | src/Parser.php:40-49 | if every record has a `pattern` and none of them matches the text, the pass returns the text unchanged |
| Rewriting.RewriteAppend | src/Parser.php:42-46 | a pass over `a + b` is a pass over `a`, with its output fed to a pass over `b` |
| Rewriting.RewriteFailsAtFirstMissingPattern | src/Parser.php:43 | a pass fails exactly when some record has no `pattern` key, and the error names the first such record |
| Rewriting.LastRuleSettled | src/Parser.php:42-46 | when a pass succeeds, the last rule's pattern does not match its output |
| BBCode.Parser.constructor | src/Parser.php:26-30 | both tables equal the given table, with the same entries in the same order, and the invariant holds |
| BBCode.Parser.SearchAndReplace | src/Parser.php:76-83 | the while loop returns `Settle` of its input: a text the pattern no longer matches, and the input itself when the pattern did not match it |
| BBCode.Parser.Parse | src/Parser.php:40-49 | the foreach loop returns `Rewrite` over the enabled table with `replace` templates, appending `i` to each pattern exactly when asked |
| BBCode.Parser.StripTags | src/Parser.php:58-65 | the foreach loop returns `Rewrite` over the full table, always case-insensitively, with `content` templates |
| BBCode.Parser.ParseCaseSensitive | src/Parser.php:92-95 | returns the case-sensitive pass over the enabled table |
| BBCode.Parser.ParseCaseInsensitive | src/Parser.php:104-107 | returns the case-insensitive pass over the enabled table |
| BBCode.Parser.Only | src/Parser.php:116-122 | the enabled table becomes `IntersectKey(tags, names)`; `tags` stays unchanged; the invariant holds; the parser itself is returned |
| BBCode.Parser.Except | src/Parser.php:131-138 | the enabled table becomes `DiffKey(tags, names)`; `tags` stays unchanged; the invariant holds; the parser itself is returned |
| BBCode.Parser.GetAllBBCodes | src/Parser.php:145-148 | returns the enabled table, whose names are distinct and all in `tags`, and changes nothing |
| BBCode.Parser.AddTag | src/Parser.php:161-167 | both tables become `Put(old, name, {search, replace, content})`: `name` maps to the new record in both, every other name keeps its record, and the invariant (enabled names are a sub-map of `tags`) holds |
| BBCode.StripTagsIgnoresSubsetting | src/Parser.php:58-65 | `stripTags` returns the same result before and after `only(names)` and `except(names)` |
| BBCode.ParseAfterAddTag | src/Parser.php:161-164 | after `addTag`, `parse` fails for every source text, because the new record has no `pattern` key; on the case-insensitive path this rests on the error reading in the `Rewriting.Rewrite` line under "Left out" |

## Left out

- Regular-expression semantics: pattern syntax, capture groups and `$1` substitution belong to PCRE. `matches` and `replaceAll` are uninterpreted parameters.
- Regular-expression errors: `preg_match` returning `false`, or `preg_replace` returning `null`, on a malformed pattern are not modelled.
- Rewriting.Rewrite: an `Added` record is modelled as an error on both paths. On the case-sensitive path this is exact, because the missing key gives `null` and passing it to a `string` parameter throws. On the case-insensitive path, plain PHP instead warns and passes `"i"` to `preg_match`. In a Laravel host that warning is thrown as an exception. The plain-PHP outcome depends on regex error behaviour, which is left out.
- Non-termination: a rule that never stops matching is excluded by the `Converges` precondition. It is not modelled as divergence.
- PHP argument handling: `func_get_args` and the `string|array` argument of `only`/`except` are not modelled. The argument is a sequence of names, and a single name is a one-element sequence.
- PHP key coercion: integer-like tag names becoming integer keys, and `array_flip` on non-string values, are not modelled. Names are plain strings compared for equality.
- Configuration loading and Laravel service-provider wiring are not part of this model. The initial table is the constructor's argument.
