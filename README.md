# Expense categoriser rule engine, in Dafny

This project models the rule engine of a small expense categoriser. The
engine takes a table of bank transactions and an ordered list of rules.
For each rule, and for each row of the table, it does three things:

- it builds a property bag: the row's columns, then the bags of the named
  extractors merged on top of them;
- it tests the rule's conditions against that bag;
- on a match, it runs the rule's `update` actions, which set columns to
  templates filled in from the bag.

Each rule sees the whole output of the previous rule. The table is lifted
row by row: it is numbered in a helper column, grouped on it, and the
per-row results are concatenated in row order.

The model follows the code as written, including where its behaviour is
surprising (listed at the end of this file).

## Layout

| file | module | models |
|---|---|---|
| `values.dfy` | `Values` | cells, rows, property bags, and one `Error` constructor per Python exception the core raises |
| `regex.dfy` | `Regex` | the regular expressions, abstractly: whether `re.match` succeeds for a pattern and a text, and the bank-comment parser |
| `template.dfy` | `Template` | `str.format(**bag)` for named placeholders and doubled braces |
| `datetime.dfy` | `DateFormat` | `strptime(t, '%y%m%d%H:%M').strftime('%Y-%m-%d %H:%M')` |
| `prop_generators.dfy` | `PropGenerators` | `get_default_params`, `get_erste_comment_params` |
| `actions.dfy` | `Actions` | `action_update` (in place on a `SeriesRow` object) and the unconditional assignment of `apply_rule` |
| `matching.dfy` | `Matching` | `check_matching`, `rule_matcher` |
| `pandas_extensions.dfy` | `PandasExtensions` | `rnd`, `extendable`/`wrap_extend` (in place on a `Frame` object), the row numbering, `drop` and `groupby(...).apply` |
| `categorize.dfy` | `Categorize` | the extractor registry, `rule_params`, `apply_rule`, `row_categorizer`, the filter of `load_rules`, and the table-wide lift |

The functions that define the behaviour, and the source lines each one
follows (their properties are the lemmas in "## Model"):

| definition | source |
|---|---|
| `Template.Format` | categorize.py:121, actions.py:6 |
| `Actions.AssignAll` | categorize.py:120-121 |
| `Actions.UpdateSteps` | actions.py:4-6 |
| `PandasExtensions.GroupApply` | categorize.py:128, categorize.py:161, pandas_extensions.py:18-19 |
| `Categorize.Extract` | categorize.py:77-80 |
| `Categorize.MergeFrom` | categorize.py:86-87 |
| `Categorize.BuildProperties` | categorize.py:83-88 |
| `Categorize.RunActions` | categorize.py:116-121 |
| `Categorize.ApplyRow` | categorize.py:100-122 |
| `Categorize.RuleGroup` | categorize.py:96-122 |
| `Categorize.CategorizeRows` | categorize.py:125-130 |
| `Categorize.CategorizeTable` | categorize.py:159-163 |
| `Categorize.ActiveRules` | categorize.py:143 |
| `Categorize.LoadRules` | categorize.py:137-146 |
| `Categorize.CategorizeDocument` | categorize.py:154-163 |

Representation choices:

- A table is a `seq<Row>`. A row is a `map<string, Value>`. A value is a
  string, an integer (the helper id columns), NaN (an empty CSV cell) or
  None (an optional regex group that did not match).
- `groupby(k).apply(f, args)` on a column `k` numbered 1..n becomes the
  flat-map `GroupApply`. Each row is its own group, `f` is called on the
  groups in row order with the same `args`, the outputs are concatenated,
  and the first exception stops the apply.
- Exceptions are `Err` values. `Error.IsValueError()` picks out the
  exceptions that an `except ValueError` handler catches.
- A user pattern is applied with `re.match`, which anchors at the start of
  the text and leaves the end to the pattern (`$`, `\b`, lookahead). Whether
  it finds a match is a parameter (`Engine.matchAt`). `comment_re` is a
  parameter too (`Engine.comment`): a function from a
  text to its named groups, or `None` when it does not match.
- The loops of `rule_params`, `apply_rule`, `row_categorizer` and
  `action_update` are methods with `while`/`for` loops. Each is proved
  equal to a specification function, and the lemmas are about that function.
- `categorize.py:60-74` holds the same two extractors as
  `prop_generators.py`, line for line, and its registry uses those copies.
  The model defines each extractor once, in `PropGenerators`, and the
  registry (`Categorize.Extract`) calls that.
- `get_erste_comment_params` in `prop_generators.py` reads a constant
  `COMMENT` that the module never defines. Here the column is a parameter.
  The registry passes it `"Jegyzet"`, the value `categorize.py:41` defines.

## Model

| member | source | states |
|---|---|---|
| Template.Lookup | categorize.py:121 | a placeholder renders as str() of the property; an absent property is a KeyError; a positional `{}`/`{0}` is an IndexError, since format gets keyword arguments only |
| Template.FormatIsParseThenFill | categorize.py:121 | the one-pass rendering succeeds iff the template is well formed and every placeholder can be filled, and then it equals filling the parsed pieces |
| Template.FillOkIff | categorize.py:121 | filling succeeds iff every placeholder names a property of the bag and is not positional |
| Template.MissingPlaceholderRaises | actions.py:6 | a well-formed template with a placeholder for an absent property raises |
| Template.BracelessRendersAsItself | actions.py:6 | a template with no braces renders as itself, whatever the bag |
| Template.RenderingExample | actions.py:6 | with a = "X" and b = "7", "{a}-{b}" renders as "X-7", and "{c}" raises KeyError("c") |
| DateFormat.Reformat | prop_generators.py:31-32 | the rewrite succeeds iff the text has the `YYMMDDHH:MM` shape and names a real calendar time (month 1-12, the day within the month, leap years, hour < 24, minute < 60); otherwise it is a ValueError |
| DateFormat.ReformatKeepsDigits | prop_generators.py:31-32 | on success the result is `CCYY-MM-DD HH:MM` with the input's digits, where the century is 20 for two-digit years below 69 and 19 otherwise, as `%y` reads them |
| DateFormat.LongFormRoundTrip | prop_generators.py:32 | the `%Y-%m-%d %H:%M` text reads back as the same date and time |
| DateFormat.ReformatExample | prop_generators.py:31-32 | "23021514:30" becomes "2023-02-15 14:30" |
| DateFormat.ReformatPivotExample | prop_generators.py:31-32 | "69123123:59" becomes "1969-12-31 23:59" |
| DateFormat.ReformatRejectsExample | prop_generators.py:31-32 | 29 February is accepted in 2024 and rejected in 2023; month 13 and hour 25 are rejected |
| PropGenerators.DefaultParams | prop_generators.py:5-6 | the bag has exactly the row's columns, each with its value unchanged |
| PropGenerators.GroupDict | prop_generators.py:8-21 | the bag has exactly the nine named groups; a group that did not take part is None, and the four exchange groups are all present or all None |
| PropGenerators.ErsteCommentParams | prop_generators.py:23-33 | an absent comment column is a KeyError; NaN or None gives the empty bag; a number is a TypeError; a text succeeds iff it parses, fails with a ValueError otherwise (InvalidComment when the pattern rejects it); success gives the nine groups plus `comment_date` |
| PropGenerators.CommentDateText | prop_generators.py:31-32 | `comment_date` is the comment's date and time spelt `CCYY-MM-DD HH:MM`, with the `%y` century |
| Actions.LastTemplateIsLast | actions.py:4-6 | the pair whose template a column ends up with is the last pair naming that column |
| Actions.AssignAllMeaning | categorize.py:120-121 | assigning a body's pairs unconditionally succeeds iff every template renders; it then yields the row with each named column set to its last rendered template, absent columns created, and the rest unchanged; otherwise it raises the first failing template's exception |
| Actions.AssignAllAppend | categorize.py:116-121 | assigning two bodies one after the other is assigning the joined body |
| Actions.UpdateStepsIsAssignPresent | actions.py:4-6 | the tolerant update equals the unconditional one restricted to the pairs whose column the row has, in outcome and in the exception raised |
| Actions.KeepsColumns | actions.py:5 | action_update never changes the row's set of columns, whether it completes or raises |
| Actions.UpdateMeaning | actions.py:4-6 | action_update completes iff every template of a pair naming an existing column renders; then each such column holds its last rendered template and every column not named keeps its value |
| Actions.FailureLeavesEarlierUpdates | actions.py:4-6 | when a template raises, the exception is that template's, and the row is left with exactly the updates of the pairs before it |
| Actions.SeriesRow.constructor | actions.py:3 | a row object holding the given cells |
| Actions.ActionUpdate | actions.py:3-8 | the row object is updated in place as the update loop describes; on completion the result is the one-row table of the updated row, otherwise the template's exception |
| Matching.CheckMatching | categorize.py:49-57 | a condition of other than one pair is a ValueError; an absent key does not match; a present text matches iff the pattern matches at its start; any other value is a TypeError |
| Matching.RuleMatcher | categorize.py:91-93 | the rule matches iff every condition holds, so an empty list always matches; an exception escapes iff a raising condition is reached with all earlier conditions holding, and it is a condition's exception |
| Matching.RuleMatcherFirstError | categorize.py:91-93 | the first condition that does not hold decides: if it raises, its exception is the one raised, whatever follows |
| Matching.RuleMatcherFirstFailure | categorize.py:91-93 | if the first condition that does not hold simply fails, the rule does not match, and later malformed conditions are never examined |
| Matching.CoffeeExample | categorize.py:55 | with `re.match("^COFFEE", s)` holding for the texts that start with "COFFEE", the place "COFFEE SHOP 12" matches and "THE COFFEE SHOP" does not |
| Matching.EndAnchorExample | categorize.py:55 | with `re.match("^10$", s)` holding only for "10" and "10" plus a newline, the rule matches an amount "10" and not "100" |
| PandasExtensions.AsciiLetters | pandas_extensions.py:8 | the alphabet has 52 letters, the lower-case ones then the upper-case ones |
| PandasExtensions.Rnd | pandas_extensions.py:6-10 | the name has exactly the requested length and every character is an ASCII letter |
| PandasExtensions.RndReachesEveryName | pandas_extensions.py:6-10 | every ASCII-letter string of a length is a possible result |
| PandasExtensions.Number | pandas_extensions.py:16 | row i gets the id i + 1 in the helper column, the row count is kept, and no other column changes |
| PandasExtensions.NumberingIsUnique | pandas_extensions.py:16-18 | the helper ids are all different, so grouping on them gives one group per row |
| PandasExtensions.DropColumn | pandas_extensions.py:21 | every row loses the column and keeps all others |
| PandasExtensions.DropUndoesNumber | pandas_extensions.py:16-21 | dropping a helper column that was not there before gives the original table back |
| PandasExtensions.GroupApplyFlattens | pandas_extensions.py:18-19 | the lift succeeds iff every per-row call does, and is then the concatenation of the per-row outputs in row order, of any lengths; otherwise it raises the first failing call's exception |
| PandasExtensions.GroupApplyAppend | pandas_extensions.py:18-19 | lifting a table split in two is lifting each part and joining the results |
| PandasExtensions.GroupApplyOneToOne | pandas_extensions.py:18-19 | when every call returns one row, the lift keeps the row count, and output row i is the output of input row i |
| PandasExtensions.Frame.constructor | pandas_extensions.py:19 | a table object holding the given rows |
| PandasExtensions.WrapExtend | pandas_extensions.py:14-22 | the caller's frame is numbered in place under rnd(8); each call gets one row and the same arguments. If a call raises, the caller's frame loses the column again and the exception propagates. Otherwise the caller's frame keeps the column and the result is a new frame without it, or a KeyError when no result row has it |
| PandasExtensions.WrapExtendFailureRestores | pandas_extensions.py:17-21 | when a call raises and the helper name was new, the caller's frame is left exactly as it was |
| PandasExtensions.WrapExtendResult | pandas_extensions.py:18-21 | on success the result is the per-row outputs concatenated in row order, with no helper column |
| Categorize.Extract | categorize.py:77-80 | "default" gives the row itself; an unknown extractor name is a KeyError, not a ValueError; only the bank-comment extractor raises a ValueError, and only on a comment text |
| Categorize.MergeFromOkIff | categorize.py:83-88 | merging succeeds iff every named extractor succeeds |
| Categorize.MergeFromKeys | categorize.py:84-88 | the merged bag has the keys of the base bag and of every extractor; a key no extractor yields keeps its base value |
| Categorize.MergeFromLastWins | categorize.py:86-87 | a key takes the value of the last extractor that yields it |
| Categorize.MergeFromFirstError | categorize.py:86-87 | merging raises the exception of the first extractor that raises |
| Categorize.MergeFromSnoc | categorize.py:86-87 | an extractor at the end of the list is merged over everything before it |
| Categorize.BuildPropertiesMeaning | categorize.py:83-88 | the bag succeeds iff every extractor does; it holds every column of the row, a column no extractor yields keeps its value, a key takes the last extractor's value, and with no (or an empty) `properties` it is the row itself |
| Categorize.DefaultFirstIsRedundant | categorize.py:84-87 | naming "default" first in the list changes nothing |
| Categorize.DefaultLastRestoresRow | categorize.py:84-87 | naming "default" after other extractors keeps the outcome and the keys, but puts the row's own value back for every key the row shares with them |
| Categorize.RuleParams | categorize.py:83-88 | the loop computes the property bag above, or the first extractor's exception |
| Categorize.UpdatePairs | categorize.py:116-121 | every pair of every update action is among the pairs, and every pair comes from an update action |
| Categorize.UpdatePairsAppend | categorize.py:116-121 | the pairs of a later action follow those of an earlier one, so a later update of a column overrides an earlier one |
| Categorize.UpdatePairsSingle | categorize.py:117-121 | one update action contributes its own pairs in its own order; a `create` or any other kind contributes none |
| Categorize.RunActionsIsAssignAll | categorize.py:114-121 | running the actions is assigning all update pairs at once: "create" and every other action kind change nothing |
| Categorize.RuleGroup | categorize.py:96-99 | a group of other than one row is an AssertionError, and a result is always exactly one row |
| Categorize.ApplyRule | categorize.py:96-122 | the nested loops over rows, actions and pairs compute the single-row result above |
| Categorize.ApplyRowPassThrough | categorize.py:103-112 | an extraction ValueError, or a condition that fails before any condition raises, returns the input row unchanged |
| Categorize.ApplyRowOnMatch | categorize.py:114-122 | on a match, apply_rule succeeds iff every update template renders; the row then has every update column set to its last rendered template, even a column it lacked; otherwise the first failing template's exception escapes |
| Categorize.ApplyRowEscapes | categorize.py:87-109 | an unknown extractor's KeyError escapes apply_rule, and a malformed condition that is reached escapes although it is a ValueError (the handler covers only the property building) |
| Categorize.ApplyRowKeepsColumns | categorize.py:114-122 | apply_rule never removes a column |
| Categorize.RowCategorizer | categorize.py:125-130 | the loop over the rules computes the fold: number in `temp_uid`, apply the rule to each row, and hand the whole result to the next rule |
| Categorize.CategorizeRowsAppend | categorize.py:126-128 | rules are applied strictly in list order, each to the previous rule's output |
| Categorize.OneRulePerRow | categorize.py:127-128 | one pass of the loop succeeds iff the rule succeeds on every row; it keeps the row count and order, and row i becomes apply_rule of row i with `temp_uid` = i + 1 |
| Categorize.CategorizeRowsPerRow | categorize.py:125-130 | row_categorizer keeps the number and the order of the rows; it succeeds iff every row gets through every rule, and output row i is input row i taken through the rules on its own |
| Categorize.RowThroughKeepsColumns | categorize.py:127-129 | a row taken through at least one rule carries `temp_uid`, since the drop is not in place |
| Categorize.CategorizeTablePerRow | categorize.py:159-163 | each row is categorised as the single row of its group (so its `temp_uid` is always 1); the table keeps its row count and order, and fails iff some row fails |
| Categorize.HelperColumnsLeftBehind | categorize.py:159-163 | every categorised row keeps `unique_id`, and `temp_uid` once there is a rule, because neither drop is in place |
| Categorize.ActiveRules | categorize.py:143 | exactly the rules that lack `active` or have it true are kept |
| Categorize.ActiveRulesAppend | categorize.py:143 | the filter keeps the order of the rules |
| Categorize.ActiveRulesKeepsActive | categorize.py:143 | a list of active rules is kept whole |
| Categorize.LoadRules | categorize.py:137-146 | a document without the `rules` key is a ValueError, and only then; a document with it always succeeds, with the result of the active-rule filter, which keeps exactly the active rules in their order (`ActiveRulesAppend`) |
| Categorize.InactiveRuleIgnored | categorize.py:143 | an inactive rule has no effect on the result, wherever it stands in the rule list |
| Categorize.SmallAmountsMatch | categorize.py:96-122 | on a concrete rule, every amount starting with "1" gets category "small", and every other amount passes through unchanged |
| Categorize.CategorizeExample | categorize.py:159-163 | the same rule on one-row tables, with the helper columns left in the output |

## Left out

- Command-line parsing, logging, reading the CSV and printing the table
  (categorize.py:149-184), and reading the YAML file
  (categorize.py:133-135). The model starts from the parsed rule document
  (`LoadRules`) and from the table as rows (`CategorizeTable`).
- The regular-expression engine. Both user patterns and `comment_re` are
  parameters (`Engine`), so the model does not fix which texts a given
  pattern accepts, or how `comment_re` splits a comment into groups.
- pandas internals: DataFrame and Series construction, dtypes, and the
  view-versus-copy behaviour of `iloc`. Column alignment is also left out:
  when concatenated rows have different columns, pandas fills the gaps with
  NaN, but here each row keeps only its own columns. For `HasColumn`, a
  table's columns are the union of its rows' columns, so an empty result
  has no columns at all.
- The rest of the `str.format` mini-language: format specs, `!r`/`!s`
  conversions, and attribute or index access in field names. Such a field
  is looked up by its whole text between the braces.
- `strptime` accepts some shapes other than eleven characters, such as
  one-digit fields. `DateFormat.Reformat` rejects them. This makes no
  difference here, because `comment_re` only captures the fixed
  `DDDDDD` + `DD:DD` shape.
- Real randomness in `rnd`: the choices are a parameter (`draw`). A helper
  name that collides with an existing column is not treated specially.
- YAML values of unexpected types: an `active` value that is neither true
  nor false (for example null), a `matcher` or `properties` that is not a
  list, and templates that are not strings.
- The `create` action has no behaviour in the source (`pass`), so it is
  modelled as doing nothing.

Behaviour of the code that a reader of the rule format might not expect,
which the model keeps:

- A template for a column the row lacks is skipped by `action_update` but
  assigned by `apply_rule`, which creates the column.
- An unknown extractor name is a KeyError, and apply_rule's handler catches
  only ValueError. So the KeyError escapes and stops the whole run instead
  of passing the row through. The same holds for a template naming an
  absent property, for a malformed condition (a ValueError raised outside
  the handler), and for a rule missing `name`, `matcher` or `actions`.
- An action kind other than `update` and `create` is ignored rather than
  reported.
- The rule key is `matcher`, and it is required.
- The `default` extractor always runs first. Naming it first in
  `properties` runs it again, which changes nothing. Naming it after another
  extractor puts the row's values back for the keys they share.
- `action_update` changes the row object it is given, in place; it does not
  work on a copy.
- The helper columns `temp_uid` and `unique_id` stay in the output table.
