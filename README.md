# HalaMoney expense query language, in Dafny

This project models the query core of the HalaMoney expense viewer (`cli.py`). A query string is split into
top-level tokens by `Tokenize`. The tokens are evaluated by `QueryHelper` against a universe of ledger rows:
- free text matches any column;
- `field:value`, `field>=value` and the other operators filter one column;
- `-token` is the complement within the universe;
- `(query)` is a nested query;
- juxtaposition is AND;
- `OR` separates AND-groups.

Results are `Expense` record sets: either the universal marker (`UNIVERSAL_SET`, here `RecordSet.All`) or a concrete
list of rows (`RecordSet.Some`). `Union` merges two lists by their `Id` column. `Intersection` keeps the left
operand's rows that the right operand also holds.

Every Python exception on these paths is an `Error` value of a `Result`:
- the `ValueError`s raised by `Tokenize`, by `hit` and by `Query`;
- the `AssertionError`s in `_QueryOneToken`;
- the `KeyError` for an unknown field;
- the `TypeError` from iterating or searching the universal marker;
- an `int()` or `fromisoformat` that fails.

Modules, one per file:
- `Results`: the error kinds and `Result`.
- `Seqs`: sub-sequences and order-preserving filters.
- `Text`: the Python string operations the core uses:
  - `strip`;
  - `in` on strings;
  - `replace`;
  - `split()` and `split(' ', 1)`;
  - string `<`;
  - `int()`;
  - date parsing.
- `Schema`: `FIELD_MAPPING` and `COMPARABLE_FIELDS`.
- `Tokenizer`: `Tokenize`.
- `Expense`: the record sets, `Union`, `Intersection` and `TotalAmount`.
- `QueryHelper`: the evaluator.
- `QueryLaws` and `FilterLaws`: the laws of the evaluator.
- `Scenarios`: concrete record-set cases taken from the unit tests.
- `QueryText` and `TokenizerScenarios`: the tokenizer test's mixed query, as facts about its spelling and as a
  worked instance of the tokenizer laws.

Code that updates variables in a loop is a method, proved equal to a pure function of its inputs. These methods are
`Tokenize`, `Union`, `ScanColumns`, `FindAllFields`, `FindOneField`, `QueryOneToken`, `CollectGroups`, `UniteGroups`
and `Query`; `Query` calls the last two for its token loop and its union loop. The laws are lemmas about these
pure functions, which are `Tokens`, `UnionOf`, `AllFieldsHits`, `OneFieldHits`, `TokenResult` and
`QueryResult`.

Behaviour of the code worth knowing, as the model states it:
- **`OR` check.** An `OR` is rejected whenever the running group is still the universal marker (`cli.py:241`).
  So an `OR` after a group whose tokens all evaluated to the universal marker is rejected as well, not only an `OR`
  with no token before it.
- **`OR` alone or doubled.** `OR OR` raises (`QueryLaws.LeadingOrFails`), and a lone `OR` is a free-text search for
  the text `OR` (`QueryLaws.LoneOrIsFreeText`).
- **`Id` comparison.** The merge in `Union` compares `Id`s as strings. `Scenarios.NumericOrderRepeatsRow` shows
  what follows for rows listed in numeric order: a union of `9, 10` and `10` lists row `10` twice. The
  sortedness laws therefore assume string order.

`Expense.SumAmounts` takes the integer parser as a parameter. `TotalAmount` passes `Text.ParseInt`, so the laws
about the sum hold for any parser.

## Model

| member | source | states |
|---|---|---|
| `Schema.WellFormedColumns` | cli.py:11-19 | a row carrying every mapped column has the `Id` and amount columns the core reads |
| `Text.Strip` | cli.py:58 | the stripped text is empty exactly when the input is all whitespace, and otherwise starts and ends with non-whitespace |
| `Text.StripAfterSpaces` | cli.py:58 | whitespace in front of a text does not change its stripped form |
| `Text.ContainsAt` | cli.py:161 | `in` on strings holds exactly when the text occurs at some offset |
| `Text.SplitAtFirstSpace` | cli.py:207 | `split(' ', 1)`: no space gives no split; otherwise the text is head, one space, tail, with no space in the head |
| `Text.SplitAfterWord` | cli.py:207 | a word followed by a space splits into that word and the rest |
| `Text.WordCountOne` | cli.py:206 | `len(split())` of one word is 1 |
| `Text.WordCountCons` | cli.py:206 | `len(split())` of a word, a space and a text is one more than that of the text |
| `Text.ReplaceCharPointwise` | cli.py:169 | replacing one character by another keeps the length and changes exactly the matching positions |
| `Text.ReplaceCharAbsent` | cli.py:169 | replacing a character that does not occur leaves the text unchanged |
| `Text.ReplaceCharAfter` | cli.py:205 | replacing `c` in `x + c + y`, where `x` has no `c`, gives `x + d` followed by the replaced `y` |
| `Text.ParseInt` | cli.py:172-173 | a failure names the text; an all-whitespace text never parses |
| `Text.IntRoundTrip` | cli.py:172-173 | the integer parser reads back the decimal text of every integer |
| `Text.ParseDate` | cli.py:168-170 | a parsed date is a valid calendar date; a failure names the text |
| `Text.DateRoundTrip` | cli.py:168-170 | every valid date reads back from its `YYYY-MM-DD` text |
| `Text.SlashedDateRoundTrip` | cli.py:168-170 | every valid date reads back from its `YYYY/MM/DD` text once `/` is replaced by `-` |
| `Text.CompareDatesChronological` | cli.py:174-181 | comparing dates field by field orders them as their day numbers do |
| `Text.LessIrreflexive` | cli.py:99 | no identifier is smaller than itself |
| `Text.LessAsymmetric` | cli.py:99 | of two identifiers at most one is smaller than the other |
| `Text.LessTransitive` | cli.py:99 | string order on identifiers is transitive |
| `Text.LessTotal` | cli.py:99 | of two different identifiers one is smaller |
| `Tokenizer.Scan` | cli.py:62-76 | the scan of the loop yields, on success, a non-empty list of non-empty tokens no longer than the input |
| `Tokenizer.Tokens` | cli.py:57-76 | the result is the empty list exactly when the input is empty or all whitespace; every token is non-empty and no longer than the input |
| `Tokenizer.Tokenize` | cli.py:57-76 | the loop with its depth counter and recursive call returns exactly `Tokens` |
| `Tokenizer.StripKeepsBalance` | cli.py:58 | stripping changes neither balance nor the never-negative property |
| `Tokenizer.TokensBalance` | cli.py:62-75 | success exactly when balanced; too many `)` exactly when some prefix goes negative; missing `)` exactly when no prefix does but the final depth is positive |
| `Tokenizer.TokensShape` | cli.py:63-76 | every token is non-empty, balanced, and has no space at depth zero |
| `Tokenizer.PlainToken` | cli.py:63-76 | a text with no parenthesis and no space is a well-formed token |
| `Tokenizer.WrappedToken` | cli.py:63-76 | a plain prefix and a parenthesis-free text in parentheses is a well-formed token, whatever spaces are inside |
| `Tokenizer.TokensOfToken` | cli.py:57-76 | a bare token alone tokenizes to itself |
| `Tokenizer.TokensOfLeadingToken` | cli.py:63-76 | a bare token, then whitespace starting with a space, then a rest ending in non-whitespace: the token is prepended to the rest's tokens, or the rest's error is returned |
| `Tokenizer.TokensOfJoin` | cli.py:57-76 | bare tokens joined by single spaces tokenize back to the same tokens |
| `Tokenizer.TokensJoin` | cli.py:63-76 | for a stripped input separated by single spaces, joining the tokens with spaces gives the input back |
| `Seqs.FilterCount` | cli.py:114-115 | a filter keeps every occurrence of an element that passes and none of one that fails |
| `Expense.Merge` | cli.py:94-106 | the merged list keeps the `Id` invariant (`HasIds`) and is no longer than both lists together |
| `Expense.MergeMembers` | cli.py:94-106 | the merged list keeps every left row and holds only rows of either side |
| `Expense.UnionOf` | cli.py:85-108 | the universal marker absorbs; the empty list is neutral on both sides; two lists merge into one that keeps every left row and nothing foreign |
| `Expense.Union` | cli.py:85-108 | the two-index `while` loop and its tail appends return exactly `UnionOf` |
| `Expense.MergeDropsOnlyTies` | cli.py:95-98 | a right-hand row is dropped only when a left-hand row has its `Id` |
| `Expense.MergeIds` | cli.py:94-106 | the union holds every `Id` of either side and no other |
| `Expense.SortedIdsUnique` | cli.py:94-106 | a list strictly increasing by `Id` holds each `Id` once, so it meets the key assumption of `QueryLaws.UnionAllMeaning` |
| `Expense.MergeSorted` | cli.py:94-106 | lists strictly increasing by `Id` merge into a list strictly increasing by `Id` (so each `Id` once) |
| `Expense.MergeKeepsLeftOnTie` | cli.py:95-98 | on an `Id` tie between different rows of sorted lists the left row is kept and the right one is not |
| `Expense.MergeWithin` | cli.py:94-106 | merging two sub-sequences of a list sorted by `Id` gives a sub-sequence of it |
| `Expense.MergeIsSetUnion` | cli.py:94-106 | when `Id` is a key across both sides, the union holds exactly the rows of either side |
| `Expense.Intersection` | cli.py:110-115 | a universal operand returns the other one; otherwise the result is a sub-sequence of the left list holding exactly the rows in both, each as often as it occurs in the left list |
| `Expense.IntersectionWithEmpty` | cli.py:110-115 | intersecting with the empty list on either side gives the empty list |
| `Expense.SumAmountsSucceeds` | cli.py:117-119 | the sum of the amount column succeeds exactly when every amount parses (`TotalAmount` uses `int()`) |
| `Expense.TotalAmount` | cli.py:117-119 | the universal marker cannot be totalled; the empty list totals zero |
| `Expense.SumAmountsAppend` | cli.py:117-119 | the total of two lists one after the other is the sum of their totals |
| `QueryHelper.FirstOperator` | cli.py:202-204 | the chosen operator occurs in the token and no operator earlier in the order `:`, `>=`, `<=`, `<`, `>` does; with none found, no operator occurs |
| `QueryHelper.Hit` | cli.py:159-183 | `:` is substring containment; an ordering operator on a non-comparable field is an error |
| `QueryHelper.HitOnDates` | cli.py:167-181 | on `date`, after `/` becomes `-`, the ordering operators compare the two dates' day numbers (`toordinal`), that is their chronological order |
| `QueryHelper.HitParseErrors` | cli.py:167-173 | on a comparable field a side that does not parse is an error: on `date` the query is read first, on `id` and `amount` the cell is |
| `QueryHelper.HitOnIntegers` | cli.py:171-181 | on `id` and `amount`, the ordering operators compare the parsed integers |
| `QueryHelper.AllFieldsHits` | cli.py:149-156 | a sub-sequence of the rows holding exactly the rows with a column containing the text, each as often as in the input |
| `QueryHelper.ScanColumns` | cli.py:152-155 | the column loop with its `break` finds a match exactly when some column of the row contains the text |
| `QueryHelper.FindAllFields` | cli.py:149-156 | the row loop, calling the column scan on each row, returns exactly `AllFieldsHits` |
| `QueryHelper.OneFieldHits` | cli.py:185-190 | a successful field filter is a sub-sequence of the rows |
| `QueryHelper.FindOneField` | cli.py:185-190 | the row loop calling `hit` returns exactly `OneFieldHits`, failing at the first error |
| `QueryHelper.OneFieldHitsStep` | cli.py:186-188 | one loop step: an unknown field fails at the first row; otherwise the first row is kept or dropped by its `hit` |
| `QueryHelper.Complement` | cli.py:215-217 | the rows of the universe not in the subset, in the universe's order and each as often as in the universe; the universal marker fails once there is a row to test |
| `QueryHelper.TokenResult` | cli.py:192-213 | every concrete result of a token holds only rows of the universe |
| `QueryHelper.FieldComparison` | cli.py:201-209 | a successful field comparison is a sub-sequence of the universe |
| `QueryHelper.QueryResult` | cli.py:219-255 | every concrete result of a query holds only rows of the universe |
| `QueryHelper.AndGroups` | cli.py:237-249 | every group the token loop closes holds only rows of the universe |
| `QueryHelper.UnionAll` | cli.py:251-253 | the union loop's result holds only rows of the universe |
| `QueryHelper.QueryOneToken` | cli.py:192-213 | the recursive token evaluation returns exactly `TokenResult` |
| `QueryHelper.CollectGroups` | cli.py:237-249 | the token loop, closing a group at each `OR` and intersecting otherwise, returns exactly `AndGroups` from the first token |
| `QueryHelper.UniteGroups` | cli.py:251-253 | the union loop, starting from the empty list, returns exactly `UnionAll` |
| `QueryHelper.Query` | cli.py:219-255 | tokenizing, the empty and one-token cases, then the token loop followed by the union loop, return exactly `QueryResult` |
| `QueryLaws.EmptyQueryIsUniverse` | cli.py:230-232 | an empty or all-whitespace query returns the universe unchanged |
| `QueryLaws.SingleTokenIsDirect` | cli.py:234-235 | a one-token query is that token's result |
| `QueryLaws.LoneOrIsFreeText` | cli.py:234-235 | the query `OR` alone is a free-text search for `OR` |
| `QueryLaws.LeadingOrFails` | cli.py:240-242 | an `OR` first among several tokens is rejected |
| `QueryLaws.DoubledOrFails` | cli.py:240-245 | an `OR` right after another `OR` makes the query fail |
| `QueryLaws.TrailingOrIsUniversal` | cli.py:244-253 | a successful query ending in `OR` is the universal marker |
| `QueryLaws.AndGroupsTrailingOr` | cli.py:237-249 | when the last token is `OR`, the token loop's last group is the universal marker |
| `QueryLaws.GroupsTrailingOr` | cli.py:237-253 | when the last token is `OR`, the union of the groups is the universal marker |
| `QueryLaws.UnionAllAbsorbs` | cli.py:251-253 | a universal last group makes the union universal |
| `QueryLaws.TokenInOrder` | cli.py:192-213 | with the universe strictly sorted by `Id`, a concrete token result is a sub-sequence of it |
| `QueryLaws.QueryInOrder` | cli.py:219-255 | with the universe strictly sorted by `Id`, a concrete query result is a sub-sequence of it |
| `QueryLaws.AndGroupsInOrder` | cli.py:237-249 | with a sorted universe, every group is a sub-sequence of it |
| `QueryLaws.UnionAllInOrder` | cli.py:251-253 | with a sorted universe, the union of sub-sequences is a sub-sequence |
| `QueryLaws.IntersectionAdmits` | cli.py:110-115 | a row is admitted by an intersection exactly when it is admitted by both operands |
| `QueryLaws.AndGroupsMeaning` | cli.py:237-249 | the groups admit a row exactly when a closed group, the open group with its remaining tokens, or a later `OR`-separated group does |
| `QueryLaws.UnionAllMeaning` | cli.py:251-253 | with `Id` a key of the universe, the union admits a row exactly when some group does |
| `QueryLaws.QueryIsUnionOfGroups` | cli.py:237-255 | a query of several tokens admits a row exactly when, in some `OR`-separated group, every token admits it |
| `FilterLaws.ComplementOfUniverse` | cli.py:215-217 | the complement of the universe within itself is empty |
| `FilterLaws.ComplementOfNothing` | cli.py:215-217 | the complement of the empty list is the whole universe |
| `FilterLaws.NegationScope` | cli.py:193-195 | `-t` fails as `t` does, and otherwise is the complement of `t`'s result within the universe passed in |
| `FilterLaws.NegationInGroup` | cli.py:237-247 | in `a -t`, `t` is complemented within the whole universe, not within what `a` selected |
| `FilterLaws.GroupOfTwo` | cli.py:237-249 | two tokens without `OR` form one group, their intersection |
| `FilterLaws.DoubleNegation` | cli.py:193-195 | `--t` selects the same rows as `t` when `t` selects a filter of the universe |
| `FilterLaws.DoubleNegationSorted` | cli.py:193-195 | on a universe strictly sorted by `Id`, `--t` selects the same rows as any concrete `t` |
| `FilterLaws.FieldFilterErrors` | cli.py:185-190 | no rows give no error; with rows, an unknown field and an ordering operator on a non-comparable field are errors |
| `FilterLaws.OneFieldHitsSucceeds` | cli.py:185-190 | the filter succeeds exactly when `hit` succeeds on every row |
| `FilterLaws.OneFieldHitsKeeps` | cli.py:185-190 | when it succeeds, the filter keeps exactly the rows on which `hit` holds, each as often as in the input |
| `FilterLaws.OneFieldHitsCounts` | cli.py:185-190 | when it succeeds, the filter holds each row on which `hit` holds as often as the input does, and no other row |
| `FilterLaws.ColonIsContainment` | cli.py:160-161 | with `:`, the filter keeps the rows whose mapped column contains the value, in order |
| `FilterLaws.ComparisonDispatch` | cli.py:201-209 | a token not starting with `-` or `(` that holds an operator is a field comparison |
| `FilterLaws.ColonFound` | cli.py:202-204 | a token holding `:` is compared with `:` |
| `FilterLaws.ColonToken` | cli.py:201-209 | `field:value` with plain words is the `:` filter of that field for that value |
| `FilterLaws.ExtraColonIsMalformed` | cli.py:205-206 | a token with two `:` is three words after the replace and is rejected |
| `TokenizerScenarios.UnclosedParenthesis` | cli_unittest.py:21-22 | `( () ` is rejected for a missing `)` |
| `TokenizerScenarios.SurplusParenthesis` | cli_unittest.py:23-24 | `( )) ` is rejected for a surplus `)` |
| `TokenizerScenarios.TokenizeExample` | cli_unittest.py:16-19 | the padded mixed query with Chinese text, spaces inside parentheses and a double space splits into its four tokens |
| `Scenarios.IntersectionExample` | cli_unittest.py:48-51 | rows `1, 2, 3` and `2, 3, 4` intersect in `2, 3` |
| `Scenarios.UnionExample` | cli_unittest.py:67-70 | rows `1, 2, 3` and `2, 3, 4` unite to `1, 2, 3, 4` |
| `Scenarios.NumericOrderRepeatsRow` | cli.py:94-106 | rows in numeric `Id` order are not in string order, and their union repeats a row |

## Left out

- `main`, argument parsing, reading the CSV file or standard input: I/O. The universe is a parameter, a list of
  rows that carry every mapped column (`Schema.WellFormed`), as the CSV reader produces them.
- A `KeyError` for a row that lacks a mapped column: every row carries every column.
- `Expense.Output`, `FormatPrint`, `PrintDashLine`: console output, column padding by UTF-8 byte length, and a
  floating-point percentage.
- `logging.error` in `hit`: a side effect only.
- `Expense.__init__`'s type assertion: the datatype `RecordSet` makes it hold by construction.
- `Query` and `_QueryOneToken` applied to the universal marker as the universe. Only `main`'s base query can
  cause this, and the universe here is always a concrete list.
- `Text.ParseInt`: only optional surrounding whitespace, an optional sign and ASCII decimal digits. Python `int()`
  also accepts underscores between digits and non-ASCII digits.
- `Text.ParseDate`: only `YYYY-MM-DD`. `datetime.fromisoformat` also accepts times, other ISO forms and time zones.
  Dates are compared by year, month and day.
- `Text.IsSpace`: a fixed subset of six ASCII whitespace characters. Python's `strip()` and `split()` also treat other
  Unicode whitespace as whitespace.
- The order of `dict.items()` in `_FindAllFields`: it does not affect which rows are kept. The model scans the
  columns in an arbitrary order.
- Python `assert` is disabled under `python -O`. The model always raises on these checks:
  - the unclosed-group check (`cli.py:198`);
  - the arity check (`cli.py:206`).
- The `assert False` after the operator tests in `hit` (`cli.py:183`): the operator is a closed datatype `Op`, so
  that branch cannot be reached and the model has none.
- The unit tests that read `expense.csv`: that file is not part of this model.
