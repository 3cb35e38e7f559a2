# CAPEX report: normalizer and aggregator

This project models the core of `capex_report.py`, a script that reads a
table and reports which rows are capital expenditure (CAPEX). Two functions
make up the core:

- `normalize_capex` turns every cell of the CAPEX column into an amount. A
  cell that parses as a number keeps that number. Any other cell is printed as
  text, stripped of surrounding whitespace and lower-cased; the words `yes`,
  `y`, `true`, `t` and `1` give `1.0`, everything else gives `0.0`. The
  float NaN that the CSV reader puts in an empty field prints as `nan`; the
  other missing markers print as `None`, `<NA>` or `NaT`, none truthy, so
  every missing value gives `0.0`.
- `generate_report` fails with a KeyError naming the CAPEX column when that
  column is absent, and with a ValueError when the group column is named
  `capex_count`, `capex_amount` or `total_count`, because `reset_index` cannot
  insert it beside the grouped report's column of the same name. Otherwise it flags each row whose amount is strictly above
  the threshold and builds the summary (`total_rows`, `capex_rows`,
  `total_capex_amount`). When `group_by` is a non-empty name of a column it
  also builds one row per group (`capex_count`, `capex_amount`,
  `total_count`); otherwise the report is one row holding the summary.

The Dafny modules follow that split:

- `Normalizer` (normalizer.dfy): the cell datatype, Python's `strip` and the
  lower-casing that matters for the truthy words, the per-cell amount
  `Amount`, and `NormalizeCapex`, which performs the masked overwrites of the
  coerced float column over an array, as the code does, and is proved to
  yield `Amount` of every cell.
- `Aggregation` (aggregation.dfy): the strict threshold test, the count and
  sum reductions as recursive functions, the grouped report as one row per
  distinct present key, and two single-pass methods with accumulators
  (`SummaryPass`, and `GroupPass` with a key-to-position map) proved equal to
  those functions. The lemmas prove the summary bounds and that the group
  columns add up to the summary.
- `CapexReport` (capex_report.dfy): the table as named columns of cells, the
  result of `generate_report` as a function `ReportOf`, the method
  `GenerateReport` proved equal to it, and the properties of the whole report.

A cell is a raw value of the table: `Num` for a number (booleans as 1 or 0),
`Text` for any string, numeric-looking or not, and `Missing` for an absent
value (the float NaN of an empty field). The numeric coercion keeps numbers, turns `Missing` into NaN, and
hands each string to `parse`, a parameter standing for the string parser of
`pd.to_numeric`; a string it rejects becomes NaN. Grouping uses the raw cells
as keys, so `"5"`, `"5.0"` and `"05"` are three groups even though they
coerce to the same amount, and this holds also when the CAPEX column itself
is the group column.

Amounts are Dafny `real`s: only comparison and addition are applied to them.

Rows whose group key is missing are dropped from the grouped report, since
the code uses pandas' default `groupby`; they still count in the summary. So
the group columns add up to the summary of the rows whose key is present,
and to the overall summary exactly when no key is missing.

## Model

| member | source | states |
|---|---|---|
| Normalizer.ToNumeric | capex_report.py:32 | definition of errors='coerce' on one cell: a number keeps its value, a string becomes the number the parser reads from it or NaN, a missing value becomes NaN |
| Normalizer.Coerce | capex_report.py:32 | definition of the coerced column: `ToNumeric` of every cell, in order |
| Normalizer.NonNumericMask | capex_report.py:35 | definition of `isna()` on the coerced column |
| Normalizer.AsText | capex_report.py:36 | definition of `astype(str)` on a cell that did not parse: a string is itself, `Missing` (the float NaN) is "nan" |
| Normalizer.Strip | capex_report.py:36 | `str.strip()`: the result is no longer than the text and neither begins nor ends with whitespace (Python's `isspace` set) |
| Normalizer.StripSplit | capex_report.py:36 | `strip` removes only surrounding whitespace: the text is a blank prefix, the stripped text, then a blank suffix |
| Normalizer.OtherMissingMarkersNotTruthy | capex_report.py:36-37 | the other missing markers, printed as "None", "<NA>" and "NaT", are not truthy, so they also give 0.0 |
| Normalizer.Lower | capex_report.py:36 | `str.lower()` on ASCII: same length, `A`-`Z` mapped to `a`-`z`, every other character kept |
| Normalizer.IsTruthy | capex_report.py:36-37 | a text is truthy when, stripped and lower-cased, it is one of yes, y, true, t, 1 |
| Normalizer.TruthyMask | capex_report.py:35-37 | definition of the cells that did not parse and whose text is truthy |
| Normalizer.Amount | capex_report.py:32-43 | a coerced number is the amount itself; a cell that did not parse gives 1.0 or 0.0 |
| Normalizer.NormalizeAll | capex_report.py:28-44 | definition of the normalized column: `Amount` of every cell, in order; `NormalizeCapex` is proved to compute it |
| Normalizer.MaskAnd | capex_report.py:39-40 | definition of the element-wise `&` of two masks |
| Normalizer.MaskNot | capex_report.py:40 | definition of the element-wise `~` of a mask |
| Normalizer.AssignWhere | capex_report.py:39-40 | `loc[mask] = value` sets exactly the selected entries to the value and leaves every other entry as it was |
| Normalizer.NormalizeCapex | capex_report.py:28-44 | coercion, the two masked overwrites over the float array and the final fill give one amount per input cell, in order, each equal to `Amount` of the cell, so no NaN is left |
| Normalizer.NonNumericIsZeroOrOne | capex_report.py:35-43 | a cell that did not parse becomes 1.0 or 0.0, and 1.0 exactly when it is text passing the truthy test |
| Normalizer.MissingIsZero | capex_report.py:36-43 | the float NaN renders as "nan", is not truthy, and becomes 0.0 |
| Normalizer.StripPadding | capex_report.py:36 | surrounding whitespace does not change the stripped text |
| Normalizer.StripLower | capex_report.py:36 | stripping and lower-casing commute |
| Normalizer.TruthyIgnoresCaseAndPadding | capex_report.py:36-37 | a text in other letter case with whitespace around it is truthy exactly when the original is |
| Normalizer.TruthyCharacterization | capex_report.py:36-37 | a text is truthy if and only if it is whitespace, one of yes/y/true/t/1 in any letter case, then whitespace |
| Normalizer.PaddedUpperYesIsOne | capex_report.py:36-39 | " YES " and "yes", when the parser rejects them, normalize to 1.0 |
| Normalizer.TrueAndUnknownWord | capex_report.py:32-40 | "True" normalizes to 1.0 and an unrecognised word to 0.0 when the parser rejects them; "5.5" read as 5.5 stays 5.5 |
| Aggregation.IsCapex | capex_report.py:54 | a row is CAPEX exactly when its amount is strictly above the threshold |
| Aggregation.CapexCount | capex_report.py:58 | the number of flagged rows never exceeds the number of rows |
| Aggregation.CapexAmount | capex_report.py:57 | the sum of the flagged amounts, 0.0 when none is flagged |
| Aggregation.Summarize | capex_report.py:57-65 | the summary has total_rows equal to the number of rows and capex_rows at most that |
| Aggregation.CapexAmountAtLeastCountTimesThreshold | capex_report.py:54-57 | every summed amount exceeds the threshold, so the CAPEX sum is at least the CAPEX count times the threshold |
| Aggregation.CapexAmountNonNegative | capex_report.py:54-57 | with a non-negative threshold the CAPEX sum is non-negative |
| Aggregation.SummaryBounds | capex_report.py:54-65 | the summary's total_capex_amount is at least capex_rows times the threshold, and non-negative for a non-negative threshold |
| Aggregation.CapexAmountOfNonNegative | capex_report.py:54-57 | when no amount is negative the CAPEX sum is non-negative, whatever the threshold |
| Aggregation.NoneFlagged | capex_report.py:54-58 | no row is flagged if and only if every amount is at most the threshold, and the CAPEX sum is then 0.0 |
| Aggregation.AllFlagged | capex_report.py:54-58 | every row is flagged if and only if every amount is above the threshold |
| Aggregation.ThresholdIsStrict | capex_report.py:54 | an amount equal to the threshold is not CAPEX; any amount above it is, and is summed |
| Aggregation.SummaryPass | capex_report.py:57-59 | the one-pass accumulators give the row count, the flagged count and the flagged sum |
| Aggregation.Select | capex_report.py:68-70 | the amounts of the rows with a given key, in row order, never more than the rows |
| Aggregation.DistinctKeys | capex_report.py:68 | the distinct present keys in order of first appearance, never more than the rows |
| Aggregation.GroupOf | capex_report.py:69-71 | the row of one group carries its key, and its capex_count is at most its total_count, which is at most the number of rows |
| Aggregation.Groups | capex_report.py:68-72 | the grouped report has one row per distinct present key |
| Aggregation.GroupPass | capex_report.py:68-72 | the one-pass key-to-accumulator map gives exactly the grouped report |
| Aggregation.DistinctKeysSound | capex_report.py:68 | the grouped keys are exactly the present keys of the group column, each once |
| Aggregation.GroupsSnocMissing | capex_report.py:68 | a row with a missing group key leaves the grouped report unchanged |
| Aggregation.GroupsSnocExisting | capex_report.py:68-72 | a row whose key has a group changes that group only, by one row and its flagged amount |
| Aggregation.GroupsSnocNew | capex_report.py:68-72 | a row with a new present key adds one group holding just that row |
| Aggregation.GroupOfBounded | capex_report.py:69-71 | a key that occurs has at least one row, its capex_count is at most its total_count, and its capex_amount is at least capex_count times the threshold |
| Aggregation.GroupRowsBounded | capex_report.py:68-72 | every row of the grouped report satisfies those per-group bounds |
| Aggregation.GroupKeysExact | capex_report.py:68 | the grouped report has one row for each present key and no key twice |
| Aggregation.GroupTotalsArePresentSummary | capex_report.py:57-72 | summed over groups, total_count, capex_count and capex_amount equal the row count, flagged count and flagged sum of the rows with a present key |
| Aggregation.GroupTotalsMatchSummary | capex_report.py:57-72 | when no group key is missing, the group sums equal total_rows, capex_rows and total_capex_amount |
| CapexReport.Message | capex_report.py:49 | the KeyError's message, and the ValueError's "cannot insert …, already exists", each name the offending column |
| CapexReport.GroupsBy | capex_report.py:67 | the report is grouped when group_by is given, non-empty and a column of the table |
| CapexReport.NameClash | capex_report.py:67-72 | grouping fails when group_by is used and is one of capex_count, capex_amount, total_count |
| CapexReport.ReportOf | capex_report.py:47-84 | the report fails exactly when the CAPEX column is absent (KeyError naming it) or the group column is named like a value column of the grouped report (ValueError naming it, capex_report.py:68-72); otherwise total_rows is the row count, capex_rows is at most it, the report is grouped exactly when group_by is a non-empty column name, and the fallback row is the summary |
| CapexReport.GenerateReport | capex_report.py:47-84 | the imperative composition (check, normalize, one-pass summary, one-pass grouping or fallback) returns exactly ReportOf |
| CapexReport.SummaryIgnoresGroupBy | capex_report.py:57-67 | the summary of every produced report is the count and sum over the normalized column, the same whatever group_by is |
| CapexReport.TotalAmountBound | capex_report.py:54-65 | in a produced report total_capex_amount is at least capex_rows times the threshold, and non-negative for a non-negative threshold |
| CapexReport.NonNegativeColumnTotal | capex_report.py:32-57 | when no cell of the CAPEX column coerces to a negative number, a produced report has a non-negative total_capex_amount at any threshold, because every other cell gives 1.0 or 0.0 |
| CapexReport.GroupedReportAddsUp | capex_report.py:57-75 | the grouped report's columns add up to the summary of the rows with a present key, and to the summary itself when no key is missing |
| CapexReport.ReportExample | capex_report.py:47-84 | rows A:"yes", A:"0", B:"5.5" at threshold 0.0 grouped by project give A (1, 1.0, 2), B (1, 5.5, 1) and the summary (3, 2, 6.5) |
| CapexReport.GroupByCapexColumnKeepsRawKeys | capex_report.py:68-72 | grouping by the CAPEX column itself groups its raw cells: "5" and "5.0", both read as 5.0, stay two groups of one row each |
| CapexReport.NameClashExample | capex_report.py:67-72 | grouping by a caller column named total_count fails with the ValueError naming it |

## Left out

- `Missing` is the float NaN. Other missing markers (`None`, `pd.NA`, `NaT`) print differently at capex_report.py:36 but give the same 0.0 (`OtherMissingMarkersNotTruthy`); the model does not distinguish them.
- Command line and file handling (`parse_args`, `main`, the input-exists check, `pd.read_csv`, `to_csv`, the printed lines and the exit codes, capex_report.py:18-25 and 87-114): input and output plumbing around the core. `main` catches only the KeyError, so the ValueError of a clashing group column ends the program; the model stops at the failed outcome. The CSV reader decides which cells arrive as numbers and which as strings; the model takes the table as given.
- The string parser inside `pd.to_numeric` (capex_report.py:32): a library call, so it is the parameter `parse`; the model states its results for whatever that parser accepts or rejects.
- Booleans: `pd.to_numeric` leaves a boolean column boolean, and the comparison and sums at capex_report.py:54 and 57 treat `True` and `False` as 1 and 0; the model represents them as `Num(1.0)` and `Num(0.0)`.
- Infinite values and float64 rounding: an amount is a Dafny `real`, so sums are exact and there is no infinity.
- The threshold is a `real`. A NaN or infinite threshold, which `type=float` accepts at capex_report.py:24, is not modelled: a NaN threshold would flag no row, and then the bound `total_capex_amount >= capex_rows * threshold` does not hold.
- Lower-casing of characters outside ASCII: `Lower` maps only `A`-`Z`. Python's `str.lower` also maps other letters, but the only non-ASCII characters it maps into ASCII are KELVIN SIGN (to `k`) and LATIN CAPITAL LETTER I WITH DOT ABOVE (to `i` plus a combining dot), and neither can form a truthy word, so the truthy test is unaffected.
- Order of the grouped rows: pandas sorts the group keys; the model lists groups in order of first appearance. No stated property depends on the order.
- The scratch columns `_capex_amount` and `_is_capex` that the code writes into the caller's table (capex_report.py:51, 54): not part of the result. Because they are added before the `group_by in df.columns` test, the code also accepts those two names as group columns and overwrites caller columns of the same names; the model tests `group_by` against the caller's own columns only.
- `total_count` is pandas' `count` of non-NaN amounts (capex_report.py:71); the model uses the number of rows in the group, which is the same because no amount is NaN.
- The `float(...)` and `int(...)` conversions and `astype(int)` (capex_report.py:57-58, 74): counts are `nat` and amounts `real` in the model.
