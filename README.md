# Vaccination dashboard: the data pipeline under the UI

The dashboard (`app.py`) loads a spreadsheet of vaccination registration and
vaccination counts. It lets the user filter by union council (`UC`), facility
and vaccinator, and shows per-date-range totals, a filtered table and a
grouped bar chart. Under the Streamlit calls there is a small pipeline of
string and sequence logic. This project models that pipeline in Dafny and
proves what it promises:

- **Column clean-up** (line 55). Every column name loses `(` and `)`, and
  each space becomes `_`. Module `Columns`.
- **Date-range discovery** (lines 58-61). Module `Schema`.
  - Keep the `Reg`/`Vac` columns.
  - Find the leftmost match of `\d{1,2}_[A-Za-z]{3}-\d{1,2}_[A-Za-z]{3}` in each one.
    The matcher is written by hand and backtracks like Python's `re`: two
    digits are tried before one.
  - Sort the matches and drop duplicates. `sorted(set(...))` is `Text.SortedUnique`,
    over Python's code-point order on `str` (`Text.Below`).
  - Map each range to its synthesised `Reg<range>`/`Vac<range>` column pair.
- **Candidate lists** (lines 68-74) and the **conjunctive filter** (lines
  83-93). `"All"` means "no constraint". The filter narrows a copy of the
  table one mask at a time and reports an empty result. Module `Filters`.
- **Aggregation and output shaping** (lines 78-80, 98-101, 108-115, 128-143).
  Module `Aggregation`.
  - An empty date-range choice falls back to all ranges.
  - For each range: the Reg and Vac column totals.
  - The display columns, the rename map and the renamed header.
  - The long-form chart rows.
- **The whole script** as one method, `Dashboard.Run`. The sidebar's values
  are its parameters. Its contract ties every output back to the filtered rows
  and the discovered ranges.

Rows are values: three category strings and a map from cleaned column name
to a `Cell`. A `Cell` is `Blank` or `Count(n)`, and a blank counts 0, as
`.sum()` skips missing values. The three places where the script changes
variables step by step are methods with loops or reassignments:
`Filters.ApplyFilters` (lines 83-89), `Aggregation.DisplayColumns` (lines
109-114) and `Aggregation.BuildChart` (lines 129-143). The summary loop of
lines 98-101 is `Aggregation.SummaryTotals`. Each method is proved against
the specification functions (`Conforming`, `ColumnSum`, `PairFor`, `Label`).

Three behaviours of the code that the model keeps as they are:

- A range becomes a bucket when either its `Reg` or its `Vac` column matches.
  Nothing checks that both columns exist. The summary at lines 99-101 looks
  up both columns of each effective range once the filter has left rows, and
  raises a `KeyError` when one is missing. `Dashboard.Run` therefore
  *requires* both columns for the effective ranges whenever some row passes
  the filter.
- The vaccinator candidates follow line 74 as written (see Findings).
- Ranges are sorted as strings, not by date (`"10_Jan-16_Jan"` comes before
  `"3_Jan-9_Jan"`). The model keeps this order.

## Model

| member | source | states |
|---|---|---|
| Text.Remove | app.py:55 | `s.replace(c, '')`: no `c` is left, the multiset of the rest is unchanged, and the result is an order-preserving subsequence of `s` |
| Text.Replace | app.py:55 | `s.replace(a, b)` for single characters: same length, each `a` becomes `b`, every other character stays in its place |
| Text.ReplaceRoundTrip | app.py:113-114 | replacing `a` by `b` and then `b` by `a` gives the string back when `b` did not occur in it |
| Text.Below | app.py:59-60 | Python's `<` on `str`, used by `sorted`: `a` is a proper prefix of `b`, or the two agree up to a position where `a` has the smaller code point |
| Text.SortedUnique | app.py:59-60 | `sorted(set(xs))`: strictly increasing in Python's string order, holds exactly the elements of `xs`, and is no longer than `xs` |
| Text.SortedIsCanonical | app.py:59-60 | two strictly sorted lists with the same elements are equal, so `SortedUnique` is the one sorted duplicate-free list of those elements |
| Columns.Normalise | app.py:55 | a cleaned column name contains no `(`, `)` or space and is no longer than the original |
| Columns.NormaliseIsOnePass | app.py:55 | the three chained replaces equal a one-pass rewrite: parentheses dropped, space turned into `_`, every other character kept in order |
| Columns.NormaliseIdempotent | app.py:55 | cleaning a cleaned name changes nothing |
| Columns.NormaliseColumns | app.py:55 | the comprehension cleans every column name and keeps the column order and count |
| Schema.MatchSound | app.py:59 | a match found at position `p` is at least 11 characters long, lies inside the name, and has the shape `d{1,2}_LLL-d{1,2}_LLL` |
| Schema.MatchComplete | app.py:59 | any token starting at `p` is exactly the match the backtracking engine returns at `p`, so the two-digits-first order never changes the result |
| Schema.MatchAt | app.py:59 | the regular expression anchored at one position, two digits tried before one: a match ends 11 to 13 characters later, inside the name (`MatchSound`, `MatchComplete` give its shape and uniqueness) |
| Schema.SearchFrom | app.py:59-60 | `re.search` returns a token, and no token starts at an earlier position; no match means the name holds no token at all |
| Schema.Search | app.py:59 | `re.search` finds a match exactly when some substring of the name is a token, and no token starts before the match |
| Schema.FindToken | app.py:59-60 | `.group()` of a match is a token |
| Schema.LeftmostMatchExample | app.py:59-60 | in `Reg112_Jan-19_Jan` the match is `12_Jan-19_Jan`; `Reg_total` has none |
| Schema.TokenHasNoSpace | app.py:59 | a token contains no space, which makes the display label reversible |
| Schema.IsDateColumn | app.py:58 | `col.startswith(('Reg', 'Vac'))`: `Reg` or `Vac` is a prefix of the name |
| Schema.DateColumns | app.py:58 | exactly the columns starting with `Reg` or `Vac` |
| Schema.FoundTokens | app.py:59-60 | holds exactly the matches of the columns that have one; a column without a match contributes nothing |
| Schema.DateRanges | app.py:58-60 | `date_ranges` is strictly increasing (so duplicate-free), every element is a token, and a string is in it exactly when it is the leftmost match of some `Reg`/`Vac` column |
| Schema.DateToColumns | app.py:61 | `date_to_columns` has exactly the ranges as keys and maps each range to `Reg<range>`, `Vac<range>` |
| Schema.PairNamesDistinct | app.py:61 | the synthesised names identify their range, and no `Reg` name equals a `Vac` name |
| Filters.Where | app.py:84-89 | one mask `df[df[col] == v]` keeps exactly the rows whose value in that column is `v` |
| Filters.Conforming | app.py:83-89 | the filtered rows are an order-preserving subsequence of the table; each row that meets every non-`"All"` selection appears as often as in the table, and no other row appears |
| Filters.WhereNarrows | app.py:84-89 | applying one more mask to the filtered rows is filtering with that selection added |
| Filters.ConformingEverything | app.py:83 | with all three selections `"All"` the result is the whole table |
| Filters.ApplyFilters | app.py:83-93 | the step-by-step reassignment of `filtered_df` yields exactly the conjunctive filter, and the empty flag is set exactly when no row meets every selection |
| Filters.TighterFiltersFiltered | app.py:83-89 | filtering with a tighter selection equals filtering the looser result again |
| Filters.FilterMonotone | app.py:83-89 | adding a constraint never lets more rows through, and the rows it keeps stay in order |
| Filters.FilterIdempotent | app.py:83-89 | filtering twice with the same selections is filtering once |
| Filters.Column | app.py:68-74 | the values of one category column: exactly those of some row |
| Filters.Ucs | app.py:68 | the UC candidates are sorted, duplicate-free, and exactly the UC values present |
| Filters.Facilities | app.py:71 | facility candidates are sorted and duplicate-free; they come from all rows when UC is `"All"`, otherwise from the rows with that UC |
| Filters.FacilityOffered | app.py:71 | a facility is offered exactly when choosing it under the chosen UC leaves some row |
| Filters.Vaccinators | app.py:74 | as written: from all rows only when UC and facility are both `"All"`, otherwise from rows whose UC and facility equal the two selected strings literally |
| Filters.VaccinatorMissing | app.py:74 | with UC `"All"` and facility `F1`, a vaccinator with rows at `F1` is missing from the as-written list but present in the corrected one |
| Filters.CascadedVaccinators | app.py:74 | the corrected cascade is sorted and duplicate-free |
| Filters.CascadedVaccinatorOffered | app.py:74 | a vaccinator is offered by the corrected cascade exactly when choosing it under the current UC and facility leaves some row |
| Aggregation.ColumnSum | app.py:100-101 | `.sum()` of a count column with blanks skipped: never negative when no count is, and 0 when every cell is blank |
| Aggregation.SumAppend | app.py:100-101 | the total over a concatenation of row sequences is the sum of the parts' totals |
| Aggregation.BlankCountsZero | app.py:100-101 | a blank cell contributes 0 to a column total |
| Aggregation.TwoRowTotalsExample | app.py:100-101 | two rows with (10, 8) and (5, 4) give Reg 15 and Vac 12 |
| Aggregation.FilteredSumBounded | app.py:100-101 | with non-negative counts, a filtered total lies between 0 and the whole table's total |
| Aggregation.EffectiveRanges | app.py:78-80 | an empty choice falls back to all ranges and raises the warning; a non-empty choice is kept as it is; every effective range is a discovered one |
| Aggregation.Label | app.py:103 | the label of a range has the same length and no `_` |
| Aggregation.LabelRoundTrip | app.py:113-114 | turning the label's spaces back into `_` recovers a range that has no spaces |
| Aggregation.DisplayName | app.py:113-114 | `f'Reg ({label})'`/`f'Vac ({label})'`: the prefix, then ` (`, then the label, which holds no `_`, then `)` |
| Aggregation.DisplayNameRoundTrip | app.py:113-114 | `Reg (<label>)` and `Vac (<label>)` read back to the range |
| Aggregation.SummaryTotals | app.py:98-101 | one entry per chosen range, in choice order, holding the sums of that range's Reg and Vac columns over the filtered rows |
| Aggregation.DisplayColumns | app.py:108-114 | `table_columns` is the three category columns, then the Reg/Vac pair of each chosen range in order; `rename_dict` has exactly those pair columns as keys, each mapped to its `Reg (...)`/`Vac (...)` name |
| Aggregation.RenamedHeader | app.py:115 | `.rename(columns=...)` renames the listed columns and keeps the others, position by position |
| Aggregation.BuildChart | app.py:128-143 | `chart_data` has 2·n rows for n ranges, in choice order: a Registrations row then a Vaccinations row per range, labelled with `_` turned into a space, with the range's column totals |
| Dashboard.CategoryColumnsNotRenamed | app.py:108-115 | no category column is the `Reg`/`Vac` name of a token, so the rename leaves it alone (`VaccinatorName` starts with `Vac` but is no token's column) |
| Dashboard.ColumnsPresent | app.py:99-101 | when each range the summary looks up has both columns in the table, every filtered row has those cells |
| Dashboard.RenamedHeaderReadsBack | app.py:113-115 | each range's two display names in the header read back to that range |
| Dashboard.RenamedHeaderKeepsCategories | app.py:108-115 | the header starts with the three category column names |
| Dashboard.Present | app.py:96-143 | totals, table columns, header and chart agree position by position: the chart counts are the summary totals, the header holds `Reg (<label>)` at each range's Reg position and `Vac (<label>)` at its Vac position, and those names read back to the ranges |
| Dashboard.Run | app.py:55-143 | the script halts exactly when no row meets the selections; it fails at line 97 exactly when rows remain but there is no range at all; the warning is raised exactly when no range was chosen; otherwise every output, header names included, is tied to the filtered rows and the effective ranges |

## Left out

- Streamlit presentation is not modelled: the CSS, title, sidebar layout, select boxes, columns, expander and markdown (lines 7-38, 64-77, 96-97, 102-107, 124). Only one effect of line 97 is kept: `st.columns(0)` raises an exception when there is no range, which is `Dashboard.Run`'s `Failed` result. The widgets' values are parameters of `Dashboard.Run`.
- The `st.warning` messages become the `warned` flag and the `Halted` result. `st.stop` is the early return.
- Loading the Excel file, `@st.cache_data` and the load errors are I/O and are not modelled (lines 41-52). The model starts from the header and the rows.
- Renaming pandas columns in place is not modelled: the rows' cells are keyed by the cleaned names already. Two columns that clean to the same name are not modelled.
- `filtered_df[table_columns]` (selecting those columns from the rows), `st.dataframe`, `to_csv` and the download button are not modelled (lines 115-121). Only the column list and the renamed header are.
- The Plotly chart and its layout are an external library (lines 145-167). The model stops at `chart_data`.
- Thousands-separator formatting (line 104) is presentation.
- pandas dtypes, floats and NaN in the category columns are not modelled. Counts are integers, and a blank count cell is 0.
- The second empty check (lines 125-126) is dead after the halt at lines 91-93.
- Schema.MatchAt: Python's `\d` also matches non-ASCII Unicode digits. The model accepts ASCII `0`-`9` only.
- Dashboard.Run: requires that both `Reg<range>` and `Vac<range>` exist for every effective range when some row passes the filter. Without them the script raises a `KeyError` at lines 99-101, an outcome the model does not represent.
- Dashboard.Run: requires every chosen range to be a discovered range, which the multiselect's options guarantee.

## Findings

| source | as written | input that shows it | evidently intended | confidence | as-written member | corrected member |
|---|---|---|---|---|---|---|
| app.py:74 | When exactly one of UC and facility is `"All"`, the vaccinator list is taken from rows whose UC (or facility) equals the string `"All"`, so it is empty in practice. | One row (UC `UC1`, facility `F1`, vaccinator `V1`); UC `"All"`, facility `F1` selected: only `"All"` is offered, although `V1` has rows at `F1`. | The vaccinators of the rows the current UC and facility selections let through, as the facility list does for UC (line 71). | not executed; follows from the proved lemmas | Filters.VaccinatorMissing | Filters.CascadedVaccinatorOffered |

The candidate lists only fill the drop-downs and feed no other computation.
`Dashboard.Run` takes the selections as parameters, so the rest of the model
is the same under either list.
