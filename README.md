# Balaji Fast Food Sales: processing pipeline and dashboard, in Dafny

This project models the two computations of the point-of-sale sales system:

- **Data processor** (`load_and_process_data`, `src/main.py`). It takes the raw transaction table and does four things in place. It removes exact duplicate rows, keeping the first copy and the original order. It converts `date` to timestamps and derives `Year` and `Hour`. It replaces a missing `transaction_type` with `"Credit Card"`. It computes `total_amount = item_price * quantity`. The model (module `Processing`) copies the rows into an array and runs one loop per step. The steps are an in-place deduplication (`DropDuplicates`) and one whole-column assignment per derived column (`AssignColumn`). `LoadAndProcessData` is proved equal to the specification function `Processed`, and the lemmas state what that table satisfies.
- **Dashboard** (`main`, `dashboard.py`, without Streamlit and plotly). For one table, one selected year and one selected time of sale it computes these views. The two select boxes' options. The year-filtered rows and the year-and-time-filtered rows. The per-item-type sums sorted by total, largest first. Each panel's total metric. The per-year totals the forecast is fitted to. It is modelled as pure functions (module `Dashboard`), ending in `Main`. `Main` yields an error screen when the processed file is missing, only a warning when the table is empty, and otherwise the panels.

Deduplication runs on the rows as read, before any column is rewritten. The processed table can therefore hold equal rows: rows that differed only in date text that parses to the same timestamp, in a missing versus a literal "Credit Card" transaction type, or in a stale derived column all come out equal (`EqualAfterParsingStillBothKept` shows the first case).

Null semantics are explicit. Every cell is an `Option`. A missing price or quantity makes `total_amount` missing. Sums skip missing amounts (`Amount`). Grouping and the option lists drop missing keys (`KeysOf`). The year and time filters never match a missing value or a missing selection.

The second panel's chart is drawn from the year-only groups (`grouped`), not from `grouped2`, exactly as the code does (dashboard.py:75-76). The model keeps this behaviour: `Main`'s contract includes `secondChart == grouped`, and `SecondChartDiffersFromGrouped2` shows when the two differ.

Modules: `Wrappers` (Option, Result), `Orders` (strict total orders, Python's string order, sorted distinct values), `Records` (the transaction record), `Processing`, `Dashboard`.

## Model

| member | source | states |
|---|---|---|
| `Processing.LoadAndProcessData` | src/main.py:6-47 | Fails with `InputFileNotFound` when the input file is absent. Otherwise it returns exactly `Processed(input, parse)`, whatever the outcome of the save. |
| `Processing.DropDuplicates` | src/main.py:22 | In place: the table becomes the first copy of every distinct row, in order (`Distinct` of the old contents). |
| `Processing.AssignColumn` | src/main.py:27-35 | In place: every row of the table is replaced by the step applied to it; cells past the table are untouched. |
| `Processing.Distinct` | src/main.py:22 | Deduplication never lengthens the table and keeps exactly the rows that occur in the input. |
| `Processing.DistinctHasNoDuplicates` | src/main.py:22 | After deduplication no two rows are equal. |
| `Processing.DistinctKeepsFirstCopyOrder` | src/main.py:22 | Kept rows appear in the order of their first copies in the input. |
| `Processing.FirstIndex` | src/main.py:22 | The returned position holds the row, and no earlier position does. |
| `Processing.ToDatetime` | src/main.py:27 | `to_datetime(errors='coerce')` on one cell: the result is converted; missing text gives a missing timestamp, other text gives what the parser returns, and a converted cell stays as it is. |
| `Processing.WithYear` | src/main.py:28 | `.dt.year`: only `Year` changes; it is missing exactly when the row's timestamp is, and otherwise is that timestamp's year. |
| `Processing.WithHour` | src/main.py:29 | `.dt.hour`: only `Hour` changes; it is missing exactly when the row's timestamp is, and otherwise is that timestamp's hour. |
| `Processing.WithDefaultTransactionType` | src/main.py:32 | `fillna("Credit Card")`: only the transaction type changes; it is always present, a present value is kept and a missing one becomes "Credit Card". |
| `Processing.Product` | src/main.py:35 | `item_price * quantity` on one row: present exactly when both operands are, and then their product. |
| `Processing.WithTotalAmount` | src/main.py:35 | Only `total_amount` changes; it is present exactly when price and quantity are, and then their product. |
| `Processing.Processed` | src/main.py:21-35 | The processed table has one row per distinct input row, in first-copy order. Each is that row with every column step applied, so its date is converted and its transaction type is present. |
| `Processing.TestRowsCollapse` | tests/test_main.py:14-31 | The test's two identical rows give one row: "Credit Card", total 100, Year 2023, Hour 0. |
| `Processing.EqualAfterParsingStillBothKept` | src/main.py:22-27 | Rows whose date texts differ but parse to the same timestamp both survive deduplication, and come out equal. |
| `Processing.ProcessedDateYearHour` | src/main.py:27-29 | Every date is converted; missing or unparseable text gives a missing timestamp. `Year` and `Hour` are missing exactly when the timestamp is, and otherwise are its year and hour. |
| `Processing.ProcessedTransactionType` | src/main.py:32 | No transaction type is missing: missing ones become "Credit Card", present ones are unchanged. |
| `Processing.ProcessedTotalAmount` | src/main.py:35 | `total_amount` is present exactly when price and quantity are, and is then their product. |
| `Processing.ProcessedKeepsSourceColumns` | src/main.py:27-35 | The steps keep the deduplicated row count and leave item type, price, quantity and time of sale unchanged. |
| `Processing.ReprocessingOnlyDeduplicates` | src/main.py:22-35 | Processing a processed table again changes no cell; it only drops rows that became equal during processing (by parsing, filling, or overwriting a derived column). |
| `Orders.StringLessIsStrictTotalOrder` | dashboard.py:66 | Python's string order (code-point lexicographic) is irreflexive, transitive and total, so `sorted` on strings is well defined. |
| `Orders.SortedUnique` | dashboard.py:34 | `sorted(unique(...))`: strictly ascending, and holds exactly the values of the input. |
| `Dashboard.KeysOf` | dashboard.py:34 | `dropna()`: a value is listed exactly when some row has it present. |
| `Dashboard.YearOptions` | dashboard.py:34 | The year box offers each distinct non-missing Year once, strictly ascending, and nothing else. |
| `Dashboard.TimeOptions` | dashboard.py:66 | The time box offers each distinct non-missing time of sale once, strictly ascending, and nothing else. |
| `Dashboard.Filter` | dashboard.py:46 | A boolean mask never lengthens the table (what it keeps is stated by `FilterCounts`, `FilterMembers` and `FilterIsSubsequence`). |
| `Dashboard.FilterCounts` | dashboard.py:46 | A boolean mask keeps each matching row as often as it occurs and drops the others. |
| `Dashboard.FilterMembers` | dashboard.py:46 | A row is in the filtered table exactly when it is in the table and matches. |
| `Dashboard.FilterIsSubsequence` | dashboard.py:46 | A boolean mask keeps the table's order. |
| `Dashboard.FilterConjunction` | dashboard.py:70 | Filtering by `a & b` equals filtering by `a`, then by `b`. |
| `Dashboard.FilterByYear` | dashboard.py:46 | `filtered` holds exactly the rows of the selected year, each as often as in the table, in table order; a missing selection or a missing Year never matches. |
| `Dashboard.FilterByYearAndTime` | dashboard.py:70 | `filtered2` holds exactly the rows of both the selected year and the selected time, each as often as in the table. |
| `Dashboard.FilterByYearAndTimeRefines` | dashboard.py:46-70 | `filtered2` is `filtered` restricted to the selected time, hence a subsequence of it. |
| `Dashboard.GroupBy` | dashboard.py:47 | `groupby(...)["total_amount"].sum()`: one group per distinct present key and no other, keys strictly ascending and distinct, each group's total the sum for its key; the groups total the rows with a present key. |
| `Dashboard.Amount` | dashboard.py:49 | What a row adds to the metric: its `total_amount`, or 0 when that is missing. |
| `Dashboard.SumAmounts` | dashboard.py:49 | The panel metric `['total_amount'].sum()` (also at line 73 for the second panel): an empty table, or one whose amounts are all missing, sums to 0; `SumForKeyIsFilteredSum` and `TotalSalesMatchesChart` relate it to the groups. |
| `Dashboard.SumAmountsAppend` | dashboard.py:49 | The metric is additive: the sum over two tables put together is the sum of their sums. |
| `Dashboard.SumForKeyIsFilteredSum` | dashboard.py:47-49 | A group's value equals the metric computed over that key's rows alone. |
| `Dashboard.SortByTotalDesc` | dashboard.py:47 | `sort_values(ascending=False)`: non-increasing totals, a permutation of the groups, same grand total. |
| `Dashboard.SortKeepsDistinctKeys` | dashboard.py:47 | Sorting keeps one group per key. |
| `Dashboard.SalesByItemType` | dashboard.py:47 | `grouped`/`grouped2`: one bar per distinct item type of the rows and no other, keys distinct, each bar that type's sum of amounts, in non-increasing order; bars total the rows with a known item type. |
| `Dashboard.TotalSalesMatchesChart` | dashboard.py:47-49 | When every row of a set of rows has an item type, the metric over those rows equals the total of their own groups. So each panel's metric equals the total of its own groups: `grouped` for the first panel, `grouped2` for the second. The second panel draws `grouped`, whose bars total the selected year's rows, not the rows of `filtered2`. |
| `Dashboard.YearlySales` | dashboard.py:90 | One yearly total per year-box option, in the same order, each that year's sum; together they total every row with a known year. |
| `Dashboard.Main` | dashboard.py:23-96 | Missing processed file: error screen only. Empty table: warning only, with no options, aggregates or forecast. Otherwise a view consistent with the table and both selections (contents of the options, filters, charts and yearly totals as for `Panels`), whose second chart is `grouped`. |
| `Dashboard.Panels` | dashboard.py:34-90 | `filtered` and `filtered2` hold exactly the selected rows, nested, in order. Each metric is its table's null-skipping sum. Each option list holds exactly the column's distinct known values, strictly ascending. Each chart holds one bar per item type of its rows and no other, keys distinct, with that type's sum, in non-increasing order; the second chart is `grouped`. Each group list totals its rows with an item type, and equals its panel's metric when every such row has one (`grouped` for the first panel, `grouped2` for the second). The second panel draws `grouped`, whose bars total the selected year's rows, not the rows of `filtered2`. The yearly totals follow the year options, each is its year's sum, and they total the rows with a known year. |
| `Dashboard.SecondChartIgnoresTime` | dashboard.py:70-76 | The second chart has a bar for every item type of the selected year; `grouped2` only for types sold at the selected time. |
| `Dashboard.SecondPanelMetricDiffersFromItsBars` | dashboard.py:70-76 | Take two rows of the selected year that both have an item type, only the first sold at the selected time. Every row of `filtered2` has an item type, yet the second panel's metric is the first row's amount while its bars total both rows' amounts. The two differ whenever the second row's amount is non-zero. |
| `Dashboard.SecondChartDiffersFromGrouped2` | dashboard.py:70-76 | If an item type sold in the selected year was not sold at the selected time, the second chart differs from `grouped2`. |

## Left out

- Reading and writing CSV files, `os.path.exists`, `os.path.abspath`, `os.getcwd` and the printed diagnostics are file I/O. File existence and save success are boolean inputs; the rows of the input file are an input.
- The text round trip between the processor's output file and the dashboard's input is left out. The dashboard is given a table of records directly.
- `pd.to_datetime` is a foreign parser. It is the function parameter `parse`; its algorithm is not modelled.
- `Processing.ProcessedDateYearHour`: `parse` is applied to each cell on its own. pandas' `to_datetime(errors='coerce')` infers one format from the column's first non-missing value, and turns cells that do not match it into NaT. So in pandas one row's timestamp can depend on the other rows, which the model does not capture.
- Timestamps have no validity constraint (for example `hour` in 0..23): the parser is arbitrary.
- `Processing.WithYear`, `Processing.WithHour`: on a date cell that was never converted they yield a missing value, where pandas' `.dt` accessor would raise; the pipeline only applies them after conversion.
- Streamlit widgets, `st.cache_data`, `st.stop`, plotly rendering and the `:,.0f` formatting are UI behaviour. A select box's choice is an input (`None` when the box has no options). The model does not require it to be one of the offered options.
- The scikit-learn `LinearRegression` fit and the 2024 prediction are floating-point least squares in a foreign library. Only the yearly totals that feed it are modelled.
- `Dashboard.SortByTotalDesc`: pandas' default sort is not stable, so only non-increasing order and being a permutation are stated. The model's own tie order is one admissible order.
- Prices, quantities and totals are whole numbers, as in the repository's test data; floating-point prices and floating-point arithmetic are not modelled.
- `Processing.Product`, `Dashboard.SumAmounts`, `Dashboard.SumKeyIn`: unbounded integers. pandas stores whole-number products and sums as 64-bit integers, which wrap around silently on overflow; that wrap-around is not modelled.
- `Dashboard.Main`: when the table is non-empty but no row has a known Year, the yearly totals are empty and fitting the forecast raises an error after the panels are drawn (dashboard.py:94). The model returns the view, with empty yearly totals, and does not model that error.
