# Retail sales: reshape, change tables, OHLC summary and workbook export

This project models the data-shaping core of `retail_sales.py`, a small
application that fetches the US Census monthly retail trade survey (MARTS)
and offers it as a multi-sheet spreadsheet:

- **Reshape** (`clean_retail_sales_data`, lines 57-69). Each raw survey row is
  labelled from the category lookup. Only the monthly-sales (`SM`) rows of
  the selected seasonal-adjustment series are kept. Their values are cast
  with `astype(int)` and their periods parsed with
  `to_datetime(format='%Y-%m')`. The result is pivoted into a
  date-by-category table.
- **Change tables** (`diff(1)`, `diff(3)`, `diff(12)`, lines 119-130).
- **OHLC summary** (`gen_ohlc`, lines 71-84). For every category it gives
  the latest level, plus Open, High, Low and Close of the last 13 rows of
  one percent-change table.
- **Export** (`to_excel`, lines 92-104). It overwrites every table's column
  labels with `str(c)[:31].replace(":", "_")`. It then sets every data
  column's width to `max(longest cell text, label length)` and the index
  column's width to 10.

Modules:

- `Outcomes`: `Option` and `Result`.
- `Ordering`: sorted, duplicate-free insertion under a strict total order.
- `Tables`: dates, Python's `str` order, the wide table.
- `Parsing`: `int()` on text within the int64 range; `YYYY-MM` periods.
- `Reshape`, `Lag`, `Ohlc`, `Export`: the four parts above.

Reshape, change tables and OHLC are pure functions with lemmas. The export
is imperative:

- A `Frame` is a class whose `labels` field the export overwrites.
- The widths are computed by a loop over the columns, proved against
  `SheetWidths`.
- `ToExcel` walks the bundle, and its contract gives the new labels of every
  frame, including frames that appear under two sheet names.

Behaviour of the source worth noting:

- A category code missing from a lookup map keeps its own code as its label
  (`Series.replace` leaves unmatched values alone). It is not made null.
- `pivot` sorts the column labels as well as the dates. The wide table's
  columns are therefore strictly increasing in Python's `str` order, not
  in arbitrary order.
- When no row is monthly sales of the selected series, the cast and the
  parse succeed on empty columns, but the pivot's `cell_value` column level
  is unused, so line 69's `x['cell_value']` raises `KeyError`. This is the
  error `NoRows`; there is no empty result table.
- Two rows for the same (date, label) make `pivot` raise. This is the error
  `DuplicateEntries`.
- Sheet names are passed to the writer unchanged. The 31-character cut and
  the ':' replacement are applied to column labels only.
- The index column gets a width of exactly 10, not a minimum of 10.
- `gen_ohlc` raises on an empty levels table before it looks at the window
  (line 79). It raises on an unknown window, because `df_pct` is unbound
  (line 80). It raises on a one-row table (`iloc[1]`).
- On an empty table, Python's `max(nan, k)` is NaN, so the width of every
  data column is NaN (here `None`).
- Two labels that coincide after sanitising make line 100 fail. This
  happens after that table's labels have already been overwritten.

## Model

| member | source | states |
|---|---|---|
| Parsing.CastInt | retail_sales.py:65 | a cast value lies in the int64 range |
| Parsing.ParseInteger | retail_sales.py:65 | text that `int()` reads as an integer holds at least one digit |
| Parsing.ParseDigits | retail_sales.py:65 | `int()` reads a plain digit string as its decimal value |
| Parsing.ParseNegDigits | retail_sales.py:65 | `int()` reads a minus sign and digits as the negated decimal value |
| Parsing.ParseIntegerRoundTrip | retail_sales.py:65 | `int()` reads back every integer from its decimal text |
| Parsing.CastIntRoundTrip | retail_sales.py:65 | `astype(int)` reads back every int64 from its decimal text |
| Parsing.CastIntAlphabet | retail_sales.py:65 | a cell holding a character other than a digit, sign, underscore or blank cannot be cast |
| Parsing.ParsePeriod | retail_sales.py:66 | a parsed period is the first day of a month 1..12 of a four-digit year |
| Parsing.PeriodRoundTrip | retail_sales.py:66 | every month within the timestamp range is read back from its `YYYY-MM` text |
| Parsing.PeriodCanonical | retail_sales.py:66 | only the exact `YYYY-MM` spelling of a month within the timestamp range is accepted |
| Tables.LabelOrder | retail_sales.py:67 | the order of column labels (Python `str` order) is a strict total order |
| Tables.DateOrder | retail_sales.py:67 | chronological order is a strict total order |
| Ordering.SortedUnique | retail_sales.py:67 | the result is strictly increasing and holds exactly the input's elements |
| Reshape.Relabel | retail_sales.py:61-63 | a mapped code becomes its entry; an unmapped code keeps its own text |
| Reshape.Augment | retail_sales.py:61-63 | the row is kept, and `on_report`, `short` and `long` are each its category code relabelled by the matching map (`Relabel`: the map's entry, or the code itself when the map lacks it) |
| Reshape.Kept | retail_sales.py:64 | the filter keeps no more rows than it is given; `KeptNone`, `KeptAt` and `KeptOrigin` state which rows it keeps (`IsKept`: monthly sales, `SM`, of the selected series) |
| Reshape.KeptNone | retail_sales.py:64 | the filter keeps nothing iff no row is monthly sales of the selected series |
| Reshape.KeptAt | retail_sales.py:64 | a row that passes the filter appears, reduced to `short`, `cell_value` and `time`, at its position among the kept rows |
| Reshape.KeptOrigin | retail_sales.py:64 | every kept element comes from a raw row that passes the filter |
| Reshape.CastCells | retail_sales.py:65 | succeeds iff every kept value casts; the values are the casts; otherwise the error quotes the first failing text |
| Reshape.ParseTimes | retail_sales.py:66 | succeeds iff every kept period parses; the dates are the parses; otherwise the error quotes the first failing text |
| Reshape.CellMap | retail_sales.py:67 | succeeds iff no two entries share a (date, label); its keys are exactly the entries' pairs and each maps to its entry's value |
| Reshape.PivotIndex | retail_sales.py:67 | the row index is strictly increasing and holds exactly the entries' dates |
| Reshape.PivotColumns | retail_sales.py:67 | the columns are strictly increasing and hold exactly the entries' labels |
| Reshape.Pivot | retail_sales.py:67 | succeeds iff (date, label) pairs are distinct, giving a well-shaped table; fails with `DuplicateEntries` otherwise |
| Reshape.PivotCells | retail_sales.py:67-69 | a pivot cell holds v iff an entry gives v to that date and label |
| Reshape.PositionOrder | retail_sales.py:64 | the row filter keeps the kept rows in their input order, and only in it |
| Reshape.EntryIffContributes | retail_sales.py:61-67 | the pivot has an entry (d, l, v) iff some kept raw row has period d, label l and value v |
| Reshape.CastCellsOutcome | retail_sales.py:64-65 | the cast succeeds iff every monthly-sales row of the selected series has int64 text |
| Reshape.ParseTimesOutcome | retail_sales.py:64-66 | the period parse succeeds iff every kept row has a valid `YYYY-MM` period |
| Reshape.DuplicateEntryRows | retail_sales.py:64-67 | two entries naming one cell come from two kept raw rows, in the same order, naming it |
| Reshape.DuplicateRowEntries | retail_sales.py:64-67 | two kept raw rows naming one cell become two entries naming it |
| Reshape.DistinctCellsOutcome | retail_sales.py:64-67 | the entries have distinct cells iff no two kept raw rows share a date and label |
| Reshape.CleanRetailSalesData | retail_sales.py:57-69 | a result is a well-shaped table with at least one date and one label; `CleanOutcome`, `CleanShape`, `CleanCell` and `CleanNothingKept` characterise it fully |
| Reshape.CleanOutcome | retail_sales.py:57-69 | the transformation succeeds iff some row is kept, every kept row casts and parses and no two share a cell; otherwise it fails with `BadInteger`, `BadPeriod` or `DuplicateEntries`, in that precedence, each exactly when its condition on the kept raw rows holds, and with `NoRows` (line 69's KeyError) exactly when no row is kept |
| Reshape.CleanErrorText | retail_sales.py:65-66 | a cast or parse error quotes the text of a kept raw row that fails |
| Reshape.CleanShape | retail_sales.py:64-69 | the wide table is well-shaped; its dates are strictly increasing and exactly the kept rows' periods; its columns are strictly increasing and exactly the kept rows' labels |
| Reshape.CleanCell | retail_sales.py:61-69 | a cell holds v iff a kept raw row with that period and label has value v; it is missing iff no kept row has them |
| Reshape.CleanNothingKept | retail_sales.py:64-69 | rows of which none is monthly sales of the selected series fail with `NoRows`: the cast and parse of the empty columns succeed, and selecting `cell_value` from the empty pivot raises |
| Reshape.KeptIgnoresDroppedRow | retail_sales.py:64 | inserting a row that fails the filter anywhere leaves the kept rows unchanged |
| Reshape.CleanIgnoresDroppedRow | retail_sales.py:64 | inserting a row of another data type or series anywhere leaves the result unchanged |
| Reshape.CleanDefault | retail_sales.py:57-69 | the transformation under line 57's default selector `yes`, as line 89 calls it: a result is a well-shaped table, and it fails with `NoRows` iff no row is seasonally adjusted monthly sales |
| Reshape.DefaultIgnoresUnadjusted | retail_sales.py:57 | under the default selector `yes` (used by the call at line 89), inserting a row of another series leaves the result unchanged |
| Lag.Diff | retail_sales.py:122-126 | entry t is present iff t >= lag and both v[t] and v[t - lag] are; a present entry added to v[t - lag] gives back v[t] |
| Lag.DiffTable | retail_sales.py:122-126 | same index and columns, and every column is the lag-`lag` difference of the level column |
| Lag.RestoreDiff | retail_sales.py:122-126 | a fully present series is rebuilt from its first `lag` values and its lag-`lag` changes |
| Lag.ChangeIsSumOfMonthlyChanges | retail_sales.py:122-126 | the lag-w change at t is the sum of the w monthly changes ending at t |
| Ohlc.WindowLag | retail_sales.py:73-78 | a window has a lag iff it is MM, QQ or YY, which select lags 1, 3 and 12 |
| Ohlc.SliceStart | retail_sales.py:74-78 | `tail(13)` keeps the last min(13, n) rows: it starts within the table, at 0 or 13 rows before its end |
| Ohlc.MaxPresent | retail_sales.py:81 | `max()` is missing iff every entry is; otherwise it is an entry and no present entry exceeds it |
| Ohlc.MinPresent | retail_sales.py:82 | `min()` is missing iff every entry is; otherwise it is an entry and no present entry is below it |
| Ohlc.MaxOverRows | retail_sales.py:81 | the same, read on the rows of the unsliced table from the slice start on |
| Ohlc.MinOverRows | retail_sales.py:82 | the same, read on the rows of the unsliced table from the slice start on |
| Ohlc.GenOhlc | retail_sales.py:71-84 | a summary has one row per category, and exists only for the windows MM, QQ and YY on at least two rows |
| Ohlc.OhlcOutcome | retail_sales.py:71-84 | succeeds iff there are at least 2 rows and the window is MM, QQ or YY; an unknown window on a non-empty table is `UnboundPercentTable`; an empty table, or one row under a valid window, is `RowOutOfRange` |
| Ohlc.OhlcRowParts | retail_sales.py:73-83 | row j combines the last levels row, slice rows 1 and last, and the max and min over the slice of the window's table |
| Ohlc.OhlcLevelOpenClose | retail_sales.py:79-83 | Level is the last levels row; Open is the second row of the last min(13, n) rows; Close is the last row of the window's table |
| Ohlc.OhlcHigh | retail_sales.py:73-81 | High exists iff some slice row is present, is one of them, and no present slice entry exceeds it |
| Ohlc.OhlcLow | retail_sales.py:73-82 | Low exists iff some slice row is present, is one of them, and no present slice entry is below it |
| Ohlc.OhlcBounds | retail_sales.py:79-83 | a present Open or Close lies between Low and High |
| Export.SanitiseLabel | retail_sales.py:96 | the label is cut to 31 characters with every ':' replaced by '_' and no ':' left |
| Export.SanitiseIdempotent | retail_sales.py:96 | sanitising a sanitised label changes nothing |
| Export.SanitiseFixpoint | retail_sales.py:96 | a label is unchanged iff it has at most 31 characters and no ':' |
| Export.SanitiseLabels | retail_sales.py:96 | the new labels are the sanitised old labels, one for one |
| Export.SanitiseLabelsIdempotent | retail_sales.py:96 | sanitising a frame's labels twice equals sanitising once |
| Export.LongestLength | retail_sales.py:100 | the longest cell text is missing iff there are no rows; otherwise it is the length of some cell and no cell is longer |
| Export.LongestCell | retail_sales.py:100 | the scan over a column returns exactly `LongestLength` of its cell texts |
| Export.ColumnWidth | retail_sales.py:100 | a column has a width iff it has rows; the width is at least the label's length and every cell's |
| Export.ColumnWidthFits | retail_sales.py:100 | a data column has a width iff the table has rows; the width fits the label and every cell, and equals the label or some cell |
| Export.SheetWidths | retail_sales.py:99-104 | sheet column 0 is 10 wide and sheet column j+1 has data column j's width |
| Export.ColumnWidths | retail_sales.py:99-104 | the column loop computes exactly `SheetWidths` |
| Export.ExportSheet | retail_sales.py:96-104 | a sheet is written iff the sanitised labels are distinct; it carries the sanitised header and the cells; otherwise the error names the sheet |
| Export.ExportSheetFits | retail_sales.py:96-104 | in a written sheet each label has at most 31 characters, no ':' and no twin, and each data column with rows fits its label and cells |
| Export.ExportBundle | retail_sales.py:95-104 | a written bundle has one sheet per table |
| Export.BundleSheets | retail_sales.py:95-104 | a written bundle holds at position i the sheet written for table i |
| Export.BundleFailure | retail_sales.py:95-100 | a failed bundle stops at a table that cannot be written, every earlier table being writable, with that table's error |
| Export.ExportBundleOutcome | retail_sales.py:92-104 | the bundle is written iff every table is, sheet i being table i's; otherwise the error names the first table that cannot be written |
| Export.ErrorPersists | retail_sales.py:95-100 | once a prefix of the bundle fails, the whole bundle fails at the same table |
| Export.BundleStep | retail_sales.py:95-100 | after a written prefix, entry k either extends the sheets by its own sheet or makes the whole bundle fail there |
| Export.Frame.constructor | retail_sales.py:95-96 | a frame holds the given labels and cells, each row as wide as the labels |
| Export.WriteSheet | retail_sales.py:96-104 | the frame's labels become their sanitised form, and the result is `ExportSheet` of the old labels |
| Export.WriteEntry | retail_sales.py:95-104 | writing entry k sanitises its frame and no other, and yields that entry's `ExportSheet` |
| Export.ToExcel | retail_sales.py:92-104 | the result is `ExportBundle` of the bundle as given; the frames reached (all, or up to the failing entry) carry sanitised labels; the others are untouched |
| Export.AllSanitised | retail_sales.py:96 | after a successful export every frame carries its sanitised labels |

## Left out

- Fetching the survey (`get_MARTS_data`), the JSON assets (`get_colors`,
  `get_category`), the Streamlit interface, session state and `st.cache_data`
  caching: these are I/O and user interface. The raw rows and the category
  lookup are parameters.
- `pct_change(1|3|12)`: a floating-point division. The percent-change tables
  are given inputs of the OHLC summary, as real numbers.
- The export's `float_format="%.5f"`, the conversion of values to cell text
  (`astype(str)`) and the workbook bytes. A table reaches the export as its
  labels and the text of its cells.
- The writing of the index values into sheet column 0. Only that column's
  width is modelled.
- Parsing.ParseInteger: Python's `int()` also accepts non-ASCII Unicode
  digits and whitespace. Only ASCII digits and ASCII whitespace are
  modelled.
- Parsing.ParsePeriod: pandas' `%Y-%m` parser is more lenient, for example
  with a one-digit month. Only the exact `YYYY-MM` spelling is accepted.
- Lag.DiffTable: pandas computes `diff` of an integer column with missing
  cells in 64-bit floating point. The model subtracts exact integers, so
  rounding beyond 2^53 is not captured.
- Reshape.CleanRetailSalesData: the source adds the `on_report`, `short`
  and `long` columns to the caller's data frame in place. The model computes
  them as values (`Augment`), and the caller's frame is not modelled.
- Ohlc.GenOhlc: the summary row is indexed by category. The model carries
  the category as the first field of each row.
- Export.ExportSheet: the workbook writer also rejects a sheet name longer
  than 31 characters, one holding any of `[ ] : * ? / \`, or a repeated one.
  The model accepts any name. The bundle built at lines 119-130 and passed
  at line 142 uses short, distinct names free of those characters, so the
  source never meets that error.
- Reshape.CleanRetailSalesData: `pivot` stores a column that has a missing
  cell in 64-bit floating point, so a cast value beyond 2^53 is rounded in
  the wide table. The model keeps exact integers.
- Export.ToExcel: the bundle is a Python dict, so sheet names are distinct by
  construction. The model takes a sequence of (name, frame) pairs and does
  not rely on that.
