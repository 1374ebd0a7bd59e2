/**
 * `gen_ohlc`: for every category, the latest level and an
 * open/high/low/close summary of the last 13 rows of one percent-change
 * table.
 */
module Ohlc {
  import opened Outcomes
  import opened Tables

  /** `tail(13)`: how many rows of the percent-change table the summary looks at. */
  const SliceRows: nat := 13

  /**
   * The percent-change tables of the levels at lags 1, 3 and 12
   * (`pct_change(1)`, `(3)`, `(12)`), taken as given.
   */
  datatype PctTables = PctTables(month: Grid<real>, quarter: Grid<real>, year: Grid<real>)

  /** One row of the summary, for one category column of the levels table. */
  datatype OhlcRow = OhlcRow(
    category: string,
    level: Option<int>,
    open: Option<real>,
    high: Option<real>,
    low: Option<real>,
    close: Option<real>)

  datatype OhlcError =
    | RowOutOfRange        // `iloc` past the end of a table (IndexError)
    | UnboundPercentTable  // a window other than MM/QQ/YY leaves `df_pct` unbound

  /** Lines 73-78: the lag each window keyword selects. */
  function WindowLag(window: string): (r: Option<nat>)
    ensures r.Some? <==> window in {"MM", "QQ", "YY"}
    ensures window == "MM" ==> r == Some(1)
    ensures window == "QQ" ==> r == Some(3)
    ensures window == "YY" ==> r == Some(12)
  {
    if window == "MM" then Some(1)
    else if window == "QQ" then Some(3)
    else if window == "YY" then Some(12)
    else None
  }

  function PctFor(pct: PctTables, lag: nat): Grid<real> {
    if lag == 1 then pct.month else if lag == 3 then pct.quarter else pct.year
  }

  /** The first row `tail(13)` keeps of an `n`-row table: it keeps the last min(13, n) rows. */
  function SliceStart(n: nat): (r: nat)
    ensures r <= n && n - r <= SliceRows
    ensures r == 0 || n - r == SliceRows
  {
    if n < SliceRows then 0 else n - SliceRows
  }

  /** `Series.max()`: the largest present entry; missing when every entry is. */
  function MaxPresent(xs: seq<Option<real>>): (r: Option<real>)
    ensures r.Some? <==> exists i :: 0 <= i < |xs| && xs[i].Some?
    ensures r.Some? ==> exists i :: 0 <= i < |xs| && xs[i] == r
    ensures r.Some? ==> forall i :: 0 <= i < |xs| && xs[i].Some? ==> xs[i].value <= r.value
  {
    if xs == [] then None
    else
      var rest := MaxPresent(xs[1..]);
      assert forall i :: 1 <= i < |xs| ==> xs[i] == xs[1..][i - 1];
      if xs[0].None? then rest
      else if rest.Some? && rest.value > xs[0].value then rest
      else xs[0]
  }

  /** `Series.min()`: the smallest present entry; missing when every entry is. */
  function MinPresent(xs: seq<Option<real>>): (r: Option<real>)
    ensures r.Some? <==> exists i :: 0 <= i < |xs| && xs[i].Some?
    ensures r.Some? ==> exists i :: 0 <= i < |xs| && xs[i] == r
    ensures r.Some? ==> forall i :: 0 <= i < |xs| && xs[i].Some? ==> r.value <= xs[i].value
  {
    if xs == [] then None
    else
      var rest := MinPresent(xs[1..]);
      assert forall i :: 1 <= i < |xs| ==> xs[i] == xs[1..][i - 1];
      if xs[0].None? then rest
      else if rest.Some? && rest.value < xs[0].value then rest
      else xs[0]
  }

  /** `MaxPresent` of rows first.. of column j, read on the table itself. */
  lemma MaxOverRows(p: Grid<real>, j: nat, first: nat)
    requires first <= |p| && forall t :: 0 <= t < |p| ==> j < |p[t]|
    ensures var r := MaxPresent(Column(p, j)[first..]);
      && (r.Some? <==> exists t :: first <= t < |p| && p[t][j].Some?)
      && (r.Some? ==> exists t :: first <= t < |p| && p[t][j] == r)
      && (r.Some? ==> forall t :: first <= t < |p| && p[t][j].Some? ==> p[t][j].value <= r.value)
  {
    var c := Column(p, j)[first..];
    assert forall t :: first <= t < |p| ==> p[t][j] == c[t - first];
    var r := MaxPresent(c);
    if r.Some? {
      var i :| 0 <= i < |c| && c[i] == r;
      assert p[first + i][j] == r;
    }
    if exists t :: first <= t < |p| && p[t][j].Some? {
      var t :| first <= t < |p| && p[t][j].Some?;
      assert c[t - first].Some?;
    }
  }

  /** `MinPresent` of rows first.. of column j, read on the table itself. */
  lemma MinOverRows(p: Grid<real>, j: nat, first: nat)
    requires first <= |p| && forall t :: 0 <= t < |p| ==> j < |p[t]|
    ensures var r := MinPresent(Column(p, j)[first..]);
      && (r.Some? <==> exists t :: first <= t < |p| && p[t][j].Some?)
      && (r.Some? ==> exists t :: first <= t < |p| && p[t][j] == r)
      && (r.Some? ==> forall t :: first <= t < |p| && p[t][j].Some? ==> r.value <= p[t][j].value)
  {
    var c := Column(p, j)[first..];
    assert forall t :: first <= t < |p| ==> p[t][j] == c[t - first];
    var r := MinPresent(c);
    if r.Some? {
      var i :| 0 <= i < |c| && c[i] == r;
      assert p[first + i][j] == r;
    }
    if exists t :: first <= t < |p| && p[t][j].Some? {
      var t :| first <= t < |p| && p[t][j].Some?;
      assert c[t - first].Some?;
    }
  }

  /** The percent-change tables have the shape of the levels table they come from. */
  predicate Matches(levels: Wide, pct: PctTables) {
    && Shaped(pct.month, |levels.index|, |levels.columns|)
    && Shaped(pct.quarter, |levels.index|, |levels.columns|)
    && Shaped(pct.year, |levels.index|, |levels.columns|)
  }

  /** The summary row of column j, given the levels and the look-back slice. */
  function SummaryRow(levels: Wide, slice: Grid<real>, j: int): OhlcRow
    requires levels.Valid() && |levels.index| > 0 && 0 <= j < |levels.columns|
    requires |slice| >= 2 && forall t :: 0 <= t < |slice| ==> |slice[t]| == |levels.columns|
  {
    var column := Column(slice, j);
    OhlcRow(levels.columns[j], levels.cells[|levels.index| - 1][j],
            slice[1][j], MaxPresent(column), MinPresent(column), slice[|slice| - 1][j])
  }

  /** Lines 71-84. */
  function GenOhlc(levels: Wide, pct: PctTables, window: string): (r: Result<seq<OhlcRow>, OhlcError>)
    requires levels.Valid() && Matches(levels, pct)
    ensures r.Ok? ==> |r.value| == |levels.columns|
    ensures r.Ok? ==> WindowLag(window).Some? && |levels.index| >= 2
  {
    var n, k := |levels.index|, |levels.columns|;
    if n == 0 then Err(RowOutOfRange)
    else if WindowLag(window).None? then Err(UnboundPercentTable)
    else
      var p := PctFor(pct, WindowLag(window).value);
      var slice := p[SliceStart(n)..];
      if |slice| < 2 then Err(RowOutOfRange)
      else Ok(seq(k, j requires 0 <= j < k => SummaryRow(levels, slice, j)))
  }

  /**
   * The summary fails on an empty levels table whatever the window (line 79
   * runs first), then on an unknown window, then on a one-row table, whose
   * slice has no row 1.
   */
  lemma OhlcOutcome(levels: Wide, pct: PctTables, window: string)
    requires levels.Valid() && Matches(levels, pct)
    ensures var r := GenOhlc(levels, pct, window);
      var n := |levels.index|;
      && (r.Ok? <==> n >= 2 && window in {"MM", "QQ", "YY"})
      && (r == Err(UnboundPercentTable) <==> n >= 1 && window !in {"MM", "QQ", "YY"})
      && (r == Err(RowOutOfRange) <==> n == 0 || (n == 1 && window in {"MM", "QQ", "YY"}))
  {
  }

  /** Row j of the summary, taken apart over the unsliced percent-change table. */
  lemma OhlcRowParts(levels: Wide, pct: PctTables, window: string, j: int)
    requires levels.Valid() && Matches(levels, pct)
    requires GenOhlc(levels, pct, window).Ok?
    requires 0 <= j < |levels.columns|
    ensures var n := |levels.index|;
      var p := PctFor(pct, WindowLag(window).value);
      var c := Column(p, j)[SliceStart(n)..];
      GenOhlc(levels, pct, window).value[j]
        == OhlcRow(levels.columns[j], levels.cells[n - 1][j], p[SliceStart(n) + 1][j],
                   MaxPresent(c), MinPresent(c), p[n - 1][j])
  {
    var n := |levels.index|;
    var p := PctFor(pct, WindowLag(window).value);
    var slice := p[SliceStart(n)..];
    assert GenOhlc(levels, pct, window).value[j] == SummaryRow(levels, slice, j);
    assert Column(slice, j) == Column(p, j)[SliceStart(n)..];
  }

  /**
   * Level, Open and Close of row j: the last row of the levels, and the
   * second and last rows of the last min(13, n) rows of the window's
   * percent-change table.
   */
  lemma OhlcLevelOpenClose(levels: Wide, pct: PctTables, window: string, j: int)
    requires levels.Valid() && Matches(levels, pct)
    requires GenOhlc(levels, pct, window).Ok?
    requires 0 <= j < |levels.columns|
    ensures var row := GenOhlc(levels, pct, window).value[j];
      var n := |levels.index|;
      var p := PctFor(pct, WindowLag(window).value);
      && row.category == levels.columns[j]
      && row.level == levels.cells[n - 1][j]
      && row.open == p[SliceStart(n) + 1][j]
      && row.close == p[n - 1][j]
  {
    OhlcRowParts(levels, pct, window, j);
  }

  /** High of row j is the largest present entry of column j over the slice rows. */
  lemma OhlcHigh(levels: Wide, pct: PctTables, window: string, j: int)
    requires levels.Valid() && Matches(levels, pct)
    requires GenOhlc(levels, pct, window).Ok?
    requires 0 <= j < |levels.columns|
    ensures var high := GenOhlc(levels, pct, window).value[j].high;
      var n := |levels.index|;
      var p := PctFor(pct, WindowLag(window).value);
      && (high.Some? <==> exists t :: SliceStart(n) <= t < n && p[t][j].Some?)
      && (high.Some? ==> exists t :: SliceStart(n) <= t < n && p[t][j] == high)
      && (high.Some? ==> forall t :: SliceStart(n) <= t < n && p[t][j].Some? ==> p[t][j].value <= high.value)
  {
    OhlcRowParts(levels, pct, window, j);
    MaxOverRows(PctFor(pct, WindowLag(window).value), j, SliceStart(|levels.index|));
  }

  /** Low of row j is the smallest present entry of column j over the slice rows. */
  lemma OhlcLow(levels: Wide, pct: PctTables, window: string, j: int)
    requires levels.Valid() && Matches(levels, pct)
    requires GenOhlc(levels, pct, window).Ok?
    requires 0 <= j < |levels.columns|
    ensures var low := GenOhlc(levels, pct, window).value[j].low;
      var n := |levels.index|;
      var p := PctFor(pct, WindowLag(window).value);
      && (low.Some? <==> exists t :: SliceStart(n) <= t < n && p[t][j].Some?)
      && (low.Some? ==> exists t :: SliceStart(n) <= t < n && p[t][j] == low)
      && (low.Some? ==> forall t :: SliceStart(n) <= t < n && p[t][j].Some? ==> low.value <= p[t][j].value)
  {
    OhlcRowParts(levels, pct, window, j);
    MinOverRows(PctFor(pct, WindowLag(window).value), j, SliceStart(|levels.index|));
  }

  /** Open and Close, when present, lie between Low and High. */
  lemma OhlcBounds(levels: Wide, pct: PctTables, window: string, j: int)
    requires levels.Valid() && Matches(levels, pct)
    requires GenOhlc(levels, pct, window).Ok?
    requires 0 <= j < |levels.columns|
    ensures var row := GenOhlc(levels, pct, window).value[j];
      && (row.open.Some? ==> row.low.Some? && row.high.Some? && row.low.value <= row.open.value <= row.high.value)
      && (row.close.Some? ==> row.low.Some? && row.high.Some? && row.low.value <= row.close.value <= row.high.value)
  {
    var n := |levels.index|;
    OhlcLevelOpenClose(levels, pct, window, j);
    OhlcHigh(levels, pct, window, j);
    OhlcLow(levels, pct, window, j);
    assert SliceStart(n) <= SliceStart(n) + 1 < n;
  }
}
