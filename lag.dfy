/**
 * The absolute-change tables `diff(1)`, `diff(3)` and `diff(12)` built from
 * the wide table for the export bundle.
 */
module Lag {
  import opened Outcomes
  import opened Tables

  /** Subtraction that is missing when either operand is. */
  function Sub(a: Option<int>, b: Option<int>): Option<int> {
    if a.Some? && b.Some? then Some(a.value - b.value) else None
  }

  function Add(a: Option<int>, b: Option<int>): Option<int> {
    if a.Some? && b.Some? then Some(a.value + b.value) else None
  }

  /**
   * `Series.diff(lag)`: entry t is present exactly when t is at least `lag`
   * and both `v[t]` and `v[t - lag]` are, and then added to `v[t - lag]` it
   * gives back `v[t]`.
   */
  function Diff(col: seq<Option<int>>, lag: nat): (r: seq<Option<int>>)
    ensures |r| == |col|
    ensures forall t {:trigger r[t]} :: 0 <= t < |col| ==> (r[t].Some? <==> lag <= t && col[t].Some? && col[t - lag].Some?)
    ensures forall t {:trigger r[t]} :: lag <= t < |col| && r[t].Some? ==>
              col[t].Some? && col[t - lag].Some? && col[t - lag].value + r[t].value == col[t].value
  {
    seq(|col|, t requires 0 <= t < |col| => if t < lag then None else Sub(col[t], col[t - lag]))
  }

  /**
   * `DataFrame.diff(lag)`, taken at lags 1, 3 and 12 for the M-M, Q-Q and Y-Y
   * change tables: same index and columns, every column replaced by its `Diff`.
   */
  function DiffTable(w: Wide, lag: nat): (r: Wide)
    requires w.Valid()
    ensures r.Valid() && r.index == w.index && r.columns == w.columns
    ensures forall j :: 0 <= j < |w.columns| ==> Column(r.cells, j) == Diff(Column(w.cells, j), lag)
  {
    var n, k := |w.index|, |w.columns|;
    var cells := seq(n, t requires 0 <= t < n =>
                   seq(k, j requires 0 <= j < k =>
                     if t < lag then None else Sub(w.cells[t][j], w.cells[t - lag][j])));
    var r := Wide(w.index, w.columns, cells);
    assert forall j :: 0 <= j < k ==> Column(cells, j) == Diff(Column(w.cells, j), lag) by {
      forall j | 0 <= j < k ensures Column(cells, j) == Diff(Column(w.cells, j), lag) {
        assert forall t :: 0 <= t < n ==> Column(cells, j)[t] == Diff(Column(w.cells, j), lag)[t];
      }
    }
    r
  }

  /**
   * Rebuilds a series from its first `lag` entries and its lag-`lag`
   * differences: entry t is entry t - lag plus the change at t.
   */
  function Restore(seed: seq<Option<int>>, d: seq<Option<int>>, lag: nat): (r: seq<Option<int>>)
    requires 0 < lag && |seed| == lag
    ensures |r| == |d|
    decreases |d|
  {
    if |d| <= lag then seed[..|d|]
    else
      var p := Restore(seed, d[..|d| - 1], lag);
      p + [Add(p[|d| - 1 - lag], d[|d| - 1])]
  }

  /**
   * `Diff` loses nothing but the first `lag` entries: a series with no
   * missing entries is recovered from them and its differences.
   */
  lemma {:induction false} RestoreDiff(col: seq<Option<int>>, lag: nat)
    requires 0 < lag <= |col|
    requires forall t :: 0 <= t < |col| ==> col[t].Some?
    ensures Restore(col[..lag], Diff(col, lag), lag) == col
    decreases |col|
  {
    var n := |col|;
    if n > lag {
      var init := col[..n - 1];
      assert Diff(col, lag)[..n - 1] == Diff(init, lag);
      assert init[..lag] == col[..lag];
      RestoreDiff(init, lag);
    }
  }

  lemma DiffPresent(col: seq<Option<int>>, lag: nat, t: int)
    requires lag <= t < |col| && col[t].Some? && col[t - lag].Some?
    ensures Diff(col, lag)[t] == Some(col[t].value - col[t - lag].value)
  {
  }

  /** The sum of the `w` one-step changes ending at `t`. */
  function SumOfChanges(d: seq<Option<int>>, t: int, w: nat): Option<int>
    requires w <= t + 1 && t < |d|
    decreases w
  {
    if w == 0 then Some(0) else Add(d[t], SumOfChanges(d, t - 1, w - 1))
  }

  /** One step of the sum: the lag-w change is the last monthly change plus the lag-(w-1) change before it. */
  lemma DiffStep(col: seq<Option<int>>, w: nat, t: int)
    requires 1 <= w <= t < |col|
    requires col[t].Some? && col[t - 1].Some? && col[t - w].Some?
    ensures Diff(col, w)[t] == Add(Diff(col, 1)[t], Diff(col, w - 1)[t - 1])
  {
    var a, b, c := col[t].value, col[t - 1].value, col[t - w].value;
    assert col[t - 1 - (w - 1)] == col[t - w];
    assert Diff(col, 1)[t] == Some(a - b);
    assert Diff(col, w - 1)[t - 1] == Some(b - c);
    assert Diff(col, w)[t] == Some(a - c);
  }

  /**
   * A change over `w` periods is the sum of the `w` month-over-month changes
   * it spans (a quarter's change is three monthly ones, a year's twelve).
   */
  lemma {:induction false} ChangeIsSumOfMonthlyChanges(col: seq<Option<int>>, w: nat, t: int)
    requires w <= t < |col|
    requires forall s :: t - w <= s <= t ==> col[s].Some?
    ensures Diff(col, w)[t] == SumOfChanges(Diff(col, 1), t, w)
    decreases w
  {
    var d1 := Diff(col, 1);
    if w == 0 {
      DiffPresent(col, 0, t);
    } else {
      var earlier := SumOfChanges(d1, t - 1, w - 1);
      ChangeIsSumOfMonthlyChanges(col, w - 1, t - 1);
      assert Diff(col, w - 1)[t - 1] == earlier;
      DiffStep(col, w, t);
      assert SumOfChanges(d1, t, w) == Add(d1[t], earlier);
    }
  }
}
