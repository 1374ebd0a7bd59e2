/**
 * `clean_retail_sales_data`: label each raw survey row from the category
 * lookup, keep the monthly-sales rows of one seasonal-adjustment series, cast
 * the values, parse the periods and pivot into a date-by-label table.
 */
module Reshape {
  import opened Outcomes
  import opened Ordering
  import opened Tables
  import opened Parsing

  /** One record of the survey feed, every field as the text the feed sends. */
  datatype RawRow = RawRow(
    categoryCode: string,
    dataTypeCode: string,
    seasonallyAdj: string,
    cellValue: string,
    time: string)

  /** The category lookup: three maps keyed by category code. */
  datatype Category = Category(
    onReport: map<string, string>,
    short: map<string, string>,
    long: map<string, string>)

  /** A raw row with the three columns the lookup adds to it. */
  datatype LabelledRow = LabelledRow(row: RawRow, onReport: string, short: string, long: string)

  /** A kept row reduced to the three columns the source selects. */
  datatype Selected = Selected(short: string, cellValue: string, time: string)

  /** One cell of the pivot: its date, its column label and its value. */
  datatype Entry = Entry(date: Date, column: string, value: int)

  /** The exceptions the transformation raises. */
  datatype ReshapeError =
    | BadInteger(text: string)  // `astype(int)` met a cell that is not int64 text
    | BadPeriod(text: string)   // `to_datetime` met a period that is not `YYYY-MM`
    | DuplicateEntries          // `pivot` met two rows for one (date, label)
    | NoRows                    // no row was kept: `x['cell_value']` on the empty pivot raises KeyError

  /** The data type code of monthly sales. */
  const MonthlySales: string := "SM"

  /** The default selector: the seasonally adjusted series. */
  const Adjusted: string := "yes"

  /** `Series.replace(m)` on one value: a mapped code becomes its entry, anything else stays. */
  function Relabel(m: map<string, string>, code: string): (r: string)
    ensures code in m ==> r == m[code]
    ensures code !in m ==> r == code
  {
    if code in m then m[code] else code
  }

  /**
   * The `on_report`, `short` and `long` columns added to a row: each is the
   * row's category code looked up in its map, or the code itself when the map
   * has no entry for it.
   */
  function Augment(row: RawRow, category: Category): (r: LabelledRow)
    ensures r.row == row
    ensures r.onReport == Relabel(category.onReport, row.categoryCode)
    ensures r.short == Relabel(category.short, row.categoryCode)
    ensures r.long == Relabel(category.long, row.categoryCode)
  {
    LabelledRow(
      row,
      Relabel(category.onReport, row.categoryCode),
      Relabel(category.short, row.categoryCode),
      Relabel(category.long, row.categoryCode))
  }

  /** The row filter: monthly sales of the selected seasonal-adjustment series. */
  predicate IsKept(row: RawRow, selector: string) {
    row.dataTypeCode == MonthlySales && row.seasonallyAdj == selector
  }

  function Project(row: RawRow, category: Category): Selected {
    var labelled := Augment(row, category);
    Selected(labelled.short, row.cellValue, row.time)
  }

  /** The kept rows in input order, reduced to `short`, `cell_value` and `time`. */
  function Kept(rows: seq<RawRow>, selector: string, category: Category): (r: seq<Selected>)
    ensures |r| <= |rows|
  {
    if rows == [] then []
    else
      var last := rows[|rows| - 1];
      Kept(rows[..|rows| - 1], selector, category)
      + if IsKept(last, selector) then [Project(last, category)] else []
  }

  /**
   * An element-wise conversion that raises on the first element it cannot
   * convert, as `astype` and `to_datetime` do.
   */
  function ConvertAll<A, B>(xs: seq<A>, convert: A -> Option<B>, failure: A -> ReshapeError)
    : (r: Result<seq<B>, ReshapeError>)
    ensures r.Ok? <==> forall i :: 0 <= i < |xs| ==> convert(xs[i]).Some?
    ensures r.Ok? ==> |r.value| == |xs| && forall i :: 0 <= i < |xs| ==> convert(xs[i]) == Some(r.value[i])
    ensures r.Err? ==> exists i :: 0 <= i < |xs| && convert(xs[i]).None? && r.error == failure(xs[i])
                                   && forall h :: 0 <= h < i ==> convert(xs[h]).Some?
  {
    if xs == [] then Ok([])
    else
      match convert(xs[0])
      case None => Err(failure(xs[0]))
      case Some(y) =>
        var rest := ConvertAll(xs[1..], convert, failure);
        if rest.Err? then
          ghost var i :| 0 <= i < |xs[1..]| && convert(xs[1..][i]).None? && rest.error == failure(xs[1..][i])
                         && forall h :: 0 <= h < i ==> convert(xs[1..][h]).Some?;
          assert convert(xs[i + 1]).None?;
          Err(rest.error)
        else
          Ok([y] + rest.value)
  }

  /** Line 65: `astype(int)` on the `cell_value` column. */
  function CastCells(kept: seq<Selected>): (r: Result<seq<int>, ReshapeError>)
    ensures r.Ok? <==> forall i {:trigger CastInt(kept[i].cellValue)} :: 0 <= i < |kept| ==> CastInt(kept[i].cellValue).Some?
    ensures r.Ok? ==> |r.value| == |kept| && forall i {:trigger CastInt(kept[i].cellValue)} :: 0 <= i < |kept| ==> CastInt(kept[i].cellValue) == Some(r.value[i])
    ensures r.Err? ==> exists i :: 0 <= i < |kept| && CastInt(kept[i].cellValue).None?
                                   && r.error == BadInteger(kept[i].cellValue)
                                   && forall h :: 0 <= h < i ==> CastInt(kept[h].cellValue).Some?
  {
    ConvertAll(kept, (x: Selected) => CastInt(x.cellValue), (x: Selected) => BadInteger(x.cellValue))
  }

  /** Line 66: `to_datetime(format='%Y-%m')` on the `time` column. */
  function ParseTimes(kept: seq<Selected>): (r: Result<seq<Date>, ReshapeError>)
    ensures r.Ok? <==> forall i {:trigger ParsePeriod(kept[i].time)} :: 0 <= i < |kept| ==> ParsePeriod(kept[i].time).Some?
    ensures r.Ok? ==> |r.value| == |kept| && forall i {:trigger ParsePeriod(kept[i].time)} :: 0 <= i < |kept| ==> ParsePeriod(kept[i].time) == Some(r.value[i])
    ensures r.Err? ==> exists i :: 0 <= i < |kept| && ParsePeriod(kept[i].time).None?
                                   && r.error == BadPeriod(kept[i].time)
                                   && forall h :: 0 <= h < i ==> ParsePeriod(kept[h].time).Some?
  {
    ConvertAll(kept, (x: Selected) => ParsePeriod(x.time), (x: Selected) => BadPeriod(x.time))
  }

  function Entries(kept: seq<Selected>, values: seq<int>, dates: seq<Date>): (es: seq<Entry>)
    requires |values| == |kept| && |dates| == |kept|
    ensures |es| == |kept|
    ensures forall i :: 0 <= i < |kept| ==> es[i] == Entry(dates[i], kept[i].short, values[i])
  {
    seq(|kept|, i requires 0 <= i < |kept| => Entry(dates[i], kept[i].short, values[i]))
  }

  /** No two entries share a (date, label) cell. */
  predicate DistinctCells(es: seq<Entry>) {
    forall i, j :: 0 <= i < j < |es| ==> (es[i].date, es[i].column) != (es[j].date, es[j].column)
  }

  /** The cells of the pivot, keyed by (date, label); fails on a repeated key. */
  function CellMap(es: seq<Entry>): (r: Result<map<(Date, string), int>, ReshapeError>)
    ensures r.Ok? <==> DistinctCells(es)
    ensures r.Err? ==> r.error == DuplicateEntries
    ensures r.Ok? ==> forall key :: key in r.value <==> exists i :: 0 <= i < |es| && (es[i].date, es[i].column) == key
    ensures r.Ok? ==> forall i :: 0 <= i < |es| ==> r.value[(es[i].date, es[i].column)] == es[i].value
  {
    if es == [] then Ok(map[])
    else
      var init := es[..|es| - 1];
      var e := es[|es| - 1];
      assert es == init + [e];
      match CellMap(init)
      case Err(error) =>
        assert !DistinctCells(es) by { DuplicateExtends(init, e); }
        Err(error)
      case Ok(m) =>
        if (e.date, e.column) in m then
          assert !DistinctCells(es) by { RepeatedCell(init, e, m); }
          Err(DuplicateEntries)
        else
          ExtendCells(init, e, m);
          Ok(m[(e.date, e.column) := e.value])
  }

  lemma DuplicateExtends(init: seq<Entry>, e: Entry)
    requires !DistinctCells(init)
    ensures !DistinctCells(init + [e])
  {
    var es := init + [e];
    var i, j :| 0 <= i < j < |init| && (init[i].date, init[i].column) == (init[j].date, init[j].column);
    assert es[i] == init[i] && es[j] == init[j];
  }

  lemma RepeatedCell(init: seq<Entry>, e: Entry, m: map<(Date, string), int>)
    requires forall key :: key in m <==> exists i :: 0 <= i < |init| && (init[i].date, init[i].column) == key
    requires (e.date, e.column) in m
    ensures !DistinctCells(init + [e])
  {
    var es := init + [e];
    var i :| 0 <= i < |init| && (init[i].date, init[i].column) == (e.date, e.column);
    assert es[i] == init[i] && es[|init|] == e;
  }

  /** Adding an entry for a new cell keeps the map's keys and values those of the entries. */
  lemma ExtendCells(init: seq<Entry>, e: Entry, m: map<(Date, string), int>)
    requires DistinctCells(init)
    requires forall key :: key in m <==> exists i :: 0 <= i < |init| && (init[i].date, init[i].column) == key
    requires forall i :: 0 <= i < |init| ==> m[(init[i].date, init[i].column)] == init[i].value
    requires (e.date, e.column) !in m
    ensures var es, cells := init + [e], m[(e.date, e.column) := e.value];
      && DistinctCells(es)
      && (forall key :: key in cells <==> exists i :: 0 <= i < |es| && (es[i].date, es[i].column) == key)
      && (forall i :: 0 <= i < |es| ==> cells[(es[i].date, es[i].column)] == es[i].value)
  {
    var es := init + [e];
    assert forall i :: 0 <= i < |init| ==> es[i] == init[i];
    assert es[|init|] == e;
  }

  function CellOf(m: map<(Date, string), int>, d: Date, l: string): Option<int> {
    if (d, l) in m then Some(m[(d, l)]) else None
  }

  /** The pivot's row index: the distinct dates, ascending. */
  function PivotIndex(es: seq<Entry>): (index: seq<Date>)
    ensures StrictlyIncreasing(index, DateLess)
    ensures forall d :: d in index <==> exists i :: 0 <= i < |es| && es[i].date == d
  {
    DateOrder();
    var dates := seq(|es|, i requires 0 <= i < |es| => es[i].date);
    assert forall i :: 0 <= i < |es| ==> dates[i] == es[i].date;
    SortedUnique(dates, DateLess)
  }

  /** The pivot's columns: the distinct labels, ascending (pivot sorts them too). */
  function PivotColumns(es: seq<Entry>): (columns: seq<string>)
    ensures StrictlyIncreasing(columns, LabelLess)
    ensures forall l :: l in columns <==> exists i :: 0 <= i < |es| && es[i].column == l
  {
    LabelOrder();
    var labels := seq(|es|, i requires 0 <= i < |es| => es[i].column);
    assert forall i :: 0 <= i < |es| ==> labels[i] == es[i].column;
    SortedUnique(labels, LabelLess)
  }

  /** Line 67: `pivot(index='Date', columns='short')` of the entries. */
  function Pivot(es: seq<Entry>): (r: Result<Wide, ReshapeError>)
    ensures r.Ok? <==> DistinctCells(es)
    ensures r.Err? ==> r.error == DuplicateEntries
    ensures r.Ok? ==> r.value.Valid()
  {
    var m :- CellMap(es);
    var index := PivotIndex(es);
    var columns := PivotColumns(es);
    Ok(Wide(index, columns, seq(|index|, t requires 0 <= t < |index| =>
                              seq(|columns|, j requires 0 <= j < |columns| => CellOf(m, index[t], columns[j])))))
  }

  /**
   * A pivot cell holds `v` exactly when some entry gives value `v` to that
   * (date, label); it is missing exactly when no entry names that pair.
   */
  lemma PivotCells(es: seq<Entry>, t: int, j: int)
    requires Pivot(es).Ok?
    requires 0 <= t < |Pivot(es).value.index| && 0 <= j < |Pivot(es).value.columns|
    ensures var w := Pivot(es).value;
      forall v :: w.cells[t][j] == Some(v) <==> Entry(w.index[t], w.columns[j], v) in es
  {
    var w := Pivot(es).value;
    var m := CellMap(es).value;
    var key := (w.index[t], w.columns[j]);
    assert w.cells[t][j] == CellOf(m, key.0, key.1);
    forall v ensures w.cells[t][j] == Some(v) <==> Entry(key.0, key.1, v) in es {
      if Entry(key.0, key.1, v) in es {
        var i :| 0 <= i < |es| && es[i] == Entry(key.0, key.1, v);
        assert (es[i].date, es[i].column) == key;
      }
      if w.cells[t][j] == Some(v) {
        var i :| 0 <= i < |es| && (es[i].date, es[i].column) == key;
        assert es[i] == Entry(key.0, key.1, v);
      }
    }
  }

  /**
   * Lines 57-69: the whole transformation. A result is a well-shaped table
   * with at least one date and one label; `CleanOutcome`, `CleanShape` and
   * `CleanCell` characterise it completely. When no row is kept, the cast and
   * the parse succeed on the empty columns, `pivot` gives an empty frame
   * whose column level `cell_value` is unused, and line 69's selection of it
   * raises.
   */
  function CleanRetailSalesData(rows: seq<RawRow>, selector: string, category: Category)
    : (r: Result<Wide, ReshapeError>)
    ensures r.Ok? ==> r.value.Valid() && |r.value.index| > 0 && |r.value.columns| > 0
  {
    var kept := Kept(rows, selector, category);
    var values :- CastCells(kept);
    var dates :- ParseTimes(kept);
    if kept == [] then Err(NoRows)
    else
      var es := Entries(kept, values, dates);
      assert es[0].date in PivotIndex(es) && es[0].column in PivotColumns(es);
      Pivot(es)
  }

  // ---------------------------------------------------------------------
  // Where each kept row lands

  lemma {:induction false} KeptAppend(a: seq<RawRow>, b: seq<RawRow>, selector: string, category: Category)
    ensures Kept(a + b, selector, category) == Kept(a, selector, category) + Kept(b, selector, category)
    decreases |b|
  {
    if b == [] {
      assert a + b == a;
    } else {
      var init := b[..|b| - 1];
      assert (a + b)[..|a + b| - 1] == a + init;
      assert (a + b)[|a + b| - 1] == b[|b| - 1];
      KeptAppend(a, init, selector, category);
    }
  }

  /** How many kept rows come before raw row `k`. */
  function Position(rows: seq<RawRow>, selector: string, category: Category, k: int): nat
    requires 0 <= k <= |rows|
  {
    |Kept(rows[..k], selector, category)|
  }

  /** The filter keeps nothing exactly when no row is monthly sales of the selected series. */
  lemma {:induction false} KeptNone(rows: seq<RawRow>, selector: string, category: Category)
    ensures Kept(rows, selector, category) == [] <==> forall row :: row in rows ==> !IsKept(row, selector)
    decreases |rows|
  {
    if rows != [] {
      var init := rows[..|rows| - 1];
      KeptNone(init, selector, category);
      assert rows == init + [rows[|rows| - 1]];
    }
  }

  /** A kept raw row appears in the kept sequence at its position. */
  lemma KeptAt(rows: seq<RawRow>, selector: string, category: Category, k: int)
    requires 0 <= k < |rows| && IsKept(rows[k], selector)
    ensures Position(rows, selector, category, k) < |Kept(rows, selector, category)|
    ensures Kept(rows, selector, category)[Position(rows, selector, category, k)] == Project(rows[k], category)
  {
    assert rows == rows[..k] + [rows[k]] + rows[k + 1..];
    KeptAppend(rows[..k] + [rows[k]], rows[k + 1..], selector, category);
    KeptAppend(rows[..k], [rows[k]], selector, category);
    assert [rows[k]][..0] == [];
  }

  /** Kept rows keep their relative order. */
  lemma PositionMonotone(rows: seq<RawRow>, selector: string, category: Category, k1: int, k2: int)
    requires 0 <= k1 < k2 <= |rows| && IsKept(rows[k1], selector)
    ensures Position(rows, selector, category, k1) < Position(rows, selector, category, k2)
  {
    assert rows[..k2] == rows[..k1] + [rows[k1]] + rows[k1 + 1..k2];
    KeptAppend(rows[..k1] + [rows[k1]], rows[k1 + 1..k2], selector, category);
    KeptAppend(rows[..k1], [rows[k1]], selector, category);
    assert [rows[k1]][..0] == [];
  }

  /** Two kept rows keep their order among the kept rows, and only theirs. */
  lemma PositionOrder(rows: seq<RawRow>, selector: string, category: Category, k1: int, k2: int)
    requires 0 <= k1 < |rows| && 0 <= k2 < |rows| && IsKept(rows[k1], selector) && IsKept(rows[k2], selector)
    ensures k1 < k2 <==> Position(rows, selector, category, k1) < Position(rows, selector, category, k2)
  {
    if k1 < k2 {
      PositionMonotone(rows, selector, category, k1, k2);
    } else if k2 < k1 {
      PositionMonotone(rows, selector, category, k2, k1);
    }
  }

  /** Every kept element comes from a kept raw row. */
  lemma {:induction false} KeptOrigin(rows: seq<RawRow>, selector: string, category: Category, i: int)
    requires 0 <= i < |Kept(rows, selector, category)|
    ensures exists k :: 0 <= k < |rows| && IsKept(rows[k], selector) && Position(rows, selector, category, k) == i
    decreases |rows|
  {
    var init := rows[..|rows| - 1];
    if i < |Kept(init, selector, category)| {
      KeptOrigin(init, selector, category, i);
      var k :| 0 <= k < |init| && IsKept(init[k], selector) && Position(init, selector, category, k) == i;
      assert rows[..k] == init[..k];
    } else {
      assert rows[..|rows| - 1] == init;
    }
  }

  // ---------------------------------------------------------------------
  // The transformation, stated over the raw rows

  /** Every kept row's `cell_value` is int64 text. */
  ghost predicate AllValuesCast(rows: seq<RawRow>, selector: string) {
    forall k :: 0 <= k < |rows| && IsKept(rows[k], selector) ==> CastInt(rows[k].cellValue).Some?
  }

  /** Every kept row's `time` is a `YYYY-MM` period. */
  ghost predicate AllPeriodsParse(rows: seq<RawRow>, selector: string) {
    forall k :: 0 <= k < |rows| && IsKept(rows[k], selector) ==> ParsePeriod(rows[k].time).Some?
  }

  /** Raw rows `k1` and `k2` name the same (date, label) cell. */
  ghost predicate SameCell(rows: seq<RawRow>, category: Category, k1: int, k2: int)
    requires 0 <= k1 < |rows| && 0 <= k2 < |rows|
  {
    && ParsePeriod(rows[k1].time) == ParsePeriod(rows[k2].time)
    && Relabel(category.short, rows[k1].categoryCode) == Relabel(category.short, rows[k2].categoryCode)
  }

  /** Some row is monthly sales of the selected series. */
  ghost predicate AnyKept(rows: seq<RawRow>, selector: string) {
    exists row :: row in rows && IsKept(row, selector)
  }

  /** Two different kept rows name the same cell. */
  ghost predicate HasDuplicateCell(rows: seq<RawRow>, selector: string, category: Category) {
    exists k1, k2 :: 0 <= k1 < k2 < |rows| && IsKept(rows[k1], selector) && IsKept(rows[k2], selector)
                     && SameCell(rows, category, k1, k2)
  }

  /** Raw row `row` supplies value `v` to the cell at date `d` and label `l`. */
  ghost predicate Contributes(row: RawRow, selector: string, category: Category, d: Date, l: string, v: int) {
    && IsKept(row, selector)
    && Relabel(category.short, row.categoryCode) == l
    && ParsePeriod(row.time) == Some(d)
    && CastInt(row.cellValue) == Some(v)
  }

  lemma CastCellsOutcome(rows: seq<RawRow>, selector: string, category: Category)
    ensures CastCells(Kept(rows, selector, category)).Ok? <==> AllValuesCast(rows, selector)
  {
    var kept := Kept(rows, selector, category);
    if !AllValuesCast(rows, selector) {
      var k :| 0 <= k < |rows| && IsKept(rows[k], selector) && CastInt(rows[k].cellValue).None?;
      KeptAt(rows, selector, category, k);
    }
    if CastCells(kept).Err? {
      var i :| 0 <= i < |kept| && CastInt(kept[i].cellValue).None?;
      KeptOrigin(rows, selector, category, i);
      var k :| 0 <= k < |rows| && IsKept(rows[k], selector) && Position(rows, selector, category, k) == i;
      KeptAt(rows, selector, category, k);
    }
  }

  lemma ParseTimesOutcome(rows: seq<RawRow>, selector: string, category: Category)
    ensures ParseTimes(Kept(rows, selector, category)).Ok? <==> AllPeriodsParse(rows, selector)
  {
    var kept := Kept(rows, selector, category);
    if !AllPeriodsParse(rows, selector) {
      var k :| 0 <= k < |rows| && IsKept(rows[k], selector) && ParsePeriod(rows[k].time).None?;
      KeptAt(rows, selector, category, k);
    }
    if ParseTimes(kept).Err? {
      var i :| 0 <= i < |kept| && ParsePeriod(kept[i].time).None?;
      KeptOrigin(rows, selector, category, i);
      var k :| 0 <= k < |rows| && IsKept(rows[k], selector) && Position(rows, selector, category, k) == i;
      KeptAt(rows, selector, category, k);
    }
  }

  /** The pivot's entries, once every kept row has been cast and parsed. */
  function EntriesOf(rows: seq<RawRow>, selector: string, category: Category): seq<Entry>
    requires CastCells(Kept(rows, selector, category)).Ok?
    requires ParseTimes(Kept(rows, selector, category)).Ok?
  {
    var kept := Kept(rows, selector, category);
    Entries(kept, CastCells(kept).value, ParseTimes(kept).value)
  }

  /** The entry a kept raw row becomes. */
  lemma EntryAt(rows: seq<RawRow>, selector: string, category: Category, k: int)
    requires CastCells(Kept(rows, selector, category)).Ok?
    requires ParseTimes(Kept(rows, selector, category)).Ok?
    requires 0 <= k < |rows| && IsKept(rows[k], selector)
    ensures var es := EntriesOf(rows, selector, category);
      var i := Position(rows, selector, category, k);
      && i < |es|
      && CastInt(rows[k].cellValue).Some? && ParsePeriod(rows[k].time).Some?
      && es[i] == Entry(ParsePeriod(rows[k].time).value, Relabel(category.short, rows[k].categoryCode),
                        CastInt(rows[k].cellValue).value)
  {
    KeptAt(rows, selector, category, k);
  }

  /** The entry at `i` comes from a kept raw row. */
  lemma EntryOrigin(rows: seq<RawRow>, selector: string, category: Category, i: int) returns (k: int)
    requires CastCells(Kept(rows, selector, category)).Ok?
    requires ParseTimes(Kept(rows, selector, category)).Ok?
    requires 0 <= i < |EntriesOf(rows, selector, category)|
    ensures 0 <= k < |rows| && IsKept(rows[k], selector) && Position(rows, selector, category, k) == i
  {
    KeptOrigin(rows, selector, category, i);
    k :| 0 <= k < |rows| && IsKept(rows[k], selector) && Position(rows, selector, category, k) == i;
  }

  /** Two entries naming the same cell come from two kept rows naming it, in the same order. */
  lemma DuplicateEntryRows(rows: seq<RawRow>, selector: string, category: Category, i: int, j: int)
    returns (k1: int, k2: int)
    requires CastCells(Kept(rows, selector, category)).Ok?
    requires ParseTimes(Kept(rows, selector, category)).Ok?
    requires var es := EntriesOf(rows, selector, category);
      0 <= i < j < |es| && es[i].date == es[j].date && es[i].column == es[j].column
    ensures 0 <= k1 < k2 < |rows| && IsKept(rows[k1], selector) && IsKept(rows[k2], selector)
    ensures SameCell(rows, category, k1, k2)
  {
    k1 := EntryOrigin(rows, selector, category, i);
    k2 := EntryOrigin(rows, selector, category, j);
    PositionOrder(rows, selector, category, k1, k2);
    EntryAt(rows, selector, category, k1);
    EntryAt(rows, selector, category, k2);
  }

  /** Two kept rows naming the same cell become two entries naming it. */
  lemma DuplicateRowEntries(rows: seq<RawRow>, selector: string, category: Category, k1: int, k2: int)
    requires CastCells(Kept(rows, selector, category)).Ok?
    requires ParseTimes(Kept(rows, selector, category)).Ok?
    requires 0 <= k1 < k2 < |rows| && IsKept(rows[k1], selector) && IsKept(rows[k2], selector)
    requires SameCell(rows, category, k1, k2)
    ensures var es := EntriesOf(rows, selector, category);
      var i, j := Position(rows, selector, category, k1), Position(rows, selector, category, k2);
      0 <= i < j < |es| && (es[i].date, es[i].column) == (es[j].date, es[j].column)
  {
    PositionMonotone(rows, selector, category, k1, k2);
    EntryAt(rows, selector, category, k1);
    EntryAt(rows, selector, category, k2);
  }

  lemma DistinctCellsOutcome(rows: seq<RawRow>, selector: string, category: Category)
    requires CastCells(Kept(rows, selector, category)).Ok?
    requires ParseTimes(Kept(rows, selector, category)).Ok?
    ensures DistinctCells(EntriesOf(rows, selector, category)) <==> !HasDuplicateCell(rows, selector, category)
  {
    var es := EntriesOf(rows, selector, category);
    if !DistinctCells(es) {
      var i, j :| 0 <= i < j < |es| && (es[i].date, es[i].column) == (es[j].date, es[j].column);
      assert es[i].date == es[j].date && es[i].column == es[j].column;
      var k1, k2 := DuplicateEntryRows(rows, selector, category, i, j);
    }
    if HasDuplicateCell(rows, selector, category) {
      var k1, k2 :| 0 <= k1 < k2 < |rows| && IsKept(rows[k1], selector) && IsKept(rows[k2], selector)
                    && SameCell(rows, category, k1, k2);
      DuplicateRowEntries(rows, selector, category, k1, k2);
    }
  }

  /**
   * The transformation succeeds exactly when some row is kept, every kept row
   * casts and parses and no two kept rows share a cell, and the first failing
   * stage decides the error: a bad integer before a bad period before a
   * duplicate cell; with no kept row it fails with `NoRows`.
   */
  lemma CleanOutcome(rows: seq<RawRow>, selector: string, category: Category)
    ensures var r := CleanRetailSalesData(rows, selector, category);
      && (r.Ok? <==> AnyKept(rows, selector) && AllValuesCast(rows, selector) && AllPeriodsParse(rows, selector)
                     && !HasDuplicateCell(rows, selector, category))
      && (r == Err(NoRows) <==> !AnyKept(rows, selector))
      && (r.Err? && r.error.BadInteger? <==> !AllValuesCast(rows, selector))
      && (r.Err? && r.error.BadPeriod? <==> AllValuesCast(rows, selector) && !AllPeriodsParse(rows, selector))
      && (r == Err(DuplicateEntries) <==> AllValuesCast(rows, selector) && AllPeriodsParse(rows, selector)
                                          && HasDuplicateCell(rows, selector, category))
  {
    CastCellsOutcome(rows, selector, category);
    ParseTimesOutcome(rows, selector, category);
    KeptNone(rows, selector, category);
    var kept := Kept(rows, selector, category);
    if CastCells(kept).Ok? && ParseTimes(kept).Ok? && kept != [] {
      DistinctCellsOutcome(rows, selector, category);
    }
  }

  /** A cast or parse error quotes the text of a kept row that fails it. */
  lemma CleanErrorText(rows: seq<RawRow>, selector: string, category: Category)
    ensures var r := CleanRetailSalesData(rows, selector, category);
      && (r.Err? && r.error.BadInteger? ==>
            exists k :: 0 <= k < |rows| && IsKept(rows[k], selector) && rows[k].cellValue == r.error.text
                        && CastInt(r.error.text).None?)
      && (r.Err? && r.error.BadPeriod? ==>
            exists k :: 0 <= k < |rows| && IsKept(rows[k], selector) && rows[k].time == r.error.text
                        && ParsePeriod(r.error.text).None?)
  {
    var kept := Kept(rows, selector, category);
    var r := CleanRetailSalesData(rows, selector, category);
    if CastCells(kept).Err? {
      var i :| 0 <= i < |kept| && CastInt(kept[i].cellValue).None? && CastCells(kept).error == BadInteger(kept[i].cellValue);
      KeptOrigin(rows, selector, category, i);
      var k :| 0 <= k < |rows| && IsKept(rows[k], selector) && Position(rows, selector, category, k) == i;
      KeptAt(rows, selector, category, k);
    } else if ParseTimes(kept).Err? {
      var i :| 0 <= i < |kept| && ParsePeriod(kept[i].time).None? && ParseTimes(kept).error == BadPeriod(kept[i].time);
      KeptOrigin(rows, selector, category, i);
      var k :| 0 <= k < |rows| && IsKept(rows[k], selector) && Position(rows, selector, category, k) == i;
      KeptAt(rows, selector, category, k);
    }
  }

  /**
   * The wide table's index is the ascending, duplicate-free list of the kept
   * rows' dates; its columns are the ascending list of their labels.
   */
  lemma CleanShape(rows: seq<RawRow>, selector: string, category: Category)
    requires CleanRetailSalesData(rows, selector, category).Ok?
    ensures var w := CleanRetailSalesData(rows, selector, category).value;
      && w.Valid()
      && StrictlyIncreasing(w.index, DateLess)
      && (forall d :: d in w.index <==>
            exists k :: 0 <= k < |rows| && IsKept(rows[k], selector) && ParsePeriod(rows[k].time) == Some(d))
      && StrictlyIncreasing(w.columns, LabelLess)
      && (forall l :: l in w.columns <==>
            exists k :: 0 <= k < |rows| && IsKept(rows[k], selector) && Relabel(category.short, rows[k].categoryCode) == l)
  {
    var es := EntriesOf(rows, selector, category);
    var w := CleanRetailSalesData(rows, selector, category).value;
    assert w == Pivot(es).value;
    forall d ensures d in w.index <==>
      exists k :: 0 <= k < |rows| && IsKept(rows[k], selector) && ParsePeriod(rows[k].time) == Some(d)
    {
      if d in w.index {
        var i :| 0 <= i < |es| && es[i].date == d;
        var k := EntryOrigin(rows, selector, category, i);
        EntryAt(rows, selector, category, k);
      }
      if exists k :: 0 <= k < |rows| && IsKept(rows[k], selector) && ParsePeriod(rows[k].time) == Some(d) {
        var k :| 0 <= k < |rows| && IsKept(rows[k], selector) && ParsePeriod(rows[k].time) == Some(d);
        EntryAt(rows, selector, category, k);
        assert es[Position(rows, selector, category, k)].date == d;
      }
    }
    forall l ensures l in w.columns <==>
      exists k :: 0 <= k < |rows| && IsKept(rows[k], selector) && Relabel(category.short, rows[k].categoryCode) == l
    {
      if l in w.columns {
        var i :| 0 <= i < |es| && es[i].column == l;
        var k := EntryOrigin(rows, selector, category, i);
        EntryAt(rows, selector, category, k);
      }
      if exists k :: 0 <= k < |rows| && IsKept(rows[k], selector) && Relabel(category.short, rows[k].categoryCode) == l {
        var k :| 0 <= k < |rows| && IsKept(rows[k], selector) && Relabel(category.short, rows[k].categoryCode) == l;
        EntryAt(rows, selector, category, k);
        assert es[Position(rows, selector, category, k)].column == l;
      }
    }
  }

  /** The pivot has an entry (d, l, v) exactly when some raw row contributes it. */
  lemma EntryIffContributes(rows: seq<RawRow>, selector: string, category: Category, d: Date, l: string, v: int)
    requires CastCells(Kept(rows, selector, category)).Ok?
    requires ParseTimes(Kept(rows, selector, category)).Ok?
    ensures Entry(d, l, v) in EntriesOf(rows, selector, category)
        <==> exists k :: 0 <= k < |rows| && Contributes(rows[k], selector, category, d, l, v)
  {
    var es := EntriesOf(rows, selector, category);
    if Entry(d, l, v) in es {
      var i :| 0 <= i < |es| && es[i] == Entry(d, l, v);
      var k := EntryOrigin(rows, selector, category, i);
      EntryAt(rows, selector, category, k);
      assert Contributes(rows[k], selector, category, d, l, v);
    }
    if exists k :: 0 <= k < |rows| && Contributes(rows[k], selector, category, d, l, v) {
      var k :| 0 <= k < |rows| && Contributes(rows[k], selector, category, d, l, v);
      EntryAt(rows, selector, category, k);
      assert es[Position(rows, selector, category, k)] == Entry(d, l, v);
    }
  }

  /**
   * Cell (t, j) of the wide table holds `v` exactly when some kept row with
   * that date and label has value `v`, and is missing exactly when no kept
   * row has that date and label.
   */
  lemma CleanCell(rows: seq<RawRow>, selector: string, category: Category, t: int, j: int)
    requires CleanRetailSalesData(rows, selector, category).Ok?
    requires var w := CleanRetailSalesData(rows, selector, category).value;
      0 <= t < |w.index| && 0 <= j < |w.columns|
    ensures var w := CleanRetailSalesData(rows, selector, category).value;
      && (forall v :: w.cells[t][j] == Some(v) <==>
            exists k :: 0 <= k < |rows| && Contributes(rows[k], selector, category, w.index[t], w.columns[j], v))
      && (w.cells[t][j] == None <==>
            forall k, v :: 0 <= k < |rows| ==> !Contributes(rows[k], selector, category, w.index[t], w.columns[j], v))
  {
    var es := EntriesOf(rows, selector, category);
    var w := CleanRetailSalesData(rows, selector, category).value;
    assert w == Pivot(es).value;
    PivotCells(es, t, j);
    var d, l := w.index[t], w.columns[j];
    forall v ensures Entry(d, l, v) in es <==> exists k :: 0 <= k < |rows| && Contributes(rows[k], selector, category, d, l, v) {
      EntryIffContributes(rows, selector, category, d, l, v);
    }
    if w.cells[t][j].Some? {
      assert Entry(d, l, w.cells[t][j].value) in es;
    }
  }

  /** Rows of which none is monthly sales of the selected series make line 69 raise. */
  lemma CleanNothingKept(rows: seq<RawRow>, selector: string, category: Category)
    requires forall row :: row in rows ==> !IsKept(row, selector)
    ensures CleanRetailSalesData(rows, selector, category) == Err(NoRows)
  {
    KeptNone(rows, selector, category);
  }

  lemma KeptIgnoresDroppedRow(rows: seq<RawRow>, row: RawRow, i: int, selector: string, category: Category)
    requires 0 <= i <= |rows| && !IsKept(row, selector)
    ensures Kept(rows[..i] + [row] + rows[i..], selector, category) == Kept(rows, selector, category)
  {
    var front, back := rows[..i], rows[i..];
    assert Kept(front + [row], selector, category) == Kept(front, selector, category) by {
      assert [row][..0] == [];
      KeptAppend(front, [row], selector, category);
    }
    assert Kept(front + [row] + back, selector, category) == Kept(front, selector, category) + Kept(back, selector, category) by {
      KeptAppend(front + [row], back, selector, category);
    }
    assert Kept(rows, selector, category) == Kept(front, selector, category) + Kept(back, selector, category) by {
      assert front + back == rows;
      KeptAppend(front, back, selector, category);
    }
  }

  /** Inserting a row that is not monthly sales of the selected series changes nothing. */
  lemma CleanIgnoresDroppedRow(rows: seq<RawRow>, row: RawRow, i: int, selector: string, category: Category)
    requires 0 <= i <= |rows| && !IsKept(row, selector)
    ensures CleanRetailSalesData(rows[..i] + [row] + rows[i..], selector, category)
         == CleanRetailSalesData(rows, selector, category)
  {
    KeptIgnoresDroppedRow(rows, row, i, selector, category);
  }

  /** Line 57's default argument: the seasonally adjusted series, as line 89 calls it. */
  function CleanDefault(rows: seq<RawRow>, category: Category): (r: Result<Wide, ReshapeError>)
    ensures r.Ok? ==> r.value.Valid()
    ensures r == Err(NoRows) <==> forall row :: row in rows ==> row.dataTypeCode != MonthlySales || row.seasonallyAdj != "yes"
  {
    CleanOutcome(rows, Adjusted, category);
    CleanRetailSalesData(rows, Adjusted, category)
  }

  /** By default, a row of the unadjusted series (or any other) changes nothing. */
  lemma DefaultIgnoresUnadjusted(rows: seq<RawRow>, row: RawRow, i: int, category: Category)
    requires 0 <= i <= |rows| && row.seasonallyAdj != Adjusted
    ensures CleanDefault(rows[..i] + [row] + rows[i..], category) == CleanDefault(rows, category)
  {
    CleanIgnoresDroppedRow(rows, row, i, Adjusted, category);
  }
}
