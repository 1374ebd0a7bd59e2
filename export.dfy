/**
 * `to_excel`: every table of the export bundle becomes one worksheet. Its
 * column labels are first cut to 31 characters with ':' replaced by '_'
 * (overwriting the table's own labels), then every data column is sized to
 * its longest text and the index column to 10 characters.
 *
 * A table is modelled by its column labels and the text of its cells
 * (`astype(str)`); how numbers become text and the workbook bytes are not
 * part of this model.
 */
module Export {
  import opened Outcomes
  import opened Tables

  /** Labels are cut to this many characters. */
  const LabelLimit: nat := 31
  /** Width given to sheet column 0, which holds the row index. */
  const IndexColumnWidth: nat := 10

  /** `str(c)[:31].replace(":", "_")` on one column label. */
  function SanitiseLabel(c: string): (r: string)
    ensures |r| == if |c| <= LabelLimit then |c| else LabelLimit
    ensures ':' !in r
    ensures forall i :: 0 <= i < |r| ==> r[i] == if c[i] == ':' then '_' else c[i]
  {
    var cut := if |c| <= LabelLimit then c else c[..LabelLimit];
    seq(|cut|, i requires 0 <= i < |cut| => if cut[i] == ':' then '_' else cut[i])
  }

  /** Sanitising twice changes nothing more than sanitising once. */
  lemma SanitiseIdempotent(c: string)
    ensures SanitiseLabel(SanitiseLabel(c)) == SanitiseLabel(c)
  {
    var once := SanitiseLabel(c);
    var twice := SanitiseLabel(once);
    assert |twice| == |once|;
    forall i | 0 <= i < |once|
      ensures twice[i] == once[i]
    {
      assert once[i] != ':';
    }
  }

  /** A label is left as it is exactly when it is short enough and has no ':'. */
  lemma SanitiseFixpoint(c: string)
    ensures SanitiseLabel(c) == c <==> |c| <= LabelLimit && ':' !in c
  {
    var r := SanitiseLabel(c);
    if |c| <= LabelLimit && ':' !in c {
      assert |r| == |c|;
      forall i | 0 <= i < |c|
        ensures r[i] == c[i]
      {
        assert c[i] != ':';
      }
    }
  }

  /** Line 96: the new column labels of a table. */
  function SanitiseLabels(cs: seq<string>): (r: seq<string>)
    ensures |r| == |cs| && forall i :: 0 <= i < |cs| ==> r[i] == SanitiseLabel(cs[i])
  {
    seq(|cs|, i requires 0 <= i < |cs| => SanitiseLabel(cs[i]))
  }

  lemma SanitiseLabelsIdempotent(cs: seq<string>)
    ensures SanitiseLabels(SanitiseLabels(cs)) == SanitiseLabels(cs)
  {
    forall i | 0 <= i < |cs|
      ensures SanitiseLabels(SanitiseLabels(cs))[i] == SanitiseLabels(cs)[i]
    {
      SanitiseIdempotent(cs[i]);
    }
  }

  /** Two labels that the sanitiser maps to the same text. */
  predicate HasDuplicate(labels: seq<string>) {
    exists i, j :: 0 <= i < j < |labels| && labels[i] == labels[j]
  }

  /** Every row of cell texts has one text per column label. */
  predicate RowsFit(cells: seq<seq<string>>, width: nat) {
    forall t :: 0 <= t < |cells| ==> |cells[t]| == width
  }

  /** `map(len).max()`: the longest text; NaN (here None) for an empty column. */
  function LongestLength(texts: seq<string>): (r: Option<nat>)
    ensures r.None? <==> texts == []
    ensures r.Some? ==> forall t :: 0 <= t < |texts| ==> |texts[t]| <= r.value
    ensures r.Some? ==> exists t :: 0 <= t < |texts| && |texts[t]| == r.value
  {
    if texts == [] then None
    else
      var rest := LongestLength(texts[..|texts| - 1]);
      var last := |texts[|texts| - 1]|;
      assert forall t :: 0 <= t < |texts| - 1 ==> texts[t] == texts[..|texts| - 1][t];
      if rest.Some? && rest.value >= last then rest else Some(last)
  }

  /**
   * Line 100: `max(longest, len(column))`. Python's `max(nan, k)` is NaN, so a
   * column without rows gets no width (None).
   */
  function ColumnWidth(texts: seq<string>, header: string): (r: Option<nat>)
    ensures r.None? <==> texts == []
    ensures r.Some? ==> |header| <= r.value && forall t :: 0 <= t < |texts| ==> |texts[t]| <= r.value
  {
    match LongestLength(texts)
    case None => None
    case Some(longest) => Some(if |header| > longest then |header| else longest)
  }

  /**
   * A column gets a width exactly when it has rows; the width fits the label
   * and every cell, and is the length of one of them.
   */
  lemma ColumnWidthFits(texts: seq<string>, header: string)
    ensures var w := ColumnWidth(texts, header);
      && (w.None? <==> texts == [])
      && (w.Some? ==> |header| <= w.value && forall t :: 0 <= t < |texts| ==> |texts[t]| <= w.value)
      && (w.Some? ==> w.value == |header| || exists t :: 0 <= t < |texts| && |texts[t]| == w.value)
  {
  }

  /** Lines 99-104: the width of every sheet column; column 0 holds the index. */
  function SheetWidths(labels: seq<string>, cells: seq<seq<string>>): (r: seq<Option<nat>>)
    requires RowsFit(cells, |labels|)
    ensures |r| == |labels| + 1 && r[0] == Some(IndexColumnWidth)
    ensures forall j :: 0 <= j < |labels| ==> r[j + 1] == ColumnWidth(Column(cells, j), labels[j])
  {
    [Some(IndexColumnWidth)]
      + seq(|labels|, j requires 0 <= j < |labels| => ColumnWidth(Column(cells, j), labels[j]))
  }

  /** Extending the texts by one keeps the longest length so far unless the new text is longer. */
  lemma LongestStep(texts: seq<string>, t: int)
    requires 0 <= t < |texts|
    ensures var sofar := LongestLength(texts[..t]);
      LongestLength(texts[..t + 1])
        == if sofar.Some? && sofar.value >= |texts[t]| then sofar else Some(|texts[t]|)
  {
    assert texts[..t + 1][..t] == texts[..t];
  }

  /** Line 100, `map(len).max()` over one column: a scan for the longest cell text. */
  method LongestCell(cells: seq<seq<string>>, j: nat) returns (longest: Option<nat>)
    requires forall t :: 0 <= t < |cells| ==> j < |cells[t]|
    ensures longest == LongestLength(Column(cells, j))
  {
    ghost var column := Column(cells, j);
    longest := None;
    var t := 0;
    while t < |cells|
      invariant 0 <= t <= |cells|
      invariant longest == LongestLength(column[..t])
    {
      LongestStep(column, t);
      var length := |cells[t][j]|;
      if longest.None? || longest.value < length {
        longest := Some(length);
      }
      t := t + 1;
    }
    assert column[..t] == column;
  }

  /** Lines 99-104: the loop over the data columns, then the index column. */
  method ColumnWidths(labels: seq<string>, cells: seq<seq<string>>) returns (widths: seq<Option<nat>>)
    requires RowsFit(cells, |labels|)
    ensures widths == SheetWidths(labels, cells)
  {
    ghost var expected := SheetWidths(labels, cells);
    var data: seq<Option<nat>> := [];
    var j := 0;
    while j < |labels|
      invariant 0 <= j <= |labels|
      invariant data == expected[1..j + 1]
    {
      var longest := LongestCell(cells, j);
      var width: Option<nat> := None;
      if longest.Some? {
        width := Some(if |labels[j]| > longest.value then |labels[j]| else longest.value);
      }
      assert width == expected[j + 1];
      data := data + [width];
      j := j + 1;
    }
    widths := [Some(IndexColumnWidth)] + data;
  }

  /** One written worksheet: its name, header row, cell texts and column widths. */
  datatype Sheet = Sheet(name: string, header: seq<string>, rows: seq<seq<string>>, widths: seq<Option<nat>>)

  datatype ExportError =
    | DuplicateColumn(sheet: string)  // two labels of this sheet's table coincide after sanitising

  /**
   * The sheet written for one table, or the failure at line 100: when two
   * sanitised labels coincide, `df[column]` selects two columns and the
   * width computation fails.
   */
  function ExportSheet(name: string, labels: seq<string>, cells: seq<seq<string>>): (r: Result<Sheet, ExportError>)
    requires RowsFit(cells, |labels|)
    ensures r.Ok? <==> !HasDuplicate(SanitiseLabels(labels))
    ensures r.Err? ==> r.error == DuplicateColumn(name)
    ensures r.Ok? ==> r.value.name == name && r.value.header == SanitiseLabels(labels) && r.value.rows == cells
  {
    var header := SanitiseLabels(labels);
    if HasDuplicate(header) then Err(DuplicateColumn(name))
    else Ok(Sheet(name, header, cells, SheetWidths(header, cells)))
  }

  /**
   * In a written sheet every header label is at most 31 characters and free of
   * ':', all labels differ, and every data column with rows is at least as
   * wide as its header and each of its cells.
   */
  lemma ExportSheetFits(name: string, labels: seq<string>, cells: seq<seq<string>>, j: int)
    requires RowsFit(cells, |labels|)
    requires ExportSheet(name, labels, cells).Ok?
    requires 0 <= j < |labels|
    ensures var s := ExportSheet(name, labels, cells).value;
      && |s.header[j]| <= LabelLimit && ':' !in s.header[j]
      && (forall i :: 0 <= i < |labels| && i != j ==> s.header[i] != s.header[j])
      && |s.widths| == |labels| + 1 && s.widths[0] == Some(IndexColumnWidth)
      && (s.widths[j + 1].None? <==> cells == [])
      && (s.widths[j + 1].Some? ==> |s.header[j]| <= s.widths[j + 1].value)
      && (s.widths[j + 1].Some? ==> forall t :: 0 <= t < |cells| ==> |cells[t][j]| <= s.widths[j + 1].value)
  {
    var header := SanitiseLabels(labels);
    ColumnWidthFits(Column(cells, j), header[j]);
    forall i | 0 <= i < |labels| && i != j
      ensures header[i] != header[j]
    {
      if header[i] == header[j] {
        if i < j {
          assert HasDuplicate(header);
        } else {
          assert HasDuplicate(header);
        }
      }
    }
  }

  /** The labels and cell texts of one table, as values. */
  datatype Table = Table(labels: seq<string>, cells: seq<seq<string>>)

  /** Every table of a bundle has one cell text per label in each row. */
  predicate AllFit(named: seq<(string, Table)>) {
    forall i :: 0 <= i < |named| ==> RowsFit(named[i].1.cells, |named[i].1.labels|)
  }

  /**
   * Lines 95-104: the sheets of a bundle in order, or the error of the first
   * table whose sanitised labels coincide.
   */
  function ExportBundle(named: seq<(string, Table)>): (r: Result<seq<Sheet>, ExportError>)
    requires AllFit(named)
    ensures r.Ok? ==> |r.value| == |named|
  {
    if named == [] then Ok([])
    else
      var written := ExportBundle(named[..|named| - 1]);
      var last := named[|named| - 1];
      var sheet := ExportSheet(last.0, last.1.labels, last.1.cells);
      if written.Err? then written
      else if sheet.Err? then Err(sheet.error)
      else Ok(written.value + [sheet.value])
  }

  /** A written bundle holds, at position i, the sheet written for table i. */
  lemma {:induction false} BundleSheets(named: seq<(string, Table)>)
    requires AllFit(named) && ExportBundle(named).Ok?
    ensures forall i :: 0 <= i < |named| ==>
      ExportSheet(named[i].0, named[i].1.labels, named[i].1.cells) == Ok(ExportBundle(named).value[i])
  {
    if named != [] {
      var n := |named| - 1;
      var front := named[..n];
      assert forall i :: 0 <= i < n ==> front[i] == named[i];
      BundleSheets(front);
      var sheets := ExportBundle(named).value;
      assert forall i :: 0 <= i < n ==> sheets[i] == ExportBundle(front).value[i];
    }
  }

  /** A failed bundle stops at the first table that cannot be written, with its error. */
  lemma {:induction false} BundleFailure(named: seq<(string, Table)>)
    requires AllFit(named) && ExportBundle(named).Err?
    ensures var k := FirstFailure(named);
      && (forall i :: 0 <= i < k ==> ExportSheet(named[i].0, named[i].1.labels, named[i].1.cells).Ok?)
      && ExportSheet(named[k].0, named[k].1.labels, named[k].1.cells).Err?
      && ExportBundle(named).error == DuplicateColumn(named[k].0)
  {
    var n := |named| - 1;
    var front := named[..n];
    assert forall i :: 0 <= i < n ==> front[i] == named[i];
    if ExportBundle(front).Err? {
      BundleFailure(front);
    } else {
      BundleSheets(front);
    }
  }

  /**
   * The bundle is written exactly when every table is, sheet i being table
   * i's; otherwise the error names the first table that cannot be written.
   */
  lemma ExportBundleOutcome(named: seq<(string, Table)>)
    requires AllFit(named)
    ensures var r := ExportBundle(named);
      && (r.Ok? <==> forall i :: 0 <= i < |named| ==> ExportSheet(named[i].0, named[i].1.labels, named[i].1.cells).Ok?)
      && (r.Ok? ==> forall i :: 0 <= i < |named| ==> ExportSheet(named[i].0, named[i].1.labels, named[i].1.cells) == Ok(r.value[i]))
      && (r.Err? ==> var k := FirstFailure(named);
            && k < |named|
            && (forall i :: 0 <= i < k ==> ExportSheet(named[i].0, named[i].1.labels, named[i].1.cells).Ok?)
            && ExportSheet(named[k].0, named[k].1.labels, named[k].1.cells).Err?
            && r.error == DuplicateColumn(named[k].0))
  {
    if ExportBundle(named).Ok? {
      BundleSheets(named);
    } else {
      BundleFailure(named);
    }
  }

  /** The position of the table a failing bundle stops at. */
  function FirstFailure(named: seq<(string, Table)>): (k: nat)
    requires AllFit(named) && ExportBundle(named).Err?
    ensures k < |named|
  {
    var front := named[..|named| - 1];
    if ExportBundle(front).Err? then FirstFailure(front) else |named| - 1
  }

  /** Once a prefix of the bundle fails, the whole bundle fails the same way, at the same table. */
  lemma {:induction false} ErrorPersists(named: seq<(string, Table)>, m: nat)
    requires AllFit(named) && m <= |named|
    requires ExportBundle(named[..m]).Err?
    ensures ExportBundle(named) == ExportBundle(named[..m])
    ensures FirstFailure(named) == FirstFailure(named[..m])
  {
    if m < |named| {
      var front := named[..|named| - 1];
      assert front[..m] == named[..m];
      ErrorPersists(front, m);
    } else {
      assert named[..m] == named;
    }
  }

  /** Entry k either extends the sheets written so far or stops the whole bundle. */
  lemma BundleStep(named: seq<(string, Table)>, k: int)
    requires AllFit(named) && 0 <= k < |named| && ExportBundle(named[..k]).Ok?
    ensures var sheet := ExportSheet(named[k].0, named[k].1.labels, named[k].1.cells);
      && (sheet.Ok? ==> ExportBundle(named[..k + 1]) == Ok(ExportBundle(named[..k]).value + [sheet.value]))
      && (sheet.Err? ==> ExportBundle(named) == Err(sheet.error) && FirstFailure(named) == k)
  {
    var front := named[..k + 1];
    assert front[..|front| - 1] == named[..k] && front[|front| - 1] == named[k];
    if ExportSheet(named[k].0, named[k].1.labels, named[k].1.cells).Err? {
      ErrorPersists(named, k + 1);
      assert FirstFailure(front) == k;
    }
  }

  /** A table of the export bundle, whose column labels `to_excel` overwrites. */
  class Frame {
    var labels: seq<string>
    const cells: seq<seq<string>>

    ghost predicate Valid()
      reads this
    {
      RowsFit(cells, |labels|)
    }

    constructor (labels: seq<string>, cells: seq<seq<string>>)
      requires RowsFit(cells, |labels|)
      ensures Valid() && this.labels == labels && this.cells == cells
    {
      this.labels := labels;
      this.cells := cells;
    }
  }

  /** Lines 96-104 for one table: overwrite its labels, then write and size the sheet. */
  method WriteSheet(name: string, f: Frame) returns (r: Result<Sheet, ExportError>)
    requires f.Valid()
    modifies f
    ensures f.Valid() && f.labels == SanitiseLabels(old(f.labels))
    ensures r == ExportSheet(name, old(f.labels), f.cells)
  {
    f.labels := SanitiseLabels(f.labels);
    if HasDuplicate(f.labels) {
      return Err(DuplicateColumn(name));
    }
    SanitiseLabelsIdempotent(old(f.labels));
    var widths := ColumnWidths(f.labels, f.cells);
    r := Ok(Sheet(name, f.labels, f.cells, widths));
  }

  /** The frames of the first k entries of the bundle. */
  ghost function FramesBefore(dfs: seq<(string, Frame)>, k: int): set<Frame>
    requires 0 <= k <= |dfs|
  {
    set i | 0 <= i < k :: dfs[i].1
  }

  lemma FramesBeforeNext(dfs: seq<(string, Frame)>, k: int)
    requires 0 <= k < |dfs|
    ensures FramesBefore(dfs, k + 1) == FramesBefore(dfs, k) + {dfs[k].1}
  {
    forall g | g in FramesBefore(dfs, k + 1)
      ensures g in FramesBefore(dfs, k) + {dfs[k].1}
    {
      var i :| 0 <= i < k + 1 && dfs[i].1 == g;
      if i < k {
        assert g in FramesBefore(dfs, k);
      }
    }
  }

  /** Every frame of the bundle has one cell text per label in each row. */
  ghost predicate AllValid(dfs: seq<(string, Frame)>)
    reads set i | 0 <= i < |dfs| :: dfs[i].1
  {
    forall i :: 0 <= i < |dfs| ==> dfs[i].1.Valid()
  }

  /** `named` holds the bundle's names and cells (neither of which `to_excel` changes). */
  predicate Describes(named: seq<(string, Table)>, dfs: seq<(string, Frame)>) {
    && |named| == |dfs|
    && forall i :: 0 <= i < |dfs| ==> named[i].0 == dfs[i].0 && named[i].1.cells == dfs[i].1.cells
  }

  /**
   * The frames of the first k entries carry the sanitised form of their
   * labels in `named`, every other frame its labels in `named`.
   */
  ghost predicate SanitisedUpTo(dfs: seq<(string, Frame)>, named: seq<(string, Table)>, k: int)
    requires Describes(named, dfs) && 0 <= k <= |dfs|
    reads set i | 0 <= i < |dfs| :: dfs[i].1
  {
    forall i :: 0 <= i < |dfs| ==>
      dfs[i].1.labels == if dfs[i].1 in FramesBefore(dfs, k)
                         then SanitiseLabels(named[i].1.labels)
                         else named[i].1.labels
  }

  /** One pass of the loop at line 95: write entry k of the bundle. */
  method WriteEntry(dfs: seq<(string, Frame)>, k: int, ghost named: seq<(string, Table)>) returns (sheet: Result<Sheet, ExportError>)
    requires Describes(named, dfs) && AllFit(named) && 0 <= k < |dfs|
    requires AllValid(dfs) && SanitisedUpTo(dfs, named, k)
    modifies dfs[k].1
    ensures AllValid(dfs) && SanitisedUpTo(dfs, named, k + 1)
    ensures sheet == ExportSheet(named[k].0, named[k].1.labels, named[k].1.cells)
  {
    var f := dfs[k].1;
    ghost var original := named[k].1.labels;
    ghost var before := f.labels;
    SanitiseLabelsIdempotent(original);
    assert SanitiseLabels(before) == SanitiseLabels(original);
    sheet := WriteSheet(dfs[k].0, f);
    assert ExportSheet(dfs[k].0, before, f.cells) == ExportSheet(dfs[k].0, original, f.cells);
    FramesBeforeNext(dfs, k);
    forall i | 0 <= i < |dfs|
      ensures dfs[i].1.labels == if dfs[i].1 in FramesBefore(dfs, k + 1)
                                 then SanitiseLabels(named[i].1.labels)
                                 else named[i].1.labels
    {
      if dfs[i].1 != f {
        assert dfs[i].1 in FramesBefore(dfs, k + 1) <==> dfs[i].1 in FramesBefore(dfs, k);
      }
    }
  }

  /**
   * Lines 92-104. `named` is the bundle as it is on entry: its names, labels
   * and cells. The result is `ExportBundle` of it. The frames of the entries
   * up to and including the last one reached (all of them on success, up to
   * the failing one otherwise) have had their labels sanitised; the others
   * are untouched. A frame that appears twice in the bundle counts as
   * sanitised once any of its entries is reached, sanitising being
   * idempotent.
   */
  method ToExcel(dfs: seq<(string, Frame)>, ghost named: seq<(string, Table)>) returns (r: Result<seq<Sheet>, ExportError>)
    requires Describes(named, dfs) && AllValid(dfs)
    requires forall i :: 0 <= i < |dfs| ==> named[i].1.labels == dfs[i].1.labels
    modifies set i | 0 <= i < |dfs| :: dfs[i].1
    ensures AllValid(dfs) && AllFit(named)
    ensures r == ExportBundle(named)
    ensures r.Ok? ==> SanitisedUpTo(dfs, named, |dfs|)
    ensures r.Err? ==> SanitisedUpTo(dfs, named, FirstFailure(named) + 1)
  {
    assert AllFit(named);
    var sheets: seq<Sheet> := [];
    var k := 0;
    while k < |dfs|
      invariant 0 <= k <= |dfs|
      invariant AllValid(dfs) && SanitisedUpTo(dfs, named, k)
      invariant ExportBundle(named[..k]) == Ok(sheets)
    {
      var sheet := WriteEntry(dfs, k, named);
      BundleStep(named, k);
      if sheet.Err? {
        return Err(sheet.error);
      }
      sheets := sheets + [sheet.value];
      k := k + 1;
    }
    assert named[..k] == named;
    r := Ok(sheets);
  }

  /** Once every entry is reached, every frame carries its sanitised labels. */
  lemma AllSanitised(dfs: seq<(string, Frame)>, named: seq<(string, Table)>)
    requires Describes(named, dfs) && SanitisedUpTo(dfs, named, |dfs|)
    ensures forall i :: 0 <= i < |dfs| ==> dfs[i].1.labels == SanitiseLabels(named[i].1.labels)
  {
    forall i | 0 <= i < |dfs|
      ensures dfs[i].1 in FramesBefore(dfs, |dfs|)
    {
    }
  }
}
