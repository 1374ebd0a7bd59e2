/** The tables the pipeline passes between its stages. */
module Tables {
  import opened Outcomes
  import opened Ordering

  /** A calendar date; the reshaper only produces the first day of a month. */
  datatype Date = Date(year: int, month: int, day: int)

  /** Chronological order on dates. */
  predicate DateLess(a: Date, b: Date) {
    a.year < b.year
    || (a.year == b.year && a.month < b.month)
    || (a.year == b.year && a.month == b.month && a.day < b.day)
  }

  /** Python's order on `str`: lexicographic by code point, a proper prefix first. */
  predicate LabelLess(a: string, b: string)
    decreases |a|
  {
    if |a| == 0 then |b| > 0
    else if |b| == 0 then false
    else if a[0] != b[0] then a[0] < b[0]
    else LabelLess(a[1..], b[1..])
  }

  lemma {:induction false} LabelLessIrreflexive(a: string)
    ensures !LabelLess(a, a)
  {
    if |a| > 0 {
      LabelLessIrreflexive(a[1..]);
    }
  }

  lemma {:induction false} LabelLessTransitive(a: string, b: string, c: string)
    requires LabelLess(a, b) && LabelLess(b, c)
    ensures LabelLess(a, c)
    decreases |a|
  {
    if |a| > 0 && a[0] == b[0] && b[0] == c[0] {
      LabelLessTransitive(a[1..], b[1..], c[1..]);
    }
  }

  lemma {:induction false} LabelLessTotal(a: string, b: string)
    requires a != b
    ensures LabelLess(a, b) || LabelLess(b, a)
    decreases |a|
  {
    if |a| > 0 && |b| > 0 && a[0] == b[0] {
      assert a == [a[0]] + a[1..] && b == [b[0]] + b[1..];
      LabelLessTotal(a[1..], b[1..]);
    }
  }

  /** The order pandas sorts column labels by is a strict total order. */
  lemma LabelOrder()
    ensures IsStrictTotalOrder(LabelLess)
  {
    forall a: string {
      LabelLessIrreflexive(a);
    }
    forall a: string, b: string, c: string | LabelLess(a, b) && LabelLess(b, c)
      ensures LabelLess(a, c)
    {
      LabelLessTransitive(a, b, c);
    }
    forall a: string, b: string | a != b
      ensures LabelLess(a, b) || LabelLess(b, a)
    {
      LabelLessTotal(a, b);
    }
  }

  /** Chronological order is a strict total order. */
  lemma DateOrder()
    ensures IsStrictTotalOrder(DateLess)
  {
  }

  /** Row-major cells; `None` is a missing (NaN) cell. */
  type Grid<T> = seq<seq<Option<T>>>

  predicate Shaped<T>(g: Grid<T>, rows: nat, cols: nat) {
    |g| == rows && forall t :: 0 <= t < rows ==> |g[t]| == cols
  }

  /** Column `j` of a grid, top to bottom. */
  function Column<T>(g: seq<seq<T>>, j: nat): (c: seq<T>)
    requires forall t :: 0 <= t < |g| ==> j < |g[t]|
    ensures |c| == |g| && forall t :: 0 <= t < |g| ==> c[t] == g[t][j]
  {
    seq(|g|, t requires 0 <= t < |g| => g[t][j])
  }

  /**
   * The pivoted sales table: one row per date (the index), one column per
   * short category label, integer cells.
   */
  datatype Wide = Wide(index: seq<Date>, columns: seq<string>, cells: Grid<int>) {
    predicate Valid() {
      Shaped(cells, |index|, |columns|)
    }
  }
}
