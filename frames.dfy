/** The table every view receives: named columns and student rows whose
    cells may be missing, plus the few pandas primitives the views share
    (column presence, row-wise sums that skip missing values, means,
    distinct values, rounding, adding a column to a copy). */
module Frames {
  import opened Wrappers

  datatype Value = Num(x: real) | Text(s: string)

  /** A cell of the table: `None` is a missing value (NaN). */
  type Cell = Option<Value>

  type Row = map<string, Cell>

  datatype Frame = Frame(columns: seq<string>, rows: seq<Row>)

  /** The cell of `row` in column `c`; a row without the key reads as missing. */
  function CellAt(row: Row, c: string): Cell {
    if c in row then row[c] else None
  }

  /** The numeric reading of a cell: text and missing cells have none. */
  function NumOf(cell: Cell): Option<real> {
    if cell.Some? && cell.value.Num? then Some(cell.value.x) else None
  }

  function NumAt(row: Row, c: string): Option<real> {
    NumOf(CellAt(row, c))
  }

  /** The row-filter `df[df[col] == label]` for a text label: a missing cell
      equals nothing. */
  predicate IsText(row: Row, col: string, text: string) {
    CellAt(row, col) == Some(Text(text))
  }

  /** `df[df[col] == text]`: the rows whose `col` holds that text, in order. */
  function RowsWhere(rows: seq<Row>, col: string, text: string): (sel: seq<Row>)
    ensures |sel| <= |rows|
    ensures forall r :: r in sel <==> r in rows && IsText(r, col, text)
    ensures IsSubsequence(sel, rows)
  {
    if rows == [] then []
    else
      var sel := RowsWhere(rows[..|rows| - 1], col, text);
      var last := rows[|rows| - 1];
      assert rows == rows[..|rows| - 1] + [last];
      SubsequenceSnoc(sel, rows[..|rows| - 1], last);
      if IsText(last, col, text) then sel + [last] else sel
  }

  /** The filter acts row by row: filtering two blocks of rows is filtering
      each block and joining the results. */
  lemma {:induction false} RowsWhereAppend(a: seq<Row>, b: seq<Row>, col: string, text: string)
    ensures RowsWhere(a + b, col, text) == RowsWhere(a, col, text) + RowsWhere(b, col, text)
    decreases |b|
  {
    if b == [] {
      assert a + b == a;
    } else {
      var init, last := b[..|b| - 1], b[|b| - 1];
      assert (a + b)[..|a + b| - 1] == a + init;
      assert (a + b)[|a + b| - 1] == last;
      RowsWhereAppend(a, init, col, text);
    }
  }

  function Abs(x: real): real {
    if x < 0.0 then -x else x
  }

  // ---------------------------------------------------------------- columns

  /** `a` is `b` with some elements left out, the rest in the same order. */
  predicate IsSubsequence<T(==)>(a: seq<T>, b: seq<T>)
    decreases |b|
  {
    if a == [] then true
    else if b == [] then false
    else if a[0] == b[0] then IsSubsequence(a[1..], b[1..])
    else IsSubsequence(a, b[1..])
  }

  /** Appending one element to the longer sequence keeps a subsequence, and
      appending it to both does too. */
  lemma {:induction false} SubsequenceSnoc<T>(a: seq<T>, b: seq<T>, x: T)
    requires IsSubsequence(a, b)
    ensures IsSubsequence(a, b + [x]) && IsSubsequence(a + [x], b + [x])
    decreases |b|
  {
    if a == [] {
      if b != [] {
        SubsequenceSnoc(a, b[1..], x);
        assert (b + [x])[1..] == b[1..] + [x];
      }
    } else if b == [] {
      assert false;
    } else if a[0] == b[0] {
      SubsequenceSnoc(a[1..], b[1..], x);
      assert (a + [x])[1..] == a[1..] + [x];
      assert (b + [x])[1..] == b[1..] + [x];
    } else {
      SubsequenceSnoc(a, b[1..], x);
      assert (b + [x])[1..] == b[1..] + [x];
    }
  }

  /** `[col for col in requested if col in df.columns]`: the requested columns
      that the table has, in requested order. */
  function PresentColumns(columns: seq<string>, requested: seq<string>): (present: seq<string>)
    ensures forall c :: c in present <==> c in requested && c in columns
    ensures IsSubsequence(present, requested)
    ensures |present| <= |requested|
  {
    if requested == [] then []
    else if requested[0] in columns then [requested[0]] + PresentColumns(columns, requested[1..])
    else PresentColumns(columns, requested[1..])
  }

  /** Filtering a second time removes nothing more. */
  lemma {:induction false} PresentColumnsIdempotent(columns: seq<string>, requested: seq<string>)
    ensures PresentColumns(columns, PresentColumns(columns, requested)) == PresentColumns(columns, requested)
  {
    if requested != [] {
      PresentColumnsIdempotent(columns, requested[1..]);
    }
  }

  /** Every requested column that exists is kept; only absent ones are dropped. */
  lemma {:induction false} PresentColumnsAllPresent(columns: seq<string>, requested: seq<string>)
    requires forall c :: c in requested ==> c in columns
    ensures PresentColumns(columns, requested) == requested
  {
    if requested != [] {
      PresentColumnsAllPresent(columns, requested[1..]);
    }
  }

  /** The first of `wanted` that the table lacks: the column a KeyError names. */
  function FirstAbsent(columns: seq<string>, wanted: seq<string>): (r: Option<string>)
    ensures r.None? <==> forall c :: c in wanted ==> c in columns
    ensures r.Some? ==> r.value in wanted && r.value !in columns
  {
    if wanted == [] then None
    else if wanted[0] !in columns then Some(wanted[0])
    else FirstAbsent(columns, wanted[1..])
  }

  /** Selecting `df[wanted]`: fails on the first absent column. */
  function Require(f: Frame, wanted: seq<string>): (r: Result<()>)
    ensures r.Ok? <==> forall c :: c in wanted ==> c in f.columns
    ensures r.Err? ==> r.failure.MissingColumn? && r.failure.name in wanted && r.failure.name !in f.columns
  {
    match FirstAbsent(f.columns, wanted)
    case None => Ok(())
    case Some(c) => Err(MissingColumn(c))
  }

  /** Selection reads only whether each wanted column is present. */
  lemma {:induction false} FirstAbsentSameMembership(c1: seq<string>, c2: seq<string>, wanted: seq<string>)
    requires forall c :: c in wanted ==> (c in c1 <==> c in c2)
    ensures FirstAbsent(c1, wanted) == FirstAbsent(c2, wanted)
  {
    if wanted != [] {
      FirstAbsentSameMembership(c1, c2, wanted[1..]);
    }
  }

  /** Adding a column that is not selected changes no selection. */
  lemma RequireIgnoresNewColumn(f: Frame, name: string, values: seq<Cell>, wanted: seq<string>)
    requires |values| == |f.rows| && name !in wanted
    ensures Require(WithColumn(f, name, values), wanted) == Require(f, wanted)
  {
    FirstAbsentSameMembership(WithColumn(f, name, values).columns, f.columns, wanted);
  }

  // ------------------------------------------------------------- arithmetic

  function Sum(xs: seq<real>): real {
    if xs == [] then 0.0 else xs[0] + Sum(xs[1..])
  }

  lemma {:induction false} SumAppend(xs: seq<real>, ys: seq<real>)
    ensures Sum(xs + ys) == Sum(xs) + Sum(ys)
  {
    if xs == [] {
      assert xs + ys == ys;
    } else {
      assert (xs + ys)[1..] == xs[1..] + ys;
      SumAppend(xs[1..], ys);
    }
  }

  function Mean(xs: seq<real>): real
    requires |xs| > 0
  {
    Sum(xs) / |xs| as real
  }

  /** Values between two bounds add up to between n times each bound. */
  lemma {:induction false} SumBetween(xs: seq<real>, lo: real, hi: real)
    requires forall i :: 0 <= i < |xs| ==> lo <= xs[i] <= hi
    ensures |xs| as real * lo <= Sum(xs) <= |xs| as real * hi
  {
    if xs != [] {
      SumBetween(xs[1..], lo, hi);
      var n := (|xs| - 1) as real;
      assert |xs| as real * lo == n * lo + lo;
      assert |xs| as real * hi == n * hi + hi;
    }
  }

  /** Dividing by a positive count keeps a lower bound of n times lo. */
  lemma DivAtLeast(s: real, n: real, lo: real)
    requires n > 0.0 && n * lo <= s
    ensures lo <= s / n
  {
    var q := s / n;
    assert q * n == s;
    assert (lo - q) * n <= 0.0;
  }

  /** Dividing by a positive count keeps an upper bound of n times hi. */
  lemma DivAtMost(s: real, n: real, hi: real)
    requires n > 0.0 && s <= n * hi
    ensures s / n <= hi
  {
    var q := s / n;
    assert q * n == s;
    assert (q - hi) * n <= 0.0;
  }

  /** The mean lies between any lower and upper bound of the values. */
  lemma MeanBetween(xs: seq<real>, lo: real, hi: real)
    requires |xs| > 0
    requires forall i :: 0 <= i < |xs| ==> lo <= xs[i] <= hi
    ensures lo <= Mean(xs) <= hi
  {
    SumBetween(xs, lo, hi);
    DivAtLeast(Sum(xs), |xs| as real, lo);
    DivAtMost(Sum(xs), |xs| as real, hi);
  }

  /** pandas `mean()` with its default `skipna`: NaN when nothing is left. */
  function MeanOrNaN(xs: seq<real>): (m: Option<real>)
    ensures m.Some? <==> |xs| > 0
  {
    if |xs| == 0 then None else Some(Mean(xs))
  }

  /** `dropna()` of a column: its numeric values in row order. */
  function Present(cells: seq<Cell>): (xs: seq<real>)
    ensures |xs| <= |cells|
  {
    if cells == [] then []
    else
      var rest := Present(cells[..|cells| - 1]);
      match NumOf(cells[|cells| - 1])
      case Some(v) => rest + [v]
      case None => rest
  }

  function ColumnOf(rows: seq<Row>, c: string): (cells: seq<Cell>)
    ensures |cells| == |rows|
    ensures forall i :: 0 <= i < |rows| ==> cells[i] == CellAt(rows[i], c)
  {
    seq(|rows|, i requires 0 <= i < |rows| => CellAt(rows[i], c))
  }

  /** `cols[:n]`: the first n names, or all of them when there are fewer. */
  function Take(cols: seq<string>, n: nat): (t: seq<string>)
    ensures |t| == (if |cols| < n then |cols| else n)
    ensures forall i :: 0 <= i < |t| ==> t[i] == cols[i]
    ensures forall c :: c in t ==> c in cols
  {
    if |cols| < n then cols else cols[..n]
  }

  /** `df[cols].sum(axis=1)` for one row: a missing value adds nothing. */
  function RowTotal(row: Row, cols: seq<string>): (t: real)
    ensures (forall k :: 0 <= k < |cols| ==> NumAt(row, cols[k]).None?) ==> t == 0.0
    ensures (forall k :: 0 <= k < |cols| && NumAt(row, cols[k]).Some? ==> NumAt(row, cols[k]).value >= 0.0) ==> t >= 0.0
  {
    if cols == [] then 0.0
    else
      (match NumAt(row, cols[0]) case Some(v) => v case None => 0.0)
      + RowTotal(row, cols[1..])
  }

  /** The row's present values in column order (the row after `dropna`). */
  function RowValues(row: Row, cols: seq<string>): (xs: seq<real>)
    ensures |xs| <= |cols|
  {
    if cols == [] then []
    else
      (match NumAt(row, cols[0]) case Some(v) => [v] case None => [])
      + RowValues(row, cols[1..])
  }

  /** Summing with missing values skipped is summing the present values. */
  lemma {:induction false} RowTotalIsSumOfPresent(row: Row, cols: seq<string>)
    ensures RowTotal(row, cols) == Sum(RowValues(row, cols))
  {
    if cols != [] {
      RowTotalIsSumOfPresent(row, cols[1..]);
      var head := match NumAt(row, cols[0]) case Some(v) => [v] case None => [];
      SumAppend(head, RowValues(row, cols[1..]));
    }
  }

  /** The total reads only the selected columns. */
  lemma {:induction false} RowTotalReadsOnly(r1: Row, r2: Row, cols: seq<string>)
    requires forall c :: c in cols ==> CellAt(r1, c) == CellAt(r2, c)
    ensures RowTotal(r1, cols) == RowTotal(r2, cols)
  {
    if cols != [] {
      RowTotalReadsOnly(r1, r2, cols[1..]);
    }
  }

  /** A row with every selected value missing totals 0, like a row of zeros. */
  lemma {:induction false} RowTotalAllMissing(row: Row, cols: seq<string>)
    requires forall c :: c in cols ==> NumAt(row, c).None?
    ensures RowTotal(row, cols) == 0.0
  {
    if cols != [] {
      RowTotalAllMissing(row, cols[1..]);
    }
  }

  /** The row 5, missing, 3 totals 8. */
  lemma RowTotalExample()
    ensures RowTotal(map["a" := Some(Num(5.0)), "b" := None, "c" := Some(Num(3.0))], ["a", "b", "c"]) == 8.0
  {
    var row := map["a" := Some(Num(5.0)), "b" := None, "c" := Some(Num(3.0))];
    assert NumAt(row, "a") == Some(5.0);
    assert NumAt(row, "b") == None;
    assert NumAt(row, "c") == Some(3.0);
    assert ["a", "b", "c"][1..] == ["b", "c"];
    assert ["b", "c"][1..] == ["c"];
    assert ["c"][1..] == [];
  }

  /** The derived `total_score` column. */
  function TotalColumn(rows: seq<Row>, cols: seq<string>): (cells: seq<Cell>)
    ensures |cells| == |rows|
    ensures forall i :: 0 <= i < |rows| ==> cells[i] == Some(Num(RowTotal(rows[i], cols)))
  {
    seq(|rows|, i requires 0 <= i < |rows| => Some(Num(RowTotal(rows[i], cols))))
  }

  /** Half-up rounding at `scale` (100 for two decimals). Python rounds the
      binary float instead; on exact reals the two differ only at ties. */
  function RoundAt(x: real, scale: real): (r: real)
    requires scale > 0.0
    ensures x * scale - 0.5 < r * scale <= x * scale + 0.5
  {
    var f := (x * scale + 0.5).Floor as real;
    assert f / scale * scale == f;
    f / scale
  }

  /** `round(x, 2)`: within half a hundredth of `x`. */
  function Round2(x: real): (r: real)
    ensures x - 0.005 < r <= x + 0.005
  {
    RoundAt(x, 100.0)
  }

  function Round5(x: real): real {
    RoundAt(x, 100000.0)
  }

  /** A share of a non-empty whole, as a percentage: within [0, 100], and
      exactly 100 for the whole. */
  lemma PercentBounds(c: nat, n: nat)
    requires 0 < n && c <= n
    ensures 0.0 <= (c as real / n as real) * 100.0 <= 100.0
    ensures c == n ==> (c as real / n as real) * 100.0 == 100.0
    ensures c == 0 ==> (c as real / n as real) * 100.0 == 0.0
  {
    var cr, nr := c as real, n as real;
    var q := cr / nr;
    assert q * nr == cr;
    assert q <= 1.0;
    if c == n {
      assert cr / nr == 1.0;
    }
  }

  /** Rounding keeps a percentage within [0, 100] and maps 0 and 100 to themselves. */
  lemma Round2Percent(x: real)
    requires 0.0 <= x <= 100.0
    ensures 0.0 <= Round2(x) <= 100.0
    ensures x == 0.0 ==> Round2(x) == 0.0
    ensures x == 100.0 ==> Round2(x) == 100.0
  {
    var y := x * 100.0 + 0.5;
    assert 0.5 <= y <= 10000.5;
    assert 0 <= y.Floor <= 10000;
  }

  /** A value rounds to something positive exactly when it is at least half
      a hundredth. */
  lemma Round2Positive(x: real)
    ensures Round2(x) > 0.0 <==> x >= 0.005
  {
    var y := x * 100.0 + 0.5;
    if x >= 0.005 {
      assert y >= 1.0;
      assert y.Floor >= 1;
    } else {
      assert y < 1.0;
      assert y.Floor <= 0;
    }
  }

  /** Shifting by a whole number commutes with rounding. */
  lemma Round2ShiftInt(x: real, n: int)
    ensures Round2(x - n as real) == Round2(x) - n as real
  {
    var y := x * 100.0 + 0.5;
    var z := (x - n as real) * 100.0 + 0.5;
    assert z == y - (100 * n) as real;
    var f := y.Floor;
    assert (f - 100 * n) as real <= z < (f - 100 * n) as real + 1.0;
    assert z.Floor == f - 100 * n;
  }

  // --------------------------------------------------------- distinct values

  predicate NoDuplicates<T(==)>(s: seq<T>) {
    forall i, j :: 0 <= i < j < |s| ==> s[i] != s[j]
  }

  /** `d` lists values in the order they first appear in `xs`: wherever a
      later value of `d` occurs in `xs`, every earlier one has occurred before. */
  predicate InFirstAppearanceOrder<T(==)>(d: seq<T>, xs: seq<T>) {
    forall i, j, k :: 0 <= i < j < |d| && 0 <= k < |xs| && xs[k] == d[j] ==> d[i] in xs[..k]
  }

  /** `Series.unique()`: each value once, in order of first appearance (on
      cells, all missing ones count as one value). */
  function Distinct<T(==,!new)>(xs: seq<T>): (d: seq<T>)
    ensures forall c :: c in d <==> c in xs
    ensures NoDuplicates(d)
    ensures InFirstAppearanceOrder(d, xs)
    ensures |d| <= |xs|
  {
    if xs == [] then []
    else
      var init := xs[..|xs| - 1];
      var d := Distinct(init);
      var last := xs[|xs| - 1];
      assert xs == init + [last];
      assert forall k :: 0 <= k < |init| ==> xs[..k] == init[..k];
      assert forall c :: c in xs[..|xs| - 1] <==> c in d;
      if last in d then d else d + [last]
  }

  /** A column holding a single value throughout has at most that one distinct value. */
  lemma {:induction false} DistinctOfConstant<T(!new)>(xs: seq<T>, x: T)
    requires forall i :: 0 <= i < |xs| ==> xs[i] == x
    ensures Distinct(xs) == (if xs == [] then [] else [x])
  {
    if xs != [] {
      DistinctOfConstant(xs[..|xs| - 1], x);
    }
  }

  // ------------------------------------------------------- derived columns

  /** `df[name] = values`: replaces the column if it exists, appends it otherwise. */
  function WithColumn(f: Frame, name: string, values: seq<Cell>): (g: Frame)
    requires |values| == |f.rows|
    ensures name in g.columns
    ensures forall c :: c in f.columns ==> c in g.columns
    ensures forall c :: c in g.columns ==> c in f.columns || c == name
    ensures |g.rows| == |f.rows|
    ensures forall i :: 0 <= i < |g.rows| ==> CellAt(g.rows[i], name) == values[i]
    ensures forall i, c :: 0 <= i < |g.rows| && c != name ==> CellAt(g.rows[i], c) == CellAt(f.rows[i], c)
  {
    Frame(if name in f.columns then f.columns else f.columns + [name],
          seq(|f.rows|, i requires 0 <= i < |f.rows| => f.rows[i][name := values[i]]))
  }

  /** A pandas DataFrame that a view copies and then extends in place. */
  class DataFrame {
    var columns: seq<string>
    var rows: seq<Row>

    function View(): Frame
      reads this
    {
      Frame(columns, rows)
    }

    /** `df.copy()`: a new object with the same contents. */
    constructor Copy(source: DataFrame)
      ensures View() == source.View()
    {
      columns := source.columns;
      rows := source.rows;
    }

    /** `df[name] = values` on this object. */
    method Assign(name: string, values: seq<Cell>)
      requires |values| == |rows|
      modifies this
      ensures View() == WithColumn(old(View()), name, values)
    {
      var g := WithColumn(View(), name, values);
      columns, rows := g.columns, g.rows;
    }
  }
}
