/** What the four test views share: the samples a group filter selects, the
    result row a test outcome becomes, the fixed 5 % label rule, and the
    result loop of the two-group (Mann-Whitney) views 10 and 13. The tests
    themselves are parameters: a function from samples to (statistic, p). */
module SignificanceTests {
  import opened Wrappers
  import opened Frames
  import opened Catalogues

  /** (statistic, p-value) as scipy returns them; `None` is a NaN. */
  type Outcome = (Option<real>, Option<real>)

  /** `mannwhitneyu(xs, ys, alternative='two-sided')`. */
  type TwoSampleTest = (seq<real>, seq<real>) -> Outcome

  const Significant := "Différence significative"
  const NotSignificant := "Pas de différence significative"

  /** One row of a results table; the view prints the statistic to 3 and the
      p-value to 5 decimals. */
  datatype TestRow = TestRow(variable: string, statistic: Option<real>, p: Option<real>, interpretation: string)

  /** `p < 0.05`, strict; a NaN p-value fails the comparison. */
  predicate BelowThreshold(p: Option<real>) {
    p.Some? && p.value < 0.05
  }

  /** The result row for one tested column, with the view's two labels. */
  function MakeRow(variable: string, outcome: Outcome, yes: string, no: string): (row: TestRow)
    ensures row.variable == variable && row.statistic == outcome.0 && row.p == outcome.1
    ensures yes != no ==> (row.interpretation == yes <==> BelowThreshold(outcome.1))
    ensures row.interpretation in {yes, no}
  {
    TestRow(variable, outcome.0, outcome.1, if BelowThreshold(outcome.1) then yes else no)
  }

  // ---------------------------------------------------------------- samples

  /** The row's value in `col`, as a sample contribution: nothing when missing. */
  function ValueIn(row: Row, col: string): seq<real> {
    match NumAt(row, col)
    case Some(v) => [v]
    case None => []
  }

  /** `df[df[groupCol] == group][col].dropna()`. */
  function Sample(rows: seq<Row>, groupCol: string, group: string, col: string): (xs: seq<real>)
    ensures |xs| <= |rows|
  {
    if rows == [] then []
    else
      var last := rows[|rows| - 1];
      Sample(rows[..|rows| - 1], groupCol, group, col)
      + (if IsText(last, groupCol, group) then ValueIn(last, col) else [])
  }

  lemma {:induction false} PresentAppend(cells: seq<Cell>, cell: Cell)
    ensures Present(cells + [cell]) == Present(cells) + (match NumOf(cell) case Some(v) => [v] case None => [])
  {
    assert (cells + [cell])[..|cells|] == cells;
  }

  /** The sample is the non-missing values of `col` among the selected rows:
      the filter-then-dropna of the source. */
  lemma {:induction false} SampleIsDropnaOfSelection(rows: seq<Row>, groupCol: string, group: string, col: string)
    ensures Sample(rows, groupCol, group, col) == Present(ColumnOf(RowsWhere(rows, groupCol, group), col))
  {
    if rows != [] {
      var init, last := rows[..|rows| - 1], rows[|rows| - 1];
      SampleIsDropnaOfSelection(init, groupCol, group, col);
      var sel := RowsWhere(init, groupCol, group);
      if IsText(last, groupCol, group) {
        assert RowsWhere(rows, groupCol, group) == sel + [last];
        assert ColumnOf(sel + [last], col) == ColumnOf(sel, col) + [CellAt(last, col)];
        PresentAppend(ColumnOf(sel, col), CellAt(last, col));
      } else {
        assert RowsWhere(rows, groupCol, group) == sel;
      }
    }
  }

  /** A row outside the group adds nothing to its sample. */
  lemma SampleIgnoresOtherRows(rows: seq<Row>, r: Row, groupCol: string, group: string, col: string)
    requires !IsText(r, groupCol, group)
    ensures Sample(rows + [r], groupCol, group, col) == Sample(rows, groupCol, group, col)
  {
    assert (rows + [r])[..|rows|] == rows;
  }

  // ---------------------------------------------------------- the result loop

  /** The columns that get a result row: both samples non-empty. */
  function TestedColumns(rows: seq<Row>, groupCol: string, a: string, b: string, cols: seq<string>): (tested: seq<string>)
    ensures |tested| <= |cols|
    ensures forall c :: c in tested <==>
              c in cols && |Sample(rows, groupCol, a, c)| > 0 && |Sample(rows, groupCol, b, c)| > 0
  {
    if cols == [] then []
    else
      var c := cols[|cols| - 1];
      var prefix := TestedColumns(rows, groupCol, a, b, cols[..|cols| - 1]);
      assert cols == cols[..|cols| - 1] + [c];
      if |Sample(rows, groupCol, a, c)| > 0 && |Sample(rows, groupCol, b, c)| > 0 then prefix + [c] else prefix
  }

  /** The results table of views 10 and 13: one row per tested column, in
      column order, labelled from the catalogue. */
  function TwoGroupResults(rows: seq<Row>, groupCol: string, a: string, b: string,
                           cols: seq<string>, cat: Catalogue, test: TwoSampleTest): (results: seq<TestRow>)
    requires forall c :: c in cols ==> c in Keys(cat)
    ensures |results| == |TestedColumns(rows, groupCol, a, b, cols)|
    ensures forall i :: 0 <= i < |results| ==>
              var c := TestedColumns(rows, groupCol, a, b, cols)[i];
              c in Keys(cat) &&
              results[i] == MakeRow(LabelOf(cat, c), test(Sample(rows, groupCol, a, c), Sample(rows, groupCol, b, c)),
                                    Significant, NotSignificant)
  {
    if cols == [] then []
    else
      var c := cols[|cols| - 1];
      var prefix := TwoGroupResults(rows, groupCol, a, b, cols[..|cols| - 1], cat, test);
      var xs, ys := Sample(rows, groupCol, a, c), Sample(rows, groupCol, b, c);
      if |xs| > 0 && |ys| > 0 then prefix + [MakeRow(LabelOf(cat, c), test(xs, ys), Significant, NotSignificant)]
      else prefix
  }

  /** The loop `for col in cols: ... if len(xs) > 0 and len(ys) > 0: results_data.append(...)`. */
  method RunTwoGroupTests(rows: seq<Row>, groupCol: string, a: string, b: string,
                          cols: seq<string>, cat: Catalogue, test: TwoSampleTest) returns (results: seq<TestRow>)
    requires forall c :: c in cols ==> c in Keys(cat)
    ensures results == TwoGroupResults(rows, groupCol, a, b, cols, cat, test)
  {
    results := [];
    var i := 0;
    while i < |cols|
      invariant 0 <= i <= |cols|
      invariant results == TwoGroupResults(rows, groupCol, a, b, cols[..i], cat, test)
    {
      var col := cols[i];
      var xs := Sample(rows, groupCol, a, col);
      var ys := Sample(rows, groupCol, b, col);
      if |xs| > 0 && |ys| > 0 {
        results := results + [MakeRow(LabelOf(cat, col), test(xs, ys), Significant, NotSignificant)];
      }
      assert cols[..i + 1][..i] == cols[..i];
      i := i + 1;
    }
    assert cols[..|cols|] == cols;
  }

  /** Every row is labelled significant exactly when its p-value is below 0.05. */
  lemma TwoGroupLabels(rows: seq<Row>, groupCol: string, a: string, b: string,
                       cols: seq<string>, cat: Catalogue, test: TwoSampleTest)
    requires forall c :: c in cols ==> c in Keys(cat)
    ensures var results := TwoGroupResults(rows, groupCol, a, b, cols, cat, test);
            forall i :: 0 <= i < |results| ==> (results[i].interpretation == Significant <==> BelowThreshold(results[i].p))
  {
  }

  /** A row in neither group changes no result: neither sample sees it. */
  lemma {:induction false} TwoGroupIgnoresOtherRows(rows: seq<Row>, r: Row, groupCol: string, a: string, b: string,
                                                    cols: seq<string>, cat: Catalogue, test: TwoSampleTest)
    requires forall c :: c in cols ==> c in Keys(cat)
    requires !IsText(r, groupCol, a) && !IsText(r, groupCol, b)
    ensures TwoGroupResults(rows + [r], groupCol, a, b, cols, cat, test) == TwoGroupResults(rows, groupCol, a, b, cols, cat, test)
  {
    if cols != [] {
      var c := cols[|cols| - 1];
      TwoGroupIgnoresOtherRows(rows, r, groupCol, a, b, cols[..|cols| - 1], cat, test);
      SampleIgnoresOtherRows(rows, r, groupCol, a, c);
      SampleIgnoresOtherRows(rows, r, groupCol, b, c);
    }
  }
}
