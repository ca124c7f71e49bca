/** Classroom practices (analyse9.py): the catalogue scores the table has,
    and a Kruskal-Wallis test across teaching methods on the first six of
    them. */
module ClassroomPractices {
  import opened Wrappers
  import opened Frames
  import opened Catalogues
  import opened SignificanceTests

  /** `stats.kruskal(*groups)`. */
  type ManySampleTest = seq<seq<real>> -> Outcome

  /** The columns the charts before the tests plot against. */
  const ChartColumns: seq<string> := ["teacher_experience", "teacher_training", "teaching_method", "cwpm", "use_of_materials"]

  /** `df[df["teaching_method"] == method][col].dropna()`; a missing method
      equals no cell, so its group is empty. */
  function MethodGroup(rows: seq<Row>, teaching: Cell, col: string): (xs: seq<real>)
    ensures |xs| <= |rows|
  {
    if rows == [] then []
    else
      var last := rows[|rows| - 1];
      MethodGroup(rows[..|rows| - 1], teaching, col)
      + (if teaching.Some? && CellAt(last, "teaching_method") == teaching then ValueIn(last, col) else [])
  }

  /** One group per value of `df["teaching_method"].unique()`, in order of
      first appearance. */
  function Groups(rows: seq<Row>, col: string): (groups: seq<seq<real>>)
    ensures var methods := Distinct(ColumnOf(rows, "teaching_method"));
            |groups| == |methods| &&
            forall j :: 0 <= j < |methods| ==> groups[j] == MethodGroup(rows, methods[j], col)
  {
    var methods := Distinct(ColumnOf(rows, "teaching_method"));
    seq(|methods|, j requires 0 <= j < |methods| => MethodGroup(rows, methods[j], col))
  }

  /** The results table: one row per tested column, never skipped. */
  function KruskalResults(rows: seq<Row>, cols: seq<string>, test: ManySampleTest): (results: seq<TestRow>)
    requires forall c :: c in cols ==> c in Keys(PracticeScores)
    ensures |results| == |cols|
    ensures forall i :: 0 <= i < |cols| ==>
              results[i] == MakeRow(LabelOf(PracticeScores, cols[i]), test(Groups(rows, cols[i])), Significant, NotSignificant)
  {
    if cols == [] then []
    else
      var c := cols[|cols| - 1];
      KruskalResults(rows, cols[..|cols| - 1], test)
      + [MakeRow(LabelOf(PracticeScores, c), test(Groups(rows, c)), Significant, NotSignificant)]
  }

  /** The loop `for col in existing_scores[:6]: ... results_data.append(...)`. */
  method RunKruskalTests(rows: seq<Row>, cols: seq<string>, test: ManySampleTest) returns (results: seq<TestRow>)
    requires forall c :: c in cols ==> c in Keys(PracticeScores)
    ensures results == KruskalResults(rows, cols, test)
  {
    results := [];
    var i := 0;
    while i < |cols|
      invariant 0 <= i <= |cols|
      invariant results == KruskalResults(rows, cols[..i], test)
    {
      var groups := Groups(rows, cols[i]);
      results := results + [MakeRow(LabelOf(PracticeScores, cols[i]), test(groups), Significant, NotSignificant)];
      assert cols[..i + 1][..i] == cols[..i];
      i := i + 1;
    }
    assert cols[..|cols|] == cols;
  }

  /** `show_classroom_practices`: no catalogue score gives the warning and
      nothing else; otherwise the charts need their columns (the view has no
      handler, so an absent one is an uncaught KeyError), then the tests run
      on the first six existing scores. `kruskal` refuses fewer than two
      groups, so a single teaching method (or none) ends the view at the
      first test. */
  function ClassroomPractices(f: Frame, test: ManySampleTest): (r: Result<seq<TestRow>>)
    ensures var existing := PresentColumns(f.columns, Keys(PracticeScores));
            var charts := forall c :: c in ChartColumns ==> c in f.columns;
            var methods := Distinct(ColumnOf(f.rows, "teaching_method"));
            (r == Err(NoScoreColumns) <==> existing == [])
            && (r == Err(TooFewGroups) <==> existing != [] && charts && |methods| < 2)
            && (r.Ok? <==> existing != [] && charts && |methods| >= 2)
            && (r.Ok? ==> r.value == KruskalResults(f.rows, Take(existing, 6), test))
  {
    var existing := PresentColumns(f.columns, Keys(PracticeScores));
    if existing == [] then Err(NoScoreColumns)
    else
      match Require(f, ChartColumns)
      case Err(e) => Err(e)
      case Ok(_) =>
        if |Distinct(ColumnOf(f.rows, "teaching_method"))| < 2 then Err(TooFewGroups)
        else Ok(KruskalResults(f.rows, Take(existing, 6), test))
  }

  method ShowClassroomPractices(f: Frame, test: ManySampleTest) returns (r: Result<seq<TestRow>>)
    ensures r == ClassroomPractices(f, test)
  {
    var existing := PresentColumns(f.columns, Keys(PracticeScores));
    if existing == [] {
      return Err(NoScoreColumns);
    }
    var present := Require(f, ChartColumns);
    if present.Err? {
      return Err(present.failure);
    }
    if |Distinct(ColumnOf(f.rows, "teaching_method"))| < 2 {
      return Err(TooFewGroups);
    }
    var results := RunKruskalTests(f.rows, Take(existing, 6), test);
    r := Ok(results);
  }

  // ---------------------------------------------------------------- groups

  /** A missing teaching method yields an empty group. */
  lemma {:induction false} MissingMethodGroupEmpty(rows: seq<Row>, col: string)
    ensures MethodGroup(rows, None, col) == []
  {
    if rows != [] {
      MissingMethodGroupEmpty(rows[..|rows| - 1], col);
    }
  }

  /** A student adds their score to the group of their own method and to no
      other group. */
  lemma MethodGroupAppend(rows: seq<Row>, r: Row, teaching: Cell, col: string)
    ensures MethodGroup(rows + [r], teaching, col)
            == MethodGroup(rows, teaching, col)
               + (if teaching.Some? && CellAt(r, "teaching_method") == teaching then ValueIn(r, col) else [])
  {
    assert (rows + [r])[..|rows|] == rows;
  }

  /** A student with a recorded method belongs to exactly one group. */
  lemma ExactlyOneGroup(rows: seq<Row>, i: nat)
    requires i < |rows| && CellAt(rows[i], "teaching_method").Some?
    ensures var methods := Distinct(ColumnOf(rows, "teaching_method"));
            exists j :: 0 <= j < |methods| && methods[j] == CellAt(rows[i], "teaching_method")
    ensures var methods := Distinct(ColumnOf(rows, "teaching_method"));
            forall j, l :: (0 <= j < |methods| && 0 <= l < |methods|
                            && methods[j] == CellAt(rows[i], "teaching_method")
                            && methods[l] == CellAt(rows[i], "teaching_method")) ==> j == l
  {
    var cells := ColumnOf(rows, "teaching_method");
    assert cells[i] == CellAt(rows[i], "teaching_method");
    assert cells[i] in Distinct(cells);
  }

  /** The catalogue of this view lists "quantity" where the others have
      "discrimin": "discrimin" is never tested here, even when present. */
  lemma DiscriminNeverTested(f: Frame, test: ManySampleTest)
    requires ClassroomPractices(f, test).Ok?
    ensures var existing := PresentColumns(f.columns, Keys(PracticeScores));
            forall c :: c in Take(existing, 6) ==> c != "discrimin"
  {
    CatalogueShapes();
  }

  /** A table where every student has the same teaching method (or none at
      all) gives `kruskal` a single group, so the view fails. */
  lemma SingleMethodTooFewGroups(f: Frame, method_: Cell, test: ManySampleTest)
    requires forall i :: 0 <= i < |f.rows| ==> CellAt(f.rows[i], "teaching_method") == method_
    requires PresentColumns(f.columns, Keys(PracticeScores)) != []
    requires forall c :: c in ChartColumns ==> c in f.columns
    ensures ClassroomPractices(f, test) == Err(TooFewGroups)
  {
    DistinctOfConstant(ColumnOf(f.rows, "teaching_method"), method_);
  }
}
