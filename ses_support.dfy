/** Socio-economic status and home support (analyse11.py): the row total of
    the existing scores on a copy of the table, and a Spearman correlation
    between `ses` and each of the first six existing scores. */
module SesSupport {
  import opened Wrappers
  import opened Frames
  import opened Catalogues
  import opened SignificanceTests

  /** `stats.spearmanr(xs, ys)`: (coefficient, p-value). */
  type CorrelationTest = (seq<real>, seq<real>) -> Outcome

  const Correlated := "Corrélation significative"
  const NotCorrelated := "Pas de corrélation significative"

  /** The columns the charts and the correlation matrix read. */
  const ContextColumns: seq<string> := ["ses", "home_support"]

  /** What the view computes: the analysis table (the copy with
      `total_score`) and the results table. */
  datatype SesReport = SesReport(analysis: Frame, results: seq<TestRow>)

  // ------------------------------------------------- the samples, as written

  /** `spearmanr(df["ses"].dropna(), df[col].dropna())`: each column loses
      its own missing values, and two lists of different lengths make the
      call fail. */
  function SamplesAsWritten(rows: seq<Row>, col: string): (r: Result<(seq<real>, seq<real>)>)
    ensures r.Ok? <==> |Present(ColumnOf(rows, "ses"))| == |Present(ColumnOf(rows, col))|
    ensures r.Ok? ==> r.value == (Present(ColumnOf(rows, "ses")), Present(ColumnOf(rows, col)))
    ensures r.Err? ==> r.failure == LengthMismatch
  {
    var xs, ys := Present(ColumnOf(rows, "ses")), Present(ColumnOf(rows, col));
    if |xs| == |ys| then Ok((xs, ys)) else Err(LengthMismatch)
  }

  // ------------------------------------------------- the samples, corrected

  /** The pairs a rank correlation is meant to see: `ses` and `col` of the
      same student, for the students who have both. */
  function PairedSamples(rows: seq<Row>, col: string): (p: (seq<real>, seq<real>))
    ensures |p.0| == |p.1| <= |rows|
    ensures forall i :: 0 <= i < |p.0| ==>
              exists k :: 0 <= k < |rows| && NumAt(rows[k], "ses") == Some(p.0[i]) && NumAt(rows[k], col) == Some(p.1[i])
  {
    if rows == [] then ([], [])
    else
      var init, last := rows[..|rows| - 1], rows[|rows| - 1];
      var rest := PairedSamples(init, col);
      if NumAt(last, "ses").Some? && NumAt(last, col).Some? then
        var p := (rest.0 + [NumAt(last, "ses").value], rest.1 + [NumAt(last, col).value]);
        assert forall i :: 0 <= i < |rest.0| ==> p.0[i] == rest.0[i] && p.1[i] == rest.1[i];
        assert forall k :: 0 <= k < |init| ==> init[k] == rows[k];
        p
      else
        assert forall k :: 0 <= k < |init| ==> init[k] == rows[k];
        rest
  }

  /** Every student with both values contributes exactly one pair, so the
      pair count is the number of such students. */
  function BothPresent(rows: seq<Row>, col: string): (n: nat)
    ensures n <= |rows|
  {
    if rows == [] then 0
    else
      var last := rows[|rows| - 1];
      BothPresent(rows[..|rows| - 1], col) + (if NumAt(last, "ses").Some? && NumAt(last, col).Some? then 1 else 0)
  }

  lemma {:induction false} PairedSamplesCount(rows: seq<Row>, col: string)
    ensures |PairedSamples(rows, col).0| == BothPresent(rows, col)
  {
    if rows != [] {
      PairedSamplesCount(rows[..|rows| - 1], col);
    }
  }

  /** Where no value is missing the two ways agree: the discrepancy is
      entirely in how missing values are dropped. */
  lemma {:induction false} SamplesAgreeWhenComplete(rows: seq<Row>, col: string)
    requires forall k :: 0 <= k < |rows| ==> NumAt(rows[k], "ses").Some? && NumAt(rows[k], col).Some?
    ensures SamplesAsWritten(rows, col) == Ok(PairedSamples(rows, col))
  {
    if rows != [] {
      var init, last := rows[..|rows| - 1], rows[|rows| - 1];
      SamplesAgreeWhenComplete(init, col);
      assert ColumnOf(rows, "ses") == ColumnOf(init, "ses") + [CellAt(last, "ses")];
      assert ColumnOf(rows, col) == ColumnOf(init, col) + [CellAt(last, col)];
      PresentAppend(ColumnOf(init, "ses"), CellAt(last, "ses"));
      PresentAppend(ColumnOf(init, col), CellAt(last, col));
    }
  }

  /** A student missing a score and another missing `ses`: as written the
      first student's `ses` is paired with the second student's score, a
      pair no student has; the paired samples keep the one real pair. */
  lemma MisalignedPairs()
    ensures var rows := [map["ses" := Some(Num(1.0)), "cwpm" := None],
                         map["ses" := None, "cwpm" := Some(Num(5.0))],
                         map["ses" := Some(Num(2.0)), "cwpm" := Some(Num(3.0))]];
            SamplesAsWritten(rows, "cwpm") == Ok(([1.0, 2.0], [5.0, 3.0]))
            && !(exists k :: 0 <= k < |rows| && NumAt(rows[k], "ses") == Some(1.0) && NumAt(rows[k], "cwpm") == Some(5.0))
            && PairedSamples(rows, "cwpm") == ([2.0], [3.0])
  {
    var rows := [map["ses" := Some(Num(1.0)), "cwpm" := None],
                 map["ses" := None, "cwpm" := Some(Num(5.0))],
                 map["ses" := Some(Num(2.0)), "cwpm" := Some(Num(3.0))]];
    assert NumAt(rows[0], "ses") == Some(1.0) && NumAt(rows[0], "cwpm") == None;
    assert NumAt(rows[1], "ses") == None && NumAt(rows[1], "cwpm") == Some(5.0);
    assert NumAt(rows[2], "ses") == Some(2.0) && NumAt(rows[2], "cwpm") == Some(3.0);
    assert rows[..2][..1] == rows[..1];
    assert rows[..1][..0] == [];
    var ses, cwpm := ColumnOf(rows, "ses"), ColumnOf(rows, "cwpm");
    assert ses[..2][..1] == ses[..1] && ses[..1][..0] == [];
    assert cwpm[..2][..1] == cwpm[..1] && cwpm[..1][..0] == [];
    assert Present(ses[..1]) == [1.0];
    assert Present(ses[..2]) == [1.0];
    assert Present(ses) == [1.0, 2.0];
    assert Present(cwpm[..1]) == [];
    assert Present(cwpm[..2]) == [5.0];
    assert Present(cwpm) == [5.0, 3.0];
    assert PairedSamples(rows[..1], "cwpm") == ([], []);
    assert PairedSamples(rows[..2], "cwpm") == ([], []);
    assert rows[..|rows| - 1] == rows[..2];
    var none: seq<real> := [];
    assert none + [2.0] == [2.0] && none + [3.0] == [3.0];
  }

  /** A student with `ses` but no score: as written the two lists differ in
      length, the call fails and the whole view shows an error; the paired
      samples keep the one complete student. */
  lemma LengthMismatchFails()
    ensures var rows := [map["ses" := Some(Num(1.0)), "cwpm" := None],
                         map["ses" := Some(Num(2.0)), "cwpm" := Some(Num(3.0))]];
            SamplesAsWritten(rows, "cwpm") == Err(LengthMismatch)
            && PairedSamples(rows, "cwpm") == ([2.0], [3.0])
  {
    var rows := [map["ses" := Some(Num(1.0)), "cwpm" := None],
                 map["ses" := Some(Num(2.0)), "cwpm" := Some(Num(3.0))]];
    assert NumAt(rows[0], "ses") == Some(1.0) && NumAt(rows[0], "cwpm") == None;
    assert NumAt(rows[1], "ses") == Some(2.0) && NumAt(rows[1], "cwpm") == Some(3.0);
    assert rows[..1][..0] == [];
    var ses, cwpm := ColumnOf(rows, "ses"), ColumnOf(rows, "cwpm");
    assert ses[..1][..0] == [] && cwpm[..1][..0] == [];
    assert Present(ses[..1]) == [1.0];
    assert Present(ses) == [1.0, 2.0];
    assert Present(cwpm[..1]) == [];
    assert Present(cwpm) == [3.0];
    assert PairedSamples(rows[..1], "cwpm") == ([], []);
    var none: seq<real> := [];
    assert none + [2.0] == [2.0] && none + [3.0] == [3.0];
  }

  // ---------------------------------------------------------- the result loop

  /** One row per tested column, never skipped, labelled from the catalogue. */
  function SpearmanResults(rows: seq<Row>, cols: seq<string>, test: CorrelationTest): (results: seq<TestRow>)
    requires forall c :: c in cols ==> c in Keys(AllScores)
    ensures |results| == |cols|
    ensures forall i :: 0 <= i < |cols| ==>
              results[i] == MakeRow(LabelOf(AllScores, cols[i]), test(PairedSamples(rows, cols[i]).0, PairedSamples(rows, cols[i]).1),
                                    Correlated, NotCorrelated)
  {
    if cols == [] then []
    else
      var c := cols[|cols| - 1];
      var p := PairedSamples(rows, c);
      SpearmanResults(rows, cols[..|cols| - 1], test) + [MakeRow(LabelOf(AllScores, c), test(p.0, p.1), Correlated, NotCorrelated)]
  }

  /** The loop `for col in existing_scores[:6]: ... results_data.append(...)`. */
  method RunSpearmanTests(rows: seq<Row>, cols: seq<string>, test: CorrelationTest) returns (results: seq<TestRow>)
    requires forall c :: c in cols ==> c in Keys(AllScores)
    ensures results == SpearmanResults(rows, cols, test)
  {
    results := [];
    var i := 0;
    while i < |cols|
      invariant 0 <= i <= |cols|
      invariant results == SpearmanResults(rows, cols[..i], test)
    {
      var p := PairedSamples(rows, cols[i]);
      results := results + [MakeRow(LabelOf(AllScores, cols[i]), test(p.0, p.1), Correlated, NotCorrelated)];
      assert cols[..i + 1][..i] == cols[..i];
      i := i + 1;
    }
    assert cols[..|cols|] == cols;
  }

  /** Every row says "Corrélation significative" exactly when p < 0.05. */
  lemma SpearmanLabels(rows: seq<Row>, cols: seq<string>, test: CorrelationTest)
    requires forall c :: c in cols ==> c in Keys(AllScores)
    ensures var results := SpearmanResults(rows, cols, test);
            forall i :: 0 <= i < |results| ==> (results[i].interpretation == Correlated <==> BelowThreshold(results[i].p))
  {
  }

  // ---------------------------------------------------------------- the view

  /** The analysis table: the caller's table plus `total_score`, the row sum
      over every existing score. */
  function AnalysisFrame(f: Frame): (g: Frame)
    ensures forall c :: c in g.columns <==> c in f.columns || c == "total_score"
    ensures |g.rows| == |f.rows|
    ensures forall i :: 0 <= i < |f.rows| ==>
              CellAt(g.rows[i], "total_score") == Some(Num(RowTotal(f.rows[i], PresentColumns(f.columns, Keys(AllScores)))))
    ensures forall i, c :: 0 <= i < |f.rows| && c != "total_score" ==> CellAt(g.rows[i], c) == CellAt(f.rows[i], c)
  {
    WithColumn(f, "total_score", TotalColumn(f.rows, PresentColumns(f.columns, Keys(AllScores))))
  }

  /** `show_ses_home_support`: everything sits in one try block, so an
      absent `ses` or `home_support` is shown as an error; no score column
      at all still yields a (zero) total and an empty results table. */
  function SesHomeSupport(f: Frame, test: CorrelationTest): (r: Result<SesReport>)
    ensures r.Ok? <==> "ses" in f.columns && "home_support" in f.columns
    ensures r.Err? ==> r.failure.MissingColumn?
    ensures r.Ok? ==> var existing := PresentColumns(f.columns, Keys(AllScores));
                      r.value.analysis == AnalysisFrame(f)
                      && r.value.results == SpearmanResults(r.value.analysis.rows, Take(existing, 6), test)
  {
    var six := Take(PresentColumns(f.columns, Keys(AllScores)), 6);
    var g := AnalysisFrame(f);
    assert (forall c :: c in ContextColumns ==> c in g.columns) <==> "ses" in f.columns && "home_support" in f.columns by {
      assert "ses" in g.columns <==> "ses" in f.columns;
      assert "home_support" in g.columns <==> "home_support" in f.columns;
    }
    match Require(g, ContextColumns)
    case Err(e) => Err(e)
    case Ok(_) => Ok(SesReport(g, SpearmanResults(g.rows, six, test)))
  }

  /** The view on the caller's table: the copy gains `total_score`, the
      caller's table is left as it was. */
  method ShowSesHomeSupport(df: DataFrame, test: CorrelationTest) returns (r: Result<SesReport>)
    ensures r == SesHomeSupport(df.View(), test)
    ensures df.View() == old(df.View())
  {
    var analysis := new DataFrame.Copy(df);
    var existing := PresentColumns(analysis.columns, Keys(AllScores));
    analysis.Assign("total_score", TotalColumn(analysis.rows, existing));
    var g := analysis.View();
    var present := Require(g, ContextColumns);
    if present.Err? {
      return Err(present.failure);
    }
    var results := RunSpearmanTests(g.rows, Take(existing, 6), test);
    r := Ok(SesReport(g, results));
  }

  /** The tested columns are the first six existing scores, not the first
      six catalogue keys: an absent key lets a later score in. */
  lemma TestsFirstSixExisting(f: Frame, test: CorrelationTest)
    requires SesHomeSupport(f, test).Ok?
    ensures var existing := PresentColumns(f.columns, Keys(AllScores));
            var results := SesHomeSupport(f, test).value.results;
            |results| == (if |existing| < 6 then |existing| else 6)
            && forall i :: 0 <= i < |results| ==> existing[i] in f.columns && results[i].variable == LabelOf(AllScores, existing[i])
  {
    var existing := PresentColumns(f.columns, Keys(AllScores));
    var six := Take(existing, 6);
    var results := SesHomeSupport(f, test).value.results;
    assert results == SpearmanResults(AnalysisFrame(f).rows, six, test);
    forall i | 0 <= i < |results|
      ensures existing[i] in f.columns && results[i].variable == LabelOf(AllScores, existing[i])
    {
      assert six[i] == existing[i] && existing[i] in existing;
    }
  }
}
