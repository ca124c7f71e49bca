/** Performance by school (analyse7.py): per-school means of the selected
    scores, a row total on a copy of the table, two cut points taken from
    the per-school mean totals, a three-tier level for every student, and
    the tier counts of each school. The quantile itself is an input. */
module SchoolPerformance {
  import opened Wrappers
  import opened Frames
  import opened Catalogues

  const Mastery := "Maîtrise"
  const Developing := "Développement"
  const Emerging := "Émergent"

  /** The two cut points; `None` is a NaN quantile (no school at all). */
  datatype Quantiles = Quantiles(q50: Option<real>, q75: Option<real>)

  /** `Series.quantile(q)` over the per-school mean totals. */
  type QuantileFn = (seq<real>, real) -> Option<real>

  /** `score >= q` with a NaN cut point failing the comparison. */
  predicate AtLeast(score: real, q: Option<real>) {
    q.Some? && score >= q.value
  }

  /** `performance_level`: the 0.75 cut point first, then the 0.50 one. */
  function PerformanceLevel(score: real, cuts: Quantiles): (level: string)
    ensures level == Mastery <==> AtLeast(score, cuts.q75)
    ensures level == Developing <==> !AtLeast(score, cuts.q75) && AtLeast(score, cuts.q50)
    ensures level == Emerging <==> !AtLeast(score, cuts.q75) && !AtLeast(score, cuts.q50)
  {
    if AtLeast(score, cuts.q75) then Mastery
    else if AtLeast(score, cuts.q50) then Developing
    else Emerging
  }

  function LevelRank(level: string): nat {
    if level == Mastery then 2 else if level == Developing then 1 else 0
  }

  /** With ordered cut points a higher total never gets a lower tier. */
  lemma PerformanceLevelMonotone(s: real, t: real, cuts: Quantiles)
    requires cuts.q50.Some? && cuts.q75.Some? && cuts.q50.value <= cuts.q75.value
    requires s <= t
    ensures LevelRank(PerformanceLevel(s, cuts)) <= LevelRank(PerformanceLevel(t, cuts))
  {
  }

  /** With ordered cut points, the three tiers are the three intervals. */
  lemma PerformanceLevelIntervals(s: real, cuts: Quantiles)
    requires cuts.q50.Some? && cuts.q75.Some? && cuts.q50.value <= cuts.q75.value
    ensures PerformanceLevel(s, cuts) == Mastery <==> s >= cuts.q75.value
    ensures PerformanceLevel(s, cuts) == Developing <==> cuts.q50.value <= s < cuts.q75.value
    ensures PerformanceLevel(s, cuts) == Emerging <==> s < cuts.q50.value
  {
  }

  // ---------------------------------------------------------------- schools

  /** The rows of one school: `groupby("school")` puts a row with no school
      in no group. */
  function SchoolRows(rows: seq<Row>, school: Cell): (sel: seq<Row>)
    ensures |sel| <= |rows|
    ensures forall r :: r in sel <==> r in rows && school.Some? && CellAt(r, "school") == school
  {
    if rows == [] then []
    else
      var init, last := rows[..|rows| - 1], rows[|rows| - 1];
      assert rows == init + [last];
      SchoolRows(init, school) + (if school.Some? && CellAt(last, "school") == school then [last] else [])
  }

  /** The group keys: each recorded school once. */
  function Schools(rows: seq<Row>): (schools: seq<Cell>)
    ensures forall s :: s in schools <==> s.Some? && s in ColumnOf(rows, "school")
    ensures NoDuplicates(schools)
  {
    var d := Distinct(ColumnOf(rows, "school"));
    RemoveMissing(d)
  }

  function RemoveMissing(cells: seq<Cell>): (out: seq<Cell>)
    requires NoDuplicates(cells)
    ensures forall s :: s in out <==> s in cells && s.Some?
    ensures NoDuplicates(out)
  {
    if cells == [] then []
    else
      var init, last := cells[..|cells| - 1], cells[|cells| - 1];
      assert cells == init + [last];
      var rest := RemoveMissing(init);
      if last.Some? then rest + [last] else rest
  }

  /** A school that is a group key has at least one row. */
  lemma SchoolRowsNonEmpty(rows: seq<Row>, school: Cell)
    requires school in Schools(rows)
    ensures |SchoolRows(rows, school)| > 0
  {
    var cells := ColumnOf(rows, "school");
    var k :| 0 <= k < |cells| && cells[k] == school;
    assert rows[k] in SchoolRows(rows, school);
  }

  /** The totals of a school's students. */
  function Totals(rows: seq<Row>, cols: seq<string>): (ts: seq<real>)
    ensures |ts| == |rows|
    ensures forall i :: 0 <= i < |rows| ==> ts[i] == RowTotal(rows[i], cols)
  {
    seq(|rows|, i requires 0 <= i < |rows| => RowTotal(rows[i], cols))
  }

  /** `groupby("school")["total_score"].mean()`, one value per school. */
  function MeanTotals(rows: seq<Row>, cols: seq<string>): (means: seq<real>)
    ensures var schools := Schools(rows);
            |means| == |schools|
            && forall k :: 0 <= k < |schools| ==>
                 |SchoolRows(rows, schools[k])| > 0 && means[k] == Mean(Totals(SchoolRows(rows, schools[k]), cols))
  {
    var schools := Schools(rows);
    seq(|schools|, k requires 0 <= k < |schools| =>
          SchoolRowsNonEmpty(rows, schools[k]);
          Mean(Totals(SchoolRows(rows, schools[k]), cols)))
  }

  /** `groupby("school")[selected].mean().round(2)` for one school. */
  function SchoolMeans(rows: seq<Row>, school: Cell, cols: seq<string>): (means: seq<Option<real>>)
    ensures |means| == |cols|
    ensures forall c :: 0 <= c < |cols| ==>
              (means[c].Some? <==> Present(ColumnOf(SchoolRows(rows, school), cols[c])) != [])
    ensures forall c :: 0 <= c < |cols| && means[c].Some? ==>
              means[c].value == Round2(Mean(Present(ColumnOf(SchoolRows(rows, school), cols[c]))))
  {
    var sel := SchoolRows(rows, school);
    seq(|cols|, c requires 0 <= c < |cols| =>
          match MeanOrNaN(Present(ColumnOf(sel, cols[c])))
          case None => None
          case Some(m) => Some(Round2(m)))
  }

  // ----------------------------------------------------------- tier counts

  function CountLevel(levels: seq<string>, level: string): (n: nat)
    ensures n <= |levels|
  {
    if levels == [] then 0
    else CountLevel(levels[..|levels| - 1], level) + (if levels[|levels| - 1] == level then 1 else 0)
  }

  /** The three counts cover every level that is one of the three tiers. */
  lemma {:induction false} CountsPartition(levels: seq<string>)
    requires forall i :: 0 <= i < |levels| ==> levels[i] in {Mastery, Developing, Emerging}
    ensures CountLevel(levels, Mastery) + CountLevel(levels, Developing) + CountLevel(levels, Emerging) == |levels|
  {
    if levels != [] {
      var init := levels[..|levels| - 1];
      assert forall i :: 0 <= i < |init| ==> init[i] == levels[i];
      CountsPartition(init);
    }
  }

  /** The levels of some students. */
  function Levels(rows: seq<Row>, cols: seq<string>, cuts: Quantiles): (levels: seq<string>)
    ensures |levels| == |rows|
    ensures forall i :: 0 <= i < |rows| ==> levels[i] == PerformanceLevel(RowTotal(rows[i], cols), cuts)
  {
    seq(|rows|, i requires 0 <= i < |rows| => PerformanceLevel(RowTotal(rows[i], cols), cuts))
  }

  /** One line of `groupby(["school", "performance_level"]).size().unstack(fill_value=0)`. */
  datatype TierCount = TierCount(school: Cell, mastery: nat, developing: nat, emerging: nat)

  function SchoolTiers(rows: seq<Row>, school: Cell, cols: seq<string>, cuts: Quantiles): (t: TierCount)
    ensures t.school == school
    ensures t.mastery + t.developing + t.emerging == |SchoolRows(rows, school)|
  {
    var levels := Levels(SchoolRows(rows, school), cols, cuts);
    CountsPartition(levels);
    TierCount(school, CountLevel(levels, Mastery), CountLevel(levels, Developing), CountLevel(levels, Emerging))
  }

  // ---------------------------------------------------------------- the view

  datatype SchoolReport = SchoolReport(means: seq<seq<Option<real>>>, analysis: Frame, cuts: Quantiles, tiers: seq<TierCount>)

  /** The level column of the analysis table: every student against the
      same two cut points, whatever their school. */
  function LevelColumn(rows: seq<Row>, cols: seq<string>, cuts: Quantiles): (cells: seq<Cell>)
    ensures |cells| == |rows|
    ensures forall i :: 0 <= i < |rows| ==> cells[i] == Some(Text(PerformanceLevel(RowTotal(rows[i], cols), cuts)))
  {
    seq(|rows|, i requires 0 <= i < |rows| => Some(Text(PerformanceLevel(RowTotal(rows[i], cols), cuts))))
  }

  function CutPoints(rows: seq<Row>, cols: seq<string>, quantile: QuantileFn): Quantiles {
    var means := MeanTotals(rows, cols);
    Quantiles(quantile(means, 0.5), quantile(means, 0.75))
  }

  /** The copy with both derived columns. */
  function AnalysisFrame(f: Frame, cols: seq<string>, cuts: Quantiles): (g: Frame)
    ensures forall c :: c in g.columns <==> c in f.columns || c == "total_score" || c == "performance_level"
    ensures |g.rows| == |f.rows|
    ensures forall i :: 0 <= i < |f.rows| ==>
              CellAt(g.rows[i], "total_score") == Some(Num(RowTotal(f.rows[i], cols)))
              && CellAt(g.rows[i], "performance_level") == Some(Text(PerformanceLevel(RowTotal(f.rows[i], cols), cuts)))
    ensures forall i, c :: 0 <= i < |f.rows| && c != "total_score" && c != "performance_level" ==>
              CellAt(g.rows[i], c) == CellAt(f.rows[i], c)
  {
    var g1 := WithColumn(f, "total_score", TotalColumn(f.rows, cols));
    WithColumn(g1, "performance_level", LevelColumn(f.rows, cols, cuts))
  }

  /** `show_performance_school`: an empty selection gives the warning, an
      absent school or score column the error; otherwise the means, the
      analysis table, the cut points and the tier counts. */
  function PerformanceSchool(f: Frame, left: seq<string>, right: seq<string>, quantile: QuantileFn): (r: Result<SchoolReport>)
    requires forall c :: c in left ==> c in SplitOptions(Keys(AllScores)).0
    requires forall c :: c in right ==> c in SplitOptions(Keys(AllScores)).1
    ensures r == Err(NoSelection) <==> left + right == []
    ensures r.Ok? <==> left + right != [] && "school" in f.columns && forall c :: c in left + right ==> c in f.columns
    ensures r.Err? && left + right != [] ==> r.failure.MissingColumn?
    ensures r.Ok? ==> var selected := left + right;
                      var schools := Schools(f.rows);
                      r.value.cuts == CutPoints(f.rows, selected, quantile)
                      && r.value.analysis == AnalysisFrame(f, selected, r.value.cuts)
                      && |r.value.means| == |schools| && |r.value.tiers| == |schools|
                      && forall k :: 0 <= k < |schools| ==>
                           r.value.means[k] == SchoolMeans(f.rows, schools[k], selected)
                           && r.value.tiers[k] == SchoolTiers(f.rows, schools[k], selected, r.value.cuts)
  {
    var selected := left + right;
    if selected == [] then Err(NoSelection)
    else
      match Require(f, ["school"] + selected)
      case Err(e) => Err(e)
      case Ok(_) =>
        var schools := Schools(f.rows);
        var cuts := CutPoints(f.rows, selected, quantile);
        Ok(SchoolReport(seq(|schools|, k requires 0 <= k < |schools| => SchoolMeans(f.rows, schools[k], selected)),
                        AnalysisFrame(f, selected, cuts),
                        cuts,
                        seq(|schools|, k requires 0 <= k < |schools| => SchoolTiers(f.rows, schools[k], selected, cuts))))
  }

  /** The view on the caller's table: the copy gains `total_score` and then
      `performance_level`; the caller's table is left as it was. */
  method ShowPerformanceSchool(df: DataFrame, left: seq<string>, right: seq<string>, quantile: QuantileFn)
    returns (r: Result<SchoolReport>)
    requires forall c :: c in left ==> c in SplitOptions(Keys(AllScores)).0
    requires forall c :: c in right ==> c in SplitOptions(Keys(AllScores)).1
    ensures r == PerformanceSchool(df.View(), left, right, quantile)
    ensures df.View() == old(df.View())
  {
    var selected := left + right;
    if selected == [] {
      return Err(NoSelection);
    }
    var present := Require(df.View(), ["school"] + selected);
    if present.Err? {
      return Err(present.failure);
    }
    var f := df.View();
    var schools := Schools(f.rows);
    var means := seq(|schools|, k requires 0 <= k < |schools| => SchoolMeans(f.rows, schools[k], selected));
    var analysis := new DataFrame.Copy(df);
    analysis.Assign("total_score", TotalColumn(analysis.rows, selected));
    var cuts := CutPoints(f.rows, selected, quantile);
    analysis.Assign("performance_level", LevelColumn(f.rows, selected, cuts));
    var tiers := seq(|schools|, k requires 0 <= k < |schools| => SchoolTiers(f.rows, schools[k], selected, cuts));
    r := Ok(SchoolReport(means, analysis.View(), cuts, tiers));
  }

  /** Two students with the same total get the same level, whatever their
      schools: the cut points are global. */
  lemma SameTotalSameLevel(f: Frame, left: seq<string>, right: seq<string>, quantile: QuantileFn, i: nat, j: nat)
    requires forall c :: c in left ==> c in SplitOptions(Keys(AllScores)).0
    requires forall c :: c in right ==> c in SplitOptions(Keys(AllScores)).1
    requires PerformanceSchool(f, left, right, quantile).Ok?
    requires i < |f.rows| && j < |f.rows|
    requires RowTotal(f.rows[i], left + right) == RowTotal(f.rows[j], left + right)
    ensures var g := PerformanceSchool(f, left, right, quantile).value.analysis;
            CellAt(g.rows[i], "performance_level") == CellAt(g.rows[j], "performance_level")
  {
  }
}
