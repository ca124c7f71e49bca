/** Zero scores (analyse2.py): for each selected EGRA task, the share of all
    students whose score is exactly 0. */
module ZeroScores {
  import opened Wrappers
  import opened Frames
  import opened Catalogues

  /** One line of the table: the task's label and its percentage (`None`
      for the NaN of an empty table). */
  datatype ZeroRow = ZeroRow(task: string, percent: Option<real>)

  /** `(column == 0).sum()`: a missing or text cell is not a zero. */
  function ZeroCount(cells: seq<Cell>): (n: nat)
    ensures n <= |cells|
  {
    if cells == [] then 0
    else ZeroCount(cells[..|cells| - 1]) + (if cells[|cells| - 1] == Some(Num(0.0)) then 1 else 0)
  }

  /** The count reaches its bounds exactly on an all-zero column and on a
      column without zeros. */
  lemma {:induction false} ZeroCountExtremes(cells: seq<Cell>)
    ensures ZeroCount(cells) == |cells| <==> forall i :: 0 <= i < |cells| ==> cells[i] == Some(Num(0.0))
    ensures ZeroCount(cells) == 0 <==> forall i :: 0 <= i < |cells| ==> cells[i] != Some(Num(0.0))
  {
    if cells != [] {
      var init := cells[..|cells| - 1];
      ZeroCountExtremes(init);
      assert forall i :: 0 <= i < |init| ==> init[i] == cells[i];
    }
  }

  /** `round(zeros / len(df) * 100, 2)`; with no student it is 0/0, a NaN. */
  function ZeroPercentage(rows: seq<Row>, col: string): (p: Option<real>)
    ensures p.None? <==> rows == []
    ensures p.Some? ==> 0.0 <= p.value <= 100.0
    ensures p.Some? && ZeroCount(ColumnOf(rows, col)) == |rows| ==> p.value == 100.0
    ensures p.Some? && ZeroCount(ColumnOf(rows, col)) == 0 ==> p.value == 0.0
  {
    if rows == [] then None
    else
      var z, n := ZeroCount(ColumnOf(rows, col)), |rows|;
      PercentBounds(z, n);
      Round2Percent((z as real / n as real) * 100.0);
      Some(Round2((z as real / n as real) * 100.0))
  }

  /** An all-zero column gives 100 and a column without zeros gives 0. */
  lemma ZeroPercentageExtremes(rows: seq<Row>, col: string)
    requires rows != []
    ensures (forall i :: 0 <= i < |rows| ==> CellAt(rows[i], col) == Some(Num(0.0))) ==> ZeroPercentage(rows, col) == Some(100.0)
    ensures (forall i :: 0 <= i < |rows| ==> CellAt(rows[i], col) != Some(Num(0.0))) ==> ZeroPercentage(rows, col) == Some(0.0)
  {
    ZeroCountExtremes(ColumnOf(rows, col));
  }

  /** A missing score is not a zero, yet its student still counts in the
      denominator: one zero, one missing and one 5 give 33.33 %. */
  lemma MissingCountsInDenominator()
    ensures var rows := [map["clpm" := Some(Num(0.0))], map["clpm" := None], map["clpm" := Some(Num(5.0))]];
            ZeroPercentage(rows, "clpm") == Some(33.33)
  {
    var rows := [map["clpm" := Some(Num(0.0))], map["clpm" := None], map["clpm" := Some(Num(5.0))]];
    var cells := ColumnOf(rows, "clpm");
    assert cells == [Some(Num(0.0)), None, Some(Num(5.0))];
    assert cells[..2][..1] == cells[..1] && cells[..1][..0] == [];
    assert ZeroCount(cells[..1]) == 1;
    assert ZeroCount(cells[..2]) == 1;
    assert ZeroCount(cells) == 1;
    var y := (1.0 / 3.0) * 100.0 * 100.0 + 0.5;
    assert 3333.0 <= y < 3334.0;
    assert y.Floor == 3333;
  }

  /** `show_zero_scores`: the selection is the left picker's choice followed
      by the right picker's; an empty one gives the warning, an absent
      column the error, otherwise one line per selected task, in order. */
  function ZeroScores(f: Frame, left: seq<string>, right: seq<string>): (r: Result<seq<ZeroRow>>)
    requires forall c :: c in left ==> c in SplitOptions(Keys(EgraScores)).0
    requires forall c :: c in right ==> c in SplitOptions(Keys(EgraScores)).1
    ensures r == Err(NoSelection) <==> left + right == []
    ensures r.Ok? <==> left + right != [] && forall c :: c in left + right ==> c in f.columns
    ensures r.Err? && left + right != [] ==> r.failure.MissingColumn?
    ensures r.Ok? ==> var selected := left + right;
                      |r.value| == |selected|
                      && forall i :: 0 <= i < |selected| ==>
                           selected[i] in Keys(EgraScores)
                           && r.value[i] == ZeroRow(LabelOf(EgraScores, selected[i]), ZeroPercentage(f.rows, selected[i]))
  {
    var selected := left + right;
    PickedAreKeys(Keys(EgraScores), left, right);
    if selected == [] then Err(NoSelection)
    else
      match Require(f, selected)
      case Err(e) => Err(e)
      case Ok(_) =>
        Ok(seq(|selected|, i requires 0 <= i < |selected| =>
                 ZeroRow(LabelOf(EgraScores, selected[i]), ZeroPercentage(f.rows, selected[i]))))
  }
}
