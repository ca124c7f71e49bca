/** Boys versus girls (analyse10.py): the `gender` column derived from
    `stgender` on a copy of the table, then a Mann-Whitney test on each of
    the first six scores. */
module GenderEffect {
  import opened Wrappers
  import opened Frames
  import opened Catalogues
  import opened SignificanceTests

  const Boy := "Garçon"
  const Girl := "Fille"
  const Unknown := "Inconnu"

  /** `stgender.map({1: "Garçon", 0: "Fille"}).fillna("Inconnu")`: the two
      codes map, and anything else, missing or not, is unknown. */
  function GenderLabel(code: Cell): (g: string)
    ensures g == Boy <==> code == Some(Num(1.0))
    ensures g == Girl <==> code == Some(Num(0.0))
    ensures g == Unknown <==> code != Some(Num(1.0)) && code != Some(Num(0.0))
  {
    if code == Some(Num(1.0)) then Boy
    else if code == Some(Num(0.0)) then Girl
    else Unknown
  }

  /** The derived column, one label per row. */
  function GenderColumn(rows: seq<Row>): (cells: seq<Cell>)
    ensures |cells| == |rows|
    ensures forall i :: 0 <= i < |rows| ==> cells[i] == Some(Text(GenderLabel(CellAt(rows[i], "stgender"))))
  {
    seq(|rows|, i requires 0 <= i < |rows| => Some(Text(GenderLabel(CellAt(rows[i], "stgender")))))
  }

  /** `show_gender_effect`: a KeyError on `stgender`, or on a score in the
      group means, replaces the view by an error. */
  function GenderEffect(f: Frame, test: TwoSampleTest): (r: Result<seq<TestRow>>)
    ensures r.Ok? <==> "stgender" in f.columns && forall c :: c in Keys(AllScores) ==> c in f.columns
    ensures r.Err? ==> r.failure.MissingColumn?
    ensures r.Ok? ==> var g := WithColumn(f, "gender", GenderColumn(f.rows));
                      r.value == TwoGroupResults(g.rows, "gender", Boy, Girl, FirstSixScores(), AllScores, test)
  {
    if "stgender" !in f.columns then Err(MissingColumn("stgender"))
    else
      var g := WithColumn(f, "gender", GenderColumn(f.rows));
      assert (forall c :: c in Keys(AllScores) ==> c in g.columns) <==> (forall c :: c in Keys(AllScores) ==> c in f.columns) by {
        GenderNotScore();
      }
      match Require(g, Keys(AllScores))
      case Err(e) => Err(e)
      case Ok(_) => Ok(TwoGroupResults(g.rows, "gender", Boy, Girl, FirstSixScores(), AllScores, test))
  }

  /** The view on the caller's table: the copy gains the column, the
      caller's table is left as it was. */
  method ShowGenderEffect(df: DataFrame, test: TwoSampleTest) returns (r: Result<seq<TestRow>>)
    ensures r == GenderEffect(df.View(), test)
    ensures df.View() == old(df.View())
  {
    if "stgender" !in df.columns {
      return Err(MissingColumn("stgender"));
    }
    var analysis := new DataFrame.Copy(df);
    analysis.Assign("gender", GenderColumn(analysis.rows));
    var present := Require(analysis.View(), Keys(AllScores));
    if present.Err? {
      return Err(present.failure);
    }
    var results := RunTwoGroupTests(analysis.rows, "gender", Boy, Girl, FirstSixScores(), AllScores, test);
    r := Ok(results);
  }

  lemma WithGenderAppend(f: Frame, r: Row)
    ensures WithColumn(Frame(f.columns, f.rows + [r]), "gender", GenderColumn(f.rows + [r])).rows
            == WithColumn(f, "gender", GenderColumn(f.rows)).rows
               + [r["gender" := Some(Text(GenderLabel(CellAt(r, "stgender"))))]]
  {
  }

  /** A student whose code is neither 1 nor 0 (missing included) is in
      neither sample and changes no result. */
  lemma UnknownGenderIgnored(f: Frame, r: Row, test: TwoSampleTest)
    requires CellAt(r, "stgender") != Some(Num(1.0)) && CellAt(r, "stgender") != Some(Num(0.0))
    ensures GenderEffect(Frame(f.columns, f.rows + [r]), test) == GenderEffect(f, test)
  {
    var g := WithColumn(f, "gender", GenderColumn(f.rows));
    var r' := r["gender" := Some(Text(Unknown))];
    WithGenderAppend(f, r);
    assert !IsText(r', "gender", Boy) && !IsText(r', "gender", Girl);
    TwoGroupIgnoresOtherRows(g.rows, r', "gender", Boy, Girl, FirstSixScores(), AllScores, test);
  }
}
