/** Contextual factors (analyse8.py): the home-language group of every
    student, the row total of the selected scores, both added to a copy of
    the table. */
module ContextualFactors {
  import opened Wrappers
  import opened Frames
  import opened Catalogues

  const EnglishHome := "st_english_home"
  const DutchHome := "st_dutch_home"
  const OtherHome := "st_other_language"

  /** The eight groups a student can be put in. */
  const Groups: seq<string> := ["English Always", "Dutch Always", "English Frequently", "English Sometimes",
                                "Dutch Frequently", "Dutch Sometimes", "Other Language", "Other"]

  predicate Answered(cell: Cell, answer: string) {
    cell == Some(Text(answer))
  }

  /** `answer in ["Frequently", "Sometimes"]`; a missing answer is in no list. */
  predicate Occasional(cell: Cell) {
    Answered(cell, "Frequently") || Answered(cell, "Sometimes")
  }

  /** The rule list on the three answers: first match wins. */
  function LanguageGroup(english: Cell, dutch: Cell, other: Cell): (g: string)
    ensures g in Groups
  {
    if Answered(english, "Always") then "English Always"
    else if Answered(dutch, "Always") then "Dutch Always"
    else if Occasional(english) then
      assert "English " + "Frequently" == Groups[2] && "English " + "Sometimes" == Groups[3];
      "English " + english.value.s
    else if Occasional(dutch) then
      assert "Dutch " + "Frequently" == Groups[4] && "Dutch " + "Sometimes" == Groups[5];
      "Dutch " + dutch.value.s
    else if Answered(other, "Yes") then "Other Language"
    else "Other"
  }

  /** `map_language(row)`: a column the table lacks raises a KeyError, but
      only when the rule list reaches it. */
  function MapLanguage(columns: seq<string>, row: Row): (r: Result<string>)
    ensures r.Ok? ==> r.value == LanguageGroup(CellAt(row, EnglishHome), CellAt(row, DutchHome), CellAt(row, OtherHome))
    ensures r.Err? ==> r.failure.MissingColumn? && r.failure.name in [EnglishHome, DutchHome, OtherHome]
    ensures EnglishHome in columns && DutchHome in columns && OtherHome in columns ==> r.Ok?
  {
    if EnglishHome !in columns then Err(MissingColumn(EnglishHome))
    else if Answered(CellAt(row, EnglishHome), "Always") then Ok("English Always")
    else if DutchHome !in columns then Err(MissingColumn(DutchHome))
    else if Answered(CellAt(row, DutchHome), "Always") then Ok("Dutch Always")
    else if Occasional(CellAt(row, EnglishHome)) then Ok("English " + CellAt(row, EnglishHome).value.s)
    else if Occasional(CellAt(row, DutchHome)) then Ok("Dutch " + CellAt(row, DutchHome).value.s)
    else if OtherHome !in columns then Err(MissingColumn(OtherHome))
    else if Answered(CellAt(row, OtherHome), "Yes") then Ok("Other Language")
    else Ok("Other")
  }

  // ------------------------------------------------------- priority lemmas

  /** English "Always" wins whatever the other answers say. */
  lemma EnglishAlwaysWins(english: Cell, dutch: Cell, other: Cell)
    requires Answered(english, "Always")
    ensures LanguageGroup(english, dutch, other) == "English Always"
  {
  }

  /** Dutch "Always" beats an occasional English answer. */
  lemma DutchAlwaysBeatsOccasionalEnglish(english: Cell, dutch: Cell, other: Cell)
    requires Occasional(english) && Answered(dutch, "Always")
    ensures LanguageGroup(english, dutch, other) == "Dutch Always"
  {
  }

  /** An occasional answer names its language and frequency, English first. */
  lemma OccasionalAnswers(english: Cell, dutch: Cell, other: Cell)
    requires !Answered(english, "Always") && !Answered(dutch, "Always")
    ensures Occasional(english) ==> LanguageGroup(english, dutch, other) == "English " + english.value.s
    ensures !Occasional(english) && Occasional(dutch) ==> LanguageGroup(english, dutch, other) == "Dutch " + dutch.value.s
    ensures Answered(english, "Sometimes") && Answered(dutch, "Frequently") ==> LanguageGroup(english, dutch, other) == "English Sometimes"
  {
  }

  /** "Other Language" exactly when no home-language rule matched and the
      other-language answer is "Yes"; "Other" when nothing matched at all. */
  lemma OtherLanguageIff(english: Cell, dutch: Cell, other: Cell)
    ensures LanguageGroup(english, dutch, other) == "Other Language" <==>
              !Answered(english, "Always") && !Answered(dutch, "Always") && !Occasional(english) && !Occasional(dutch)
              && Answered(other, "Yes")
    ensures LanguageGroup(english, dutch, other) == "Other" <==>
              !Answered(english, "Always") && !Answered(dutch, "Always") && !Occasional(english) && !Occasional(dutch)
              && !Answered(other, "Yes")
  {
  }

  // ------------------------------------------------------- derived columns

  /** `df.apply(map_language, axis=1)`: row by row, the first failing row
      aborts the whole column. */
  function LanguageColumn(columns: seq<string>, rows: seq<Row>): (r: Result<seq<Cell>>)
    ensures r.Ok? <==> forall i :: 0 <= i < |rows| ==> MapLanguage(columns, rows[i]).Ok?
    ensures r.Err? ==> r.failure.MissingColumn?
    ensures r.Ok? ==> |r.value| == |rows|
                      && forall i :: 0 <= i < |rows| ==>
                           r.value[i] == Some(Text(LanguageGroup(CellAt(rows[i], EnglishHome), CellAt(rows[i], DutchHome),
                                                                 CellAt(rows[i], OtherHome))))
  {
    if rows == [] then Ok([])
    else
      match MapLanguage(columns, rows[0])
      case Err(e) => Err(e)
      case Ok(g) =>
        match LanguageColumn(columns, rows[1..])
        case Err(e) =>
          assert exists i :: 0 <= i < |rows| && !MapLanguage(columns, rows[i]).Ok? by {
            var k :| 0 <= k < |rows[1..]| && !MapLanguage(columns, rows[1..][k]).Ok?;
            assert rows[1..][k] == rows[k + 1];
          }
          Err(e)
        case Ok(rest) =>
          assert forall i :: 1 <= i < |rows| ==> rows[i] == rows[1..][i - 1];
          Ok([Some(Text(g))] + rest)
  }

  /** With all three answer columns present the column never fails. */
  lemma LanguageColumnTotal(columns: seq<string>, rows: seq<Row>)
    requires EnglishHome in columns && DutchHome in columns && OtherHome in columns
    ensures LanguageColumn(columns, rows).Ok?
  {
  }

  /** Every student with English "Always" is in the English Always group
      even when the Dutch and other-language columns are absent. */
  lemma AlwaysEnglishNeedsNoOtherColumn(columns: seq<string>, rows: seq<Row>)
    requires EnglishHome in columns
    requires forall i :: 0 <= i < |rows| ==> Answered(CellAt(rows[i], EnglishHome), "Always")
    ensures LanguageColumn(columns, rows).Ok?
  {
  }

  /** The copy with `language_group` and `total_score`. */
  function AnalysisFrame(f: Frame, langs: seq<Cell>, cols: seq<string>): (g: Frame)
    requires |langs| == |f.rows|
    requires "language_group" !in cols
    ensures forall c :: c in g.columns <==> c in f.columns || c == "language_group" || c == "total_score"
    ensures |g.rows| == |f.rows|
    ensures forall i :: 0 <= i < |f.rows| ==>
              CellAt(g.rows[i], "language_group") == langs[i]
              && CellAt(g.rows[i], "total_score") == Some(Num(RowTotal(f.rows[i], cols)))
    ensures forall i, c :: 0 <= i < |f.rows| && c != "language_group" && c != "total_score" ==>
              CellAt(g.rows[i], c) == CellAt(f.rows[i], c)
  {
    var g1 := WithColumn(f, "language_group", langs);
    var g := WithColumn(g1, "total_score", TotalColumn(g1.rows, cols));
    forall i | 0 <= i < |f.rows|
      ensures RowTotal(g1.rows[i], cols) == RowTotal(f.rows[i], cols)
    {
      RowTotalReadsOnly(g1.rows[i], f.rows[i], cols);
    }
    g
  }

  /** The columns the charts and the correlation matrix read. */
  const ContextColumns: seq<string> := ["ses", "home_support"]

  /** No pickable score is named like a derived column. */
  lemma SelectionExcludesDerived(left: seq<string>, right: seq<string>)
    requires forall c :: c in left ==> c in SplitOptions(Keys(AllScores)).0
    requires forall c :: c in right ==> c in SplitOptions(Keys(AllScores)).1
    ensures forall c :: c in left + right ==> c in Keys(AllScores)
    ensures "language_group" !in left + right && "total_score" !in left + right
  {
    PickedAreKeys(Keys(AllScores), left, right);
    LanguageGroupNotScore();
    TotalScoreNotScore();
  }

  /** Selecting the scores and the context columns succeeds exactly when
      each of them is present. */
  lemma RequireBoth(f: Frame, selected: seq<string>)
    ensures (forall c :: c in selected + ContextColumns ==> c in f.columns)
            <==> (forall c :: c in selected ==> c in f.columns) && "ses" in f.columns && "home_support" in f.columns
  {
  }

  /** `show_contextual_factors`: an empty selection gives the warning; a
      failing language column, an absent selected score, `ses` or
      `home_support` give the error; otherwise the analysis table. */
  function ContextualFactors(f: Frame, left: seq<string>, right: seq<string>): (r: Result<Frame>)
    requires forall c :: c in left ==> c in SplitOptions(Keys(AllScores)).0
    requires forall c :: c in right ==> c in SplitOptions(Keys(AllScores)).1
    ensures r == Err(NoSelection) <==> left + right == []
    ensures r.Ok? <==> left + right != [] && LanguageColumn(f.columns, f.rows).Ok?
                       && (forall c :: c in left + right ==> c in f.columns)
                       && "ses" in f.columns && "home_support" in f.columns
    ensures r.Err? && left + right != [] ==> r.failure.MissingColumn?
    ensures r.Ok? ==> "language_group" !in left + right
                      && r.value == AnalysisFrame(f, LanguageColumn(f.columns, f.rows).value, left + right)
  {
    var selected := left + right;
    SelectionExcludesDerived(left, right);
    RequireBoth(f, selected);
    if selected == [] then Err(NoSelection)
    else
      match LanguageColumn(f.columns, f.rows)
      case Err(e) => Err(e)
      case Ok(langs) =>
        match Require(f, selected + ContextColumns)
        case Err(e) => Err(e)
        case Ok(_) => Ok(AnalysisFrame(f, langs, selected))
  }

  /** The view on the caller's table: the copy gains both columns, the
      caller's table is left as it was. */
  method ShowContextualFactors(df: DataFrame, left: seq<string>, right: seq<string>) returns (r: Result<Frame>)
    requires forall c :: c in left ==> c in SplitOptions(Keys(AllScores)).0
    requires forall c :: c in right ==> c in SplitOptions(Keys(AllScores)).1
    ensures r == ContextualFactors(df.View(), left, right)
    ensures df.View() == old(df.View())
  {
    var selected := left + right;
    if selected == [] {
      return Err(NoSelection);
    }
    var langs := LanguageColumn(df.columns, df.rows);
    if langs.Err? {
      return Err(langs.failure);
    }
    ghost var f := df.View();
    SelectionExcludesDerived(left, right);
    var analysis := new DataFrame.Copy(df);
    analysis.Assign("language_group", langs.value);
    RequireIgnoresNewColumn(f, "language_group", langs.value, selected + ContextColumns);
    var present := Require(analysis.View(), selected + ContextColumns);
    if present.Err? {
      return Err(present.failure);
    }
    analysis.Assign("total_score", TotalColumn(analysis.rows, selected));
    r := Ok(analysis.View());
  }
}
