/** English- versus Dutch-medium schools (analyse13.py): a Mann-Whitney test
    on each of the first six scores, and a synthesis that counts the
    significant differences. */
module LanguageComparison {
  import opened Wrappers
  import opened Frames
  import opened Catalogues
  import opened SignificanceTests

  /** The results table and the synthesis metrics below it. */
  datatype Report = Report(results: seq<TestRow>, significant: nat, total: nat, percent: real)

  /** The number of rows whose p-value is below 0.05. */
  function SignificantCount(results: seq<TestRow>): (n: nat)
    ensures n <= |results|
  {
    if results == [] then 0
    else SignificantCount(results[..|results| - 1]) + (if BelowThreshold(results[|results| - 1].p) then 1 else 0)
  }

  /** The number of rows carrying a given interpretation label. */
  function LabelCount(results: seq<TestRow>, text: string): (n: nat)
    ensures n <= |results|
  {
    if results == [] then 0
    else LabelCount(results[..|results| - 1], text) + (if results[|results| - 1].interpretation == text then 1 else 0)
  }

  /** Where every label follows the p < 0.05 rule, the count is the number
      of rows the table shows as "Différence significative". */
  lemma {:induction false} SignificantCountMatchesLabels(results: seq<TestRow>)
    requires forall i :: 0 <= i < |results| ==> (results[i].interpretation == Significant <==> BelowThreshold(results[i].p))
    ensures SignificantCount(results) == LabelCount(results, Significant)
  {
    if results != [] {
      SignificantCountMatchesLabels(results[..|results| - 1]);
    }
  }

  /** The synthesis: `significant_diff / total_tests * 100`; with no result
      row the table has no p-value column and the step fails. */
  function Synthesis(results: seq<TestRow>): (r: Result<Report>)
    ensures r.Err? <==> results == []
    ensures r.Ok? ==> r.value.results == results && r.value.total == |results|
                      && r.value.significant == SignificantCount(results)
                      && r.value.significant <= r.value.total
                      && 0.0 <= r.value.percent <= 100.0
  {
    if results == [] then Err(NoResults)
    else
      var c := SignificantCount(results);
      PercentBounds(c, |results|);
      Ok(Report(results, c, |results|, (c as real / |results| as real) * 100.0))
  }

  // ------------------------------------------ the count as the source writes it

  /** The count as written: the p-value is read back from its 5-decimal
      rendering before the comparison. */
  function SignificantCountAsWritten(results: seq<TestRow>): (n: nat)
    ensures n <= |results|
  {
    if results == [] then 0
    else
      var p := results[|results| - 1].p;
      SignificantCountAsWritten(results[..|results| - 1]) + (if p.Some? && Round5(p.value) < 0.05 then 1 else 0)
  }

  /** The rendered p-value is below 0.05 exactly when the raw one is below 0.049995. */
  lemma RenderedBelowThreshold(p: real)
    ensures Round5(p) < 0.05 <==> p < 0.049995
  {
    var y := p * 100000.0 + 0.5;
    if p < 0.049995 {
      assert y < 5000.0;
      assert y.Floor < 5000;
      assert Round5(p) == (y.Floor as real) / 100000.0;
    } else {
      assert y >= 5000.0;
      assert y.Floor >= 5000;
    }
  }

  /** The two counts differ only through p-values in [0.049995, 0.05): the
      written count never exceeds the label count. */
  lemma {:induction false} AsWrittenAtMostSignificant(results: seq<TestRow>)
    ensures SignificantCountAsWritten(results) <= SignificantCount(results)
    ensures (forall i :: 0 <= i < |results| && results[i].p.Some? ==> !(0.049995 <= results[i].p.value < 0.05))
            ==> SignificantCountAsWritten(results) == SignificantCount(results)
  {
    if results != [] {
      var init := results[..|results| - 1];
      AsWrittenAtMostSignificant(init);
      var p := results[|results| - 1].p;
      if p.Some? {
        RenderedBelowThreshold(p.value);
      }
      if forall i :: 0 <= i < |results| && results[i].p.Some? ==> !(0.049995 <= results[i].p.value < 0.05) {
        assert forall i :: 0 <= i < |init| && init[i].p.Some? ==> !(0.049995 <= init[i].p.value < 0.05) by {
          forall i | 0 <= i < |init| && init[i].p.Some?
            ensures !(0.049995 <= init[i].p.value < 0.05)
          {
            assert init[i] == results[i];
          }
        }
      }
    }
  }

  /** p = 0.049996 is labelled significant, yet the written count skips it:
      it is rendered "0.05000". */
  lemma AsWrittenMissesRow()
    ensures var results := [MakeRow("Phonème", (Some(1.0), Some(0.049996)), Significant, NotSignificant)];
            results[0].interpretation == Significant
            && SignificantCountAsWritten(results) == 0
            && SignificantCount(results) == 1
  {
    RenderedBelowThreshold(0.049996);
    var results := [MakeRow("Phonème", (Some(1.0), Some(0.049996)), Significant, NotSignificant)];
    assert results[..0] == [];
  }

  // ---------------------------------------------------------------- the view

  /** `show_language_comparison`: an absent column fails the group means,
      no result row fails the synthesis, and both are shown as an error. */
  function LanguageComparison(f: Frame, test: TwoSampleTest): (r: Result<Report>)
    ensures r.Ok? <==> (forall c :: c in ["language_teaching"] + Keys(AllScores) ==> c in f.columns)
                       && TestedColumns(f.rows, "language_teaching", "English", "Dutch", FirstSixScores()) != []
    ensures r.Ok? ==> r.value.results == TwoGroupResults(f.rows, "language_teaching", "English", "Dutch",
                                                         FirstSixScores(), AllScores, test)
    ensures r.Err? && !(forall c :: c in ["language_teaching"] + Keys(AllScores) ==> c in f.columns)
            ==> r.failure.MissingColumn?
  {
    match Require(f, ["language_teaching"] + Keys(AllScores))
    case Err(e) => Err(e)
    case Ok(_) =>
      Synthesis(TwoGroupResults(f.rows, "language_teaching", "English", "Dutch", FirstSixScores(), AllScores, test))
  }

  method ShowLanguageComparison(f: Frame, test: TwoSampleTest) returns (r: Result<Report>)
    ensures r == LanguageComparison(f, test)
  {
    var present := Require(f, ["language_teaching"] + Keys(AllScores));
    if present.Err? {
      return Err(present.failure);
    }
    var results := RunTwoGroupTests(f.rows, "language_teaching", "English", "Dutch", FirstSixScores(), AllScores, test);
    r := Synthesis(results);
  }

  /** The synthesis count equals the number of rows labelled significant. */
  lemma SynthesisCountsLabels(f: Frame, test: TwoSampleTest)
    requires LanguageComparison(f, test).Ok?
    ensures var rep := LanguageComparison(f, test).value;
            rep.significant == LabelCount(rep.results, Significant)
  {
    var rep := LanguageComparison(f, test).value;
    TwoGroupLabels(f.rows, "language_teaching", "English", "Dutch", FirstSixScores(), AllScores, test);
    SignificantCountMatchesLabels(rep.results);
  }

  /** A school taught in neither language changes nothing in the tests. */
  lemma OtherLanguageIgnored(f: Frame, r: Row, test: TwoSampleTest)
    requires !IsText(r, "language_teaching", "English") && !IsText(r, "language_teaching", "Dutch")
    ensures LanguageComparison(Frame(f.columns, f.rows + [r]), test) == LanguageComparison(f, test)
  {
    TwoGroupIgnoresOtherRows(f.rows, r, "language_teaching", "English", "Dutch", FirstSixScores(), AllScores, test);
  }
}
