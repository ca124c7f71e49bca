/** International benchmarks (analyse12.py): each score's mean against a
    fixed standard, the number of scores above their standard, and the
    score furthest from its standard. */
module Benchmarks {
  import opened Wrappers
  import opened Frames
  import opened Catalogues

  datatype Benchmark = Benchmark(code: string, standard: int, name: string)

  /** The `international_benchmarks` table, in its own order. */
  const InternationalBenchmarks: seq<Benchmark> := [
    Benchmark("clpm", 60, "Lettres Correctes Par Minute"),
    Benchmark("phoneme", 8, "Phonème"),
    Benchmark("sound_word", 6, "Mot Lu Correctement"),
    Benchmark("cwpm", 50, "Mots Corrects Par Minute"),
    Benchmark("listening", 3, "Écoute"),
    Benchmark("orf", 55, "Fluidité de Lecture Orale"),
    Benchmark("comprehension", 4, "Compréhension"),
    Benchmark("number_id", 25, "Identification des Nombres"),
    Benchmark("discrimin", 8, "Discrimination des Nombres"),
    Benchmark("missing_number", 7, "Nombre Manquant"),
    Benchmark("addition", 8, "Addition"),
    Benchmark("subtraction", 7, "Soustraction"),
    Benchmark("problems", 4, "Résolution de Problèmes")
  ]

  function Codes(table: seq<Benchmark>): (codes: seq<string>)
    ensures |codes| == |table|
    ensures forall i :: 0 <= i < |table| ==> codes[i] == table[i].code
  {
    seq(|table|, i requires 0 <= i < |table| => table[i].code)
  }

  /** `international_benchmarks[code]`. */
  function Lookup(table: seq<Benchmark>, code: string): (b: Benchmark)
    requires code in Codes(table)
    ensures b in table && b.code == code
  {
    if table[0].code == code then table[0]
    else
      assert Codes(table) == [table[0].code] + Codes(table[1..]);
      Lookup(table[1..], code)
  }

  /** The table covers the thirteen catalogue scores, in catalogue order and
      under the catalogue's labels. */
  lemma BenchmarkTableShape()
    ensures |InternationalBenchmarks| == 13
    ensures Codes(InternationalBenchmarks) == Keys(AllScores)
  {
    var codes := Codes(InternationalBenchmarks);
    assert codes == ["clpm", "phoneme", "sound_word", "cwpm", "listening", "orf", "comprehension",
                     "number_id", "discrimin", "missing_number", "addition", "subtraction", "problems"] by {
      assert |codes| == 13;
      forall i | 0 <= i < 13
        ensures codes[i] == ["clpm", "phoneme", "sound_word", "cwpm", "listening", "orf", "comprehension",
                             "number_id", "discrimin", "missing_number", "addition", "subtraction", "problems"][i]
      {
        assert codes[i] == InternationalBenchmarks[i].code;
      }
    }
    AllScoreKeys();
  }

  /** Each benchmark is named as the catalogue names its score. */
  lemma BenchmarkNames()
    ensures |InternationalBenchmarks| == |AllScores|
    ensures forall i :: 0 <= i < |AllScores| ==> InternationalBenchmarks[i].name == AllScores[i].1
  {
    assert |AllScores| == 13;
    forall i | 0 <= i < 13
      ensures InternationalBenchmarks[i].name == AllScores[i].1
    {
      if i < 7 {
        assert AllScores[i] == EgraScores[i];
      }
    }
  }

  /** One line of the comparison table; the mean and the gap are NaN
      (`None`) for a column with no value. */
  datatype Comparison = Comparison(name: string, code: string, observed: Option<real>, standard: int, gap: Option<real>)

  /** The line for one benchmark: the mean over non-missing values, rounded
      to two decimals, and the rounded difference to the standard. */
  function CompareOne(rows: seq<Row>, b: Benchmark): (c: Comparison)
    ensures c.name == b.name && c.code == b.code && c.standard == b.standard
    ensures c.observed.Some? <==> Present(ColumnOf(rows, b.code)) != []
    ensures c.observed.Some? ==> c.observed.value == Round2(Mean(Present(ColumnOf(rows, b.code))))
    ensures c.gap.Some? <==> c.observed.Some?
    ensures c.gap.Some? ==> c.gap.value == c.observed.value - b.standard as real
  {
    match MeanOrNaN(Present(ColumnOf(rows, b.code)))
    case None => Comparison(b.name, b.code, None, b.standard, None)
    case Some(m) =>
      Round2ShiftInt(m, b.standard);
      Comparison(b.name, b.code, Some(Round2(m)), b.standard, Some(Round2(m - b.standard as real)))
  }

  /** A positive gap means the unrounded mean is above the standard, by at
      least half a hundredth. */
  lemma PositiveGapMeansAbove(rows: seq<Row>, b: Benchmark)
    requires CompareOne(rows, b).gap.Some?
    ensures var xs := Present(ColumnOf(rows, b.code));
            CompareOne(rows, b).gap.value > 0.0 <==> Mean(xs) >= b.standard as real + 0.005
  {
    var m := Mean(Present(ColumnOf(rows, b.code)));
    Round2Positive(m - b.standard as real);
  }

  /** `comparison_data` for the listed codes, in order. */
  function ComparisonTable(rows: seq<Row>, bench: seq<Benchmark>, codes: seq<string>): (table: seq<Comparison>)
    requires forall c :: c in codes ==> c in Codes(bench)
    ensures |table| == |codes|
    ensures forall i :: 0 <= i < |codes| ==> table[i] == CompareOne(rows, Lookup(bench, codes[i]))
  {
    if codes == [] then []
    else
      var init, last := codes[..|codes| - 1], codes[|codes| - 1];
      assert last in codes && forall c :: c in init ==> c in codes;
      ComparisonTable(rows, bench, init) + [CompareOne(rows, Lookup(bench, last))]
  }

  /** The loop `for col in existing_scores: comparison_data.append(...)`. */
  method BuildComparison(rows: seq<Row>, bench: seq<Benchmark>, codes: seq<string>) returns (table: seq<Comparison>)
    requires forall c :: c in codes ==> c in Codes(bench)
    ensures table == ComparisonTable(rows, bench, codes)
  {
    table := [];
    var i := 0;
    while i < |codes|
      invariant 0 <= i <= |codes|
      invariant table == ComparisonTable(rows, bench, codes[..i])
    {
      var b := Lookup(bench, codes[i]);
      table := table + [CompareOne(rows, b)];
      ghost var done := codes[..i + 1];
      assert done[..i] == codes[..i] && done[i] == codes[i];
      assert ComparisonTable(rows, bench, done) == ComparisonTable(rows, bench, codes[..i]) + [CompareOne(rows, b)];
      i := i + 1;
    }
    assert codes[..|codes|] == codes;
  }

  // --------------------------------------------------------------- metrics

  predicate Above(c: Comparison) {
    c.gap.Some? && c.gap.value > 0.0
  }

  /** `len(comparison_df[comparison_df['Écart'] > 0])`; a NaN gap is not above. */
  function AboveCount(table: seq<Comparison>): (n: nat)
    ensures n <= |table|
  {
    if table == [] then 0
    else AboveCount(table[..|table| - 1]) + (if Above(table[|table| - 1]) then 1 else 0)
  }

  /** The count is all lines exactly when every gap is positive. */
  lemma {:induction false} AboveCountAll(table: seq<Comparison>)
    ensures AboveCount(table) == |table| <==> forall i :: 0 <= i < |table| ==> Above(table[i])
  {
    if table != [] {
      var init := table[..|table| - 1];
      AboveCountAll(init);
      assert forall i :: 0 <= i < |init| ==> init[i] == table[i];
    }
  }

  /** `Écart.abs().idxmax()`: the first line whose gap is largest in
      absolute value, NaN gaps skipped; `None` when every gap is NaN. */
  function LargestGapIndex(table: seq<Comparison>): (k: Option<nat>)
    ensures k.None? <==> forall j :: 0 <= j < |table| ==> table[j].gap.None?
    ensures k.Some? ==> k.value < |table| && table[k.value].gap.Some?
    ensures k.Some? ==> forall j :: 0 <= j < |table| && table[j].gap.Some? ==>
                          Abs(table[j].gap.value) <= Abs(table[k.value].gap.value)
    ensures k.Some? ==> forall j :: 0 <= j < k.value && table[j].gap.Some? ==>
                          Abs(table[j].gap.value) < Abs(table[k.value].gap.value)
  {
    if table == [] then None
    else
      var init, last := table[..|table| - 1], table[|table| - 1];
      var p := LargestGapIndex(init);
      assert forall j :: 0 <= j < |init| ==> init[j] == table[j];
      if last.gap.None? then p
      else if p.None? then Some(|table| - 1)
      else if Abs(last.gap.value) > Abs(init[p.value].gap.value) then Some(|table| - 1)
      else p
  }

  /** The "largest gap" metric: its size and the competence that has it. */
  function LargestGap(table: seq<Comparison>): (r: Result<(real, string)>)
    ensures r.Err? <==> forall j :: 0 <= j < |table| ==> table[j].gap.None?
    ensures r.Ok? ==> (exists k :: 0 <= k < |table| && table[k].gap.Some?
                                   && r.value.0 == Abs(table[k].gap.value) && r.value.1 == table[k].name)
    ensures r.Ok? ==> forall j :: 0 <= j < |table| && table[j].gap.Some? ==> Abs(table[j].gap.value) <= r.value.0
  {
    match LargestGapIndex(table)
    case None => Err(NoDefinedGap)
    case Some(k) => Ok((Abs(table[k].gap.value), table[k].name))
  }

  // ---------------------------------------------------------------- the view

  /** What the view shows: the table, the "above standard" count out of the
      table's length, and the largest-gap metric (or the error it raises). */
  datatype BenchmarkReport = BenchmarkReport(table: seq<Comparison>, above: nat, largest: Result<(real, string)>)

  /** `show_international_comparison`: only benchmarks whose column exists,
      in table order; an absent one is skipped, not reported as 0. With no
      benchmark column at all the comparison table has no columns, the chart
      built from it fails, and only the error is shown. */
  function InternationalComparison(f: Frame): (r: Result<BenchmarkReport>)
    ensures var existing := PresentColumns(f.columns, Codes(InternationalBenchmarks));
            (r.Err? <==> existing == []) && (r.Err? ==> r.failure == NoScoreColumns)
    ensures var existing := PresentColumns(f.columns, Codes(InternationalBenchmarks));
            r.Ok? ==>
              r.value.table == ComparisonTable(f.rows, InternationalBenchmarks, existing)
              && r.value.above == AboveCount(r.value.table)
              && r.value.largest == LargestGap(r.value.table)
    ensures var existing := PresentColumns(f.columns, Codes(InternationalBenchmarks));
            r.Ok? ==>
              |r.value.table| == |existing|
              && (forall i :: 0 <= i < |existing| ==> r.value.table[i].code == existing[i] && r.value.table[i].code in f.columns)
              && (forall c :: c in Codes(InternationalBenchmarks) && c !in f.columns ==>
                    forall i :: 0 <= i < |r.value.table| ==> r.value.table[i].code != c)
  {
    var existing := PresentColumns(f.columns, Codes(InternationalBenchmarks));
    if existing == [] then Err(NoScoreColumns)
    else
      var table := ComparisonTable(f.rows, InternationalBenchmarks, existing);
      Ok(BenchmarkReport(table, AboveCount(table), LargestGap(table)))
  }

  method ShowInternationalComparison(f: Frame) returns (r: Result<BenchmarkReport>)
    ensures r == InternationalComparison(f)
  {
    var existing := PresentColumns(f.columns, Codes(InternationalBenchmarks));
    if existing == [] {
      return Err(NoScoreColumns);
    }
    var table := BuildComparison(f.rows, InternationalBenchmarks, existing);
    r := Ok(BenchmarkReport(table, AboveCount(table), LargestGap(table)));
  }

  /** Every line's standard is the table's value for its code, and every
      line's gap is its rounded mean minus that standard. */
  lemma LinesMatchTable(f: Frame)
    requires InternationalComparison(f).Ok?
    ensures var t := InternationalComparison(f).value.table;
            forall i :: 0 <= i < |t| ==>
              var b := Lookup(InternationalBenchmarks, t[i].code);
              t[i].standard == b.standard && t[i].name == b.name
              && (t[i].gap.Some? ==> t[i].gap.value == t[i].observed.value - b.standard as real)
  {
  }
}
