/** Test reliability (analyse6.py): Cronbach's alpha over an item matrix
    after listwise deletion, its reliability band as a label and a colour,
    and the three coefficients the view reports. */
module Reliability {
  import opened Wrappers
  import opened Frames

  const EgraItems: seq<string> := ["clpm", "phoneme", "sound_word", "cwpm", "listening", "orf", "comprehension"]
  const EgmaItems: seq<string> := ["number_id", "discrimin", "missing_number", "addition", "subtraction", "problems"]

  /** One student's answers to the k items; `None` is a missing answer. */
  type ItemRow = seq<Option<real>>

  predicate Complete(row: ItemRow) {
    forall j :: 0 <= j < |row| ==> row[j].Some?
  }

  function Values(row: ItemRow): (xs: seq<real>)
    requires Complete(row)
    ensures |xs| == |row|
    ensures forall j :: 0 <= j < |row| ==> xs[j] == row[j].value
  {
    seq(|row|, j requires 0 <= j < |row| && Complete(row) => row[j].value)
  }

  /** `dropna(axis=0)`: a row with any missing answer is dropped whole. */
  function ListwiseDelete(rows: seq<ItemRow>): (kept: seq<seq<real>>)
    ensures |kept| <= |rows|
  {
    if rows == [] then []
    else (if Complete(rows[0]) then [Values(rows[0])] else []) + ListwiseDelete(rows[1..])
  }

  lemma {:induction false} ListwiseDeleteAppend(a: seq<ItemRow>, b: seq<ItemRow>)
    ensures ListwiseDelete(a + b) == ListwiseDelete(a) + ListwiseDelete(b)
  {
    if a == [] {
      assert a + b == b;
    } else {
      var ab := a + b;
      assert ab[0] == a[0] && ab[1..] == a[1..] + b;
      var h := if Complete(a[0]) then [Values(a[0])] else [];
      ListwiseDeleteAppend(a[1..], b);
      calc {
        ListwiseDelete(ab);
        h + ListwiseDelete(a[1..] + b);
        h + (ListwiseDelete(a[1..]) + ListwiseDelete(b));
        (h + ListwiseDelete(a[1..])) + ListwiseDelete(b);
      }
    }
  }

  /** Without missing answers nothing is dropped. */
  lemma {:induction false} ListwiseDeleteComplete(rows: seq<ItemRow>)
    requires forall i :: 0 <= i < |rows| ==> Complete(rows[i])
    ensures |ListwiseDelete(rows)| == |rows|
    ensures forall i :: 0 <= i < |rows| ==> ListwiseDelete(rows)[i] == Values(rows[i])
  {
    if rows != [] {
      ListwiseDeleteComplete(rows[1..]);
    }
  }

  lemma {:induction false} ListwiseDeleteWidth(rows: seq<ItemRow>, k: nat)
    requires forall i :: 0 <= i < |rows| ==> |rows[i]| == k
    ensures forall i :: 0 <= i < |ListwiseDelete(rows)| ==> |ListwiseDelete(rows)[i]| == k
  {
    if rows != [] {
      ListwiseDeleteWidth(rows[1..], k);
    }
  }

  // --------------------------------------------------------------- variance

  function Sq(d: real): real {
    d * d
  }

  /** Sum of squared deviations from m. */
  function SumSqDev(xs: seq<real>, m: real): real {
    if xs == [] then 0.0 else Sq(xs[0] - m) + SumSqDev(xs[1..], m)
  }

  /** Sample variance, divisor n - 1 (`ddof=1`). */
  function Variance(xs: seq<real>): (v: real)
    requires |xs| >= 2
    ensures v >= 0.0
  {
    SumSqDevZero(xs, Mean(xs));
    SumSqDev(xs, Mean(xs)) / (|xs| - 1) as real
  }

  predicate AllEqual(xs: seq<real>) {
    forall i :: 0 <= i < |xs| ==> xs[i] == xs[0]
  }

  lemma PositiveSquare(e: real)
    requires e > 0.0
    ensures Sq(e) > 0.0
  {
    calc {
      Sq(e);
      == e * e;
      > 0.0;
    }
  }

  /** A square is never negative, and zero only for zero. */
  lemma SquareSign(d: real)
    ensures Sq(d) >= 0.0
    ensures Sq(d) == 0.0 <==> d == 0.0
  {
    if d > 0.0 {
      PositiveSquare(d);
    } else if d < 0.0 {
      PositiveSquare(-d);
      calc {
        Sq(d);
        == d * d;
        == (-d) * (-d);
        == Sq(-d);
      }
    } else {
      calc {
        Sq(d);
        == 0.0 * 0.0;
        == 0.0;
      }
    }
  }

  lemma {:induction false} SumSqDevZero(xs: seq<real>, m: real)
    ensures SumSqDev(xs, m) >= 0.0
    ensures SumSqDev(xs, m) == 0.0 <==> forall i :: 0 <= i < |xs| ==> xs[i] == m
  {
    if xs != [] {
      SumSqDevZero(xs[1..], m);
      SquareSign(xs[0] - m);
      if forall i :: 0 <= i < |xs| ==> xs[i] == m {
        assert forall i :: 0 <= i < |xs[1..]| ==> xs[1..][i] == m by {
          forall i | 0 <= i < |xs[1..]| ensures xs[1..][i] == m {
            assert xs[1..][i] == xs[i + 1];
          }
        }
      }
      if SumSqDev(xs, m) == 0.0 {
        forall i | 0 <= i < |xs| ensures xs[i] == m {
          if i > 0 {
            assert xs[i] == xs[1..][i - 1];
          }
        }
      }
    }
  }

  lemma {:induction false} SumConstant(xs: seq<real>, c: real)
    requires forall i :: 0 <= i < |xs| ==> xs[i] == c
    ensures Sum(xs) == |xs| as real * c
  {
    if xs != [] {
      SumConstant(xs[1..], c);
    }
  }

  /** The variance is zero exactly when every value is the same. */
  lemma VarianceZeroIff(xs: seq<real>)
    requires |xs| >= 2
    ensures Variance(xs) == 0.0 <==> AllEqual(xs)
  {
    var n := |xs| as real;
    if AllEqual(xs) {
      SumConstant(xs, xs[0]);
      assert Mean(xs) == n * xs[0] / n;
      assert Mean(xs) == xs[0];
      SumSqDevZero(xs, xs[0]);
    } else {
      SumSqDevZero(xs, Mean(xs));
      var i :| 0 <= i < |xs| && xs[i] != xs[0];
      assert SumSqDev(xs, Mean(xs)) != 0.0;
    }
  }

  function Scale(c: real, xs: seq<real>): (ys: seq<real>)
    ensures |ys| == |xs|
    ensures forall i :: 0 <= i < |xs| ==> ys[i] == c * xs[i]
  {
    seq(|xs|, i requires 0 <= i < |xs| => c * xs[i])
  }

  lemma ScaleTail(c: real, xs: seq<real>)
    requires xs != []
    ensures Scale(c, xs)[1..] == Scale(c, xs[1..])
  {
    var a, b := Scale(c, xs)[1..], Scale(c, xs[1..]);
    assert |a| == |b|;
    forall i | 0 <= i < |a| ensures a[i] == b[i] {
      assert a[i] == Scale(c, xs)[i + 1] == c * xs[i + 1];
    }
  }

  lemma {:induction false} ScaleSum(c: real, xs: seq<real>)
    ensures Sum(Scale(c, xs)) == c * Sum(xs)
  {
    if xs != [] {
      ScaleTail(c, xs);
      ScaleSum(c, xs[1..]);
    }
  }

  lemma {:induction false} ScaleSumSqDev(c: real, xs: seq<real>, m: real)
    ensures SumSqDev(Scale(c, xs), c * m) == c * c * SumSqDev(xs, m)
  {
    if xs != [] {
      var ys, d, cm := Scale(c, xs), xs[0] - m, c * m;
      var a, b := SumSqDev(xs[1..], m), SumSqDev(ys[1..], cm);
      ScaleTail(c, xs);
      ScaleSumSqDev(c, xs[1..], m);
      assert b == c * c * a;
      assert ys[0] - cm == c * d;
      SquareScale(c, d);
      assert SumSqDev(ys, cm) == c * c * Sq(d) + c * c * a;
      assert SumSqDev(xs, m) == Sq(d) + a;
    }
  }

  lemma SquareScale(c: real, d: real)
    ensures Sq(c * d) == c * c * Sq(d)
  {
    calc {
      Sq(c * d);
      == (c * d) * (c * d);
      == c * c * (d * d);
    }
  }

  lemma MeanScale(c: real, xs: seq<real>)
    requires |xs| > 0
    ensures Mean(Scale(c, xs)) == c * Mean(xs)
  {
    var n := |xs| as real;
    var s := Sum(xs);
    ScaleSum(c, xs);
    assert Mean(xs) == s / n;
    assert Mean(Scale(c, xs)) == (c * s) / n;
    MulDiv(c, s, n);
  }

  /** Multiplying every value by c multiplies the variance by c². */
  lemma ScaleVariance(c: real, xs: seq<real>)
    requires |xs| >= 2
    ensures Variance(Scale(c, xs)) == c * c * Variance(xs)
  {
    var ys := Scale(c, xs);
    var mx := Mean(xs);
    MeanScale(c, xs);
    ScaleSumSqDev(c, xs, mx);
    assert Mean(ys) == c * mx;
    assert SumSqDev(ys, c * mx) == c * c * SumSqDev(xs, mx);
    assert SumSqDev(ys, Mean(ys)) == SumSqDev(ys, c * mx);
    assert SumSqDev(ys, Mean(ys)) == c * c * SumSqDev(xs, mx);
    var n := (|xs| - 1) as real;
    var S := SumSqDev(xs, mx);
    SquareMulDiv(c, S, n);
    assert (c * c * S) / n == c * c * (S / n);
    assert |ys| == |xs|;
    assert Variance(xs) == S / n;
    assert Variance(ys) == SumSqDev(ys, Mean(ys)) / n;
    assert SumSqDev(ys, Mean(ys)) == c * c * S;
  }

  lemma SquareMulDiv(c: real, s: real, n: real)
    requires n != 0.0
    ensures (c * c * s) / n == c * c * (s / n)
  {
    MulDiv(c * c, s, n);
  }

  lemma MulDiv(c: real, s: real, n: real)
    requires n != 0.0
    ensures (c * s) / n == c * (s / n)
  {
    var q := s / n;
    assert s == q * n;
    assert c * s == (c * q) * n;
  }

  // ---------------------------------------------------------------- alpha

  /** Column j of a complete item matrix. */
  function ItemColumn(m: seq<seq<real>>, j: nat): (col: seq<real>)
    requires forall i :: 0 <= i < |m| ==> j < |m[i]|
    ensures |col| == |m|
  {
    seq(|m|, i requires 0 <= i < |m| && j < |m[i]| => m[i][j])
  }

  /** `items.sum(axis=1)`: each student's total over the items. */
  function RowSums(m: seq<seq<real>>): (sums: seq<real>)
    ensures |sums| == |m|
  {
    seq(|m|, i requires 0 <= i < |m| => Sum(m[i]))
  }

  /** `sum(item_variances)` over the first j item columns. */
  function ItemVarianceSum(m: seq<seq<real>>, j: nat): (s: real)
    requires |m| >= 2
    requires forall i :: 0 <= i < |m| ==> j <= |m[i]|
    ensures s >= 0.0
  {
    if j == 0 then 0.0 else ItemVarianceSum(m, j - 1) + Variance(ItemColumn(m, j - 1))
  }

  /** `None` is the source's "insufficient data"; `NaN` is what pandas gives
      when a single complete row leaves the `ddof=1` variances undefined. */
  datatype Coefficient = Undefined | NaN | Alpha(value: real)

  /** The coefficient of a complete matrix of k item columns. */
  function AlphaOfComplete(k: nat, items: seq<seq<real>>): (c: Coefficient)
    requires forall i :: 0 <= i < |items| ==> |items[i]| == k
    ensures c.Alpha? ==> k >= 2 && |items| >= 2
    ensures c.NaN? <==> k >= 2 && |items| == 1
  {
    if |items| == 0 || k < 2 then Undefined
    else if |items| == 1 then NaN
    else
      var total := Variance(RowSums(items));
      if total == 0.0 then Undefined
      else Alpha((k as real / (k - 1) as real) * (1.0 - ItemVarianceSum(items, k) / total))
  }

  /** `cronbach_alpha` over k item columns: listwise deletion, then the
      coefficient of what is left. */
  function CronbachAlpha(k: nat, rows: seq<ItemRow>): (c: Coefficient)
    requires forall i :: 0 <= i < |rows| ==> |rows[i]| == k
    ensures c.Alpha? ==> k >= 2 && |ListwiseDelete(rows)| >= 2
    ensures c.NaN? <==> k >= 2 && |ListwiseDelete(rows)| == 1
  {
    ListwiseDeleteWidth(rows, k);
    AlphaOfComplete(k, ListwiseDelete(rows))
  }

  /** The coefficient is undefined exactly when no complete row is left, when
      there are fewer than two items, or when every student has the same total. */
  lemma CronbachUndefinedIff(k: nat, rows: seq<ItemRow>)
    requires forall i :: 0 <= i < |rows| ==> |rows[i]| == k
    ensures CronbachAlpha(k, rows).Undefined? <==>
              var items := ListwiseDelete(rows);
              |items| == 0 || k < 2 || (|items| >= 2 && AllEqual(RowSums(items)))
  {
    var items := ListwiseDelete(rows);
    if |items| >= 2 {
      VarianceZeroIff(RowSums(items));
    }
  }

  /** Listwise deletion: a row with a missing answer, wherever it stands,
      changes nothing. */
  lemma IncompleteRowIgnored(k: nat, a: seq<ItemRow>, r: ItemRow, b: seq<ItemRow>)
    requires forall i :: 0 <= i < |a| ==> |a[i]| == k
    requires forall i :: 0 <= i < |b| ==> |b[i]| == k
    requires |r| == k && !Complete(r)
    ensures CronbachAlpha(k, a + [r] + b) == CronbachAlpha(k, a + b)
  {
    ListwiseDeleteAppend(a + [r], b);
    ListwiseDeleteAppend(a, [r]);
    ListwiseDeleteAppend(a, b);
    assert ListwiseDelete([r]) == [] by {
      assert [r][1..] == [];
    }
    assert ListwiseDelete(a + [r] + b) == ListwiseDelete(a + b);
  }

  /** A matrix whose k columns all repeat the same score: row i is k copies of xs[i]. */
  predicate Identical(items: seq<seq<real>>, xs: seq<real>, k: nat) {
    |items| == |xs| &&
    (forall i :: 0 <= i < |items| ==> |items[i]| == k) &&
    (forall i, l :: 0 <= i < |items| && 0 <= l < |items[i]| ==> items[i][l] == xs[i])
  }

  lemma {:induction false} IdenticalVarianceSum(items: seq<seq<real>>, xs: seq<real>, k: nat, j: nat)
    requires Identical(items, xs, k) && |xs| >= 2 && j <= k
    ensures ItemVarianceSum(items, j) == j as real * Variance(xs)
  {
    if j > 0 {
      IdenticalVarianceSum(items, xs, k, j - 1);
      assert ItemColumn(items, j - 1) == xs;
    }
  }

  /** With identical items every student's total is k times their score. */
  lemma IdenticalTotalVariance(items: seq<seq<real>>, xs: seq<real>, k: nat)
    requires Identical(items, xs, k) && |xs| >= 2
    ensures Variance(RowSums(items)) == k as real * k as real * Variance(xs)
  {
    var kr := k as real;
    forall i | 0 <= i < |items|
      ensures RowSums(items)[i] == Scale(kr, xs)[i]
    {
      SumConstant(items[i], xs[i]);
    }
    assert RowSums(items) == Scale(kr, xs);
    ScaleVariance(kr, xs);
  }

  lemma AlphaOfIdentical(k: nat, v: real, ivs: real, total: real)
    requires k >= 2 && v != 0.0
    requires ivs == k as real * v && total == k as real * k as real * v
    ensures total != 0.0
    ensures (k as real / (k - 1) as real) * (1.0 - ivs / total) == 1.0
  {
    var kr := k as real;
    assert total == kr * ivs;
    assert ivs != 0.0;
    assert ivs / total == 1.0 / kr;
    assert 1.0 - 1.0 / kr == (kr - 1.0) / kr;
    assert (kr / (kr - 1.0)) * ((kr - 1.0) / kr) == 1.0;
  }

  /** k >= 2 items that all carry the same score, which varies between
      students, are perfectly consistent: alpha is exactly 1. */
  lemma IdenticalItemsGiveOne(items: seq<seq<real>>, xs: seq<real>, k: nat)
    requires Identical(items, xs, k) && k >= 2 && |xs| >= 2
    requires !AllEqual(xs)
    ensures AlphaOfComplete(k, items) == Alpha(1.0)
  {
    var v := Variance(xs);
    VarianceZeroIff(xs);
    IdenticalTotalVariance(items, xs, k);
    IdenticalVarianceSum(items, xs, k, k);
    var total := Variance(RowSums(items));
    var ivs := ItemVarianceSum(items, k);
    AlphaOfIdentical(k, v, ivs, total);
  }

  // ---------------------------------------------------------------- bands

  const Insufficient := "Données insuffisantes"
  const VeryGood := "Très bonne fiabilité"
  const Good := "Bonne fiabilité"
  const Acceptable := "Acceptable"
  const Weak := "Faible fiabilité (le test doit être amélioré)"

  /** `interpret_alpha`; a NaN fails every comparison and lands in the last band. */
  function InterpretAlpha(c: Coefficient): (text: string)
    ensures text in {Insufficient, VeryGood, Good, Acceptable, Weak}
  {
    if c.Undefined? then Insufficient
    else if c.Alpha? && c.value >= 0.9 then VeryGood
    else if c.Alpha? && c.value >= 0.7 then Good
    else if c.Alpha? && c.value >= 0.6 then Acceptable
    else Weak
  }

  /** `get_reliability_color`, an if-chain of its own over the same cut points. */
  function ReliabilityColor(c: Coefficient): (colour: string)
    ensures colour in {"gray", "green", "lightgreen", "orange", "red"}
  {
    if c.Undefined? then "gray"
    else if c.Alpha? && c.value >= 0.9 then "green"
    else if c.Alpha? && c.value >= 0.7 then "lightgreen"
    else if c.Alpha? && c.value >= 0.6 then "orange"
    else "red"
  }

  /** Label bands and colour bands coincide: two coefficients share a label
      exactly when they share a colour. */
  lemma LabelsMatchColours(c1: Coefficient, c2: Coefficient)
    ensures InterpretAlpha(c1) == InterpretAlpha(c2) <==> ReliabilityColor(c1) == ReliabilityColor(c2)
  {
  }

  function LabelRank(text: string): int {
    if text == VeryGood then 3 else if text == Good then 2 else if text == Acceptable then 1 else 0
  }

  /** A larger alpha never gets a lower band. */
  lemma InterpretAlphaMonotone(a: real, b: real)
    requires a <= b
    ensures LabelRank(InterpretAlpha(Alpha(a))) <= LabelRank(InterpretAlpha(Alpha(b)))
  {
  }

  /** Each lower bound is inclusive. */
  lemma InterpretAlphaBoundaries()
    ensures InterpretAlpha(Alpha(0.9)) == VeryGood
    ensures InterpretAlpha(Alpha(0.7)) == Good
    ensures InterpretAlpha(Alpha(0.69)) == Acceptable
    ensures InterpretAlpha(Alpha(0.6)) == Acceptable
    ensures InterpretAlpha(Alpha(0.59)) == Weak
    ensures InterpretAlpha(Undefined) == Insufficient
    ensures InterpretAlpha(NaN) == Weak
  {
  }

  // ---------------------------------------------------------------- view

  datatype ReliabilityRow = ReliabilityRow(test: string, alpha: Coefficient, reliability: string)

  /** `df[cols]` as an item matrix of numeric answers. */
  function ItemMatrix(rows: seq<Row>, cols: seq<string>): (m: seq<ItemRow>)
    ensures |m| == |rows|
    ensures forall i :: 0 <= i < |m| ==> |m[i]| == |cols|
    ensures forall i, j :: 0 <= i < |m| && 0 <= j < |cols| ==> m[i][j] == NumAt(rows[i], cols[j])
  {
    seq(|rows|, i requires 0 <= i < |rows| => seq(|cols|, j requires 0 <= j < |cols| => NumAt(rows[i], cols[j])))
  }

  function Row3(test: string, alpha: Coefficient): ReliabilityRow {
    ReliabilityRow(test, alpha, InterpretAlpha(alpha))
  }

  /** The three coefficients of `show_cronbach`, in their fixed order; the view
      has no handler, so an absent column ends it with the KeyError. */
  function ShowCronbach(df: Frame): (r: Result<seq<ReliabilityRow>>)
    ensures r.Ok? <==> forall c :: c in ["language_teaching"] + EgraItems + EgmaItems ==> c in df.columns
    ensures r.Ok? ==> |r.value| == 3
    ensures r.Ok? ==> r.value[0].test == "EGRA English" && r.value[1].test == "EGRA Dutch"
                      && r.value[2].test == "EGMA Mathématiques"
    ensures r.Ok? ==> r.value[0].alpha == CronbachAlpha(7, ItemMatrix(RowsWhere(df.rows, "language_teaching", "English"), EgraItems))
    ensures r.Ok? ==> r.value[1].alpha == CronbachAlpha(7, ItemMatrix(RowsWhere(df.rows, "language_teaching", "Dutch"), EgraItems))
    ensures r.Ok? ==> r.value[2].alpha == CronbachAlpha(6, ItemMatrix(df.rows, EgmaItems))
    ensures r.Ok? ==> forall i :: 0 <= i < 3 ==> r.value[i].reliability == InterpretAlpha(r.value[i].alpha)
  {
    match Require(df, ["language_teaching"] + EgraItems + EgmaItems)
    case Err(e) => Err(e)
    case Ok(_) =>
      var english := RowsWhere(df.rows, "language_teaching", "English");
      var dutch := RowsWhere(df.rows, "language_teaching", "Dutch");
      Ok([Row3("EGRA English", CronbachAlpha(7, ItemMatrix(english, EgraItems))),
          Row3("EGRA Dutch", CronbachAlpha(7, ItemMatrix(dutch, EgraItems))),
          Row3("EGMA Mathématiques", CronbachAlpha(6, ItemMatrix(df.rows, EgmaItems)))])
  }
}
