/** Correlations between the EGRA tasks (analyse5.py): the strong pairs of
    the rounded correlation matrix, strongest first. The matrix itself
    (`DataFrame.corr`) is an input. */
module Correlations {
  import opened Wrappers
  import opened Frames
  import opened Catalogues

  /** A pandas correlation matrix: `None` is a NaN entry. */
  type Matrix = seq<seq<Option<real>>>

  predicate Square(m: Matrix, n: nat) {
    |m| == n && forall i :: 0 <= i < n ==> |m[i]| == n
  }

  /** An entry of `corr.round(2)`; rounding keeps a NaN a NaN. */
  function Rounded(m: Matrix, i: nat, j: nat): (c: Option<real>)
    requires i < |m| && j < |m[i]|
    ensures c.Some? <==> m[i][j].Some?
    ensures c.Some? ==> Abs(c.value - m[i][j].value) <= 0.005
  {
    match m[i][j]
    case None => None
    case Some(x) => Some(Round2(x))
  }

  /** `abs(correlation) > 0.5`, strict; a NaN fails it. */
  predicate IsStrong(c: Option<real>) {
    c.Some? && Abs(c.value) > 0.5
  }

  /** A line of the table, with the matrix position it comes from. */
  datatype StrongPair = StrongPair(i: nat, j: nat, first: string, second: string, r: real)

  /** The line for position (i, j): the two labels and the rounded value. */
  function Candidate(m: Matrix, labels: seq<string>, i: nat, j: nat): (p: StrongPair)
    requires Square(m, |labels|) && i < |labels| && j < |labels| && IsStrong(Rounded(m, i, j))
    ensures p.i == i && p.j == j && p.first == labels[i] && p.second == labels[j] && Abs(p.r) > 0.5
  {
    StrongPair(i, j, labels[i], labels[j], Rounded(m, i, j).value)
  }

  /** The threshold applies to the rounded value: a raw correlation counts
      exactly when it is at least 0.505 or below -0.505. */
  lemma RoundedStrongIff(x: real)
    ensures Abs(Round2(x)) > 0.5 <==> x >= 0.505 || x < -0.505
  {
    var y := x * 100.0 + 0.5;
    if x >= 0.505 {
      assert y >= 51.0 && y.Floor >= 51;
    } else if x < -0.505 {
      assert y < -50.0 && y.Floor <= -51;
    } else {
      assert -50.0 <= y < 51.0;
      assert -50 <= y.Floor <= 50;
    }
  }

  /** 0.503 rounds to 0.50 and is left out; 0.506 rounds to 0.51 and is kept. */
  lemma ThresholdExamples()
    ensures !IsStrong(Some(Round2(0.503))) && !IsStrong(Some(Round2(-0.5)))
    ensures IsStrong(Some(Round2(0.506))) && IsStrong(Some(Round2(-0.51)))
  {
    RoundedStrongIff(0.503);
    RoundedStrongIff(-0.5);
    RoundedStrongIff(0.506);
    RoundedStrongIff(-0.51);
  }

  // ------------------------------------------------------- the nested loops

  /** A line the table may hold: an upper-triangle position whose rounded
      value is strong, with that position's labels and value. */
  predicate Genuine(m: Matrix, labels: seq<string>, p: StrongPair)
    requires Square(m, |labels|)
  {
    p.i < p.j < |labels| && IsStrong(Rounded(m, p.i, p.j)) && p == Candidate(m, labels, p.i, p.j)
  }

  /** Positions in row-major order: row first, then column. */
  predicate Before(x: StrongPair, y: StrongPair) {
    x.i < y.i || (x.i == y.i && x.j < y.j)
  }

  predicate Ascending(s: seq<StrongPair>) {
    forall a, b :: 0 <= a < b < |s| ==> Before(s[a], s[b])
  }

  /** The strong pairs of row i among the columns i+1 .. j-1, in column order. */
  function RowPairs(m: Matrix, labels: seq<string>, i: nat, j: nat): (out: seq<StrongPair>)
    requires Square(m, |labels|) && i < j <= |labels|
    ensures |out| <= j - i - 1
    decreases j
  {
    if j == i + 1 then []
    else
      var prefix := RowPairs(m, labels, i, j - 1);
      if IsStrong(Rounded(m, i, j - 1)) then prefix + [Candidate(m, labels, i, j - 1)] else prefix
  }

  /** Row i's lines are exactly its strong positions before column j, in
      column order. */
  lemma {:induction false} RowPairsExact(m: Matrix, labels: seq<string>, i: nat, j: nat)
    requires Square(m, |labels|) && i < j <= |labels|
    ensures var out := RowPairs(m, labels, i, j);
            (forall p :: p in out <==> p.i == i && p.j < j && Genuine(m, labels, p))
            && Ascending(out)
    decreases j
  {
    if j > i + 1 {
      RowPairsExact(m, labels, i, j - 1);
    }
  }

  /** The pairs the two loops collect from the first i rows. */
  function StrongUpTo(m: Matrix, labels: seq<string>, i: nat): (out: seq<StrongPair>)
    requires Square(m, |labels|) && i <= |labels|
  {
    if i == 0 then []
    else StrongUpTo(m, labels, i - 1) + RowPairs(m, labels, i - 1, |labels|)
  }

  /** The first i rows' lines are exactly their strong positions. */
  lemma {:induction false} StrongUpToMembers(m: Matrix, labels: seq<string>, i: nat)
    requires Square(m, |labels|) && i <= |labels|
    ensures forall p :: p in StrongUpTo(m, labels, i) <==> p.i < i && Genuine(m, labels, p)
  {
    if i > 0 {
      StrongUpToMembers(m, labels, i - 1);
      RowPairsExact(m, labels, i - 1, |labels|);
    }
  }

  /** ... each once, in row-major order. */
  lemma {:induction false} StrongUpToAscending(m: Matrix, labels: seq<string>, i: nat)
    requires Square(m, |labels|) && i <= |labels|
    ensures Ascending(StrongUpTo(m, labels, i))
  {
    if i > 0 {
      var prefix, row := StrongUpTo(m, labels, i - 1), RowPairs(m, labels, i - 1, |labels|);
      StrongUpToAscending(m, labels, i - 1);
      assert Ascending(row) && forall y :: y in row ==> y.i == i - 1 by {
        RowPairsExact(m, labels, i - 1, |labels|);
      }
      assert forall x :: x in prefix ==> x.i < i - 1 by {
        StrongUpToMembers(m, labels, i - 1);
      }
      assert forall x, y :: x in prefix && y in row ==> Before(x, y);
      AscendingAppend(prefix, row);
    }
  }

  /** Two runs in order, the first wholly before the second, are in order. */
  lemma AscendingAppend(first: seq<StrongPair>, second: seq<StrongPair>)
    requires Ascending(first) && Ascending(second)
    requires forall x, y :: x in first && y in second ==> Before(x, y)
    ensures Ascending(first + second)
  {
    var out := first + second;
    forall a, b | 0 <= a < b < |out|
      ensures Before(out[a], out[b])
    {
      if b < |first| {
        assert out[a] == first[a] && out[b] == first[b];
      } else if a < |first| {
        assert out[a] == first[a] && out[a] in first;
        assert out[b] == second[b - |first|] && out[b] in second;
      } else {
        assert out[a] == second[a - |first|] && out[b] == second[b - |first|];
      }
    }
  }

  /** Each unordered pair is examined once, so at most n(n-1)/2 lines: after
      i rows, twice the count is at most i(2n-1-i). */
  lemma {:induction false} StrongUpToCount(m: Matrix, labels: seq<string>, i: nat)
    requires Square(m, |labels|) && i <= |labels|
    ensures 2 * |StrongUpTo(m, labels, i)| <= i * (2 * |labels| - 1 - i)
  {
    if i > 0 {
      var n := |labels|;
      var k := i - 1;
      StrongUpToCount(m, labels, k);
      var before, row := |StrongUpTo(m, labels, k)|, |RowPairs(m, labels, k, n)|;
      assert |StrongUpTo(m, labels, i)| == before + row;
      assert row <= n - k - 1;
      var t := 2 * n - 2 - k;
      assert k * (t + 1) == k * t + k;
      assert (k + 1) * t == k * t + t;
      assert 2 * before <= k * (t + 1);
      assert i * (2 * n - 1 - i) == (k + 1) * t;
    }
  }

  lemma StrongPairsBound(m: Matrix, labels: seq<string>)
    requires Square(m, |labels|)
    ensures 2 * |StrongUpTo(m, labels, |labels|)| <= |labels| * (|labels| - 1)
  {
    StrongUpToCount(m, labels, |labels|);
    var n := |labels|;
    assert n * (2 * n - 1 - n) == n * (n - 1);
  }

  /** `for i in range(n): for j in range(i + 1, n): ... strong.append(...)`. */
  method ExtractStrong(m: Matrix, labels: seq<string>) returns (strong: seq<StrongPair>)
    requires Square(m, |labels|)
    ensures strong == StrongUpTo(m, labels, |labels|)
  {
    var n := |labels|;
    strong := [];
    var i := 0;
    while i < n
      invariant 0 <= i <= n
      invariant strong == StrongUpTo(m, labels, i)
    {
      var j := i + 1;
      ghost var done := strong;
      while j < n
        invariant i + 1 <= j <= n
        invariant strong == done + RowPairs(m, labels, i, j)
      {
        var c := Rounded(m, i, j);
        if IsStrong(c) {
          strong := strong + [Candidate(m, labels, i, j)];
        }
        j := j + 1;
      }
      i := i + 1;
    }
  }

  // ------------------------------------------------------------- the sort

  predicate NonIncreasing(s: seq<StrongPair>) {
    forall a, b :: 0 <= a < b < |s| ==> Abs(s[a].r) >= Abs(s[b].r)
  }

  /** One step of the sort: `p` goes before the first line it is at least
      as strong as. */
  function InsertByStrength(p: StrongPair, sorted: seq<StrongPair>): (out: seq<StrongPair>)
    ensures multiset(out) == multiset(sorted) + multiset{p}
    ensures |out| == |sorted| + 1
  {
    if sorted == [] then [p]
    else if Abs(p.r) >= Abs(sorted[0].r) then [p] + sorted
    else
      assert sorted == [sorted[0]] + sorted[1..];
      [sorted[0]] + InsertByStrength(p, sorted[1..])
  }

  /** No line of `s` is stronger than `v`. */
  predicate AtMost(s: seq<StrongPair>, v: real) {
    forall x :: x in s ==> Abs(x.r) <= v
  }

  /** A line at least as strong as a sorted rest heads a sorted table. */
  lemma ConsSorted(head: StrongPair, rest: seq<StrongPair>)
    requires NonIncreasing(rest) && AtMost(rest, Abs(head.r))
    ensures NonIncreasing([head] + rest)
  {
    var out := [head] + rest;
    forall a, b | 0 <= a < b < |out|
      ensures Abs(out[a].r) >= Abs(out[b].r)
    {
      assert out[b] == rest[b - 1] && out[b] in rest;
      if a > 0 {
        assert out[a] == rest[a - 1];
      }
    }
  }

  /** Inserting a line no stronger than `v` keeps every line no stronger
      than `v`. */
  lemma {:induction false} InsertBounded(p: StrongPair, sorted: seq<StrongPair>, v: real)
    requires Abs(p.r) <= v && AtMost(sorted, v)
    ensures AtMost(InsertByStrength(p, sorted), v)
  {
    if sorted != [] && Abs(p.r) < Abs(sorted[0].r) {
      assert forall x :: x in sorted[1..] ==> x in sorted;
      InsertBounded(p, sorted[1..], v);
    }
  }

  /** Inserting into a table sorted by strength keeps it sorted. */
  lemma {:induction false} InsertKeepsOrder(p: StrongPair, sorted: seq<StrongPair>)
    requires NonIncreasing(sorted)
    ensures NonIncreasing(InsertByStrength(p, sorted))
  {
    if sorted == [] {
    } else if Abs(p.r) >= Abs(sorted[0].r) {
      assert forall x :: x in sorted ==> Abs(x.r) <= Abs(p.r) by {
        forall x | x in sorted
          ensures Abs(x.r) <= Abs(p.r)
        {
          var b :| 0 <= b < |sorted| && sorted[b] == x;
          assert b == 0 || Abs(sorted[0].r) >= Abs(sorted[b].r);
        }
      }
      ConsSorted(p, sorted);
    } else {
      var head, tail := sorted[0], sorted[1..];
      assert NonIncreasing(tail) by {
        assert forall a :: 0 <= a < |tail| ==> tail[a] == sorted[a + 1];
      }
      assert AtMost(tail, Abs(head.r)) by {
        forall x | x in tail
          ensures Abs(x.r) <= Abs(head.r)
        {
          var b :| 0 <= b < |tail| && tail[b] == x;
          assert sorted[b + 1] == x;
        }
      }
      InsertKeepsOrder(p, tail);
      InsertBounded(p, tail, Abs(head.r));
      ConsSorted(head, InsertByStrength(p, tail));
    }
  }

  /** `sort_values('Abs_Corr', ascending=False)`: a reordering of the lines,
      strongest first. */
  function SortByStrength(s: seq<StrongPair>): (sorted: seq<StrongPair>)
    ensures NonIncreasing(sorted)
    ensures multiset(sorted) == multiset(s)
  {
    if s == [] then []
    else
      assert s == [s[0]] + s[1..];
      var rest := SortByStrength(s[1..]);
      InsertKeepsOrder(s[0], rest);
      InsertByStrength(s[0], rest)
  }

  // ---------------------------------------------------------------- the view

  /** The table of strong pairs, or the info message when there is none. */
  datatype StrongTable = Table(pairs: seq<StrongPair>) | NoneFound

  /** `show_correlation`: the matrix needs every task column (no handler
      here, an absent one is an uncaught KeyError); the table is the
      strong pairs sorted by strength. */
  function Correlations(f: Frame, corr: Matrix): (r: Result<StrongTable>)
    requires Square(corr, |EgraScores|)
    ensures r.Ok? <==> forall c :: c in Keys(EgraScores) ==> c in f.columns
    ensures r.Err? ==> r.failure.MissingColumn?
    ensures r == Ok(NoneFound) <==> r.Ok? && StrongUpTo(corr, Labels(EgraScores), |EgraScores|) == []
    ensures r.Ok? && r.value.Table? ==>
              NonIncreasing(r.value.pairs)
              && multiset(r.value.pairs) == multiset(StrongUpTo(corr, Labels(EgraScores), |EgraScores|))
  {
    match Require(f, Keys(EgraScores))
    case Err(e) => Err(e)
    case Ok(_) =>
      var strong := StrongUpTo(corr, Labels(EgraScores), |EgraScores|);
      if strong == [] then Ok(NoneFound) else Ok(Table(SortByStrength(strong)))
  }

  method ShowCorrelation(f: Frame, corr: Matrix) returns (r: Result<StrongTable>)
    requires Square(corr, |EgraScores|)
    ensures r == Correlations(f, corr)
  {
    var present := Require(f, Keys(EgraScores));
    if present.Err? {
      return Err(present.failure);
    }
    var strong := ExtractStrong(corr, Labels(EgraScores));
    if strong == [] {
      return Ok(NoneFound);
    }
    r := Ok(Table(SortByStrength(strong)));
  }

  /** Every line names the two tasks of an upper-triangle position whose
      rounded value passes the threshold, and every such position has its
      line. */
  lemma TableIsExactlyStrongPositions(f: Frame, corr: Matrix)
    requires Square(corr, |EgraScores|)
    requires Correlations(f, corr).Ok? && Correlations(f, corr).value.Table?
    ensures var pairs := Correlations(f, corr).value.pairs;
            var labels := Labels(EgraScores);
            (forall p :: p in pairs ==> p.i < p.j < |labels| && p.first == labels[p.i] && p.second == labels[p.j]
                                        && IsStrong(Rounded(corr, p.i, p.j)) && p.r == Rounded(corr, p.i, p.j).value)
            && (forall i, j :: 0 <= i < j < |labels| && IsStrong(Rounded(corr, i, j)) ==> Candidate(corr, labels, i, j) in pairs)
  {
    var pairs := Correlations(f, corr).value.pairs;
    var strong := StrongUpTo(corr, Labels(EgraScores), |EgraScores|);
    StrongUpToMembers(corr, Labels(EgraScores), |EgraScores|);
    StrongUpToAscending(corr, Labels(EgraScores), |EgraScores|);
    assert forall p :: p in pairs <==> p in strong by {
      forall p ensures p in pairs <==> p in strong {
        assert p in pairs <==> p in multiset(pairs);
        assert p in strong <==> p in multiset(strong);
      }
    }
  }
}
