/** What a score is, and what makes one better, without the functions that compute
    and compare them. */
module ScoreLaws {
  import opened Common
  import opened Reals
  import opened ResultPkg
  import opened Ranking

  // ---------------------------------------------------------------- aggregation

  /** The window enters the sum: it was not skipped and has a value. */
  predicate Enters(w: CrucibleResult) {
    w.SkippedBy.None? && w.Score.Value.Some?
  }

  function EnteredWeight(ws: RawEvaluateResult, weights: Weights): real {
    if ws == [] then 0.0
    else
      var w := ws[|ws| - 1];
      EnteredWeight(ws[..|ws| - 1], weights) + if Enters(w) then weights(w.Window) * w.Score.Value.value else 0.0
  }

  function EnteredCount(ws: RawEvaluateResult): nat {
    if ws == [] then 0 else EnteredCount(ws[..|ws| - 1]) + if Enters(ws[|ws| - 1]) then 1 else 0
  }

  function EnteredSum(ws: RawEvaluateResult): real {
    if ws == [] then 0.0
    else
      var w := ws[|ws| - 1];
      EnteredSum(ws[..|ws| - 1]) + if Enters(w) then w.Score.Value.value else 0.0
  }

  function EnteredSquares(ws: RawEvaluateResult): real {
    if ws == [] then 0.0
    else
      var w := ws[|ws| - 1];
      EnteredSquares(ws[..|ws| - 1]) + if Enters(w) then Mul(w.Score.Value.value, w.Score.Value.value) else 0.0
  }

  function Squares(xs: seq<real>): real {
    if xs == [] then 0.0 else Squares(xs[..|xs| - 1]) + Mul(xs[|xs| - 1], xs[|xs| - 1])
  }

  lemma SumsSnoc(xs: seq<real>, x: real)
    ensures Sum(xs + [x]) == Sum(xs) + x && Squares(xs + [x]) == Squares(xs) + Mul(x, x)
  {
    assert (xs + [x])[..|xs|] == xs;
  }

  lemma {:induction false} EnteredAre(ws: RawEvaluateResult, weights: Weights)
    ensures var xs := Values(Scored(ws));
            && |xs| == EnteredCount(ws) && Sum(xs) == EnteredSum(ws) && Squares(xs) == EnteredSquares(ws)
            && WeightedSum(Scored(ws), weights) == EnteredWeight(ws, weights)
  {
    hide Scored, WeightedSum, Sum, Squares, Values, Mul;
    NothingScored(ws, weights);
    NoSums();
    if ws == [] {
      assert ws[..0] == ws;
    } else {
      var n := |ws| - 1;
      EnteredAre(ws[..n], weights);
      ScoredStep(ws, n, weights);
      assert ws[..n + 1] == ws;
      if Enters(ws[n]) {
        SumsSnoc(Values(Scored(ws[..n])), ws[n].Score.Value.value);
      } else {
        assert Scored(ws) == Scored(ws[..n]);
      }
    }
  }

  lemma NoSums()
    ensures Sum([]) == 0.0 && Squares([]) == 0.0
  {
  }

  /** What the squared deviations from a point come to, by count, sum and squares. */
  function Quad(n: nat, s1: real, s2: real, mean: real): real {
    s2 - 2.0 * mean * s1 + n as real * (mean * mean)
  }

  lemma QuadStep(n: nat, s1: real, s2: real, mean: real, x: real)
    ensures Quad(n + 1, s1 + x, s2 + Mul(x, x), mean) == Quad(n, s1, s2, mean) + (x - mean) * (x - mean)
    ensures Quad(0, 0.0, 0.0, mean) == 0.0
  {
    assert (n + 1) as real == n as real + 1.0;
  }

  lemma {:induction false} DeviationsExpand(xs: seq<real>, mean: real)
    ensures SumSqDev(xs, mean) == Quad(|xs|, Sum(xs), Squares(xs), mean)
  {
    hide Quad, Mul;
    if xs == [] {
      QuadStep(0, 0.0, 0.0, mean, 0.0);
    } else {
      var n := |xs| - 1;
      DeviationsExpand(xs[..n], mean);
      QuadStep(n, Sum(xs[..n]), Squares(xs[..n]), mean, xs[n]);
    }
  }

  /** The population variance of values, by their sums. */
  ghost predicate IsVariance(v: real, n: nat, sum: real, squares: real) {
    v * (n as real * n as real) == n as real * squares - sum * sum
  }

  lemma VarianceIs(n: nat, s1: real, s2: real, mean: real, d: real)
    requires n > 0 && mean == s1 / n as real && d == Quad(n, s1, s2, mean)
    ensures IsVariance(d / n as real, n, s1, s2)
  {
    var m := n as real;
    var v := d / m;
    assert mean * m == s1 && v * m == d;
    assert v * (m * m) == d * m;
    assert d * m == m * s2 - 2.0 * (mean * m) * s1 + (mean * m) * (mean * m);
  }

  /** On windows none of which is Fatal the total is the weighted sum of those that
      enter, less lambda times their deviation once there are two: the root of the
      population variance. One Fatal window makes the total Fatal without a value. */
  lemma AggregateMeans(ws: RawEvaluateResult, weights: Weights, lambdaCons: real, sqrt: real -> real) returns (v: real)
    ensures var t, n := Aggregate(ws, weights, lambdaCons, sqrt), EnteredCount(ws);
            if exists i :: 0 <= i < |ws| && ws[i].Score.Fatal then t == ScoreTotal(true, None, None, None)
            else
              && !t.Fatal && t.ScoreRaw == Some(EnteredWeight(ws, weights))
              && (n < 2 ==> t.ConsistencyPenalty == Some(0.0))
              && (n >= 2 ==>
                  t.ConsistencyPenalty == Some(sqrt(v)) && IsVariance(v, n, EnteredSum(ws), EnteredSquares(ws)))
              && t.Value == Some(t.ScoreRaw.value - Mul(lambdaCons, t.ConsistencyPenalty.value))
  {
    hide *;
    v := 0.0;
    EnteredAre(ws, weights);
    if i :| 0 <= i < |ws| && ws[i].Score.Fatal {
      FatalIs(ws, i, weights, lambdaCons, sqrt);
    } else {
      NormalIs(ws, weights, lambdaCons, sqrt);
      var xs := Values(Scored(ws));
      if |xs| >= 2 {
        v := VarianceOf(xs, sqrt);
        PenalisedIs(WeightedSum(Scored(ws), weights), lambdaCons, sqrt(v));
      } else {
        PenalisedIs(WeightedSum(Scored(ws), weights), lambdaCons, 0.0);
      }
    }
  }

  lemma VarianceOf(xs: seq<real>, sqrt: real -> real) returns (v: real)
    requires xs != []
    ensures Sigma(sqrt, xs) == sqrt(v) && IsVariance(v, |xs|, Sum(xs), Squares(xs))
  {
    hide *;
    var mean := Sum(xs) / |xs| as real;
    v := SumSqDev(xs, mean) / |xs| as real;
    SigmaIs(sqrt, xs, mean, v);
    DeviationsExpand(xs, mean);
    VarianceIs(|xs|, Sum(xs), Squares(xs), mean, SumSqDev(xs, mean));
  }

  lemma SigmaIs(sqrt: real -> real, xs: seq<real>, mean: real, v: real)
    requires xs != [] && mean == Sum(xs) / |xs| as real && v == SumSqDev(xs, mean) / |xs| as real
    ensures Sigma(sqrt, xs) == sqrt(v)
  {
  }

  lemma PenalisedIs(raw: real, lambdaCons: real, sigma: real)
    ensures Penalised(raw, lambdaCons, sigma) == raw - Mul(lambdaCons, sigma)
  {
  }

  // ---------------------------------------------------------------- comparison

  /** a comes before b in Go's string order: at the first difference its character is
      smaller, or it ends there. */
  ghost predicate ComesBefore(a: string, b: string) {
    exists k :: DiffersAt(a, b, k)
  }

  ghost predicate DiffersAt(a: string, b: string, k: nat) {
    && k <= |a| && k < |b| && a[..k] == b[..k]
    && (k < |a| ==> a[k] < b[k])
  }

  lemma SameStart(a: string, b: string, k: nat)
    requires DiffersAt(a, b, k)
    ensures b != "" && (k > 0 ==> a != "" && a[0] == b[0])
  {
    if k > 0 {
      assert a[..k][0] == b[..k][0];
    }
  }

  lemma {:induction false} StrLessMeans(a: string, b: string)
    ensures StrLess(a, b) <==> ComesBefore(a, b)
  {
    if a == "" || b == "" || a[0] != b[0] {
      if StrLess(a, b) {
        assert DiffersAt(a, b, 0);
      }
      if k: nat :| DiffersAt(a, b, k) {
        SameStart(a, b, k);
      }
    } else {
      StrLessMeans(a[1..], b[1..]);
      if StrLess(a, b) {
        var k: nat :| DiffersAt(a[1..], b[1..], k);
        assert a[..k + 1] == [a[0]] + a[1..][..k] && b[..k + 1] == [b[0]] + b[1..][..k];
        assert DiffersAt(a, b, k + 1);
      }
      if k: nat :| DiffersAt(a, b, k) {
        assert k > 0;
        assert a[1..][..k - 1] == a[..k][1..] && b[1..][..k - 1] == b[..k][1..];
        assert DiffersAt(a[1..], b[1..], k - 1);
      }
    }
  }

  /** What ranks first: a value before a Fatal score, the higher of two values, and
      of two Fatal scores the smaller fingerprint. */
  lemma BetterMeans(a: Key, b: Key)
    requires RankableKey(a) && RankableKey(b)
    ensures CompareWithFp(a, b) < 0 <==>
            || (!a.score.Fatal && b.score.Fatal)
            || (!a.score.Fatal && !b.score.Fatal && a.score.Value.value > b.score.Value.value)
            || (a.score.Fatal && b.score.Fatal && ComesBefore(a.fp, b.fp))
  {
    hide ComesBefore;
    StrLessMeans(a.fp, b.fp);
    StrTotal(a.fp, b.fp);
  }
}
