/** What the return statistics are when the float operations happen to be exact. */
module MomentsLaws {
  import opened Reals
  import opened Moments

  /** Every operation is the one of the real numbers the floats stand for. */
  ghost predicate Exact(f: Floats, v: Float -> real) {
    && v(f.zero) == 0.0 && v(f.three) == 3.0
    && (forall n: nat :: v(f.OfInt(n)) == n as real)
    && (forall x, y :: v(f.Add(x, y)) == v(x) + v(y))
    && (forall x, y :: v(f.Sub(x, y)) == v(x) - v(y))
    && (forall x, y :: v(f.Mul(x, y)) == Reals.Mul(v(x), v(y)))
    && (forall x, y | v(y) != 0.0 :: Reals.Mul(v(f.Div(x, y)), v(y)) == v(x))
    && (forall x | v(x) >= 0.0 :: v(f.Sqrt(x)) >= 0.0 && Reals.Mul(v(f.Sqrt(x)), v(f.Sqrt(x))) == v(x))
    && (forall x | v(x) > 0.0 ::
          v(f.Pow15(x)) > 0.0 && Reals.Mul(v(f.Pow15(x)), v(f.Pow15(x))) == Power(v(x), 3))
    && (forall x :: f.Positive(x) <==> v(x) > 0.0)
  }

  ghost function Power(x: real, k: nat): real {
    if k == 0 then 1.0 else Reals.Mul(Power(x, k - 1), x)
  }

  /** The sum of the k-th powers of the deviations from c. */
  ghost function DevSum(v: Float -> real, xs: seq<Float>, c: real, k: nat): real {
    if xs == [] then 0.0
    else DevSum(v, xs[..|xs| - 1], c, k) + Power(v(xs[|xs| - 1]) - c, k)
  }

  /** The compensation stays zero and the sum is the sum. */
  lemma {:induction false} KahanIsExact(f: Floats, v: Float -> real, xs: seq<Float>, ys: seq<Float>, c: real, k: nat)
    requires Exact(f, v) && |xs| == |ys|
    requires forall i | 0 <= i < |ys| :: v(ys[i]) == Power(v(xs[i]) - c, k)
    ensures v(Summed(f, ys).sum) == DevSum(v, xs, c, k) && v(Summed(f, ys).c) == 0.0
  {
    hide Power;
    if ys != [] {
      KahanIsExact(f, v, xs[..|xs| - 1], ys[..|ys| - 1], c, k);
    }
  }

  lemma Powers(x: real)
    ensures Power(x, 1) == x && Power(x, 2) == Reals.Mul(x, x)
    ensures Power(x, 3) == Reals.Mul(Reals.Mul(x, x), x)
    ensures Power(x, 4) == Reals.Mul(Reals.Mul(x, x), Reals.Mul(x, x))
  {
    assert Power(x, 1) == Reals.Mul(1.0, x) == x;
    assert Power(x, 2) == Reals.Mul(Power(x, 1), x);
    assert Power(x, 3) == Reals.Mul(Power(x, 2), x);
    assert Power(x, 4) == Reals.Mul(Power(x, 3), x);
    FourFactors(x);
  }

  lemma FourFactors(x: real)
    ensures Reals.Mul(Reals.Mul(Reals.Mul(x, x), x), x) == Reals.Mul(Reals.Mul(x, x), Reals.Mul(x, x))
  {
    var y := x * x;
    assert y * x * x == y * (x * x);
  }

  /** The sums the statistics are taken from. */
  lemma SumsAreExact(f: Floats, v: Float -> real, series: seq<Float>)
    requires Exact(f, v)
    ensures |Cubes(f, series)| == |Fourths(f, series)| == |series|
    ensures v(Summed(f, series).sum) == DevSum(v, series, 0.0, 1)
    ensures var m := v(Mean(f, series));
            && v(S2(f, series)) == DevSum(v, series, m, 2)
            && v(Summed(f, Cubes(f, series)).sum) == DevSum(v, series, m, 3)
            && v(Summed(f, Fourths(f, series)).sum) == DevSum(v, series, m, 4)
  {
    var m := v(Mean(f, series));
    hide Power, Reals.Mul;
    forall i | 0 <= i < |series|
      ensures v(series[i]) == Power(v(series[i]) - 0.0, 1)
      ensures v(Squares(f, series)[i]) == Power(v(series[i]) - m, 2)
      ensures v(Cubes(f, series)[i]) == Power(v(series[i]) - m, 3)
      ensures v(Fourths(f, series)[i]) == Power(v(series[i]) - m, 4)
    {
      Powers(v(series[i]));
      Powers(v(series[i]) - m);
      Deviations(f, series, i);
    }
    KahanIsExact(f, v, series, series, 0.0, 1);
    KahanIsExact(f, v, series, Squares(f, series), m, 2);
    KahanIsExact(f, v, series, Cubes(f, series), m, 3);
    KahanIsExact(f, v, series, Fourths(f, series), m, 4);
  }

  /** Two or more returns with sum of squared deviations d2, of cubes d3 and of
      fourth powers d4 have these statistics. */
  ghost predicate IsStd(n: nat, d2: real, std: real) {
    std >= 0.0 && std * std * (n - 1) as real == d2
  }

  ghost predicate IsSharpe(mean: real, std: real, sharpe: real) {
    if std > 0.0 then sharpe * std == mean else sharpe == 0.0
  }

  ghost predicate IsSkew(n: nat, d2: real, d3: real, skew: real) {
    if n >= 3 && d2 > 0.0
    then skew * skew * (d2 * d2 * d2) == n as real * (d3 * d3) && (skew >= 0.0 <==> d3 >= 0.0)
    else skew == 0.0
  }

  ghost predicate IsKurt(n: nat, d2: real, d4: real, kurt: real) {
    if n >= 4 && d2 > 0.0 then (kurt + 3.0) * (d2 * d2) == n as real * d4 else kurt == 0.0
  }

  lemma SquareNonneg(x: real)
    ensures Power(x, 2) >= 0.0
  {
    Powers(x);
    if x >= 0.0 {
      MulNonneg(x, x);
    } else {
      MulNonneg(-x, -x);
      assert -x * -x == x * x;
    }
  }

  lemma {:induction false} SquaresNonneg(v: Float -> real, xs: seq<Float>, c: real)
    ensures DevSum(v, xs, c, 2) >= 0.0
  {
    if xs != [] {
      SquaresNonneg(v, xs[..|xs| - 1], c);
      SquareNonneg(v(xs[|xs| - 1]) - c);
    }
  }

  lemma RootSquared(s: real, q: real, d: real, n: real)
    requires Reals.Mul(s, s) == q && Reals.Mul(q, n) == d
    ensures s * s * n == d
  {
  }

  lemma QuotientSign(q: real, n: real, d: real)
    requires n > 0.0 && Reals.Mul(q, n) == d
    ensures (q > 0.0 <==> d > 0.0) && (q >= 0.0 <==> d >= 0.0) && (q == 0.0 ==> d == 0.0)
  {
    MulOrder(q, 0.0, n);
    MulZero(n);
  }

  lemma SkewIs(skew: real, p: real, m2: real, m3: real, n: real, d2: real, d3: real)
    requires n > 0.0 && m2 > 0.0 && p > 0.0
    requires Reals.Mul(m2, n) == d2 && Reals.Mul(m3, n) == d3
    requires Reals.Mul(p, p) == Power(m2, 3) && Reals.Mul(skew, p) == m3
    ensures skew * skew * (d2 * d2 * d2) == n * (d3 * d3) && (skew >= 0.0 <==> d3 >= 0.0)
  {
    Powers(m2);
    Cubed(m2, n, d2);
    Rearranged(skew, p, m2 * m2 * m2, m3, n);
    SameSign(skew, p, m3);
    SameSign(m3, n, d3);
    assert d3 * d3 == m3 * n * (m3 * n);
  }

  lemma SameSign(a: real, b: real, c: real)
    requires b > 0.0 && Reals.Mul(a, b) == c
    ensures a >= 0.0 <==> c >= 0.0
  {
    MulOrder(-a, 0.0, b);
    MulAdd(a, -a, b);
    MulZero(b);
  }

  lemma Cubed(m: real, n: real, d: real)
    requires Reals.Mul(m, n) == d
    ensures d * d * d == m * m * m * (n * n * n)
  {
    assert d * d == m * m * (n * n);
    var a, b := m * m, n * n;
    assert d * d * d == a * b * (m * n);
    Exchange(a, b, m, n);
  }

  lemma Exchange(a: real, b: real, m: real, n: real)
    ensures a * b * (m * n) == a * m * (b * n)
  {
  }

  lemma Rearranged(k: real, p: real, q: real, m3: real, n: real)
    requires p * p == q && k * p == m3
    ensures k * k * (q * (n * n * n)) == n * (m3 * n * (m3 * n))
  {
    Exchange(k, p, k, p);
    assert k * k * q == m3 * m3;
    var c := n * n * n;
    assert k * k * (q * c) == k * k * q * c;
    Exchange(m3, n, m3, n);
    var mm, nn := m3 * m3, n * n;
    assert m3 * n * (m3 * n) == mm * nn;
    assert n * (mm * nn) == mm * (nn * n);
  }

  lemma KurtosisIs(kurt: real, m2: real, m4: real, n: real, d2: real, d4: real)
    requires n > 0.0 && m2 > 0.0
    requires Reals.Mul(m2, n) == d2 && Reals.Mul(m4, n) == d4 && Reals.Mul(kurt + 3.0, Reals.Mul(m2, m2)) == m4
    ensures (kurt + 3.0) * (d2 * d2) == n * d4
  {
    Exchange(m2, n, m2, n);
    var k, mm, nn := kurt + 3.0, m2 * m2, n * n;
    assert d2 * d2 == mm * nn;
    assert k * (mm * nn) == k * mm * nn;
    assert n * d4 == m4 * nn;
  }

  /** Under exact arithmetic the mean times the count is the sum, and the standard
      deviation, Sharpe ratio, skewness and excess kurtosis are the textbook ones. */
  lemma StatsMean(f: Floats, v: Float -> real, series: seq<Float>)
    requires Exact(f, v) && |series| >= 2
    ensures var (std, stats) := FusedOf(f, series);
            var n, m, d2 := |series|, v(Mean(f, series)), DevSum(v, series, v(Mean(f, series)), 2);
            && Reals.Mul(m, n as real) == DevSum(v, series, 0.0, 1) && stats.HorizonT == n
            && IsStd(n, d2, v(std)) && IsSharpe(m, v(std), v(stats.ObservedSharpe))
            && IsSkew(n, d2, DevSum(v, series, m, 3), v(stats.Skew))
            && IsKurt(n, d2, DevSum(v, series, m, 4), v(stats.ExcessKurt))
  {
    hide *;
    var s3, s4 := Summed(f, Cubes(f, series)).sum, Summed(f, Fourths(f, series)).sum;
    SumsAreExact(f, v, series);
    SquaresNonneg(v, series, v(Mean(f, series)));
    FusedIs(f, series);
    MeanIsExact(f, v, series);
    FinishedMeans(f, v, |series|, Mean(f, series), S2(f, series), s3, s4);
  }

  lemma FusedIs(f: Floats, series: seq<Float>)
    requires |series| >= 2
    ensures FusedOf(f, series) == Finished(f, |series|, Mean(f, series), S2(f, series), Summed(f, Cubes(f, series)).sum,
                                           Summed(f, Fourths(f, series)).sum)
  {
  }

  lemma FinishedMeans(f: Floats, v: Float -> real, n: nat, mean: Float, s2: Float, s3: Float, s4: Float)
    requires Exact(f, v) && n >= 2 && v(s2) >= 0.0
    ensures var (std, stats) := Finished(f, n, mean, s2, s3, s4);
            && stats.HorizonT == n && IsStd(n, v(s2), v(std)) && IsSharpe(v(mean), v(std), v(stats.ObservedSharpe))
            && IsSkew(n, v(s2), v(s3), v(stats.Skew)) && IsKurt(n, v(s2), v(s4), v(stats.ExcessKurt))
  {
    var (std, stats) := Finished(f, n, mean, s2, s3, s4);
    hide IsStd, IsSharpe, IsSkew, IsKurt, Exact;
    StdIs(f, v, n, s2, std);
    SharpeIs(f, v, mean, std, stats.ObservedSharpe);
    SkewMeans(f, v, n, s2, s3, stats.Skew);
    KurtosisMeans(f, v, n, s2, s4, stats.ExcessKurt);
  }

  lemma MeanIsExact(f: Floats, v: Float -> real, series: seq<Float>)
    requires Exact(f, v) && series != []
    ensures Reals.Mul(v(Mean(f, series)), |series| as real) == v(Summed(f, series).sum)
  {
    MeanIs(f, series);
    DivideByCount(f, v, Summed(f, series).sum, |series|);
  }

  lemma DivideByCount(f: Floats, v: Float -> real, x: Float, n: nat)
    requires Exact(f, v) && n > 0
    ensures Reals.Mul(v(f.Div(x, f.OfInt(n))), n as real) == v(x)
  {
    assert v(f.OfInt(n)) == n as real;
  }

  lemma StdIs(f: Floats, v: Float -> real, n: nat, s2: Float, std: Float)
    requires Exact(f, v) && n >= 2 && v(s2) >= 0.0
    requires std == if f.Positive(s2) then f.Sqrt(f.Div(s2, f.OfInt(n - 1))) else f.zero
    ensures IsStd(n, v(s2), v(std))
  {
    hide Reals.Mul;
    var q := f.Div(s2, f.OfInt(n - 1));
    DivideByCount(f, v, s2, n - 1);
    QuotientSign(v(q), (n - 1) as real, v(s2));
    RootIs(f, v, q, s2, n, std);
  }

  lemma RootIs(f: Floats, v: Float -> real, q: Float, s2: Float, n: nat, std: Float)
    requires Exact(f, v) && n >= 2 && v(s2) >= 0.0 && Reals.Mul(v(q), (n - 1) as real) == v(s2)
    requires v(q) >= 0.0 && std == if f.Positive(s2) then f.Sqrt(q) else f.zero
    ensures IsStd(n, v(s2), v(std))
  {
    hide Reals.Mul, IsStd, Power;
    assert f.Positive(s2) <==> v(s2) > 0.0;
    assert v(std) >= 0.0 && if v(s2) > 0.0 then Reals.Mul(v(std), v(std)) == v(q) else v(std) == 0.0;
    StdSquared(v(std), v(q), v(s2), n);
  }

  lemma StdSquared(s: real, q: real, d: real, n: nat)
    requires n >= 2 && d >= 0.0 && Reals.Mul(q, (n - 1) as real) == d
    requires s >= 0.0 && if d > 0.0 then Reals.Mul(s, s) == q else s == 0.0
    ensures IsStd(n, d, s)
  {
    var k := (n - 1) as real;
    if d > 0.0 {
      RootSquared(s, q, d, k);
    } else {
      assert s * s == 0.0;
    }
  }

  lemma SkewMeans(f: Floats, v: Float -> real, n: nat, s2: Float, s3: Float, skew: Float)
    requires Exact(f, v) && n >= 2
    requires var m2 := f.Div(s2, f.OfInt(n));
             skew == if n >= 3 && f.Positive(m2) then f.Div(f.Div(s3, f.OfInt(n)), f.Pow15(m2)) else f.zero
    ensures IsSkew(n, v(s2), v(s3), v(skew))
  {
    hide Reals.Mul, Power;
    var m2, m3 := f.Div(s2, f.OfInt(n)), f.Div(s3, f.OfInt(n));
    DivideByCount(f, v, s2, n);
    DivideByCount(f, v, s3, n);
    QuotientSign(v(m2), n as real, v(s2));
    assert f.Positive(m2) <==> v(m2) > 0.0;
    if n >= 3 && f.Positive(m2) {
      var p := f.Pow15(m2);
      assert v(p) > 0.0 && Reals.Mul(v(p), v(p)) == Power(v(m2), 3) && Reals.Mul(v(skew), v(p)) == v(m3);
      hide Exact;
      SkewIs(v(skew), v(p), v(m2), v(m3), n as real, v(s2), v(s3));
    }
  }

  lemma KurtosisMeans(f: Floats, v: Float -> real, n: nat, s2: Float, s4: Float, kurt: Float)
    requires Exact(f, v) && n >= 2
    requires var m2 := f.Div(s2, f.OfInt(n));
             kurt == if n >= 4 && f.Positive(m2)
                     then f.Sub(f.Div(f.Div(s4, f.OfInt(n)), f.Mul(m2, m2)), f.three) else f.zero
    ensures IsKurt(n, v(s2), v(s4), v(kurt))
  {
    hide Reals.Mul, Power;
    var m2, m4 := f.Div(s2, f.OfInt(n)), f.Div(s4, f.OfInt(n));
    DivideByCount(f, v, s2, n);
    DivideByCount(f, v, s4, n);
    QuotientSign(v(m2), n as real, v(s2));
    assert f.Positive(m2) <==> v(m2) > 0.0;
    if n >= 4 && f.Positive(m2) {
      var mm := f.Mul(m2, m2);
      var k := f.Div(m4, mm);
      MulOrder(v(m2), 0.0, v(m2));
      assert v(mm) == Reals.Mul(v(m2), v(m2)) > 0.0;
      assert Reals.Mul(v(k), v(mm)) == v(m4) && v(kurt) == v(k) - 3.0;
      hide Exact;
      KurtosisIs(v(kurt), v(m2), v(m4), n as real, v(s2), v(s4));
    }
  }

  lemma SharpeIs(f: Floats, v: Float -> real, mean: Float, std: Float, sharpe: Float)
    requires Exact(f, v) && sharpe == if f.Positive(std) then f.Div(mean, std) else f.zero
    ensures IsSharpe(v(mean), v(std), v(sharpe))
  {
  }
}
