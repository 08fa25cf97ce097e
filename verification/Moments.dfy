/** The fused single-pass moments against the separate array-building ones, over
    arbitrary float operations: equality of results is equality of bits, with no
    algebra assumed of +, -, *, / or pow. */
module Moments {

  /** A float is its bits. */
  datatype Float = Float(bits: nat)

  /** The float operations. IsZero is the comparison with 0, which other values
      than the literal may satisfy. */
  datatype Floats = Floats(
    zero: Float,
    three: Float,
    ofIntOp: nat -> Float,
    addOp: (Float, Float) -> Float,
    subOp: (Float, Float) -> Float,
    mulOp: (Float, Float) -> Float,
    divOp: (Float, Float) -> Float,
    sqrtOp: Float -> Float,
    pow15Op: Float -> Float,
    positiveOp: Float -> bool,
    isZeroOp: Float -> bool)
  {
    function OfInt(n: nat): Float { ofIntOp(n) }

    function Add(x: Float, y: Float): Float { addOp(x, y) }

    function Sub(x: Float, y: Float): Float { subOp(x, y) }

    function Mul(x: Float, y: Float): Float { mulOp(x, y) }

    function Div(x: Float, y: Float): Float { divOp(x, y) }

    function Sqrt(x: Float): Float { sqrtOp(x) }

    function Pow15(x: Float): Float { pow15Op(x) }

    predicate Positive(x: Float) { positiveOp(x) }

    predicate IsZero(x: Float) { isZeroOp(x) }
  }

  /** Positive, or the literal zero. */
  predicate NonNegative(f: Floats, x: Float) {
    f.Positive(x) || x == f.zero
  }

  /** The few facts about division by a count and square roots that are used:
      zero stays zero, a positive quotient is positive or underflows to a zero,
      and a root is the literal zero only for a non-negative argument. */
  ghost predicate Lawful(f: Floats) {
    && f.IsZero(f.zero) && !f.Positive(f.zero) && f.Sqrt(f.zero) == f.zero
    && (forall n: nat | n > 0 :: f.Div(f.zero, f.OfInt(n)) == f.zero)
    && (forall x: Float, n: nat | n > 0 && f.Positive(x) ::
          f.Positive(f.Div(x, f.OfInt(n))) <==> !f.IsZero(f.Div(x, f.OfInt(n))))
    && (forall x: Float, n: nat | n > 0 && f.Sqrt(f.Div(x, f.OfInt(n))) == f.zero :: NonNegative(f, x))
  }

  /** The running sum and its compensation. */
  datatype Kahan = Kahan(sum: Float, c: Float)

  function Added(f: Floats, k: Kahan, x: Float): Kahan {
    var y := f.Sub(x, k.c);
    var t := f.Add(k.sum, y);
    Kahan(t, f.Sub(f.Sub(t, k.sum), y))
  }

  function Summed(f: Floats, xs: seq<Float>): Kahan {
    if xs == [] then Kahan(f.zero, f.zero) else Added(f, Summed(f, xs[..|xs| - 1]), xs[|xs| - 1])
  }

  method KahanSum(f: Floats, series: seq<Float>) returns (sum: Float)
    ensures sum == Summed(f, series).sum
  {
    var c := f.zero;
    sum := f.zero;
    for i := 0 to |series|
      invariant Kahan(sum, c) == Summed(f, series[..i])
    {
      assert series[..i + 1][..i] == series[..i];
      var y := f.Sub(series[i], c);
      var t := f.Add(sum, y);
      c := f.Sub(f.Sub(t, sum), y);
      sum := t;
    }
    assert series[..|series|] == series;
  }

  function Mean(f: Floats, series: seq<Float>): Float {
    f.Div(Summed(f, series).sum, f.OfInt(|series|))
  }

  /** d*d, d*d*d and d*d*d*d in the order both programs multiply. */
  function Square(f: Floats, mean: Float, x: Float): Float {
    f.Mul(f.Sub(x, mean), f.Sub(x, mean))
  }

  function Cube(f: Floats, mean: Float, x: Float): Float {
    f.Mul(Square(f, mean, x), f.Sub(x, mean))
  }

  function Fourth(f: Floats, mean: Float, x: Float): Float {
    f.Mul(Square(f, mean, x), Square(f, mean, x))
  }

  function Squares(f: Floats, series: seq<Float>): seq<Float> {
    seq(|series|, i requires 0 <= i < |series| => Square(f, Mean(f, series), series[i]))
  }

  function Cubes(f: Floats, series: seq<Float>): seq<Float> {
    seq(|series|, i requires 0 <= i < |series| => Cube(f, Mean(f, series), series[i]))
  }

  function Fourths(f: Floats, series: seq<Float>): seq<Float> {
    seq(|series|, i requires 0 <= i < |series| => Fourth(f, Mean(f, series), series[i]))
  }

  /** The compensated sum of squared deviations. */
  function S2(f: Floats, series: seq<Float>): Float {
    Summed(f, Squares(f, series)).sum
  }

  // ---------------------------------------------------------------- the separate computations

  function StdDevOf(f: Floats, series: seq<Float>): Float {
    var n := |series|;
    if n < 2 then f.zero else f.Sqrt(f.Div(S2(f, series), f.OfInt(n - 1)))
  }

  function SkewnessOf(f: Floats, series: seq<Float>): Float {
    var n := |series|;
    if n < 3 then f.zero
    else
      var m2, m3 := f.Div(S2(f, series), f.OfInt(n)), f.Div(Summed(f, Cubes(f, series)).sum, f.OfInt(n));
      if f.IsZero(m2) then f.zero else f.Div(m3, f.Pow15(m2))
  }

  function ExcessKurtosisOf(f: Floats, series: seq<Float>): Float {
    var n := |series|;
    if n < 4 then f.zero
    else
      var m2, m4 := f.Div(S2(f, series), f.OfInt(n)), f.Div(Summed(f, Fourths(f, series)).sum, f.OfInt(n));
      if f.IsZero(m2) then f.zero else f.Sub(f.Div(m4, f.Mul(m2, m2)), f.three)
  }

  lemma SeparateUnfold(f: Floats, series: seq<Float>)
    ensures |Squares(f, series)| == |Cubes(f, series)| == |Fourths(f, series)| == |series|
    ensures Mean(f, series) == f.Div(Summed(f, series).sum, f.OfInt(|series|))
    ensures StdDevOf(f, series) ==
            if |series| < 2 then f.zero else f.Sqrt(f.Div(Summed(f, Squares(f, series)).sum, f.OfInt(|series| - 1)))
    ensures var n := |series|;
            var m2, m3 := f.Div(Summed(f, Squares(f, series)).sum, f.OfInt(n)),
              f.Div(Summed(f, Cubes(f, series)).sum, f.OfInt(n));
            SkewnessOf(f, series) == if n < 3 || f.IsZero(m2) then f.zero else f.Div(m3, f.Pow15(m2))
    ensures var n := |series|;
            var m2, m4 := f.Div(Summed(f, Squares(f, series)).sum, f.OfInt(n)),
              f.Div(Summed(f, Fourths(f, series)).sum, f.OfInt(n));
            ExcessKurtosisOf(f, series) ==
            if n < 4 || f.IsZero(m2) then f.zero else f.Sub(f.Div(m4, f.Mul(m2, m2)), f.three)
  {
  }

  lemma MeanIs(f: Floats, series: seq<Float>)
    ensures Mean(f, series) == f.Div(Summed(f, series).sum, f.OfInt(|series|))
  {
  }

  lemma Deviations(f: Floats, series: seq<Float>, i: nat)
    requires i < |series|
    ensures |Squares(f, series)| == |Cubes(f, series)| == |Fourths(f, series)| == |series|
    ensures var d := f.Sub(series[i], Mean(f, series));
            && Squares(f, series)[i] == f.Mul(d, d)
            && Cubes(f, series)[i] == f.Mul(f.Mul(d, d), d)
            && Fourths(f, series)[i] == f.Mul(f.Mul(d, d), f.Mul(d, d))
  {
  }

  method StdDev(f: Floats, series: seq<Float>) returns (r: Float)
    ensures r == StdDevOf(f, series)
  {
    hide *;
    SeparateUnfold(f, series);
    var n := |series|;
    if n < 2 {
      return f.zero;
    }
    var sum := KahanSum(f, series);
    var mean := f.Div(sum, f.OfInt(n));
    var devsq := new Float[n];
    for i := 0 to n
      invariant devsq[..i] == Squares(f, series)[..i]
    {
      Deviations(f, series, i);
      var d := f.Sub(series[i], mean);
      devsq[i] := f.Mul(d, d);
      assert devsq[..i + 1] == devsq[..i] + [devsq[i]];
    }
    assert devsq[..] == Squares(f, series);
    var s2 := KahanSum(f, devsq[..]);
    r := f.Sqrt(f.Div(s2, f.OfInt(n - 1)));
  }

  method Skewness(f: Floats, series: seq<Float>) returns (r: Float)
    ensures r == SkewnessOf(f, series)
  {
    hide *;
    SeparateUnfold(f, series);
    var n := |series|;
    if n < 3 {
      return f.zero;
    }
    var sum := KahanSum(f, series);
    var mean := f.Div(sum, f.OfInt(n));
    var m2sum, m3sum := new Float[n], new Float[n];
    for i := 0 to n
      invariant m2sum[..i] == Squares(f, series)[..i] && m3sum[..i] == Cubes(f, series)[..i]
    {
      Deviations(f, series, i);
      var d := f.Sub(series[i], mean);
      var dd := f.Mul(d, d);
      m2sum[i] := dd;
      m3sum[i] := f.Mul(dd, d);
      assert m2sum[..i + 1] == m2sum[..i] + [m2sum[i]] && m3sum[..i + 1] == m3sum[..i] + [m3sum[i]];
    }
    assert m2sum[..] == Squares(f, series) && m3sum[..] == Cubes(f, series);
    var s2 := KahanSum(f, m2sum[..]);
    var s3 := KahanSum(f, m3sum[..]);
    var m2, m3 := f.Div(s2, f.OfInt(n)), f.Div(s3, f.OfInt(n));
    r := if f.IsZero(m2) then f.zero else f.Div(m3, f.Pow15(m2));
  }

  method ExcessKurtosis(f: Floats, series: seq<Float>) returns (r: Float)
    ensures r == ExcessKurtosisOf(f, series)
  {
    hide *;
    SeparateUnfold(f, series);
    var n := |series|;
    if n < 4 {
      return f.zero;
    }
    var sum := KahanSum(f, series);
    var mean := f.Div(sum, f.OfInt(n));
    var m2sum, m4sum := new Float[n], new Float[n];
    for i := 0 to n
      invariant m2sum[..i] == Squares(f, series)[..i] && m4sum[..i] == Fourths(f, series)[..i]
    {
      Deviations(f, series, i);
      var d := f.Sub(series[i], mean);
      var dd := f.Mul(d, d);
      m2sum[i] := dd;
      m4sum[i] := f.Mul(dd, dd);
      assert m2sum[..i + 1] == m2sum[..i] + [m2sum[i]] && m4sum[..i + 1] == m4sum[..i] + [m4sum[i]];
    }
    assert m2sum[..] == Squares(f, series) && m4sum[..] == Fourths(f, series);
    var s2 := KahanSum(f, m2sum[..]);
    var s4 := KahanSum(f, m4sum[..]);
    var m2, m4 := f.Div(s2, f.OfInt(n)), f.Div(s4, f.OfInt(n));
    r := if f.IsZero(m2) then f.zero else f.Sub(f.Div(m4, f.Mul(m2, m2)), f.three);
  }

  // ---------------------------------------------------------------- the fused loop

  datatype SharpeStats = SharpeStats(ObservedSharpe: Float, Skew: Float, ExcessKurt: Float, HorizonT: nat)

  /** What the loop's accumulators are turned into. */
  function Finished(f: Floats, n: nat, mean: Float, s2: Float, s3: Float, s4: Float): (Float, SharpeStats)
    requires n >= 2
  {
    var std := if f.Positive(s2) then f.Sqrt(f.Div(s2, f.OfInt(n - 1))) else f.zero;
    var sharpe := if f.Positive(std) then f.Div(mean, std) else f.zero;
    var m2 := f.Div(s2, f.OfInt(n));
    var skew := if n >= 3 && f.Positive(m2) then f.Div(f.Div(s3, f.OfInt(n)), f.Pow15(m2)) else f.zero;
    var kurt := if n >= 4 && f.Positive(m2)
                then f.Sub(f.Div(f.Div(s4, f.OfInt(n)), f.Mul(m2, m2)), f.three) else f.zero;
    (std, SharpeStats(sharpe, skew, kurt, n))
  }

  function FusedOf(f: Floats, series: seq<Float>): (Float, SharpeStats) {
    if |series| < 2 then (f.zero, SharpeStats(f.zero, f.zero, f.zero, |series|))
    else Finished(f, |series|, Mean(f, series), S2(f, series), Summed(f, Cubes(f, series)).sum,
                  Summed(f, Fourths(f, series)).sum)
  }

  lemma SummedSnoc(f: Floats, xs: seq<Float>, i: nat)
    requires i < |xs|
    ensures Summed(f, xs[..i + 1]) == Added(f, Summed(f, xs[..i]), xs[i])
    ensures var k := Summed(f, xs[..i]);
            var y := f.Sub(xs[i], k.c);
            Summed(f, xs[..i + 1]) == Kahan(f.Add(k.sum, y), f.Sub(f.Sub(f.Add(k.sum, y), k.sum), y))
  {
    assert xs[..i + 1][..i] == xs[..i];
  }

  /** One pass with three compensated accumulators computes the three sums the
      separate functions take over arrays. */
  method ComputeSharpeStats(f: Floats, series: seq<Float>) returns (std: Float, stats: SharpeStats)
    ensures (std, stats) == FusedOf(f, series)
  {
    hide *;
    var n := |series|;
    FusedUnfolds(f, series);
    if n < 2 {
      return f.zero, SharpeStats(f.zero, f.zero, f.zero, n);
    }
    var sum := KahanSum(f, series);
    var mean := f.Div(sum, f.OfInt(n));
    assert mean == Mean(f, series) by { MeanIs(f, series); }
    ghost var d2s, d3s, d4s := Squares(f, series), Cubes(f, series), Fourths(f, series);
    var s2, c2, s3, c3, s4, c4 := f.zero, f.zero, f.zero, f.zero, f.zero, f.zero;
    SummedNothing(f, d2s, d3s, d4s);
    for i := 0 to n
      invariant Kahan(s2, c2) == Summed(f, d2s[..i])
      invariant Kahan(s3, c3) == Summed(f, d3s[..i])
      invariant Kahan(s4, c4) == Summed(f, d4s[..i])
    {
      SummedSnoc(f, d2s, i);
      SummedSnoc(f, d3s, i);
      SummedSnoc(f, d4s, i);
      var d := f.Sub(series[i], mean);
      var d2 := f.Mul(d, d);
      var d3 := f.Mul(d2, d);
      var d4 := f.Mul(d2, d2);
      Deviations(f, series, i);
      var y := f.Sub(d2, c2);
      var t := f.Add(s2, y);
      c2 := f.Sub(f.Sub(t, s2), y);
      s2 := t;
      y := f.Sub(d3, c3);
      t := f.Add(s3, y);
      c3 := f.Sub(f.Sub(t, s3), y);
      s3 := t;
      y := f.Sub(d4, c4);
      t := f.Add(s4, y);
      c4 := f.Sub(f.Sub(t, s4), y);
      s4 := t;
    }
    assert d2s[..n] == d2s && d3s[..n] == d3s && d4s[..n] == d4s;
    std, stats := Finish(f, n, mean, s2, s3, s4);
  }

  method Finish(f: Floats, n: nat, mean: Float, s2: Float, s3: Float, s4: Float)
    returns (std: Float, stats: SharpeStats)
    requires n >= 2
    ensures (std, stats) == Finished(f, n, mean, s2, s3, s4)
  {
    std := f.zero;
    if f.Positive(s2) {
      std := f.Sqrt(f.Div(s2, f.OfInt(n - 1)));
    }
    var sharpe, skew, kurt := f.zero, f.zero, f.zero;
    if f.Positive(std) {
      sharpe := f.Div(mean, std);
    }
    var m2 := f.Div(s2, f.OfInt(n));
    if n >= 3 {
      if f.Positive(m2) {
        skew := f.Div(f.Div(s3, f.OfInt(n)), f.Pow15(m2));
      }
    }
    if n >= 4 {
      if f.Positive(m2) {
        kurt := f.Sub(f.Div(f.Div(s4, f.OfInt(n)), f.Mul(m2, m2)), f.three);
      }
    }
    stats := SharpeStats(sharpe, skew, kurt, n);
  }

  lemma FusedUnfolds(f: Floats, series: seq<Float>)
    ensures |Squares(f, series)| == |Cubes(f, series)| == |Fourths(f, series)| == |series|
    ensures |series| < 2 ==> FusedOf(f, series) == (f.zero, SharpeStats(f.zero, f.zero, f.zero, |series|))
    ensures |series| >= 2 ==>
              FusedOf(f, series) == Finished(f, |series|, Mean(f, series), Summed(f, Squares(f, series)).sum,
                                             Summed(f, Cubes(f, series)).sum, Summed(f, Fourths(f, series)).sum)
  {
  }

  lemma SummedNothing(f: Floats, a: seq<Float>, b: seq<Float>, c: seq<Float>)
    ensures Summed(f, a[..0]) == Summed(f, b[..0]) == Summed(f, c[..0]) == Kahan(f.zero, f.zero)
  {
  }

  // ---------------------------------------------------------------- agreement

  /** The fused results are the separate ones. */
  predicate Agree(f: Floats, series: seq<Float>) {
    var (std, stats) := FusedOf(f, series);
    && std == StdDevOf(f, series) && stats.Skew == SkewnessOf(f, series)
       && stats.ExcessKurt == ExcessKurtosisOf(f, series)
  }

  /** For every series of two or more returns the fused standard deviation,
      skewness and excess kurtosis are exactly the separate ones if and only if
      the compensated sum of squared deviations came out non-negative. */
  lemma FusedAgreesIff(f: Floats, series: seq<Float>)
    requires Lawful(f) && |series| >= 2
    ensures Agree(f, series) <==> NonNegative(f, S2(f, series))
  {
    var n, s2 := |series|, S2(f, series);
    if NonNegative(f, s2) {
      if !f.Positive(s2) {
        assert f.Div(s2, f.OfInt(n)) == f.zero && f.Div(s2, f.OfInt(n - 1)) == f.zero;
      } else {
        assert f.Positive(f.Div(s2, f.OfInt(n))) <==> !f.IsZero(f.Div(s2, f.OfInt(n)));
      }
    }
  }

  lemma ShortSeriesAgree(f: Floats, series: seq<Float>)
    requires |series| < 2
    ensures Agree(f, series) && FusedOf(f, series).1 == SharpeStats(f.zero, f.zero, f.zero, |series|)
  {
  }

  /** A constant series whose mean is its value has no deviations to report. */
  lemma ConstantSeries(f: Floats, series: seq<Float>)
    requires Lawful(f) && |series| >= 2
    requires forall i | 0 <= i < |series| :: Square(f, Mean(f, series), series[i]) == f.zero
    requires f.Sub(f.zero, f.zero) == f.zero && f.Add(f.zero, f.zero) == f.zero
    ensures FusedOf(f, series) == (f.zero, SharpeStats(f.zero, f.zero, f.zero, |series|))
    ensures Agree(f, series)
  {
    SumOfZeros(f, Squares(f, series));
    FusedAgreesIff(f, series);
  }

  lemma {:induction false} SumOfZeros(f: Floats, xs: seq<Float>)
    requires forall i | 0 <= i < |xs| :: xs[i] == f.zero
    requires f.Sub(f.zero, f.zero) == f.zero && f.Add(f.zero, f.zero) == f.zero
    ensures Summed(f, xs) == Kahan(f.zero, f.zero)
  {
    if xs != [] {
      SumOfZeros(f, xs[..|xs| - 1]);
    }
  }
}
