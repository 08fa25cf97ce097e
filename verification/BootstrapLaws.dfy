/** What a bootstrap report means, without the functions it is computed with: which
    returns a path takes, what its outcome is, and which order statistics the
    report shows. */
module BootstrapLaws {
  import opened Reals
  import opened Bootstrap

  // ---------------------------------------------------------------- the draws

  /** The top 53 of 64 bits. */
  lemma UniformMeans(word: nat, top: nat)
    requires top * 2048 <= word < (top + 1) * 2048
    ensures Uniform(word) * 9_007_199_254_740_992.0 == top as real
  {
    assert word / 2048 == top;
  }

  lemma FloorFrom(a: real, b: real, k: int)
    requires b < 0.0
    ensures (a / b).Floor >= k <==> a <= k as real * b
  {
    var x, y := a / b, k as real;
    assert x * b == a;
    TimesNegative(x, y, b);
    assert x.Floor >= k <==> x >= y;
  }

  lemma TimesNegative(x: real, y: real, b: real)
    requires b < 0.0
    ensures x >= y <==> x * b <= y * b
  {
    assert (x - y) * -b == y * b - x * b;
    if x >= y {
      MulNonneg(x - y, -b);
    } else {
      MulPositive(y - x, -b);
      assert (y - x) * -b == x * b - y * b;
    }
  }

  /** A block runs on past its k-th row with the tail of a geometric law: exactly
      when log(1 - u) is at most k times log(1 - 1/mean); a mean of at most 1 gives
      blocks of one row. */
  lemma BlockLenMeans(p: Plan, w: nat, k: nat)
    requires p.Valid() && k >= 1
    ensures p.blockLenMean <= 1 ==> BlockLen(p, w) == 1
    ensures p.blockLenMean > 1 ==>
              (BlockLen(p, w) > k <==>
               p.num.log(1.0 - Uniform(p.rng(w + 1))) <= k as real * p.num.log(1.0 - 1.0 / p.blockLenMean as real))
  {
    p.LogIsOk();
    if p.blockLenMean > 1 {
      var pg := 1.0 / p.blockLenMean as real;
      assert p.PGeom() == pg && 0.0 < pg < 1.0;
      FloorFrom(p.num.log(1.0 - Uniform(p.rng(w + 1))), p.num.log(1.0 - pg), k);
    }
  }

  // ---------------------------------------------------------------- the indices of a path

  /** How long the first n blocks drawn from word w on run. */
  ghost function LenSum(p: Plan, w: nat, n: nat): nat
    requires p.Valid()
    decreases n
  {
    if n == 0 then 0 else BlockLen(p, w) + LenSum(p, w + 2, n - 1)
  }

  /** A path of m rows uses the n blocks it takes to reach m: block b starts at its
      word's remainder and runs over the circle. */
  ghost predicate MadeOfBlocks(p: Plan, w: nat, m: nat, n: nat, idx: seq<nat>)
    requires p.Valid() && p.N() > 0
  {
    && |idx| == m <= LenSum(p, w, n) && (n > 0 ==> LenSum(p, w, n - 1) < m)
    && forall b: nat, j: nat | b < n && j < BlockLen(p, w + 2 * b) && LenSum(p, w, b) + j < m ::
         RowIs(p, w, b, j, idx)
  }

  ghost predicate RowIs(p: Plan, w: nat, b: nat, j: nat, idx: seq<nat>)
    requires p.Valid() && p.N() > 0 && LenSum(p, w, b) + j < |idx|
  {
    idx[LenSum(p, w, b) + j] == (p.rng(w + 2 * b) % p.N() + j) % p.N()
  }

  lemma {:induction false} BlocksMean(p: Plan, w: nat, m: nat) returns (n: nat)
    requires p.Valid() && p.N() > 0
    ensures NextWord(p, w, m) == w + 2 * n && MadeOfBlocks(p, w, m, n, Indices(p, w, m))
    decreases m
  {
    hide *;
    n := 0;
    NoMoreIndices(p, w);
    NoBlocks(p, w);
    if m > 0 {
      IndicesStep(p, w, m);
      var take := Min(BlockLen(p, w), m);
      var rest := BlocksMean(p, w + 2, m - take);
      n := rest + 1;
      BlocksStep(p, w, m, rest, Indices(p, w, m), Indices(p, w + 2, m - take));
    }
  }

  lemma NoBlocks(p: Plan, w: nat)
    requires p.Valid() && p.N() > 0
    ensures MadeOfBlocks(p, w, 0, 0, [])
  {
  }

  lemma LenStep(p: Plan, w: nat, n: nat)
    requires p.Valid() && n > 0
    ensures LenSum(p, w, n) == BlockLen(p, w) + LenSum(p, w + 2, n - 1) && LenSum(p, w, 0) == 0
  {
    hide BlockLen;
  }

  lemma BlocksStep(p: Plan, w: nat, m: nat, rest: nat, idx: seq<nat>, tail: seq<nat>)
    requires p.Valid() && p.N() > 0 && m > 0
    requires var take := Min(BlockLen(p, w), m);
             && idx == Block(Start(p, w), take, p.N()) + tail
             && MadeOfBlocks(p, w + 2, m - take, rest, tail)
    ensures MadeOfBlocks(p, w, m, rest + 1, idx)
  {
    hide BlockLen, Block, LenSum, Start;
    var take := Min(BlockLen(p, w), m);
    LenStep(p, w, rest + 1);
    NoLength(p, w + 2, rest);
    if rest > 0 {
      LenStep(p, w, rest);
    }
    forall b: nat, j: nat | b < rest + 1 && j < BlockLen(p, w + 2 * b) && LenSum(p, w, b) + j < m
      ensures RowIs(p, w, b, j, idx)
    {
      BlockRow(p, w, m, rest, idx, tail, b, j);
    }
  }

  lemma BlockRow(p: Plan, w: nat, m: nat, rest: nat, idx: seq<nat>, tail: seq<nat>, b: nat, j: nat)
    requires p.Valid() && p.N() > 0 && m > 0
    requires var take := Min(BlockLen(p, w), m);
             && idx == Block(Start(p, w), take, p.N()) + tail
             && MadeOfBlocks(p, w + 2, m - take, rest, tail)
    requires b < rest + 1 && j < BlockLen(p, w + 2 * b) && LenSum(p, w, b) + j < m
    ensures |idx| == m && RowIs(p, w, b, j, idx)
  {
    hide BlockLen, Block, LenSum, Start;
    LenStep(p, w, 1);
    if b == 0 {
      BlockAt(p, w, Min(BlockLen(p, w), m), j);
    } else {
      LenStep(p, w, b);
      assert w + 2 * b == w + 2 + 2 * (b - 1);
      assert RowIs(p, w + 2, b - 1, j, tail);
    }
  }

  lemma {:induction false} NoLength(p: Plan, w: nat, n: nat)
    requires p.Valid()
    ensures LenSum(p, w, n) >= n
    decreases n
  {
    hide BlockLen;
    if n > 0 {
      NoLength(p, w + 2, n - 1);
    }
  }

  lemma BlockAt(p: Plan, w: nat, take: nat, j: nat)
    requires p.N() > 0 && j < take
    ensures Block(Start(p, w), take, p.N())[j] == (p.rng(w) % p.N() + j) % p.N()
  {
  }

  // ---------------------------------------------------------------- the outcome of a path

  /** logs is the running sum of the returns at idx. */
  ghost predicate RunningSum(rets: seq<real>, idx: seq<nat>, logs: seq<real>) {
    && |logs| == |idx|
    && forall i: nat | i < |idx| :: SumAtRow(rets, idx, logs, i)
  }

  ghost predicate SumAtRow(rets: seq<real>, idx: seq<nat>, logs: seq<real>, i: nat)
    requires i < |idx| == |logs|
  {
    idx[i] < |rets| && logs[i] == (if i == 0 then 0.0 else logs[i - 1]) + rets[idx[i]]
  }

  /** The outcome of equity exp(logs[i]) after row i, from an equity of 1. */
  ghost predicate IsOutcome(p: Plan, logs: seq<real>, o: Outcome)
    requires logs != []
  {
    && o.final == p.num.exp(logs[|logs| - 1])
    && (o.ruined <==> exists i :: 0 <= i < |logs| && p.num.exp(logs[i]) <= 1.0 - p.fatalMDD)
    && (forall i | 0 <= i < |logs| :: 1.0 - p.num.exp(logs[i]) <= o.maxDD)
    && (forall i, j | 0 <= i <= j < |logs| :: FallsBy(p, logs[i], logs[j], o.maxDD))
  }

  /** From a to b the equity falls by at most the share d. */
  ghost predicate FallsBy(p: Plan, a: real, b: real, d: real) {
    p.num.exp(a) - p.num.exp(b) <= d * p.num.exp(a)
  }

  lemma CurveSums(rets: seq<real>, idx: seq<nat>) returns (logs: seq<real>)
    requires forall i | 0 <= i < |idx| :: idx[i] < |rets|
    ensures RunningSum(rets, idx, logs)
    ensures forall num: Numerics, i | 0 <= i < |idx| :: Curve(num, rets, idx)[i] == num.exp(logs[i])
  {
    logs := seq(|idx|, i requires 0 <= i < |idx| => SumAt(rets, idx[..i + 1]));
    forall i: nat | i < |idx| ensures SumAtRow(rets, idx, logs, i) {
      SumStep(rets, idx, i);
    }
  }

  lemma SumStep(rets: seq<real>, idx: seq<nat>, i: nat)
    requires i < |idx| && forall k | 0 <= k < |idx| :: idx[k] < |rets|
    ensures SumAt(rets, idx[..i + 1]) == (if i == 0 then 0.0 else SumAt(rets, idx[..i])) + rets[idx[i]]
  {
    assert idx[..i + 1][..i] == idx[..i];
  }

  lemma FallsWithin(c: seq<real>, i: nat, j: nat)
    requires i <= j < |c| && forall k | 0 <= k < |c| :: c[k] > 0.0
    ensures c[i] - c[j] <= MaxDrawdown(c) * c[i] && 1.0 - c[j] <= MaxDrawdown(c)
  {
    hide Peak, MaxDrawdown, FallAt;
    DrawdownMeaning(c);
    PeakMeaning(c[..j + 1]);
    FallIs(c, j);
    var p, f, d := Peak(c[..j + 1]), FallAt(c, j), MaxDrawdown(c);
    assert c[..j + 1][i] == c[i];
    hide *;
    Relative(p, c[i], c[j], f, d);
    Relative(p, 1.0, c[j], f, d);
  }

  lemma FallIs(c: seq<real>, j: nat)
    requires j < |c|
    ensures Peak(c[..j + 1]) >= 1.0 && FallAt(c, j) * Peak(c[..j + 1]) == Peak(c[..j + 1]) - c[j]
  {
    hide Peak;
  }

  lemma FactorPositive(g: real, p: real, e: real)
    requires p > 0.0 && e > 0.0 && g * p == e
    ensures g > 0.0
  {
    DivIs(e, p, g);
    DivPositive(e, p);
  }

  lemma Relative(p: real, a: real, e: real, f: real, d: real)
    requires 0.0 < a <= p && e > 0.0 && f * p == p - e && f <= d
    ensures a - e <= d * a
  {
    var g := 1.0 - f;
    assert g * p == p - f * p == e;
    FactorPositive(g, p, e);
    MulNonneg(g, p - a);
    assert g * (p - a) == g * p - g * a;
    assert g * a == a - f * a;
    MulMonotone(f, d, a);
  }

  /** The path drawn from word w on takes the rows of its blocks and ends with their
      summed log return; it is ruined when its equity ever reaches the floor, and
      its drawdown bounds every fall, from the start or from any earlier row. */
  lemma OutcomeMeans(p: Plan, w: nat) returns (logs: seq<real>, n: nat)
    requires p.Valid() && p.N() > 0
    ensures var idx := Indices(p, w, p.N());
            && MadeOfBlocks(p, w, p.N(), n, idx) && RunningSum(p.rets, idx, logs) && logs != []
            && IsOutcome(p, logs, OutcomeOf(p, w))
  {
    n := BlocksMean(p, w, p.N());
    OutcomeIs(p, w);
    hide *;
    var idx := Indices(p, w, p.N());
    logs := CurveSums(p.rets, idx);
    OutcomeFrom(p, Curve(p.num, p.rets, idx), logs, OutcomeOf(p, w));
  }

  lemma ExpPositive(p: Plan, x: real)
    requires p.Valid()
    ensures p.num.exp(x) > 0.0
  {
  }

  lemma OutcomeFrom(p: Plan, c: seq<real>, logs: seq<real>, o: Outcome)
    requires p.Valid() && |c| == |logs| > 0 && forall i | 0 <= i < |c| :: c[i] == p.num.exp(logs[i])
    requires o.final == c[|c| - 1] && o.maxDD == MaxDrawdown(c)
    requires o.ruined <==> exists i :: 0 <= i < |c| && c[i] <= 1.0 - p.fatalMDD
    ensures IsOutcome(p, logs, o)
  {
    hide MaxDrawdown;
    forall i | 0 <= i < |c| ensures c[i] > 0.0 {
      ExpPositive(p, logs[i]);
    }
    forall i, j | 0 <= i <= j < |logs| ensures FallsBy(p, logs[i], logs[j], MaxDrawdown(c)) {
      FallsWithin(c, i, j);
    }
    forall i | 0 <= i < |logs| ensures 1.0 - p.num.exp(logs[i]) <= MaxDrawdown(c) {
      FallsWithin(c, i, i);
    }
  }

  lemma OutcomeIs(p: Plan, w: nat)
    requires p.Valid() && p.N() > 0
    ensures forall i | 0 <= i < p.N() :: Indices(p, w, p.N())[i] < p.N()
    ensures var c, o := Curve(p.num, p.rets, Indices(p, w, p.N())), OutcomeOf(p, w);
            o.final == c[p.N() - 1] && o.maxDD == MaxDrawdown(c)
            && (o.ruined <==> exists i :: 0 <= i < |c| && c[i] <= 1.0 - p.fatalMDD)
  {
    hide Indices, Curve, MaxDrawdown;
    IndicesInRange(p, w, p.N());
  }

  // ---------------------------------------------------------------- the report

  /** The q-th percentile of an ascending sequence: the entry a whole number of
      hundredths up, or the point between two entries the remainder points to. */
  ghost predicate IsQuantile(s: seq<real>, q: nat, x: real)
    requires s != [] && q <= 100
  {
    var m := q * (|s| - 1);
    var lo, r := m / 100, m % 100;
    && lo < |s| && (r > 0 ==> lo + 1 < |s|)
    && x == if r == 0 then s[lo] else s[lo] + (s[lo + 1] - s[lo]) * (r as real / 100.0)
  }

  lemma RankSplits(n: nat, q: nat, m: nat, lo: nat, r: nat)
    requires n >= 1 && q <= 100 && m == q * (n - 1) && m == 100 * lo + r && r < 100
    ensures lo <= n - 1 && (r > 0 ==> lo + 1 <= n - 1)
    ensures Rank(n, q as real) == lo as real + r as real / 100.0
  {
    assert q * (n - 1) <= 100 * (n - 1);
    assert m as real == q as real * (n - 1) as real;
    var x := Rank(n, q as real);
    assert x == q as real / 100.0 * (n - 1) as real;
    assert x * 100.0 == q as real * (n - 1) as real;
    assert m as real == 100.0 * lo as real + r as real;
  }

  lemma FloorCeil(lo: nat, r: nat)
    requires r < 100
    ensures var x := lo as real + r as real / 100.0;
            && x.Floor == lo && Ceil(x) == (if r == 0 then lo else lo + 1) && x - lo as real == r as real / 100.0
  {
  }

  lemma Hundredths(m: nat)
    ensures m == 100 * (m / 100) + m % 100 && 0 <= m % 100 < 100
  {
  }

  lemma PercentileMeans(s: seq<real>, q: nat)
    requires s != [] && q <= 100
    ensures IsQuantile(s, q, Percentile(s, q as real))
  {
    var m := q * (|s| - 1);
    var lo, r := m / 100, m % 100;
    Hundredths(m);
    RankSplits(|s|, q, m, lo, r);
    FloorCeil(lo, r);
    RankInRange(|s|, q as real);
    if |s| > 1 {
      hide Rank, Ceil;
      PercentileIs(s, q as real);
      AtIs(s, Rank(|s|, q as real), lo, r);
    }
  }

  lemma AtIs(s: seq<real>, x: real, lo: nat, r: nat)
    requires 0.0 <= x <= (|s| - 1) as real && r < 100 && lo < |s| && (r > 0 ==> lo + 1 < |s|)
    requires x == lo as real + r as real / 100.0
    ensures At(s, x) == if r == 0 then s[lo] else s[lo] + (s[lo + 1] - s[lo]) * (r as real / 100.0)
  {
    FloorCeil(lo, r);
    hide Ceil;
    if r > 0 {
      Interpolates(s[lo], s[lo + 1], x - lo as real);
    }
  }

  lemma Interpolates(a: real, b: real, f: real)
    ensures a * (1.0 - f) + b * f == a + (b - a) * f
  {
  }

  lemma {:induction false} RuinIsSet(os: seq<Outcome>)
    ensures RuinCount(os) == |set i: nat | i < |os| && os[i].ruined|
  {
    if os != [] {
      var n := |os| - 1;
      RuinIsSet(os[..n]);
      var before := set i: nat | i < |os[..n]| && os[..n][i].ruined;
      assert (set i: nat | i < |os| && os[i].ruined) == before + if os[n].ruined then {n} else {};
    }
  }

  /** The report of a number of outcomes, over their final equities and drawdowns in
      ascending order. */
  ghost predicate IsReport(rep: MCReport, os: seq<Outcome>, finals: seq<real>, mdds: seq<real>)
    requires os != []
  {
    && |finals| == |mdds| == |os| && Ascending(finals) && Ascending(mdds)
    && multiset(finals) == multiset(seq(|os|, i requires 0 <= i < |os| => os[i].final))
    && multiset(mdds) == multiset(seq(|os|, i requires 0 <= i < |os| => os[i].maxDD))
    && rep.RuinProbability * |os| as real == |set i: nat | i < |os| && os[i].ruined| as real
    && IsQuantile(finals, 5, rep.FinalEquityP5) && IsQuantile(finals, 50, rep.FinalEquityP50)
    && IsQuantile(finals, 95, rep.FinalEquityP95) && IsQuantile(mdds, 99, rep.WorstMDD1Pct)
  }

  lemma SummaryMeans(os: seq<Outcome>) returns (finals: seq<real>, mdds: seq<real>)
    requires os != []
    ensures IsReport(Summary(os), os, finals, mdds)
  {
    hide *;
    finals, mdds := Sorted(Finals(os)), Sorted(Drawdowns(os));
    PartsAre(os);
    SortedSorts(Finals(os));
    SortedSorts(Drawdowns(os));
    SummaryIs(os);
    RuinIsSet(os);
    PercentileMeans(finals, 5);
    PercentileMeans(finals, 50);
    PercentileMeans(finals, 95);
    PercentileMeans(mdds, 99);
    ReportIs(Summary(os), os, finals, mdds);
  }

  lemma PartsAre(os: seq<Outcome>)
    ensures Finals(os) == seq(|os|, i requires 0 <= i < |os| => os[i].final)
    ensures Drawdowns(os) == seq(|os|, i requires 0 <= i < |os| => os[i].maxDD)
  {
  }

  lemma ReportIs(rep: MCReport, os: seq<Outcome>, finals: seq<real>, mdds: seq<real>)
    requires os != [] && |finals| == |mdds| == |os| && Ascending(finals) && Ascending(mdds)
    requires multiset(finals) == multiset(seq(|os|, i requires 0 <= i < |os| => os[i].final))
    requires multiset(mdds) == multiset(seq(|os|, i requires 0 <= i < |os| => os[i].maxDD))
    requires rep.RuinProbability == |set i: nat | i < |os| && os[i].ruined| as real / |os| as real
    requires IsQuantile(finals, 5, rep.FinalEquityP5) && IsQuantile(finals, 50, rep.FinalEquityP50)
    requires IsQuantile(finals, 95, rep.FinalEquityP95) && IsQuantile(mdds, 99, rep.WorstMDD1Pct)
    ensures IsReport(rep, os, finals, mdds)
  {
    hide IsQuantile, Ascending;
  }

  /** The paths of a report: the first from word 0, each from where the one before it
      stopped drawing. */
  lemma {:induction false} PathsMean(p: Plan, m: nat, it: nat) returns (n: nat)
    requires p.Valid() && p.N() > 0 && it < m
    ensures Outcomes(p, m)[it] == OutcomeOf(p, Cursor(p, it))
    ensures Cursor(p, 0) == 0 && Cursor(p, it + 1) == Cursor(p, it) + 2 * n
    ensures MadeOfBlocks(p, Cursor(p, it), p.N(), n, Indices(p, Cursor(p, it), p.N()))
  {
    hide OutcomeOf, MadeOfBlocks, NextWord, Indices;
    n := BlocksMean(p, Cursor(p, it), p.N());
  }
}
