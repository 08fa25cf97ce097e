/** The stationary block bootstrap stress test: resampled equity paths and the
    order statistics of their outcomes. The generator is an arbitrary stream of
    64-bit words; exp and log are arbitrary functions with the few facts used. */
module Bootstrap {
  import opened Reals

  datatype Numerics = Numerics(exp: real -> real, log: real -> real) {
    ghost predicate Lawful() {
      && (forall x :: exp(x) > 0.0)
      && log(1.0) == 0.0
      && (forall x | 0.0 < x < 1.0 :: log(x) < 0.0)
    }
  }

  /** The words a seed produces. */
  type Stream = nat -> nat

  const TWO_TO_53: int := 0x20_0000_0000_0000

  /** The top 53 bits as a real in [0, 1). */
  function Uniform(word: nat): (u: real)
    ensures 0.0 <= u
    ensures word < 0x1_0000_0000_0000_0000 ==> u < 1.0
  {
    (word / 2048) as real / TWO_TO_53 as real
  }

  function GeomBlockLen(num: Numerics, u: real, pGeom: real, logOneMinusP: real): (len: nat)
    requires pGeom < 1.0 ==> logOneMinusP != 0.0
    ensures len >= 1
  {
    if pGeom >= 1.0 then 1
    else
      var l := (num.log(1.0 - u) / logOneMinusP).Floor + 1;
      if l < 1 then 1 else l
  }

  /** Without its guard the block length is at least one already. */
  lemma GuardNeverBinds(num: Numerics, u: real, pGeom: real)
    requires num.Lawful() && 0.0 <= u < 1.0 && 0.0 < pGeom < 1.0
    ensures (num.log(1.0 - u) / num.log(1.0 - pGeom)).Floor + 1 >= 1
  {
  }

  /** The parameters of one report. */
  datatype Plan = Plan(num: Numerics, rng: Stream, rets: seq<real>, blockLenMean: int, nIter: int, fatalMDD: real) {
    ghost predicate Valid() {
      num.Lawful()
    }

    function N(): nat { |rets| }

    function MeanLen(): (m: int)
      ensures m >= 1
    {
      if blockLenMean < 1 then 1 else blockLenMean
    }

    function PGeom(): (p: real)
      ensures 0.0 < p <= 1.0
    {
      1.0 / MeanLen() as real
    }

    ghost predicate LogOk() {
      PGeom() < 1.0 ==> num.log(1.0 - PGeom()) != 0.0
    }

    lemma LogIsOk()
      requires Valid()
      ensures LogOk()
    {
    }
  }

  /** Where the k-th pair of words starts a block, and how long it runs. */
  function Start(p: Plan, k: nat): nat
    requires p.N() > 0
  {
    p.rng(k) % p.N()
  }

  function BlockLen(p: Plan, k: nat): (len: nat)
    requires p.Valid()
    ensures len >= 1
  {
    p.LogIsOk();
    GeomBlockLen(p.num, Uniform(p.rng(k + 1)), p.PGeom(), p.num.log(1.0 - p.PGeom()))
  }

  /** Consecutive indices on the circle. */
  function Block(start: nat, len: nat, n: nat): (s: seq<nat>)
    requires n > 0
    ensures |s| == len
  {
    seq(len, j requires 0 <= j < len => (start + j) % n)
  }

  function Min(a: nat, b: nat): nat {
    if a <= b then a else b
  }

  /** The m indices drawn from word k on: blocks, the last one cut short. */
  function Indices(p: Plan, k: nat, m: nat): (s: seq<nat>)
    requires p.Valid() && p.N() > 0
    ensures |s| == m
    decreases m
  {
    if m == 0 then []
    else
      var take := Min(BlockLen(p, k), m);
      Block(Start(p, k), take, p.N()) + Indices(p, k + 2, m - take)
  }

  /** The first word after those m indices. */
  function NextWord(p: Plan, k: nat, m: nat): nat
    requires p.Valid() && p.N() > 0
    decreases m
  {
    if m == 0 then k else NextWord(p, k + 2, m - Min(BlockLen(p, k), m))
  }

  lemma {:induction false} IndicesInRange(p: Plan, k: nat, m: nat)
    requires p.Valid() && p.N() > 0
    ensures forall i | 0 <= i < m :: Indices(p, k, m)[i] < p.N()
    decreases m
  {
    if m > 0 {
      IndicesInRange(p, k + 2, m - Min(BlockLen(p, k), m));
    }
  }

  // ---------------------------------------------------------------- one path

  function SumAt(rets: seq<real>, idx: seq<nat>): real
    requires forall i | 0 <= i < |idx| :: idx[i] < |rets|
  {
    if idx == [] then 0.0 else SumAt(rets, idx[..|idx| - 1]) + rets[idx[|idx| - 1]]
  }

  /** Equity after each bar of the path; it starts at 1 before the first. */
  function Curve(num: Numerics, rets: seq<real>, idx: seq<nat>): (c: seq<real>)
    requires forall i | 0 <= i < |idx| :: idx[i] < |rets|
    ensures |c| == |idx|
  {
    seq(|idx|, i requires 0 <= i < |idx| => num.exp(SumAt(rets, idx[..i + 1])))
  }

  /** The peak and the drawdown after one more equity e. */
  function Raised(p: real, e: real): real {
    if e > p then e else p
  }

  function Deepened(d: real, p: real, e: real): (r: real)
    requires p > 0.0
    ensures r >= d
  {
    if e <= p && (p - e) / p > d then (p - e) / p else d
  }

  function Peak(curve: seq<real>): (p: real)
    ensures p >= 1.0
  {
    if curve == [] then 1.0 else Raised(Peak(curve[..|curve| - 1]), curve[|curve| - 1])
  }

  function MaxDrawdown(curve: seq<real>): (d: real)
    ensures d >= 0.0
  {
    if curve == [] then 0.0
    else
      var init := curve[..|curve| - 1];
      Deepened(MaxDrawdown(init), Peak(init), curve[|curve| - 1])
  }

  predicate Ruined(curve: seq<real>, ruinFloor: real) {
    exists i :: 0 <= i < |curve| && curve[i] <= ruinFloor
  }

  ghost predicate HighestIs(curve: seq<real>, p: real) {
    && (forall i | 0 <= i < |curve| :: curve[i] <= p)
    && (p == 1.0 || exists i :: 0 <= i < |curve| && curve[i] == p)
  }

  ghost predicate DeepestIs(curve: seq<real>, d: real) {
    && (forall i | 0 <= i < |curve| :: FallAt(curve, i) <= d)
    && (d == 0.0 || exists i :: 0 <= i < |curve| && FallAt(curve, i) == d)
  }

  lemma {:induction false} PeakMeaning(curve: seq<real>)
    ensures HighestIs(curve, Peak(curve))
  {
    if curve != [] {
      var n := |curve| - 1;
      var p := Peak(curve[..n]);
      PeakMeaning(curve[..n]);
      if curve[n] > p {
        assert curve[n] == Peak(curve);
      } else if p != 1.0 {
        var i :| 0 <= i < n && curve[..n][i] == p;
        assert curve[i] == Peak(curve);
      }
    }
  }

  lemma {:induction false} FallMeaning(curve: seq<real>)
    ensures DeepestIs(curve, MaxDrawdown(curve))
  {
    hide Peak, FallAt;
    if curve != [] {
      var n := |curve| - 1;
      var init, d := curve[..n], MaxDrawdown(curve[..n]);
      FallMeaning(init);
      FallNow(curve);
      forall i | 0 <= i < n ensures FallAt(curve, i) == FallAt(init, i) {
        FallBefore(curve, i);
      }
      if MaxDrawdown(curve) == d && d != 0.0 {
        var i :| 0 <= i < n && FallAt(init, i) == d;
        assert FallAt(curve, i) == d;
      }
    }
  }

  lemma FallBefore(curve: seq<real>, i: nat)
    requires curve != [] && i < |curve| - 1
    ensures FallAt(curve, i) == FallAt(curve[..|curve| - 1], i)
  {
    assert curve[..|curve| - 1][..i + 1] == curve[..i + 1];
  }

  /** The peak is the highest equity so far, the start included, and the drawdown
      the deepest fall below the peak of its time. */
  lemma DrawdownMeaning(curve: seq<real>)
    ensures forall i | 0 <= i < |curve| :: curve[i] <= Peak(curve)
    ensures Peak(curve) == 1.0 || exists i :: 0 <= i < |curve| && curve[i] == Peak(curve)
    ensures forall i | 0 <= i < |curve| :: FallAt(curve, i) <= MaxDrawdown(curve)
    ensures MaxDrawdown(curve) == 0.0 || exists i :: 0 <= i < |curve| && FallAt(curve, i) == MaxDrawdown(curve)
  {
    hide Peak, MaxDrawdown, FallAt;
    PeakMeaning(curve);
    FallMeaning(curve);
  }

  function FallAt(curve: seq<real>, i: nat): real
    requires i < |curve|
  {
    (Peak(curve[..i + 1]) - curve[i]) / Peak(curve[..i + 1])
  }

  lemma FallNow(curve: seq<real>)
    requires curve != []
    ensures var n := |curve| - 1;
            var p, e := Peak(curve[..n]), curve[n];
            && (e <= p ==> FallAt(curve, n) == (p - e) / p)
            && (e > p ==> FallAt(curve, n) == 0.0)
  {
    assert curve[..|curve| - 1 + 1] == curve;
  }

  lemma FallFromFloor(p: real, e: real, fatalMDD: real)
    requires p >= 1.0 && 0.0 < e <= 1.0 - fatalMDD && fatalMDD >= 0.0
    ensures (p - e) / p >= fatalMDD
  {
    DivideDown(p, e);
  }

  lemma DivideDown(p: real, e: real)
    requires p >= 1.0 && e > 0.0
    ensures 0.0 < e / p <= e && (p - e) / p == 1.0 - e / p
  {
    var q := e / p;
    assert q * p == e && q > 0.0;
    MulNonneg(q, p - 1.0);
    assert (1.0 - q) * p == p - e;
    DivIs(p - e, p, 1.0 - q);
  }

  /** Since the peak never falls below the starting equity, a ruined path has a
      drawdown of at least fatalMDD, whatever fatalMDD is. */
  lemma RuinIsDrawdown(curve: seq<real>, fatalMDD: real)
    requires forall i | 0 <= i < |curve| :: curve[i] > 0.0
    requires Ruined(curve, 1.0 - fatalMDD)
    ensures MaxDrawdown(curve) >= fatalMDD
  {
    hide Peak, FallAt, MaxDrawdown;
    if fatalMDD >= 0.0 {
      DrawdownMeaning(curve);
      var i :| 0 <= i < |curve| && curve[i] <= 1.0 - fatalMDD;
      FallAtRuin(curve, i, fatalMDD);
    }
  }

  lemma FallAtRuin(curve: seq<real>, i: nat, fatalMDD: real)
    requires i < |curve| && 0.0 < curve[i] <= 1.0 - fatalMDD && fatalMDD >= 0.0
    ensures FallAt(curve, i) >= fatalMDD
  {
    hide Peak;
    FallFromFloor(Peak(curve[..i + 1]), curve[i], fatalMDD);
  }

  /** The drawdown of a positive path stays below 1. */
  lemma {:induction false} DrawdownBelowOne(curve: seq<real>)
    requires forall i | 0 <= i < |curve| :: curve[i] > 0.0
    ensures MaxDrawdown(curve) < 1.0
  {
    if curve != [] {
      var n := |curve| - 1;
      DrawdownBelowOne(curve[..n]);
      var p, e := Peak(curve[..n]), curve[n];
      DivideDown(p, e);
    }
  }

  // ---------------------------------------------------------------- order statistics

  ghost predicate Ascending(s: seq<real>) {
    forall i, j | 0 <= i <= j < |s| :: s[i] <= s[j]
  }

  function InsertReal(x: real, s: seq<real>): (r: seq<real>)
    ensures |r| == |s| + 1
  {
    if s == [] || x <= s[0] then [x] + s else [s[0]] + InsertReal(x, s[1..])
  }

  function Sorted(s: seq<real>): (r: seq<real>)
    ensures |r| == |s|
  {
    if s == [] then [] else InsertReal(s[0], Sorted(s[1..]))
  }

  lemma {:induction false} InsertRealAscends(x: real, s: seq<real>, bound: real)
    requires Ascending(s) && bound <= x && (s != [] ==> bound <= s[0])
    ensures Ascending(InsertReal(x, s)) && forall i | 0 <= i <= |s| :: bound <= InsertReal(x, s)[i]
  {
    if s != [] && x > s[0] {
      InsertRealAscends(x, s[1..], s[0]);
    }
  }

  lemma {:induction false} InsertRealKeeps(x: real, s: seq<real>)
    ensures multiset(InsertReal(x, s)) == multiset(s) + multiset{x}
  {
    if s != [] {
      assert s == [s[0]] + s[1..];
      if x > s[0] {
        InsertRealKeeps(x, s[1..]);
      }
    }
  }

  lemma {:induction false} SortedSorts(s: seq<real>)
    ensures Ascending(Sorted(s)) && multiset(Sorted(s)) == multiset(s)
  {
    if s != [] {
      SortedSorts(s[1..]);
      var rest := Sorted(s[1..]);
      InsertRealAscends(s[0], rest, if rest != [] && rest[0] < s[0] then rest[0] else s[0]);
      InsertRealKeeps(s[0], rest);
      assert s == [s[0]] + s[1..];
    }
  }

  /** How many entries are at least x. */
  function CountAtLeast(s: seq<real>, x: real): (n: nat)
    ensures n <= |s|
  {
    if s == [] then 0 else (if s[0] >= x then 1 else 0) + CountAtLeast(s[1..], x)
  }

  lemma {:induction false} InsertCounts(y: real, s: seq<real>, x: real)
    ensures CountAtLeast(InsertReal(y, s), x) == CountAtLeast(s, x) + if y >= x then 1 else 0
  {
    if s != [] && y > s[0] {
      InsertCounts(y, s[1..], x);
    }
  }

  lemma {:induction false} SortedCounts(s: seq<real>, x: real)
    ensures CountAtLeast(Sorted(s), x) == CountAtLeast(s, x)
  {
    if s != [] {
      SortedCounts(s[1..], x);
      InsertCounts(s[0], Sorted(s[1..]), x);
    }
  }

  /** In an ascending sequence the entry at position k is at least x exactly when
      all but at most k entries are. */
  lemma {:induction false} CountPlaces(s: seq<real>, x: real, k: nat)
    requires Ascending(s) && k < |s|
    ensures s[k] >= x <==> CountAtLeast(s, x) >= |s| - k
  {
    if k == 0 {
      AllOrNot(s, x);
    } else {
      CountPlaces(s[1..], x, k - 1);
      if s[0] >= x {
        AllOrNot(s, x);
      }
    }
  }

  lemma {:induction false} AllOrNot(s: seq<real>, x: real)
    requires Ascending(s) && s != []
    ensures s[0] >= x <==> CountAtLeast(s, x) >= |s|
  {
    if s[0] >= x && |s| > 1 {
      AllOrNot(s[1..], x);
    }
  }

  /** The rank p percent of the way through n entries. */
  function Rank(n: nat, p: real): real {
    p / 100.0 * (n - 1) as real
  }

  function Ceil(x: real): int {
    -((-x).Floor)
  }

  /** Linear interpolation between the two entries around the rank. */
  function At(s: seq<real>, rank: real): real
    requires 0.0 <= rank <= (|s| - 1) as real
  {
    var lo, hi := rank.Floor, Ceil(rank);
    if lo == hi then s[lo] else s[lo] * (1.0 - (rank - lo as real)) + s[hi] * (rank - lo as real)
  }

  function Percentile(s: seq<real>, p: real): real
    requires 0.0 <= p <= 100.0
  {
    if s == [] then 0.0
    else if |s| == 1 then s[0]
    else
      RankInRange(|s|, p);
      At(s, Rank(|s|, p))
  }

  lemma RankInRange(n: nat, p: real)
    requires n >= 1 && 0.0 <= p <= 100.0
    ensures 0.0 <= Rank(n, p) <= (n - 1) as real
  {
    var m := (n - 1) as real;
    MulNonneg(p / 100.0, m);
    MulNonneg(1.0 - p / 100.0, m);
    assert (1.0 - p / 100.0) * m == m - p / 100.0 * m;
  }

  lemma Between(a: real, b: real, f: real)
    requires a <= b && 0.0 <= f <= 1.0
    ensures a <= a * (1.0 - f) + b * f <= b
  {
  }

  lemma AtBetween(s: seq<real>, r: real)
    requires Ascending(s) && 0.0 <= r <= (|s| - 1) as real
    ensures s[r.Floor] <= At(s, r) <= s[Ceil(r)]
  {
    if r.Floor != Ceil(r) {
      Between(s[r.Floor], s[Ceil(r)], r - r.Floor as real);
    }
  }

  lemma AtMonotone(s: seq<real>, r: real, t: real)
    requires Ascending(s) && 0.0 <= r <= t <= (|s| - 1) as real
    ensures At(s, r) <= At(s, t)
  {
    AtBetween(s, r);
    AtBetween(s, t);
    if r.Floor == t.Floor && r.Floor != Ceil(r) {
      assert Ceil(t) == Ceil(r);
      var a, b, lo := s[r.Floor], s[Ceil(r)], r.Floor as real;
      MulNonneg(b - a, t - r);
      assert At(s, t) - At(s, r) == (b - a) * (t - r);
    } else if r.Floor < t.Floor {
      assert Ceil(r) <= t.Floor;
    }
  }

  lemma RankMonotone(n: nat, p: real, q: real)
    requires n >= 1 && p <= q
    ensures Rank(n, p) <= Rank(n, q)
  {
    MulMonotone(p / 100.0, q / 100.0, (n - 1) as real);
  }

  lemma PercentileIs(s: seq<real>, p: real)
    requires |s| > 1 && 0.0 <= p <= 100.0
    ensures 0.0 <= Rank(|s|, p) <= (|s| - 1) as real && Percentile(s, p) == At(s, Rank(|s|, p))
  {
    RankInRange(|s|, p);
  }

  lemma PercentileMonotone(s: seq<real>, p: real, q: real)
    requires Ascending(s) && 0.0 <= p <= q <= 100.0
    ensures Percentile(s, p) <= Percentile(s, q)
  {
    if |s| > 1 {
      hide *;
      PercentileIs(s, p);
      PercentileIs(s, q);
      RankMonotone(|s|, p, q);
      AtMonotone(s, Rank(|s|, p), Rank(|s|, q));
    }
  }

  /** If at least n - floor(rank) entries reach x, so does the percentile. */
  lemma PercentileReaches(s: seq<real>, p: real, x: real)
    requires Ascending(s) && s != [] && 0.0 <= p <= 100.0
    requires CountAtLeast(s, x) >= |s| - Rank(|s|, p).Floor
    ensures Percentile(s, p) >= x
  {
    RankInRange(|s|, p);
    CountPlaces(s, x, Rank(|s|, p).Floor);
    AtBetween(s, Rank(|s|, p));
  }

  // ---------------------------------------------------------------- the report

  datatype Outcome = Outcome(final: real, maxDD: real, ruined: bool)

  datatype MCReport = MCReport(
    RuinProbability: real,
    FinalEquityP5: real,
    FinalEquityP50: real,
    FinalEquityP95: real,
    WorstMDD1Pct: real)

  /** The path drawn from word k on. */
  function PathOf(p: Plan, k: nat): (c: seq<real>)
    requires p.Valid() && p.N() > 0
    ensures |c| == p.N()
  {
    IndicesInRange(p, k, p.N());
    Curve(p.num, p.rets, Indices(p, k, p.N()))
  }

  function OutcomeOf(p: Plan, k: nat): Outcome
    requires p.Valid() && p.N() > 0
  {
    var c := PathOf(p, k);
    Outcome(c[|c| - 1], MaxDrawdown(c), Ruined(c, 1.0 - p.fatalMDD))
  }

  /** The word the it-th path starts from. */
  function Cursor(p: Plan, it: nat): nat
    requires p.Valid() && p.N() > 0
  {
    if it == 0 then 0 else NextWord(p, Cursor(p, it - 1), p.N())
  }

  function Outcomes(p: Plan, m: nat): (os: seq<Outcome>)
    requires p.Valid() && p.N() > 0
    ensures |os| == m
  {
    seq(m, it requires 0 <= it < m => OutcomeOf(p, Cursor(p, it)))
  }

  function Finals(os: seq<Outcome>): (s: seq<real>)
    ensures |s| == |os|
  {
    seq(|os|, i requires 0 <= i < |os| => os[i].final)
  }

  function Drawdowns(os: seq<Outcome>): (s: seq<real>)
    ensures |s| == |os|
  {
    seq(|os|, i requires 0 <= i < |os| => os[i].maxDD)
  }

  function RuinCount(os: seq<Outcome>): (n: nat)
    ensures n <= |os|
  {
    if os == [] then 0 else RuinCount(os[..|os| - 1]) + if os[|os| - 1].ruined then 1 else 0
  }

  function Summary(os: seq<Outcome>): MCReport {
    if os == [] then MCReport(0.0, 0.0, 0.0, 0.0, 0.0)
    else
      var finals, mdds := Sorted(Finals(os)), Sorted(Drawdowns(os));
      MCReport(RuinCount(os) as real / |os| as real, Percentile(finals, 5.0), Percentile(finals, 50.0),
               Percentile(finals, 95.0), Percentile(mdds, 99.0))
  }

  lemma CurveSnoc(num: Numerics, rets: seq<real>, idx: seq<nat>, x: nat)
    requires x < |rets| && forall i | 0 <= i < |idx| :: idx[i] < |rets|
    ensures forall i | 0 <= i < |idx + [x]| :: (idx + [x])[i] < |rets|
    ensures SumAt(rets, idx + [x]) == SumAt(rets, idx) + rets[x]
    ensures Curve(num, rets, idx + [x]) == Curve(num, rets, idx) + [num.exp(SumAt(rets, idx + [x]))]
  {
    var longer := idx + [x];
    assert longer[..|idx|] == idx && longer[..|idx| + 1] == longer;
    forall i | 0 <= i < |idx| ensures Curve(num, rets, longer)[i] == Curve(num, rets, idx)[i] {
      assert longer[..i + 1] == idx[..i + 1];
    }
  }

  lemma PathSnoc(c: seq<real>, e: real, ruinFloor: real)
    ensures var p, d := Peak(c), MaxDrawdown(c);
            && Peak(c + [e]) == Raised(p, e)
            && MaxDrawdown(c + [e]) == Deepened(d, p, e)
            && (Ruined(c + [e], ruinFloor) <==> Ruined(c, ruinFloor) || e <= ruinFloor)
  {
  }

  /** The running state of a path after the indices drawn so far. */
  ghost predicate Tracks(p: Plan, idx: seq<nat>, cumLog: real, peak: real, maxDD: real, ruined: bool) {
    && (forall i | 0 <= i < |idx| :: idx[i] < p.N())
    && cumLog == SumAt(p.rets, idx)
    && var c := Curve(p.num, p.rets, idx);
       peak == Peak(c) && maxDD == MaxDrawdown(c) && ruined == Ruined(c, 1.0 - p.fatalMDD)
  }

  lemma TracksOn(p: Plan, idx: seq<nat>, cumLog: real, peak: real, maxDD: real, ruined: bool, x: nat)
    requires x < p.N() && Tracks(p, idx, cumLog, peak, maxDD, ruined)
    ensures var e := p.num.exp(cumLog + p.rets[x]);
            && peak >= 1.0
            && Tracks(p, idx + [x], cumLog + p.rets[x], Raised(peak, e), Deepened(maxDD, peak, e),
                      ruined || e <= 1.0 - p.fatalMDD)
  {
    hide Raised, Deepened, Ruined, Curve;
    CurveSnoc(p.num, p.rets, idx, x);
    PathSnoc(Curve(p.num, p.rets, idx), p.num.exp(cumLog + p.rets[x]), 1.0 - p.fatalMDD);
  }

  lemma BlockSnoc(start: nat, j: nat, n: nat)
    requires n > 0
    ensures Block(start, j, n) + [(start + j) % n] == Block(start, j + 1, n)
  {
  }

  lemma TracksAll(p: Plan, k: nat, cumLog: real, peak: real, maxDD: real, ruined: bool)
    requires p.Valid() && p.N() > 0 && Tracks(p, Indices(p, k, p.N()), cumLog, peak, maxDD, ruined)
    ensures OutcomeOf(p, k) == Outcome(p.num.exp(cumLog), maxDD, ruined)
  {
    var idx := Indices(p, k, p.N());
    assert idx[..p.N() - 1 + 1] == idx;
  }

  /** One block, cut short when the path is full. */
  method RunBlock(p: Plan, start: nat, blockLen: nat, ghost idx: seq<nat>, filled: nat,
                  cumLog0: real, peak0: real, maxDD0: real, ruined0: bool)
    returns (filled': nat, cumLog: real, peak: real, maxDD: real, ruined: bool)
    requires p.N() > 0 && filled == |idx| <= p.N() && Tracks(p, idx, cumLog0, peak0, maxDD0, ruined0)
    ensures var take := Min(blockLen, p.N() - filled);
            filled' == filled + take && Tracks(p, idx + Block(start, take, p.N()), cumLog, peak, maxDD, ruined)
  {
    hide Tracks, Block;
    var n := |p.rets|;
    cumLog, peak, maxDD, ruined := cumLog0, peak0, maxDD0, ruined0;
    filled' := filled;
    ghost var now := idx;
    assert idx + Block(start, 0, n) == idx;
    var j := 0;
    while j < blockLen && filled' < n
      invariant j <= blockLen && filled' == filled + j <= n
      invariant now == idx + Block(start, j, n)
      invariant Tracks(p, now, cumLog, peak, maxDD, ruined)
    {
      ghost var x := (start + j) % n;
      TracksOn(p, now, cumLog, peak, maxDD, ruined, x);
      BlockSnoc(start, j, n);
      cumLog := cumLog + p.rets[(start + j) % n];
      var equity := p.num.exp(cumLog);
      ghost var peak1, maxDD1 := Raised(peak, equity), Deepened(maxDD, peak, equity);
      if equity > peak {
        peak := equity;
      } else {
        var dd := (peak - equity) / peak;
        if dd > maxDD {
          maxDD := dd;
        }
      }
      assert peak == peak1 && maxDD == maxDD1;
      if equity <= 1.0 - p.fatalMDD {
        ruined := true;
      }
      assert now + [x] == idx + (Block(start, j, n) + [x]);
      now := now + [x];
      filled', j := filled' + 1, j + 1;
    }
  }

  /** One path: blocks of consecutive returns until n of them are used. */
  method RunPath(p: Plan, k: nat) returns (o: Outcome, k': nat)
    requires p.Valid() && p.N() > 0
    ensures o == OutcomeOf(p, k) && k' == NextWord(p, k, p.N())
  {
    hide *;
    var n := p.N();
    var cumLog, peak, maxDD, ruined := 0.0, 1.0, 0.0, false;
    var filled := 0;
    k' := k;
    ghost var idx: seq<nat> := [];
    TracksNothing(p);
    assert idx + Indices(p, k, n) == Indices(p, k, n);
    while filled < n
      invariant filled == |idx| <= n
      invariant idx + Indices(p, k', n - filled) == Indices(p, k, n)
      invariant NextWord(p, k', n - filled) == NextWord(p, k, n)
      invariant Tracks(p, idx, cumLog, peak, maxDD, ruined)
      decreases n - filled
    {
      var start := Start(p, k');
      var blockLen := BlockLen(p, k');
      IndicesStep(p, k', n - filled);
      ghost var block := Block(start, Min(blockLen, n - filled), n);
      filled, cumLog, peak, maxDD, ruined := RunBlock(p, start, blockLen, idx, filled, cumLog, peak, maxDD, ruined);
      ghost var rest := Indices(p, k' + 2, n - filled);
      assert idx + (block + rest) == (idx + block) + rest;
      idx := idx + block;
      k' := k' + 2;
    }
    NoMoreIndices(p, k');
    assert idx + [] == idx;
    TracksAll(p, k, cumLog, peak, maxDD, ruined);
    o := Outcome(p.num.exp(cumLog), maxDD, ruined);
  }

  lemma IndicesStep(p: Plan, k: nat, m: nat)
    requires p.Valid() && p.N() > 0 && m > 0
    ensures var take := Min(BlockLen(p, k), m);
            && 1 <= take <= m
            && Indices(p, k, m) == Block(Start(p, k), take, p.N()) + Indices(p, k + 2, m - take)
            && NextWord(p, k, m) == NextWord(p, k + 2, m - take)
  {
    hide BlockLen, Start, Block;
  }

  lemma NoMoreIndices(p: Plan, k: nat)
    requires p.Valid() && p.N() > 0
    ensures Indices(p, k, 0) == [] && NextWord(p, k, 0) == k
  {
  }

  lemma TracksNothing(p: Plan)
    ensures Tracks(p, [], 0.0, 1.0, 0.0, false)
  {
  }

  lemma FirstOutcomes(p: Plan)
    requires p.Valid() && p.N() > 0
    ensures Outcomes(p, 0) == [] && Cursor(p, 0) == 0 && RuinCount([]) == 0
  {
  }

  lemma NextOutcome(p: Plan, it: nat)
    requires p.Valid() && p.N() > 0
    ensures var o := OutcomeOf(p, Cursor(p, it));
            && Outcomes(p, it + 1) == Outcomes(p, it) + [o]
            && Cursor(p, it + 1) == NextWord(p, Cursor(p, it), p.N())
            && RuinCount(Outcomes(p, it + 1)) == RuinCount(Outcomes(p, it)) + if o.ruined then 1 else 0
  {
    hide OutcomeOf, NextWord;
    var os := Outcomes(p, it);
    assert Outcomes(p, it + 1) == os + [OutcomeOf(p, Cursor(p, it))];
    assert (os + [OutcomeOf(p, Cursor(p, it))])[..it] == os;
  }

  lemma SummaryIs(os: seq<Outcome>)
    requires os != []
    ensures var finals, mdds := Sorted(Finals(os)), Sorted(Drawdowns(os));
            Summary(os) ==
              MCReport(RuinCount(os) as real / |os| as real, Percentile(finals, 5.0), Percentile(finals, 50.0),
                                    Percentile(finals, 95.0), Percentile(mdds, 99.0))
  {
    hide Percentile, Sorted, RuinCount;
  }

  method RunMonteCarlo(p: Plan) returns (rep: MCReport)
    requires p.Valid()
    ensures rep == if p.N() == 0 || p.nIter <= 0 then MCReport(0.0, 0.0, 0.0, 0.0, 0.0)
            else Summary(Outcomes(p, p.nIter))
  {
    hide *;
    if p.N() == 0 || p.nIter <= 0 {
      return MCReport(0.0, 0.0, 0.0, 0.0, 0.0);
    }
    var os: seq<Outcome>, k := [], 0;
    var ruinCount := 0;
    FirstOutcomes(p);
    for it := 0 to p.nIter
      invariant os == Outcomes(p, it) && k == Cursor(p, it) && ruinCount == RuinCount(os)
    {
      var o;
      o, k := RunPath(p, k);
      NextOutcome(p, it);
      os := os + [o];
      if o.ruined {
        ruinCount := ruinCount + 1;
      }
    }
    var finals, mdds := Sorted(Finals(os)), Sorted(Drawdowns(os));
    SummaryIs(os);
    rep := MCReport(ruinCount as real / p.nIter as real, Percentile(finals, 5.0), Percentile(finals, 50.0),
                    Percentile(finals, 95.0), Percentile(mdds, 99.0));
  }

  // ---------------------------------------------------------------- what a report says

  lemma OutcomeRange(p: Plan, k: nat)
    requires p.Valid() && p.N() > 0
    ensures var o := OutcomeOf(p, k); 0.0 <= o.maxDD < 1.0 && (o.ruined ==> o.maxDD >= p.fatalMDD)
  {
    var c := PathOf(p, k);
    forall i | 0 <= i < |c| ensures c[i] > 0.0 {
    }
    DrawdownBelowOne(c);
    if Ruined(c, 1.0 - p.fatalMDD) {
      RuinIsDrawdown(c, p.fatalMDD);
    }
  }

  lemma {:induction false} RuinsCountAsDrawdowns(os: seq<Outcome>, fatalMDD: real)
    requires forall i | 0 <= i < |os| :: os[i].ruined ==> os[i].maxDD >= fatalMDD
    ensures RuinCount(os) <= CountAtLeast(Drawdowns(os), fatalMDD)
  {
    if os != [] {
      var m := |os| - 1;
      RuinsCountAsDrawdowns(os[..m], fatalMDD);
      assert Drawdowns(os) == Drawdowns(os[..m]) + [os[m].maxDD];
      CountSnoc(Drawdowns(os[..m]), os[m].maxDD, fatalMDD);
    }
  }

  lemma {:induction false} CountExtremes(s: seq<real>, x: real)
    ensures (forall i | 0 <= i < |s| :: s[i] < x) ==> CountAtLeast(s, x) == 0
    ensures (forall i | 0 <= i < |s| :: s[i] >= x) ==> CountAtLeast(s, x) == |s|
  {
    if s != [] {
      CountExtremes(s[1..], x);
    }
  }

  lemma {:induction false} CountSnoc(s: seq<real>, y: real, x: real)
    ensures CountAtLeast(s + [y], x) == CountAtLeast(s, x) + if y >= x then 1 else 0
  {
    if s != [] {
      CountSnoc(s[1..], y, x);
      assert (s + [y])[1..] == s[1..] + [y];
    }
  }

  /** In every report the equity percentiles are ordered, and once enough paths
      are ruined the worst-percent drawdown reaches the fatal threshold. */
  lemma ReportIsConsistent(p: Plan)
    requires p.Valid() && p.N() > 0 && p.nIter > 0
    ensures var os := Outcomes(p, p.nIter);
            var rep := Summary(os);
            && rep.FinalEquityP5 <= rep.FinalEquityP50 <= rep.FinalEquityP95
            && 0.0 <= rep.RuinProbability <= 1.0
            && (RuinCount(os) >= p.nIter - Rank(p.nIter, 99.0).Floor ==> rep.WorstMDD1Pct >= p.fatalMDD)
  {
    var os := Outcomes(p, p.nIter);
    var finals, mdds := Sorted(Finals(os)), Sorted(Drawdowns(os));
    SortedSorts(Finals(os));
    SortedSorts(Drawdowns(os));
    PercentileMonotone(finals, 5.0, 50.0);
    PercentileMonotone(finals, 50.0, 95.0);
    forall i | 0 <= i < |os| ensures os[i].ruined ==> os[i].maxDD >= p.fatalMDD {
      OutcomeRange(p, Cursor(p, i));
    }
    RuinsCountAsDrawdowns(os, p.fatalMDD);
    SortedCounts(Drawdowns(os), p.fatalMDD);
    if RuinCount(os) >= p.nIter - Rank(p.nIter, 99.0).Floor {
      PercentileReaches(mdds, 99.0, p.fatalMDD);
    }
    Fraction(RuinCount(os), p.nIter);
  }

  lemma Fraction(k: nat, n: nat)
    requires k <= n && n > 0
    ensures 0.0 <= k as real / n as real <= 1.0
  {
  }

  /** The worst-percent drawdown of every report lies in [0, 1). */
  lemma WorstDrawdownInRange(p: Plan)
    requires p.Valid() && p.N() > 0 && p.nIter > 0
    ensures 0.0 <= Summary(Outcomes(p, p.nIter)).WorstMDD1Pct < 1.0
  {
    var os := Outcomes(p, p.nIter);
    var mdds := Sorted(Drawdowns(os));
    SortedSorts(Drawdowns(os));
    forall i | 0 <= i < |os| ensures 0.0 <= Drawdowns(os)[i] < 1.0 {
      OutcomeRange(p, Cursor(p, i));
    }
    CountExtremes(Drawdowns(os), 0.0);
    CountExtremes(Drawdowns(os), 1.0);
    SortedCounts(Drawdowns(os), 0.0);
    SortedCounts(Drawdowns(os), 1.0);
    PercentileReaches(mdds, 99.0, 0.0);
    RankInRange(|mdds|, 99.0);
    var top := Ceil(Rank(|mdds|, 99.0));
    CountPlaces(mdds, 1.0, top);
    AtBetween(mdds, Rank(|mdds|, 99.0));
  }
}
