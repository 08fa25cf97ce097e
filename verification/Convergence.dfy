/** Layer-1 convergence rescue: the stagnation counter that ramps mutation and
    stops an epoch early. */
module Convergence {
  import opened Common
  import opened ResultPkg

  datatype EngineConfig = EngineConfig(
    PopSize: int,
    MaxGenerations: int,
    EliteRatio: real,
    TournamentSize: int,
    MutationProbability: real,
    MutationScale: real,
    LambdaCons: real,
    MutationProbabilityMax: real,
    MutationScaleMax: real,
    MutationRampFactor: real,
    EarlyStopPatience: int,
    EarlyStopMinDelta: real)

  /** The value of a ConvergenceState object. */
  datatype ConvView = ConvView(
    noImproveCount: int,
    bestSoFar: Option<real>,
    bestSoFarFatal: bool,
    mutProb: real,
    mutScale: real)

  function MinReal(a: real, b: real): real {
    if a < b then a else b
  }

  function InitialView(cfg: EngineConfig): ConvView {
    ConvView(0, None, true, cfg.MutationProbability, cfg.MutationScale)
  }

  predicate Improves(s: ConvView, current: ScoreTotal, minDelta: real) {
    && !current.Fatal && current.Value.Some?
    && (s.bestSoFarFatal || s.bestSoFar.None? || current.Value.value > s.bestSoFar.value + minDelta)
  }

  function Ramp(live: real, factor: real, max: real): real {
    if factor > 1.0 && max > 0.0 then MinReal(live * factor, max) else live
  }

  function Observed(s: ConvView, current: ScoreTotal, cfg: EngineConfig): ConvView {
    if Improves(s, current, cfg.EarlyStopMinDelta) then
      ConvView(0, current.Value, false, cfg.MutationProbability, cfg.MutationScale)
    else
      s.(noImproveCount := s.noImproveCount + 1,
      mutProb := Ramp(s.mutProb, cfg.MutationRampFactor, cfg.MutationProbabilityMax),
      mutScale := Ramp(s.mutScale, cfg.MutationRampFactor, cfg.MutationScaleMax))
  }

  class ConvergenceState {
    var noImproveCount: int
    var bestSoFar: Option<real>
    var bestSoFarFatal: bool
    var mutProb: real
    var mutScale: real

    ghost function View(): ConvView
      reads this
    {
      ConvView(noImproveCount, bestSoFar, bestSoFarFatal, mutProb, mutScale)
    }

    constructor (cfg: EngineConfig)
      ensures View() == InitialView(cfg)
    {
      noImproveCount, bestSoFar, bestSoFarFatal := 0, None, true;
      mutProb, mutScale := cfg.MutationProbability, cfg.MutationScale;
    }

    method IsImprovement(current: ScoreTotal, minDelta: real) returns (improved: bool)
      ensures improved == Improves(View(), current, minDelta)
    {
      if current.Fatal || current.Value.None? {
        return false;
      }
      if bestSoFarFatal || bestSoFar.None? {
        return true;
      }
      return current.Value.value > bestSoFar.value + minDelta;
    }

    method Observe(current: ScoreTotal, cfg: EngineConfig) returns (shouldStop: bool)
      modifies this
      ensures View() == Observed(old(View()), current, cfg)
      ensures shouldStop <==> Stalled(View(), cfg)
    {
      var improved := IsImprovement(current, cfg.EarlyStopMinDelta);
      if improved {
        if !current.Fatal && current.Value.Some? {
          bestSoFar := current.Value;
          bestSoFarFatal := false;
        }
        noImproveCount := 0;
        mutProb, mutScale := cfg.MutationProbability, cfg.MutationScale;
        return false;
      }
      noImproveCount := noImproveCount + 1;
      if cfg.MutationRampFactor > 1.0 {
        if cfg.MutationProbabilityMax > 0.0 {
          mutProb := MinReal(mutProb * cfg.MutationRampFactor, cfg.MutationProbabilityMax);
        }
        if cfg.MutationScaleMax > 0.0 {
          mutScale := MinReal(mutScale * cfg.MutationRampFactor, cfg.MutationScaleMax);
        }
      }
      return cfg.EarlyStopPatience > 0 && noImproveCount >= cfg.EarlyStopPatience;
    }
  }

  predicate Stalled(s: ConvView, cfg: EngineConfig) {
    cfg.EarlyStopPatience > 0 && s.noImproveCount >= cfg.EarlyStopPatience
  }

  /** The state after observing a whole history of generation bests. */
  function Run(cfg: EngineConfig, bests: seq<ScoreTotal>): ConvView {
    if bests == [] then InitialView(cfg)
    else Observed(Run(cfg, bests[..|bests| - 1]), bests[|bests| - 1], cfg)
  }

  // ---------------------------------------------------------------- early stop

  predicate HasValue(s: ScoreTotal) {
    !s.Fatal && s.Value.Some?
  }

  /** Nothing after generation s beats generation s by more than delta; s is -1
      when no generation has had a value at all. */
  ghost predicate StagnantSince(bests: seq<ScoreTotal>, s: int, delta: real) {
    && -1 <= s < |bests|
    && (s >= 0 ==> HasValue(bests[s]))
    && (forall k | s < k < |bests| ::
          HasValue(bests[k]) ==> s >= 0 && bests[k].Value.value <= bests[s].Value.value + delta)
  }

  /** The counter is the distance to the generation that set the current best. */
  lemma {:induction false} CounterMeasuresStagnation(cfg: EngineConfig, bests: seq<ScoreTotal>)
    ensures var v := Run(cfg, bests);
            var s := |bests| - 1 - v.noImproveCount;
            && v.noImproveCount >= 0
            && StagnantSince(bests, s, cfg.EarlyStopMinDelta)
            && (s == -1 <==> v.bestSoFarFatal)
            && (s == -1 ==> v.bestSoFar.None?)
            && (s >= 0 ==> v.bestSoFar == bests[s].Value)
  {
    if bests != [] {
      CounterMeasuresStagnation(cfg, bests[..|bests| - 1]);
    }
  }

  /** An epoch that stops at its last observed generation, and did not stop
      before, has gained at most delta over the best of exactly
      EarlyStopPatience generations earlier, or never saw a value. */
  lemma StopMeansStagnation(cfg: EngineConfig, bests: seq<ScoreTotal>)
    requires bests != [] && Stalled(Run(cfg, bests), cfg)
    requires !Stalled(Run(cfg, bests[..|bests| - 1]), cfg)
    ensures Run(cfg, bests).noImproveCount == cfg.EarlyStopPatience
    ensures |bests| >= cfg.EarlyStopPatience
    ensures StagnantSince(bests, |bests| - 1 - cfg.EarlyStopPatience, cfg.EarlyStopMinDelta)
  {
    CounterMeasuresStagnation(cfg, bests);
    CounterMeasuresStagnation(cfg, bests[..|bests| - 1]);
  }

  /** No prefix of the history, the whole of it included, asked to stop. */
  ghost predicate NeverStalled(cfg: EngineConfig, bests: seq<ScoreTotal>) {
    forall j | 0 <= j <= |bests| :: !Stalled(Run(cfg, bests[..j]), cfg)
  }

  /** How an epoch bounded by MaxGenerations may end after this history. */
  ghost predicate EndsRight(cfg: EngineConfig, bests: seq<ScoreTotal>) {
    && bests != [] && NeverStalled(cfg, bests[..|bests| - 1])
    && (|bests| < cfg.MaxGenerations ==>
          && Stalled(Run(cfg, bests), cfg) && 0 < cfg.EarlyStopPatience <= |bests|
          && StagnantSince(bests, |bests| - 1 - cfg.EarlyStopPatience, cfg.EarlyStopMinDelta))
  }

  lemma EndHere(cfg: EngineConfig, bests: seq<ScoreTotal>)
    requires bests != [] && NeverStalled(cfg, bests[..|bests| - 1])
    requires Stalled(Run(cfg, bests), cfg) || |bests| == cfg.MaxGenerations
    ensures EndsRight(cfg, bests)
  {
    if |bests| < cfg.MaxGenerations {
      var prev := bests[..|bests| - 1];
      assert prev[..|prev|] == prev;
      StopMeansStagnation(cfg, bests);
    }
  }

  lemma GoOn(cfg: EngineConfig, bests: seq<ScoreTotal>)
    requires bests != [] && NeverStalled(cfg, bests[..|bests| - 1]) && !Stalled(Run(cfg, bests), cfg)
    ensures NeverStalled(cfg, bests)
  {
    var prev := bests[..|bests| - 1];
    forall j | 0 <= j <= |bests| ensures !Stalled(Run(cfg, bests[..j]), cfg) {
      if j < |bests| {
        assert bests[..j] == prev[..j];
      } else {
        assert bests[..j] == bests;
      }
    }
  }

  /** Only one prefix of a history is where the epoch ends. */
  lemma EndsOnce(cfg: EngineConfig, bests: seq<ScoreTotal>, k: nat)
    requires k <= |bests| <= cfg.MaxGenerations && EndsRight(cfg, bests) && EndsRight(cfg, bests[..k])
    ensures k == |bests|
  {
    var j := if k < |bests| then k else 0;
    assert j < |bests| ==> bests[..|bests| - 1][..j] == bests[..j];
  }

  // ---------------------------------------------------------------- mutation ramp

  function Pow(b: real, n: nat): real {
    if n == 0 then 1.0 else Pow(b, n - 1) * b
  }

  function Ramped(base: real, factor: real, max: real, n: nat): real {
    MinReal(base * Pow(factor, n), max)
  }

  /** Both live mutation knobs follow base * factor^count, capped at Max. */
  ghost predicate FollowsRamp(cfg: EngineConfig, v: ConvView) {
    && v.noImproveCount >= 0
    && v.mutProb ==
       Ramped(cfg.MutationProbability, cfg.MutationRampFactor, cfg.MutationProbabilityMax, v.noImproveCount)
    && v.mutScale == Ramped(cfg.MutationScale, cfg.MutationRampFactor, cfg.MutationScaleMax, v.noImproveCount)
  }

  predicate BasesWithinCaps(cfg: EngineConfig) {
    cfg.MutationProbability <= cfg.MutationProbabilityMax && cfg.MutationScale <= cfg.MutationScaleMax
  }

  predicate RampConfigured(cfg: EngineConfig) {
    cfg.MutationRampFactor > 1.0 && 0.0 < cfg.MutationProbabilityMax && 0.0 < cfg.MutationScaleMax
  }

  lemma RampStep(base: real, factor: real, max: real, n: nat)
    requires factor > 1.0 && max > 0.0
    ensures Ramp(Ramped(base, factor, max, n), factor, max) == Ramped(base, factor, max, n + 1)
  {
  }

  lemma {:induction false} RampAfter(cfg: EngineConfig, bests: seq<ScoreTotal>)
    requires RampConfigured(cfg) && BasesWithinCaps(cfg)
    ensures FollowsRamp(cfg, Run(cfg, bests))
  {
    if bests != [] {
      var prev := Run(cfg, bests[..|bests| - 1]);
      RampAfter(cfg, bests[..|bests| - 1]);
      RampStep(cfg.MutationProbability, cfg.MutationRampFactor, cfg.MutationProbabilityMax, prev.noImproveCount);
      RampStep(cfg.MutationScale, cfg.MutationRampFactor, cfg.MutationScaleMax, prev.noImproveCount);
    }
  }

  /** A live knob after n generations without improvement. */
  ghost predicate IsKnob(live: real, base: real, factor: real, max: real, n: int) {
    if n <= 0 || factor <= 1.0 || max <= 0.0 then live == base
    else live <= max && live <= base * Pow(factor, n) && (live == max || live == base * Pow(factor, n))
  }

  lemma KnobStep(live: real, base: real, factor: real, max: real, n: nat)
    requires IsKnob(live, base, factor, max, n)
    ensures IsKnob(Ramp(live, factor, max), base, factor, max, n + 1)
  {
    PowStep(factor, n);
    hide Pow;
    if factor > 1.0 && max > 0.0 {
      hide MinReal;
      KnobProduct(live, base, Pow(factor, n), factor, max, n == 0);
    }
  }

  lemma PowStep(b: real, n: nat)
    ensures Pow(b, n + 1) == Pow(b, n) * b && Pow(b, 0) == 1.0
  {
  }

  lemma KnobProduct(live: real, base: real, p: real, factor: real, max: real, first: bool)
    requires factor > 1.0 && max > 0.0 && (first ==> live == base && p == 1.0)
    requires first || (live <= max && live <= base * p && (live == max || live == base * p))
    ensures var next := MinReal(live * factor, max);
            next <= max && next <= base * (p * factor) && (next == max || next == base * (p * factor))
  {
    var a := base * p;
    assert base * (p * factor) == a * factor;
    if live == max && live < a {
      Grows(live, factor);
      assert (a - live) * factor > 0.0;
    }
  }

  lemma Grows(x: real, factor: real)
    requires x > 0.0 && factor > 1.0
    ensures x * factor > x
  {
  }

  /** Both live knobs on every history and under every configuration: the base
      where no ramp is configured or the last generation improved, and otherwise
      the smaller of base * factor^count and the cap. */
  lemma {:induction false} KnobsMean(cfg: EngineConfig, bests: seq<ScoreTotal>)
    ensures var v := Run(cfg, bests);
            && v.noImproveCount >= 0
            && IsKnob(v.mutProb, cfg.MutationProbability, cfg.MutationRampFactor, cfg.MutationProbabilityMax,
                      v.noImproveCount)
            && IsKnob(v.mutScale, cfg.MutationScale, cfg.MutationRampFactor, cfg.MutationScaleMax, v.noImproveCount)
  {
    if bests != [] {
      KnobsMean(cfg, bests[..|bests| - 1]);
      var v := Run(cfg, bests[..|bests| - 1]);
      KnobStep(v.mutProb, cfg.MutationProbability, cfg.MutationRampFactor, cfg.MutationProbabilityMax,
               v.noImproveCount);
      KnobStep(v.mutScale, cfg.MutationScale, cfg.MutationRampFactor, cfg.MutationScaleMax, v.noImproveCount);
    }
  }

  /** With a ramp configured, the live knobs are base * factor^count capped at
      Max on every history exactly when the bases are within their caps. */
  lemma RampLawExact(cfg: EngineConfig)
    requires RampConfigured(cfg)
    ensures (forall bests :: FollowsRamp(cfg, Run(cfg, bests))) <==> BasesWithinCaps(cfg)
  {
    if BasesWithinCaps(cfg) {
      forall bests ensures FollowsRamp(cfg, Run(cfg, bests)) {
        RampAfter(cfg, bests);
      }
    } else {
      assert !FollowsRamp(cfg, Run(cfg, []));
    }
  }
}
