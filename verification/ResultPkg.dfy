/** The strategy-to-engine boundary: per-window results, the in-sample
    validator, the aggregation into one ScoreTotal and the ranking comparison.

    The validator is an acceptor written as five passes over the windows. Its
    contract is a grammar stated without reference to those passes: windows in
    strictly increasing cascade order, all normal, or normal up to one Fatal
    window after which every window is skipped because of it. */
module ResultPkg {
  import opened Common

  datatype Outcome = Pass | Fail(why: string)

  datatype WindowName = W6M | W2Y | W5Y | W10Y | Oos | UnknownWindow(name: string)

  datatype SkippedBy = From6M | From2Y | From5Y | UnknownCause(name: string)

  datatype FatalReason = MddExceeded | NavNonPositive | UnknownReason(name: string)

  datatype SliceScore = SliceScore(Fatal: bool, Value: Option<real>)

  datatype CrucibleResult = CrucibleResult(
    Window: WindowName,
    Score: SliceScore,
    FatalReason: Option<FatalReason>,
    BarsEvaluated: int,
    SkippedBy: Option<SkippedBy>)

  datatype ScoreTotal = ScoreTotal(
    Fatal: bool,
    Value: Option<real>,
    ScoreRaw: Option<real>,
    ConsistencyPenalty: Option<real>)

  type RawEvaluateResult = seq<CrucibleResult>

  // ---------------------------------------------------------------- one window

  function ValidateWindow(r: CrucibleResult): Outcome {
    if r.Window.UnknownWindow? then Fail("Window is not one of 6m/2y/5y/10y")
    else if r.BarsEvaluated < 0 then Fail("BarsEvaluated < 0")
    else if r.SkippedBy.Some? && r.SkippedBy.value.UnknownCause? then Fail("SkippedBy is not a valid cascade cause")
    else if r.Score.Fatal && r.SkippedBy.Some? then Fail("Fatal and SkippedBy cannot both be set")
    else if !r.Score.Fatal && r.SkippedBy.None? && r.Score.Value.None? then Fail("normal window must have Score.Value")
    else if r.SkippedBy.Some? && r.Score.Value.Some? then Fail("cascade-skipped window must not have Score.Value")
    else if r.Score.Fatal && r.Score.Value.Some? then Fail("Fatal window must have Score.Value=nil")
    else if r.Score.Fatal && r.FatalReason.Some? && r.FatalReason.value.UnknownReason? then Fail("unknown fatal_reason")
    else Pass
  }

  datatype WindowState = NormalState(value: real) | SkippedState(cause: WindowName) | FatalState

  /** The three states a window result may be in; None for anything else. */
  function StateOf(r: CrucibleResult): Option<WindowState> {
    match (r.Score.Fatal, r.Score.Value, r.SkippedBy)
    case (false, Some(v), None) => Some(NormalState(v))
    case (false, None, Some(c)) => if c.UnknownCause? then None else Some(SkippedState(CauseOf(c)))
    case (true, None, None) =>
      if r.FatalReason.Some? && r.FatalReason.value.UnknownReason? then None else Some(FatalState)
    case (_, _, _) => None
  }

  /** The chain of rejections accepts exactly the results in one of the three
      states, under a known window name and a non-negative bar count. */
  lemma ThreeStates(r: CrucibleResult)
    ensures ValidateWindow(r).Pass? <==> !r.Window.UnknownWindow? && r.BarsEvaluated >= 0 && StateOf(r).Some?
  {
    match r.Score.Value { case None => case Some(_) => }
    match r.SkippedBy { case None => case Some(_) => }
  }

  // ---------------------------------------------------------------- the grammar

  /** skippedBySource: the window a cascade cause points at. */
  function CauseOf(s: SkippedBy): WindowName {
    match s
    case From6M => W6M
    case From2Y => W2Y
    case From5Y => W5Y
    case UnknownCause(_) => UnknownWindow("")
  }

  /** Position in AllWindowsInEvalOrder; -1 for a window outside it. */
  function CanonPos(w: WindowName): int {
    match w
    case W6M => 0
    case W2Y => 1
    case W5Y => 2
    case W10Y => 3
    case Oos => -1
    case UnknownWindow(_) => -1
  }

  predicate Normal(w: CrucibleResult) {
    !w.Score.Fatal && w.SkippedBy.None?
  }

  predicate SkippedFrom(w: CrucibleResult, cause: WindowName) {
    !w.Score.Fatal && w.SkippedBy.Some? && CauseOf(w.SkippedBy.value) == cause
  }

  ghost predicate AllNormal(ws: RawEvaluateResult) {
    forall j | 0 <= j < |ws| :: Normal(ws[j])
  }

  /** Window f is Fatal, everything before it is normal and everything after it
      is skipped because of window f. */
  ghost predicate CascadeAt(ws: RawEvaluateResult, f: int) {
    && 0 <= f < |ws|
    && ws[f].Score.Fatal
    && (forall j | 0 <= j < f :: Normal(ws[j]))
    && (forall j | f < j < |ws| :: SkippedFrom(ws[j], ws[f].Window))
  }

  ghost predicate InEvalOrder(ws: RawEvaluateResult) {
    && (forall i | 0 <= i < |ws| :: 0 <= CanonPos(ws[i].Window))
    && (forall i, j | 0 <= i < j < |ws| :: CanonPos(ws[i].Window) < CanonPos(ws[j].Window))
  }

  ghost predicate AllValid(ws: RawEvaluateResult) {
    forall j | 0 <= j < |ws| :: ValidateWindow(ws[j]).Pass?
  }

  ghost predicate IsCascadeSequence(ws: RawEvaluateResult) {
    && |ws| > 0
    && AllValid(ws)
    && InEvalOrder(ws)
    && (AllNormal(ws) || exists f :: CascadeAt(ws, f))
  }

  /** Acceptance decides the grammar, for nil and for input of any length. */
  method ValidateForIS(r: Option<RawEvaluateResult>) returns (err: Outcome)
    ensures err.Pass? <==> r.Some? && IsCascadeSequence(r.value)
  {
    if r.None? {
      return Fail("RawEvaluateResult is nil");
    }
    var ws := r.value;
    if |ws| == 0 {
      return Fail("Windows is empty");
    }
    for i := 0 to |ws|
      invariant forall j | 0 <= j < i :: ValidateWindow(ws[j]).Pass?
    {
      var e := ValidateWindow(ws[i]);
      if e.Fail? {
        return e;
      }
    }
    for i := 0 to |ws|
      invariant forall j | 0 <= j < i :: !ws[j].Window.Oos?
    {
      if ws[i].Window == Oos {
        return Fail("WindowOOS in IS raw");
      }
    }
    var seen: set<WindowName> := {};
    for i := 0 to |ws|
      invariant seen == set j | 0 <= j < i :: ws[j].Window
    {
      if ws[i].Window in seen {
        return Fail("duplicate window");
      }
      seen := seen + {ws[i].Window};
    }
    for i := 1 to |ws|
      invariant forall a, b | 0 <= a < b < i :: CanonPos(ws[a].Window) < CanonPos(ws[b].Window)
    {
      var pp, cp := CanonPos(ws[i - 1].Window), CanonPos(ws[i].Window);
      if pp < 0 || cp < 0 || cp <= pp {
        return Fail("non-canonical order");
      }
    }
    err := CheckCascade(ws);
  }

  /** The last pass: one Fatal at most, skips only after it and only because of it. */
  method CheckCascade(ws: RawEvaluateResult) returns (err: Outcome)
    requires AllValid(ws)
    ensures err.Pass? <==> AllNormal(ws) || exists f :: CascadeAt(ws, f)
  {
    var causeWindow: Option<WindowName> := None;
    ghost var f := -1;
    err := Pass;
    for i := 0 to |ws|
      invariant causeWindow.None? <==> f == -1
      invariant f == -1 ==> forall j | 0 <= j < i :: Normal(ws[j])
      invariant f != -1 ==> CascadeAt(ws[..i], f) && causeWindow == Some(ws[f].Window)
    {
      var w := ws[i];
      assert ValidateWindow(w).Pass?;
      if w.Score.Fatal {
        if causeWindow.Some? {
          OnlyOneFatal(ws, f, i);
          return Fail("Fatal after cascade already triggered");
        }
        causeWindow, f := Some(w.Window), i;
      } else if w.SkippedBy.Some? {
        if causeWindow.None? {
          SkipNeedsFatal(ws, i);
          return Fail("SkippedBy but no prior Fatal window");
        }
        if CauseOf(w.SkippedBy.value) != causeWindow.value {
          NothingElseAfterFatal(ws, f, i);
          return Fail("SkippedBy references another window");
        }
      } else {
        if causeWindow.Some? {
          NothingElseAfterFatal(ws, f, i);
          return Fail("normal after cascade");
        }
      }
      assert ws[..i + 1][..i] == ws[..i];
    }
    assert ws[..|ws|] == ws;
    assert f != -1 ==> CascadeAt(ws, f);
  }

  lemma OnlyOneFatal(ws: RawEvaluateResult, f: int, i: int)
    requires 0 <= f < i < |ws| && ws[f].Score.Fatal && ws[i].Score.Fatal
    ensures !AllNormal(ws) && forall g :: !CascadeAt(ws, g)
  {
  }

  lemma SkipNeedsFatal(ws: RawEvaluateResult, i: int)
    requires 0 <= i < |ws| && !ws[i].Score.Fatal && ws[i].SkippedBy.Some?
    requires forall j | 0 <= j < i :: Normal(ws[j])
    ensures !AllNormal(ws) && forall g :: !CascadeAt(ws, g)
  {
  }

  lemma NothingElseAfterFatal(ws: RawEvaluateResult, f: int, i: int)
    requires 0 <= f < i < |ws| && ws[f].Score.Fatal && !SkippedFrom(ws[i], ws[f].Window)
    ensures !AllNormal(ws) && forall g :: !CascadeAt(ws, g)
  {
  }

  lemma {:induction false} RankBoundsIndex(ws: RawEvaluateResult, i: nat)
    requires InEvalOrder(ws) && i < |ws|
    ensures i <= CanonPos(ws[i].Window)
  {
    if i > 0 {
      RankBoundsIndex(ws, i - 1);
      assert CanonPos(ws[i - 1].Window) < CanonPos(ws[i].Window);
    }
  }

  /** Strict order over four names bounds the length of any accepted result. */
  lemma AcceptedLength(ws: RawEvaluateResult)
    requires IsCascadeSequence(ws)
    ensures 1 <= |ws| <= 4
  {
    RankBoundsIndex(ws, |ws| - 1);
  }

  // ---------------------------------------------------------------- aggregation

  /** Fixed window weights; anything else weighs nothing. */
  type Weights = WindowName -> real

  function Sum(xs: seq<real>): real {
    if xs == [] then 0.0 else Sum(xs[..|xs| - 1]) + xs[|xs| - 1]
  }

  function SumSqDev(xs: seq<real>, mean: real): real {
    if xs == [] then 0.0
    else SumSqDev(xs[..|xs| - 1], mean) + (xs[|xs| - 1] - mean) * (xs[|xs| - 1] - mean)
  }

  function Sigma(sqrt: real -> real, xs: seq<real>): real
    requires xs != []
  {
    sqrt(SumSqDev(xs, Sum(xs) / |xs| as real) / |xs| as real)
  }

  /** The (window, value) pairs that enter the sum: a window that was skipped
      or carries no value contributes nothing. */
  function Scored(ws: RawEvaluateResult): seq<(WindowName, real)> {
    if ws == [] then []
    else
      var w := ws[|ws| - 1];
      Scored(ws[..|ws| - 1])
      + if w.SkippedBy.Some? || w.Score.Value.None? then [] else [(w.Window, w.Score.Value.value)]
  }

  function Values(scored: seq<(WindowName, real)>): (vs: seq<real>)
    ensures |vs| == |scored|
  {
    seq(|scored|, i requires 0 <= i < |scored| => scored[i].1)
  }

  function WeightedSum(scored: seq<(WindowName, real)>, weights: Weights): real {
    if scored == [] then 0.0
    else WeightedSum(scored[..|scored| - 1], weights) + weights(scored[|scored| - 1].0) * scored[|scored| - 1].1
  }

  /** What one more window adds to the scored values and the weighted sum. */
  lemma ScoredStep(ws: RawEvaluateResult, i: nat, weights: Weights)
    requires i < |ws|
    ensures var before, after, w := Scored(ws[..i]), Scored(ws[..i + 1]), ws[i];
            if w.SkippedBy.Some? || w.Score.Value.None? then after == before
            else && Values(after) == Values(before) + [w.Score.Value.value]
                 && WeightedSum(after, weights) ==
                    WeightedSum(before, weights) + weights(w.Window) * w.Score.Value.value
  {
    assert ws[..i + 1][..i] == ws[..i];
  }

  function Penalised(scoreRaw: real, lambdaCons: real, sigma: real): real {
    scoreRaw - lambdaCons * sigma
  }

  /** v1-raw-std over the scored windows only. */
  function NormalTotal(ws: RawEvaluateResult, weights: Weights, lambdaCons: real, sqrt: real -> real): ScoreTotal {
    var scored := Scored(ws);
    var raw := WeightedSum(scored, weights);
    var sigma := if |scored| >= 2 then Sigma(sqrt, Values(scored)) else 0.0;
    ScoreTotal(false, Some(Penalised(raw, lambdaCons, sigma)), Some(raw), Some(sigma))
  }

  predicate AnyFatal(ws: RawEvaluateResult) {
    exists i | 0 <= i < |ws| :: ws[i].Score.Fatal
  }

  function Aggregate(ws: RawEvaluateResult, weights: Weights, lambdaCons: real, sqrt: real -> real): ScoreTotal {
    if AnyFatal(ws) then ScoreTotal(true, None, None, None)
    else NormalTotal(ws, weights, lambdaCons, sqrt)
  }

  method PopulationStdDev(xs: seq<real>, sqrt: real -> real) returns (sigma: real)
    requires xs != []
    ensures sigma == Sigma(sqrt, xs)
  {
    var n := |xs| as real;
    var sum := 0.0;
    for i := 0 to |xs|
      invariant sum == Sum(xs[..i])
    {
      sum := sum + xs[i];
      assert xs[..i + 1][..i] == xs[..i];
    }
    assert xs[..|xs|] == xs;
    var mean := sum / n;
    var ss := 0.0;
    for i := 0 to |xs|
      invariant ss == SumSqDev(xs[..i], mean)
    {
      var d := xs[i] - mean;
      ss := ss + d * d;
      assert xs[..i + 1][..i] == xs[..i];
    }
    sigma := sqrt(ss / n);
  }

  method AggregateScoreTotal(ws: RawEvaluateResult, weights: Weights, lambdaCons: real, sqrt: real -> real)
    returns (total: ScoreTotal)
    ensures total == Aggregate(ws, weights, lambdaCons, sqrt)
  {
    hide *;
    for i := 0 to |ws|
      invariant forall j | 0 <= j < i :: !ws[j].Score.Fatal
    {
      if ws[i].Score.Fatal {
        FatalIs(ws, i, weights, lambdaCons, sqrt);
        return ScoreTotal(true, None, None, None);
      }
    }
    var validScores: seq<real> := [];
    var scoreRaw := 0.0;
    NothingScored(ws, weights);
    for i := 0 to |ws|
      invariant validScores == Values(Scored(ws[..i]))
      invariant scoreRaw == WeightedSum(Scored(ws[..i]), weights)
    {
      ScoredStep(ws, i, weights);
      var w := ws[i];
      if w.SkippedBy.Some? || w.Score.Value.None? {
        continue;
      }
      validScores := validScores + [w.Score.Value.value];
      scoreRaw := scoreRaw + weights(w.Window) * w.Score.Value.value;
    }
    assert ws[..|ws|] == ws;
    var sigma := 0.0;
    if |validScores| >= 2 {
      sigma := PopulationStdDev(validScores, sqrt);
    }
    total := ScoreTotal(false, Some(Penalised(scoreRaw, lambdaCons, sigma)), Some(scoreRaw), Some(sigma));
    NormalIs(ws, weights, lambdaCons, sqrt);
  }

  lemma NothingScored(ws: RawEvaluateResult, weights: Weights)
    ensures Values(Scored(ws[..0])) == [] && WeightedSum(Scored(ws[..0]), weights) == 0.0
  {
  }

  lemma FatalIs(ws: RawEvaluateResult, i: nat, weights: Weights, lambdaCons: real, sqrt: real -> real)
    requires i < |ws| && ws[i].Score.Fatal
    ensures Aggregate(ws, weights, lambdaCons, sqrt) == ScoreTotal(true, None, None, None)
  {
  }

  lemma NormalIs(ws: RawEvaluateResult, weights: Weights, lambdaCons: real, sqrt: real -> real)
    requires forall i | 0 <= i < |ws| :: !ws[i].Score.Fatal
    ensures Aggregate(ws, weights, lambdaCons, sqrt) == NormalTotal(ws, weights, lambdaCons, sqrt)
    ensures var scored := Scored(ws);
            var raw := WeightedSum(scored, weights);
            var sigma := if |Values(scored)| >= 2 then Sigma(sqrt, Values(scored)) else 0.0;
            NormalTotal(ws, weights, lambdaCons, sqrt) ==
              ScoreTotal(false, Some(Penalised(raw, lambdaCons, sigma)), Some(raw), Some(sigma))
  {
  }

  // ---------------------------------------------------------------- ranking

  /** A score CompareFitness can read: Fatal without a value, or a value. */
  predicate Comparable(s: ScoreTotal) {
    s.Fatal <==> s.Value.None?
  }

  lemma {:induction false} AllNormalAreScored(ws: RawEvaluateResult)
    requires AllNormal(ws) && AllValid(ws)
    ensures |Scored(ws)| == |ws|
    ensures forall i | 0 <= i < |ws| ::
            ws[i].Score.Value.Some? && Scored(ws)[i] == (ws[i].Window, ws[i].Score.Value.value)
  {
    if ws != [] {
      var i := |ws| - 1;
      assert Normal(ws[i]) && ValidateWindow(ws[i]).Pass?;
      assert AllNormal(ws[..i]) && AllValid(ws[..i]);
      AllNormalAreScored(ws[..i]);
    }
  }

  /** On accepted input the total is Fatal exactly when the cascade has its
      Fatal window; otherwise it has a value and every window of the result
      entered the sum with its own value. */
  lemma AcceptedTotal(ws: RawEvaluateResult, weights: Weights, lambdaCons: real, sqrt: real -> real)
    requires IsCascadeSequence(ws)
    ensures var t := Aggregate(ws, weights, lambdaCons, sqrt);
            && Comparable(t)
            && (t.Fatal <==> exists f :: CascadeAt(ws, f))
            && (!t.Fatal ==>
                  && |Scored(ws)| == |ws|
                  && (forall i | 0 <= i < |ws| ::
                        ws[i].Score.Value.Some? && Scored(ws)[i] == (ws[i].Window, ws[i].Score.Value.value)))
  {
    if AllNormal(ws) {
      AllNormalAreScored(ws);
      assert forall i | 0 <= i < |ws| :: Normal(ws[i]);
    }
  }

  function CompareFitness(a: ScoreTotal, b: ScoreTotal): int
    requires Comparable(a) && Comparable(b)
  {
    if a.Fatal && b.Fatal then 0
    else if a.Fatal then 1
    else if b.Fatal then -1
    else if a.Value.value > b.Value.value then -1
    else if a.Value.value < b.Value.value then 1
    else 0
  }
}
