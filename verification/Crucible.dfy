/** Slicing a bar series into in-sample windows and an anchored out-of-sample
    window, and the plan built on top of it. */
module Crucible {
  import opened Common
  import opened ResultPkg
  import opened GhostDca

  datatype Window = Window(Name: WindowName, StartTS: int, EndTS: int, WarmupLen: nat, Bars: seq<Bar>)

  datatype BuildError =
    | EmptyBars
    | NegativeWarmup
    | NotAscending(index: nat)
    | BadOosDays
    | OosConsumesHistory
    | NoWindowFits
    | TooFewBars(window: WindowName)

  datatype Built = Built(windows: seq<Window>, oos: Option<Window>) | BuildFailed(error: BuildError)

  ghost predicate Ascending(bars: seq<Bar>) {
    forall i, j | 0 <= i < j < |bars| :: bars[i].OpenTime < bars[j].OpenTime
  }

  /** The first n bars, and no others up to there, open before ts. */
  ghost predicate IsCut(bars: seq<Bar>, ts: int, n: nat) {
    && n <= |bars|
    && (forall i | 0 <= i < n :: bars[i].OpenTime < ts)
    && (n < |bars| ==> bars[n].OpenTime >= ts)
  }

  /** How many leading bars open before ts. */
  function CountBefore(bars: seq<Bar>, ts: int): (n: nat)
    ensures n <= |bars|
  {
    if bars == [] || bars[0].OpenTime >= ts then 0 else CountBefore(bars[1..], ts) + 1
  }

  lemma {:induction false} CountCuts(bars: seq<Bar>, ts: int)
    ensures IsCut(bars, ts, CountBefore(bars, ts))
  {
    if bars != [] && bars[0].OpenTime < ts {
      CountCuts(bars[1..], ts);
    }
  }

  lemma CountBeforeIs(bars: seq<Bar>, ts: int, n: nat)
    requires IsCut(bars, ts, n)
    ensures n == CountBefore(bars, ts)
  {
    hide CountBefore;
    CountCuts(bars, ts);
  }

  /** Binary search for the first bar at or after ts. */
  method Search(bars: seq<Bar>, ts: int) returns (n: nat)
    requires Ascending(bars)
    ensures n == CountBefore(bars, ts)
  {
    var lo, hi := 0, |bars|;
    hide CountBefore;
    while lo < hi
      invariant 0 <= lo <= hi <= |bars|
      invariant forall i | 0 <= i < lo :: bars[i].OpenTime < ts
      invariant hi < |bars| ==> bars[hi].OpenTime >= ts
    {
      var h := (lo + hi) / 2;
      if bars[h].OpenTime >= ts {
        hi := h;
      } else {
        lo := h + 1;
      }
    }
    CountBeforeIs(bars, ts, lo);
    n := lo;
  }

  /** The linear scan of the plan builder: everything when no bar qualifies. */
  method CutBefore(bars: seq<Bar>, ts: int) returns (kept: seq<Bar>)
    ensures kept == bars[..CountBefore(bars, ts)]
  {
    for i := 0 to |bars|
      invariant forall j | 0 <= j < i :: bars[j].OpenTime < ts
    {
      if bars[i].OpenTime >= ts {
        CountBeforeIs(bars, ts, i);
        return bars[..i];
      }
    }
    CountBeforeIs(bars, ts, |bars|);
    kept := bars;
  }

  datatype Spec = Spec(Name: WindowName, EvalDays: nat)

  const SPECS := [Spec(W6M, 183), Spec(W2Y, 730), Spec(W5Y, 1825), Spec(W10Y, 0)]

  function Span(bars: seq<Bar>): int
    requires bars != []
  {
    bars[|bars| - 1].OpenTime - bars[0].OpenTime
  }

  function EvalSpan(bars: seq<Bar>, warmupMs: int, spec: Spec): int
    requires bars != []
  {
    if spec.EvalDays > 0 then spec.EvalDays * DAY_MS else Span(bars) - warmupMs
  }

  predicate Fits(bars: seq<Bar>, warmupMs: int, spec: Spec)
    requires bars != []
  {
    var e := EvalSpan(bars, warmupMs, spec);
    e > 0 && e + warmupMs <= Span(bars)
  }

  /** The bars from w on, evaluated from e on. */
  function Between(bars: seq<Bar>, name: WindowName, w: nat, e: nat): Window
    requires w <= e < |bars|
  {
    Window(name, bars[e].OpenTime, bars[|bars| - 1].OpenTime, e - w, bars[w..])
  }

  /** The trailing bars of the evaluation span, behind their warmup. */
  function WindowOf(bars: seq<Bar>, warmupMs: nat, spec: Spec): Window
    requires bars != [] && Ascending(bars) && Fits(bars, warmupMs, spec)
  {
    var endTS := bars[|bars| - 1].OpenTime;
    var evalStart := endTS - EvalSpan(bars, warmupMs, spec);
    var w, e := CountBefore(bars, evalStart - warmupMs), CountBefore(bars, evalStart);
    CutsInOrder(bars, evalStart - warmupMs, evalStart);
    Between(bars, spec.Name, w, e)
  }

  lemma CutsInOrder(bars: seq<Bar>, t: int, u: int)
    requires t <= u
    ensures CountBefore(bars, t) <= CountBefore(bars, u)
    ensures bars != [] && u <= bars[|bars| - 1].OpenTime ==> CountBefore(bars, u) < |bars|
  {
  }

  function WindowsFrom(bars: seq<Bar>, warmupMs: nat, specs: seq<Spec>): seq<Window>
    requires bars != [] && Ascending(bars)
  {
    if specs == [] then []
    else
      var last := specs[|specs| - 1];
      WindowsFrom(bars, warmupMs, specs[..|specs| - 1])
      + if Fits(bars, warmupMs, last) then [WindowOf(bars, warmupMs, last)] else []
  }

  /** Where an out-of-sample request cuts the series: its first bar, and the first
      bar of its warmup when the history before it holds the full warmup. */
  function OosStart(bars: seq<Bar>, oosDays: int): (n: nat)
    requires bars != []
    ensures n <= |bars|
  {
    CountBefore(bars, bars[|bars| - 1].OpenTime - oosDays * DAY_MS)
  }

  function OosOf(bars: seq<Bar>, warmupMs: nat, oosDays: int): Option<Window>
    requires bars != [] && oosDays > 0
  {
    var ts := bars[|bars| - 1].OpenTime - oosDays * DAY_MS;
    if ts - warmupMs < bars[0].OpenTime then None
    else
      var w, e := CountBefore(bars, ts - warmupMs), CountBefore(bars, ts);
      CutsInOrder(bars, ts - warmupMs, ts);
      Some(Window(Oos, bars[e].OpenTime, bars[|bars| - 1].OpenTime, e - w, bars[w..]))
  }

  /** The bars the in-sample windows are cut from. */
  function InSample(bars: seq<Bar>, warmupMs: nat, oosDays: Option<int>): seq<Bar>
    requires bars != [] && (oosDays.Some? ==> oosDays.value > 0)
  {
    if oosDays.Some? && OosOf(bars, warmupMs, oosDays.value).Some? then bars[..OosStart(bars, oosDays.value)] else bars
  }

  predicate AscendsAt(bars: seq<Bar>, i: nat)
    requires 1 <= i < |bars|
  {
    bars[i - 1].OpenTime < bars[i].OpenTime
  }

  lemma AdjacentSuffices(bars: seq<Bar>, n: nat)
    requires n <= |bars| && forall i | 1 <= i < n :: AscendsAt(bars, i)
    ensures Ascending(bars[..n])
  {
    if n > 1 {
      AdjacentSuffices(bars, n - 1);
      assert bars[..n] == bars[..n - 1] + [bars[n - 1]];
      assert AscendsAt(bars, n - 1);
    }
  }

  /** The index of the first bar that does not open after its predecessor. */
  method FirstDisorder(bars: seq<Bar>) returns (at: Option<nat>)
    ensures at.None? <==> Ascending(bars)
    ensures at.Some? ==> 1 <= at.value < |bars| && bars[at.value].OpenTime <= bars[at.value - 1].OpenTime
                         && Ascending(bars[..at.value])
  {
    var i := 1;
    while i < |bars|
      invariant 1 <= i && (i <= |bars| || bars == [])
      invariant forall j | 1 <= j < i && j < |bars| :: AscendsAt(bars, j)
    {
      if bars[i].OpenTime <= bars[i - 1].OpenTime {
        AdjacentSuffices(bars, i);
        return Some(i);
      }
      i := i + 1;
    }
    AdjacentSuffices(bars, |bars|);
    assert bars[..|bars|] == bars;
    at := None;
  }

  /** What a request must satisfy to be sliced. */
  ghost predicate Accepted(bars: seq<Bar>, warmupDays: int, oosDays: Option<int>) {
    && bars != [] && warmupDays >= 0 && Ascending(bars)
    && (oosDays.Some? ==> oosDays.value > 0 && OosStart(bars, oosDays.value) > 0)
  }

  /** The error names the first check the request fails. */
  ghost predicate IsFirstFault(error: BuildError, bars: seq<Bar>, warmupDays: int, oosDays: Option<int>) {
    match error
    case EmptyBars => bars == []
    case NegativeWarmup => bars != [] && warmupDays < 0
    case NotAscending(i) => warmupDays >= 0 && 1 <= i < |bars| && Ascending(bars[..i]) && !AscendsAt(bars, i)
    case BadOosDays => bars != [] && warmupDays >= 0 && Ascending(bars) && oosDays.Some? && oosDays.value <= 0
    case OosConsumesHistory =>
      && bars != [] && warmupDays >= 0 && Ascending(bars)
      && oosDays.Some? && oosDays.value > 0 && OosStart(bars, oosDays.value) == 0
    case NoWindowFits => false
    case TooFewBars(_) => false
  }

  method BuildCrucibleWindows(bars: seq<Bar>, warmupDays: int, oosDays: Option<int>) returns (built: Built)
    ensures built.Built? <==> Accepted(bars, warmupDays, oosDays)
    ensures built.Built? ==>
              && built.oos == (if oosDays.Some? then OosOf(bars, warmupDays * DAY_MS, oosDays.value) else None)
              && Ascending(InSample(bars, warmupDays * DAY_MS, oosDays))
              && InSample(bars, warmupDays * DAY_MS, oosDays) != []
              && built.windows == WindowsFrom(InSample(bars, warmupDays * DAY_MS, oosDays), warmupDays * DAY_MS, SPECS)
    ensures built.BuildFailed? ==> IsFirstFault(built.error, bars, warmupDays, oosDays)
  {
    hide CountBefore, Ascending, WindowsFrom;
    if bars == [] {
      return BuildFailed(EmptyBars);
    }
    if warmupDays < 0 {
      return BuildFailed(NegativeWarmup);
    }
    var disorder := FirstDisorder(bars);
    if disorder.Some? {
      return BuildFailed(NotAscending(disorder.value));
    }
    var warmupMs := warmupDays * DAY_MS;
    var oos := None;
    var isEndIdx := |bars|;
    if oosDays.Some? {
      if oosDays.value <= 0 {
        return BuildFailed(BadOosDays);
      }
      var oosStartTS := bars[|bars| - 1].OpenTime - oosDays.value * DAY_MS;
      var oosStartIdx := Search(bars, oosStartTS);
      if oosStartIdx == 0 {
        return BuildFailed(OosConsumesHistory);
      }
      var oosWarmupStartTS := oosStartTS - warmupMs;
      if oosWarmupStartTS >= bars[0].OpenTime {
        var oosWarmupStartIdx := Search(bars, oosWarmupStartTS);
        CutsInOrder(bars, oosWarmupStartTS, oosStartTS);
        oos := Some(Window(Oos, bars[oosStartIdx].OpenTime, bars[|bars| - 1].OpenTime,
                           oosStartIdx - oosWarmupStartIdx, bars[oosWarmupStartIdx..]));
        isEndIdx := oosStartIdx;
      }
    }
    var isBars := bars[..isEndIdx];
    assert isEndIdx == |bars| ==> isBars == bars;
    PrefixAscends(bars, isEndIdx);
    var windows := BuildWindows(isBars, warmupMs, SPECS);
    built := Built(windows, oos);
  }

  lemma PrefixAscends(bars: seq<Bar>, n: nat)
    requires Ascending(bars) && n <= |bars|
    ensures Ascending(bars[..n])
  {
  }

  lemma Later(bars: seq<Bar>, i: nat, j: nat)
    requires Ascending(bars) && i <= j < |bars|
    ensures bars[i].OpenTime <= bars[j].OpenTime
  {
  }

  lemma SkipSpec(bars: seq<Bar>, warmupMs: nat, specs: seq<Spec>, k: nat)
    requires bars != [] && Ascending(bars) && k < |specs| && !Fits(bars, warmupMs, specs[k])
    ensures WindowsFrom(bars, warmupMs, specs[..k + 1]) == WindowsFrom(bars, warmupMs, specs[..k])
  {
    hide CountBefore, Ascending;
    assert specs[..k + 1][..k] == specs[..k];
  }

  lemma AppendSpec(bars: seq<Bar>, warmupMs: nat, specs: seq<Spec>, k: nat, evalStart: int)
    requires bars != [] && Ascending(bars) && k < |specs| && Fits(bars, warmupMs, specs[k])
    requires evalStart == bars[|bars| - 1].OpenTime - EvalSpan(bars, warmupMs, specs[k])
    ensures CountBefore(bars, evalStart - warmupMs) <= CountBefore(bars, evalStart) < |bars|
    ensures WindowsFrom(bars, warmupMs, specs[..k + 1]) == WindowsFrom(bars, warmupMs, specs[..k])
              + [Between(bars, specs[k].Name, CountBefore(bars, evalStart - warmupMs), CountBefore(bars, evalStart))]
  {
    hide CountBefore, Ascending;
    assert specs[..k + 1][..k] == specs[..k];
    CutsInOrder(bars, evalStart - warmupMs, evalStart);
  }

  lemma NoSpecs(bars: seq<Bar>, warmupMs: nat, specs: seq<Spec>)
    requires bars != [] && Ascending(bars)
    ensures WindowsFrom(bars, warmupMs, specs[..0]) == []
  {
  }

  method BuildWindows(isBars: seq<Bar>, warmupMs: nat, specs: seq<Spec>) returns (windows: seq<Window>)
    requires isBars != [] && Ascending(isBars)
    ensures windows == WindowsFrom(isBars, warmupMs, specs)
  {
    hide CountBefore, Ascending, WindowsFrom, WindowOf;
    var isEndTS := isBars[|isBars| - 1].OpenTime;
    var isSpanMs := isEndTS - isBars[0].OpenTime;
    windows := [];
    NoSpecs(isBars, warmupMs, specs);
    for k := 0 to |specs|
      invariant windows == WindowsFrom(isBars, warmupMs, specs[..k])
    {
      var spec := specs[k];
      var evalSpanMs := if spec.EvalDays > 0 then spec.EvalDays * DAY_MS else isSpanMs - warmupMs;
      if evalSpanMs <= 0 || evalSpanMs + warmupMs > isSpanMs {
        SkipSpec(isBars, warmupMs, specs, k);
      } else {
        var evalStartTS := isEndTS - evalSpanMs;
        AppendSpec(isBars, warmupMs, specs, k, evalStartTS);
        var warmupStartIdx := Search(isBars, evalStartTS - warmupMs);
        var evalStartIdx := Search(isBars, evalStartTS);
        windows := windows + [Window(spec.Name, isBars[evalStartIdx].OpenTime, isEndTS,
                                     evalStartIdx - warmupStartIdx, isBars[warmupStartIdx..])];
      }
    }
    assert specs[..|specs|] == specs;
  }

  // ---------------------------------------------------------------- which windows there are

  function Names(ws: seq<Window>): seq<WindowName> {
    seq(|ws|, i requires 0 <= i < |ws| => ws[i].Name)
  }

  function FittingSpecs(bars: seq<Bar>, warmupMs: nat): seq<Spec>
    requires bars != []
  {
    (if Fits(bars, warmupMs, SPECS[0]) then [SPECS[0]] else [])
    + (if Fits(bars, warmupMs, SPECS[1]) then [SPECS[1]] else [])
    + (if Fits(bars, warmupMs, SPECS[2]) then [SPECS[2]] else [])
    + (if Fits(bars, warmupMs, SPECS[3]) then [SPECS[3]] else [])
  }

  function Fitting(bars: seq<Bar>, warmupMs: nat, specs: seq<Spec>): seq<Spec>
    requires bars != []
  {
    if specs == [] then []
    else
      var last := specs[|specs| - 1];
      Fitting(bars, warmupMs, specs[..|specs| - 1]) + if Fits(bars, warmupMs, last) then [last] else []
  }

  lemma {:induction false} WindowsOfFitting(bars: seq<Bar>, warmupMs: nat, specs: seq<Spec>)
    requires bars != [] && Ascending(bars)
    ensures var ws, fit := WindowsFrom(bars, warmupMs, specs), Fitting(bars, warmupMs, specs);
            && |ws| == |fit|
            && forall i | 0 <= i < |ws| :: Fits(bars, warmupMs, fit[i]) && ws[i] == WindowOf(bars, warmupMs, fit[i])
  {
    hide WindowOf, Fits, Ascending;
    if specs != [] {
      WindowsOfFitting(bars, warmupMs, specs[..|specs| - 1]);
    }
  }

  lemma FittingOfSpecs(bars: seq<Bar>, warmupMs: nat)
    requires bars != []
    ensures Fitting(bars, warmupMs, SPECS) == FittingSpecs(bars, warmupMs)
  {
    hide Fits;
    var s := SPECS;
    assert s[..3][..2] == s[..2] && s[..2][..1] == s[..1] && s[..1][..0] == [];
    assert s[..4] == s && s[..4][..3] == s[..3];
    assert Fitting(bars, warmupMs, s[..1]) == if Fits(bars, warmupMs, s[0]) then [s[0]] else [];
    assert Fitting(bars, warmupMs, s[..2]) ==
      Fitting(bars, warmupMs, s[..1]) + if Fits(bars, warmupMs, s[1]) then [s[1]] else [];
    assert Fitting(bars, warmupMs, s[..3]) ==
      Fitting(bars, warmupMs, s[..2]) + if Fits(bars, warmupMs, s[2]) then [s[2]] else [];
  }

  lemma WindowsUnroll(bars: seq<Bar>, warmupMs: nat)
    requires bars != [] && Ascending(bars)
    ensures var ws, specs := WindowsFrom(bars, warmupMs, SPECS), FittingSpecs(bars, warmupMs);
            && |ws| == |specs|
            && forall i | 0 <= i < |ws| :: Fits(bars, warmupMs, specs[i]) && ws[i] == WindowOf(bars, warmupMs, specs[i])
  {
    hide *;
    WindowsOfFitting(bars, warmupMs, SPECS);
    FittingOfSpecs(bars, warmupMs);
  }

  /** What is left of the span after warmup decides the list of windows. */
  lemma WindowList(bars: seq<Bar>, warmupMs: nat)
    requires bars != [] && Ascending(bars)
    ensures var left := Span(bars) - warmupMs;
            Names(WindowsFrom(bars, warmupMs, SPECS)) ==
            if left <= 0 then []
            else if left < 183 * DAY_MS then [W10Y]
            else if left < 730 * DAY_MS then [W6M, W10Y]
            else if left < 1825 * DAY_MS then [W6M, W2Y, W10Y]
            else [W6M, W2Y, W5Y, W10Y]
  {
    hide CountBefore, Ascending, WindowsFrom;
    WindowsUnroll(bars, warmupMs);
    var ws, specs := WindowsFrom(bars, warmupMs, SPECS), FittingSpecs(bars, warmupMs);
    assert |Names(ws)| == |specs| && forall i | 0 <= i < |ws| :: Names(ws)[i] == specs[i].Name;
  }

  // ---------------------------------------------------------------- what a window holds

  lemma CutTimes(bars: seq<Bar>, ts: int)
    requires Ascending(bars)
    ensures forall i | 0 <= i < |bars| :: bars[i].OpenTime < ts <==> i < CountBefore(bars, ts)
  {
  }

  /** A window is a suffix of the in-sample bars: the bars left out open before
      its warmup span, its warmup bars within that span, its evaluation bars
      within the evaluation span, and the history reaches back over all of it. */
  lemma WindowShape(bars: seq<Bar>, warmupMs: nat, spec: Spec)
    requires bars != [] && Ascending(bars) && Fits(bars, warmupMs, spec)
    ensures var w := WindowOf(bars, warmupMs, spec);
            var evalStart := w.EndTS - if spec.EvalDays > 0 then spec.EvalDays * DAY_MS else Span(bars) - warmupMs;
            var cut := |bars| - |w.Bars|;
            && w.WarmupLen < |w.Bars| <= |bars| && w.Bars == bars[cut..]
            && w.StartTS == w.Bars[w.WarmupLen].OpenTime && w.EndTS == w.Bars[|w.Bars| - 1].OpenTime
            && bars[0].OpenTime <= evalStart - warmupMs
            && (forall i | 0 <= i < |bars| :: bars[i].OpenTime < evalStart - warmupMs <==> i < cut)
            && (forall i | 0 <= i < |bars| :: bars[i].OpenTime < evalStart <==> i < cut + w.WarmupLen)
  {
    hide CountBefore, Ascending;
    var evalStart := bars[|bars| - 1].OpenTime - EvalSpan(bars, warmupMs, spec);
    CutTimes(bars, evalStart - warmupMs);
    CutTimes(bars, evalStart);
    CutsInOrder(bars, evalStart - warmupMs, evalStart);
  }

  /** There is an out-of-sample window exactly when the history reaches back over
      its warmup, and its bars and evaluation bars are the series' from the two
      cuts on. */
  lemma OosShape(bars: seq<Bar>, warmupMs: nat, oosDays: int)
    requires bars != [] && Ascending(bars) && oosDays > 0
    ensures var oos := OosOf(bars, warmupMs, oosDays);
            var start := bars[|bars| - 1].OpenTime - oosDays * 24 * 60 * 60 * 1000;
            && (oos.Some? <==> bars[0].OpenTime <= start - warmupMs)
            && (oos.Some? ==>
                  var w, cut := oos.value, |bars| - |oos.value.Bars|;
                  && w.Name == Oos && w.WarmupLen < |w.Bars| <= |bars| && w.Bars == bars[cut..]
                  && w.StartTS == w.Bars[w.WarmupLen].OpenTime && w.EndTS == w.Bars[|w.Bars| - 1].OpenTime
                  && (forall i | 0 <= i < |bars| :: bars[i].OpenTime < start - warmupMs <==> i < cut)
                  && (forall i | 0 <= i < |bars| :: bars[i].OpenTime < start <==> i < cut + w.WarmupLen))
  {
    hide CountBefore, Ascending;
    var start := bars[|bars| - 1].OpenTime - oosDays * DAY_MS;
    CutTimes(bars, start - warmupMs);
    CutTimes(bars, start);
    CutsInOrder(bars, start - warmupMs, start);
  }

  /** The evaluation part of each window lies within that of every later one. */
  lemma EvaluationsNest(bars: seq<Bar>, warmupMs: nat, i: nat, j: nat)
    requires bars != [] && Ascending(bars)
    requires i < j < |WindowsFrom(bars, warmupMs, SPECS)|
    ensures var ws := WindowsFrom(bars, warmupMs, SPECS);
            && ws[j].StartTS <= ws[i].StartTS && ws[i].EndTS == ws[j].EndTS
            && |ws[i].Bars| - ws[i].WarmupLen <= |ws[j].Bars| - ws[j].WarmupLen
            && |ws[i].Bars| <= |ws[j].Bars|
            && ws[i].Bars == ws[j].Bars[|ws[j].Bars| - |ws[i].Bars|..]
  {
    hide *;
    WindowsUnroll(bars, warmupMs);
    SpansGrow(bars, warmupMs, i, j);
    var specs := FittingSpecs(bars, warmupMs);
    NestOne(bars, warmupMs, specs[i], specs[j]);
  }

  lemma SpansGrow(bars: seq<Bar>, warmupMs: nat, i: nat, j: nat)
    requires bars != [] && i < j < |FittingSpecs(bars, warmupMs)|
    ensures var specs := FittingSpecs(bars, warmupMs);
            EvalSpan(bars, warmupMs, specs[i]) <= EvalSpan(bars, warmupMs, specs[j])
  {
  }

  lemma NestOne(bars: seq<Bar>, warmupMs: nat, a: Spec, b: Spec)
    requires bars != [] && Ascending(bars) && Fits(bars, warmupMs, a) && Fits(bars, warmupMs, b)
    requires EvalSpan(bars, warmupMs, a) <= EvalSpan(bars, warmupMs, b)
    ensures var x, y := WindowOf(bars, warmupMs, a), WindowOf(bars, warmupMs, b);
            && y.StartTS <= x.StartTS && x.EndTS == y.EndTS
            && |x.Bars| - x.WarmupLen <= |y.Bars| - y.WarmupLen
            && |x.Bars| <= |y.Bars| && x.Bars == y.Bars[|y.Bars| - |x.Bars|..]
  {
    hide CountBefore, Ascending;
    var endTS := bars[|bars| - 1].OpenTime;
    var s, t := endTS - EvalSpan(bars, warmupMs, b), endTS - EvalSpan(bars, warmupMs, a);
    CutsInOrder(bars, s, t);
    CutsInOrder(bars, s - warmupMs, t - warmupMs);
    CutsInOrder(bars, t, endTS);
    CutsInOrder(bars, s, endTS);
    CutsInOrder(bars, t - warmupMs, endTS);
    CutsInOrder(bars, s - warmupMs, endTS);
    Later(bars, CountBefore(bars, s), CountBefore(bars, t));
  }

  // ---------------------------------------------------------------- no leak

  /** With an out-of-sample window the in-sample bars and its evaluation bars
      partition the series, and every in-sample window ends before it starts. */
  lemma NoLeak(bars: seq<Bar>, warmupMs: nat, oosDays: int, i: nat)
    requires bars != [] && Ascending(bars) && oosDays > 0 && OosStart(bars, oosDays) > 0
    requires OosOf(bars, warmupMs, oosDays).Some?
    ensures var inSample := InSample(bars, warmupMs, Some(oosDays));
            var oos := OosOf(bars, warmupMs, oosDays).value;
            && inSample != [] && Ascending(inSample)
            && oos.WarmupLen < |oos.Bars|
            && oos.StartTS == oos.Bars[oos.WarmupLen].OpenTime
            && bars == inSample + oos.Bars[oos.WarmupLen..]
            && (forall k | 0 <= k < |inSample| :: inSample[k].OpenTime < oos.StartTS)
            && (i < |WindowsFrom(inSample, warmupMs, SPECS)| ==>
                WindowsFrom(inSample, warmupMs, SPECS)[i].EndTS < oos.StartTS)
  {
    hide CountBefore, WindowsFrom, Ascending, IsCut;
    var ts := bars[|bars| - 1].OpenTime - oosDays * DAY_MS;
    CutsInOrder(bars, ts - warmupMs, ts);
    CutAt(bars, ts);
    var inSample := InSample(bars, warmupMs, Some(oosDays));
    PrefixAscends(bars, OosStart(bars, oosDays));
    var oos := OosOf(bars, warmupMs, oosDays).value;
    assert oos.Bars[oos.WarmupLen..] == bars[OosStart(bars, oosDays)..];
    if i < |WindowsFrom(inSample, warmupMs, SPECS)| {
      EndsWithBars(inSample, warmupMs, i);
    }
  }

  lemma CutAt(bars: seq<Bar>, ts: int)
    requires bars != [] && ts <= bars[|bars| - 1].OpenTime
    ensures CountBefore(bars, ts) < |bars| && bars[CountBefore(bars, ts)].OpenTime >= ts
    ensures forall k | 0 <= k < CountBefore(bars, ts) :: bars[k].OpenTime < ts
  {
    hide CountBefore;
    CountCuts(bars, ts);
    CutsInOrder(bars, ts, ts);
  }

  /** Every window ends with the last bar it was cut from. */
  lemma EndsWithBars(bars: seq<Bar>, warmupMs: nat, i: nat)
    requires bars != [] && Ascending(bars) && i < |WindowsFrom(bars, warmupMs, SPECS)|
    ensures WindowsFrom(bars, warmupMs, SPECS)[i].EndTS == bars[|bars| - 1].OpenTime
  {
    hide WindowsFrom, CountBefore, Ascending;
    WindowsUnroll(bars, warmupMs);
  }

  // ---------------------------------------------------------------- the plan

  datatype PlanOptions = PlanOptions(
    WarmupDays: int,
    OosDays: Option<int>,
    MinEvalBars: int,
    InitialCapital: real,
    MonthlyInject: real,
    Friction: Friction)

  datatype Plan = Plan(Windows: seq<Window>, OosWindow: Option<Window>, Monthly: DcaResult, Weekly: DcaResult)

  datatype PlanResult = PlanOk(plan: Plan) | PlanFailed(error: BuildError)

  /** The linear scan stops exactly where the binary search cut. */
  lemma ScanMeetsSearch(bars: seq<Bar>, warmupMs: nat, oosDays: int)
    requires bars != [] && Ascending(bars) && oosDays > 0
    requires OosOf(bars, warmupMs, oosDays).Some?
    ensures bars[..CountBefore(bars, OosOf(bars, warmupMs, oosDays).value.StartTS)] ==
            InSample(bars, warmupMs, Some(oosDays))
  {
    hide CountBefore;
    var ts := bars[|bars| - 1].OpenTime - oosDays * DAY_MS;
    CutsInOrder(bars, ts - warmupMs, ts);
    CountCuts(bars, ts);
    CountBeforeIs(bars, OosOf(bars, warmupMs, oosDays).value.StartTS, CountBefore(bars, ts));
  }

  function WarmupMs(opts: PlanOptions): nat
    requires opts.WarmupDays >= 0
  {
    opts.WarmupDays * DAY_MS
  }

  /** What an accepted request slices, and into which windows. */
  ghost function Base(bars: seq<Bar>, opts: PlanOptions): (s: seq<Bar>)
    requires Accepted(bars, opts.WarmupDays, opts.OosDays)
    ensures s != [] && Ascending(s)
  {
    hide OosOf, CountBefore;
    InSample(bars, WarmupMs(opts), opts.OosDays)
  }

  ghost function PlanWindows(bars: seq<Bar>, opts: PlanOptions): seq<Window>
    requires Accepted(bars, opts.WarmupDays, opts.OosDays)
  {
    WindowsFrom(Base(bars, opts), WarmupMs(opts), SPECS)
  }

  ghost function PlanOos(bars: seq<Bar>, opts: PlanOptions): Option<Window>
    requires Accepted(bars, opts.WarmupDays, opts.OosDays)
  {
    if opts.OosDays.Some? then OosOf(bars, WarmupMs(opts), opts.OosDays.value) else None
  }

  predicate TooShort(w: Window, opts: PlanOptions) {
    opts.MinEvalBars > 0 && |w.Bars| < opts.MinEvalBars
  }

  ghost predicate FirstTooShort(ws: seq<Window>, opts: PlanOptions, i: nat) {
    i < |ws| && TooShort(ws[i], opts) && forall j | 0 <= j < i :: !TooShort(ws[j], opts)
  }

  ghost predicate AreBaselines(monthly: DcaResult, weekly: DcaResult, base: seq<Bar>, opts: PlanOptions,
                               month: int -> (int, int))
    requires base != [] && opts.Friction.Priced()
  {
    && monthly == ResultOf(Dca(opts.InitialCapital, base, opts.Friction, Monthly(month, opts.MonthlyInject)))
    && weekly == ResultOf(Dca(opts.InitialCapital, base, opts.Friction,
                              Weekly(base[0].OpenTime, opts.MonthlyInject / 4.33)))
  }

  /** The windows, the out-of-sample window, and both baselines run on exactly the
      bars the windows are cut from. */
  ghost predicate IsPlan(plan: Plan, bars: seq<Bar>, opts: PlanOptions, month: int -> (int, int))
    requires Accepted(bars, opts.WarmupDays, opts.OosDays) && opts.Friction.Priced()
  {
    hide *;
    && plan.Windows == PlanWindows(bars, opts)
    && plan.OosWindow == PlanOos(bars, opts)
    && AreBaselines(plan.Monthly, plan.Weekly, Base(bars, opts), opts, month)
  }

  /** The outcome a request calls for: the faults of slicing, then no window, then
      the first window that is too short, then the plan. */
  ghost predicate IsOutcome(res: PlanResult, bars: seq<Bar>, opts: PlanOptions, month: int -> (int, int))
    requires opts.Friction.Priced()
  {
    if !Accepted(bars, opts.WarmupDays, opts.OosDays) then
      res.PlanFailed? && IsFirstFault(res.error, bars, opts.WarmupDays, opts.OosDays)
    else
      var ws := PlanWindows(bars, opts);
      match res
      case PlanFailed(NoWindowFits) => ws == []
      case PlanFailed(TooFewBars(name)) => exists i: nat :: FirstTooShort(ws, opts, i) && ws[i].Name == name
      case PlanFailed(_) => false
      case PlanOk(plan) =>
        ws != [] && (forall i | 0 <= i < |ws| :: !TooShort(ws[i], opts)) && IsPlan(plan, bars, opts, month)
  }

  method BuildEvaluablePlan(bars: seq<Bar>, opts: PlanOptions, month: int -> (int, int)) returns (res: PlanResult)
    requires opts.Friction.Priced()
    ensures IsOutcome(res, bars, opts, month)
    ensures res == PlanFailed(NoWindowFits) ==>
              && Accepted(bars, opts.WarmupDays, opts.OosDays)
              && Span(InSample(bars, WarmupMs(opts), opts.OosDays)) <= WarmupMs(opts)
  {
    hide InSample, OosOf, WindowsFrom, ResultOf, Monthly, Weekly, Fits, WindowOf, Ascending, CountBefore, OosStart,
         AreBaselines;
    var built := BuildCrucibleWindows(bars, opts.WarmupDays, opts.OosDays);
    if built.BuildFailed? {
      return PlanFailed(built.error);
    }
    BaseIs(bars, opts);
    ghost var ws := PlanWindows(bars, opts);
    assert built.windows == ws;
    if built.windows == [] {
      WindowList(Base(bars, opts), WarmupMs(opts));
      return PlanFailed(NoWindowFits);
    }
    if opts.MinEvalBars > 0 {
      for i := 0 to |built.windows|
        invariant forall j | 0 <= j < i :: !TooShort(built.windows[j], opts)
      {
        if |built.windows[i].Bars| < opts.MinEvalBars {
          ghost var first: nat := i;
          assert FirstTooShort(ws, opts, first) && ws[first].Name == built.windows[i].Name;
          return PlanFailed(TooFewBars(built.windows[i].Name));
        }
      }
    }
    var isBars := bars;
    if built.oos.Some? {
      isBars := CutBefore(bars, built.oos.value.StartTS);
    }
    ScanIsBase(bars, opts, isBars);
    var monthly, weekly := Baselines(isBars, opts, month);
    res := PlanOk(Plan(built.windows, built.oos, monthly, weekly));
  }

  method Baselines(isBars: seq<Bar>, opts: PlanOptions, month: int -> (int, int))
    returns (monthly: DcaResult, weekly: DcaResult)
    requires isBars != [] && opts.Friction.Priced()
    ensures AreBaselines(monthly, weekly, isBars, opts, month)
  {
    hide ResultOf;
    monthly := SimulateGhostDcaMonthly(opts.InitialCapital, opts.MonthlyInject, isBars, opts.Friction, month);
    weekly := SimulateGhostDcaWeekly(opts.InitialCapital, opts.MonthlyInject, isBars, opts.Friction);
  }

  lemma BaseIs(bars: seq<Bar>, opts: PlanOptions)
    requires Accepted(bars, opts.WarmupDays, opts.OosDays)
    ensures Base(bars, opts) == InSample(bars, opts.WarmupDays * DAY_MS, opts.OosDays)
    ensures PlanOos(bars, opts) ==
            if opts.OosDays.Some? then OosOf(bars, opts.WarmupDays * DAY_MS, opts.OosDays.value) else None
  {
    hide InSample, OosOf, Ascending, OosStart;
  }

  /** The scanned bars are the sliced ones. */
  lemma ScanIsBase(bars: seq<Bar>, opts: PlanOptions, scanned: seq<Bar>)
    requires Accepted(bars, opts.WarmupDays, opts.OosDays)
    requires var oos := PlanOos(bars, opts);
             scanned == if oos.Some? then bars[..CountBefore(bars, oos.value.StartTS)] else bars
    ensures scanned == Base(bars, opts)
  {
    hide OosOf, CountBefore, Ascending;
    if PlanOos(bars, opts).Some? {
      ScanMeetsSearch(bars, WarmupMs(opts), opts.OosDays.value);
    }
  }
}
