/** What a finished epoch means, without the functions the engine computes with:
    which genes were evaluated and how many, how many were Fatal, and where every
    slot of every generation comes from. */
module EpochLaws {
  import opened Common
  import opened Reals
  import opened ResultPkg
  import opened Convergence
  import opened Ranking
  import opened Breeding
  import opened Engine

  /** The genes of a lineage that have to be evaluated, with k bred a generation. */
  ghost function Behind(pops: seq<seq<Gene>>, k: nat): seq<Gene>
    requires forall t | 0 <= t < |pops| :: k <= |pops[t]|
  {
    if pops == [] then []
    else
      var t := |pops| - 1;
      Behind(pops[..t], k) + (if t == 0 then pops[0] else pops[t][|pops[t]| - k..])
  }

  lemma FreshStep(e: Engine, pops: seq<seq<Gene>>, t: nat)
    requires e.cfg.PopSize >= 1 && e.IsLineage(pops) && |pops| == t + 1
    ensures e.IsLineage(pops[..t]) && |pops[t]| == e.cfg.PopSize && e.AllEvaluable(pops[t])
    ensures e.Fresh(pops) == e.Fresh(pops[..t]) + multiset(pops[t][e.FirstFresh(t)..])
    ensures e.FatalTotal(pops) == e.FatalTotal(pops[..t]) + e.FatalFrom(pops[t], e.FirstFresh(t))
  {
    hide Engine.CarriesElites, Engine.FatalFrom, Engine.Evaluable;
    assert e.FullGeneration(pops[t]);
  }

  lemma FreshPart(e: Engine, pop: seq<Gene>, t: nat, k: nat)
    requires |pop| == e.cfg.PopSize >= 1
    requires k == e.cfg.PopSize - CalcEliteCount(e.cfg.PopSize, e.cfg.EliteRatio)
    ensures k <= |pop| && pop[e.FirstFresh(t)..] == if t == 0 then pop else pop[|pop| - k..]
  {
    hide CalcEliteCount;
  }

  lemma LongEnough(e: Engine, pops: seq<seq<Gene>>, k: nat)
    requires e.IsLineage(pops) && k <= e.cfg.PopSize
    ensures forall t | 0 <= t < |pops| :: k <= |pops[t]|
  {
    forall t | 0 <= t < |pops| ensures k <= |pops[t]| {
      assert e.FullGeneration(pops[t]);
    }
  }

  lemma BehindStep(pops: seq<seq<Gene>>, k: nat)
    requires pops != [] && forall t | 0 <= t < |pops| :: k <= |pops[t]|
    ensures var t := |pops| - 1;
            && (forall u | 0 <= u < t :: k <= |pops[..t][u]|)
            && Behind(pops, k) == Behind(pops[..t], k) + (if t == 0 then pops[0] else pops[t][|pops[t]| - k..])
  {
  }

  lemma NothingBehind(e: Engine, k: nat)
    requires e.cfg.PopSize >= 1
    ensures e.IsLineage([]) && multiset(Behind([], k)) == e.Fresh([]) && FatalsIn(e, Behind([], k)) == e.FatalTotal([])
  {
  }

  lemma {:induction false} BehindIsFresh(e: Engine, pops: seq<seq<Gene>>, k: nat)
    requires e.cfg.PopSize >= 1 && e.IsLineage(pops)
    requires k == e.cfg.PopSize - CalcEliteCount(e.cfg.PopSize, e.cfg.EliteRatio)
    ensures forall t | 0 <= t < |pops| :: k <= |pops[t]|
    ensures multiset(Behind(pops, k)) == e.Fresh(pops) && FatalsIn(e, Behind(pops, k)) == e.FatalTotal(pops)
  {
    hide *;
    LongEnough(e, pops, k);
    if pops == [] {
      NothingBehind(e, k);
    } else {
      var t := |pops| - 1;
      FreshStep(e, pops, t);
      BehindIsFresh(e, pops[..t], k);
      BehindStep(pops, k);
      FreshPart(e, pops[t], t, k);
      var front, rest := Behind(pops[..t], k), pops[t][e.FirstFresh(t)..];
      assert Behind(pops, k) == front + rest;
      FatalsAppend(e, front, rest);
      CountIsFatals(e, pops[t], e.FirstFresh(t));
      assert multiset(front + rest) == multiset(front) + multiset(rest);
    }
  }

  // ---------------------------------------------------------------- Fatal evaluations

  ghost predicate FatalGene(e: Engine, g: Gene) {
    e.Evaluable(g) && e.ScoreOf(g).Fatal
  }

  ghost function FatalsIn(e: Engine, gs: seq<Gene>): nat {
    if gs == [] then 0 else FatalsIn(e, gs[..|gs| - 1]) + if FatalGene(e, gs[|gs| - 1]) then 1 else 0
  }

  lemma {:induction false} FatalsAreIndices(e: Engine, gs: seq<Gene>)
    ensures FatalsIn(e, gs) == |set i: nat | i < |gs| && FatalGene(e, gs[i])|
  {
    hide FatalGene;
    if gs != [] {
      var n := |gs| - 1;
      FatalsAreIndices(e, gs[..n]);
      var before := set i: nat | i < |gs[..n]| && FatalGene(e, gs[..n][i]);
      assert (set i: nat | i < |gs| && FatalGene(e, gs[i])) == before + if FatalGene(e, gs[n]) then {n} else {};
    }
  }

  lemma {:induction false} FatalsAppend(e: Engine, xs: seq<Gene>, ys: seq<Gene>)
    ensures FatalsIn(e, xs + ys) == FatalsIn(e, xs) + FatalsIn(e, ys)
  {
    hide FatalGene;
    if ys == [] {
      assert xs + ys == xs;
    } else {
      FatalsAppend(e, xs, ys[..|ys| - 1]);
      assert (xs + ys)[..|xs + ys| - 1] == xs + ys[..|ys| - 1];
    }
  }

  lemma FatalsWithout(e: Engine, gs: seq<Gene>, k: nat)
    requires k < |gs|
    ensures FatalsIn(e, gs) == FatalsIn(e, gs[..k] + gs[k + 1..]) + if FatalGene(e, gs[k]) then 1 else 0
    ensures multiset(gs[..k] + gs[k + 1..]) == multiset(gs) - multiset{gs[k]}
  {
    assert gs == gs[..k] + [gs[k]] + gs[k + 1..] && [gs[k]][..0] == [];
    assert FatalsIn(e, [gs[k]]) == if FatalGene(e, gs[k]) then 1 else 0;
    hide FatalsIn, FatalGene;
    FatalsAppend(e, gs[..k], [gs[k]]);
    FatalsAppend(e, gs[..k] + [gs[k]], gs[k + 1..]);
    FatalsAppend(e, gs[..k], gs[k + 1..]);
  }

  /** The count does not depend on the order of evaluation. */
  lemma {:induction false} FatalsPermute(e: Engine, xs: seq<Gene>, ys: seq<Gene>)
    requires multiset(xs) == multiset(ys)
    ensures FatalsIn(e, xs) == FatalsIn(e, ys)
  {
    hide FatalGene;
    if xs == [] {
      assert |multiset(ys)| == |ys| && ys == [];
    } else {
      var n := |xs| - 1;
      assert xs[n] in multiset(ys);
      var k :| 0 <= k < |ys| && ys[k] == xs[n];
      FatalsWithout(e, ys, k);
      FatalsWithout(e, xs, n);
      assert xs[..n] + xs[n + 1..] == xs[..n];
      FatalsPermute(e, xs[..n], ys[..k] + ys[k + 1..]);
    }
  }

  lemma CountIsFatals(e: Engine, pop: seq<Gene>, from: nat)
    requires e.AllEvaluable(pop) && from <= |pop|
    ensures e.FatalFrom(pop, from) == FatalsIn(e, pop[from..])
  {
    hide Engine.ScoreOf, Engine.Evaluable, CountFatal, FatalsIn;
    ScoresCount(e, pop[from..]);
    assert seq(|pop| - from, i requires 0 <= i < |pop| - from => e.ScoreOf(pop[from + i])) ==
           seq(|pop[from..]|, i requires 0 <= i < |pop[from..]| => e.ScoreOf(pop[from..][i]));
  }

  lemma {:induction false} ScoresCount(e: Engine, gs: seq<Gene>)
    requires e.AllEvaluable(gs)
    ensures CountFatal(seq(|gs|, i requires 0 <= i < |gs| => e.ScoreOf(gs[i]))) == FatalsIn(e, gs)
  {
    hide Engine.ScoreOf, Engine.Evaluable;
    var scores := seq(|gs|, i requires 0 <= i < |gs| => e.ScoreOf(gs[i]));
    if gs != [] {
      var n := |gs| - 1;
      ScoresCount(e, gs[..n]);
      assert scores[..n] == seq(n, i requires 0 <= i < n => e.ScoreOf(gs[..n][i]));
    }
  }

  /** An epoch that ends after G generations has made exactly PopSize + (G - 1) * k
      evaluations, of the sampled generation and of the last k slots of every later
      one, and FatalEvaluations is how many of them came back Fatal. */
  lemma EvaluationsMean(e: Engine, r: EpochResult, pops: seq<seq<Gene>>, trace: seq<Gene>, k: nat)
    requires e.ExactResult(r, pops, trace) && BredCount(e.cfg.PopSize, e.cfg.EliteRatio, k)
    ensures r.Stats.EvaluationsTotal == |trace| == e.cfg.PopSize + (r.Generations - 1) * k
    ensures forall t | 0 <= t < |pops| :: k <= |pops[t]| == e.cfg.PopSize
    ensures multiset(trace) == multiset(Behind(pops, k))
    ensures e.AllEvaluable(trace)
    ensures r.Stats.FatalEvaluations == |set i: nat | i < |trace| && e.ScoreOf(trace[i]).Fatal|
  {
    hide CalcEliteCount, Engine.CarriesElites, Engine.FatalTotal, Engine.Fresh, Engine.Leader, Engine.Evaluable,
         Engine.ScoreOf, FatalsIn, BredCount;
    assert e.FullGeneration(pops[|pops| - 1]);
    BredIs(e.cfg.PopSize, e.cfg.EliteRatio, k);
    BehindIsFresh(e, pops, k);
    forall t | 0 <= t < |pops| ensures |pops[t]| == e.cfg.PopSize {
      assert e.FullGeneration(pops[t]);
    }
    forall i | 0 <= i < |trace| ensures e.Evaluable(trace[i]) {
      assert e.Outranks(r.BestGene, trace[i]);
    }
    FatalsPermute(e, trace, Behind(pops, k));
    FatalsAreIndices(e, trace);
    assert (set i: nat | i < |trace| && e.ScoreOf(trace[i]).Fatal) ==
      (set i: nat | i < |trace| && FatalGene(e, trace[i]));
  }

  // ---------------------------------------------------------------- where a slot comes from

  /** g is bred from two tournament winners of prev with the draws from c on: m for
      each tournament, one for the crossover and one for the mutation. */
  ghost predicate BredFrom(e: Engine, prev: seq<Gene>, g: Gene, draws: Draws, c: nat, m: nat, mutProb: real,
                           mutScale: real)
    requires prev != [] && e.AllEvaluable(prev)
  {
    exists p1: nat, p2: nat :: p1 < |prev| && p2 < |prev| && Parents(e, prev, g, draws, c, m, mutProb, mutScale, p1, p2)
  }

  ghost predicate Parents(e: Engine, prev: seq<Gene>, g: Gene, draws: Draws, c: nat, m: nat, mutProb: real,
                          mutScale: real, p1: nat, p2: nat)
    requires prev != [] && e.AllEvaluable(prev) && p1 < |prev| && p2 < |prev|
  {
    && WinsTournament(e.Keys(prev), draws, c, m, p1)
    && WinsTournament(e.Keys(prev), draws, c + m, m, p2)
    && g == e.strat.Mutate(e.strat.Crossover(prev[p1], prev[p2], draws(c + 2 * m)), mutProb, mutScale,
                           draws(c + 2 * m + 1))
  }

  /** The first slots are the best of prev in rank order, ties in index order. */
  ghost predicate ElitesOf(e: Engine, prev: seq<Gene>, next: seq<Gene>, ne: nat)
    requires e.AllEvaluable(prev) && ne <= |prev| == |next|
  {
    exists ord :: StablySorted(e.Keys(prev), ord, |prev|) && forall i | 0 <= i < ne :: next[i] == prev[ord[i]]
  }

  lemma {:induction false} CursorIs(cfg: EngineConfig, from: nat, j: nat)
    ensures CursorAt(cfg, from, j) == from + j * (2 * Rounds(cfg) + 2)
  {
    if j > 0 {
      CursorIs(cfg, from, j - 1);
      assert j * (2 * Rounds(cfg) + 2) == (j - 1) * (2 * Rounds(cfg) + 2) + (2 * Rounds(cfg) + 2);
    }
  }

  lemma {:induction false} GenCursorIs(e: Engine, from: nat, t: nat, k: nat)
    requires e.cfg.PopSize >= 1 && k == e.cfg.PopSize - CalcEliteCount(e.cfg.PopSize, e.cfg.EliteRatio)
    ensures e.GenCursor(from, t) == from + e.cfg.PopSize + (t * k) * (2 * Rounds(e.cfg) + 2)
  {
    hide CalcEliteCount, CursorAt, Rounds;
    var w := 2 * Rounds(e.cfg) + 2;
    if t > 0 {
      GenCursorIs(e, from, t - 1, k);
      CursorIs(e.cfg, e.GenCursor(from, t - 1), k);
      assert t * k == (t - 1) * k + k;
      Distribute((t - 1) * k, k, w);
    }
  }

  lemma Distribute(a: nat, b: nat, w: nat)
    ensures (a + b) * w == a * w + b * w
  {
  }

  lemma ChildIsBred(e: Engine, prev: seq<Gene>, draws: Draws, c: nat, mutProb: real, mutScale: real)
    requires prev != [] && e.AllEvaluable(prev)
    ensures BredFrom(e, prev, Child(e.strat, e.cfg, draws, prev, e.Keys(prev), c, mutProb, mutScale), draws, c,
                     Rounds(e.cfg), mutProb, mutScale)
  {
    hide Engine.Evaluable, Engine.Keys, WinsTournament, Winner, Rounds;
    var ks, m := e.Keys(prev), Rounds(e.cfg);
    WinnerWins(ks, draws, c, m);
    WinnerWins(ks, draws, c + m, m);
    assert Parents(e, prev, Child(e.strat, e.cfg, draws, prev, ks, c, mutProb, mutScale), draws, c, m, mutProb,
                   mutScale,
                   Winner(ks, draws, c, m), Winner(ks, draws, c + m, m));
  }

  lemma SuccessorSlots(e: Engine, prev: seq<Gene>, next: seq<Gene>, draws: Draws, from: nat, mutProb: real,
                       mutScale: real, k: nat)
    requires e.Succeeds(prev, next, draws, from, mutProb, mutScale)
    requires k == |prev| - CalcEliteCount(|prev|, e.cfg.EliteRatio)
    ensures |next| == |prev| && ElitesOf(e, prev, next, |prev| - k)
    ensures forall j | 0 <= j < k ::
              BredFrom(e, prev, next[|prev| - k + j], draws, CursorAt(e.cfg, from, j), Rounds(e.cfg), mutProb, mutScale)
  {
    hide CalcEliteCount, Engine.Evaluable, Engine.Keys, Child, BredFrom, StablySorted, Rounds, CursorAt;
    assert StablySorted(e.Keys(prev), e.Ranked(prev), |prev|);
    forall j | 0 <= j < k
      ensures BredFrom(e, prev, next[|prev| - k + j], draws, CursorAt(e.cfg, from, j), Rounds(e.cfg), mutProb, mutScale)
    {
      ChildIsBred(e, prev, draws, CursorAt(e.cfg, from, j), mutProb, mutScale);
    }
  }

  /** The draw that slot j of the k bred ones of generation t starts with: the
      sampled genes took one each, every child 2 * m + 2. */
  ghost function SlotDraw(n: nat, m: nat, k: nat, from: nat, t: nat, j: nat): nat
    requires t > 0
  {
    from + n + ((t - 1) * k + j) * (2 * m + 2)
  }

  ghost predicate SlotsFrom(e: Engine, prev: seq<Gene>, next: seq<Gene>, draws: Draws, from: nat, t: nat, m: nat,
                            k: nat, mutProb: real, mutScale: real)
    requires prev != [] && e.AllEvaluable(prev) && k <= |prev| == |next| && t > 0
  {
    && ElitesOf(e, prev, next, |prev| - k)
    && forall j: nat | j < k ::
         BredFrom(e, prev, next[|prev| - k + j], draws, SlotDraw(|prev|, m, k, from, t, j), m, mutProb, mutScale)
  }

  lemma SlotDrawIs(e: Engine, from: nat, t: nat, k: nat, j: nat)
    requires e.cfg.PopSize >= 1 && k == e.cfg.PopSize - CalcEliteCount(e.cfg.PopSize, e.cfg.EliteRatio) && t > 0
    ensures CursorAt(e.cfg, e.GenCursor(from, t - 1), j) == SlotDraw(e.cfg.PopSize, Rounds(e.cfg), k, from, t, j)
  {
    hide CalcEliteCount, CursorAt, Rounds, Engine.GenCursor;
    GenCursorIs(e, from, t - 1, k);
    CursorIs(e.cfg, e.GenCursor(from, t - 1), j);
    Distribute((t - 1) * k, j, 2 * Rounds(e.cfg) + 2);
  }

  lemma SlotsOf(e: Engine, prev: seq<Gene>, next: seq<Gene>, draws: Draws, from: nat, t: nat, k: nat, mutProb: real,
                mutScale: real)
    requires |prev| == e.cfg.PopSize >= 1 && t > 0 && e.AllEvaluable(prev)
    requires k == e.cfg.PopSize - CalcEliteCount(e.cfg.PopSize, e.cfg.EliteRatio)
    requires e.Succeeds(prev, next, draws, e.GenCursor(from, t - 1), mutProb, mutScale)
    ensures |next| == |prev| && SlotsFrom(e, prev, next, draws, from, t, Rounds(e.cfg), k, mutProb, mutScale)
  {
    hide CalcEliteCount, CursorAt, Rounds, Engine.GenCursor, Engine.Succeeds, BredFrom, ElitesOf, SlotDraw,
         Engine.Evaluable;
    SuccessorSlots(e, prev, next, draws, e.GenCursor(from, t - 1), mutProb, mutScale, k);
    forall j: nat | j < k
      ensures BredFrom(e, prev, next[|prev| - k + j], draws, SlotDraw(|prev|, Rounds(e.cfg), k, from, t, j),
                       Rounds(e.cfg),
                       mutProb, mutScale)
    {
      SlotDrawIs(e, from, t, k, j);
    }
  }

  /** Every slot of every generation after the sampled one: the elites of the
      generation before, then k children, each from its own stretch of the one
      stream of draws and under the mutation knobs the bests so far call for. */
  lemma SlotsMean(e: Engine, pops: seq<seq<Gene>>, draws: Draws, from: nat, t: nat, k: nat)
    requires e.IsLineage(pops) && e.History(pops, draws, from) && 0 < t < |pops|
    requires e.cfg.PopSize >= 1 && BredCount(e.cfg.PopSize, e.cfg.EliteRatio, k)
    ensures k <= |pops[t - 1]| == |pops[t]| == e.cfg.PopSize && e.AllEvaluable(pops[t - 1])
    ensures var m, live := if e.cfg.TournamentSize > 1 then e.cfg.TournamentSize else 1, Run(e.cfg, e.Bests(pops)[..t]);
            SlotsFrom(e, pops[t - 1], pops[t], draws, from, t, m, k, live.mutProb, live.mutScale)
  {
    hide *;
    BredIs(e.cfg.PopSize, e.cfg.EliteRatio, k);
    e.HistoryPrefix(pops, t + 1, draws, from);
    e.LastStep(pops[..t + 1], draws, from);
    assert pops[..t + 1][..t] == pops[..t];
    e.LineagePrefix(pops, t);
    FullIs(e, pops, t - 1);
    var live := Run(e.cfg, e.Bests(pops[..t]));
    SlotsOf(e, pops[t - 1], pops[t], draws, from, t, k, live.mutProb, live.mutScale);
    RoundsIs(e.cfg);
  }

  lemma FullIs(e: Engine, pops: seq<seq<Gene>>, t: nat)
    requires e.IsLineage(pops) && t < |pops|
    ensures |pops[t]| == e.cfg.PopSize && e.AllEvaluable(pops[t])
  {
    hide Engine.Evaluable;
    assert e.FullGeneration(pops[t]);
  }

  /** The first generation is what the strategy samples from the first draws. */
  lemma {:induction false} FirstIsSampled(e: Engine, pops: seq<seq<Gene>>, draws: Draws, from: nat)
    requires e.IsLineage(pops) && e.History(pops, draws, from)
    ensures pops != [] && |pops[0]| == e.cfg.PopSize
    ensures forall i | 0 <= i < |pops[0]| :: pops[0][i] == e.strat.Sample(draws(from + i))
  {
    hide Engine.Succeeds, Run, Engine.Bests, Engine.GenCursor, Engine.Sampled;
    e.LastStep(pops, draws, from);
    if |pops| > 1 {
      FirstIsSampled(e, pops[..|pops| - 1], draws, from);
    } else {
      SampledIs(e, draws, from);
    }
  }

  lemma SampledIs(e: Engine, draws: Draws, from: nat)
    requires e.cfg.PopSize >= 0
    ensures forall i | 0 <= i < e.cfg.PopSize :: e.Sampled(draws, from)[i] == e.strat.Sample(draws(from + i))
  {
  }

  /** The weights of the four in-sample windows are 1 to 4 tenths in evaluation
      order, which makes 1 in all; no other window counts. */
  lemma WeightsRise(w: WindowName)
    ensures WindowWeights(W6M) + WindowWeights(W2Y) + WindowWeights(W5Y) + WindowWeights(W10Y) == 1.0
    ensures WindowWeights(w) * 10.0 ==
            if w.W6M? then 1.0 else if w.W2Y? then 2.0 else if w.W5Y? then 3.0 else if w.W10Y? then 4.0 else 0.0
  {
  }
}
