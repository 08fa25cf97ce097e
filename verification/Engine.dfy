/** The genetic-algorithm epoch: a worker pool that evaluates one generation,
    elite carry-over through scratch buffers and the generation loop. */
module Engine {
  import opened Common
  import opened ResultPkg
  import opened Convergence
  import opened Ranking
  import opened Breeding

  datatype SearchStats = SearchStats(
    PopSize: int,
    MaxGenerations: int,
    Generations: int,
    EvaluationsTotal: int,
    FatalEvaluations: int)

  datatype EpochResult = EpochResult(
    BestGene: Gene,
    BestScore: ScoreTotal,
    BestFingerprint: string,
    BestRawEvaluate: RawEvaluateResult,
    Generations: int,
    Stats: SearchStats)

  datatype EpochOutcome = Done(result: EpochResult) | Failed(why: string)

  function WindowWeights(w: WindowName): real {
    match w
    case W6M => 0.10
    case W2Y => 0.20
    case W5Y => 0.30
    case W10Y => 0.40
    case Oos => 0.0
    case UnknownWindow(_) => 0.0
  }

  function CountFatal(scores: seq<ScoreTotal>): nat {
    if scores == [] then 0
    else CountFatal(scores[..|scores| - 1]) + if scores[|scores| - 1].Fatal then 1 else 0
  }

  // ---------------------------------------------------------------- worker states

  /** Where one worker goroutine is inside the job loop. */
  datatype Worker =
    | Idle
    | Holding(idx: nat)
    | Evaluated(idx: nat, raw: RawEvaluateResult)
    | ScoreWritten(idx: nat, raw: RawEvaluateResult)
    | Exited

  predicate Busy(w: Worker) { w.Holding? || w.Evaluated? || w.ScoreWritten? }

  function Rank(w: Worker): nat {
    match w
    case Idle => 1
    case Holding(_) => 4
    case Evaluated(_, _) => 3
    case ScoreWritten(_, _) => 2
    case Exited => 0
  }

  ghost function RankSum(ws: seq<Worker>): nat {
    if ws == [] then 0 else RankSum(ws[..|ws| - 1]) + Rank(ws[|ws| - 1])
  }

  lemma {:induction false} RankSumUpdate(ws: seq<Worker>, w: nat, x: Worker)
    requires w < |ws|
    ensures RankSum(ws[w := x]) == RankSum(ws) - Rank(ws[w]) + Rank(x)
  {
    var k := |ws| - 1;
    if w < k {
      RankSumUpdate(ws[..k], w, x);
      assert ws[w := x][..k] == ws[..k][w := x];
    } else {
      assert ws[w := x][..k] == ws[..k];
    }
  }

  lemma OneMore(k: int, d: int)
    ensures (k + 1) * d == k * d + d
  {
  }

  // ---------------------------------------------------------------- the genes handed out

  /** order lists the members of evaluated, each once, all within [lo, hi). */
  ghost predicate OnceEach(order: seq<nat>, evaluated: set<nat>, lo: nat, hi: nat) {
    DistinctIn(order, lo, hi) && forall x :: x in evaluated <==> x in order
  }

  ghost function GenesAt(pop: seq<Gene>, order: seq<nat>): (gs: seq<Gene>)
    requires forall i | 0 <= i < |order| :: order[i] < |pop|
    ensures |gs| == |order|
  {
    seq(|order|, i requires 0 <= i < |order| => pop[order[i]])
  }

  /** made is the genes at the indices in order, which lists evaluated once each. */
  ghost predicate HandedOut(pop: seq<Gene>, order: seq<nat>, evaluated: set<nat>, lo: nat, made: seq<Gene>) {
    && OnceEach(order, evaluated, lo, |pop|)
    && (forall i | 0 <= i < |order| :: order[i] < |pop|)
    && made == GenesAt(pop, order)
  }

  lemma OnceMore(pop: seq<Gene>, order: seq<nat>, evaluated: set<nat>, lo: nat, made: seq<Gene>, idx: nat)
    requires HandedOut(pop, order, evaluated, lo, made) && lo <= idx < |pop| && idx !in evaluated
    ensures HandedOut(pop, order + [idx], evaluated + {idx}, lo, made + [pop[idx]])
  {
  }

  lemma OnceEachIsPermutation(pop: seq<Gene>, order: seq<nat>, evaluated: set<nat>, lo: nat, made: seq<Gene>)
    requires HandedOut(pop, order, evaluated, lo, made) && lo <= |pop|
    ensures multiset(made) <= multiset(pop[lo..])
    ensures (forall i: nat | lo <= i < |pop| :: i in evaluated) ==> multiset(made) == multiset(pop[lo..])
  {
    DistinctBelow(pop, order, lo, |pop|);
    assert pop[lo..|pop|] == pop[lo..];
  }

  lemma SplitAt(pop: seq<Gene>, order: seq<nat>, k: nat)
    requires k < |order| && forall i | 0 <= i < |order| :: order[i] < |pop|
    ensures var rest := order[..k] + order[k + 1..];
            && (forall i | 0 <= i < |rest| :: rest[i] < |pop|)
            && multiset(GenesAt(pop, order)) == multiset(GenesAt(pop, rest)) + multiset{pop[order[k]]}
  {
    var rest := order[..k] + order[k + 1..];
    assert GenesAt(pop, order) == GenesAt(pop, order[..k]) + [pop[order[k]]] + GenesAt(pop, order[k + 1..]);
    assert GenesAt(pop, rest) == GenesAt(pop, order[..k]) + GenesAt(pop, order[k + 1..]);
  }

  ghost predicate DistinctIn(order: seq<nat>, lo: nat, hi: nat) {
    && (forall i | 0 <= i < |order| :: lo <= order[i] < hi)
    && (forall i, j | 0 <= i < j < |order| :: order[i] != order[j])
  }

  ghost predicate Covers(order: seq<nat>, lo: nat, hi: nat) {
    forall i: nat | lo <= i < hi :: i in order
  }

  lemma WithoutAt(order: seq<nat>, k: nat, lo: nat, hi: nat)
    requires k < |order| && order[k] == hi - 1 && DistinctIn(order, lo, hi)
    ensures DistinctIn(order[..k] + order[k + 1..], lo, hi - 1)
    ensures Covers(order, lo, hi) ==> Covers(order[..k] + order[k + 1..], lo, hi - 1)
  {
    var rest := order[..k] + order[k + 1..];
    forall i: nat | i in order && i != hi - 1 ensures i in rest {
      var j :| 0 <= j < |order| && order[j] == i;
      assert i == rest[if j < k then j else j - 1];
    }
  }

  lemma WithoutLast(order: seq<nat>, lo: nat, hi: nat)
    requires DistinctIn(order, lo, hi) && hi - 1 !in order && hi >= 1
    ensures DistinctIn(order, lo, hi - 1) && (lo < hi ==> !Covers(order, lo, hi))
  {
  }

  /** Distinct indices of an interval pick a sub-multiset of its genes, and all
      of them when they cover it. */
  lemma {:induction false} DistinctBelow(pop: seq<Gene>, order: seq<nat>, lo: nat, hi: nat)
    requires lo <= hi <= |pop| && DistinctIn(order, lo, hi) && forall i | 0 <= i < |order| :: order[i] < |pop|
    ensures multiset(GenesAt(pop, order)) <= multiset(pop[lo..hi])
    ensures Covers(order, lo, hi) ==> multiset(GenesAt(pop, order)) == multiset(pop[lo..hi])
    decreases hi
  {
    hide GenesAt, DistinctIn, Covers;
    if lo < hi {
      assert pop[lo..hi] == pop[lo..hi - 1] + [pop[hi - 1]];
      if hi - 1 in order {
        var k :| 0 <= k < |order| && order[k] == hi - 1;
        SplitAt(pop, order, k);
        WithoutAt(order, k, lo, hi);
        DistinctBelow(pop, order[..k] + order[k + 1..], lo, hi - 1);
      } else {
        WithoutLast(order, lo, hi);
        DistinctBelow(pop, order, lo, hi - 1);
      }
    } else if order != [] {
      SomethingIn(order, lo, hi);
    }
  }

  lemma SomethingIn(order: seq<nat>, lo: nat, hi: nat)
    requires DistinctIn(order, lo, hi) && order != []
    ensures lo < hi
  {
    assert order[0] >= lo;
  }

  datatype Engine = Engine(strat: Strategy, cfg: EngineConfig, sqrt: real -> real) {

    // -------------------------------------------------------------- meaning

    /** A gene whose evaluation succeeds and passes the boundary validator. */
    ghost predicate Evaluable(g: Gene) {
      strat.Evaluate(g).Some? && IsCascadeSequence(strat.Evaluate(g).value)
    }

    ghost function RawOf(g: Gene): RawEvaluateResult
      requires Evaluable(g)
    {
      strat.Evaluate(g).value
    }

    ghost function ScoreOf(g: Gene): ScoreTotal
      requires Evaluable(g)
    {
      Aggregate(RawOf(g), WindowWeights, cfg.LambdaCons, sqrt)
    }

    ghost predicate RightAt(g: Gene, score: ScoreTotal, raw: RawEvaluateResult) {
      Evaluable(g) && score == ScoreOf(g) && raw == RawOf(g)
    }

    /** The carried-over arrays agree with evaluating every gene afresh. */
    ghost predicate CacheAgrees(pop: seq<Gene>, scores: seq<ScoreTotal>, raws: seq<RawEvaluateResult>) {
      && |scores| == |raws| == |pop|
      && forall i | 0 <= i < |pop| :: RightAt(pop[i], scores[i], raws[i])
    }

    ghost predicate AllEvaluable(pop: seq<Gene>) {
      forall i | 0 <= i < |pop| :: Evaluable(pop[i])
    }

    lemma ScoreOfComparable(g: Gene)
      requires Evaluable(g)
      ensures Comparable(ScoreOf(g))
    {
    }

    ghost function KeyOf(g: Gene): (k: Key)
      requires Evaluable(g)
      ensures RankableKey(k)
    {
      ScoreOfComparable(g);
      Key(ScoreOf(g), strat.Fingerprint(g))
    }

    /** g ranks no worse than every gene of pop. */
    ghost predicate Beats(g: Gene, pop: seq<Gene>)
      requires Evaluable(g) && AllEvaluable(pop)
    {
      forall i | 0 <= i < |pop| :: NoWorse(KeyOf(g), KeyOf(pop[i]))
    }

    lemma BeatsTransitive(g: Gene, h: Gene, pop: seq<Gene>)
      requires Evaluable(g) && Evaluable(h) && AllEvaluable(pop)
      requires NoWorse(KeyOf(g), KeyOf(h)) && Beats(h, pop)
      ensures Beats(g, pop)
    {
      forall i | 0 <= i < |pop| ensures NoWorse(KeyOf(g), KeyOf(pop[i])) {
        TotalPreorder(KeyOf(g), KeyOf(h), KeyOf(pop[i]));
      }
    }

    // -------------------------------------------------------------- worker pool

    ghost predicate InFlight(ws: seq<Worker>, i: nat) {
      exists w :: 0 <= w < |ws| && Busy(ws[w]) && ws[w].idx == i
    }

    /** No two workers hold the same index, and a worker that has evaluated
        carries the result of its own gene. */
    ghost predicate WorkersConsistent(pop: seq<Gene>, nSkip: nat, ws: seq<Worker>, next: nat, evaluated: set<nat>) {
      && nSkip <= next <= |pop|
      && (forall w | 0 <= w < |ws| && Busy(ws[w]) :: nSkip <= ws[w].idx < next)
      && (forall v, w | 0 <= v < w < |ws| && Busy(ws[v]) && Busy(ws[w]) :: ws[v].idx != ws[w].idx)
      && (forall w | 0 <= w < |ws| && Busy(ws[w]) :: ws[w].idx in evaluated <==> !ws[w].Holding?)
      && (forall w | 0 <= w < |ws| && (ws[w].Evaluated? || ws[w].ScoreWritten?) ::
            Evaluable(pop[ws[w].idx]) && ws[w].raw == RawOf(pop[ws[w].idx]))
      && (forall i | i in evaluated :: nSkip <= i < next)
    }

    /** Every index taken from the queue is in some worker's hands or finished. */
    ghost predicate Accounted(pop: seq<Gene>, nSkip: nat, ws: seq<Worker>, next: nat, evaluated: set<nat>,
                              scores: seq<ScoreTotal>, raws: seq<RawEvaluateResult>)
      requires |scores| == |raws| == |pop| && next <= |pop|
    {
      forall i: nat | nSkip <= i < next ::
        InFlight(ws, i) || (i in evaluated && RightAt(pop[i], scores[i], raws[i]))
    }

    ghost predicate ScoresWritten(pop: seq<Gene>, nSkip: nat, ws: seq<Worker>, next: nat, evaluated: set<nat>,
                                  scores: seq<ScoreTotal>)
      requires |scores| == |pop| && WorkersConsistent(pop, nSkip, ws, next, evaluated)
    {
      forall w | 0 <= w < |ws| && ws[w].ScoreWritten? :: scores[ws[w].idx] == ScoreOf(pop[ws[w].idx])
    }

    /** What holds between any two steps of any schedule of the workers. */
    ghost predicate PoolInvariant(pop: seq<Gene>, nSkip: nat, ws: seq<Worker>, next: nat, errs: nat,
                                  evaluated: set<nat>, scores: seq<ScoreTotal>, raws: seq<RawEvaluateResult>)
    {
      && |scores| == |raws| == |pop|
      && WorkersConsistent(pop, nSkip, ws, next, evaluated)
      && ScoresWritten(pop, nSkip, ws, next, evaluated, scores)
      && (errs == 0 ==> Accounted(pop, nSkip, ws, next, evaluated, scores, raws))
      && (errs == 0 && next < |pop| ==> forall w | 0 <= w < |ws| :: !ws[w].Exited?)
    }

    lemma FlightKept(ws: seq<Worker>, w: nat, x: Worker)
      requires w < |ws|
      requires Busy(ws[w]) ==> Busy(x) && x.idx == ws[w].idx
      ensures forall i | InFlight(ws, i) :: InFlight(ws[w := x], i)
      ensures Busy(x) ==> InFlight(ws[w := x], x.idx)
    {
      forall i | InFlight(ws, i) ensures InFlight(ws[w := x], i) {
        var v :| 0 <= v < |ws| && Busy(ws[v]) && ws[v].idx == i;
        assert Busy(ws[w := x][v]) && ws[w := x][v].idx == i;
      }
      assert ws[w := x][w] == x;
    }

    lemma TakeJob(pop: seq<Gene>, nSkip: nat, ws: seq<Worker>, next: nat, errs: nat, evaluated: set<nat>,
                  scores: seq<ScoreTotal>, raws: seq<RawEvaluateResult>, w: nat)
      requires PoolInvariant(pop, nSkip, ws, next, errs, evaluated, scores, raws)
      requires w < |ws| && ws[w].Idle? && next < |pop|
      ensures PoolInvariant(pop, nSkip, ws[w := Holding(next)], next + 1, errs, evaluated, scores, raws)
    {
      FlightKept(ws, w, Holding(next));
    }

    lemma LeaveQueue(pop: seq<Gene>, nSkip: nat, ws: seq<Worker>, next: nat, errs: nat, evaluated: set<nat>,
                     scores: seq<ScoreTotal>, raws: seq<RawEvaluateResult>, w: nat)
      requires PoolInvariant(pop, nSkip, ws, next, errs, evaluated, scores, raws)
      requires w < |ws| && ws[w].Idle? && next == |pop|
      ensures PoolInvariant(pop, nSkip, ws[w := Exited], next, errs, evaluated, scores, raws)
    {
      FlightKept(ws, w, Exited);
    }

    lemma FailJob(pop: seq<Gene>, nSkip: nat, ws: seq<Worker>, next: nat, errs: nat, evaluated: set<nat>,
                  scores: seq<ScoreTotal>, raws: seq<RawEvaluateResult>, w: nat, called: bool)
      requires PoolInvariant(pop, nSkip, ws, next, errs, evaluated, scores, raws)
      requires w < |ws| && ws[w].Holding?
      ensures PoolInvariant(pop, nSkip, ws[w := Exited], next, errs + 1,
                            if called then evaluated + {ws[w].idx} else evaluated, scores, raws)
    {
    }

    lemma FinishEvaluate(pop: seq<Gene>, nSkip: nat, ws: seq<Worker>, next: nat, errs: nat, evaluated: set<nat>,
                         scores: seq<ScoreTotal>, raws: seq<RawEvaluateResult>, w: nat)
      requires PoolInvariant(pop, nSkip, ws, next, errs, evaluated, scores, raws)
      requires w < |ws| && ws[w].Holding? && Evaluable(pop[ws[w].idx])
      ensures PoolInvariant(pop, nSkip, ws[w := Evaluated(ws[w].idx, RawOf(pop[ws[w].idx]))], next, errs,
                            evaluated + {ws[w].idx}, scores, raws)
    {
      FlightKept(ws, w, Evaluated(ws[w].idx, RawOf(pop[ws[w].idx])));
    }

    lemma WriteScore(pop: seq<Gene>, nSkip: nat, ws: seq<Worker>, next: nat, errs: nat, evaluated: set<nat>,
                     scores: seq<ScoreTotal>, raws: seq<RawEvaluateResult>, w: nat)
      requires PoolInvariant(pop, nSkip, ws, next, errs, evaluated, scores, raws)
      requires w < |ws| && ws[w].Evaluated?
      ensures PoolInvariant(pop, nSkip, ws[w := ScoreWritten(ws[w].idx, ws[w].raw)], next, errs, evaluated,
                            scores[ws[w].idx := ScoreOf(pop[ws[w].idx])], raws)
    {
      FlightKept(ws, w, ScoreWritten(ws[w].idx, ws[w].raw));
    }

    lemma WriteRaw(pop: seq<Gene>, nSkip: nat, ws: seq<Worker>, next: nat, errs: nat, evaluated: set<nat>,
                   scores: seq<ScoreTotal>, raws: seq<RawEvaluateResult>, w: nat)
      requires PoolInvariant(pop, nSkip, ws, next, errs, evaluated, scores, raws)
      requires w < |ws| && ws[w].ScoreWritten?
      ensures PoolInvariant(pop, nSkip, ws[w := Idle], next, errs, evaluated, scores, raws[ws[w].idx := ws[w].raw])
    {
      var idx, raws' := ws[w].idx, raws[ws[w].idx := ws[w].raw];
      assert RightAt(pop[idx], scores[idx], raws'[idx]);
      if errs == 0 {
        forall i: nat | nSkip <= i < next
          ensures InFlight(ws[w := Idle], i) || (i in evaluated && RightAt(pop[i], scores[i], raws'[i]))
        {
          if i != idx && InFlight(ws, i) {
            var v :| 0 <= v < |ws| && Busy(ws[v]) && ws[v].idx == i;
            assert Busy(ws[w := Idle][v]) && ws[w := Idle][v].idx == i;
          }
        }
      }
    }

    /** A worker without a job takes the next one or leaves the drained queue. */
    method QueueStep(pop: seq<Gene>, nSkip: nat, ws: seq<Worker>, next: nat, ghost errs: nat, ghost evaluated: set<nat>,
                     ghost scores: seq<ScoreTotal>, ghost raws: seq<RawEvaluateResult>, w: nat)
      returns (ws': seq<Worker>, next': nat)
      requires PoolInvariant(pop, nSkip, ws, next, errs, evaluated, scores, raws)
      requires w < |ws| && ws[w].Idle?
      ensures next' <= |pop| && PoolInvariant(pop, nSkip, ws', next', errs, evaluated, scores, raws)
      ensures |ws'| == |ws| && RankSum(ws') + 4 * (|pop| - next') < RankSum(ws) + 4 * (|pop| - next)
    {
      if next < |pop| {
        TakeJob(pop, nSkip, ws, next, errs, evaluated, scores, raws, w);
        RankSumUpdate(ws, w, Holding(next));
        return ws[w := Holding(next)], next + 1;
      }
      LeaveQueue(pop, nSkip, ws, next, errs, evaluated, scores, raws, w);
      RankSumUpdate(ws, w, Exited);
      return ws[w := Exited], next;
    }

    /** Between these cursors the context was found cancelled or a reset failed, or
        one of the genes evaluated is not evaluable. */
    ghost predicate Faulted(world: World, polls0: nat, polls1: nat, resets0: nat, resets1: nat, made: seq<Gene>) {
      || (exists p :: polls0 <= p < polls1 && world.cancelled(p))
      || (exists r :: resets0 <= r < resets1 && world.resetFails(r))
      || (exists i :: 0 <= i < |made| && !Evaluable(made[i]))
    }

    /** A worker with a job checks the context, resets its adapter, evaluates and
        validates; any failure ends the worker. */
    method EvaluateStep(world: World, pop: seq<Gene>, nSkip: nat, ws: seq<Worker>, next: nat, errs: nat,
                        ghost evaluated: set<nat>,
                        ghost scores: seq<ScoreTotal>, ghost raws: seq<RawEvaluateResult>, w: nat)
      returns (ws': seq<Worker>, errs': nat, ghost called: bool)
      requires PoolInvariant(pop, nSkip, ws, next, errs, evaluated, scores, raws)
      requires w < |ws| && ws[w].Holding?
      modifies world`polls, world`resets, world`calls
      ensures nSkip <= ws[w].idx < |pop| && ws[w].idx !in evaluated
      ensures world.calls == old(world.calls) + (if called then [pop[ws[w].idx]] else [])
      ensures called <==> !world.cancelled(old(world.polls)) && !world.resetFails(old(world.resets))
      ensures errs' == if called && Evaluable(pop[ws[w].idx]) then errs else errs + 1
      ensures old(world.polls) <= world.polls && old(world.resets) <= world.resets
      ensures errs' > errs <==> Faulted(world, old(world.polls), world.polls, old(world.resets), world.resets,
                                          if called then [pop[ws[w].idx]] else [])
      ensures var evaluated' := if called then evaluated + {ws[w].idx} else evaluated;
              PoolInvariant(pop, nSkip, ws', next, errs', evaluated', scores, raws)
      ensures |ws'| == |ws| && RankSum(ws') < RankSum(ws)
    {
      hide PoolInvariant, Faulted, Evaluable, IsCascadeSequence, RankSum;
      HeldIndex(pop, nSkip, ws, next, errs, evaluated, scores, raws, w);
      var idx := ws[w].idx;
      called := false;
      ghost var polls0, resets0 := world.polls, world.resets;
      var done := world.ContextDone();
      var ready := false;
      if !done {
        ready := world.Reset();
      }
      OneLook(world, polls0, resets0, world.resets, pop[idx]);
      FailJob(pop, nSkip, ws, next, errs, evaluated, scores, raws, w, ready);
      RankSumUpdate(ws, w, Exited);
      if !ready {
        return ws[w := Exited], errs + 1, called;
      }
      var raw := world.Evaluate(strat, pop[idx]);
      called := true;
      var valid := ValidateForIS(raw);
      EvaluableIs(pop[idx]);
      if valid.Fail? {
        return ws[w := Exited], errs + 1, called;
      }
      FinishEvaluate(pop, nSkip, ws, next, errs, evaluated, scores, raws, w);
      RankSumUpdate(ws, w, Evaluated(idx, raw.value));
      return ws[w := Evaluated(idx, raw.value)], errs, called;
    }

    lemma HeldIndex(pop: seq<Gene>, nSkip: nat, ws: seq<Worker>, next: nat, errs: nat, evaluated: set<nat>,
                    scores: seq<ScoreTotal>, raws: seq<RawEvaluateResult>, w: nat)
      requires PoolInvariant(pop, nSkip, ws, next, errs, evaluated, scores, raws)
      requires w < |ws| && ws[w].Holding?
      ensures nSkip <= ws[w].idx < |pop| && ws[w].idx !in evaluated
    {
    }

    lemma EvaluableIs(g: Gene)
      ensures Evaluable(g) <==> strat.Evaluate(g).Some? && IsCascadeSequence(strat.Evaluate(g).value)
      ensures Evaluable(g) ==> RawOf(g) == strat.Evaluate(g).value
    {
    }

    /** What one look at the context and at most one reset and one gene can fault. */
    lemma OneLook(world: World, polls0: nat, resets0: nat, resets1: nat, g: Gene)
      requires resets0 <= resets1 <= resets0 + 1
      ensures Faulted(world, polls0, polls0 + 1, resets0, resets1, [])
              <==> world.cancelled(polls0) || (resets0 < resets1 && world.resetFails(resets0))
      ensures Faulted(world, polls0, polls0 + 1, resets0, resets1, [g])
              <==> world.cancelled(polls0) || (resets0 < resets1 && world.resetFails(resets0)) || !Evaluable(g)
    {
      hide Evaluable;
      assert [g][0] == g;
    }

    lemma NothingYet(world: World, polls0: nat, resets0: nat)
      ensures !Faulted(world, polls0, polls0, resets0, resets0, [])
    {
    }

    /** scores[idx] = ..., then in a later step raws[idx] = ...; other workers may
        run in between. */
    method WriteStep(pop: seq<Gene>, nSkip: nat, ws: seq<Worker>, ghost next: nat, ghost errs: nat,
                     ghost evaluated: set<nat>, scores: array<ScoreTotal>, raws: array<RawEvaluateResult>, w: nat)
      returns (ws': seq<Worker>)
      requires PoolInvariant(pop, nSkip, ws, next, errs, evaluated, scores[..], raws[..])
      requires w < |ws| && (ws[w].Evaluated? || ws[w].ScoreWritten?)
      modifies scores, raws
      ensures PoolInvariant(pop, nSkip, ws', next, errs, evaluated, scores[..], raws[..])
      ensures |ws'| == |ws| && RankSum(ws') < RankSum(ws)
      ensures scores[..nSkip] == old(scores[..nSkip]) && raws[..nSkip] == old(raws[..nSkip])
    {
      var idx, raw := ws[w].idx, ws[w].raw;
      assert nSkip <= idx < |pop|;
      if ws[w].Evaluated? {
        WriteScore(pop, nSkip, ws, next, errs, evaluated, scores[..], raws[..], w);
        var total := AggregateScoreTotal(raw, WindowWeights, cfg.LambdaCons, sqrt);
        scores[idx] := total;
        assert scores[..] == old(scores[..])[idx := total];
        RankSumUpdate(ws, w, ScoreWritten(idx, raw));
        return ws[w := ScoreWritten(idx, raw)];
      }
      WriteRaw(pop, nSkip, ws, next, errs, evaluated, scores[..], raws[..], w);
      raws[idx] := raw;
      assert raws[..] == old(raws[..])[idx := raw];
      RankSumUpdate(ws, w, Idle);
      return ws[w := Idle];
    }

    /** Spreads pop[nSkip..] over the workers. Each loop iteration is one atomic
        step of one arbitrary worker, so the contract holds for every schedule:
        no gene slot is evaluated twice, and on success every one is evaluated
        and holds its own gene's result. */
    method EvaluatePopulation(world: World, pop: seq<Gene>, numWorkers: nat, scores: array<ScoreTotal>,
                              raws: array<RawEvaluateResult>, nSkip: nat)
      returns (ok: bool, ghost made: seq<Gene>)
      requires scores.Length == raws.Length == |pop| && nSkip <= |pop| && numWorkers > 0
      modifies scores, raws, world`polls, world`resets, world`calls
      ensures scores[..nSkip] == old(scores[..nSkip]) && raws[..nSkip] == old(raws[..nSkip])
      ensures world.calls == old(world.calls) + made && multiset(made) <= multiset(pop[nSkip..])
      ensures old(world.polls) <= world.polls && old(world.resets) <= world.resets
      ensures ok ==> multiset(made) == multiset(pop[nSkip..])
      ensures ok ==> forall i | nSkip <= i < |pop| :: RightAt(pop[i], scores[i], raws[i])
      ensures !ok <==> Faulted(world, old(world.polls), world.polls, old(world.resets), world.resets, made)
    {
      hide *;
      var ws := seq(numWorkers, _ => Idle);
      var next: nat, errs: nat := nSkip, 0;
      ghost var order: seq<nat>, evaluated: set<nat> := [], {};
      made := [];
      StartPool(pop, nSkip, ws, scores[..], raws[..]);
      NothingYet(world, world.polls, world.resets);
      while exists w :: 0 <= w < |ws| && !ws[w].Exited?
        invariant |ws| == numWorkers && next <= |pop|
        invariant PoolInvariant(pop, nSkip, ws, next, errs, evaluated, scores[..], raws[..])
        invariant scores[..nSkip] == old(scores[..nSkip]) && raws[..nSkip] == old(raws[..nSkip])
        invariant HandedOut(pop, order, evaluated, nSkip, made)
        invariant world.calls == old(world.calls) + made
        invariant old(world.polls) <= world.polls && old(world.resets) <= world.resets
        invariant errs > 0 <==> Faulted(world, old(world.polls), world.polls, old(world.resets), world.resets, made)
        decreases RankSum(ws) + 4 * (|pop| - next)
      {
        var w: nat :| w < |ws| && !ws[w].Exited?;
        if ws[w].Idle? {
          ws, next := QueueStep(pop, nSkip, ws, next, errs, evaluated, scores[..], raws[..], w);
        } else if ws[w].Holding? {
          ghost var idx, polls1, resets1 := ws[w].idx, world.polls, world.resets;
          ghost var called;
          ws, errs, called := EvaluateStep(world, pop, nSkip, ws, next, errs, evaluated, scores[..], raws[..], w);
          ghost var more := if called then [pop[idx]] else [];
          FaultedInParts(world, old(world.polls), polls1, world.polls, old(world.resets), resets1, world.resets, made,
                         more);
          if called {
            OnceMore(pop, order, evaluated, nSkip, made, idx);
            order, evaluated := order + [idx], evaluated + {idx};
          }
          assert made + [] == made;
          made := made + more;
        } else {
          ws := WriteStep(pop, nSkip, ws, next, errs, evaluated, scores, raws, w);
        }
      }
      ok := errs == 0;
      OnceEachIsPermutation(pop, order, evaluated, nSkip, made);
      if ok {
        Drained(pop, nSkip, ws, next, evaluated, scores[..], raws[..]);
      }
    }

    lemma StartPool(pop: seq<Gene>, nSkip: nat, ws: seq<Worker>, scores: seq<ScoreTotal>, raws: seq<RawEvaluateResult>)
      requires |scores| == |raws| == |pop| && nSkip <= |pop| && forall w | 0 <= w < |ws| :: ws[w] == Idle
      ensures PoolInvariant(pop, nSkip, ws, nSkip, 0, {}, scores, raws)
      ensures HandedOut(pop, [], {}, nSkip, [])
    {
    }

    lemma Drained(pop: seq<Gene>, nSkip: nat, ws: seq<Worker>, next: nat, evaluated: set<nat>,
                  scores: seq<ScoreTotal>, raws: seq<RawEvaluateResult>)
      requires PoolInvariant(pop, nSkip, ws, next, 0, evaluated, scores, raws) && ws != []
      requires forall w | 0 <= w < |ws| :: ws[w].Exited?
      ensures |scores| == |raws| == |pop|
      ensures forall i: nat | nSkip <= i < |pop| :: i in evaluated
      ensures forall i: nat | nSkip <= i < |pop| :: RightAt(pop[i], scores[i], raws[i])
    {
      hide RightAt;
      assert ws[0].Exited?;
      forall i: nat | nSkip <= i < |pop| ensures i in evaluated && RightAt(pop[i], scores[i], raws[i]) {
        assert !InFlight(ws, i);
      }
    }

    /** A fault lies in two stretches of a run together exactly when it lies in one of them. */
    lemma FaultedInParts(world: World, polls0: nat, polls1: nat, polls2: nat, resets0: nat, resets1: nat, resets2: nat,
                         made: seq<Gene>, more: seq<Gene>)
      requires polls0 <= polls1 <= polls2 && resets0 <= resets1 <= resets2
      ensures Faulted(world, polls0, polls2, resets0, resets2, made + more) <==>
              || Faulted(world, polls0, polls1, resets0, resets1, made)
              || Faulted(world, polls1, polls2, resets1, resets2, more)
    {
      hide Evaluable;
      if i :| 0 <= i < |made| && !Evaluable(made[i]) {
        assert (made + more)[i] == made[i];
      }
      if i :| 0 <= i < |more| && !Evaluable(more[i]) {
        assert (made + more)[|made| + i] == more[i];
      }
    }

    // -------------------------------------------------------------- one generation

    ghost function Keys(pop: seq<Gene>): (ks: seq<Key>)
      requires AllEvaluable(pop)
      ensures |ks| == |pop| && Rankable(ks)
      ensures forall i | 0 <= i < |pop| :: ks[i] == KeyOf(pop[i])
    {
      seq(|pop|, i requires 0 <= i < |pop| => KeyOf(pop[i]))
    }

    ghost function Ranked(pop: seq<Gene>): (ord: seq<nat>)
      requires AllEvaluable(pop)
      ensures |ord| == |pop| && Below(ord, |pop|)
      ensures StablySorted(Keys(pop), ord, |pop|)
    {
      StableOrderSorts(Keys(pop), |pop|);
      StableOrder(Keys(pop), |pop|)
    }

    /** The best-ranked individual of a generation. */
    ghost function Leader(pop: seq<Gene>): (g: Gene)
      requires AllEvaluable(pop) && pop != []
      ensures Evaluable(g) && g in pop && Beats(g, pop)
    {
      forall i | 0 <= i < |pop| ensures NoWorse(Keys(pop)[Ranked(pop)[0]], Keys(pop)[i]) {
        FirstIsBest(Keys(pop), Ranked(pop), i);
      }
      pop[Ranked(pop)[0]]
    }

    /** Fingerprints the generation and ranks it, over the reused arrays. */
    method RankGeneration(pop: seq<Gene>, scores: array<ScoreTotal>, ghost raws: seq<RawEvaluateResult>,
                          fingerprints: array<string>, order: array<nat>)
      requires CacheAgrees(pop, scores[..], raws)
      requires fingerprints.Length == order.Length == |pop|
      modifies fingerprints, order
      ensures AllEvaluable(pop) && order[..] == Ranked(pop)
      ensures forall i | 0 <= i < |pop| :: fingerprints[i] == strat.Fingerprint(pop[i])
      ensures KeysOf(scores[..], fingerprints[..]) == Keys(pop)
    {
      forall i | 0 <= i < |pop| {
        fingerprints[i] := strat.Fingerprint(pop[i]);
      }
      var ks := KeysOf(scores[..], fingerprints[..]);
      forall i | 0 <= i < |pop| ensures ks[i] == KeyOf(pop[i]) {
        assert RightAt(pop[i], scores[..][i], raws[i]);
      }
      assert ks == Keys(pop);
      var sorted := StableOrder(ks, |pop|);
      assert sorted == Ranked(pop);
      forall i | 0 <= i < |pop| {
        order[i] := sorted[i];
      }
      assert order[..] == sorted;
    }

    /** next is bred from prev, ranked by its own evaluations, with the draws from
        the cursor on. */
    ghost predicate Succeeds(prev: seq<Gene>, next: seq<Gene>, draws: Draws, from: nat, mutProb: real, mutScale: real) {
      && prev != [] && AllEvaluable(prev)
      && IsSuccessor(strat, cfg, draws, prev, Keys(prev), Ranked(prev), from, mutProb, mutScale, next)
    }

    /** The first nElite genes of next are the nElite best of prev, in order. */
    ghost predicate CarriesElites(prev: seq<Gene>, next: seq<Gene>) {
      && |prev| == |next| >= 1 && AllEvaluable(prev)
      && forall i | 0 <= i < CalcEliteCount(|prev|, cfg.EliteRatio) :: next[i] == prev[Ranked(prev)[i]]
    }

    lemma SuccessorCarries(prev: seq<Gene>, next: seq<Gene>, draws: Draws, from: nat, mutProb: real, mutScale: real)
      requires Succeeds(prev, next, draws, from, mutProb, mutScale)
      ensures CarriesElites(prev, next)
    {
      hide Child, CalcEliteCount, Keys, StablySorted, Evaluable;
    }

    /** order[i] may point into the slots the elites are copied back to, so their
        results are saved in scratch buffers before anything is overwritten. */
    method SaveElites(pop: seq<Gene>, scores: array<ScoreTotal>, raws: array<RawEvaluateResult>, order: array<nat>,
                      eliteScores: array<ScoreTotal>, eliteRaws: array<RawEvaluateResult>)
      requires CacheAgrees(pop, scores[..], raws[..])
      requires order.Length == |pop| && forall i | 0 <= i < |pop| :: order[i] < |pop|
      requires eliteScores.Length == eliteRaws.Length <= |pop|
      requires eliteScores != scores && eliteRaws != raws
      modifies eliteScores, eliteRaws
      ensures forall i | 0 <= i < eliteScores.Length :: RightAt(pop[order[i]], eliteScores[i], eliteRaws[i])
    {
      assert forall i | 0 <= i < |pop| :: RightAt(pop[i], scores[..][i], raws[..][i]);
      forall i | 0 <= i < eliteScores.Length {
        eliteScores[i] := scores[order[i]];
      }
      forall i | 0 <= i < eliteRaws.Length {
        eliteRaws[i] := raws[order[i]];
      }
    }

    method RestoreElites(next: seq<Gene>, scores: array<ScoreTotal>, raws: array<RawEvaluateResult>,
                         eliteScores: array<ScoreTotal>, eliteRaws: array<RawEvaluateResult>)
      requires |next| == scores.Length == raws.Length && eliteScores.Length == eliteRaws.Length <= |next|
      requires eliteScores != scores && eliteRaws != raws
      requires forall i | 0 <= i < eliteScores.Length :: RightAt(next[i], eliteScores[i], eliteRaws[i])
      modifies scores, raws
      ensures forall i | 0 <= i < eliteScores.Length :: RightAt(next[i], scores[i], raws[i])
    {
      forall i | 0 <= i < eliteScores.Length {
        scores[i] := eliteScores[i];
      }
      forall i | 0 <= i < eliteRaws.Length {
        raws[i] := eliteRaws[i];
      }
    }

    /** Breeds and evaluates the successor of a ranked generation. */
    method NextGeneration(world: World, pop: seq<Gene>, numWorkers: nat, scores: array<ScoreTotal>,
                          raws: array<RawEvaluateResult>, fingerprints: array<string>, order: array<nat>,
                          eliteScores: array<ScoreTotal>, eliteRaws: array<RawEvaluateResult>,
                          mutProb: real, mutScale: real)
      returns (ok: bool, next: seq<Gene>, ghost made: seq<Gene>)
      requires |pop| >= 1 && numWorkers > 0 && CacheAgrees(pop, scores[..], raws[..])
      requires fingerprints.Length == order.Length == |pop| && AllEvaluable(pop) && order[..] == Ranked(pop)
      requires KeysOf(scores[..], fingerprints[..]) == Keys(pop)
      requires eliteScores.Length == eliteRaws.Length == CalcEliteCount(|pop|, cfg.EliteRatio)
      requires eliteScores != scores && eliteRaws != raws
      modifies scores, raws, eliteScores, eliteRaws, world`drawn, world`polls, world`resets, world`calls
      ensures Succeeds(pop, next, world.draws, old(world.drawn), mutProb, mutScale)
      ensures |next| == |pop| && world.calls == old(world.calls) + made
      ensures multiset(made) <= multiset(next[CalcEliteCount(|pop|, cfg.EliteRatio)..])
      ensures world.drawn == CursorAt(cfg, old(world.drawn), |pop| - CalcEliteCount(|pop|, cfg.EliteRatio))
      ensures old(world.polls) <= world.polls && old(world.resets) <= world.resets
      ensures ok ==> CacheAgrees(next, scores[..], raws[..])
      ensures ok ==> multiset(made) == multiset(next[CalcEliteCount(|pop|, cfg.EliteRatio)..])
      ensures !ok <==> Faulted(world, old(world.polls), world.polls, old(world.resets), world.resets, made)
    {
      hide *;
      var nElite := eliteScores.Length;
      ElitesReadable(pop, scores[..], raws[..], order[..]);
      SaveElites(pop, scores, raws, order, eliteScores, eliteRaws);
      next := ProduceNextGeneration(world, strat, cfg, pop, scores, fingerprints, order, mutProb, mutScale);
      SucceedsNow(pop, next, KeysOf(scores[..], fingerprints[..]), order[..], world.draws, old(world.drawn), mutProb,
                  mutScale);
      RestoreElites(next, scores, raws, eliteScores, eliteRaws);
      ghost var s0, r0 := scores[..], raws[..];
      ok, made := EvaluatePopulation(world, next, numWorkers, scores, raws, nElite);
      if ok {
        KeptPrefix(next, s0, scores[..], r0, raws[..], nElite);
      }
    }

    lemma ElitesReadable(pop: seq<Gene>, scores: seq<ScoreTotal>, raws: seq<RawEvaluateResult>, ord: seq<nat>)
      requires CacheAgrees(pop, scores, raws) && AllEvaluable(pop) && ord == Ranked(pop)
      ensures |scores| == |raws| == |ord| == |pop|
      ensures forall i | 0 <= i < |pop| :: ord[i] < |pop| && Comparable(scores[i])
    {
      hide Leader, Keys, StablySorted, Evaluable;
      forall i | 0 <= i < |pop| ensures Comparable(scores[i]) {
        assert RightAt(pop[i], scores[i], raws[i]);
        ScoreOfComparable(pop[i]);
      }
    }

    lemma SucceedsNow(pop: seq<Gene>, next: seq<Gene>, ks: seq<Key>, ord: seq<nat>, draws: Draws, from: nat,
                      mutProb: real, mutScale: real)
      requires pop != [] && AllEvaluable(pop) && ks == Keys(pop) && ord == Ranked(pop)
      requires IsSuccessor(strat, cfg, draws, pop, ks, ord, from, mutProb, mutScale, next)
      ensures Succeeds(pop, next, draws, from, mutProb, mutScale) && |next| == |pop|
      ensures forall i | 0 <= i < CalcEliteCount(|pop|, cfg.EliteRatio) :: ord[i] < |pop| && next[i] == pop[ord[i]]
    {
      hide Child, CalcEliteCount, Keys, Ranked, Evaluable;
    }

    lemma KeptPrefix(pop: seq<Gene>, s: seq<ScoreTotal>, s': seq<ScoreTotal>,
                     r: seq<RawEvaluateResult>, r': seq<RawEvaluateResult>, k: nat)
      requires |s| == |s'| == |r| == |r'| == |pop| && k <= |pop|
      requires s[..k] == s'[..k] && r[..k] == r'[..k]
      requires forall i | 0 <= i < k :: RightAt(pop[i], s[i], r[i])
      requires forall i | k <= i < |pop| :: RightAt(pop[i], s'[i], r'[i])
      ensures CacheAgrees(pop, s', r')
    {
      forall i | 0 <= i < |pop| ensures RightAt(pop[i], s'[i], r'[i]) {
        if i < k {
          assert s[i] == s[..k][i] == s'[i] && r[i] == r[..k][i] == r'[i];
        }
      }
    }

    // -------------------------------------------------------------- the epoch

    ghost function FatalFrom(pop: seq<Gene>, from: nat): nat
      requires AllEvaluable(pop) && from <= |pop|
    {
      CountFatal(seq(|pop| - from, i requires 0 <= i < |pop| - from => ScoreOf(pop[from + i])))
    }

    ghost predicate FullGeneration(pop: seq<Gene>) {
      |pop| == cfg.PopSize >= 1 && AllEvaluable(pop)
    }

    /** A run of the epoch so far: one population per generation, each carrying
        the elites of the one before. */
    ghost predicate IsLineage(pops: seq<seq<Gene>>) {
      && (forall t | 0 <= t < |pops| :: FullGeneration(pops[t]))
      && (forall t | 0 < t < |pops| :: CarriesElites(pops[t - 1], pops[t]))
    }

    /** The first slot of generation t that is evaluated afresh. */
    ghost function FirstFresh(t: nat): (k: nat)
      requires cfg.PopSize >= 1
      ensures k <= cfg.PopSize
    {
      if t == 0 then 0 else CalcEliteCount(cfg.PopSize, cfg.EliteRatio)
    }

    /** The genes that have to be evaluated: the whole first generation, then
        everything behind the elites. */
    ghost function Fresh(pops: seq<seq<Gene>>): multiset<Gene>
      requires IsLineage(pops)
    {
      if pops == [] then multiset{}
      else
        var t := |pops| - 1;
        assert FullGeneration(pops[t]);
        Fresh(pops[..t]) + multiset(pops[t][FirstFresh(t)..])
    }

    /** Fatal outcomes over those genes. */
    ghost function FatalTotal(pops: seq<seq<Gene>>): nat
      requires IsLineage(pops)
    {
      if pops == [] then 0
      else
        var t := |pops| - 1;
        assert FullGeneration(pops[t]);
        FatalTotal(pops[..t]) + FatalFrom(pops[t], FirstFresh(t))
    }

    ghost function Bests(pops: seq<seq<Gene>>): (bests: seq<ScoreTotal>)
      requires IsLineage(pops)
      ensures |bests| == |pops|
    {
      seq(|pops|, t requires 0 <= t < |pops| => BestOf(pops[t]))
    }

    ghost function BestOf(pop: seq<Gene>): ScoreTotal
      requires FullGeneration(pop)
    {
      ScoreOf(Leader(pop))
    }

    /** The leader of a generation beats every gene of every earlier one: elites
        are carried over, so nothing that was ever evaluated is better. */
    lemma {:induction false} LeaderBeatsHistory(pops: seq<seq<Gene>>, s: nat, t: nat)
      requires IsLineage(pops) && s <= t < |pops|
      ensures Beats(Leader(pops[t]), pops[s])
    {
      if s < t {
        LeaderBeatsHistory(pops, s, t - 1);
        var prev := Leader(pops[t - 1]);
        assert CarriesElites(pops[t - 1], pops[t]) && pops[t][0] == prev;
        BeatsTransitive(Leader(pops[t]), prev, pops[s]);
      }
    }

    lemma LineagePrefix(pops: seq<seq<Gene>>, k: nat)
      requires IsLineage(pops) && k <= |pops|
      ensures IsLineage(pops[..k]) && Bests(pops[..k]) == Bests(pops)[..k]
    {
      hide CarriesElites, FullGeneration, BestOf;
    }

    lemma LineageSnoc(pops: seq<seq<Gene>>, next: seq<Gene>)
      requires pops != [] && IsLineage(pops)
      requires CarriesElites(pops[|pops| - 1], next) && FullGeneration(next)
      ensures IsLineage(pops + [next])
    {
      hide CarriesElites, FullGeneration;
      var more := pops + [next];
      forall t | 0 < t < |more| ensures CarriesElites(more[t - 1], more[t]) {
        if t < |pops| {
          assert CarriesElites(pops[t - 1], pops[t]);
        }
      }
    }

    lemma TotalsSnoc(pops: seq<seq<Gene>>, next: seq<Gene>)
      requires pops != [] && IsLineage(pops) && IsLineage(pops + [next]) && FullGeneration(next)
      ensures FatalTotal(pops + [next]) == FatalTotal(pops) + FatalFrom(next, FirstFresh(1))
      ensures Fresh(pops + [next]) == Fresh(pops) + multiset(next[FirstFresh(1)..])
    {
      hide FatalFrom, CarriesElites, IsLineage;
      assert (pops + [next])[..|pops|] == pops && (pops + [next])[|pops|] == next;
    }

    lemma CacheCountsFatal(pop: seq<Gene>, scores: seq<ScoreTotal>, raws: seq<RawEvaluateResult>, from: nat)
      requires CacheAgrees(pop, scores, raws) && from <= |pop|
      ensures AllEvaluable(pop) && CountFatal(scores[from..]) == FatalFrom(pop, from)
    {
      hide CountFatal, ScoreOf, Evaluable;
      assert forall i | 0 <= i < |pop| :: RightAt(pop[i], scores[i], raws[i]);
      assert scores[from..] == seq(|pop| - from, i requires 0 <= i < |pop| - from => ScoreOf(pop[from + i]));
    }

    /** An evaluated gene belongs to some generation. */
    lemma {:induction false} FreshMember(pops: seq<seq<Gene>>, g: Gene) returns (s: nat)
      requires IsLineage(pops) && g in Fresh(pops)
      ensures s < |pops| && g in pops[s]
    {
      var t := |pops| - 1;
      assert FullGeneration(pops[t]);
      if g in pops[t][FirstFresh(t)..] {
        s := t;
      } else {
        s := FreshMember(pops[..t], g);
      }
    }

    /** EvaluationsTotal after so many generations. */
    ghost function Evaluations(generations: int): int
      requires cfg.PopSize >= 1
    {
      cfg.PopSize + (generations - 1) * (cfg.PopSize - CalcEliteCount(cfg.PopSize, cfg.EliteRatio))
    }

    // -------------------------------------------------------------- where the generations come from

    ghost function Sampled(draws: Draws, from: nat): (pop: seq<Gene>)
      requires cfg.PopSize >= 0
      ensures |pop| == cfg.PopSize
    {
      seq(cfg.PopSize, i requires 0 <= i < cfg.PopSize => strat.Sample(draws(from + i)))
    }

    /** The draw cursor when generation t is ranked. */
    ghost function GenCursor(from: nat, t: nat): nat
      requires cfg.PopSize >= 1
    {
      if t == 0 then from + cfg.PopSize
      else CursorAt(cfg, GenCursor(from, t - 1), cfg.PopSize - CalcEliteCount(cfg.PopSize, cfg.EliteRatio))
    }

    /** Generation 0 is sampled and every later one is bred from the one before it,
        all from one stream of draws, with the mutation knobs the bests so far call for. */
    ghost predicate History(pops: seq<seq<Gene>>, draws: Draws, from: nat)
      requires IsLineage(pops)
    {
      && pops != [] && FullGeneration(pops[0])
      && if |pops| == 1 then pops[0] == Sampled(draws, from)
         else
           var t := |pops| - 1;
           LineagePrefix(pops, t);
           var live := Run(cfg, Bests(pops[..t]));
           History(pops[..t], draws, from)
           && Succeeds(pops[t - 1], pops[t], draws, GenCursor(from, t - 1), live.mutProb, live.mutScale)
    }

    lemma HistorySnoc(pops: seq<seq<Gene>>, next: seq<Gene>, draws: Draws, from: nat)
      requires IsLineage(pops) && History(pops, draws, from) && IsLineage(pops + [next])
      requires var live := Run(cfg, Bests(pops));
               Succeeds(pops[|pops| - 1], next, draws, GenCursor(from, |pops| - 1), live.mutProb, live.mutScale)
      ensures History(pops + [next], draws, from)
    {
      hide Succeeds, Run, Bests, IsLineage, GenCursor, FullGeneration;
      assert (pops + [next])[..|pops|] == pops;
      LineagePrefix(pops + [next], |pops|);
      HistoryStarts(pops, draws, from);
    }

    lemma HistoryStarts(pops: seq<seq<Gene>>, draws: Draws, from: nat)
      requires IsLineage(pops) && History(pops, draws, from)
      ensures FullGeneration(pops[0])
    {
    }

    lemma {:induction false} HistoryPrefix(pops: seq<seq<Gene>>, k: nat, draws: Draws, from: nat)
      requires IsLineage(pops) && History(pops, draws, from) && 1 <= k <= |pops|
      ensures IsLineage(pops[..k]) && History(pops[..k], draws, from)
    {
      hide Succeeds, Run, Bests, IsLineage, GenCursor, FullGeneration;
      LineagePrefix(pops, k);
      if k < |pops| {
        var t := |pops| - 1;
        LineagePrefix(pops, t);
        HistoryPrefix(pops[..t], k, draws, from);
        assert pops[..t][..k] == pops[..k];
      } else {
        assert pops[..k] == pops;
      }
    }

    /** History, unfolded once. */
    lemma LastStep(pops: seq<seq<Gene>>, draws: Draws, from: nat)
      requires IsLineage(pops) && History(pops, draws, from)
      ensures pops != [] && cfg.PopSize >= 1
      ensures |pops| == 1 ==> pops[0] == Sampled(draws, from)
      ensures |pops| > 1 ==>
                var t := |pops| - 1;
                && IsLineage(pops[..t]) && History(pops[..t], draws, from)
                && var live := Run(cfg, Bests(pops[..t]));
                   Succeeds(pops[t - 1], pops[t], draws, GenCursor(from, t - 1), live.mutProb, live.mutScale)
    {
      hide Succeeds, Run, Bests, IsLineage, GenCursor, Sampled;
      LineagePrefix(pops, |pops| - 1);
    }

    /** Histories of one length from the same draws are the same. */
    lemma {:induction false} HistoriesAgree(pops: seq<seq<Gene>>, pops': seq<seq<Gene>>, draws: Draws, from: nat)
      requires IsLineage(pops) && History(pops, draws, from) && IsLineage(pops') && History(pops', draws, from)
      requires |pops| == |pops'|
      ensures pops == pops'
    {
      hide *;
      LastStep(pops, draws, from);
      LastStep(pops', draws, from);
      var t := |pops| - 1;
      if t > 0 {
        HistoriesAgree(pops[..t], pops'[..t], draws, from);
        assert pops[t - 1] == pops[..t][t - 1] == pops'[t - 1];
        var live := Run(cfg, Bests(pops[..t]));
        SuccessorsAgree(pops[t - 1], pops[t], pops'[t], draws, GenCursor(from, t - 1), live.mutProb, live.mutScale);
      }
      assert pops == pops[..t] + [pops[t]] && pops' == pops'[..t] + [pops'[t]];
    }

    lemma SuccessorsAgree(prev: seq<Gene>, next: seq<Gene>, next': seq<Gene>, draws: Draws, from: nat, mutProb: real,
                          mutScale: real)
      requires Succeeds(prev, next, draws, from, mutProb, mutScale)
               && Succeeds(prev, next', draws, from, mutProb, mutScale)
      ensures next == next'
    {
      hide Child, CalcEliteCount, Keys, Ranked, Evaluable, CursorAt;
    }

    /** What the loop head knows about the epoch so far; the last population of
        pops is the one just evaluated, and trace is every gene evaluated. */
    ghost predicate EpochState(pops: seq<seq<Gene>>, scores: seq<ScoreTotal>, raws: seq<RawEvaluateResult>,
                               trace: seq<Gene>, evalsTotal: int, fatalEvals: int)
    {
      && pops != [] && IsLineage(pops) && FullGeneration(pops[|pops| - 1])
      && CacheAgrees(pops[|pops| - 1], scores, raws)
      && |trace| == evalsTotal == Evaluations(|pops|) && multiset(trace) == Fresh(pops)
      && fatalEvals == FatalTotal(pops)
    }

    lemma ExtendEpoch(pops: seq<seq<Gene>>, next: seq<Gene>, scores: seq<ScoreTotal>, raws: seq<RawEvaluateResult>,
                      trace: seq<Gene>, evalsTotal: int, fatalEvals: int,
                      scores': seq<ScoreTotal>, raws': seq<RawEvaluateResult>, made: seq<Gene>)
      requires EpochState(pops, scores, raws, trace, evalsTotal, fatalEvals) && cfg.PopSize >= 1
      requires CarriesElites(pops[|pops| - 1], next) && CacheAgrees(next, scores', raws')
      requires FirstFresh(1) <= |next| && multiset(made) == multiset(next[FirstFresh(1)..])
      ensures FirstFresh(1) <= |scores'|
      ensures EpochState(pops + [next], scores', raws', trace + made, evalsTotal + cfg.PopSize - FirstFresh(1),
                         fatalEvals + CountFatal(scores'[FirstFresh(1)..]))
    {
      hide CarriesElites, CacheAgrees, FatalFrom, FatalTotal, Fresh, IsLineage, AllEvaluable, CalcEliteCount;
      NextIsFull(pops[|pops| - 1], next, scores', raws');
      CacheCountsFatal(next, scores', raws', FirstFresh(1));
      LineageSnoc(pops, next);
      TotalsSnoc(pops, next);
      assert |multiset(made)| == |made| && |multiset(next[FirstFresh(1)..])| == |next| - FirstFresh(1);
      OneMore(|pops| - 1, cfg.PopSize - CalcEliteCount(cfg.PopSize, cfg.EliteRatio));
    }

    lemma NextIsFull(prev: seq<Gene>, next: seq<Gene>, scores: seq<ScoreTotal>, raws: seq<RawEvaluateResult>)
      requires FullGeneration(prev) && CarriesElites(prev, next) && CacheAgrees(next, scores, raws)
      ensures FullGeneration(next) && |scores| == |raws| == |next|
    {
      hide Ranked, Evaluable, ScoreOf, RawOf;
      forall i | 0 <= i < |next| ensures Evaluable(next[i]) {
        assert RightAt(next[i], scores[i], raws[i]);
      }
    }

    /** The arguments RunEpoch rejects before it starts. */
    predicate BadArguments(windowBars: seq<nat>, minEvalBars: nat) {
      cfg.PopSize < 2 || cfg.MaxGenerations < 1 || exists i :: 0 <= i < |windowBars| && windowBars[i] < minEvalBars
    }

    /** g is evaluable and the key of best is no worse than its own. */
    ghost predicate Outranks(best: Gene, g: Gene) {
      Evaluable(best) && Evaluable(g) && NoWorse(KeyOf(best), KeyOf(g))
    }

    /** A finished epoch: the result belongs to the last generation, outranks every
        gene handed to Evaluate, and those genes are the fresh ones, each once. */
    ghost predicate ExactResult(r: EpochResult, pops: seq<seq<Gene>>, trace: seq<Gene>) {
      && IsLineage(pops) && |pops| == r.Generations == r.Stats.Generations
      && 1 <= r.Generations <= cfg.MaxGenerations && FullGeneration(pops[|pops| - 1])
      && r.BestGene == Leader(pops[|pops| - 1])
      && RightAt(r.BestGene, r.BestScore, r.BestRawEvaluate)
      && r.BestFingerprint == strat.Fingerprint(r.BestGene)
      && (forall k | 0 <= k < |trace| :: Outranks(r.BestGene, trace[k]))
      && multiset(trace) == Fresh(pops)
      && |trace| == r.Stats.EvaluationsTotal == Evaluations(r.Generations)
      && r.Stats.FatalEvaluations == FatalTotal(pops)
      && r.Stats.PopSize == cfg.PopSize && r.Stats.MaxGenerations == cfg.MaxGenerations
    }

    /** The total does not hang on how the elite count is computed. */
    lemma TotalMeans(r: EpochResult, pops: seq<seq<Gene>>, trace: seq<Gene>, k: nat)
      requires cfg.PopSize >= 1 && ExactResult(r, pops, trace) && BredCount(cfg.PopSize, cfg.EliteRatio, k)
      ensures r.Stats.EvaluationsTotal == |trace| == cfg.PopSize + (r.Generations - 1) * k
    {
      hide *;
      TotalIs(r, pops, trace);
      BredIs(cfg.PopSize, cfg.EliteRatio, k);
      EvaluationsAre(k, r.Generations);
    }

    lemma TotalIs(r: EpochResult, pops: seq<seq<Gene>>, trace: seq<Gene>)
      requires cfg.PopSize >= 1 && ExactResult(r, pops, trace)
      ensures r.Stats.EvaluationsTotal == |trace| == Evaluations(r.Generations)
    {
      hide CalcEliteCount, Evaluations, IsLineage, Fresh, FatalTotal, Outranks, RightAt, Leader;
    }

    lemma EvaluationsAre(k: nat, generations: int)
      requires cfg.PopSize >= 1 && k == cfg.PopSize - CalcEliteCount(cfg.PopSize, cfg.EliteRatio)
      ensures Evaluations(generations) == cfg.PopSize + (generations - 1) * k
    {
      hide CalcEliteCount;
    }

    lemma FirstGeneration(pop: seq<Gene>, scores: seq<ScoreTotal>, raws: seq<RawEvaluateResult>, made: seq<Gene>,
                          draws: Draws, from: nat)
      requires |pop| == cfg.PopSize >= 1 && CacheAgrees(pop, scores, raws)
      requires multiset(made) == multiset(pop[0..]) && pop == Sampled(draws, from)
      ensures EpochState([pop], scores, raws, made, |pop|, CountFatal(scores))
      ensures IsLineage([pop]) && History([pop], draws, from)
    {
      hide CacheAgrees, FatalFrom, AllEvaluable, CarriesElites, Sampled;
      CacheCountsFatal(pop, scores, raws, 0);
      assert scores[0..] == scores && pop[0..] == pop;
      FatalTotalOne(pop);
      assert |multiset(made)| == |made| && |multiset(pop)| == |pop|;
    }

    lemma FatalTotalOne(pop: seq<Gene>)
      requires FullGeneration(pop)
      ensures IsLineage([pop]) && FatalTotal([pop]) == FatalFrom(pop, 0) && Fresh([pop]) == multiset(pop)
    {
      hide FatalFrom, AllEvaluable, CarriesElites;
      assert [pop][..0] == [] && pop[0..] == pop;
    }

    lemma StateFacts(pops: seq<seq<Gene>>, scores: seq<ScoreTotal>, raws: seq<RawEvaluateResult>,
                     trace: seq<Gene>, evalsTotal: int, fatalEvals: int)
      requires EpochState(pops, scores, raws, trace, evalsTotal, fatalEvals)
      ensures pops != [] && IsLineage(pops) && IsLineage(pops[..|pops| - 1])
      ensures |pops[|pops| - 1]| == |scores| == |raws| == cfg.PopSize >= 1
      ensures FullGeneration(pops[|pops| - 1])
      ensures CacheAgrees(pops[|pops| - 1], scores, raws) && AllEvaluable(pops[|pops| - 1])
    {
      hide Evaluable, Fresh, FatalTotal, Evaluations, CarriesElites;
    }

    lemma StartOfRun(first: seq<Gene>)
      ensures [first][..0] == [] && IsLineage([]) && Bests([]) == []
      ensures InitialView(cfg) == Run(cfg, []) && NeverStalled(cfg, [])
    {
    }

    lemma BestsSnoc(pops: seq<seq<Gene>>)
      requires pops != [] && IsLineage(pops) && IsLineage(pops[..|pops| - 1]) && FullGeneration(pops[|pops| - 1])
      ensures Bests(pops) == Bests(pops[..|pops| - 1]) + [BestOf(pops[|pops| - 1])]
    {
      hide BestOf, CarriesElites, FullGeneration;
      LineagePrefix(pops, |pops| - 1);
    }

    /** The history of bests grows with the generation that was just observed. */
    lemma ObserveStep(pops: seq<seq<Gene>>, bests: seq<ScoreTotal>, score: ScoreTotal)
      requires pops != [] && IsLineage(pops) && IsLineage(pops[..|pops| - 1]) && bests == Bests(pops[..|pops| - 1])
      requires FullGeneration(pops[|pops| - 1])
      requires score == BestOf(pops[|pops| - 1]) && NeverStalled(cfg, bests)
      ensures Bests(pops) == bests + [score]
      ensures Observed(Run(cfg, bests), score, cfg) == Run(cfg, bests + [score])
      ensures Stalled(Run(cfg, bests + [score]), cfg) || |pops| == cfg.MaxGenerations ==>
              EndsRight(cfg, bests + [score])
      ensures !Stalled(Run(cfg, bests + [score]), cfg) ==> NeverStalled(cfg, bests + [score])
    {
      hide BestOf, CarriesElites, FullGeneration, IsLineage, Bests, Stalled, Observed, EndsRight;
      BestsSnoc(pops);
      var more := bests + [score];
      assert more[..|more| - 1] == bests;
      assert |more| == |Bests(pops)| == |pops|;
      if Stalled(Run(cfg, more), cfg) || |pops| == cfg.MaxGenerations {
        EndHere(cfg, more);
      }
      if !Stalled(Run(cfg, more), cfg) {
        GoOn(cfg, more);
      }
    }

    /** One turn of the loop behind the ranking: the next generation is bred with the
        live knobs, evaluated and counted. */
    method Advance(world: World, pop: seq<Gene>, numWorkers: nat, scores: array<ScoreTotal>,
                   raws: array<RawEvaluateResult>, fingerprints: array<string>, order: array<nat>,
                   eliteScores: array<ScoreTotal>, eliteRaws: array<RawEvaluateResult>, conv: ConvergenceState,
                   ghost pops: seq<seq<Gene>>, ghost trace: seq<Gene>, ghost evalsTotal: int, ghost fatalEvals: int,
                   ghost from: nat, ghost bests: seq<ScoreTotal>, ghost polls0: nat, ghost resets0: nat)
      returns (ok: bool, next: seq<Gene>, fatal: nat, ghost made: seq<Gene>)
      requires numWorkers > 0 && cfg.PopSize >= 1 && pops != [] && pop == pops[|pops| - 1]
      requires EpochState(pops, scores[..], raws[..], trace, evalsTotal, fatalEvals)
      requires IsLineage(pops) && History(pops, world.draws, from) && bests == Bests(pops)
      requires conv.View() == Run(cfg, bests) && world.drawn == GenCursor(from, |pops| - 1)
      requires fingerprints.Length == order.Length == |pop| && AllEvaluable(pop) && order[..] == Ranked(pop)
      requires |pop| == scores.Length == raws.Length && KeysOf(scores[..], fingerprints[..]) == Keys(pop)
      requires eliteScores.Length == eliteRaws.Length == CalcEliteCount(cfg.PopSize, cfg.EliteRatio)
      requires eliteScores != scores && eliteRaws != raws
      requires polls0 <= world.polls && resets0 <= world.resets
      requires !Faulted(world, polls0, world.polls, resets0, world.resets, trace)
      modifies scores, raws, eliteScores, eliteRaws, world`drawn, world`polls, world`resets, world`calls
      ensures world.calls == old(world.calls) + made
      ensures polls0 <= world.polls && resets0 <= world.resets
      ensures ok ==>
                var nElite := CalcEliteCount(cfg.PopSize, cfg.EliteRatio);
                && EpochState(pops + [next], scores[..], raws[..], trace + made,
                              evalsTotal + cfg.PopSize - nElite, fatalEvals + fatal)
                && IsLineage(pops + [next]) && History(pops + [next], world.draws, from)
                && world.drawn == GenCursor(from, |pops|)
      ensures !ok <==> Faulted(world, polls0, world.polls, resets0, world.resets, trace + made)
    {
      hide *;
      StateFacts(pops, scores[..], raws[..], trace, evalsTotal, fatalEvals);
      ViewFields(Run(cfg, bests), conv);
      ghost var s0, r0, p0, t0 := scores[..], raws[..], world.polls, world.resets;
      ok, next, made := NextGeneration(world, pop, numWorkers, scores, raws, fingerprints, order,
                                       eliteScores, eliteRaws, conv.mutProb, conv.mutScale);
      FaultedInParts(world, polls0, p0, world.polls, resets0, t0, world.resets, trace, made);
      if !ok {
        return ok, next, 0, made;
      }
      Generation(pops, next, s0, r0, trace, evalsTotal, fatalEvals, scores[..], raws[..], made,
                 world.draws, from, conv.mutProb, conv.mutScale, bests);
      fatal := CountFatal(scores[CalcEliteCount(cfg.PopSize, cfg.EliteRatio)..]);
    }

    /** The loop over generations, from the evaluated first one; base is what had
        been evaluated before the epoch. */
    method Evolve(world: World, first: seq<Gene>, numWorkers: nat, scores: array<ScoreTotal>,
                  raws: array<RawEvaluateResult>,
                  firstEvals: int, firstFatal: int, ghost base: seq<Gene>, ghost made: seq<Gene>, ghost from: nat,
                  ghost polls0: nat, ghost resets0: nat)
      returns (ok: bool, gens: int, pop: seq<Gene>, bestIdx: nat, bestFp: string, evalsTotal: int, fatalEvals: int,
               ghost pops: seq<seq<Gene>>, ghost trace: seq<Gene>)
      requires cfg.PopSize >= 2 && cfg.MaxGenerations >= 1 && numWorkers > 0
      requires EpochState([first], scores[..], raws[..], made, firstEvals, firstFatal)
      requires IsLineage([first]) && History([first], world.draws, from)
      requires world.calls == base + made && world.drawn == GenCursor(from, 0)
      requires polls0 <= world.polls && resets0 <= world.resets
      requires !Faulted(world, polls0, world.polls, resets0, world.resets, made)
      modifies scores, raws, world`drawn, world`polls, world`resets, world`calls
      ensures world.calls == base + trace
      ensures polls0 <= world.polls && resets0 <= world.resets
      ensures ok ==> EpochState(pops, scores[..], raws[..], trace, evalsTotal, fatalEvals)
      ensures ok ==> IsLineage(pops) && History(pops, world.draws, from)
      ensures ok ==> 1 <= gens == |pops| <= cfg.MaxGenerations && pop == pops[gens - 1] && EndsRight(cfg, Bests(pops))
      ensures ok ==> bestIdx < |pop| == scores.Length == raws.Length
      ensures ok ==> AllEvaluable(pop) && pop[bestIdx] == Leader(pop) && bestFp == strat.Fingerprint(pop[bestIdx])
      ensures ok ==> RightAt(pop[bestIdx], scores[bestIdx], raws[bestIdx])
      ensures !ok <==> Faulted(world, polls0, world.polls, resets0, world.resets, trace)
    {
      hide *;
      StateFacts([first], scores[..], raws[..], made, firstEvals, firstFatal);
      StartOfRun(first);
      var n: nat := cfg.PopSize;
      var nElite := CalcEliteCount(n, cfg.EliteRatio);
      var fingerprints, order := new string[n], new nat[n];
      var eliteScores, eliteRaws := new ScoreTotal[nElite], new RawEvaluateResult[nElite];
      var conv := new ConvergenceState(cfg);
      ghost var bests: seq<ScoreTotal> := [];

      ok, pop, pops, trace := true, first, [first], made;
      evalsTotal, fatalEvals := firstEvals, firstFatal;
      bestIdx, bestFp := 0, "";
      var gen := 0;
      while true
        invariant 0 <= gen < cfg.MaxGenerations && |pops| == gen + 1 && pops[gen] == pop
        invariant EpochState(pops, scores[..], raws[..], trace, evalsTotal, fatalEvals)
        invariant IsLineage(pops[..gen]) && bests == Bests(pops[..gen])
        invariant conv.View() == Run(cfg, bests) && NeverStalled(cfg, bests)
        invariant IsLineage(pops) && History(pops, world.draws, from)
        invariant world.calls == base + trace && world.drawn == GenCursor(from, gen)
        invariant polls0 <= world.polls && resets0 <= world.resets
        invariant !Faulted(world, polls0, world.polls, resets0, world.resets, trace)
        invariant fresh(conv)
        decreases cfg.MaxGenerations - gen
      {
        StateFacts(pops, scores[..], raws[..], trace, evalsTotal, fatalEvals);
        bestIdx, bestFp := RankAndPick(pop, scores, raws, fingerprints, order);
        ObserveStep(pops, bests, scores[bestIdx]);
        bests := bests + [scores[bestIdx]];
        var shouldStop := conv.Observe(scores[bestIdx], cfg);
        if shouldStop || gen == cfg.MaxGenerations - 1 {
          break;
        }
        var next, fatal;
        ghost var bred;
        ok, next, fatal, bred :=
          Advance(world, pop, numWorkers, scores, raws, fingerprints, order, eliteScores, eliteRaws,
                                         conv, pops, trace, evalsTotal, fatalEvals, from, bests, polls0, resets0);
        if !ok {
          gens, trace := gen + 1, trace + bred;
          return;
        }
        evalsTotal, fatalEvals := evalsTotal + n - nElite, fatalEvals + fatal;
        assert (pops + [next])[..gen + 1] == pops;
        pop, pops, trace, gen := next, pops + [next], trace + bred, gen + 1;
      }
      gens := gen + 1;
    }

    lemma ViewFields(v: ConvView, conv: ConvergenceState)
      requires conv.View() == v
      ensures conv.mutProb == v.mutProb && conv.mutScale == v.mutScale
    {
    }

    /** Everything the loop knows survives one more bred and evaluated generation. */
    lemma Generation(pops: seq<seq<Gene>>, next: seq<Gene>, scores: seq<ScoreTotal>, raws: seq<RawEvaluateResult>,
                     trace: seq<Gene>, evalsTotal: int, fatalEvals: int,
                     scores': seq<ScoreTotal>, raws': seq<RawEvaluateResult>, made: seq<Gene>,
                     draws: Draws, from: nat, mutProb: real, mutScale: real, bests: seq<ScoreTotal>)
      requires EpochState(pops, scores, raws, trace, evalsTotal, fatalEvals) && cfg.PopSize >= 1
      requires IsLineage(pops) && History(pops, draws, from) && bests == Bests(pops)
      requires mutProb == Run(cfg, bests).mutProb && mutScale == Run(cfg, bests).mutScale
      requires Succeeds(pops[|pops| - 1], next, draws, GenCursor(from, |pops| - 1), mutProb, mutScale)
      requires CacheAgrees(next, scores', raws') && |next| == cfg.PopSize
      requires multiset(made) == multiset(next[CalcEliteCount(cfg.PopSize, cfg.EliteRatio)..])
      ensures var nElite := CalcEliteCount(cfg.PopSize, cfg.EliteRatio);
              nElite <= |scores'|
              && EpochState(pops + [next], scores', raws', trace + made, evalsTotal + cfg.PopSize - nElite,
                            fatalEvals + CountFatal(scores'[nElite..]))
      ensures IsLineage(pops + [next]) && History(pops + [next], draws, from)
      ensures GenCursor(from, |pops|) ==
              CursorAt(cfg, GenCursor(from, |pops| - 1), cfg.PopSize - CalcEliteCount(cfg.PopSize, cfg.EliteRatio))
    {
      hide Succeeds, CarriesElites, CacheAgrees, History, Run, Bests, IsLineage, Fresh, FatalTotal, CalcEliteCount,
           FullGeneration, Evaluations, CursorAt;
      SuccessorCarries(pops[|pops| - 1], next, draws, GenCursor(from, |pops| - 1), mutProb, mutScale);
      ExtendEpoch(pops, next, scores, raws, trace, evalsTotal, fatalEvals, scores', raws', made);
      HistorySnoc(pops, next, draws, from);
    }

    method RankAndPick(pop: seq<Gene>, scores: array<ScoreTotal>, raws: array<RawEvaluateResult>,
                       fingerprints: array<string>, order: array<nat>)
      returns (bestIdx: nat, bestFp: string)
      requires FullGeneration(pop) && CacheAgrees(pop, scores[..], raws[..])
      requires fingerprints.Length == order.Length == |pop|
      modifies fingerprints, order
      ensures AllEvaluable(pop) && order[..] == Ranked(pop) && KeysOf(scores[..], fingerprints[..]) == Keys(pop)
      ensures bestIdx < |pop| == scores.Length && pop[bestIdx] == Leader(pop)
      ensures scores[bestIdx] == BestOf(pop)
      ensures bestIdx < raws.Length && RightAt(pop[bestIdx], scores[bestIdx], raws[bestIdx])
              && bestFp == strat.Fingerprint(pop[bestIdx])
    {
      RankGeneration(pop, scores, raws[..], fingerprints, order);
      assert order[0] == order[..][0] == Ranked(pop)[0];
      bestIdx := order[0];
      bestFp := fingerprints[bestIdx];
      assert RightAt(pop[bestIdx], scores[..][bestIdx], raws[..][bestIdx]);
    }

    lemma ResultIsExact(r: EpochResult, pops: seq<seq<Gene>>, scores: seq<ScoreTotal>, raws: seq<RawEvaluateResult>,
                        trace: seq<Gene>)
      requires EpochState(pops, scores, raws, trace, r.Stats.EvaluationsTotal, r.Stats.FatalEvaluations)
      requires 1 <= |pops| == r.Generations == r.Stats.Generations <= cfg.MaxGenerations
      requires r.Stats.PopSize == cfg.PopSize && r.Stats.MaxGenerations == cfg.MaxGenerations
      requires IsLineage(pops) && AllEvaluable(pops[|pops| - 1]) && pops[|pops| - 1] != []
      requires r.BestGene == Leader(pops[|pops| - 1]) && r.BestFingerprint == strat.Fingerprint(r.BestGene)
      requires RightAt(r.BestGene, r.BestScore, r.BestRawEvaluate)
      ensures ExactResult(r, pops, trace)
    {
      hide Leader, FatalTotal, CacheAgrees, CarriesElites, Evaluable, Fresh, Evaluations, IsLineage;
      forall k | 0 <= k < |trace| ensures Outranks(r.BestGene, trace[k]) {
        assert trace[k] in multiset(trace);
        LeaderOutranks(pops, trace[k]);
      }
    }

    lemma LeaderOutranks(pops: seq<seq<Gene>>, g: Gene)
      requires pops != [] && IsLineage(pops) && g in Fresh(pops) && FullGeneration(pops[|pops| - 1])
      ensures Outranks(Leader(pops[|pops| - 1]), g)
    {
      hide Leader, CarriesElites, Evaluable, Fresh;
      var s := FreshMember(pops, g);
      LeaderBeatsHistory(pops, s, |pops| - 1);
      assert FullGeneration(pops[s]);
      var i :| 0 <= i < |pops[s]| && pops[s][i] == g;
      assert Evaluable(pops[s][i]);
    }

    /** One of these adapter constructions failed. */
    ghost predicate AdapterFault(world: World, adapters0: nat, adapters1: nat) {
      exists a :: adapters0 <= a < adapters1 && world.adapterFails(a)
    }

    /** One epoch. On success trace is every gene the generations evaluated, the
        result outranks all of it, and one more call re-evaluates the winner. It
        fails exactly on bad arguments, a fault met in the environment or an
        evaluated gene that is not evaluable. */
    method RunEpoch(world: World, windowBars: seq<nat>, minEvalBars: nat, maxProcs: nat)
      returns (out: EpochOutcome, ghost pops: seq<seq<Gene>>, ghost trace: seq<Gene>)
      requires maxProcs >= 1
      modifies world
      ensures BadArguments(windowBars, minEvalBars) ==> out.Failed? && trace == []
      ensures world.calls == old(world.calls) + trace + (if out.Done? then [out.result.BestGene] else [])
      ensures out.Done? ==> ExactResult(out.result, pops, trace) && EndsRight(cfg, Bests(pops))
      ensures out.Done? ==> History(pops, world.draws, old(world.drawn) + 1)
      ensures out.Done? ==>
                forall k | BredCount(cfg.PopSize, cfg.EliteRatio, k) ::
                  out.result.Stats.EvaluationsTotal == |trace| == cfg.PopSize + (out.result.Generations - 1) * k
      ensures out.Failed? <==>
              || BadArguments(windowBars, minEvalBars)
              || AdapterFault(world, old(world.adapters), world.adapters)
              || Faulted(world, old(world.polls), world.polls, old(world.resets), world.resets, trace)
    {
      hide ExactResult, EndsRight, Bests, History, IsLineage, Faulted, AdapterFault, BredCount;
      pops, trace := [], [];
      if cfg.PopSize < 2 {
        return Failed("PopSize, need >= 2"), [], [];
      }
      if cfg.MaxGenerations < 1 {
        return Failed("MaxGenerations, need >= 1"), [], [];
      }
      if exists i :: 0 <= i < |windowBars| && windowBars[i] < minEvalBars {
        return Failed("crucible window below MinEvalBars"), [], [];
      }
      out, pops, trace := RunChecked(world, maxProcs);
      if out.Done? {
        forall k | BredCount(cfg.PopSize, cfg.EliteRatio, k)
          ensures out.result.Stats.EvaluationsTotal == |trace| == cfg.PopSize + (out.result.Generations - 1) * k
        {
          TotalMeans(out.result, pops, trace, k);
        }
      }
    }

    method SamplePopulation(world: World) returns (pop: seq<Gene>)
      requires cfg.PopSize >= 0
      modifies world`drawn
      ensures pop == Sampled(world.draws, old(world.drawn))
      ensures world.drawn == old(world.drawn) + cfg.PopSize
    {
      pop := [];
      while |pop| < cfg.PopSize
        invariant |pop| <= cfg.PopSize && world.drawn == old(world.drawn) + |pop|
        invariant forall i | 0 <= i < |pop| :: pop[i] == strat.Sample(world.draws(old(world.drawn) + i))
      {
        var x := world.Draw();
        pop := pop + [strat.Sample(x)];
      }
    }

    method BuildAdapters(world: World, numWorkers: nat) returns (ok: bool)
      modifies world`adapters
      ensures !ok <==> AdapterFault(world, old(world.adapters), world.adapters)
      ensures ok ==> world.adapters == old(world.adapters) + numWorkers
    {
      for i := 0 to numWorkers
        invariant world.adapters == old(world.adapters) + i && !AdapterFault(world, old(world.adapters), world.adapters)
      {
        ok := world.NewAdapter();
        if !ok {
          return;
        }
      }
      ok := true;
    }

    /** RunEpoch behind its argument checks. */
    method RunChecked(world: World, maxProcs: nat)
      returns (out: EpochOutcome, ghost pops: seq<seq<Gene>>, ghost trace: seq<Gene>)
      requires maxProcs >= 1 && cfg.PopSize >= 2 && cfg.MaxGenerations >= 1
      modifies world
      ensures world.calls == old(world.calls) + trace + (if out.Done? then [out.result.BestGene] else [])
      ensures out.Done? ==> ExactResult(out.result, pops, trace) && IsLineage(pops) && EndsRight(cfg, Bests(pops))
      ensures out.Done? ==> History(pops, world.draws, old(world.drawn) + 1)
      ensures out.Failed? <==>
              || AdapterFault(world, old(world.adapters), world.adapters)
              || Faulted(world, old(world.polls), world.polls, old(world.resets), world.resets, trace)
    {
      hide *;
      pops, trace := [], [];
      var n: nat := cfg.PopSize;
      var sampleSeed := world.Draw();
      var first := SamplePopulation(world);
      var numWorkers := if maxProcs > n then n else maxProcs;
      var ok := BuildAdapters(world, numWorkers);
      if !ok {
        return Failed("NewAdapter"), [], [];
      }
      var scores, raws := new ScoreTotal[n], new RawEvaluateResult[n];
      ok, trace := EvaluateFirst(world, first, numWorkers, scores, raws, old(world.drawn) + 1);
      if !ok {
        return Failed("evaluate"), [], trace;
      }
      var gens, pop, bestIdx, bestFp, evalsTotal, fatalEvals;
      ok, gens, pop, bestIdx, bestFp, evalsTotal, fatalEvals, pops, trace :=
        Evolve(world, first, numWorkers, scores, raws, n, CountFatal(scores[..]), old(world.calls), trace,
               old(world.drawn) + 1,
               old(world.polls), old(world.resets));
      if !ok {
        return Failed("evaluate"), pops, trace;
      }
      ghost var p1, t1 := world.polls, world.resets;
      var best;
      ok, best := ReEvaluate(world, pop[bestIdx], scores[bestIdx], raws[bestIdx]);
      FaultedInParts(world, old(world.polls), p1, world.polls, old(world.resets), t1, world.resets, trace, []);
      assert trace + [] == trace;
      if !ok {
        return Failed("re-evaluate best: reset"), pops, trace;
      }
      var r := EpochResult(pop[bestIdx], scores[bestIdx], bestFp, best, gens,
                           SearchStats(cfg.PopSize, cfg.MaxGenerations, gens, evalsTotal, fatalEvals));
      ResultIsExact(r, pops, scores[..], raws[..], trace);
      out := Done(r);
    }

    /** The sampled generation is evaluated from its first slot on. */
    method EvaluateFirst(world: World, first: seq<Gene>, numWorkers: nat, scores: array<ScoreTotal>,
                         raws: array<RawEvaluateResult>, ghost from: nat)
      returns (ok: bool, ghost trace: seq<Gene>)
      requires numWorkers > 0 && |first| == scores.Length == raws.Length == cfg.PopSize >= 1
      requires first == Sampled(world.draws, from)
      modifies scores, raws, world`polls, world`resets, world`calls
      ensures world.calls == old(world.calls) + trace
      ensures old(world.polls) <= world.polls && old(world.resets) <= world.resets
      ensures ok ==> EpochState([first], scores[..], raws[..], trace, cfg.PopSize, CountFatal(scores[..]))
      ensures ok ==> IsLineage([first]) && History([first], world.draws, from)
      ensures ok ==> GenCursor(from, 0) == from + cfg.PopSize
      ensures !ok <==> Faulted(world, old(world.polls), world.polls, old(world.resets), world.resets, trace)
    {
      hide *;
      ok, trace := EvaluatePopulation(world, first, numWorkers, scores, raws, 0);
      if ok {
        KeptPrefix(first, scores[..], scores[..], raws[..], raws[..], 0);
        FirstGeneration(first, scores[..], raws[..], trace, world.draws, from);
        FirstCursor(from);
      }
    }

    /** Resets an adapter and evaluates the winner once more. */
    method ReEvaluate(world: World, g: Gene, ghost score: ScoreTotal, ghost raw: RawEvaluateResult)
      returns (ok: bool, best: RawEvaluateResult)
      requires RightAt(g, score, raw)
      modifies world`resets, world`calls
      ensures world.resets == old(world.resets) + 1
      ensures world.calls == old(world.calls) + if ok then [g] else []
      ensures ok ==> best == raw
      ensures !ok <==> Faulted(world, world.polls, world.polls, old(world.resets), world.resets, [])
    {
      ok := world.Reset();
      if !ok {
        assert world.resetFails(world.resets - 1);
        return ok, [];
      }
      EvaluatesAgain(g, score, raw);
      var again := world.Evaluate(strat, g);
      var valid := ValidateForIS(again);
      assert valid.Pass?;
      best := again.value;
    }

    lemma FirstCursor(from: nat)
      requires cfg.PopSize >= 1
      ensures GenCursor(from, 0) == from + cfg.PopSize
    {
    }

    /** Evaluate is pure, so the final re-evaluation of the best gene succeeds and
        returns the raw result its score came from. */
    lemma EvaluatesAgain(g: Gene, score: ScoreTotal, raw: RawEvaluateResult)
      requires RightAt(g, score, raw)
      ensures strat.Evaluate(g) == Some(raw) && IsCascadeSequence(raw)
    {
    }

    // -------------------------------------------------------------- determinism

    lemma {:induction false} SameLength(pops: seq<seq<Gene>>, pops': seq<seq<Gene>>, draws: Draws, from: nat)
      requires IsLineage(pops) && History(pops, draws, from) && EndsRight(cfg, Bests(pops))
      requires IsLineage(pops') && History(pops', draws, from) && EndsRight(cfg, Bests(pops'))
      requires |pops'| <= cfg.MaxGenerations
      ensures |pops| >= |pops'|
    {
      hide *;
      if |pops| < |pops'| {
        LastStep(pops, draws, from);
        HistoryPrefix(pops', |pops|, draws, from);
        HistoriesAgree(pops, pops'[..|pops|], draws, from);
        LineagePrefix(pops', |pops|);
        EndsOnce(cfg, Bests(pops'), |pops|);
      }
    }

    /** Whatever the worker schedules, and whichever cancellations and resets were
        looked at, two epochs that finish on the same draws return the same result
        from the same evaluations. */
    lemma ResultsAgree(r: EpochResult, pops: seq<seq<Gene>>, trace: seq<Gene>,
                       r': EpochResult, pops': seq<seq<Gene>>, trace': seq<Gene>, draws: Draws, from: nat)
      requires ExactResult(r, pops, trace) && History(pops, draws, from) && EndsRight(cfg, Bests(pops))
      requires ExactResult(r', pops', trace') && History(pops', draws, from) && EndsRight(cfg, Bests(pops'))
      ensures r == r' && pops == pops' && multiset(trace) == multiset(trace')
    {
      hide History, EndsRight, Bests, IsLineage, Leader, Evaluable, Fresh, FatalTotal, Outranks, Evaluations;
      SameLength(pops, pops', draws, from);
      SameLength(pops', pops, draws, from);
      HistoriesAgree(pops, pops', draws, from);
    }
  }
}
