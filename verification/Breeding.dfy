/** Tournament selection and breeding, over an environment fixed in advance: the
    outcome of every random draw, of every look at the context, of every adapter
    construction and reset is an input, so a run is a function of its inputs.

    The strategy's Evaluate and Fingerprint are arbitrary functions of the gene;
    Sample, Crossover and Mutate also take the randomness they consume. */
module Breeding {
  import opened Common
  import opened Reals
  import opened ResultPkg
  import opened Convergence
  import opened Ranking

  type Gene = seq<real>

  datatype Strategy = Strategy(
    Evaluate: Gene -> Option<RawEvaluateResult>,
    Fingerprint: Gene -> string,
    Sample: nat -> Gene,
    Crossover: (Gene, Gene, nat) -> Gene,
    Mutate: (Gene, real, real, nat) -> Gene)

  /** The k-th random draw of an epoch; a bounded draw is its remainder. */
  type Draws = nat -> nat

  /** The environment of an epoch. The cursors say how much of it is used up, and
      calls is every gene handed to Adapter.Evaluate, in order. */
  class World {
    const draws: Draws
    const cancelled: nat -> bool
    const resetFails: nat -> bool
    const adapterFails: nat -> bool
    var drawn: nat
    var polls: nat
    var resets: nat
    var adapters: nat
    ghost var calls: seq<Gene>

    constructor (draws: Draws, cancelled: nat -> bool, resetFails: nat -> bool, adapterFails: nat -> bool)
      ensures this.draws == draws && this.cancelled == cancelled && this.resetFails == resetFails
              && this.adapterFails == adapterFails
      ensures drawn == polls == resets == adapters == 0 && calls == []
    {
      this.draws, this.cancelled, this.resetFails, this.adapterFails := draws, cancelled, resetFails, adapterFails;
      drawn, polls, resets, adapters, calls := 0, 0, 0, 0, [];
    }

    method Draw() returns (x: nat)
      modifies this`drawn
      ensures x == draws(old(drawn)) && drawn == old(drawn) + 1
    {
      x := draws(drawn);
      drawn := drawn + 1;
    }

    method Intn(n: nat) returns (k: nat)
      requires n > 0
      modifies this`drawn
      ensures k == draws(old(drawn)) % n && drawn == old(drawn) + 1
    {
      var x := Draw();
      k := x % n;
    }

    method ContextDone() returns (done: bool)
      modifies this`polls
      ensures done == cancelled(old(polls)) && polls == old(polls) + 1
    {
      done := cancelled(polls);
      polls := polls + 1;
    }

    method Reset() returns (ok: bool)
      modifies this`resets
      ensures ok == !resetFails(old(resets)) && resets == old(resets) + 1
    {
      ok := !resetFails(resets);
      resets := resets + 1;
    }

    method NewAdapter() returns (ok: bool)
      modifies this`adapters
      ensures ok == !adapterFails(old(adapters)) && adapters == old(adapters) + 1
    {
      ok := !adapterFails(adapters);
      adapters := adapters + 1;
    }

    method Evaluate(strat: Strategy, g: Gene) returns (raw: Option<RawEvaluateResult>)
      modifies this`calls
      ensures raw == strat.Evaluate(g) && calls == old(calls) + [g]
    {
      calls := calls + [g];
      raw := strat.Evaluate(g);
    }
  }

  /** int(x) truncates toward zero. */
  function Truncate(x: real): int {
    if x >= 0.0 then x.Floor else -(-x).Floor
  }

  /** x truncated and kept within 1 and n. */
  function Clipped(n: nat, x: real): (ne: nat)
    requires n >= 1
    ensures 1 <= ne <= n && (x < 1.0 ==> ne == 1) && (x >= n as real ==> ne == n)
    ensures 1.0 <= x < n as real ==> ne as real <= x < ne as real + 1.0
  {
    var ne := Truncate(x);
    if ne < 1 then 1 else if ne > n then n else ne
  }

  function CalcEliteCount(n: nat, ratio: real): (ne: nat)
    requires n >= 1
    ensures 1 <= ne <= n
    ensures Mul(n as real, ratio) < 1.0 ==> ne == 1
    ensures Mul(n as real, ratio) >= n as real ==> ne == n
    ensures 1.0 <= Mul(n as real, ratio) < n as real ==>
              ne as real <= Mul(n as real, ratio) < ne as real + 1.0
  {
    Clipped(n, Mul(n as real, ratio))
  }

  /** k of n slots are bred: all but one when the elite share is below one slot,
      none when it is everything, otherwise the least number that is no less than
      n * (1 - ratio). */
  ghost predicate BredCount(n: nat, ratio: real, k: nat) {
    IsBredCount(n, Mul(n as real, ratio), Mul(n as real, 1.0 - ratio), k)
  }

  ghost predicate IsBredCount(n: nat, kept: real, rest: real, k: nat) {
    && (kept < 1.0 ==> k == n - 1) && (kept >= n as real ==> k == 0)
    && (1.0 <= kept < n as real ==> k as real >= rest > k as real - 1.0)
  }

  lemma BredIs(n: nat, ratio: real, k: nat)
    requires n >= 1
    ensures BredCount(n, ratio, k) <==> k == n - CalcEliteCount(n, ratio)
  {
    hide CalcEliteCount, IsBredCount;
    Rest(n as real, ratio);
    hide Mul;
    Counts(n, CalcEliteCount(n, ratio), Mul(n as real, ratio), Mul(n as real, 1.0 - ratio), k);
  }

  lemma Rest(n: real, ratio: real)
    ensures Mul(n, 1.0 - ratio) == n - Mul(n, ratio)
  {
  }

  lemma Counts(n: nat, ne: nat, kept: real, rest: real, k: nat)
    requires 1 <= ne <= n && rest == n as real - kept
    requires (kept < 1.0 ==> ne == 1) && (kept >= n as real ==> ne == n)
    requires 1.0 <= kept < n as real ==> ne as real <= kept < ne as real + 1.0
    ensures IsBredCount(n, kept, rest, k) <==> k == n - ne
  {
    assert (n - ne) as real == n as real - ne as real;
    if 1.0 <= kept < n as real && IsBredCount(n, kept, rest, k) {
      Squeezed(n, ne, k, kept);
    }
  }

  lemma Squeezed(n: nat, ne: nat, k: nat, x: real)
    requires ne <= n && ne as real <= x < ne as real + 1.0 && k as real >= n as real - x > k as real - 1.0
    ensures k == n - ne
  {
    assert (k + ne) as real == k as real + ne as real;
  }

  // ---------------------------------------------------------------- tournaments

  /** How many candidates one tournament draws. */
  function Rounds(cfg: EngineConfig): (m: nat)
    ensures m >= 1
  {
    if cfg.TournamentSize > 1 then cfg.TournamentSize else 1
  }

  /** The candidate of the j-th draw. */
  function Candidate(draws: Draws, from: nat, j: nat, n: nat): (c: nat)
    requires n > 0
    ensures c < n
  {
    draws(from + j) % n
  }

  /** The index left standing after m draws: a later candidate must be strictly
      better to take over. */
  function Winner(ks: seq<Key>, draws: Draws, from: nat, m: nat): (best: nat)
    requires ks != [] && Rankable(ks) && m >= 1
    ensures best < |ks|
  {
    var cand := Candidate(draws, from, m - 1, |ks|);
    if m == 1 then cand
    else
      var best := Winner(ks, draws, from, m - 1);
      if CompareWithFp(ks[cand], ks[best]) < 0 then cand else best
  }

  /** The j-th draw is the first best of m draws. */
  ghost predicate FirstBest(ks: seq<Key>, draws: Draws, from: nat, m: nat, j: nat)
    requires ks != [] && Rankable(ks) && j < m
  {
    var w := ks[Candidate(draws, from, j, |ks|)];
    && (forall i | 0 <= i < m :: NoWorse(w, ks[Candidate(draws, from, i, |ks|)]))
    && (forall i | 0 <= i < j :: CompareWithFp(w, ks[Candidate(draws, from, i, |ks|)]) < 0)
  }

  lemma {:induction false} WinnerIsFirstBest(ks: seq<Key>, draws: Draws, from: nat, m: nat) returns (j: nat)
    requires ks != [] && Rankable(ks) && m >= 1
    ensures j < m && Winner(ks, draws, from, m) == Candidate(draws, from, j, |ks|) && FirstBest(ks, draws, from, m, j)
  {
    hide CompareWithFp;
    var last := ks[Candidate(draws, from, m - 1, |ks|)];
    TotalPreorder(last, last, last);
    if m == 1 {
      j := 0;
    } else {
      var i := WinnerIsFirstBest(ks, draws, from, m - 1);
      var before := ks[Winner(ks, draws, from, m - 1)];
      TotalPreorder(last, before, last);
      j := if CompareWithFp(last, before) < 0 then m - 1 else i;
      forall h | 0 <= h < m - 1 && j == m - 1 ensures CompareWithFp(last, ks[Candidate(draws, from, h, |ks|)]) < 0 {
        StrictThenWeak(last, before, ks[Candidate(draws, from, h, |ks|)]);
      }
    }
  }

  lemma StrictThenWeak(a: Key, b: Key, c: Key)
    requires RankableKey(a) && RankableKey(b) && RankableKey(c)
    requires CompareWithFp(a, b) < 0 && NoWorse(b, c)
    ensures CompareWithFp(a, c) < 0
  {
    TotalPreorder(a, b, c);
    TotalPreorder(c, a, b);
    TotalPreorder(b, c, a);
    TotalPreorder(a, c, b);
  }

  function KeysOf(scores: seq<ScoreTotal>, fps: seq<string>): (ks: seq<Key>)
    requires |scores| == |fps|
    ensures |ks| == |scores|
  {
    seq(|scores|, i requires 0 <= i < |scores| => Key(scores[i], fps[i]))
  }

  /** best is the candidate of some draw that is the first best of the m draws. */
  ghost predicate WinsTournament(ks: seq<Key>, draws: Draws, from: nat, m: nat, best: nat)
    requires ks != [] && Rankable(ks)
  {
    exists j: nat :: j < m && best == Candidate(draws, from, j, |ks|) && FirstBest(ks, draws, from, m, j)
  }

  lemma KeysRankable(scores: seq<ScoreTotal>, fps: seq<string>)
    requires |scores| == |fps| && forall i | 0 <= i < |scores| :: Comparable(scores[i])
    ensures Rankable(KeysOf(scores, fps))
    ensures forall i | 0 <= i < |scores| ::
            KeysOf(scores, fps)[i] == Key(scores[i], fps[i]) && RankableKey(KeysOf(scores, fps)[i])
  {
  }

  lemma WinnerSteps(ks: seq<Key>, draws: Draws, from: nat, m: nat)
    requires ks != [] && Rankable(ks) && m >= 1
    ensures Winner(ks, draws, from, 1) == draws(from) % |ks|
    ensures RankableKey(ks[Winner(ks, draws, from, m)]) && RankableKey(ks[draws(from + m) % |ks|])
    ensures var best, cand := Winner(ks, draws, from, m), draws(from + m) % |ks|;
            Winner(ks, draws, from, m + 1) == if CompareWithFp(ks[cand], ks[best]) < 0 then cand else best
  {
    hide CompareWithFp, RankableKey;
  }

  lemma RoundsIs(cfg: EngineConfig)
    ensures Rounds(cfg) == if cfg.TournamentSize > 1 then cfg.TournamentSize else 1
  {
  }

  /** Draws Rounds candidates and keeps the first best of them. */
  method TournamentSelect(world: World, cfg: EngineConfig, scores: array<ScoreTotal>, fingerprints: array<string>)
    returns (best: nat)
    requires scores.Length == fingerprints.Length > 0
    requires forall i | 0 <= i < scores.Length :: Comparable(scores[i])
    modifies world`drawn
    ensures var ks := KeysOf(scores[..], fingerprints[..]);
            && Rankable(ks)
            && best == Winner(ks, world.draws, old(world.drawn), Rounds(cfg))
            && WinsTournament(ks, world.draws, old(world.drawn), Rounds(cfg), best)
    ensures world.drawn == old(world.drawn) + Rounds(cfg)
  {
    hide *;
    ghost var ks, from := KeysOf(scores[..], fingerprints[..]), world.drawn;
    KeysRankable(scores[..], fingerprints[..]);
    RoundsIs(cfg);
    WinnerSteps(ks, world.draws, from, 1);
    best := world.Intn(scores.Length);
    var k := 1;
    while k < cfg.TournamentSize
      invariant 1 <= k && (k == 1 || k <= cfg.TournamentSize)
      invariant world.drawn == from + k && best == Winner(ks, world.draws, from, k)
    {
      WinnerSteps(ks, world.draws, from, k);
      var cand := world.Intn(scores.Length);
      var c, b := Key(scores[cand], fingerprints[cand]), Key(scores[best], fingerprints[best]);
      assert c == ks[cand] && b == ks[best];
      if CompareWithFp(c, b) < 0 {
        best := cand;
      }
      k := k + 1;
    }
    WinnerWins(ks, world.draws, from, Rounds(cfg));
  }

  lemma WinnerWins(ks: seq<Key>, draws: Draws, from: nat, m: nat)
    requires ks != [] && Rankable(ks) && m >= 1
    ensures WinsTournament(ks, draws, from, m, Winner(ks, draws, from, m))
  {
    hide FirstBest, Candidate, Winner;
    var j := WinnerIsFirstBest(ks, draws, from, m);
  }

  // ---------------------------------------------------------------- the next generation

  /** The child bred from the draws at k: two tournaments, a crossover, a mutation. */
  function Child(strat: Strategy, cfg: EngineConfig, draws: Draws, pop: seq<Gene>, ks: seq<Key>, k: nat, mutProb: real,
                 mutScale: real): Gene
    requires |ks| == |pop| && ks != [] && Rankable(ks)
  {
    var m := Rounds(cfg);
    var p1, p2 := Winner(ks, draws, k, m), Winner(ks, draws, k + m, m);
    strat.Mutate(strat.Crossover(pop[p1], pop[p2], draws(k + 2 * m)), mutProb, mutScale, draws(k + 2 * m + 1))
  }

  lemma ChildIs(strat: Strategy, cfg: EngineConfig, draws: Draws, pop: seq<Gene>, ks: seq<Key>, k: nat, mutProb: real,
                mutScale: real)
    requires |ks| == |pop| && ks != []
    ensures Rankable(ks) ==>
              var p1, p2 := Winner(ks, draws, k, Rounds(cfg)), Winner(ks, draws, k + Rounds(cfg), Rounds(cfg));
              Child(strat, cfg, draws, pop, ks, k, mutProb, mutScale) ==
              strat.Mutate(strat.Crossover(pop[p1], pop[p2], draws(k + 2 * Rounds(cfg))), mutProb, mutScale,
                           draws(k + 2 * Rounds(cfg) + 1))
  {
  }

  /** The cursor before the j-th child. */
  function CursorAt(cfg: EngineConfig, from: nat, j: nat): nat {
    if j == 0 then from else CursorAt(cfg, from, j - 1) + 2 * Rounds(cfg) + 2
  }

  /** next is bred from prev: the elites in rank order, then the children of the
      tournaments drawn from the cursor on. */
  predicate IsSuccessor(strat: Strategy, cfg: EngineConfig, draws: Draws, pop: seq<Gene>, ks: seq<Key>, ord: seq<nat>,
                        from: nat, mutProb: real, mutScale: real, next: seq<Gene>)
  {
    && |pop| == |ks| == |ord| == |next| >= 1 && Rankable(ks) && Below(ord, |pop|)
    && var nElite := CalcEliteCount(|pop|, cfg.EliteRatio);
    && (forall i | 0 <= i < nElite :: next[i] == pop[ord[i]])
    && (forall i | nElite <= i < |next| ::
          next[i] == Child(strat, cfg, draws, pop, ks, CursorAt(cfg, from, i - nElite), mutProb, mutScale))
  }

  /** Crossover of two tournament winners, then Mutate. */
  method Breed(world: World, strat: Strategy, cfg: EngineConfig, pop: seq<Gene>, scores: array<ScoreTotal>,
               fingerprints: array<string>, mutProb: real, mutScale: real)
    returns (child: Gene)
    requires |pop| == scores.Length == fingerprints.Length >= 1
    requires forall i | 0 <= i < |pop| :: Comparable(scores[i])
    modifies world`drawn
    ensures Rankable(KeysOf(scores[..], fingerprints[..]))
    ensures child == Child(strat, cfg, world.draws, pop, KeysOf(scores[..], fingerprints[..]), old(world.drawn),
                           mutProb, mutScale)
    ensures world.drawn == old(world.drawn) + 2 * Rounds(cfg) + 2
  {
    hide *;
    ChildIs(strat, cfg, world.draws, pop, KeysOf(scores[..], fingerprints[..]), world.drawn, mutProb, mutScale);
    var p1 := TournamentSelect(world, cfg, scores, fingerprints);
    var p2 := TournamentSelect(world, cfg, scores, fingerprints);
    var cross := world.Draw();
    child := strat.Crossover(pop[p1], pop[p2], cross);
    var mut := world.Draw();
    child := strat.Mutate(child, mutProb, mutScale, mut);
  }

  method ProduceNextGeneration(world: World, strat: Strategy, cfg: EngineConfig, pop: seq<Gene>,
                               scores: array<ScoreTotal>,
                               fingerprints: array<string>, order: array<nat>, mutProb: real, mutScale: real)
    returns (next: seq<Gene>)
    requires |pop| == scores.Length == fingerprints.Length == order.Length >= 1
    requires forall i | 0 <= i < |pop| :: order[i] < |pop| && Comparable(scores[i])
    modifies world`drawn
    ensures IsSuccessor(strat, cfg, world.draws, pop, KeysOf(scores[..], fingerprints[..]), order[..],
                        old(world.drawn), mutProb, mutScale, next)
    ensures world.drawn == CursorAt(cfg, old(world.drawn), |pop| - CalcEliteCount(|pop|, cfg.EliteRatio))
  {
    hide Child, CalcEliteCount;
    var n := |pop|;
    var nElite := CalcEliteCount(n, cfg.EliteRatio);
    ghost var ks := KeysOf(scores[..], fingerprints[..]);
    next := [];
    for i := 0 to nElite
      invariant |next| == i && forall j | 0 <= j < i :: next[j] == pop[order[j]]
    {
      next := next + [pop[order[i]]];
    }
    while |next| < n
      invariant nElite <= |next| <= n && world.drawn == CursorAt(cfg, old(world.drawn), |next| - nElite)
      invariant forall j | 0 <= j < nElite :: next[j] == pop[order[j]]
      invariant Rankable(ks)
      invariant forall j | nElite <= j < |next| ::
                  next[j] ==
                    Child(strat, cfg, world.draws, pop, ks, CursorAt(cfg, old(world.drawn), j - nElite), mutProb,
                          mutScale)
    {
      var child := Breed(world, strat, cfg, pop, scores, fingerprints, mutProb, mutScale);
      next := next + [child];
    }
  }
}
