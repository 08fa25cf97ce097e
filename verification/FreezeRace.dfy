/** Delta reports of one account handled at the same time: the streak update, the
    latch insert and the sentinel write of a handler are separate steps, and
    handlers and resumes interleave between them.

    AutoFreeze handles one report after another; this module shows when that order
    matters. */
module FreezeRace {
  import opened AutoFreeze

  /** Where a handler stands: about to insert, between the insert and the sentinel,
      or with nothing left to do. */
  datatype Phase = Attempting | Written | Finished

  /** Handlers are numbered in the order of their streak updates; latches counts
      the rows written. */
  datatype Sys = Sys(streak: int, handlers: seq<Phase>, latches: nat)

  datatype Step =
    | Begin(maxBps: real)
    | Insert(h: nat, ok: bool)
    | Mark(h: nat)
    | Resume

  function Apply(st: Sys, step: Step, s: Settings): Sys {
    match step
    case Begin(maxBps) =>
      var next := NextDriftStreak(maxBps, st.streak, s.Line());
      st.(streak := next, handlers := st.handlers + [if next >= s.Debounce() && s.wired then Attempting else Finished])
    case Insert(h, ok) =>
      if !At(st, h, Attempting) then st
      else if ok then st.(handlers := st.handlers[h := Written], latches := st.latches + 1)
      else st.(handlers := st.handlers[h := Finished])
    case Mark(h) =>
      if !At(st, h, Written) then st
      else st.(streak := KILLED_SENTINEL, handlers := st.handlers[h := Finished])
    case Resume => st.(streak := 0)
  }

  predicate At(st: Sys, h: nat, p: Phase) {
    h < |st.handlers| && st.handlers[h] == p
  }

  function Exec(steps: seq<Step>, s: Settings): Sys {
    if steps == [] then Sys(0, [], 0) else Apply(Exec(steps[..|steps| - 1], s), steps[|steps| - 1], s)
  }

  lemma ExecAt(steps: seq<Step>, t: nat, s: Settings)
    requires t < |steps|
    ensures Exec(steps[..t + 1], s) == Apply(Exec(steps[..t], s), steps[t], s)
  {
    assert steps[..t + 1][..t] == steps[..t];
  }

  /** Handler h writes the latch at step t. */
  predicate LatchesAt(steps: seq<Step>, t: nat, h: nat, s: Settings) {
    t < |steps| && steps[t] == Insert(h, true) && At(Exec(steps[..t], s), h, Attempting)
  }

  /** A report below the line, or a resume. */
  predicate Resets(step: Step, s: Settings) {
    step.Resume? || (step.Begin? && step.maxBps < s.Line())
  }

  /** Two freezes with no report below the line and no resume between them. */
  ghost predicate Repeats(steps: seq<Step>, u: nat, v: nat, g: nat, h: nat, s: Settings) {
    && u < v && LatchesAt(steps, u, g, s) && LatchesAt(steps, v, h, s)
    && forall w | u < w < v :: !Resets(steps[w], s)
  }

  predicate InFlight(st: Sys, h: nat) {
    h < |st.handlers| && !st.handlers[h].Finished?
  }

  // ---------------------------------------------------------------- a repeat needs two handlers at once

  /** What separates handler g's freeze from handler h: h has not started or has
      nothing to do, and once g is done the sentinel stands. */
  ghost predicate Shielded(st: Sys, g: nat, h: nat) {
    && (h < |st.handlers| ==> st.handlers[h].Finished?)
    && (At(st, g, Written) || (At(st, g, Finished) && st.streak == KILLED_SENTINEL))
  }

  lemma ShieldHolds(st: Sys, step: Step, g: nat, h: nat, s: Settings)
    requires Shielded(st, g, h) && g != h && !Resets(step, s)
    requires !(InFlight(Apply(st, step, s), g) && InFlight(Apply(st, step, s), h))
    ensures Shielded(Apply(st, step, s), g, h)
  {
  }

  lemma {:induction false} ShieldLasts(steps: seq<Step>, u: nat, t: nat, g: nat, h: nat, s: Settings)
    requires u < t <= |steps| && g != h && Shielded(Exec(steps[..u + 1], s), g, h)
    requires forall w | u < w < t :: !Resets(steps[w], s)
    requires forall w: nat | u <= w <= t :: !(InFlight(Exec(steps[..w], s), g) && InFlight(Exec(steps[..w], s), h))
    ensures Shielded(Exec(steps[..t], s), g, h)
  {
    hide Apply, Shielded, InFlight, Resets;
    if t > u + 1 {
      ShieldLasts(steps, u, t - 1, g, h, s);
      ExecAt(steps, t - 1, s);
      ShieldHolds(Exec(steps[..t - 1], s), steps[t - 1], g, h, s);
    }
  }

  /** A finished handler stays finished, and a written one never attempts again. */
  lemma {:induction false} NeverAgain(steps: seq<Step>, u: nat, t: nat, h: nat, s: Settings)
    requires u <= t <= |steps| && h < |Exec(steps[..u], s).handlers| && !At(Exec(steps[..u], s), h, Attempting)
    ensures h < |Exec(steps[..t], s).handlers| && !At(Exec(steps[..t], s), h, Attempting)
    ensures At(Exec(steps[..u], s), h, Finished) ==> At(Exec(steps[..t], s), h, Finished)
  {
    if u < t {
      NeverAgain(steps, u, t - 1, h, s);
      ExecAt(steps, t - 1, s);
    }
  }

  lemma JustWritten(steps: seq<Step>, u: nat, v: nat, g: nat, h: nat, s: Settings)
    requires u < v && LatchesAt(steps, u, g, s) && LatchesAt(steps, v, h, s)
    ensures At(Exec(steps[..u + 1], s), g, Written) && g != h
  {
    ExecAt(steps, u, s);
    NeverAgain(steps, u + 1, v, g, s);
  }

  /** On every run, two freezes without a report below the line or a resume between
      them come from two handlers that were in flight at the same time. */
  lemma RepeatsOverlap(steps: seq<Step>, u: nat, v: nat, g: nat, h: nat, s: Settings) returns (t: nat)
    requires Repeats(steps, u, v, g, h, s)
    ensures u <= t <= v && g != h && InFlight(Exec(steps[..t], s), g) && InFlight(Exec(steps[..t], s), h)
  {
    hide Apply;
    JustWritten(steps, u, v, g, h, s);
    if t' :| u <= t' <= v && InFlight(Exec(steps[..t'], s), g) && InFlight(Exec(steps[..t'], s), h) {
      t := t';
    } else {
      ExecAt(steps, u, s);
      NotYet(steps, u, v, g, h, s);
      ShieldLasts(steps, u, v, g, h, s);
      t := u;
      assert false;
    }
  }

  /** With g about to insert and h not in flight, h has not started. */
  lemma NotYet(steps: seq<Step>, u: nat, v: nat, g: nat, h: nat, s: Settings)
    requires u < v && g != h && LatchesAt(steps, u, g, s) && LatchesAt(steps, v, h, s)
    requires !InFlight(Exec(steps[..u], s), h)
    ensures Shielded(Exec(steps[..u + 1], s), g, h)
  {
    ExecAt(steps, u, s);
    if h < |Exec(steps[..u], s).handlers| {
      NeverAgain(steps, u, v, h, s);
    }
  }

  // ---------------------------------------------------------------- how many handlers are too many

  function Flying(st: Sys): set<nat> {
    set h: nat | h < |st.handlers| && !st.handlers[h].Finished?
  }

  /** Never more than k handlers in flight. */
  ghost predicate AtMost(steps: seq<Step>, k: nat, s: Settings) {
    forall t: nat | t <= |steps| :: |Flying(Exec(steps[..t], s))| <= k
  }

  ghost predicate Separated(steps: seq<Step>, s: Settings) {
    forall u, v, g, h :: !Repeats(steps, u, v, g, h, s)
  }

  lemma TwoFly(st: Sys, g: nat, h: nat)
    requires g != h && InFlight(st, g) && InFlight(st, h)
    ensures |Flying(st)| >= 2
  {
    assert {g, h} <= Flying(st);
    SubsetSize({g, h}, Flying(st));
  }

  lemma {:induction false} SubsetSize(a: set<nat>, b: set<nat>)
    requires a <= b
    ensures |a| <= |b|
  {
    if a != {} {
      var x :| x in a;
      SubsetSize(a - {x}, b - {x});
    }
  }

  /** Reports on the line, one handler each. */
  function Rise(n: nat, s: Settings): seq<Step> {
    seq(n, i => Begin(s.Line()))
  }

  function Risen(n: nat, s: Settings): Sys {
    Sys(n, seq(n, i requires 0 <= i < n => if i + 1 >= s.Debounce() then Attempting else Finished), 0)
  }

  lemma {:induction false} RiseState(n: nat, s: Settings)
    requires s.wired
    ensures Exec(Rise(n, s), s) == Risen(n, s)
  {
    if n > 0 {
      RiseState(n - 1, s);
      assert Rise(n, s)[..n - 1] == Rise(n - 1, s);
    }
  }

  /** The report that reaches the threshold and the next one both begin, then both insert. */
  function Race(s: Settings): seq<Step> {
    var n: nat := s.Debounce();
    Rise(n + 1, s) + [Insert(n - 1, true)] + [Insert(n, true)]
  }

  /** Only the last two handlers of the race are ever in flight. */
  lemma RaceFlies(s: Settings, t: nat)
    requires s.wired && t <= |Race(s)|
    ensures |Flying(Exec(Race(s)[..t], s))| <= 2
  {
    var n: nat := s.Debounce();
    var p := Rise(n + 1, s);
    if t <= n + 1 {
      assert Race(s)[..t] == Rise(t, s);
      RiseState(t, s);
    } else {
      RaceInserts(s);
      assert Race(s)[..n + 2] == p + [Insert(n - 1, true)] && Race(s)[..n + 3] == Race(s);
    }
    var st := Exec(Race(s)[..t], s);
    assert Flying(st) <= {n - 1, n};
    SubsetSize(Flying(st), {n - 1, n});
  }

  lemma RaceInserts(s: Settings)
    requires s.wired
    ensures var n: nat := s.Debounce();
            var p := Rise(n + 1, s);
            && At(Exec(p, s), n - 1, Attempting)
            && At(Exec(p + [Insert(n - 1, true)], s), n, Attempting)
            && Exec(p + [Insert(n - 1, true)], s).handlers == Risen(n + 1, s).handlers[n - 1 := Written]
            && Exec(Race(s), s).handlers == Risen(n + 1, s).handlers[n - 1 := Written][n := Written]
  {
    var n: nat := s.Debounce();
    var p := Rise(n + 1, s);
    RiseState(n + 1, s);
    assert (p + [Insert(n - 1, true)])[..n + 1] == p;
    assert Race(s)[..n + 2] == p + [Insert(n - 1, true)];
  }

  lemma RaceRepeats(s: Settings)
    requires s.wired
    ensures var n: nat := s.Debounce(); Repeats(Race(s), n + 1, n + 2, n - 1, n, s)
  {
    var n: nat := s.Debounce();
    var p := Rise(n + 1, s);
    RaceInserts(s);
    assert Race(s)[..n + 1] == p && Race(s)[..n + 2] == p + [Insert(n - 1, true)];
    assert Race(s)[n + 1] == Insert(n - 1, true) && Race(s)[n + 2] == Insert(n, true);
  }

  /** With a sender wired, freezes are separated by a report below the line or a
      resume on every run with at most k handlers at once exactly when k is at most 1. */
  lemma SerialDecides(k: nat, s: Settings)
    requires s.wired
    ensures (forall steps | AtMost(steps, k, s) :: Separated(steps, s)) <==> k <= 1
  {
    hide Exec, Repeats, Flying, Race;
    if k <= 1 {
      forall steps | AtMost(steps, k, s) ensures Separated(steps, s) {
        forall u: nat, v: nat, g: nat, h: nat ensures !Repeats(steps, u, v, g, h, s) {
          if Repeats(steps, u, v, g, h, s) {
            RepeatsWithin(steps, u, v, g, h, s);
          }
        }
      }
    } else {
      forall t: nat | t <= |Race(s)| ensures |Flying(Exec(Race(s)[..t], s))| <= k {
        RaceFlies(s, t);
      }
      RaceRepeats(s);
      assert AtMost(Race(s), k, s) && !Separated(Race(s), s);
    }
  }

  lemma RepeatsWithin(steps: seq<Step>, u: nat, v: nat, g: nat, h: nat, s: Settings)
    requires Repeats(steps, u, v, g, h, s)
    ensures exists t: nat :: t <= |steps| && |Flying(Exec(steps[..t], s))| >= 2
  {
    hide Exec, Flying;
    var t := RepeatsOverlap(steps, u, v, g, h, s);
    TwoFly(Exec(steps[..t], s), g, h);
  }

  // ---------------------------------------------------------------- one after another

  /** A history as steps: every report is handled to its end before the next event. */
  function Serial(es: seq<Event>): seq<Step> {
    if es == [] then []
    else
      var init, last := es[..|es| - 1], es[|es| - 1];
      Serial(init)
      + match last
        case Clear => [Resume]
        case Report(maxBps, latchOk) => [Begin(maxBps), Insert(Reports(init), latchOk), Mark(Reports(init))]
  }

  function Reports(es: seq<Event>): nat {
    if es == [] then 0 else Reports(es[..|es| - 1]) + if es[|es| - 1].Report? then 1 else 0
  }

  function LatchCount(es: seq<Event>, s: Settings): nat {
    if es == [] then 0
    else LatchCount(es[..|es| - 1], s) + if Latches(es, |es| - 1, s) then 1 else 0
  }

  lemma ExecSnoc(steps: seq<Step>, step: Step, s: Settings)
    ensures Exec(steps + [step], s) == Apply(Exec(steps, s), step, s)
  {
    assert (steps + [step])[..|steps|] == steps;
  }

  lemma ExecThree(steps: seq<Step>, x: Step, y: Step, z: Step, s: Settings)
    ensures Exec(steps + [x, y, z], s) == Apply(Apply(Apply(Exec(steps, s), x, s), y, s), z, s)
  {
    hide Exec;
    assert steps + [x, y, z] == steps + [x] + [y] + [z];
    ExecSnoc(steps, x, s);
    ExecSnoc(steps + [x], y, s);
    ExecSnoc(steps + [x] + [y], z, s);
  }

  ghost predicate AllFinished(st: Sys) {
    forall h | 0 <= h < |st.handlers| :: st.handlers[h].Finished?
  }

  lemma OneReport(st: Sys, maxBps: real, latchOk: bool, s: Settings)
    requires AllFinished(st)
    ensures var k := |st.handlers|;
            var t := Apply(Apply(Apply(st, Begin(maxBps), s), Insert(k, latchOk), s), Mark(k), s);
            var next := NextDriftStreak(maxBps, st.streak, s.Line());
            var latched := next >= s.Debounce() && s.wired && latchOk;
            && AllFinished(t) && |t.handlers| == k + 1
            && t.streak == (if latched then KILLED_SENTINEL else next)
            && t.latches == st.latches + if latched then 1 else 0
  {
  }

  /** Handled one after another the steps keep the counter and write the latches
      of the history. */
  lemma {:induction false} SerialIsHistory(es: seq<Event>, s: Settings)
    ensures var st := Exec(Serial(es), s);
            && st.streak == Streak(es, s) && st.latches == LatchCount(es, s)
            && |st.handlers| == Reports(es) && AllFinished(st)
  {
    if es != [] {
      var init, last := es[..|es| - 1], es[|es| - 1];
      SerialIsHistory(init, s);
      var before, k := Serial(init), Reports(init);
      hide Apply, Exec;
      if last.Clear? {
        ExecSnoc(before, Resume, s);
        ResumeOnly(Exec(before, s), s);
      } else {
        ExecThree(before, Begin(last.maxBps), Insert(k, last.latchOk), Mark(k), s);
        OneReport(Exec(before, s), last.maxBps, last.latchOk, s);
      }
    }
  }

  lemma ResumeOnly(st: Sys, s: Settings)
    ensures Apply(st, Resume, s) == st.(streak := 0)
  {
  }
}
