/** The auto-freeze debounce: sustained drift over consecutive delta reports
    writes the durable kill latch, once per episode. */
module AutoFreeze {
  import opened KillLatch

  datatype DriftResult = DriftResult(Asset: string, DriftBps: real, Flagged: bool)

  /** One entry of an account's history: a report with its managed drift and
      what a latch write made then would return, or a resume. */
  datatype Event = Report(maxBps: real, latchOk: bool) | Clear

  /** The freeze line, the number of consecutive reports, and whether a sender
      is wired; zero values fall back to the defaults. */
  datatype Settings = Settings(toleranceBps: real, debounceReports: int, wired: bool) {
    function Line(): real {
      if toleranceBps > 0.0 then toleranceBps else 200.0
    }

    function Debounce(): (n: int)
      ensures n >= 1
    {
      if debounceReports >= 1 then debounceReports else 2
    }
  }

  const KILLED_SENTINEL := -1

  function NextDriftStreak(maxBps: real, prev: int, freezeBps: real): int {
    if maxBps < freezeBps then 0
    else if prev < 0 then prev
    else prev + 1
  }

  /** The counter kept for an account after its history. */
  function Streak(h: seq<Event>, s: Settings): int {
    if h == [] then 0
    else
      match h[|h| - 1]
      case Clear => 0
      case Report(maxBps, latchOk) =>
        var next := NextDriftStreak(maxBps, Streak(h[..|h| - 1], s), s.Line());
        if next >= s.Debounce() && s.wired && latchOk then KILLED_SENTINEL else next
  }

  /** The report at t tries to write the latch. */
  predicate Attempts(h: seq<Event>, t: nat, s: Settings) {
    && t < |h| && h[t].Report? && s.wired
    && NextDriftStreak(h[t].maxBps, Streak(h[..t], s), s.Line()) >= s.Debounce()
  }

  predicate Latches(h: seq<Event>, t: nat, s: Settings) {
    Attempts(h, t, s) && h[t].latchOk
  }

  predicate OverLine(e: Event, s: Settings) {
    e.Report? && e.maxBps >= s.Line()
  }

  /** How many reports the history ends with that are all over the line. */
  function RunLength(h: seq<Event>, s: Settings): (n: nat)
    ensures n <= |h|
    ensures forall i | |h| - n <= i < |h| :: OverLine(h[i], s)
    ensures n < |h| ==> !OverLine(h[|h| - n - 1], s)
  {
    if h == [] || !OverLine(h[|h| - 1], s) then 0 else RunLength(h[..|h| - 1], s) + 1
  }

  /** The current run of over-line reports holds a successful latch. */
  ghost predicate LatchedInRun(h: seq<Event>, s: Settings) {
    exists u :: |h| - RunLength(h, s) <= u < |h| && Latches(h, u, s)
  }

  lemma LatchesPrefix(h: seq<Event>, n: nat, u: nat, s: Settings)
    requires u < n <= |h|
    ensures Latches(h[..n], u, s) == Latches(h, u, s) && Attempts(h[..n], u, s) == Attempts(h, u, s)
  {
    assert h[..n][..u] == h[..u];
  }

  /** The counter is the length of the run, or the sentinel once the run latched. */
  lemma {:induction false} StreakMeaning(h: seq<Event>, s: Settings)
    ensures Streak(h, s) == if LatchedInRun(h, s) then KILLED_SENTINEL else RunLength(h, s)
  {
    if h != [] && OverLine(h[|h| - 1], s) {
      var n := |h| - 1;
      var init := h[..n];
      StreakMeaning(init, s);
      if LatchedInRun(init, s) {
        var u :| n - RunLength(init, s) <= u < n && Latches(init, u, s);
        LatchesPrefix(h, n, u, s);
        assert Streak(init, s) == KILLED_SENTINEL;
        assert LatchedInRun(h, s);
      } else {
        forall u | |h| - RunLength(h, s) <= u < n ensures !Latches(h, u, s) {
          LatchesPrefix(h, n, u, s);
        }
        assert LatchedInRun(h, s) <==> Latches(h, n, s);
      }
    }
  }

  /** The latch is attempted at a report exactly when a sender is wired and the
      unbroken run of over-line reports ending with it is long enough and holds
      no earlier successful latch. */
  lemma AttemptsIff(h: seq<Event>, t: nat, s: Settings)
    requires t < |h|
    ensures Attempts(h, t, s) <==>
              && s.wired
              && RunLength(h[..t + 1], s) >= s.Debounce()
              && forall u | t + 1 - RunLength(h[..t + 1], s) <= u < t :: !Latches(h, u, s)
  {
    var before := h[..t];
    var now := h[..t + 1];
    assert now[..t] == before && now[t] == h[t];
    StreakMeaning(before, s);
    if OverLine(h[t], s) {
      assert RunLength(now, s) == RunLength(before, s) + 1;
      forall u | 0 <= u < t ensures Latches(before, u, s) == Latches(h, u, s) {
        LatchesPrefix(h, t, u, s);
      }
    }
  }

  /** Between two successful freezes lies a report below the line or a resume. */
  lemma FreezesAreSeparated(h: seq<Event>, u: nat, v: nat, s: Settings)
    requires u < v && Latches(h, u, s) && Latches(h, v, s)
    ensures exists w :: u < w < v && !OverLine(h[w], s)
  {
    AttemptsIff(h, v, s);
    var now := h[..v + 1];
    var n := RunLength(now, s);
    assert u < v + 1 - n;
    assert !OverLine(now[v - n], s) && now[v - n] == h[v - n];
    AttemptsIff(h, u, s);
    assert OverLine(h[u], s);
    assert u < v - n < v;
  }

  /** When no latch write fails, each run freezes exactly at its report number N. */
  lemma FreezesOnceAtN(h: seq<Event>, t: nat, s: Settings)
    requires t < |h| && s.wired && forall i | 0 <= i < |h| :: h[i].Report? ==> h[i].latchOk
    ensures Attempts(h, t, s) <==> RunLength(h[..t + 1], s) == s.Debounce()
  {
    AttemptsIff(h, t, s);
    var n, debounce := RunLength(h[..t + 1], s), s.Debounce();
    if n >= debounce {
      var u := t + 1 - n + debounce - 1;
      RunInside(h, t, u, s);
      AttemptsIff(h, u, s);
      forall w | t + 1 - n <= w < u ensures !Latches(h, w, s) {
        RunInside(h, t, w, s);
        AttemptsIff(h, w, s);
      }
      assert OverLine(h[..t + 1][u], s);
      assert Latches(h, u, s);
    }
  }

  /** With nothing configured a report freezes exactly when it and the one before
      reach 200 basis points and the one before those does not. */
  lemma DefaultsFreezeAtSecond(h: seq<Event>, t: nat, s: Settings)
    requires t < |h| && s.wired && forall i | 0 <= i < |h| :: h[i].Report? ==> h[i].latchOk
    requires s.toleranceBps <= 0.0 && s.debounceReports < 1
    ensures Attempts(h, t, s) <==>
              && t >= 1 && h[t].Report? && h[t].maxBps >= 200.0 && h[t - 1].Report? && h[t - 1].maxBps >= 200.0
              && (t >= 2 ==> h[t - 2].Clear? || h[t - 2].maxBps < 200.0)
  {
    FreezesOnceAtN(h, t, s);
    var now := h[..t + 1];
    assert t >= 1 ==> now[..t] == h[..t] && h[..t][..t - 1] == h[..t - 1];
    assert t >= 2 ==> h[..t - 1][..t - 2] == h[..t - 2];
    assert RunLength(now, s) == if !OverLine(h[t], s) then 0 else RunLength(now[..t], s) + 1;
  }

  /** The line and the debounce are the configured ones where they are set. */
  lemma FreezesAtConfigured(h: seq<Event>, t: nat, s: Settings)
    requires t < |h| && s.wired && forall i | 0 <= i < |h| :: h[i].Report? ==> h[i].latchOk
    requires s.toleranceBps > 0.0 && s.debounceReports >= 1
    ensures Attempts(h, t, s) <==>
              && s.debounceReports <= t + 1
              && (forall i | t - s.debounceReports < i <= t :: h[i].Report? && h[i].maxBps >= s.toleranceBps)
              && (t >= s.debounceReports ==>
                    h[t - s.debounceReports].Clear? || h[t - s.debounceReports].maxBps < s.toleranceBps)
  {
    FreezesOnceAtN(h, t, s);
    var now, n := h[..t + 1], s.debounceReports;
    var r := RunLength(now, s);
    assert forall i | t - r < i <= t :: OverLine(now[i], s) && now[i] == h[i];
    if r <= t {
      assert !OverLine(now[t - r], s) && now[t - r] == h[t - r];
    }
    if r > n {
      assert OverLine(now[t - n], s);
    }
  }

  /** A run seen from inside begins at the same report. */
  lemma RunInside(h: seq<Event>, t: nat, u: nat, s: Settings)
    requires t < |h| && t + 1 - RunLength(h[..t + 1], s) <= u <= t
    ensures RunLength(h[..u + 1], s) == RunLength(h[..t + 1], s) - (t - u)
  {
  }

  ghost function Largest(drifts: seq<DriftResult>, managed: set<string>): real {
    if drifts == [] then 0.0
    else
      var d, rest := drifts[|drifts| - 1], Largest(drifts[..|drifts| - 1], managed);
      if d.Asset in managed && d.Flagged && d.DriftBps > rest then d.DriftBps else rest
  }

  lemma {:induction false} LargestBounds(drifts: seq<DriftResult>, managed: set<string>)
    ensures var max := Largest(drifts, managed);
            && max >= 0.0
            && (forall i | 0 <= i < |drifts| && drifts[i].Asset in managed && drifts[i].Flagged ::
                drifts[i].DriftBps <= max)
            && (max == 0.0
                || exists i ::
                     0 <= i < |drifts| && drifts[i].Asset in managed && drifts[i].Flagged && drifts[i].DriftBps == max)
  {
    if drifts != [] {
      var n := |drifts| - 1;
      LargestBounds(drifts[..n], managed);
      var rest := Largest(drifts[..n], managed);
      if Largest(drifts, managed) == rest && rest != 0.0 {
        var i :| 0 <= i < n && drifts[..n][i].Asset in managed && drifts[..n][i].Flagged
          && drifts[..n][i].DriftBps == rest;
        assert drifts[i].DriftBps == rest;
      }
    }
  }

  /** The largest flagged drift among the managed assets, 0 when there is none. */
  method MaxFlaggedDriftBps(drifts: seq<DriftResult>, managed: set<string>) returns (max: real)
    ensures max == Largest(drifts, managed)
  {
    max := 0.0;
    for i := 0 to |drifts|
      invariant max == Largest(drifts[..i], managed)
    {
      var d := drifts[i];
      assert drifts[..i + 1][..i] == drifts[..i];
      if d.Asset in managed && d.Flagged && d.DriftBps > max {
        max := d.DriftBps;
      }
    }
    assert drifts[..|drifts|] == drifts;
  }

  lemma StreakSnoc(h: seq<Event>, maxBps: real, latchOk: bool, s: Settings)
    ensures var h' := h + [Report(maxBps, latchOk)];
            var next := NextDriftStreak(maxBps, Streak(h, s), s.Line());
            var attempt := next >= s.Debounce() && s.wired;
            && Streak(h', s) == (if attempt && latchOk then KILLED_SENTINEL else next)
            && Attempts(h', |h|, s) == attempt
            && Latches(h', |h|, s) == (attempt && latchOk)
  {
  }

  class DriftMonitor {
    const settings: Settings
    const audit: AuditRepo
    const live: LiveSide
    var driftStreak: map<string, int>
    ghost var history: map<string, seq<Event>>

    ghost function History(account: string): seq<Event>
      reads this
    {
      if account in history then history[account] else []
    }

    ghost function Kept(account: string): int
      reads this
    {
      if account in driftStreak then driftStreak[account] else 0
    }

    /** Every account's counter is the one its history calls for. */
    ghost predicate Valid()
      reads this
    {
      && live.audit == audit
      && forall a: string :: (if a in driftStreak then driftStreak[a] else 0) == Streak(History(a), settings)
    }

    constructor (settings: Settings, audit: AuditRepo, live: LiveSide)
      requires live.audit == audit
      ensures Valid() && this.settings == settings && this.audit == audit && this.live == live
      ensures driftStreak == map[] && history == map[]
    {
      this.settings, this.audit, this.live := settings, audit, live;
      driftStreak, history := map[], map[];
    }

    /** Advances the account's streak by one report. An insert is tried exactly
        when the history attempts one, its outcome is the next one of the audit
        trail's, and the push follows only a written row and a set sentinel. */
    method MaybeAutoFreeze(account: string, drifts: seq<DriftResult>, managed: set<string>)
      requires Valid()
      modifies this, audit, live
      ensures Valid()
      ensures var report := Report(Largest(drifts, managed), !audit.fails(old(audit.issued)));
              history == old(history)[account := old(History(account)) + [report]]
      ensures var t, e := |History(account)| - 1, AuditEvent("system", InstanceKill, account);
              var attempted, latched := Attempts(History(account), t, settings), Latches(History(account), t, settings);
              var before, rows := AccountRows(old(audit.events), account), AccountRows(audit.events, account);
              && audit.tried == old(audit.tried) + (if attempted then [e] else [])
              && audit.events == old(audit.events) + (if latched then [e] else [])
              && rows == before + (if latched then [Kill] else [])
              && live.acts == old(live.acts) + (if latched then [Pushed(account, Kill, |rows|)] else [])
              && (latched ==> IsAdminCall(before, rows, Kill, |rows|))
    {
      hide Streak, RunLength, Latches, Attempts, AccountRows, Largest, NextDriftStreak, OverLine, IsAdminCall;
      var maxBps := MaxFlaggedDriftBps(drifts, managed);
      ghost var h, latchOk := History(account), !audit.fails(audit.issued);
      assert (if account in driftStreak then driftStreak[account] else 0) == Streak(h, settings);
      var prev := if account in driftStreak then driftStreak[account] else 0;
      var next := NextDriftStreak(maxBps, prev, settings.Line());
      driftStreak := driftStreak[account := next];
      var e := AuditEvent("system", InstanceKill, account);
      AccountRowsSnoc(audit.events, e, account);
      AdminCallIs(AccountRows(audit.events, account), Kill);
      if next >= settings.Debounce() && settings.wired {
        var written := audit.Insert(e);
        if written {
          driftStreak := driftStreak[account := KILLED_SENTINEL];
          PushFreeze(account);
        }
      }
      StreakSnoc(h, maxBps, latchOk, settings);
      history := history[account := h + [Report(maxBps, latchOk)]];
    }

    /** The push of a freeze whose repeats are already suppressed. */
    method PushFreeze(account: string)
      requires live.audit == audit && Kept(account) == KILLED_SENTINEL
      modifies live
      ensures live.acts == old(live.acts) + [Pushed(account, Kill, |AccountRows(audit.events, account)|)]
    {
      var _ := live.SendKillSwitch(account, Kill);
    }

    /** A resume forgets the counter, lifting the sentinel. */
    method ClearDriftStreak(account: string)
      requires Valid()
      modifies this`driftStreak, this`history
      ensures Valid()
      ensures history == old(history)[account := old(History(account)) + [Clear]]
    {
      driftStreak := driftStreak - {account};
      history := history[account := History(account) + [Clear]];
    }
  }
}
