/** At-most-once submission: the agent's order intake as a system of atomic
    steps, with crashes, restarts, retention purges and replays of any command
    at any time.

    A step carries every choice the environment makes, so a run is a sequence
    of steps and the resulting state is a function of it. */
module SubmitOnce {
  import opened Common
  import opened Idempotency
  import opened Wire

  /** Where the single read loop is. Gated and later hold the clock reading of
      the expiry check. */
  datatype Phase =
    | Down
    | Ready
    | Gated(tc: TradeCommand, clk: int)
    | Recorded(tc: TradeCommand, clk: int)
    | Submitted(tc: TradeCommand, clk: int)

  /** submits is every call to Exchange.Submit, and intake the time each order
      was first recorded; both are history, no step reads them. */
  datatype Agent = Agent(
    rows: Table,
    phase: Phase,
    frozen: bool,
    now: int,
    submits: seq<string>,
    intake: map<string, int>)

  datatype Verdict =
    | Known(rec: Record)
    | Frozen
    | Expired
    | BadQuantity
    | BadLimit
    | Proceed

  /** The checks before an order is recorded, in the order they are made. */
  function Gate(row: Option<Record>, frozen: bool, tc: TradeCommand, clk: int): Verdict {
    if row.Some? then Known(row.value)
    else if frozen then Frozen
    else
      var wallClk := if tc.NowMsAtSaaS > clk then tc.NowMsAtSaaS else clk;
      if tc.ValidUntilMs > 0 && wallClk > tc.ValidUntilMs then Expired
      else if !tc.Quantity.Parsed? || tc.Quantity.value == 0.0 then BadQuantity
      else if tc.IsLimit && !tc.LimitPrice.Parsed? then BadLimit
      else Proceed
  }

  function Row(t: Table, id: string): Option<Record> {
    if id in t then Some(t[id]) else None
  }

  function PendingRecord(tc: TradeCommand, clk: int): Record {
    Record(tc.ClientOrderID, "", PendingStatus, 0.0, clk, clk)
  }

  /** The last table write of a handler: the accepted record, the rejection of
      a failed submit, or nothing because the write failed. */
  datatype FinalWrite =
    | WriteRecord(exchangeOrderID: string, status: IdemStatus, marketRef: real)
    | WriteRejected
    | WriteFailed

  datatype Step =
    | Tick(ms: nat)
    | Freeze(on: bool)
    | Deliver(tc: TradeCommand, readOk: bool)
    | PreRecord(putOk: bool)
    | Submit
    | Finish(write: FinalWrite)
    | OrderEvent(id: string, status: IdemStatus, exchangeOrderID: string)
    | Crash
    | Restart(retentionMs: nat, purgeOk: bool)

  function Written(t: Table, id: string, clk: int, write: FinalWrite, now: int): Table {
    match write
    case WriteRecord(ex, status, ref) => Upsert(t, Record(id, ex, status, ref, clk, now))
    case WriteRejected => WithStatus(t, id, RejectedStatus, "", now)
    case WriteFailed => t
  }

  /** One atomic step; a step that cannot happen leaves the state alone. */
  function Apply(a: Agent, s: Step): Agent {
    match s
    case Tick(ms) => a.(now := a.now + ms)
    case Freeze(on) => if a.phase.Ready? then a.(frozen := on) else a
    case Deliver(tc, readOk) =>
      if a.phase.Ready? && readOk && Gate(Row(a.rows, tc.ClientOrderID), a.frozen, tc, a.now).Proceed?
      then a.(phase := Gated(tc, a.now)) else a
    case PreRecord(putOk) =>
      if !a.phase.Gated? then a
      else if !putOk || a.phase.tc.ClientOrderID == "" then a.(phase := Ready)
      else
        var id := a.phase.tc.ClientOrderID;
        a.(phase := Recorded(a.phase.tc, a.phase.clk),
           rows := Upsert(a.rows, PendingRecord(a.phase.tc, a.phase.clk)),
           intake := if id in a.intake then a.intake else a.intake[id := a.phase.clk])
    case Submit =>
      if !a.phase.Recorded? then a
      else a.(phase := Submitted(a.phase.tc, a.phase.clk), submits := a.submits + [a.phase.tc.ClientOrderID])
    case Finish(write) =>
      if !a.phase.Submitted? then a
      else a.(phase := Ready, rows := Written(a.rows, a.phase.tc.ClientOrderID, a.phase.clk, write, a.now))
    case OrderEvent(id, status, ex) =>
      if a.phase.Down? then a else a.(rows := WithStatus(a.rows, id, status, ex, a.now))
    case Crash => a.(phase := Down)
    case Restart(retentionMs, purgeOk) =>
      if !a.phase.Down? then a
      else a.(phase := Ready, frozen := false,
              rows := if purgeOk then Purged(a.rows, a.now - retentionMs) else a.rows)
  }

  function Exec(a: Agent, steps: seq<Step>): Agent {
    if steps == [] then a else Apply(Exec(a, steps[..|steps| - 1]), steps[|steps| - 1])
  }

  lemma {:induction false} ExecAppend(a: Agent, xs: seq<Step>, ys: seq<Step>)
    ensures Exec(a, xs + ys) == Exec(Exec(a, xs), ys)
  {
    if ys == [] {
      assert xs + ys == xs;
    } else {
      var k := |ys| - 1;
      ExecAppend(a, xs, ys[..k]);
      assert (xs + ys)[..|xs + ys| - 1] == xs + ys[..k];
    }
  }

  function Fresh(now: int): Agent {
    Agent(map[], Ready, false, now, [], map[])
  }

  // ---------------------------------------------------------------- the promise

  ghost predicate AtMostOnce(a: Agent) {
    forall i, j | 0 <= i < j < |a.submits| :: a.submits[i] != a.submits[j]
  }

  /** A command's deadline lies within the retention of its order's first intake. */
  predicate DeadlineCovered(validUntilMs: int, intakeMs: int, retentionMs: nat) {
    0 < validUntilMs <= intakeMs + retentionMs
  }

  /** A purge uses this retention, and a replay of an order that was already
      taken in carries a deadline covered by it. */
  ghost predicate CoveredStep(a: Agent, s: Step, retentionMs: nat) {
    && (s.Restart? ==> s.retentionMs == retentionMs)
    && (s.Deliver? && s.tc.ClientOrderID in a.intake ==>
          DeadlineCovered(s.tc.ValidUntilMs, a.intake[s.tc.ClientOrderID], retentionMs))
  }

  ghost predicate Covered(a: Agent, steps: seq<Step>, retentionMs: nat) {
    forall k | 0 <= k < |steps| :: CoveredStep(Exec(a, steps[..k]), steps[k], retentionMs)
  }

  /** An order that was ever taken in still has its row, no older than its
      intake, or is past every deadline its replays can carry. */
  ghost predicate Remembered(a: Agent, retentionMs: nat) {
    forall id | id in a.intake ::
      && a.intake[id] <= a.now
      && (id in a.rows ==> a.intake[id] <= a.rows[id].LastUpdatedMs)
      && (id !in a.rows ==> a.intake[id] + retentionMs < a.now)
  }

  /** The order at hand has not been submitted before. */
  ghost predicate HandUnsubmitted(a: Agent) {
    && (a.phase.Gated? ==> a.phase.clk <= a.now && a.phase.tc.ClientOrderID !in a.rows
                           && a.phase.tc.ClientOrderID !in a.intake)
    && (a.phase.Recorded? ==> a.phase.tc.ClientOrderID in a.intake && a.phase.tc.ClientOrderID !in a.submits)
    && (a.phase.Submitted? ==> a.phase.tc.ClientOrderID in a.intake)
    && (forall id | id in a.rows :: id in a.intake)
    && (forall id | id in a.submits :: id in a.intake)
  }

  ghost predicate Inv(a: Agent, retentionMs: nat) {
    Remembered(a, retentionMs) && HandUnsubmitted(a) && AtMostOnce(a)
  }

  lemma GateNeedsNoRow(a: Agent, tc: TradeCommand, retentionMs: nat)
    requires Inv(a, retentionMs)
    requires Gate(Row(a.rows, tc.ClientOrderID), a.frozen, tc, a.now).Proceed?
    requires tc.ClientOrderID in a.intake ==>
               DeadlineCovered(tc.ValidUntilMs, a.intake[tc.ClientOrderID], retentionMs)
    ensures tc.ClientOrderID !in a.rows && tc.ClientOrderID !in a.intake
  {
  }

  lemma StepRemembers(a: Agent, s: Step, retentionMs: nat)
    requires Inv(a, retentionMs) && CoveredStep(a, s, retentionMs)
    ensures Remembered(Apply(a, s), retentionMs)
  {
  }

  lemma StepKeepsHand(a: Agent, s: Step, retentionMs: nat)
    requires Inv(a, retentionMs) && CoveredStep(a, s, retentionMs)
    ensures HandUnsubmitted(Apply(a, s)) && AtMostOnce(Apply(a, s))
  {
    if s.Deliver? && Gate(Row(a.rows, s.tc.ClientOrderID), a.frozen, s.tc, a.now).Proceed? {
      GateNeedsNoRow(a, s.tc, retentionMs);
    }
  }

  /** Every step keeps the invariant; the expiry gate takes over exactly where a
      purge forgets the row. */
  lemma StepKeepsInv(a: Agent, s: Step, retentionMs: nat)
    requires Inv(a, retentionMs) && CoveredStep(a, s, retentionMs)
    ensures Inv(Apply(a, s), retentionMs)
  {
    StepRemembers(a, s, retentionMs);
    StepKeepsHand(a, s, retentionMs);
  }

  lemma {:induction false} RunKeepsInv(a: Agent, steps: seq<Step>, retentionMs: nat)
    requires Inv(a, retentionMs) && Covered(a, steps, retentionMs)
    ensures Inv(Exec(a, steps), retentionMs)
  {
    if steps != [] {
      var k := |steps| - 1;
      var init := steps[..k];
      forall j | 0 <= j < k ensures CoveredStep(Exec(a, init[..j]), init[j], retentionMs) {
        assert init[j] == steps[j] && init[..j] == steps[..j];
      }
      RunKeepsInv(a, init, retentionMs);
      assert CoveredStep(Exec(a, steps[..k]), steps[k], retentionMs);
      StepKeepsInv(Exec(a, init), steps[k], retentionMs);
    }
  }

  /** Over every run with crashes, restarts, purges and replays, no
      client_order_id reaches the exchange twice. */
  lemma NoDoubleSubmit(now: int, steps: seq<Step>, retentionMs: nat)
    requires Covered(Fresh(now), steps, retentionMs)
    ensures AtMostOnce(Exec(Fresh(now), steps))
  {
    RunKeepsInv(Fresh(now), steps, retentionMs);
  }

  // ---------------------------------------------------------------- exactness

  /** The network carries one command only, replayed at will. */
  ghost predicate OnlyReplays(steps: seq<Step>, tc: TradeCommand, retentionMs: nat) {
    forall k | 0 <= k < |steps| ::
      && (steps[k].Restart? ==> steps[k].retentionMs == retentionMs)
      && (steps[k].Deliver? ==> steps[k].tc == tc)
  }

  ghost predicate NotBefore(a: Agent, start: int) {
    && start <= a.now
    && (a.phase.Gated? ==> start <= a.phase.clk)
    && (forall id | id in a.intake :: start <= a.intake[id])
  }

  lemma StepNotBefore(a: Agent, s: Step, start: int)
    requires NotBefore(a, start)
    ensures NotBefore(Apply(a, s), start)
  {
  }

  lemma {:induction false} IntakeNotBefore(now: int, steps: seq<Step>)
    ensures NotBefore(Exec(Fresh(now), steps), now)
  {
    if steps != [] {
      IntakeNotBefore(now, steps[..|steps| - 1]);
      StepNotBefore(Exec(Fresh(now), steps[..|steps| - 1]), steps[|steps| - 1], now);
    }
  }

  /** Take in and submit the order, crash, let the retention pass, restart with
      a purge, take in the replay and submit again. */
  function DoubleSubmitRun(tc: TradeCommand, retentionMs: nat): seq<Step> {
    SubmitSteps(tc) + [Crash, Tick(retentionMs + 1), Restart(retentionMs, true)] + SubmitSteps(tc)
  }

  function SubmitSteps(tc: TradeCommand): seq<Step> {
    [Deliver(tc, true), PreRecord(true), Submit]
  }

  lemma ExecThree(a: Agent, x: Step, y: Step, z: Step)
    ensures Exec(a, [x, y, z]) == Apply(Apply(Apply(a, x), y), z)
  {
    assert [x, y, z][..2] == [x, y] && [x, y][..1] == [x] && [x][..0] == [];
    assert Exec(a, [x]) == Apply(a, x);
  }

  lemma SubmitStepsSubmit(a: Agent, tc: TradeCommand)
    requires a.phase.Ready? && tc.ClientOrderID != ""
    requires Gate(Row(a.rows, tc.ClientOrderID), a.frozen, tc, a.now).Proceed?
    ensures var b := Exec(a, SubmitSteps(tc));
            && b.submits == a.submits + [tc.ClientOrderID] && b.now == a.now
            && b.rows == Upsert(a.rows, PendingRecord(tc, a.now))
  {
    ExecThree(a, Deliver(tc, true), PreRecord(true), Submit);
  }

  lemma UncoveredDeadlineDoubles(tc: TradeCommand, now: int, retentionMs: nat)
    requires tc.ClientOrderID != "" && Gate(None, false, tc, now).Proceed?
    requires !DeadlineCovered(tc.ValidUntilMs, now, retentionMs)
    ensures Exec(Fresh(now), DoubleSubmitRun(tc, retentionMs)).submits == [tc.ClientOrderID, tc.ClientOrderID]
  {
    var forget := [Crash, Tick(retentionMs + 1), Restart(retentionMs, true)];
    var a := Fresh(now);
    SubmitStepsSubmit(a, tc);
    var b := Exec(a, SubmitSteps(tc));
    ExecThree(b, Crash, Tick(retentionMs + 1), Restart(retentionMs, true));
    var c := Exec(b, forget);
    assert c.rows == map[] && c.now == now + retentionMs + 1;
    SubmitStepsSubmit(c, tc);
    ExecAppend(a, SubmitSteps(tc), forget);
    ExecAppend(a, SubmitSteps(tc) + forget, SubmitSteps(tc));
  }

  /** For a command the gate lets through now, replays can never double it
      exactly when its deadline is set and lies within the retention. */
  lemma DeadlineDecides(tc: TradeCommand, now: int, retentionMs: nat)
    requires tc.ClientOrderID != "" && Gate(None, false, tc, now).Proceed?
    ensures (forall steps | OnlyReplays(steps, tc, retentionMs) :: AtMostOnce(Exec(Fresh(now), steps)))
            <==> DeadlineCovered(tc.ValidUntilMs, now, retentionMs)
  {
    if DeadlineCovered(tc.ValidUntilMs, now, retentionMs) {
      forall steps: seq<Step> | OnlyReplays(steps, tc, retentionMs) ensures AtMostOnce(Exec(Fresh(now), steps)) {
        forall k | 0 <= k < |steps| ensures CoveredStep(Exec(Fresh(now), steps[..k]), steps[k], retentionMs) {
          IntakeNotBefore(now, steps[..k]);
        }
        NoDoubleSubmit(now, steps, retentionMs);
      }
    } else {
      var steps := DoubleSubmitRun(tc, retentionMs);
      UncoveredDeadlineDoubles(tc, now, retentionMs);
      assert OnlyReplays(steps, tc, retentionMs);
      var submits := Exec(Fresh(now), steps).submits;
      assert submits[0] == submits[1];
    }
  }
}
