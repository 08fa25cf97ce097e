/** The agent's client object: the buffer behind the delta report and the
    handlers that read and write the dedupe table, the frozen latch and the
    connection. Each handler is specified as a sequence of the atomic steps of
    SubmitOnce, so what is proved about runs of steps holds of the handlers. */
module Client {
  import opened Common
  import opened Idempotency
  import opened Wire
  import opened SubmitOnce
  import Ledger = FillLedger

  /** Fills and errors observed since the last delta report. */
  class DeltaBuffer {
    var fills: seq<Fill>
    var errors: seq<AgentError>

    constructor ()
      ensures fills == [] && errors == []
    {
      fills, errors := [], [];
    }

    method AddFill(f: Fill)
      modifies this
      ensures fills == old(fills) + [f] && errors == old(errors)
    {
      fills := fills + [f];
    }

    method AddError(e: AgentError)
      modifies this
      ensures errors == old(errors) + [e] && fills == old(fills)
    {
      errors := errors + [e];
    }

    /** What order events add, one at a time. */
    method Arrive(fs: seq<Fill>, es: seq<AgentError>)
      modifies this
      ensures fills == old(fills) + fs && errors == old(errors) + es
    {
      for i := 0 to |fs|
        invariant fills == old(fills) + fs[..i] && errors == old(errors)
      {
        AddFill(fs[i]);
      }
      for i := 0 to |es|
        invariant fills == old(fills) + fs && errors == old(errors) + es[..i]
      {
        AddError(es[i]);
      }
    }

    method Drain() returns (fs: seq<Fill>, es: seq<AgentError>)
      modifies this
      ensures fs == old(fills) && es == old(errors)
      ensures fills == [] && errors == []
    {
      fs, es := fills, errors;
      fills, errors := [], [];
    }

    method Requeue(fs: seq<Fill>, es: seq<AgentError>)
      modifies this
      ensures fills == fs + old(fills) && errors == es + old(errors)
    {
      fills := fs + fills;
      errors := es + errors;
    }
  }

  datatype ExchangeFill = ExchangeFill(
    Quantity: real,
    Price: real,
    FeeAsset: string,
    FeeAmount: real,
    FilledAtExchangeMs: int,
    TradeID: int)

  datatype SubmitResult = SubmitResult(ExchangeOrderID: string, MarketRef: real, Fills: seq<ExchangeFill>)

  datatype OrderEventMsg = OrderEventMsg(
    ClientOrderID: string,
    ExchangeOrderID: string,
    Status: OrderStatus,
    Side: Side,
    Fill: Option<ExchangeFill>,
    Cumulative: real)

  /** Positive means worse than the reference for our side. */
  function ComputeSlippageBps(side: Side, reference: real, fill: real): (bps: real)
    ensures reference > 0.0 && side.Buy? ==> (bps > 0.0 <==> fill > reference)
    ensures reference > 0.0 && side.Sell? ==> (bps > 0.0 <==> fill < reference)
  {
    if reference == 0.0 then 0.0
    else
      match side
      case Buy => (fill - reference) / reference * 10000.0
      case Sell => (reference - fill) / reference * 10000.0
      case OtherSide => 0.0
  }

  /** A fill as order_update carries it: the enclosing frame names the order. */
  function BareFill(f: ExchangeFill, side: Side, reference: real): Fill {
    Fill("", "", f.Quantity, f.Price, f.FeeAsset, f.FeeAmount, f.FilledAtExchangeMs,
         ComputeSlippageBps(side, reference, f.Price), f.TradeID)
  }

  function BareFills(fs: seq<ExchangeFill>, side: Side, reference: real): seq<Fill> {
    seq(|fs|, i requires 0 <= i < |fs| => BareFill(fs[i], side, reference))
  }

  lemma NamedNone(id: string)
    ensures forall ex :: NamedFills([], id, ex) == []
  {
  }

  lemma NamedOne(f: Fill, id: string, ex: string)
    ensures NamedFills([f], id, ex) == [Named(f, id, ex)]
  {
  }

  function SumQuantity(fs: seq<ExchangeFill>): real {
    if fs == [] then 0.0 else SumQuantity(fs[..|fs| - 1]) + fs[|fs| - 1].Quantity
  }

  function MapEventStatus(s: OrderStatus, current: IdemStatus): IdemStatus {
    match s
    case OrderFilled => FilledStatus
    case OrderCancelled => CancelledStatus
    case OrderRejected => RejectedStatus
    case OrderPartialFilled => current
  }

  function AckFor(v: Verdict): AckStatus {
    match v
    case Known(rec) => if rec.IsTerminal() then AckDuplicateTerminal else AckDuplicatePending
    case Frozen => AckRejected
    case Expired => AckExpired
    case BadQuantity => AckRejected
    case BadLimit => AckRejected
    case Proceed => AckAccepted
  }

  /** A command whose decimals parsed. */
  predicate WellFormed(tc: TradeCommand) {
    tc.Quantity.Parsed? && (tc.IsLimit ==> tc.LimitPrice.Parsed?)
  }

  /** The price slippage is measured against. */
  function ReferenceOf(tc: TradeCommand, res: SubmitResult): real
    requires WellFormed(tc)
  {
    if tc.IsLimit then tc.LimitPrice.value else res.MarketRef
  }

  /** The row of an accepted order: filled exactly when its synchronous fills
      cover the ordered quantity. */
  function AcceptedRecord(tc: TradeCommand, clk: int, res: SubmitResult): Record
    requires WellFormed(tc)
  {
    var full := res.Fills != [] && SumQuantity(res.Fills) >= tc.Quantity.value;
    var status := if full then FilledStatus else AcceptedStatus;
    Record(tc.ClientOrderID, res.ExchangeOrderID, status, ReferenceOf(tc, res), clk, clk)
  }

  /** The ack, then one order_update with every synchronous fill. */
  function AcceptedFrames(tc: TradeCommand, res: SubmitResult): seq<Frame>
    requires WellFormed(tc)
  {
    [AckFrame(tc.ClientOrderID, AckAccepted)]
    + if res.Fills == [] then []
      else [OrderUpdateFrame(tc.ClientOrderID, res.ExchangeOrderID,
                             if SumQuantity(res.Fills) >= tc.Quantity.value then OrderFilled else OrderPartialFilled,
                             SumQuantity(res.Fills), BareFills(res.Fills, tc.Side, ReferenceOf(tc, res)))]
  }

  // ---------------------------------------------------------------- what an answer means

  lemma {:induction false} SumQuantityAdds(xs: seq<ExchangeFill>, ys: seq<ExchangeFill>)
    ensures SumQuantity(xs + ys) == SumQuantity(xs) + SumQuantity(ys)
    ensures |xs| == 1 ==> SumQuantity(xs) == xs[0].Quantity
  {
    if ys == [] {
      assert xs + ys == xs;
    } else {
      SumQuantityAdds(xs, ys[..|ys| - 1]);
      assert (xs + ys)[..|xs + ys| - 1] == xs + ys[..|ys| - 1];
    }
    if |xs| == 1 {
      assert xs[..0] == [];
    }
  }

  /** Basis points lost against the reference: positive for a buy above it and for a
      sale below it, none without a reference or a side. */
  ghost predicate SlippageIs(bps: real, side: Side, reference: real, price: real) {
    if reference == 0.0 || side.OtherSide? then bps == 0.0
    else bps * reference == (if side.Buy? then price - reference else reference - price) * 10000.0
  }

  /** The wire fills are the exchange's, in order, under these ids. */
  ghost predicate CarriesFills(fills: seq<Fill>, fs: seq<ExchangeFill>, side: Side, reference: real, id: string,
                               ex: string) {
    |fills| == |fs| && forall i | 0 <= i < |fs| :: CarriesFill(fills[i], fs[i], side, reference, id, ex)
  }

  ghost predicate CarriesFill(w: Fill, f: ExchangeFill, side: Side, reference: real, id: string, ex: string) {
    && w.ClientOrderID == id && w.ExchangeOrderID == ex
    && w.Quantity == f.Quantity && w.Price == f.Price && w.FeeAsset == f.FeeAsset && w.FeeAmount == f.FeeAmount
    && w.FilledAtExchangeMs == f.FilledAtExchangeMs && w.TradeID == f.TradeID
    && SlippageIs(w.SlippageBps, side, reference, f.Price)
  }

  lemma SlippageMeans(side: Side, reference: real, price: real)
    ensures SlippageIs(ComputeSlippageBps(side, reference, price), side, reference, price)
  {
  }

  lemma FillsMean(fs: seq<ExchangeFill>, side: Side, reference: real, id: string, ex: string)
    ensures CarriesFills(BareFills(fs, side, reference), fs, side, reference, "", "")
    ensures CarriesFills(NamedFills(BareFills(fs, side, reference), id, ex), fs, side, reference, id, ex)
  {
    hide ComputeSlippageBps, SlippageIs;
    forall i | 0 <= i < |fs|
      ensures SlippageIs(BareFills(fs, side, reference)[i].SlippageBps, side, reference, fs[i].Price) {
      SlippageMeans(side, reference, fs[i].Price);
    }
  }

  /** What an accepted submission sends and buffers: the ack, and if there are fills
      one update with all of them, their sum, and whether they complete the order. */
  ghost predicate Forwards(tc: TradeCommand, res: SubmitResult, frames: seq<Frame>, teed: seq<Fill>)
    requires WellFormed(tc)
  {
    var reference := if tc.IsLimit then tc.LimitPrice.value else res.MarketRef;
    && |frames| == (if res.Fills == [] then 1 else 2) && frames[0] == AckFrame(tc.ClientOrderID, AckAccepted)
    && CarriesFills(teed, res.Fills, tc.Side, reference, tc.ClientOrderID, res.ExchangeOrderID)
    && (res.Fills != [] ==>
          && frames[1].OrderUpdateFrame?
          && frames[1].ClientOrderID == tc.ClientOrderID && frames[1].ExchangeOrderID == res.ExchangeOrderID
          && frames[1].Cumulative == SumQuantity(res.Fills)
          && (frames[1].Status.OrderFilled? <==> SumQuantity(res.Fills) >= tc.Quantity.value)
          && (frames[1].Status.OrderPartialFilled? <==> SumQuantity(res.Fills) < tc.Quantity.value)
          && CarriesFills(frames[1].Fills, res.Fills, tc.Side, reference, "", ""))
  }

  lemma AnswerMeans(tc: TradeCommand, res: Option<SubmitResult>)
    requires WellFormed(tc)
    ensures if res.None? then FramesFor(tc, res) == [AckFrame(tc.ClientOrderID, AckRejected)]
            && TeedFills(tc, res) == []
            else Forwards(tc, res.value, FramesFor(tc, res), TeedFills(tc, res))
    ensures FramesFor(tc, res) != []
            && FramesFor(tc, res)[0] == AckFrame(tc.ClientOrderID, if res.Some? then AckAccepted else AckRejected)
  {
    hide CarriesFills, NamedFills, BareFills;
    if res.Some? {
      FillsMean(res.value.Fills, tc.Side, ReferenceOf(tc, res.value), tc.ClientOrderID, res.value.ExchangeOrderID);
    }
  }

  /** The row a submitted command ends with: pending until the last write, and then
      rejected, filled when the fills cover the quantity, or accepted. */
  ghost predicate Settles(tc: TradeCommand, clk: int, res: Option<SubmitResult>, written: bool, before: Table,
                          after: Table)
    requires WellFormed(tc)
  {
    var id := tc.ClientOrderID;
    && id in after && OnlyRow(before, after, id, after[id])
    && after[id].ClientOrderID == id && after[id].SubmittedAtMs == clk
    && if !written then after[id].Status.PendingStatus? && after[id].ExchangeOrderID == ""
       else if res.None? then after[id].Status.RejectedStatus? && after[id].ExchangeOrderID == ""
       else
         var full := res.value.Fills != [] && SumQuantity(res.value.Fills) >= tc.Quantity.value;
         && (after[id].Status.FilledStatus? <==> full) && (after[id].Status.AcceptedStatus? <==> !full)
         && after[id].ExchangeOrderID == res.value.ExchangeOrderID
         && after[id].MarketRef == (if tc.IsLimit then tc.LimitPrice.value else res.value.MarketRef)
  }

  lemma SettlesIs(tc: TradeCommand, clk: int, res: Option<SubmitResult>, written: bool, before: Table, now: int)
    requires WellFormed(tc)
    ensures Settles(tc, clk, res, written, before,
                    Written(Upsert(before, PendingRecord(tc, clk)), tc.ClientOrderID, clk,
                            FinalWriteOf(tc, clk, res, written), now))
  {
    hide SumQuantity;
  }

  /** What an event of an order with this exchange id and reference price sends and
      buffers: its fill, if it has one, and over a live connection one update. */
  ghost predicate EventForwards(ev: OrderEventMsg, knownEx: string, reference: real, connected: bool,
                                frames: seq<Frame>, fills: seq<Fill>)
  {
    var fs := if ev.Fill.Some? then [ev.Fill.value] else [];
    var ex := if ev.ExchangeOrderID == "" then knownEx else ev.ExchangeOrderID;
    && CarriesFills(fills, fs, ev.Side, reference, ev.ClientOrderID, ex)
    && |frames| == (if connected then 1 else 0)
    && (connected ==>
          && frames[0].OrderUpdateFrame? && frames[0].ClientOrderID == ev.ClientOrderID
          && frames[0].ExchangeOrderID == ex && frames[0].Status == ev.Status
          && frames[0].Cumulative == (if ev.Cumulative != 0.0 then ev.Cumulative else SumQuantity(fs))
          && CarriesFills(frames[0].Fills, fs, ev.Side, reference, "", ""))
  }

  lemma EventMeans(ev: OrderEventMsg, known: Option<Record>, connected: bool)
    ensures EventForwards(ev, if known.Some? then known.value.ExchangeOrderID else "",
                          if known.Some? then known.value.MarketRef else 0.0, connected,
                          if connected then [EventUpdate(ev, known)] else [], EventFills(ev, known))
  {
    hide SlippageIs, ComputeSlippageBps;
    var reference := if known.Some? then known.value.MarketRef else 0.0;
    if ev.Fill.Some? {
      SlippageMeans(ev.Side, reference, ev.Fill.value.Price);
      SumQuantityAdds([ev.Fill.value], []);
    }
  }

  /** The row of an event's order: its status becomes the event's, unless the event
      is a partial fill or the write fails, and no other row moves. */
  ghost predicate StatusMoves(ev: OrderEventMsg, before: Table, after: Table, ok: bool)
    requires ev.ClientOrderID in before
  {
    var id := ev.ClientOrderID;
    if !ok || ev.Status.OrderPartialFilled? then after == before
    else
      && id in after && OnlyRow(before, after, id, after[id])
      && (ev.Status.OrderFilled? <==> after[id].Status.FilledStatus?)
      && (ev.Status.OrderCancelled? <==> after[id].Status.CancelledStatus?)
      && (ev.Status.OrderRejected? <==> after[id].Status.RejectedStatus?)
      && (ev.ExchangeOrderID != "" && after != before ==> after[id].ExchangeOrderID == ev.ExchangeOrderID)
      && after[id].MarketRef == before[id].MarketRef && after[id].SubmittedAtMs == before[id].SubmittedAtMs
  }

  lemma StatusMovesIs(ev: OrderEventMsg, rows: Table, ok: bool)
    requires ev.ClientOrderID in rows
    ensures forall now ::
              StatusMoves(ev, rows,
                          StatusRows(rows, ev, rows[ev.ClientOrderID].Status,
                                     EventExchangeID(ev, Some(rows[ev.ClientOrderID])), ok, now), ok)
  {
  }

  /** How a command is answered, from the state it meets: readable says whether its
      row could be read, known is the row's status, clk the agent's clock, stored
      whether the pre-record worked and accepted what the exchange said. */
  ghost predicate IsAnswer(tc: TradeCommand, readable: bool, known: Option<IdemStatus>, frozen: bool, clk: int,
                           stored: bool, accepted: bool, frames: seq<Frame>, submitted: bool)
  {
    var id := tc.ClientOrderID;
    if !readable then !submitted && frames == [ErrorFrame("internal_error")]
    else if known.Some? then
      var done := known == Some(FilledStatus) || known == Some(CancelledStatus) || known == Some(RejectedStatus);
      !submitted && frames == [AckFrame(id, if done then AckDuplicateTerminal else AckDuplicatePending)]
    else if frozen then !submitted && frames == [AckFrame(id, AckRejected)]
    else if tc.ValidUntilMs > 0 && (clk > tc.ValidUntilMs || tc.NowMsAtSaaS > tc.ValidUntilMs) then
      !submitted && frames == [AckFrame(id, AckExpired)]
    else if tc.Quantity.Absent? || tc.Quantity.Malformed? || tc.Quantity == Parsed(0.0) then
      !submitted && frames == [AckFrame(id, AckRejected)]
    else if tc.IsLimit && (tc.LimitPrice.Absent? || tc.LimitPrice.Malformed?) then
      !submitted && frames == [AckFrame(id, AckRejected)]
    else if !stored then !submitted && frames == [ErrorFrame("internal_error")]
    else submitted && frames != [] && frames[0] == AckFrame(id, if accepted then AckAccepted else AckRejected)
  }

  lemma AnswerNeedsClocks(tc: TradeCommand, readable: bool, known: Option<IdemStatus>, frozen: bool, clk: int,
                          stored: bool, accepted: bool, frames: seq<Frame>, submitted: bool)
    ensures IsAnswer(tc, readable, known, frozen, clk, stored, accepted, frames, submitted) && submitted
            && tc.ValidUntilMs > 0 ==>
              clk <= tc.ValidUntilMs && tc.NowMsAtSaaS <= tc.ValidUntilMs
  {
  }

  lemma GateMeans(tc: TradeCommand, readable: bool, row: Option<Record>, frozen: bool, clk: int, stored: bool,
                  accepted: bool, frames: seq<Frame>, submitted: bool)
    requires var v := Gate(row, frozen, tc, clk);
             if !readable then !submitted && frames == [ErrorFrame("internal_error")]
             else if !v.Proceed? then !submitted && frames == [AckFrame(tc.ClientOrderID, AckFor(v))]
             else if !stored then !submitted && frames == [ErrorFrame("internal_error")]
             else submitted && frames != []
                  && frames[0] == AckFrame(tc.ClientOrderID, if accepted then AckAccepted else AckRejected)
    ensures IsAnswer(tc, readable, if row.Some? then Some(row.value.Status)
                     else None, frozen, clk, stored, accepted, frames, submitted)
  {
  }

  /** What a gated command sends, and tees into the delta buffer. */
  function FramesFor(tc: TradeCommand, res: Option<SubmitResult>): seq<Frame>
    requires WellFormed(tc)
  {
    if res.None? then [AckFrame(tc.ClientOrderID, AckRejected)] else AcceptedFrames(tc, res.value)
  }

  function TeedFills(tc: TradeCommand, res: Option<SubmitResult>): seq<Fill>
    requires WellFormed(tc)
  {
    if res.None? then []
    else NamedFills(BareFills(res.value.Fills, tc.Side, ReferenceOf(tc, res.value)), tc.ClientOrderID,
                    res.value.ExchangeOrderID)
  }

  /** The final table write: the one the exchange's answer calls for, unless it fails. */
  function FinalWriteOf(tc: TradeCommand, clk: int, res: Option<SubmitResult>, written: bool): FinalWrite
    requires WellFormed(tc)
  {
    if !written then WriteFailed
    else if res.None? then WriteRejected
    else
      var rec := AcceptedRecord(tc, clk, res.value);
      WriteRecord(rec.ExchangeOrderID, rec.Status, rec.MarketRef)
  }

  /** A run without its clock ticks. */
  function Acts(steps: seq<Step>): seq<Step> {
    if steps == [] then []
    else Acts(steps[..|steps| - 1]) + if steps[|steps| - 1].Tick? then [] else [steps[|steps| - 1]]
  }

  lemma ExecSnoc(a: Agent, steps: seq<Step>, s: Step)
    ensures Exec(a, steps + [s]) == Apply(Exec(a, steps), s)
    ensures Acts(steps + [s]) == Acts(steps) + if s.Tick? then [] else [s]
  {
  }

  lemma TickThen(a: Agent, ms: nat, s: Step)
    requires !s.Tick?
    ensures Exec(a, [Tick(ms), s]) == Apply(a.(now := a.now + ms), s)
    ensures Acts([Tick(ms), s]) == [s]
  {
    hide Apply;
    ApplyTick(a, ms);
    assert [Tick(ms), s][..1] == [Tick(ms)];
  }

  lemma PreRecordFails(a: Agent)
    requires a.phase.Gated?
    ensures Exec(a, [PreRecord(false)]) == a.(phase := Ready) && Acts([PreRecord(false)]) == [PreRecord(false)]
  {
  }

  lemma PreRecordThenSubmit(a: Agent)
    requires a.phase.Gated? && a.phase.tc.ClientOrderID != ""
    ensures var id, clk := a.phase.tc.ClientOrderID, a.phase.clk;
            Exec(a, [PreRecord(true), Submit]) ==
            a.(phase := Submitted(a.phase.tc, clk),
               rows := Upsert(a.rows, PendingRecord(a.phase.tc, clk)),
               intake := if id in a.intake then a.intake else a.intake[id := clk],
               submits := a.submits + [id])
    ensures Acts([PreRecord(true), Submit]) == [PreRecord(true), Submit]
  {
    assert [PreRecord(true), Submit][..1] == [PreRecord(true)] && [PreRecord(true)][..0] == [];
    assert Exec(a, [PreRecord(true)]) == Apply(a, PreRecord(true));
    assert Acts([PreRecord(true)]) == [PreRecord(true)];
  }

  lemma DeliverReady(a: Agent, tc: TradeCommand)
    requires a.phase.Ready?
    ensures Apply(a, Deliver(tc, false)) == a
    ensures Apply(a, Deliver(tc, true)) ==
            if Gate(Row(a.rows, tc.ClientOrderID), a.frozen, tc, a.now).Proceed?
            then a.(phase := Gated(tc, a.now)) else a
  {
  }

  lemma FinishSubmit(a: Agent, w: FinalWrite)
    requires a.phase.Submitted?
    ensures Apply(a, Finish(w)) ==
            a.(phase := Ready, rows := Written(a.rows, a.phase.tc.ClientOrderID, a.phase.clk, w, a.now))
  {
  }

  predicate IsFatalAuthCode(code: AuthFailCode) {
    match code
    case InvalidToken => true
    case Revoked => true
    case SchemaMismatch => true
    case AccountMismatch => true
    case EnvironmentMismatch => false
    case UnknownCode => false
  }

  /** One report round of the ledger: a drain, the fills that arrive meanwhile, and
      a send that works, or fails whether or not the frame got through. */
  function AfterReport(s: Ledger.Sys, arrived: seq<Fill>, seen: bool, ok: bool, got: bool): Ledger.Sys {
    var t := Ledger.Apply(Ledger.Apply(s, Ledger.Drain), Ledger.Observe(arrived, seen));
    Ledger.Apply(t, if ok then Ledger.SendOk(|s.drains|) else Ledger.SendFail(|s.drains|, got))
  }

  ghost predicate IsReportRound(before: seq<Fill>, arrived: seq<Fill>, ok: bool, after: seq<Fill>) {
    forall s: Ledger.Sys, seen, got | s.buffer == before :: AfterReport(s, arrived, seen, ok, got).buffer == after
  }

  lemma ReportBuffer(s: Ledger.Sys, arrived: seq<Fill>, seen: bool, ok: bool, got: bool)
    ensures AfterReport(s, arrived, seen, ok, got).buffer == (if ok then [] else s.buffer) + arrived
  {
    assert (s.drains + [s.buffer])[|s.drains|] == s.buffer;
    assert [] + arrived == arrived;
  }

  lemma ReportRound(before: seq<Fill>, arrived: seq<Fill>, ok: bool)
    ensures IsReportRound(before, arrived, ok, (if ok then [] else before) + arrived)
  {
    hide AfterReport;
    forall s: Ledger.Sys, seen, got | s.buffer == before
      ensures AfterReport(s, arrived, seen, ok, got).buffer == (if ok then [] else before) + arrived
    {
      ReportBuffer(s, arrived, seen, ok, got);
    }
  }

  /** The order updates among some frames, as the ledger delivers them: the server
      names each fill by the enclosing order. */
  function Updates(frames: seq<Frame>): seq<Ledger.Delivery> {
    if frames == [] then []
    else
      var f := frames[|frames| - 1];
      Updates(frames[..|frames| - 1])
      + if f.OrderUpdateFrame? then [Ledger.Update(NamedFills(f.Fills, f.ClientOrderID, f.ExchangeOrderID))] else []
  }

  /** Buffering these fills and sending these frames is one observation of the
      ledger, whose update carries exactly the buffered fills. */
  ghost predicate IsObservation(before: seq<Fill>, fs: seq<Fill>, frames: seq<Frame>, after: seq<Fill>) {
    forall s: Ledger.Sys | s.buffer == before ::
      var t := Ledger.AgentStep(s, Ledger.Observe(fs, Updates(frames) != []));
      t.buffer == after && t.deliveries == s.deliveries + Updates(frames)
  }

  /** What was added to the delta buffer and to the outbound frames is one observation. */
  ghost predicate Observes(fills: seq<Fill>, fills': seq<Fill>, out: seq<Frame>, out': seq<Frame>) {
    && fills <= fills' && out <= out'
    && IsObservation(fills, fills'[|fills|..], out'[|out|..], fills')
  }

  lemma ObservationIs(before: seq<Fill>, fs: seq<Fill>, out: seq<Frame>, frames: seq<Frame>)
    requires Updates(frames) == [] || Updates(frames) == [Ledger.Update(fs)]
    ensures Observes(before, before + fs, out, out + frames)
  {
    hide Updates;
    assert (before + fs)[|before|..] == fs && (out + frames)[|out|..] == frames;
    forall s: Ledger.Sys ensures s.deliveries + [] == s.deliveries {
    }
  }

  /** Any other single frame, or none, observes nothing. */
  lemma NothingObserved(fills: seq<Fill>, out: seq<Frame>, f: Frame)
    ensures Observes(fills, fills, out, out)
    ensures !f.OrderUpdateFrame? ==> Observes(fills, fills, out, out + [f])
  {
    hide Updates, Observes;
    UpdatesOf([]);
    UpdatesOf([f]);
    assert fills + [] == fills && out + [] == out;
    ObservationIs(fills, [], out, []);
    if !f.OrderUpdateFrame? {
      ObservationIs(fills, [], out, [f]);
    }
  }

  /** An event's fill, or none, and the update that carries it, if one goes out. */
  lemma EventIsObservation(fills: seq<Fill>, out: seq<Frame>, ev: OrderEventMsg, known: Option<Record>, sent: bool)
    ensures Observes(fills, fills + EventFills(ev, known), out, out + if sent then [EventUpdate(ev, known)] else [])
  {
    hide Updates, Observes, NamedFills;
    var frames := if sent then [EventUpdate(ev, known)] else [];
    UpdatesOf(frames);
    ObservationIs(fills, EventFills(ev, known), out, frames);
  }

  lemma UpdatesOf(frames: seq<Frame>)
    ensures frames == [] ==> Updates(frames) == []
    ensures |frames| == 1 ==>
              Updates(frames) ==
              if frames[0].OrderUpdateFrame?
              then [Ledger.Update(NamedFills(frames[0].Fills, frames[0].ClientOrderID, frames[0].ExchangeOrderID))]
              else []
    ensures |frames| == 2 ==> Updates(frames) == Updates(frames[..1]) + Updates(frames[1..])
  {
    if |frames| == 2 {
      assert frames[1..] == [frames[1]] && [frames[1]][..0] == [] && frames[..1][..0] == [];
    }
  }

  /** What an accepted or rejected command buffers and sends is one observation. */
  lemma AnswerIsObservation(fills: seq<Fill>, out: seq<Frame>, tc: TradeCommand, res: Option<SubmitResult>)
    requires WellFormed(tc)
    ensures Observes(fills, fills + TeedFills(tc, res), out, out + FramesFor(tc, res))
  {
    hide Updates, Observes, BareFills, NamedFills, SumQuantity;
    var frames := FramesFor(tc, res);
    UpdatesOf(frames);
    if |frames| == 2 {
      UpdatesOf(frames[..1]);
      UpdatesOf(frames[1..]);
    }
    ObservationIs(fills, TeedFills(tc, res), out, frames);
  }

  /** What the outside answers: which sends, statements and position queries fail,
      what each submission returns, and how long before each clock reading. */
  datatype Environment = Environment(
    sendFails: Faults,
    dbFails: Faults,
    positionsFail: Faults,
    answers: nat -> Option<SubmitResult>,
    elapsed: nat -> nat)

  class Client {
    const env: Environment
    const store: SqliteStore
    const delta: DeltaBuffer
    var frozen: bool
    var clock: int
    var connected: bool
    /** How often the clock was read and the positions queried. */
    var readings: nat
    var queries: nat
    /** Every frame handed to the connection, delivered or not. */
    var outbound: seq<Frame>
    /** Every order handed to Exchange.Submit, and when each was first taken in. */
    var submits: seq<string>
    ghost var intake: map<string, int>

    ghost function View(): Agent
      reads this, store
    {
      Agent(store.rows, Ready, frozen, clock, submits, intake)
    }

    constructor (now: int, env: Environment)
      ensures View() == Fresh(now) && delta.fills == [] && outbound == []
      ensures this.env == env && store.fails == env.dbFails && store.issued == readings == queries == 0
      ensures fresh(store) && fresh(delta)
    {
      this.env := env;
      store := new SqliteStore(env.dbFails);
      delta := new DeltaBuffer();
      frozen, clock, connected, readings, queries := false, now, false, 0, 0;
      outbound, submits, intake := [], [], map[];
    }

    method NowMs() returns (now: int)
      modifies this`clock, this`readings
      ensures now == clock == old(clock) + env.elapsed(old(readings)) && readings == old(readings) + 1
    {
      clock := clock + env.elapsed(readings);
      readings := readings + 1;
      now := clock;
    }

    method SendTyped(f: Frame) returns (ok: bool)
      modifies this`outbound
      ensures outbound == old(outbound) + [f] && ok == !env.sendFails(|old(outbound)|)
    {
      ok := !env.sendFails(|outbound|);
      outbound := outbound + [f];
    }

    method SubmitToExchange(tc: TradeCommand) returns (res: Option<SubmitResult>)
      modifies this`submits
      ensures submits == old(submits) + [tc.ClientOrderID] && res == env.answers(|old(submits)|)
    {
      res := env.answers(|submits|);
      submits := submits + [tc.ClientOrderID];
    }

    method QueryPositions() returns (ok: bool)
      modifies this`queries
      ensures ok == !env.positionsFail(old(queries)) && queries == old(queries) + 1
    {
      ok := !env.positionsFail(queries);
      queries := queries + 1;
    }

    /** Turns the synchronous fills of a submission into wire fills, teeing each
        into the delta buffer under its order's name. */
    method CollectFills(fs: seq<ExchangeFill>, side: Side, reference: real, id: string, exchangeOrderID: string)
      returns (bare: seq<Fill>, cum: real)
      modifies delta
      ensures bare == BareFills(fs, side, reference) && cum == SumQuantity(fs)
      ensures delta.fills == old(delta.fills) + NamedFills(bare, id, exchangeOrderID)
      ensures delta.errors == old(delta.errors)
    {
      bare, cum := [], 0.0;
      for i := 0 to |fs|
        invariant bare == BareFills(fs[..i], side, reference) && cum == SumQuantity(fs[..i])
        invariant delta.fills == old(delta.fills) + NamedFills(bare, id, exchangeOrderID)
        invariant delta.errors == old(delta.errors)
      {
        assert fs[..i + 1][..i] == fs[..i];
        cum := cum + fs[i].Quantity;
        var wf := BareFill(fs[i], side, reference);
        bare := bare + [wf];
        delta.AddFill(Named(wf, id, exchangeOrderID));
      }
      assert fs[..|fs|] == fs;
    }

    /** The reading of the clock an intake decides by. */
    ghost function IntakeClock(): int
      reads this, store
    {
      if store.fails(store.issued) then clock else clock + env.elapsed(readings)
    }

    /** The status on record for an order, if there is a row. */
    ghost function StatusOf(id: string): Option<IdemStatus>
      reads this, store
    {
      if id in store.rows then Some(store.rows[id].Status) else None
    }

    lemma StatusIs(id: string)
      ensures StatusOf(id) == if Row(store.rows, id).Some? then Some(Row(store.rows, id).value.Status) else None
    {
    }

    /** Dedupe, frozen latch, expiry and decimal checks, in this order. A command
        that does not pass is answered, and nothing but the outbound frames moves. */
    method Intake(tc: TradeCommand)
      returns (proceed: bool, clk: int, ghost steps: seq<Step>)
      modifies this`clock, this`readings, this`outbound, store`issued
      ensures clk == clock == old(IntakeClock()) && store.issued == old(store.issued) + 1
      ensures var v, readOk :=
                  Gate(Row(store.rows, tc.ClientOrderID), frozen, tc, clk), !store.fails(old(store.issued));
              && proceed == (readOk && v.Proceed?)
              && outbound == old(outbound) + (if !readOk then [ErrorFrame("internal_error")]
                                              else if v.Proceed? then [] else [AckFrame(tc.ClientOrderID, AckFor(v))])
              && Acts(steps) == [Deliver(tc, readOk)]
      ensures Exec(old(View()), steps) == if proceed then View().(phase := Gated(tc, clk)) else View()
      ensures proceed ==> WellFormed(tc) && delta.fills == old(delta.fills)
    {
      hide Exec, Acts, Apply;
      proceed, clk := false, clock;
      ghost var a := View();
      var existing, ok := store.Get(tc.ClientOrderID);
      if !ok {
        TickThen(a, 0, Deliver(tc, false));
        DeliverReady(a, tc);
        steps := [Tick(0), Deliver(tc, false)];
        var _ := SendTyped(ErrorFrame("internal_error"));
        return;
      }
      clk := NowMs();
      steps := [Tick(clk - old(clock)), Deliver(tc, true)];
      TickThen(a, clk - old(clock), Deliver(tc, true));
      DeliverReady(View(), tc);
      if existing.Some? {
        var status := if existing.value.IsTerminal() then AckDuplicateTerminal else AckDuplicatePending;
        var _ := SendTyped(AckFrame(tc.ClientOrderID, status));
        return;
      }
      if frozen {
        var _ := SendTyped(AckFrame(tc.ClientOrderID, AckRejected));
        return;
      }
      var wallClk := if tc.NowMsAtSaaS > clk then tc.NowMsAtSaaS else clk;
      if tc.ValidUntilMs > 0 && wallClk > tc.ValidUntilMs {
        var _ := SendTyped(AckFrame(tc.ClientOrderID, AckExpired));
        return;
      }
      if !tc.Quantity.Parsed? || tc.Quantity.value == 0.0 {
        var _ := SendTyped(AckFrame(tc.ClientOrderID, AckRejected));
        return;
      }
      if tc.IsLimit && !tc.LimitPrice.Parsed? {
        var _ := SendTyped(AckFrame(tc.ClientOrderID, AckRejected));
        return;
      }
      proceed := true;
    }

    /** An incoming trade command, start to finish without a crash: a sequence of
        the atomic steps, beginning with the delivery of this command. Only a
        command the gate lets through, and whose pre-record was stored, is
        submitted, and then exactly once; what is sent, buffered and written
        follows from the exchange's answer. */
    method HandleTradeCommand(tc: TradeCommand) returns (ghost steps: seq<Step>)
      modifies this, store, delta
      ensures View() == Exec(old(View()), steps)
      ensures connected == old(connected) && frozen == old(frozen)
      ensures Observes(old(delta.fills), delta.fills, old(outbound), outbound) && delta.errors == old(delta.errors)
      ensures var readOk, clk := !store.fails(old(store.issued)), old(IntakeClock());
              var v := Gate(Row(old(store.rows), tc.ClientOrderID), old(frozen), tc, clk);
              if readOk && v.Proceed? then
                && WellFormed(tc)
                && var putOk := tc.ClientOrderID != "" && !store.fails(old(store.issued) + 1);
                var res := env.answers(|old(submits)|);
                && submits == old(submits) + (if putOk then [tc.ClientOrderID] else [])
                && outbound == old(outbound) + (if putOk then FramesFor(tc, res) else [ErrorFrame("internal_error")])
                && delta.fills == old(delta.fills) + (if putOk then TeedFills(tc, res) else [])
                && (if putOk then Settles(tc, clk, res, !store.fails(old(store.issued) + 2), old(store.rows),
                                          store.rows)
                    else store.rows == old(store.rows))
                && var w := FinalWriteOf(tc, clk, res, !store.fails(old(store.issued) + 2));
                   Acts(steps) == [Deliver(tc, true)] + SubmitActs(putOk, w)
              else
                && submits == old(submits) && store.rows == old(store.rows) && delta.fills == old(delta.fills)
                && outbound == old(outbound)
                     + [if readOk then AckFrame(tc.ClientOrderID, AckFor(v)) else ErrorFrame("internal_error")]
                && Acts(steps) == [Deliver(tc, readOk)]
      ensures var stored := tc.ClientOrderID != "" && !store.fails(old(store.issued) + 1);
              && old(outbound) <= outbound
              && IsAnswer(tc, !store.fails(old(store.issued)), old(StatusOf(tc.ClientOrderID)), old(frozen),
                          old(IntakeClock()), stored, env.answers(|old(submits)|).Some?, outbound[|old(outbound)|..],
                          submits != old(submits))
      ensures submits == old(submits) || submits == old(submits) + [tc.ClientOrderID]
      ensures submits != old(submits) && tc.ValidUntilMs > 0 ==>
                old(IntakeClock()) <= tc.ValidUntilMs && tc.NowMsAtSaaS <= tc.ValidUntilMs
      ensures submits == old(submits) ==> store.rows == old(store.rows) && delta.fills == old(delta.fills)
      ensures submits != old(submits) ==>
                var res := env.answers(|old(submits)|);
                && WellFormed(tc) && old(delta.fills) <= delta.fills
                && Settles(tc, old(IntakeClock()), res, !store.fails(old(store.issued) + 2), old(store.rows),
                           store.rows)
                && (res.Some? ==>
                    Forwards(tc, res.value, outbound[|old(outbound)|..], delta.fills[|old(delta.fills)|..]))
                && (res.None? ==> |outbound| == |old(outbound)| + 1 && delta.fills == old(delta.fills))
    {
      hide *;
      ghost var clk, out, fills := IntakeClock(), outbound, delta.fills;
      ghost var readable, row := !store.fails(store.issued), Row(store.rows, tc.ClientOrderID);
      ghost var stored, res := tc.ClientOrderID != "" && !store.fails(store.issued + 1), env.answers(|submits|);
      StatusIs(tc.ClientOrderID);
      steps := TakeCommand(tc);
      ghost var frames := outbound[|out|..];
      if WellFormed(tc) {
        AnswerMeans(tc, res);
        assert submits != old(submits) ==> delta.fills[|fills|..] == TeedFills(tc, res) && frames == FramesFor(tc, res);
      }
      GateMeans(tc, readable, row, frozen, clk, stored, res.Some?, frames, submits != old(submits));
      AnswerNeedsClocks(tc, readable, if row.Some? then Some(row.value.Status)
                        else None, frozen, clk, stored, res.Some?, frames,
                        submits != old(submits));
    }

    /** The same as a run of steps. */
    method TakeCommand(tc: TradeCommand) returns (ghost steps: seq<Step>)
      modifies this, store, delta
      ensures View() == Exec(old(View()), steps)
      ensures connected == old(connected) && frozen == old(frozen)
      ensures Observes(old(delta.fills), delta.fills, old(outbound), outbound) && delta.errors == old(delta.errors)
      ensures var readOk, clk := !store.fails(old(store.issued)), old(IntakeClock());
              var v := Gate(Row(old(store.rows), tc.ClientOrderID), old(frozen), tc, clk);
              if readOk && v.Proceed? then
                && WellFormed(tc)
                && var putOk := tc.ClientOrderID != "" && !store.fails(old(store.issued) + 1);
                var res := env.answers(|old(submits)|);
                && submits == old(submits) + (if putOk then [tc.ClientOrderID] else [])
                && outbound == old(outbound) + (if putOk then FramesFor(tc, res) else [ErrorFrame("internal_error")])
                && delta.fills == old(delta.fills) + (if putOk then TeedFills(tc, res) else [])
                && (if putOk then Settles(tc, clk, res, !store.fails(old(store.issued) + 2), old(store.rows),
                                          store.rows)
                    else store.rows == old(store.rows))
                && var w := FinalWriteOf(tc, clk, res, !store.fails(old(store.issued) + 2));
                   Acts(steps) == [Deliver(tc, true)] + SubmitActs(putOk, w)
              else
                && submits == old(submits) && store.rows == old(store.rows) && delta.fills == old(delta.fills)
                && outbound == old(outbound)
                     + [if readOk then AckFrame(tc.ClientOrderID, AckFor(v)) else ErrorFrame("internal_error")]
                && Acts(steps) == [Deliver(tc, readOk)]
    {
      hide Exec, Acts, Apply, FramesFor, TeedFills, FinalWriteOf, SubmitActs, Observes, Settles;
      ghost var a := View();
      var proceed, now;
      proceed, now, steps := Intake(tc);
      assert old(outbound) + [] == old(outbound);
      if !proceed {
        ghost var v := Gate(Row(store.rows, tc.ClientOrderID), frozen, tc, now);
        ghost var answer := if store.fails(old(store.issued)) then ErrorFrame("internal_error")
          else AckFrame(tc.ClientOrderID, AckFor(v));
        NothingObserved(delta.fills, old(outbound), answer);
        return;
      }
      ghost var rest := SubmitGated(tc, now);
      ExecAppend(a, steps, rest);
      ActsAppend(steps, rest);
      steps := steps + rest;
    }

    /** Pre-record, submit, acknowledge, forward the fills, update the row. */
    method SubmitGated(tc: TradeCommand, clk: int) returns (ghost steps: seq<Step>)
      requires WellFormed(tc)
      modifies this, store, delta
      ensures View() == Exec(old(View()).(phase := Gated(tc, clk)), steps)
      ensures connected == old(connected) && frozen == old(frozen)
      ensures Observes(old(delta.fills), delta.fills, old(outbound), outbound) && delta.errors == old(delta.errors)
      ensures var putOk, res := tc.ClientOrderID != "" && !store.fails(old(store.issued)), env.answers(|old(submits)|);
              && submits == old(submits) + (if putOk then [tc.ClientOrderID] else [])
              && outbound == old(outbound) + (if putOk then FramesFor(tc, res) else [ErrorFrame("internal_error")])
              && delta.fills == old(delta.fills) + (if putOk then TeedFills(tc, res) else [])
              && (if putOk then Settles(tc, clk, res, !store.fails(old(store.issued) + 1), old(store.rows), store.rows)
                  else store.rows == old(store.rows))
              && Acts(steps) == SubmitActs(putOk, FinalWriteOf(tc, clk, res, !store.fails(old(store.issued) + 1)))
    {
      hide Exec, Acts, Apply, FramesFor, TeedFills, FinalWriteOf, Observes, Settles, Written;
      ghost var a := View().(phase := Gated(tc, clk));
      NothingObserved(delta.fills, outbound, ErrorFrame("internal_error"));
      var stored := store.Put(PendingRecord(tc, clk));
      if !stored {
        PreRecordFails(a);
        steps := [PreRecord(false)];
        var _ := SendTyped(ErrorFrame("internal_error"));
        return;
      }
      PreRecordThenSubmit(a);
      if tc.ClientOrderID !in intake {
        intake := intake[tc.ClientOrderID := clk];
      }
      var answer := SubmitToExchange(tc);
      ghost var rest := FinishSubmitted(tc, clk, answer);
      SettlesIs(tc, clk, answer, !store.fails(old(store.issued) + 1), old(store.rows), clock);
      ExecAppend(a, [PreRecord(true), Submit], rest);
      ActsAppend([PreRecord(true), Submit], rest);
      steps := [PreRecord(true), Submit] + rest;
    }

    /** Everything after Exchange.Submit has returned. */
    method FinishSubmitted(tc: TradeCommand, clk: int, res: Option<SubmitResult>) returns (ghost steps: seq<Step>)
      requires WellFormed(tc) && tc.ClientOrderID in store.rows && tc.ClientOrderID != ""
      modifies this`clock, this`readings, this`outbound, store, delta
      ensures View() == Exec(old(View()).(phase := Submitted(tc, clk)), steps)
      ensures tc.ClientOrderID in store.rows
      ensures outbound == old(outbound) + FramesFor(tc, res) && delta.fills == old(delta.fills) + TeedFills(tc, res)
      ensures Observes(old(delta.fills), delta.fills, old(outbound), outbound) && delta.errors == old(delta.errors)
      ensures var w := FinalWriteOf(tc, clk, res, !store.fails(old(store.issued)));
              Acts(steps) == [Finish(w)] && store.rows == Written(old(store.rows), tc.ClientOrderID, clk, w, clock)
    {
      hide Exec, Acts, Apply, AcceptedFrames, BareFills, NamedFills, SumQuantity, Observes;
      AnswerIsObservation(delta.fills, outbound, tc, res);
      ghost var a := View().(phase := Submitted(tc, clk));
      ghost var w := FinalWriteOf(tc, clk, res, !store.fails(store.issued));
      if res.None? {
        var now := NowMs();
        var _ := store.UpdateStatus(tc.ClientOrderID, RejectedStatus, "", now);
        var _ := SendTyped(AckFrame(tc.ClientOrderID, AckRejected));
      } else {
        var rec := ForwardAccepted(tc, clk, res.value);
        var now := NowMs();
        var _ := store.Put(rec.(LastUpdatedMs := now));
      }
      steps := [Tick(clock - old(clock)), Finish(w)];
      TickThen(a, clock - old(clock), Finish(w));
      FinishSubmit(a.(now := clock), w);
    }

    /** Acknowledges, buffers and forwards what the exchange accepted. */
    method ForwardAccepted(tc: TradeCommand, clk: int, res: SubmitResult) returns (rec: Record)
      requires WellFormed(tc)
      modifies this`outbound, delta
      ensures rec == AcceptedRecord(tc, clk, res)
      ensures delta.fills == old(delta.fills) + TeedFills(tc, Some(res)) && delta.errors == old(delta.errors)
      ensures outbound == old(outbound) + AcceptedFrames(tc, res)
    {
      var reference := if tc.IsLimit then tc.LimitPrice.value else res.MarketRef;
      rec := Record(tc.ClientOrderID, res.ExchangeOrderID, AcceptedStatus, reference, clk, clk);
      var _ := SendTyped(AckFrame(tc.ClientOrderID, AckAccepted));
      if res.Fills != [] {
        var bare, cum := CollectFills(res.Fills, tc.Side, reference, tc.ClientOrderID, res.ExchangeOrderID);
        var status := OrderPartialFilled;
        if cum >= tc.Quantity.value {
          status := OrderFilled;
          rec := rec.(Status := FilledStatus);
        }
        var _ := SendTyped(OrderUpdateFrame(tc.ClientOrderID, res.ExchangeOrderID, status, cum, bare));
      }
    }

    /** Moves the row's status to the event's, unless that leaves it as it is. */
    method AdvanceStatus(ev: OrderEventMsg, current: IdemStatus, ex: string) returns (ghost steps: seq<Step>)
      requires ev.ClientOrderID != ""
      modifies this`clock, this`readings, store
      ensures View() == Exec(old(View()), steps)
      ensures Acts(steps) == StatusActs(ev, current, ex, !store.fails(old(store.issued)))
      ensures store.rows == StatusRows(old(store.rows), ev, current, ex, !store.fails(old(store.issued)), clock)
    {
      hide Apply, Exec, Acts;
      ExecNothing(View());
      steps := [];
      var status := MapEventStatus(ev.Status, current);
      if status != current {
        var now := NowMs();
        var updated := store.UpdateStatus(ev.ClientOrderID, status, ex, now);
        ghost var a, ms := old(View()), clock - old(clock);
        ApplyTick(a, ms);
        steps := [Tick(ms)];
        if updated {
          ghost var e := OrderEvent(ev.ClientOrderID, status, ex);
          TickThen(a, ms, e);
          ApplyEvent(a.(now := clock), ev.ClientOrderID, status, ex);
          steps := [Tick(ms), e];
        }
      }
    }

    /** An event of the exchange stream. Its fill enters the delta buffer unless
        the order is genuinely unknown; a table read error does not drop it. The
        order_update goes out only over a live connection. */
    method OnOrderEvent(ev: OrderEventMsg) returns (ghost steps: seq<Step>)
      modifies this`clock, this`readings, this`outbound, store, delta
      ensures View() == Exec(old(View()), steps)
      ensures Observes(old(delta.fills), delta.fills, old(outbound), outbound) && delta.errors == old(delta.errors)
      ensures var row := Row(old(store.rows), ev.ClientOrderID);
              var readOk := !store.fails(old(store.issued));
              var handled := ev.ClientOrderID != "" && (!readOk || row.Some?);
              var known := if readOk then row else None;
              && delta.fills == old(delta.fills) + (if handled then EventFills(ev, known) else [])
              && outbound == old(outbound) + (if handled && connected then [EventUpdate(ev, known)] else [])
              && Acts(steps) == if handled then EventActs(ev, known, !store.fails(old(store.issued) + 1)) else []
      ensures var readOk, known := !store.fails(old(store.issued)), ev.ClientOrderID in old(store.rows);
              && old(delta.fills) <= delta.fills && old(outbound) <= outbound
              && var fills, frames := delta.fills[|old(delta.fills)|..], outbound[|old(outbound)|..];
              if ev.ClientOrderID == "" || (readOk && !known) then
                fills == [] && frames == [] && store.rows == old(store.rows)
              else if !readOk then
                EventForwards(ev, "", 0.0, connected, frames, fills) && store.rows == old(store.rows)
              else
                var rec := old(store.rows)[ev.ClientOrderID];
                && EventForwards(ev, rec.ExchangeOrderID, rec.MarketRef, connected, frames, fills)
                && StatusMoves(ev, old(store.rows), store.rows, !store.fails(old(store.issued) + 1))
    {
      hide Exec, Acts, Apply, WithStatus, EventFills, EventUpdate, EventActs, Observes, StatusRows, StatusMoves,
           EventForwards;
      ghost var known := if store.fails(store.issued) then None else Row(store.rows, ev.ClientOrderID);
      EventMeans(ev, known, connected);
      if known.Some? {
        StatusMovesIs(ev, store.rows, !store.fails(store.issued + 1));
      }
      ExecNothing(View());
      NothingObserved(delta.fills, outbound, HelloFrame);
      steps := [];
      if ev.ClientOrderID == "" {
        return;
      }
      var row, ok := store.Get(ev.ClientOrderID);
      if ok && row.None? {
        return;
      }
      steps := ForwardEvent(ev, row);
    }

    /** Buffers the fill, moves the row and sends the update, with what is known of the order. */
    method ForwardEvent(ev: OrderEventMsg, known: Option<Record>) returns (ghost steps: seq<Step>)
      requires ev.ClientOrderID != ""
      modifies this`clock, this`readings, this`outbound, store, delta
      ensures View() == Exec(old(View()), steps)
      ensures Observes(old(delta.fills), delta.fills, old(outbound), outbound) && delta.errors == old(delta.errors)
      ensures delta.fills == old(delta.fills) + EventFills(ev, known)
      ensures outbound == old(outbound) + (if connected then [EventUpdate(ev, known)] else [])
      ensures Acts(steps) == EventActs(ev, known, !store.fails(old(store.issued)))
      ensures store.rows == if known.None? then old(store.rows)
                            else StatusRows(old(store.rows), ev, known.value.Status, EventExchangeID(ev, known),
                                            !store.fails(old(store.issued)), clock)
    {
      hide Exec, Acts, Apply, Observes, EventFills, EventUpdate, EventActs, StatusActs, EventExchangeID, EventBare,
           WithStatus, StatusRows;
      ExecNothing(View());
      EventIsObservation(delta.fills, outbound, ev, known, connected);
      EventPartsAre(ev, known);
      assert outbound + [] == outbound;
      steps := [];
      var bare := BufferEventFill(ev, known);
      var ex := EventExchangeID(ev, known);
      var cum := if ev.Cumulative == 0.0 && ev.Fill.Some? then ev.Fill.value.Quantity else ev.Cumulative;
      if known.Some? {
        steps := AdvanceStatus(ev, known.value.Status, ex);
      }
      if connected {
        var _ := SendTyped(OrderUpdateFrame(ev.ClientOrderID, ex, ev.Status, cum, bare));
      }
    }

    /** Tees the event's fill into the delta buffer under its order's name. */
    method BufferEventFill(ev: OrderEventMsg, known: Option<Record>) returns (bare: seq<Fill>)
      modifies delta
      ensures bare == EventBare(ev, known)
      ensures delta.fills == old(delta.fills) + EventFills(ev, known) && delta.errors == old(delta.errors)
    {
      hide BareFill, Named, NamedFills;
      var reference := if known.Some? then known.value.MarketRef else 0.0;
      var ex := EventExchangeID(ev, known);
      bare := [];
      NamedNone(ev.ClientOrderID);
      if ev.Fill.Some? {
        var wf := BareFill(ev.Fill.value, ev.Side, reference);
        bare := [wf];
        delta.AddFill(Named(wf, ev.ClientOrderID, ex));
        NamedOne(wf, ev.ClientOrderID, ex);
      }
    }

    /** One delta report: everything buffered goes out, or everything stays
        buffered, in order, behind a possible positions error. arrived and faults
        are what order events buffer while the report is on its way. */
    method SendDeltaReport(arrived: seq<Fill>, faults: seq<AgentError>) returns (ok: bool)
      modifies this`clock, this`readings, this`queries, this`outbound, delta
      ensures ok == !env.sendFails(|old(outbound)|)
      ensures var positionsOk := !env.positionsFail(old(queries));
              var errs := old(delta.errors)
                          + (if positionsOk then []
                             else [AgentError("positions_query_failed", old(clock) + env.elapsed(old(readings)))]);
              && outbound == old(outbound) + [DeltaReportFrame(old(delta.fills), errs)]
              && delta.fills == (if ok then [] else old(delta.fills)) + arrived
              && delta.errors == (if ok then [] else errs) + faults
      ensures IsReportRound(old(delta.fills), arrived, ok, delta.fills)
    {
      hide Ledger.Apply, IsReportRound;
      var positions := QueryPositions();
      if !positions {
        var now := NowMs();
        delta.AddError(AgentError("positions_query_failed", now));
      }
      assert delta.errors + [] == delta.errors;
      var fills, errs := delta.Drain();
      delta.Arrive(arrived, faults);
      ok := SendTyped(DeltaReportFrame(fills, errs));
      if !ok {
        delta.Requeue(fills, errs);
      }
      ReportRound(old(delta.fills), arrived, ok);
      assert [] + arrived == arrived;
    }

    /** hello, auth_required, auth, auth_ok, state_sync_request and its response,
        in lockstep, each only after the one before it. The latch is restored from
        auth_ok even when the handshake fails after it, and never otherwise; a
        fatal failure is an auth_fail with a fatal code. */
    method DoHandshake(replies: seq<ServerFrame>) returns (ok: bool, fatal: bool)
      requires |replies| == 3
      modifies this`frozen, this`outbound, this`queries
      ensures var n := |old(outbound)|;
              var hello := !env.sendFails(n) && replies[0].AuthRequired?;
              var auth := hello && !env.sendFails(n + 1);
              var authOk := auth && replies[1].AuthOk?;
              var sync := authOk && replies[2].StateSyncRequest? && !env.positionsFail(old(queries));
              && ok == (sync && !env.sendFails(n + 2))
              && outbound == old(outbound) + [HelloFrame] + (if hello then [AuthFrame] else [])
                   + (if sync then [StateSyncResponseFrame] else [])
              && frozen == (if authOk then replies[1].frozen else old(frozen))
              && fatal == (auth && replies[1].AuthFail?
                           && replies[1].code in {InvalidToken, Revoked, SchemaMismatch, AccountMismatch})
    {
      ok, fatal := false, false;
      var sent := SendTyped(HelloFrame);
      if !sent || !replies[0].AuthRequired? {
        return;
      }
      sent := SendTyped(AuthFrame);
      if !sent {
        return;
      }
      if replies[1].AuthFail? {
        fatal := IsFatalAuthCode(replies[1].code);
        return;
      } else if replies[1].AuthOk? {
        frozen := replies[1].frozen;
      } else {
        return;
      }
      if !replies[2].StateSyncRequest? {
        return;
      }
      var positions := QueryPositions();
      if positions {
        ok := SendTyped(StateSyncResponseFrame);
      }
    }

    /** kill_switch: the resume symbol clears the latch, anything else sets it. */
    method HandleKillSwitch(msgID: string, isResume: bool)
      modifies this`frozen, this`outbound
      ensures View() == Exec(old(View()), [Freeze(!isResume)])
      ensures outbound == old(outbound) + [AckFrame(msgID, AckAccepted)]
    {
      assert [Freeze(!isResume)][..0] == [];
      frozen := !isResume;
      var _ := SendTyped(AckFrame(msgID, AckAccepted));
    }
  }

  /** Process start: drop rows older than the retention; a failed purge is only
      logged and the agent starts with the full table. */
  method StartupPurge(store: SqliteStore, retentionDays: nat, now: int)
    modifies store
    ensures forall a: Agent | a.phase.Down? && a.now == now && a.rows == old(store.rows) ::
              store.rows == Apply(a, Restart(retentionDays * DAY_MS, !store.fails(old(store.issued)))).rows
  {
    var cutoff := now - retentionDays * DAY_MS;
    var _, _ := store.Purge(cutoff);
  }

  /** The table write an event calls for: none when it leaves the status alone. */
  function StatusActs(ev: OrderEventMsg, current: IdemStatus, ex: string, updateOk: bool): seq<Step> {
    var status := MapEventStatus(ev.Status, current);
    if updateOk && status != current then [OrderEvent(ev.ClientOrderID, status, ex)] else []
  }

  /** The exchange's order id: the event's, or the one on record. */
  function EventExchangeID(ev: OrderEventMsg, known: Option<Record>): string {
    if ev.ExchangeOrderID != "" then ev.ExchangeOrderID
    else if known.Some? then known.value.ExchangeOrderID else ""
  }

  /** The event's fill, with slippage against the recorded price, none if unknown. */
  function EventBare(ev: OrderEventMsg, known: Option<Record>): seq<Fill> {
    if ev.Fill.None? then []
    else [BareFill(ev.Fill.value, ev.Side, if known.Some? then known.value.MarketRef else 0.0)]
  }

  function EventFills(ev: OrderEventMsg, known: Option<Record>): seq<Fill> {
    NamedFills(EventBare(ev, known), ev.ClientOrderID, EventExchangeID(ev, known))
  }

  function EventUpdate(ev: OrderEventMsg, known: Option<Record>): Frame {
    var cum := if ev.Cumulative == 0.0 && ev.Fill.Some? then ev.Fill.value.Quantity else ev.Cumulative;
    OrderUpdateFrame(ev.ClientOrderID, EventExchangeID(ev, known), ev.Status, cum, EventBare(ev, known))
  }

  function EventActs(ev: OrderEventMsg, known: Option<Record>, updateOk: bool): seq<Step> {
    if known.None? then [] else StatusActs(ev, known.value.Status, EventExchangeID(ev, known), updateOk)
  }

  lemma EventPartsAre(ev: OrderEventMsg, known: Option<Record>)
    ensures var cum := if ev.Cumulative == 0.0 && ev.Fill.Some? then ev.Fill.value.Quantity else ev.Cumulative;
            EventUpdate(ev, known) ==
            OrderUpdateFrame(ev.ClientOrderID, EventExchangeID(ev, known), ev.Status, cum, EventBare(ev, known))
    ensures forall ok ::
              EventActs(ev, known, ok) ==
              if known.None? then [] else StatusActs(ev, known.value.Status, EventExchangeID(ev, known), ok)
  {
  }

  function StatusRows(t: Table, ev: OrderEventMsg, current: IdemStatus, ex: string, ok: bool, now: int): Table {
    var status := MapEventStatus(ev.Status, current);
    if ok && status != current then WithStatus(t, ev.ClientOrderID, status, ex, now) else t
  }

  lemma ExecNothing(a: Agent)
    ensures Exec(a, []) == a && Acts([]) == []
  {
  }

  lemma ApplyTick(a: Agent, ms: nat)
    ensures Exec(a, [Tick(ms)]) == a.(now := a.now + ms) && Acts([Tick(ms)]) == []
  {
  }

  lemma ApplyEvent(a: Agent, id: string, status: IdemStatus, ex: string)
    requires !a.phase.Down?
    ensures Apply(a, OrderEvent(id, status, ex)) == a.(rows := WithStatus(a.rows, id, status, ex, a.now))
  {
  }

  /** The acts of a handler after its gate. */
  function SubmitActs(putOk: bool, w: FinalWrite): seq<Step> {
    if putOk then [PreRecord(true), Submit, Finish(w)] else [PreRecord(false)]
  }

  lemma {:induction false} ActsAppend(xs: seq<Step>, ys: seq<Step>)
    ensures Acts(xs + ys) == Acts(xs) + Acts(ys)
  {
    if ys == [] {
      assert xs + ys == xs;
    } else {
      ActsAppend(xs, ys[..|ys| - 1]);
      assert (xs + ys)[..|xs + ys| - 1] == xs + ys[..|ys| - 1];
    }
  }
}
