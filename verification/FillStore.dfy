/** The server's trade repository and the handlers of the agent's frames.

    FillLedger interleaves handlers between their existence check and insert;
    here each handler is the loop it is in the program, specified by what one
    undisturbed pass over its frame leaves behind. */
module FillStore {
  import opened Common
  import opened Wire
  import opened FillLedger

  datatype TradeStatus = Pending | PartialFilled | Filled | Cancelled | Rejected {
    predicate IsTerminal() {
      Filled? || Cancelled? || Rejected?
    }
  }

  type Trades = map<string, TradeStatus>

  function OrderUpdateToTradeStatus(s: OrderStatus): TradeStatus {
    match s
    case OrderFilled => Filled
    case OrderPartialFilled => PartialFilled
    case OrderCancelled => Cancelled
    case OrderRejected => Rejected
  }

  function AckToTradeStatus(s: AckStatus): Option<TradeStatus> {
    match s
    case AckRejected => Some(Rejected)
    case AckExpired => Some(Cancelled)
    case AckAccepted => None
    case AckDuplicatePending => None
    case AckDuplicateTerminal => None
  }

  /** A status write; a terminal or unknown order is left alone. */
  function Advanced(t: Trades, id: string, s: TradeStatus): Trades {
    if id in t && !t[id].IsTerminal() then t[id := s] else t
  }

  function PartialIfPending(t: Trades, id: string): Trades {
    if id in t && t[id].Pending? then t[id := PartialFilled] else t
  }

  predicate Closed(s: TradeStatus) {
    s == Filled || s == Cancelled || s == Rejected
  }

  /** The order takes the status, unless it is unknown or closed; no other order moves. */
  ghost predicate TakesStatus(t: Trades, t': Trades, id: string, s: TradeStatus) {
    && t'.Keys == t.Keys
    && (forall other | other in t && (other != id || Closed(t[other])) :: t'[other] == t[other])
    && (id in t && !Closed(t[id]) ==> t'[id] == s)
  }

  lemma UpdateMeans(t: Trades, id: string, status: OrderStatus)
    ensures var t' := Advanced(t, id, OrderUpdateToTradeStatus(status));
            && (status.OrderFilled? ==> TakesStatus(t, t', id, Filled))
            && (status.OrderPartialFilled? ==> TakesStatus(t, t', id, PartialFilled))
            && (status.OrderCancelled? ==> TakesStatus(t, t', id, Cancelled))
            && (status.OrderRejected? ==> TakesStatus(t, t', id, Rejected))
  {
  }

  /** Check, then insert, with nobody in between. */
  function Absorb(rows: seq<Fill>, f: Fill): seq<Fill> {
    if Exists(rows, f) then rows else rows + [f]
  }

  function AbsorbAll(rows: seq<Fill>, fs: seq<Fill>): seq<Fill> {
    if fs == [] then rows else Absorb(AbsorbAll(rows, fs[..|fs| - 1]), fs[|fs| - 1])
  }

  /** A delta report skips fills that name no order. */
  function NamedOnly(fs: seq<Fill>): seq<Fill> {
    if fs == [] then []
    else NamedOnly(fs[..|fs| - 1]) + if fs[|fs| - 1].ClientOrderID == "" then [] else [fs[|fs| - 1]]
  }

  /** Order statuses after a report: an order that gained a row is no longer pending. */
  function Unstuck(t: Trades, rows: seq<Fill>, fs: seq<Fill>): Trades {
    if fs == [] then t
    else
      var f, before := fs[|fs| - 1], AbsorbAll(rows, NamedOnly(fs[..|fs| - 1]));
      var t' := Unstuck(t, rows, fs[..|fs| - 1]);
      if f.ClientOrderID != "" && !Exists(before, f) then PartialIfPending(t', f.ClientOrderID) else t'
  }

  lemma StoredExists(rows: seq<Fill>, f: Fill)
    requires !Exists(rows, f)
    ensures Inserted(rows, f) == rows + [f]
  {
  }

  lemma NothingRecovered(rows: seq<Fill>, t: Trades)
    ensures forall fs: seq<Fill> :: AbsorbAll(rows, NamedOnly(fs[..0])) == rows && Unstuck(t, rows, fs[..0]) == t
  {
  }

  lemma RecoverStep(rows: seq<Fill>, t: Trades, fs: seq<Fill>, i: nat)
    requires i < |fs|
    ensures var before, f := AbsorbAll(rows, NamedOnly(fs[..i])), fs[i];
            && AbsorbAll(rows, NamedOnly(fs[..i + 1])) == (if f.ClientOrderID == "" then before else Absorb(before, f))
            && Unstuck(t, rows, fs[..i + 1]) ==
               if f.ClientOrderID != "" && !Exists(before, f)
               then PartialIfPending(Unstuck(t, rows, fs[..i]), f.ClientOrderID) else Unstuck(t, rows, fs[..i])
  {
    hide Absorb, Exists;
    assert fs[..i + 1][..i] == fs[..i];
    var named := NamedOnly(fs[..i]);
    assert (named + [fs[i]])[..|named|] == named;
    assert named + [] == named;
  }

  /** rows' is rows and, in order, those of fs that no row answered for yet. */
  ghost predicate AbsorbsTo(rows: seq<Fill>, rows': seq<Fill>, fs: seq<Fill>) {
    && rows <= rows'
    && (forall i | |rows| <= i < |rows'| :: rows'[i] in fs && !Exists(rows'[..i], rows'[i]))
    && (forall i | 0 <= i < |fs| :: Exists(rows', fs[i]))
  }

  lemma {:induction false} AbsorbMeans(rows: seq<Fill>, fs: seq<Fill>)
    ensures AbsorbsTo(rows, AbsorbAll(rows, fs), fs)
  {
    hide Exists;
    if fs != [] {
      var init, f := fs[..|fs| - 1], fs[|fs| - 1];
      var before, after := AbsorbAll(rows, init), AbsorbAll(rows, fs);
      AbsorbMeans(rows, init);
      forall i | |rows| <= i < |after| ensures after[i] in fs && !Exists(after[..i], after[i]) {
        if i < |before| {
          assert after[..i] == before[..i] && before[i] in init;
        } else {
          assert after[..i] == before;
        }
      }
      forall i | 0 <= i < |fs| ensures Exists(after, fs[i]) {
        AbsorbLands(before, f, fs[i]);
        assert i < |fs| - 1 ==> fs[i] == init[i];
      }
    }
  }

  lemma {:induction false} NamedOnlyMeans(fs: seq<Fill>)
    ensures forall f :: f in NamedOnly(fs) <==> f in fs && f.ClientOrderID != ""
  {
    if fs != [] {
      NamedOnlyMeans(fs[..|fs| - 1]);
      assert fs == fs[..|fs| - 1] + [fs[|fs| - 1]];
    }
  }

  /** The rows a report adds are its named fills that nothing answered for, and an
      order is moved from pending to partially filled exactly when it gained a row. */
  ghost predicate RecoversTo(rows: seq<Fill>, rows': seq<Fill>, t: Trades, t': Trades, fs: seq<Fill>) {
    && AbsorbsTo(rows, rows', NamedOnly(fs))
    && (forall i | |rows| <= i < |rows'| :: rows'[i] in fs && rows'[i].ClientOrderID != "")
    && (forall i | 0 <= i < |fs| && fs[i].ClientOrderID != "" :: Exists(rows', fs[i]))
    && t'.Keys == t.Keys
    && forall id | id in t :: t'[id] == if t[id].Pending? && Gained(rows, rows', id) then PartialFilled else t[id]
  }

  ghost predicate Gained(rows: seq<Fill>, rows': seq<Fill>, id: string) {
    exists i :: |rows| <= i < |rows'| && rows'[i].ClientOrderID == id
  }

  lemma {:induction false} UnstuckMeans(rows: seq<Fill>, t: Trades, fs: seq<Fill>)
    ensures var rows' := AbsorbAll(rows, NamedOnly(fs));
            && rows <= rows' && Unstuck(t, rows, fs).Keys == t.Keys
            && forall id | id in t ::
                 Unstuck(t, rows, fs)[id] == if t[id].Pending? && Gained(rows, rows', id) then PartialFilled else t[id]
  {
    AbsorbMeans(rows, NamedOnly(fs));
    hide Exists, AbsorbAll, Unstuck, NamedOnly;
    if fs == [] {
      NothingUnstuck(rows, t);
    } else {
      var n := |fs| - 1;
      UnstuckMeans(rows, t, fs[..n]);
      RecoverStep(rows, t, fs, n);
      assert fs[..n + 1] == fs;
      var before, after := AbsorbAll(rows, NamedOnly(fs[..n])), AbsorbAll(rows, NamedOnly(fs));
      forall id | id in t
        ensures Gained(rows, after, id) <==>
                Gained(rows, before, id) || (after != before && fs[n].ClientOrderID == id) {
        if after != before {
          assert after == before + [fs[n]] && after[|before|] == fs[n];
        }
        if Gained(rows, before, id) {
          var i :| |rows| <= i < |before| && before[i].ClientOrderID == id;
          assert after[i] == before[i];
        }
      }
    }
  }

  lemma NothingUnstuck(rows: seq<Fill>, t: Trades)
    ensures AbsorbAll(rows, NamedOnly([])) == rows && Unstuck(t, rows, []) == t
  {
  }

  lemma RecoverMeans(rows: seq<Fill>, t: Trades, fs: seq<Fill>)
    ensures RecoversTo(rows, AbsorbAll(rows, NamedOnly(fs)), t, Unstuck(t, rows, fs), fs)
  {
    hide Exists, AbsorbAll, Unstuck, NamedOnly, Gained;
    var rows' := AbsorbAll(rows, NamedOnly(fs));
    AbsorbMeans(rows, NamedOnly(fs));
    UnstuckMeans(rows, t, fs);
    NamedOnlyMeans(fs);
    forall i | 0 <= i < |fs| && fs[i].ClientOrderID != "" ensures Exists(rows', fs[i]) {
      assert fs[i] in NamedOnly(fs);
    }
  }

  /** Why a handler stopped at a fill: its last statement failed, or the fill is new
      and names no order. */
  ghost predicate StoppedBy(fails: Faults, a: nat, b: nat, rows: seq<Fill>, f: Fill) {
    StoppedAt(fails, a, b) || (NoneFailed(fails, a, b) && f.ClientOrderID == "" && !Exists(rows, f))
  }

  /** The executions and the orders' statuses. fails says which of the statements
      issued fail; such a statement writes nothing. */
  class TradeRepo {
    const fails: Faults
    var issued: nat
    var rows: seq<Fill>
    var trades: Trades

    constructor (fails: Faults)
      ensures this.fails == fails && issued == 0 && rows == [] && trades == map[]
    {
      this.fails, issued, rows, trades := fails, 0, [], map[];
    }

    method UpdateTradeStatus(id: string, s: TradeStatus) returns (ok: bool)
      modifies this`trades, this`issued
      ensures ok == (id != "" && !fails(old(issued)))
      ensures issued == old(issued) + if id == "" then 0 else 1
      ensures trades == if ok then Advanced(old(trades), id, s) else old(trades)
    {
      if id == "" {
        return false;
      }
      ok := !fails(issued);
      issued := issued + 1;
      if ok && id in trades && trades[id] !in {Filled, Cancelled, Rejected} {
        trades := trades[id := s];
      }
    }

    method MarkPartialIfPending(id: string) returns (ok: bool)
      modifies this`trades, this`issued
      ensures ok == (id != "" && !fails(old(issued)))
      ensures issued == old(issued) + if id == "" then 0 else 1
      ensures trades == if ok then PartialIfPending(old(trades), id) else old(trades)
    {
      if id == "" {
        return false;
      }
      ok := !fails(issued);
      issued := issued + 1;
      if ok && id in trades && trades[id] == Pending {
        trades := trades[id := PartialFilled];
      }
    }

    method ExecutionExistsByTrade(id: string, trade: int) returns (found: bool, ok: bool)
      modifies this`issued
      ensures ok == !fails(old(issued)) && issued == old(issued) + 1
      ensures found <==> exists i :: 0 <= i < |rows| && rows[i].ClientOrderID == id && rows[i].TradeID == trade
    {
      ok := !fails(issued);
      issued := issued + 1;
      found := exists i :: 0 <= i < |rows| && rows[i].ClientOrderID == id && rows[i].TradeID == trade;
    }

    method ExecutionExists(id: string, ms: int) returns (found: bool, ok: bool)
      modifies this`issued
      ensures ok == !fails(old(issued)) && issued == old(issued) + 1
      ensures found <==> exists i :: 0 <= i < |rows| && rows[i].ClientOrderID == id && rows[i].FilledAtExchangeMs == ms
    {
      ok := !fails(issued);
      issued := issued + 1;
      found := exists i :: 0 <= i < |rows| && rows[i].ClientOrderID == id && rows[i].FilledAtExchangeMs == ms;
    }

    /** Under the two unique indexes; a violation reads as success. */
    method InsertSpotExecution(f: Fill) returns (ok: bool)
      modifies this`rows, this`issued
      ensures ok == (f.ClientOrderID != "" && !fails(old(issued)))
      ensures issued == old(issued) + if f.ClientOrderID == "" then 0 else 1
      ensures rows == if ok then Inserted(old(rows), f) else old(rows)
    {
      if f.ClientOrderID == "" {
        return false;
      }
      ok := !fails(issued);
      issued := issued + 1;
      var violation := exists i :: 0 <= i < |rows| && KeyOf(rows[i]) == KeyOf(f);
      if ok && !violation {
        rows := rows + [f];
      }
    }

    /** The single point through which both fill channels store a fill. */
    method InsertFillIfNew(f: Fill) returns (inserted: bool, ok: bool)
      modifies this`rows, this`issued
      ensures rows == if ok then Absorb(old(rows), f) else old(rows)
      ensures inserted <==> ok && !Exists(old(rows), f)
      ensures inserted ==> f.ClientOrderID != ""
      ensures ok ==> NoneFailed(fails, old(issued), issued)
      ensures !ok ==> StoppedBy(fails, old(issued), issued, rows, f)
    {
      var exist;
      inserted := false;
      if f.TradeID != 0 {
        exist, ok := ExecutionExistsByTrade(f.ClientOrderID, f.TradeID);
      } else {
        exist, ok := ExecutionExists(f.ClientOrderID, f.FilledAtExchangeMs);
      }
      if !ok || exist {
        return;
      }
      StoredExists(rows, f);
      ok := InsertSpotExecution(f);
      inserted := ok;
    }

    /** The hot channel: store the fills, each named by the enclosing order, then
        move the order. It stops at the first statement that fails, or at a new fill
        of an update that names no order, leaving the fills before it stored and the
        status untouched. */
    method HandleOrderUpdate(id: string, exchangeOrderID: string, fs: seq<Fill>, status: Option<OrderStatus>)
      returns (ok: bool, ghost n: nat)
      modifies this
      ensures var named := NamedFills(fs, id, exchangeOrderID);
              && n <= |named| && rows == AbsorbAll(old(rows), named[..n])
              && (n < |named| ==> !ok && StoppedBy(fails, old(issued), issued, rows, named[n]))
      ensures n == |fs| ==>
                if ok || status.None? || id == "" then NoneFailed(fails, old(issued), issued)
                else StoppedAt(fails, old(issued), issued)
      ensures ok ==> n == |fs| && status.Some? && id != ""
      ensures trades == if ok then Advanced(old(trades), id, OrderUpdateToTradeStatus(status.value)) else old(trades)
      ensures ok ==>
                && (status.value.OrderFilled? ==> TakesStatus(old(trades), trades, id, Filled))
                && (status.value.OrderPartialFilled? ==> TakesStatus(old(trades), trades, id, PartialFilled))
                && (status.value.OrderCancelled? ==> TakesStatus(old(trades), trades, id, Cancelled))
                && (status.value.OrderRejected? ==> TakesStatus(old(trades), trades, id, Rejected))
      ensures ok && id in old(trades) && !Closed(old(trades)[id]) ==>
                && (trades[id].Filled? <==> status.value.OrderFilled?)
                && (trades[id].Cancelled? <==> status.value.OrderCancelled?)
                && (trades[id].Rejected? <==> status.value.OrderRejected?)
                && (trades[id].PartialFilled? <==> status.value.OrderPartialFilled?)
    {
      hide Absorb, Exists, StoppedAt, NoneFailed;
      if status.Some? {
        UpdateMeans(trades, id, status.value);
      }
      ghost var named := NamedFills(fs, id, exchangeOrderID);
      n := 0;
      NothingIssued(fails, issued);
      for i := 0 to |fs|
        invariant n == i && rows == AbsorbAll(old(rows), named[..i]) && trades == old(trades)
        invariant NoneFailed(fails, old(issued), issued)
      {
        ghost var before := issued;
        var f := Named(fs[i], id, exchangeOrderID);
        var _, stored := InsertFillIfNew(f);
        FailedAfter(fails, old(issued), before, issued);
        if !stored {
          return false, i;
        }
        assert named[..i + 1][..i] == named[..i] && named[i] == f;
        n := n + 1;
      }
      if status.None? {
        return false, n;
      }
      ghost var before := issued;
      ok := UpdateTradeStatus(id, OrderUpdateToTradeStatus(status.value));
      NothingIssued(fails, before);
      OneIssued(fails, before);
      FailedAfter(fails, old(issued), before, issued);
    }

    /** The fallback channel: store what the hot channel never delivered, and
        unstick an order that turns out to have executed. It stops at the first
        statement that fails, after n handled fills and m status moves. */
    method RecoverFills(fs: seq<Fill>) returns (ok: bool, ghost n: nat, ghost m: nat)
      modifies this
      ensures m <= n <= |fs| && n <= m + 1
      ensures rows == AbsorbAll(old(rows), NamedOnly(fs[..n]))
      ensures trades == Unstuck(old(trades), old(rows), fs[..m])
      ensures ok <==> m == |fs|
      ensures ok ==> RecoversTo(old(rows), rows, old(trades), trades, fs)
      ensures if ok then NoneFailed(fails, old(issued), issued) else StoppedAt(fails, old(issued), issued)
    {
      hide *;
      n, m := 0, 0;
      NothingRecovered(rows, trades);
      NothingIssued(fails, issued);
      for i := 0 to |fs|
        invariant n == m == i && rows == AbsorbAll(old(rows), NamedOnly(fs[..i]))
        invariant trades == Unstuck(old(trades), old(rows), fs[..i])
        invariant NoneFailed(fails, old(issued), issued)
      {
        RecoverStep(old(rows), old(trades), fs, i);
        if fs[i].ClientOrderID != "" {
          ghost var before := issued;
          var inserted, stored := InsertFillIfNew(fs[i]);
          NamedStopped(fails, before, issued, rows, fs[i]);
          FailedAfter(fails, old(issued), before, issued);
          if !stored {
            return false, i, i;
          }
          n := n + 1;
          if inserted {
            before := issued;
            var marked := MarkPartialIfPending(fs[i].ClientOrderID);
            OneIssued(fails, before);
            FailedAfter(fails, old(issued), before, issued);
            if !marked {
              return false, i + 1, i;
            }
          }
          m := m + 1;
        } else {
          n, m := n + 1, m + 1;
        }
      }
      ok := true;
      RecoverMeans(old(rows), old(trades), fs);
      assert fs[..|fs|] == fs;
    }

    method HandleAck(id: string, status: AckStatus) returns (ok: bool)
      modifies this`trades, this`issued
      ensures ok == (AckToTradeStatus(status).None? || (id != "" && !fails(old(issued))))
      ensures trades == match AckToTradeStatus(status)
                        case None => old(trades)
                        case Some(s) => if ok then Advanced(old(trades), id, s) else old(trades)
      ensures ok && status.AckRejected? ==> TakesStatus(old(trades), trades, id, Rejected)
      ensures ok && status.AckExpired? ==> TakesStatus(old(trades), trades, id, Cancelled)
      ensures !ok || (!status.AckRejected? && !status.AckExpired?) ==> trades == old(trades)
      ensures !ok ==> status.AckRejected? || status.AckExpired?
    {
      var s := AckToTradeStatus(status);
      if s.None? {
        return true;
      }
      ok := UpdateTradeStatus(id, s.value);
    }
  }

  lemma NamedStopped(fails: Faults, a: nat, b: nat, rows: seq<Fill>, f: Fill)
    requires f.ClientOrderID != ""
    ensures StoppedBy(fails, a, b, rows, f) ==> StoppedAt(fails, a, b)
  {
  }

  // ---------------------------------------------------------------- statuses only move forward

  /** The same orders, none of which leaves a terminal status or returns to pending. */
  ghost predicate Forward(t: Trades, t': Trades) {
    && t'.Keys == t.Keys
    && forall id | id in t :: (t[id].IsTerminal() ==> t'[id] == t[id]) && (t'[id].Pending? ==> t[id].Pending?)
  }

  lemma AckForward(t: Trades, id: string, status: AckStatus)
    ensures AckToTradeStatus(status).Some? ==> Forward(t, Advanced(t, id, AckToTradeStatus(status).value))
  {
  }

  lemma UpdateForward(t: Trades, id: string, status: OrderStatus)
    ensures Forward(t, Advanced(t, id, OrderUpdateToTradeStatus(status)))
  {
  }

  lemma {:induction false} RecoverForward(t: Trades, rows: seq<Fill>, fs: seq<Fill>)
    ensures Forward(t, Unstuck(t, rows, fs))
    ensures forall id | id in t && !t[id].Pending? :: Unstuck(t, rows, fs)[id] == t[id]
  {
    hide Exists;
    if fs != [] {
      RecoverForward(t, rows, fs[..|fs| - 1]);
    }
  }

  // ---------------------------------------------------------------- replays

  lemma AbsorbLands(rows: seq<Fill>, f: Fill, g: Fill)
    ensures Exists(Absorb(rows, f), f)
    ensures Exists(rows, g) ==> Exists(Absorb(rows, f), g)
  {
    if !Exists(rows, f) {
      StoredExists(rows, f);
      InsertLands(rows, f);
    }
  }

  lemma {:induction false} AllLand(rows: seq<Fill>, fs: seq<Fill>, g: Fill)
    requires Exists(rows, g) || g in fs
    ensures Exists(AbsorbAll(rows, fs), g)
  {
    hide Exists, Absorb;
    if fs != [] {
      var init := fs[..|fs| - 1];
      if Exists(rows, g) || g in init {
        AllLand(rows, init, g);
      } else {
        assert g == fs[|fs| - 1];
      }
      AbsorbLands(AbsorbAll(rows, init), fs[|fs| - 1], g);
    }
  }

  /** Whatever part of what was already handled arrives again, on whichever
      channel and in whatever order, no row is added. */
  lemma {:induction false} ReplayAddsNothing(rows: seq<Fill>, fs: seq<Fill>, again: seq<Fill>)
    requires forall g | g in again :: g in fs
    ensures AbsorbAll(AbsorbAll(rows, fs), again) == AbsorbAll(rows, fs)
  {
    if again != [] {
      var init := again[..|again| - 1];
      forall g | g in init ensures g in fs {
        assert g in again;
      }
      ReplayAddsNothing(rows, fs, init);
      AllLand(rows, fs, again[|again| - 1]);
    }
  }

  // ---------------------------------------------------------------- the loop is one schedule of the steps

  /** One handler alone: check and insert, n times over. */
  function Alone(d: nat, n: nat): seq<Step> {
    if n == 0 then [] else Alone(d, n - 1) + [Check(d)] + [Insert(d)]
  }

  lemma ExecFromSnoc(s: Sys, steps: seq<Step>, step: Step)
    ensures ExecFrom(s, steps + [step]) == Apply(ExecFrom(s, steps), step)
  {
  }

  /** The system with other rows and another rest at delivery d. */
  function At(s: Sys, d: nat, rows: seq<Fill>, rest: seq<Fill>): (t: Sys)
    requires d < |s.deliveries|
    ensures |t.deliveries| == |s.deliveries|
  {
    s.(rows := rows, deliveries := s.deliveries[d := s.deliveries[d].(rest := rest)])
  }

  lemma AtAt(s: Sys, d: nat, rows: seq<Fill>, rest: seq<Fill>, rows': seq<Fill>, rest': seq<Fill>)
    requires d < |s.deliveries|
    ensures At(At(s, d, rows, rest), d, rows', rest') == At(s, d, rows', rest')
    ensures At(s, d, rows, rest).rows == rows && At(s, d, rows, rest).deliveries[d] == s.deliveries[d].(rest := rest)
    ensures At(s, d, s.rows, s.deliveries[d].rest) == s
  {
  }

  lemma OneFillAlone(s: Sys, d: nat)
    requires d < |s.deliveries| && !s.deliveries[d].checked && s.deliveries[d].rest != []
    requires s.deliveries[d].rest[0].ClientOrderID != ""
    ensures Apply(Apply(s, Check(d)), Insert(d)) ==
            At(s, d, Absorb(s.rows, s.deliveries[d].rest[0]), s.deliveries[d].rest[1..])
  {
  }

  /** Scheduled without interruption, a handler of the step system leaves
      exactly the rows the handler's loop leaves. */
  lemma {:induction false} LoopIsASchedule(s: Sys, d: nat, n: nat)
    requires d < |s.deliveries| && !s.deliveries[d].checked && n <= |s.deliveries[d].rest|
    requires forall i | 0 <= i < n :: s.deliveries[d].rest[i].ClientOrderID != ""
    ensures ExecFrom(s, Alone(d, n)) ==
            At(s, d, AbsorbAll(s.rows, s.deliveries[d].rest[..n]), s.deliveries[d].rest[n..])
  {
    hide At, Absorb, Apply, AbsorbAll, ExecFrom;
    var rest := s.deliveries[d].rest;
    if n == 0 {
      NothingAlone(s, rest);
      AtAt(s, d, s.rows, rest, s.rows, rest);
    } else {
      var before := AbsorbAll(s.rows, rest[..n - 1]);
      LoopIsASchedule(s, d, n - 1);
      AtAt(s, d, before, rest[n - 1..], Absorb(before, rest[n - 1]), rest[n..]);
      SliceStep(s.rows, rest, n);
      OneFillAlone(At(s, d, before, rest[n - 1..]), d);
      ExecFromSnoc(s, Alone(d, n - 1), Check(d));
      ExecFromSnoc(s, Alone(d, n - 1) + [Check(d)], Insert(d));
    }
  }

  lemma NothingAlone(s: Sys, rest: seq<Fill>)
    ensures ExecFrom(s, []) == s && AbsorbAll(s.rows, rest[..0]) == s.rows && rest[0..] == rest
  {
  }

  lemma SliceStep(rows: seq<Fill>, rest: seq<Fill>, n: nat)
    requires 1 <= n <= |rest|
    ensures rest[n - 1..][0] == rest[n - 1] && rest[n - 1..][1..] == rest[n..]
    ensures AbsorbAll(rows, rest[..n]) == Absorb(AbsorbAll(rows, rest[..n - 1]), rest[n - 1])
  {
    hide Absorb;
    assert rest[..n][..n - 1] == rest[..n - 1];
  }
}
