/** Exactly-once fills: the agent's two redundant fill channels and the server's
    check-then-insert handlers, as a system of atomic steps.

    Fills may be observed again and again; frames may be lost, duplicated,
    reordered and delayed; reports may fail to send and are requeued; and any
    number of handlers interleave between their existence check and insert. */
module FillLedger {
  import opened Common
  import opened Wire

  /** The identity under which a fill is stored at most once. */
  datatype Key = ByTrade(order: string, trade: int) | ByMs(order: string, ms: int)

  function KeyOf(f: Fill): Key {
    if f.TradeID != 0 then ByTrade(f.ClientOrderID, f.TradeID)
    else ByMs(f.ClientOrderID, f.FilledAtExchangeMs)
  }

  /** Two fills are the same one when they are of one order and agree in a trade id,
      or have none and agree in the millisecond. */
  lemma SameKeyMeans(f: Fill, g: Fill)
    ensures KeyOf(f) == KeyOf(g) <==>
            && f.ClientOrderID == g.ClientOrderID
            && (if f.TradeID != 0 then f.TradeID == g.TradeID
                else g.TradeID == 0 && f.FilledAtExchangeMs == g.FilledAtExchangeMs)
  {
  }

  /** The existence check: by trade id when the fill has one, otherwise by order
      and millisecond, against rows of either kind. */
  predicate Exists(rows: seq<Fill>, f: Fill) {
    if f.TradeID != 0 then
      exists i :: 0 <= i < |rows| && rows[i].ClientOrderID == f.ClientOrderID && rows[i].TradeID == f.TradeID
    else
      exists i :: 0 <= i < |rows| && rows[i].ClientOrderID == f.ClientOrderID
                  && rows[i].FilledAtExchangeMs == f.FilledAtExchangeMs
  }

  /** The two partial unique indexes of the table. */
  predicate Stored(rows: seq<Fill>, k: Key) {
    exists i :: 0 <= i < |rows| && KeyOf(rows[i]) == k
  }

  /** An insert; a unique violation is translated to nothing. */
  function Inserted(rows: seq<Fill>, f: Fill): seq<Fill> {
    if Stored(rows, KeyOf(f)) then rows else rows + [f]
  }

  ghost predicate UniqueKeys(rows: seq<Fill>) {
    forall i, j | 0 <= i < j < |rows| :: KeyOf(rows[i]) != KeyOf(rows[j])
  }

  /** A frame on its way to, or inside, a server handler: the fills it still has
      to process, and whether it stands between the check and the insert of the
      first. A carrier is the first copy of a delta report. */
  datatype Delivery = Delivery(frame: seq<Fill>, rest: seq<Fill>, checked: bool, isReport: bool, carrier: bool)

  /** Each fill is named by its order. drains are the reports drained but not yet
      sent or requeued; the loop of a closed session may still hold one when the
      next session drains. observed and lost are history: every fill the agent
      has seen, and every fill dropped with a crash or a carrier. */
  datatype Sys = Sys(
    observed: set<Fill>,
    buffer: seq<Fill>,
    drains: seq<seq<Fill>>,
    deliveries: seq<Delivery>,
    rows: seq<Fill>,
    lost: set<Fill>)

  datatype Step =
    | Observe(fs: seq<Fill>, sent: bool)
    | Drain
    | SendOk(k: nat)
    | SendFail(k: nat, arrived: bool)
    | Crash
    | Duplicate(d: nat)
    | Check(d: nat)
    | Insert(d: nat)
    | Fail(d: nat)

  function Initial(): Sys {
    Sys({}, [], [], [], [], {})
  }

  function AsSet(fs: seq<Fill>): set<Fill> {
    set f | f in fs
  }

  function Drained(drains: seq<seq<Fill>>): set<Fill> {
    set d, f | d in drains && f in d :: f
  }

  function Without(drains: seq<seq<Fill>>, k: nat): seq<seq<Fill>>
    requires k < |drains|
  {
    drains[..k] + drains[k + 1..]
  }

  function Update(fs: seq<Fill>): Delivery {
    Delivery(fs, fs, false, false, false)
  }

  function Report(fs: seq<Fill>, carrier: bool): Delivery {
    Delivery(fs, fs, false, true, carrier)
  }

  /** The agent observes fills and sends what it buffered. A failed send may
      have reached the server all the same. */
  function AgentStep(s: Sys, step: Step): Sys {
    match step
    case Observe(fs, sent) =>
      s.(observed := s.observed + AsSet(fs), buffer := s.buffer + fs,
         deliveries := if sent then s.deliveries + [Update(fs)] else s.deliveries)
    case Drain =>
      s.(drains := s.drains + [s.buffer], buffer := [])
    case SendOk(k) =>
      if k >= |s.drains| then s
      else s.(deliveries := s.deliveries + [Report(s.drains[k], true)], drains := Without(s.drains, k))
    case SendFail(k, arrived) =>
      if k >= |s.drains| then s
      else s.(buffer := s.drains[k] + s.buffer, drains := Without(s.drains, k),
              deliveries := if arrived then s.deliveries + [Report(s.drains[k], false)] else s.deliveries)
    case Crash =>
      s.(lost := s.lost + AsSet(s.buffer) + Drained(s.drains), buffer := [], drains := [])
    case _ => s
  }

  /** The next move of one handler on its first remaining fill. */
  function Checked(rows: seq<Fill>, d: Delivery): Delivery {
    if d.checked || d.rest == [] then d
    else if d.isReport && d.rest[0].ClientOrderID == "" then d.(rest := d.rest[1..])
    else if Exists(rows, d.rest[0]) then d.(rest := d.rest[1..])
    else d.(checked := true)
  }

  /** A fill that names no order cannot be inserted: the handler returns. */
  function AfterInsert(d: Delivery): Delivery {
    if !d.checked || d.rest == [] then d
    else if d.rest[0].ClientOrderID == "" then d.(rest := [], checked := false)
    else d.(rest := d.rest[1..], checked := false)
  }

  function RowsAfterInsert(rows: seq<Fill>, d: Delivery): seq<Fill> {
    if d.checked && d.rest != [] && d.rest[0].ClientOrderID != "" then Inserted(rows, d.rest[0]) else rows
  }

  /** The network copies a frame; the server checks or inserts one fill, or
      drops the rest of a frame with an error. */
  function ServerStep(s: Sys, step: Step): Sys {
    match step
    case Duplicate(d) =>
      if d >= |s.deliveries| then s
      else
        var copied := s.deliveries[d];
        s.(deliveries := s.deliveries + [Delivery(copied.frame, copied.frame, false, copied.isReport, false)])
    case Check(d) =>
      if d >= |s.deliveries| then s
      else s.(deliveries := s.deliveries[d := Checked(s.rows, s.deliveries[d])])
    case Insert(d) =>
      if d >= |s.deliveries| then s
      else s.(deliveries := s.deliveries[d := AfterInsert(s.deliveries[d])],
              rows := RowsAfterInsert(s.rows, s.deliveries[d]))
    case Fail(d) =>
      if d >= |s.deliveries| then s
      else s.(deliveries := s.deliveries[d := s.deliveries[d].(rest := [], checked := false)],
              lost := if s.deliveries[d].carrier then s.lost + AsSet(s.deliveries[d].rest) else s.lost)
    case _ => s
  }

  /** One atomic step; a step that cannot happen leaves the system alone. */
  function Apply(s: Sys, step: Step): Sys {
    if step.Observe? || step.Drain? || step.SendOk? || step.SendFail? || step.Crash? then AgentStep(s, step)
    else ServerStep(s, step)
  }

  function ExecFrom(s: Sys, steps: seq<Step>): Sys {
    if steps == [] then s else Apply(ExecFrom(s, steps[..|steps| - 1]), steps[|steps| - 1])
  }

  function Exec(steps: seq<Step>): Sys {
    ExecFrom(Initial(), steps)
  }

  // ---------------------------------------------------------------- safety

  ghost predicate Within(fs: seq<Fill>, obs: set<Fill>) {
    forall i | 0 <= i < |fs| :: fs[i] in obs
  }

  ghost predicate DeliverySound(d: Delivery, obs: set<Fill>) {
    Within(d.frame, obs) && Within(d.rest, obs)
  }

  ghost predicate DeliveriesSound(ds: seq<Delivery>, obs: set<Fill>) {
    forall d | 0 <= d < |ds| :: DeliverySound(ds[d], obs)
  }

  ghost predicate AllNamed(rows: seq<Fill>) {
    forall i | 0 <= i < |rows| :: rows[i].ClientOrderID != ""
  }

  /** Whatever is in flight or stored has been observed, and no key is stored twice. */
  ghost predicate Sound(s: Sys) {
    && Within(s.buffer, s.observed)
    && Drained(s.drains) <= s.observed
    && DeliveriesSound(s.deliveries, s.observed)
    && Within(s.rows, s.observed)
    && UniqueKeys(s.rows) && AllNamed(s.rows)
  }

  lemma DrainedSplit(drains: seq<seq<Fill>>, k: nat)
    requires k < |drains|
    ensures Drained(drains) == Drained(Without(drains, k)) + AsSet(drains[k])
  {
    forall f | f in Drained(drains) ensures f in Drained(Without(drains, k)) + AsSet(drains[k]) {
      var i :| 0 <= i < |drains| && f in drains[i];
      if i != k {
        assert Without(drains, k)[if i < k then i else i - 1] == drains[i];
      }
    }
  }

  lemma DrainedMore(drains: seq<seq<Fill>>, d: seq<Fill>)
    ensures Drained(drains + [d]) == Drained(drains) + AsSet(d)
  {
    assert (drains + [d])[|drains|] == d;
  }

  lemma AgentSound(s: Sys, step: Step)
    requires Sound(s)
    ensures Sound(AgentStep(s, step))
  {
    hide Drained, Without, KeyOf, UniqueKeys, AllNamed;
    assert Drained([]) == {} by { NothingDrained(); }
    if step.Drain? {
      DrainedMore(s.drains, s.buffer);
    } else if (step.SendOk? || step.SendFail?) && step.k < |s.drains| {
      DrainedSplit(s.drains, step.k);
    }
  }

  lemma NothingDrained()
    ensures Drained([]) == {}
  {
  }

  lemma InsertSound(rows: seq<Fill>, d: Delivery, obs: set<Fill>)
    requires UniqueKeys(rows) && AllNamed(rows) && Within(rows, obs) && DeliverySound(d, obs)
    ensures var rows' := RowsAfterInsert(rows, d);
            UniqueKeys(rows') && AllNamed(rows') && Within(rows', obs)
  {
  }

  lemma ServerSound(s: Sys, step: Step)
    requires Sound(s)
    ensures Sound(ServerStep(s, step))
  {
    hide KeyOf, UniqueKeys, AllNamed, RowsAfterInsert, Exists;
    if step.Insert? && step.d < |s.deliveries| {
      InsertSound(s.rows, s.deliveries[step.d], s.observed);
    }
  }

  /** On every run each stored row is a fill the agent observed, and no key has
      two rows, whatever happens between check and insert. */
  lemma {:induction false} AtMostOneRowPerFill(steps: seq<Step>)
    ensures Sound(Exec(steps))
  {
    if steps != [] {
      AtMostOneRowPerFill(steps[..|steps| - 1]);
      AgentSound(Exec(steps[..|steps| - 1]), steps[|steps| - 1]);
      ServerSound(Exec(steps[..|steps| - 1]), steps[|steps| - 1]);
    }
  }

  // ---------------------------------------------------------------- conservation

  ghost predicate Carried(ds: seq<Delivery>, f: Fill) {
    exists d :: 0 <= d < |ds| && ds[d].carrier && f in ds[d].rest
  }

  /** Where an observed fill may be. */
  ghost predicate Accounted(s: Sys, f: Fill) {
    Exists(s.rows, f) || f in s.buffer || f in Drained(s.drains) || Carried(s.deliveries, f) || f in s.lost
  }

  ghost predicate Conserved(s: Sys) {
    forall f | f in s.observed && f.ClientOrderID != "" :: Accounted(s, f)
  }

  lemma InsertLands(rows: seq<Fill>, f: Fill)
    ensures Exists(Inserted(rows, f), f)
    ensures forall g :: Exists(rows, g) ==> Exists(Inserted(rows, f), g)
  {
    if Stored(rows, KeyOf(f)) {
      var i :| 0 <= i < |rows| && KeyOf(rows[i]) == KeyOf(f);
      assert rows[i].ClientOrderID == f.ClientOrderID;
    } else {
      assert (rows + [f])[|rows|] == f;
      forall g | Exists(rows, g) ensures Exists(rows + [f], g) {
        var i :| 0 <= i < |rows| && rows[i].ClientOrderID == g.ClientOrderID
                 && (if g.TradeID != 0 then rows[i].TradeID == g.TradeID
                     else rows[i].FilledAtExchangeMs == g.FilledAtExchangeMs);
        assert (rows + [f])[i] == rows[i];
      }
    }
  }

  lemma CarriedOn(ds: seq<Delivery>, e: Delivery, f: Fill)
    ensures Carried(ds, f) ==> Carried(ds + [e], f)
    ensures e.carrier && f in e.rest ==> Carried(ds + [e], f)
  {
    if Carried(ds, f) {
      var d :| 0 <= d < |ds| && ds[d].carrier && f in ds[d].rest;
      assert (ds + [e])[d] == ds[d];
    }
    assert (ds + [e])[|ds|] == e;
  }

  /** Replacing a delivery drops at most what left its rest. */
  lemma CarriedBut(ds: seq<Delivery>, d: nat, e: Delivery, f: Fill)
    requires d < |ds| && Carried(ds, f) && e.carrier == ds[d].carrier
    ensures Carried(ds[d := e], f) || (ds[d].carrier && f in ds[d].rest && f !in e.rest)
  {
    var k :| 0 <= k < |ds| && ds[k].carrier && f in ds[k].rest;
    assert ds[d := e][k] == if k == d then e else ds[k];
  }

  lemma AgentAccounts(s: Sys, step: Step, f: Fill)
    requires Accounted(s, f) || (step.Observe? && f in step.fs)
    ensures Accounted(AgentStep(s, step), f)
  {
    hide Exists, Carried, Drained, Without;
    if step.Observe? {
      CarriedOn(s.deliveries, Update(step.fs), f);
    } else if step.Drain? {
      DrainedMore(s.drains, s.buffer);
    } else if step.SendOk? && step.k < |s.drains| {
      DrainedSplit(s.drains, step.k);
      CarriedOn(s.deliveries, Report(s.drains[step.k], true), f);
    } else if step.SendFail? && step.k < |s.drains| {
      DrainedSplit(s.drains, step.k);
      CarriedOn(s.deliveries, Report(s.drains[step.k], false), f);
    }
  }

  lemma ServerAccounts(s: Sys, step: Step, f: Fill)
    requires Accounted(s, f) && f.ClientOrderID != ""
    requires DeliveriesReady(s.deliveries)
    ensures Accounted(ServerStep(s, step), f)
  {
    hide Exists, Carried, Inserted;
    var ds := s.deliveries;
    if step.Duplicate? && step.d < |ds| {
      CarriedOn(ds, Delivery(ds[step.d].frame, ds[step.d].frame, false, ds[step.d].isReport, false), f);
    } else if step.Check? && step.d < |ds| && Carried(ds, f) {
      CarriedBut(ds, step.d, Checked(s.rows, ds[step.d]), f);
    } else if step.Insert? && step.d < |ds| {
      if ds[step.d].rest != [] {
        InsertLands(s.rows, ds[step.d].rest[0]);
      }
      if Carried(ds, f) {
        CarriedBut(ds, step.d, AfterInsert(ds[step.d]), f);
      }
    } else if step.Fail? && step.d < |ds| && Carried(ds, f) {
      CarriedBut(ds, step.d, ds[step.d].(rest := [], checked := false), f);
    }
  }

  /** A report handler never stands at the insert of a fill that names no order. */
  ghost predicate DeliveriesReady(ds: seq<Delivery>) {
    forall d | 0 <= d < |ds| ::
      && (ds[d].carrier ==> ds[d].isReport)
      && (ds[d].checked && ds[d].isReport ==> ds[d].rest != [] && ds[d].rest[0].ClientOrderID != "")
  }

  lemma StepReady(s: Sys, step: Step)
    requires DeliveriesReady(s.deliveries)
    ensures DeliveriesReady(Apply(s, step).deliveries)
  {
  }

  /** On every run every observed fill that names an order is stored, still to
      be sent, inside the first copy of a report, or was dropped. */
  lemma {:induction false} NothingVanishes(steps: seq<Step>)
    ensures Conserved(Exec(steps)) && DeliveriesReady(Exec(steps).deliveries)
  {
    if steps != [] {
      var s, step := Exec(steps[..|steps| - 1]), steps[|steps| - 1];
      NothingVanishes(steps[..|steps| - 1]);
      StepReady(s, step);
      forall f | f in Apply(s, step).observed && f.ClientOrderID != "" ensures Accounted(Apply(s, step), f) {
        if step.Observe? || step.Drain? || step.SendOk? || step.SendFail? || step.Crash? {
          AgentAccounts(s, step, f);
        } else {
          ServerAccounts(s, step, f);
        }
      }
    }
  }

  // ---------------------------------------------------------------- exactly once

  /** Nothing is buffered, and every first copy of a report has been handled. */
  ghost predicate Quiet(s: Sys) {
    && s.buffer == [] && s.drains == []
    && forall d | 0 <= d < |s.deliveries| && s.deliveries[d].carrier :: s.deliveries[d].rest == []
  }

  /** A row with a trade id answers the millisecond check of a fill without one. */
  predicate Masks(row: Fill, f: Fill) {
    && row.TradeID != 0 && f.TradeID == 0
    && row.ClientOrderID == f.ClientOrderID && row.FilledAtExchangeMs == f.FilledAtExchangeMs
  }

  ghost predicate Masked(rows: seq<Fill>, f: Fill) {
    exists i :: 0 <= i < |rows| && Masks(rows[i], f)
  }

  /** No order mixes fills with and without a trade id in one millisecond. */
  ghost predicate Unmixed(obs: set<Fill>) {
    forall f, g | f in obs && g in obs && f.ClientOrderID != "" :: !Masks(f, g)
  }

  ghost function RowKeys(rows: seq<Fill>): set<Key> {
    set i | 0 <= i < |rows| :: KeyOf(rows[i])
  }

  ghost function NamedKeys(obs: set<Fill>): set<Key> {
    set f | f in obs && f.ClientOrderID != "" :: KeyOf(f)
  }

  lemma ExistsStoredOrMasked(rows: seq<Fill>, f: Fill)
    ensures Exists(rows, f) <==> Stored(rows, KeyOf(f)) || Masked(rows, f)
  {
  }

  /** Once everything sent is handled, an observed fill without a row was either
      dropped on the way or masked by a stored fill of the same millisecond. */
  lemma MissingIsExplained(steps: seq<Step>, f: Fill)
    requires Quiet(Exec(steps)) && f in Exec(steps).observed && f.ClientOrderID != ""
    ensures var s := Exec(steps); Stored(s.rows, KeyOf(f)) || Masked(s.rows, f) || f in s.lost
  {
    NothingVanishes(steps);
    var s := Exec(steps);
    assert Accounted(s, f);
    ExistsStoredOrMasked(s.rows, f);
  }

  /** With nothing dropped and no mixed millisecond, the stored keys are exactly
      the observed ones, each stored once. */
  lemma ExactlyOnce(steps: seq<Step>)
    requires var s := Exec(steps); Quiet(s) && s.lost == {} && Unmixed(s.observed)
    ensures var s := Exec(steps); UniqueKeys(s.rows) && RowKeys(s.rows) == NamedKeys(s.observed)
  {
    AtMostOneRowPerFill(steps);
    var s := Exec(steps);
    forall f | f in s.observed && f.ClientOrderID != "" ensures KeyOf(f) in RowKeys(s.rows) {
      MissingIsExplained(steps, f);
      assert !Masked(s.rows, f);
    }
  }

  /** Two fills of one sweep, the second without a trade id: the first report
      stores the first and skips the second. */
  function MaskingRun(f: Fill, g: Fill): seq<Step> {
    [Observe([f, g], false), Drain, SendOk(0), Check(0), Insert(0), Check(0)]
  }

  lemma ExecSnoc(steps: seq<Step>, step: Step)
    ensures Exec(steps + [step]) == Apply(Exec(steps), step)
  {
  }

  function MaskingState(f: Fill, g: Fill, ds: seq<Delivery>, rows: seq<Fill>): Sys {
    Sys({f, g}, [], [], ds, rows, {})
  }

  lemma SentState(f: Fill, g: Fill)
    ensures Apply(Apply(Apply(Initial(), Observe([f, g], false)), Drain), SendOk(0)) ==
            MaskingState(f, g, [Report([f, g], true)], [])
  {
    assert AsSet([f, g]) == {f, g} && [] + [f, g] == [f, g];
  }

  lemma HandledState(f: Fill, g: Fill)
    requires Masks(f, g) && f.ClientOrderID != ""
    ensures var fs := [f, g];
            && Apply(MaskingState(f, g, [Report(fs, true)], []), Check(0)) ==
               MaskingState(f, g, [Delivery(fs, fs, true, true, true)], [])
            && Apply(MaskingState(f, g, [Delivery(fs, fs, true, true, true)], []), Insert(0)) ==
               MaskingState(f, g, [Delivery(fs, [g], false, true, true)], [f])
            && Apply(MaskingState(f, g, [Delivery(fs, [g], false, true, true)], [f]), Check(0)) ==
               MaskingState(f, g, [Delivery(fs, [], false, true, true)], [f])
  {
    assert [f, g][1..] == [g] && [g][1..] == [] && [f][0] == f;
  }

  lemma QuietAtEnd(f: Fill, g: Fill)
    ensures var s := MaskingState(f, g, [Delivery([f, g], [], false, true, true)], [f]);
            Quiet(s) && s.lost == {} && s.observed == {f, g} && s.rows == [f]
  {
  }

  lemma MaskingLosesFill(f: Fill, g: Fill)
    requires Masks(f, g) && f.ClientOrderID != ""
    ensures Exec(MaskingRun(f, g)) == MaskingState(f, g, [Delivery([f, g], [], false, true, true)], [f])
    ensures var s := Exec(MaskingRun(f, g));
            Quiet(s) && s.lost == {} && s.observed == {f, g} && s.rows == [f]
  {
    SentState(f, g);
    HandledState(f, g);
    var p := [] + [Observe([f, g], false)] + [Drain] + [SendOk(0)];
    assert MaskingRun(f, g) == p + [Check(0)] + [Insert(0)] + [Check(0)];
    assert Exec([]) == Initial();
    hide *;
    QuietAtEnd(f, g);
    ExecSnoc([], Observe([f, g], false));
    ExecSnoc([] + [Observe([f, g], false)], Drain);
    ExecSnoc([] + [Observe([f, g], false)] + [Drain], SendOk(0));
    ExecSnoc(p, Check(0));
    ExecSnoc(p + [Check(0)], Insert(0));
    ExecSnoc(p + [Check(0)] + [Insert(0)], Check(0));
  }

  /** Over fills drawn from obs, every quiet run without loss stores exactly the
      observed keys if and only if obs mixes no millisecond. */
  lemma UnmixedDecides(obs: set<Fill>)
    ensures (forall steps: seq<Step> | var s := Exec(steps); s.observed <= obs && Quiet(s) && s.lost == {} ::
               RowKeys(Exec(steps).rows) == NamedKeys(Exec(steps).observed))
            <==> Unmixed(obs)
  {
    if Unmixed(obs) {
      forall steps: seq<Step> | var s := Exec(steps); s.observed <= obs && Quiet(s) && s.lost == {}
        ensures RowKeys(Exec(steps).rows) == NamedKeys(Exec(steps).observed)
      {
        ExactlyOnce(steps);
      }
    } else {
      var f, g :| f in obs && g in obs && f.ClientOrderID != "" && Masks(f, g);
      MaskingLosesFill(f, g);
      var s := Exec(MaskingRun(f, g));
      assert KeyOf(g) in NamedKeys(s.observed);
      assert KeyOf(g) !in RowKeys(s.rows);
    }
  }

  // ---------------------------------------------------------------- quantities

  function FilledQuantity(rows: seq<Fill>, order: string): real {
    if rows == [] then 0.0
    else
      var last := rows[|rows| - 1];
      FilledQuantity(rows[..|rows| - 1], order) + if last.ClientOrderID == order then last.Quantity else 0.0
  }

  lemma {:induction false} QuantityAppend(xs: seq<Fill>, ys: seq<Fill>, order: string)
    ensures FilledQuantity(xs + ys, order) == FilledQuantity(xs, order) + FilledQuantity(ys, order)
  {
    if ys == [] {
      assert xs + ys == xs;
    } else {
      QuantityAppend(xs, ys[..|ys| - 1], order);
      assert (xs + ys)[..|xs + ys| - 1] == xs + ys[..|ys| - 1];
    }
  }

  lemma RemoveOne(rows: seq<Fill>, k: nat, order: string)
    requires k < |rows|
    ensures FilledQuantity(rows, order) ==
            FilledQuantity(rows[..k] + rows[k + 1..], order)
            + if rows[k].ClientOrderID == order then rows[k].Quantity else 0.0
  {
    assert rows == rows[..k] + [rows[k]] + rows[k + 1..] && [rows[k]][..0] == [];
    assert FilledQuantity([rows[k]], order) == if rows[k].ClientOrderID == order then rows[k].Quantity else 0.0;
    hide FilledQuantity;
    QuantityAppend(rows[..k] + [rows[k]], rows[k + 1..], order);
    QuantityAppend(rows[..k], [rows[k]], order);
    QuantityAppend(rows[..k], rows[k + 1..], order);
  }

  ghost predicate OneQuantityPerKey(xs: seq<Fill>, ys: seq<Fill>) {
    forall i, j | 0 <= i < |xs| && 0 <= j < |ys| && KeyOf(xs[i]) == KeyOf(ys[j]) :: xs[i].Quantity == ys[j].Quantity
  }

  lemma HasKey(rows: seq<Fill>)
    requires rows != []
    ensures RowKeys(rows) != {}
  {
    assert KeyOf(rows[0]) in RowKeys(rows);
  }

  lemma {:induction false} SameKeysSameQuantity(xs: seq<Fill>, ys: seq<Fill>, order: string)
    requires UniqueKeys(xs) && UniqueKeys(ys) && RowKeys(xs) == RowKeys(ys) && OneQuantityPerKey(xs, ys)
    ensures FilledQuantity(xs, order) == FilledQuantity(ys, order)
  {
    if xs == [] {
      if ys != [] {
        HasKey(ys);
        assert false;
      }
    } else {
      var n := |xs| - 1;
      assert KeyOf(xs[n]) in RowKeys(ys);
      var k :| 0 <= k < |ys| && KeyOf(ys[k]) == KeyOf(xs[n]);
      var without := ys[..k] + ys[k + 1..];
      RemoveOne(ys, k, order);
      KeysWithout(xs, n);
      KeysWithout(ys, k);
      assert xs[..n] + xs[n + 1..] == xs[..n];
      assert OneQuantityPerKey(xs[..n], without) by { SubQuantities(xs, ys, n, k); }
      SameKeysSameQuantity(xs[..n], without, order);
    }
  }

  lemma SubQuantities(xs: seq<Fill>, ys: seq<Fill>, n: nat, k: nat)
    requires OneQuantityPerKey(xs, ys) && n < |xs| && k < |ys|
    ensures OneQuantityPerKey(xs[..n], ys[..k] + ys[k + 1..])
  {
  }

  lemma KeysWithout(rows: seq<Fill>, k: nat)
    requires UniqueKeys(rows) && k < |rows|
    ensures var without := rows[..k] + rows[k + 1..];
            UniqueKeys(without) && RowKeys(without) == RowKeys(rows) - {KeyOf(rows[k])}
  {
    hide KeyOf;
    var without := rows[..k] + rows[k + 1..];
    forall j | 0 <= j < |without|
      ensures without[j] == rows[if j < k then j else j + 1] && KeyOf(without[j]) != KeyOf(rows[k])
    {
    }
    forall i | 0 <= i < |rows| && i != k ensures KeyOf(rows[i]) in RowKeys(without) {
      assert rows[i] == without[if i < k then i else i - 1];
    }
  }

  /** After a quiet run without loss the stored quantity of every order is the
      sum over its distinct observed fills, however they are listed. */
  lemma QuantityIsRight(steps: seq<Step>, distinct: seq<Fill>, order: string)
    requires var s := Exec(steps);
             && Quiet(s) && s.lost == {} && Unmixed(s.observed)
             && UniqueKeys(distinct) && RowKeys(distinct) == NamedKeys(s.observed)
             && (forall f, g | f in s.observed && g in distinct && KeyOf(f) == KeyOf(g) :: f.Quantity == g.Quantity)
    ensures FilledQuantity(Exec(steps).rows, order) == FilledQuantity(distinct, order)
  {
    ExactlyOnce(steps);
    AtMostOneRowPerFill(steps);
    SameKeysSameQuantity(Exec(steps).rows, distinct, order);
  }
}
