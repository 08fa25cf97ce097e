/** The durable kill latch: audit rows on the server, lookups at every
    handshake, best-effort pushes on the live connection, and the flag in the
    agent's memory.

    Kill and resume calls for the account do not overlap; everything else
    interleaves, and connections, sessions and the agent's memory come and go. */
module KillLatch {
  import opened Common

  datatype Row = Kill | Resume

  /** The account is frozen exactly when its latest row is a kill. */
  predicate Latched(rows: seq<Row>) {
    rows != [] && rows[|rows| - 1].Kill?
  }

  datatype Stage = Dialed | Looked | Registered | ReadyStage | Closed(looked: bool)

  /** A server-side connection. asOf counts the rows its frozen lookup saw, lookedOk
      says whether that lookup worked, frozen is what auth_ok carries, and pushed
      lists, for every kill_switch frame in its outbox, how many rows existed when
      it was written. */
  datatype Conn = Conn(stage: Stage, asOf: nat, lookedOk: bool, frozen: bool, pushed: seq<nat>) {
    predicate HasLooked() {
      !stage.Dialed? && (stage.Closed? ==> stage.looked)
    }
  }

  datatype Session = NoSession | Handshaking(conn: nat) | Up(conn: nat, read: nat)

  /** A command past the frozen check: the connection it came on, and how many
      rows the flag reflected. */
  datatype Passed = Passed(conn: nat, reflected: nat)

  /** reflected and passed are history: how many rows the agent's flag was last
      set from, and every command that found the flag clear. */
  datatype Sys = Sys(
    rows: seq<Row>,
    pushing: bool,
    conns: seq<Conn>,
    registered: Option<nat>,
    session: Session,
    frozen: bool,
    reflected: nat,
    passed: seq<Passed>)

  datatype Step =
    | Write(row: Row)
    | Push(sent: bool)
    | Dial
    | Lookup(c: nat, ok: bool)
    | Register(c: nat)
    | BecomeReady(c: nat)
    | Close(c: nat)
    | ReadAuthOk
    | ReadPush
    | Command
    | Disconnect
    | Restart

  function Initial(): Sys {
    Sys([], false, [], None, NoSession, false, 0, [])
  }

  function Closing(c: Conn): Conn {
    c.(stage := Closed(c.HasLooked()))
  }

  /** The admin path: one row, then one best-effort push to the registered
      connection, if it is ready. */
  function AdminStep(s: Sys, step: Step): Sys {
    match step
    case Write(row) => if s.pushing then s else s.(rows := s.rows + [row], pushing := true)
    case Push(sent) =>
      if !s.pushing then s
      else if && s.registered.Some? && s.registered.value < |s.conns|
              && s.conns[s.registered.value].stage.ReadyStage? && sent then
        var c := s.registered.value;
        s.(pushing := false, conns := s.conns[c := s.conns[c].(pushed := s.conns[c].pushed + [|s.rows|])])
      else s.(pushing := false)
    case _ => s
  }

  /** The server's side of a connection. */
  function ConnStep(s: Sys, step: Step): Sys {
    match step
    case Lookup(c, ok) =>
      if c < |s.conns| && s.conns[c].stage.Dialed?
      then s.(conns := s.conns[c := Conn(Looked, |s.rows|, ok, !ok || Latched(s.rows), [])]) else s
    case Register(c) =>
      if !(c < |s.conns| && s.conns[c].stage.Looked?) then s
      else
        var closed := if s.registered.Some? && s.registered.value < |s.conns|
                      then s.conns[s.registered.value := Closing(s.conns[s.registered.value])] else s.conns;
        s.(registered := Some(c), conns := closed[c := s.conns[c].(stage := Registered)])
    case BecomeReady(c) =>
      if c < |s.conns| && s.conns[c].stage.Registered?
      then s.(conns := s.conns[c := s.conns[c].(stage := ReadyStage)]) else s
    case Close(c) =>
      if c >= |s.conns| then s
      else s.(conns := s.conns[c := Closing(s.conns[c])],
              registered := if s.registered == Some(c) then None else s.registered)
    case _ => s
  }

  /** The agent: one session at a time; auth_ok and kill_switch frames set the
      flag, a restart loses it, a command passes when it is clear. */
  function AgentStep(s: Sys, step: Step): Sys {
    match step
    case Dial =>
      if !s.session.NoSession? then s
      else s.(session := Handshaking(|s.conns|), conns := s.conns + [Conn(Dialed, 0, false, false, [])])
    case ReadAuthOk =>
      if s.session.Handshaking? && s.session.conn < |s.conns| && s.conns[s.session.conn].HasLooked() then
        var c := s.conns[s.session.conn];
        s.(session := Up(s.session.conn, 0), frozen := c.frozen, reflected := c.asOf)
      else s
    case ReadPush =>
      if s.session.Up? && s.session.conn < |s.conns| && s.session.read < |s.conns[s.session.conn].pushed|
         && 0 < s.conns[s.session.conn].pushed[s.session.read] <= |s.rows| then
        var n := s.conns[s.session.conn].pushed[s.session.read];
        s.(session := Up(s.session.conn, s.session.read + 1), frozen := s.rows[n - 1].Kill?, reflected := n)
      else s
    case Command =>
      if s.session.Up? && !s.frozen then s.(passed := s.passed + [Passed(s.session.conn, s.reflected)]) else s
    case Disconnect => s.(session := NoSession)
    case Restart => s.(session := NoSession, frozen := false)
    case _ => s
  }

  function Apply(s: Sys, step: Step): Sys {
    if step.Write? || step.Push? then AdminStep(s, step)
    else if step.Lookup? || step.Register? || step.BecomeReady? || step.Close? then ConnStep(s, step)
    else AgentStep(s, step)
  }

  function ExecFrom(s: Sys, steps: seq<Step>): Sys {
    if steps == [] then s else Apply(ExecFrom(s, steps[..|steps| - 1]), steps[|steps| - 1])
  }

  function Exec(steps: seq<Step>): Sys {
    ExecFrom(Initial(), steps)
  }

  // ---------------------------------------------------------------- invariant

  ghost predicate Ascending(ns: seq<nat>) {
    forall i, j | 0 <= i < j < |ns| :: ns[i] <= ns[j]
  }

  /** A looked-up connection saw a prefix of the rows, carries the latch of that
      prefix or a fail-closed freeze, and is pushed later prefixes in order. */
  ghost predicate ConnInv(c: Conn, rows: seq<Row>) {
    && c.asOf <= |rows|
    && (c.HasLooked() ==> c.frozen == (!c.lookedOk || Latched(rows[..c.asOf])))
    && (!c.HasLooked() ==> c.pushed == [])
    && Ascending(c.pushed)
    && (forall i | 0 <= i < |c.pushed| :: 0 < c.pushed[i] <= |rows| && c.asOf <= c.pushed[i])
  }

  ghost predicate ConnsInv(s: Sys) {
    forall c | 0 <= c < |s.conns| :: ConnInv(s.conns[c], s.rows)
  }

  ghost predicate SessionInv(s: Sys) {
    && s.reflected <= |s.rows|
    && (s.session.Handshaking? ==>
          && s.session.conn < |s.conns|
          && (s.conns[s.session.conn].HasLooked() ==> s.reflected <= s.conns[s.session.conn].asOf))
    && (s.session.Up? ==>
          && s.session.conn < |s.conns|
          && var c := s.conns[s.session.conn];
          && c.HasLooked() && s.session.read <= |c.pushed|
          && s.reflected == (if s.session.read == 0 then c.asOf else c.pushed[s.session.read - 1])
          && (Latched(s.rows[..s.reflected]) ==> s.frozen)
          && (s.session.read > 0 ==> s.frozen == Latched(s.rows[..s.reflected])))
  }

  /** Every passed command saw a prefix whose latest row is no kill, at least as
      long as what its connection's lookup saw. */
  ghost predicate PassedInv(s: Sys) {
    forall i | 0 <= i < |s.passed| ::
      var p := s.passed[i];
      && p.conn < |s.conns| && s.conns[p.conn].HasLooked()
      && s.conns[p.conn].asOf <= p.reflected <= s.reflected && p.reflected <= |s.rows|
      && !Latched(s.rows[..p.reflected])
  }

  ghost predicate Inv(s: Sys) {
    ConnsInv(s) && SessionInv(s) && s.reflected <= |s.rows| && PassedInv(s)
  }

  lemma PrefixLatch(rows: seq<Row>, row: Row, n: nat)
    requires n <= |rows|
    ensures (rows + [row])[..n] == rows[..n]
  {
  }

  lemma WriteKeepsInv(s: Sys, row: Row)
    requires Inv(s)
    ensures Inv(AdminStep(s, Write(row)))
  {
    hide Latched;
    forall n: nat | n <= |s.rows| ensures (s.rows + [row])[..n] == s.rows[..n] {
      PrefixLatch(s.rows, row, n);
    }
    forall c | 0 <= c < |s.conns| ensures ConnInv(s.conns[c], s.rows + [row]) {
      assert ConnInv(s.conns[c], s.rows);
    }
  }

  lemma PushKeepsInv(s: Sys, sent: bool)
    requires Inv(s) && (s.pushing ==> s.rows != [])
    ensures Inv(AdminStep(s, Push(sent)))
  {
    hide Latched;
  }

  /** A connection moves on without changing what it looked up or was pushed,
      or it looks up all the rows there are. */
  ghost predicate Advances(c: Conn, c': Conn, rows: seq<Row>) {
    || (c'.asOf == c.asOf && c'.pushed == c.pushed && c'.lookedOk == c.lookedOk && c'.frozen == c.frozen
        && c'.HasLooked() == c.HasLooked())
    || (!c.HasLooked() && c'.HasLooked() && c'.asOf == |rows| && c'.pushed == []
        && c'.frozen == (!c'.lookedOk || Latched(rows)))
  }

  lemma ConnsAdvance(s: Sys, step: Step)
    requires step.Lookup? || step.Register? || step.BecomeReady? || step.Close?
    ensures var t := ConnStep(s, step);
            && |t.conns| == |s.conns| && t == s.(conns := t.conns, registered := t.registered)
            && forall c | 0 <= c < |s.conns| :: Advances(s.conns[c], t.conns[c], s.rows)
  {
    hide Latched;
  }

  lemma ConnKeepsInv(s: Sys, step: Step)
    requires Inv(s) && (step.Lookup? || step.Register? || step.BecomeReady? || step.Close?)
    ensures Inv(ConnStep(s, step))
  {
    hide Latched, ConnStep;
    assert s.rows[..|s.rows|] == s.rows;
    ConnsAdvance(s, step);
    var t := ConnStep(s, step);
    forall c | 0 <= c < |s.conns| ensures ConnInv(t.conns[c], s.rows) {
      assert ConnInv(s.conns[c], s.rows) && Advances(s.conns[c], t.conns[c], s.rows);
    }
  }

  lemma AuthOkKeepsInv(s: Sys)
    requires Inv(s)
    ensures Inv(AgentStep(s, ReadAuthOk))
  {
    hide Latched;
    if s.session.Handshaking? {
      assert ConnInv(s.conns[s.session.conn], s.rows);
    }
  }

  lemma PushReadKeepsInv(s: Sys)
    requires Inv(s)
    ensures Inv(AgentStep(s, ReadPush))
  {
    if AgentStep(s, ReadPush) != s {
      var n := s.conns[s.session.conn].pushed[s.session.read];
      assert s.rows[..n][n - 1] == s.rows[n - 1];
      assert ConnInv(s.conns[s.session.conn], s.rows);
    }
  }

  lemma AgentKeepsInv(s: Sys, step: Step)
    requires Inv(s)
    ensures Inv(AgentStep(s, step))
  {
    hide Latched;
    if step.ReadPush? {
      PushReadKeepsInv(s);
    } else if step.ReadAuthOk? {
      AuthOkKeepsInv(s);
    }
  }

  lemma {:induction false} RunKeepsInv(steps: seq<Step>)
    ensures Inv(Exec(steps)) && (Exec(steps).pushing ==> Exec(steps).rows != [])
  {
    hide Inv;
    if steps == [] {
      assert Inv(Initial()) by { StartsRight(); }
    } else {
      var s, step := Exec(steps[..|steps| - 1]), steps[|steps| - 1];
      RunKeepsInv(steps[..|steps| - 1]);
      if step.Write? {
        WriteKeepsInv(s, step.row);
      } else if step.Push? {
        PushKeepsInv(s, step.sent);
      } else if step.Lookup? || step.Register? || step.BecomeReady? || step.Close? {
        ConnKeepsInv(s, step);
      } else {
        AgentKeepsInv(s, step);
      }
    }
  }

  lemma StartsRight()
    ensures Inv(Initial())
  {
  }

  // ---------------------------------------------------------------- no order after a kill

  lemma LatchedSince(rows: seq<Row>, k: nat, n: nat)
    requires k < n <= |rows| && rows[k].Kill? && !Latched(rows[..n])
    ensures exists j :: k < j < n && rows[j].Resume?
  {
  }

  /** On every run, a command that passes on a connection whose lookup saw a kill
      row does so after a later resume is reflected. */
  lemma NoOrderAfterLookup(steps: seq<Step>, i: nat, k: nat)
    requires var s := Exec(steps);
             && i < |s.passed| && k < |s.rows| && s.rows[k].Kill?
             && s.passed[i].conn < |s.conns| && k < s.conns[s.passed[i].conn].asOf
    ensures var s := Exec(steps); exists j :: k < j < s.passed[i].reflected <= |s.rows| && s.rows[j].Resume?
  {
    RunKeepsInv(steps);
    var s := Exec(steps);
    LatchedSince(s.rows, k, s.passed[i].reflected);
    var j :| k < j < s.passed[i].reflected && s.rows[j].Resume?;
    assert k < j < s.passed[i].reflected <= |s.rows| && s.rows[j].Resume?;
  }

  /** Rows and passed commands are only ever appended, and the agent never goes
      back to reflecting less. */
  ghost predicate Extends(s: Sys, t: Sys) {
    && s.rows <= t.rows && s.passed <= t.passed && s.reflected <= t.reflected
    && forall i | |s.passed| <= i < |t.passed| :: s.reflected <= t.passed[i].reflected
  }

  lemma StepExtends(s: Sys, step: Step)
    requires Inv(s)
    ensures Extends(s, Apply(s, step))
  {
    hide Latched;
    if step.ReadPush? && s.session.Up? {
      assert ConnInv(s.conns[s.session.conn], s.rows);
    }
  }

  lemma ExtendsTransitive(a: Sys, b: Sys, c: Sys)
    requires Extends(a, b) && Extends(b, c)
    ensures Extends(a, c)
  {
  }

  lemma ExecAppendOne(steps: seq<Step>, step: Step)
    ensures Exec(steps + [step]) == Apply(Exec(steps), step)
  {
  }

  lemma {:induction false} RunExtends(xs: seq<Step>, ys: seq<Step>)
    ensures Extends(Exec(xs), Exec(xs + ys))
  {
    hide Extends, Apply;
    if ys == [] {
      assert xs + ys == xs;
      assert Extends(Exec(xs), Exec(xs)) by { ExtendsItself(Exec(xs)); }
    } else {
      var init, last := ys[..|ys| - 1], ys[|ys| - 1];
      RunExtends(xs, init);
      assert xs + ys == (xs + init) + [last];
      ExecAppendOne(xs + init, last);
      RunKeepsInv(xs + init);
      StepExtends(Exec(xs + init), last);
      ExtendsTransitive(Exec(xs), Exec(xs + init), Exec(xs + ys));
    }
  }

  lemma ExtendsItself(s: Sys)
    ensures Extends(s, s)
  {
  }

  /** Once a kill row is reflected, by a handshake or by its push, every command
      that passes later, over reconnects and restarts, follows a later resume. */
  lemma NoOrderAfterKill(xs: seq<Step>, ys: seq<Step>, k: nat, i: nat)
    requires k < Exec(xs).reflected && k < |Exec(xs).rows| && Exec(xs).rows[k].Kill?
    requires |Exec(xs).passed| <= i < |Exec(xs + ys).passed|
    ensures var t := Exec(xs + ys);
            t.passed[i].reflected <= |t.rows| && exists j :: k < j < t.passed[i].reflected && t.rows[j].Resume?
  {
    RunExtends(xs, ys);
    RunKeepsInv(xs + ys);
    var t := Exec(xs + ys);
    LatchedSince(t.rows, k, t.passed[i].reflected);
  }

  // ---------------------------------------------------------------- when the flag is up to date

  /** No admin call is under way and the agent has read all its connection holds. */
  ghost predicate Settled(s: Sys) {
    && !s.pushing && s.session.Up? && s.session.conn < |s.conns|
    && s.session.read == |s.conns[s.session.conn].pushed|
  }

  /** The latest row reached the session: its lookup saw it or its push was queued. */
  ghost predicate LatestArrived(s: Sys) {
    s.session.Up? && s.session.conn < |s.conns| &&
    var c := s.conns[s.session.conn];
    c.asOf == |s.rows| || (c.pushed != [] && c.pushed[|c.pushed| - 1] == |s.rows|)
  }

  /** In a settled session the flag reflects every row exactly when the latest row
      arrived; then a killed agent is frozen, and a resumed one is not unless its
      lookup failed and nothing has been pushed since. */
  lemma SettledFlag(steps: seq<Step>)
    requires Settled(Exec(steps))
    ensures var s := Exec(steps);
            && (s.reflected == |s.rows| <==> LatestArrived(s))
            && (LatestArrived(s) ==>
                  s.frozen == (Latched(s.rows) || (s.session.read == 0 && !s.conns[s.session.conn].lookedOk)))
  {
    RunKeepsInv(steps);
    var s := Exec(steps);
    assert ConnInv(s.conns[s.session.conn], s.rows);
    assert s.rows[..|s.rows|] == s.rows;
    FlagFromLookup(steps);
  }

  /** Until a push is read the flag is the one auth_ok carried. */
  lemma {:induction false} FlagFromLookup(steps: seq<Step>)
    ensures var s := Exec(steps);
            s.session.Up? && s.session.read == 0 && s.session.conn < |s.conns| ==>
              s.frozen == s.conns[s.session.conn].frozen
  {
    hide Latched, Inv;
    if steps != [] {
      FlagFromLookup(steps[..|steps| - 1]);
      RunKeepsInv(steps[..|steps| - 1]);
      var s, step := Exec(steps[..|steps| - 1]), steps[|steps| - 1];
      if step.Lookup? || step.Register? || step.BecomeReady? || step.Close? {
        ConnsAdvance(s, step);
        assert Inv(s) ==> s.session.Up? ==>
          s.session.conn < |s.conns| && s.conns[s.session.conn].HasLooked() by { UpLooked(s); }
      }
    }
  }

  lemma UpLooked(s: Sys)
    ensures Inv(s) && s.session.Up? ==> s.session.conn < |s.conns| && s.conns[s.session.conn].HasLooked()
  {
  }

  // ---------------------------------------------------------------- what decides a push

  predicate OnConn(s: Session, c: nat) {
    (s.Handshaking? || s.Up?) && s.conn == c
  }

  /** When the admin call pushes, its row has reached the connection or still will:
      the lookup comes later, or saw the row, or the connection is the registered
      ready one and the frame is sent. */
  predicate Reaches(s: Sys, sent: bool, c: nat)
    requires c < |s.conns|
  {
    || !s.conns[c].HasLooked()
    || s.conns[c].asOf == |s.rows|
    || (s.registered == Some(c) && s.conns[c].stage.ReadyStage? && sent)
  }

  /** The flag the connection's frames leave behind once all of them are read. */
  function FlagDue(c: Conn, rows: seq<Row>): bool {
    if c.pushed == [] then c.frozen
    else
      var n := c.pushed[|c.pushed| - 1];
      0 < n <= |rows| && rows[n - 1].Kill?
  }

  /** No admin call writes another row. */
  predicate NoWrites(steps: seq<Step>) {
    forall i | 0 <= i < |steps| :: !steps[i].Write?
  }

  /** The agent is up on the connection and has read all of its frames. */
  ghost predicate CaughtUp(s: Sys, c: nat) {
    Settled(s) && s.session.conn == c
  }

  ghost predicate ReflectsAll(s: Sys) {
    s.reflected == |s.rows|
  }

  /** A command handled now passes the frozen check. */
  ghost predicate LetsPass(s: Sys, c: nat) {
    CaughtUp(s, c) && AgentStep(s, Command).passed == s.passed + [Passed(c, s.reflected)]
  }

  lemma {:induction false} ExecFromAppend(s: Sys, xs: seq<Step>, ys: seq<Step>)
    ensures ExecFrom(s, xs + ys) == ExecFrom(ExecFrom(s, xs), ys)
  {
    hide Apply;
    if ys == [] {
      assert xs + ys == xs;
    } else {
      ExecFromAppend(s, xs, ys[..|ys| - 1]);
      assert (xs + ys)[..|xs + ys| - 1] == xs + ys[..|ys| - 1];
    }
  }

  /** While a row is waiting to be pushed, every frame in an outbox is older. */
  lemma {:induction false} FramesAreOlder(steps: seq<Step>)
    ensures var s := Exec(steps);
            s.pushing ==>
              forall c, i | 0 <= c < |s.conns| && 0 <= i < |s.conns[c].pushed| :: s.conns[c].pushed[i] < |s.rows|
  {
    hide Inv, Latched, ConnStep;
    if steps != [] {
      var s, step := Exec(steps[..|steps| - 1]), steps[|steps| - 1];
      FramesAreOlder(steps[..|steps| - 1]);
      RunKeepsInv(steps[..|steps| - 1]);
      FramesWithin(s);
      if step.Lookup? || step.Register? || step.BecomeReady? || step.Close? {
        ConnsAdvance(s, step);
      }
    }
  }

  lemma FramesWithin(s: Sys)
    requires Inv(s)
    ensures forall c, i | 0 <= c < |s.conns| && 0 <= i < |s.conns[c].pushed| :: s.conns[c].pushed[i] <= |s.rows|
  {
    forall c, i | 0 <= c < |s.conns| && 0 <= i < |s.conns[c].pushed| ensures s.conns[c].pushed[i] <= |s.rows| {
      assert ConnInv(s.conns[c], s.rows);
    }
  }

  /** What steps without a write leave of a connection: the same frames and the
      same lookup, or a lookup of all the rows. */
  ghost predicate Kept(s: Sys, t: Sys, c: nat) {
    && t.rows == s.rows && !t.pushing && c < |s.conns| <= |t.conns|
    && Advances(s.conns[c], t.conns[c], s.rows)
  }

  lemma StepKeeps(s: Sys, t: Sys, c: nat, step: Step)
    requires Kept(s, t, c) && !step.Write?
    ensures Kept(s, Apply(t, step), c)
  {
    hide Latched, ConnStep;
    if step.Lookup? || step.Register? || step.BecomeReady? || step.Close? {
      ConnsAdvance(t, step);
      assert Advances(t.conns[c], ConnStep(t, step).conns[c], t.rows);
    }
  }

  lemma {:induction false} NoWritesKeep(s: Sys, ys: seq<Step>, c: nat)
    requires !s.pushing && c < |s.conns| && NoWrites(ys)
    ensures Kept(s, ExecFrom(s, ys), c)
  {
    hide Apply, Advances;
    if ys == [] {
      SameAdvances(s.conns[c], s.rows);
    } else {
      NoWritesKeep(s, ys[..|ys| - 1], c);
      StepKeeps(s, ExecFrom(s, ys[..|ys| - 1]), c, ys[|ys| - 1]);
    }
  }

  lemma SameAdvances(c: Conn, rows: seq<Row>)
    ensures Advances(c, c, rows)
  {
  }

  /** In a session that has read everything, flag and reflected rows are those of
      its last frame, or of its lookup. */
  lemma CaughtUpMeans(steps: seq<Step>, c: nat)
    requires CaughtUp(Exec(steps), c)
    ensures var s := Exec(steps);
            && c < |s.conns| && s.frozen == FlagDue(s.conns[c], s.rows)
            && s.reflected ==
               (if s.conns[c].pushed == [] then s.conns[c].asOf else s.conns[c].pushed[|s.conns[c].pushed| - 1])
  {
    RunKeepsInv(steps);
    FlagFromLookup(steps);
    var s := Exec(steps);
    assert ConnInv(s.conns[c], s.rows);
  }

  /** Reading on catches up with a connection that has looked up its account. */
  lemma {:induction false} CatchUp(s: Sys, c: nat) returns (ys: seq<Step>)
    requires Inv(s) && !s.pushing && OnConn(s.session, c) && c < |s.conns| && s.conns[c].HasLooked()
    ensures NoWrites(ys) && CaughtUp(ExecFrom(s, ys), c)
    decreases |s.conns[c].pushed| - (if s.session.Up? then s.session.read else -1)
  {
    hide Latched;
    ys := [];
    assert ConnInv(s.conns[c], s.rows);
    if s.session.Handshaking? || s.session.read < |s.conns[c].pushed| {
      var step := if s.session.Handshaking? then ReadAuthOk else ReadPush;
      AgentKeepsInv(s, step);
      var rest := CatchUp(AgentStep(s, step), c);
      ExecFromAppend(s, [step], rest);
      assert ExecFrom(s, [step]) == AgentStep(s, step) by { assert [step][..0] == []; }
      ys := [step] + rest;
    }
  }

  /** What the push leaves behind for a connection. */
  lemma AfterPush(xs: seq<Step>, sent: bool, c: nat)
    requires var s := Exec(xs); s.pushing && OnConn(s.session, c) && c < |s.conns|
    ensures var s := Exec(xs);
            var t := AdminStep(s, Push(sent));
            && Exec(xs + [Push(sent)]) == t && !t.pushing && t.rows == s.rows && t.session == s.session
               && |t.conns| == |s.conns|
            && t.conns[c].HasLooked() == s.conns[c].HasLooked() && t.conns[c].asOf == s.conns[c].asOf
               && t.conns[c].frozen == s.conns[c].frozen
            && t.conns[c].pushed == s.conns[c].pushed
                 + (if s.registered == Some(c) && s.conns[c].stage.ReadyStage? && sent then [|s.rows|] else [])
  {
    ExecAppendOne(xs, Push(sent));
  }

  /** The flag and the rows behind it, in every session that catches up after the
      push without another write. */
  lemma AfterPushCaughtUp(xs: seq<Step>, sent: bool, c: nat, ys: seq<Step>)
    requires var s := Exec(xs); s.pushing && OnConn(s.session, c) && c < |s.conns|
    requires NoWrites(ys) && CaughtUp(ExecFrom(AdminStep(Exec(xs), Push(sent)), ys), c)
    ensures var s := Exec(xs);
            var u := ExecFrom(AdminStep(s, Push(sent)), ys);
            && (ReflectsAll(u) <==> Reaches(s, sent, c))
            && u.frozen == (if Reaches(s, sent, c) then FlagDue(u.conns[c], s.rows) else FlagDue(s.conns[c], s.rows))
            && (Latched(s.rows) && Reaches(s, sent, c) ==> u.frozen)
  {
    hide Apply, AdminStep, Inv, Settled;
    var s, t := Exec(xs), AdminStep(Exec(xs), Push(sent));
    AfterPush(xs, sent, c);
    NoWritesKeep(t, ys, c);
    ExecFromAppend(Initial(), xs + [Push(sent)], ys);
    CaughtUpMeans(xs + [Push(sent)] + ys, c);
    FramesAreOlder(xs);
    UpHasLooked(xs + [Push(sent)] + ys, c);
    LookupSaw(xs + [Push(sent)] + ys, c);
  }

  lemma UpHasLooked(steps: seq<Step>, c: nat)
    requires CaughtUp(Exec(steps), c)
    ensures c < |Exec(steps).conns| && Exec(steps).conns[c].HasLooked()
  {
    RunKeepsInv(steps);
  }

  lemma LookupSaw(steps: seq<Step>, c: nat)
    requires c < |Exec(steps).conns|
    ensures var s := Exec(steps);
            var conn := s.conns[c];
            && (conn.HasLooked() && conn.asOf == |s.rows| && Latched(s.rows) ==> conn.frozen)
            && (forall i | 0 <= i < |conn.pushed| :: conn.asOf <= conn.pushed[i] <= |s.rows|)
  {
    RunKeepsInv(steps);
    var s := Exec(steps);
    assert ConnInv(s.conns[c], s.rows);
    assert s.rows[..|s.rows|] == s.rows;
  }

  /** A row just written gets through to a session, whatever happens next short of
      another write, exactly when the push reaches its connection. */
  lemma PushDecides(xs: seq<Step>, sent: bool, c: nat)
    requires var s := Exec(xs); s.pushing && OnConn(s.session, c) && c < |s.conns|
    ensures var t := AdminStep(Exec(xs), Push(sent));
            (forall ys | NoWrites(ys) && CaughtUp(ExecFrom(t, ys), c) :: ReflectsAll(ExecFrom(t, ys))) <==>
              Reaches(Exec(xs), sent, c)
  {
    hide Apply, AdminStep, Inv, Settled, ReflectsAll;
    var s, t := Exec(xs), AdminStep(Exec(xs), Push(sent));
    forall ys | NoWrites(ys) && CaughtUp(ExecFrom(t, ys), c)
      ensures ReflectsAll(ExecFrom(t, ys)) <==> Reaches(s, sent, c)
    {
      AfterPushCaughtUp(xs, sent, c, ys);
    }
    if !Reaches(s, sent, c) {
      AfterPush(xs, sent, c);
      RunKeepsInv(xs + [Push(sent)]);
      var ys := CatchUp(t, c);
      assert !ReflectsAll(ExecFrom(t, ys));
    }
  }

  /** After a kill, and before another row is written, a session that has read all
      it was sent can let an order pass exactly when the push missed its
      connection and the frames it already had leave the flag clear. */
  lemma MissedKillDecides(xs: seq<Step>, sent: bool, c: nat)
    requires var s := Exec(xs); s.pushing && Latched(s.rows) && OnConn(s.session, c) && c < |s.conns|
    ensures var s, t := Exec(xs), AdminStep(Exec(xs), Push(sent));
            (exists ys :: NoWrites(ys) && LetsPass(ExecFrom(t, ys), c)) <==>
              !Reaches(s, sent, c) && !FlagDue(s.conns[c], s.rows)
  {
    hide Apply, AdminStep, Inv, ReflectsAll, FlagDue, Latched;
    var s, t := Exec(xs), AdminStep(Exec(xs), Push(sent));
    forall ys | NoWrites(ys) && LetsPass(ExecFrom(t, ys), c)
      ensures !Reaches(s, sent, c) && !FlagDue(s.conns[c], s.rows)
    {
      AfterPushCaughtUp(xs, sent, c, ys);
    }
    if !Reaches(s, sent, c) && !FlagDue(s.conns[c], s.rows) {
      AfterPush(xs, sent, c);
      RunKeepsInv(xs + [Push(sent)]);
      var ys := CatchUp(t, c);
      AfterPushCaughtUp(xs, sent, c, ys);
      assert LetsPass(ExecFrom(t, ys), c);
    }
  }

  /** In a session that has read everything and has the latest row, a command passes
      exactly when that row is no kill and either a frame was read or the lookup
      worked. */
  lemma SettledPass(steps: seq<Step>, c: nat)
    requires CaughtUp(Exec(steps), c) && LatestArrived(Exec(steps))
    ensures var s := Exec(steps);
            LetsPass(s, c) <==> !Latched(s.rows) && (s.session.read > 0 || s.conns[c].lookedOk)
  {
    SettledFlag(steps);
  }

  /** A resumed account trades again: with the latest row no kill, a session whose
      lookup worked and saw it lets every command pass once it has read its frames,
      until another row is written, and it can get there. */
  lemma ResumeGetsThrough(xs: seq<Step>, c: nat)
    requires var s := Exec(xs);
             && !s.pushing && OnConn(s.session, c) && c < |s.conns| && s.conns[c].HasLooked()
             && s.conns[c].lookedOk && s.conns[c].asOf == |s.rows| && !Latched(s.rows)
    ensures forall ys | NoWrites(ys) && CaughtUp(Exec(xs + ys), c) :: LetsPass(Exec(xs + ys), c)
    ensures exists ys :: NoWrites(ys) && CaughtUp(Exec(xs + ys), c)
  {
    hide Apply, Inv, Settled, Latched, LetsPass, Advances;
    var s := Exec(xs);
    forall ys | NoWrites(ys) && CaughtUp(Exec(xs + ys), c) ensures LetsPass(Exec(xs + ys), c) {
      ExecFromAppend(Initial(), xs, ys);
      NoWritesKeep(s, ys, c);
      LookedStays(s, Exec(xs + ys), c);
      LookupSaw(xs + ys, c);
      RunKeepsInv(xs + ys);
      HasArrived(Exec(xs + ys), c);
      SettledPass(xs + ys, c);
    }
    RunKeepsInv(xs);
    var ys := CatchUp(s, c);
    ExecFromAppend(Initial(), xs, ys);
    assert NoWrites(ys) && CaughtUp(Exec(xs + ys), c);
  }

  lemma LookedStays(s: Sys, t: Sys, c: nat)
    requires Kept(s, t, c) && s.conns[c].HasLooked()
    ensures t.conns[c].asOf == s.conns[c].asOf && t.conns[c].lookedOk == s.conns[c].lookedOk && t.rows == s.rows
  {
  }

  lemma HasArrived(s: Sys, c: nat)
    requires CaughtUp(s, c) && c < |s.conns| && s.conns[c].asOf == |s.rows|
    ensures LatestArrived(s)
  {
  }

  /** The window the protocol leaves open: a kill between a connection's lookup
      and its ready state is pushed to nobody, and an order still passes. */
  function MissedPush(): seq<Step> {
    KillTooEarly() + [Register(0)] + [BecomeReady(0)] + [ReadAuthOk] + [Command]
  }

  function KillTooEarly(): seq<Step> {
    [] + [Dial] + [Lookup(0, true)] + [Write(Kill)] + [Push(true)]
  }

  function AfterKill(conn: Stage, registered: Option<nat>, session: Session): Sys {
    Sys([Kill], false, [Conn(conn, 0, true, false, [])], registered, session, false, 0, [])
  }

  lemma KillTooEarlyState()
    ensures Exec(KillTooEarly()) == AfterKill(Looked, None, Handshaking(0))
  {
    ExecAppendOne([], Dial);
    ExecAppendOne([] + [Dial], Lookup(0, true));
    assert Exec([] + [Dial] + [Lookup(0, true)]) ==
      Sys([], false, [Conn(Looked, 0, true, false, [])], None, Handshaking(0), false, 0, []);
    ExecAppendOne([] + [Dial] + [Lookup(0, true)], Write(Kill));
    ExecAppendOne([] + [Dial] + [Lookup(0, true)] + [Write(Kill)], Push(true));
  }

  lemma MissedPushLetsOrderPass()
    ensures var s := Exec(MissedPush());
            Settled(s) && Latched(s.rows) && !s.frozen && !LatestArrived(s) && s.passed == [Passed(0, 0)]
  {
    var p := KillTooEarly();
    KillTooEarlyState();
    ExecAppendOne(p, Register(0));
    assert Exec(p + [Register(0)]) == AfterKill(Registered, Some(0), Handshaking(0));
    ExecAppendOne(p + [Register(0)], BecomeReady(0));
    ExecAppendOne(p + [Register(0)] + [BecomeReady(0)], ReadAuthOk);
    assert Exec(p + [Register(0)] + [BecomeReady(0)] + [ReadAuthOk]) == AfterKill(ReadyStage, Some(0), Up(0, 0));
    ExecAppendOne(p + [Register(0)] + [BecomeReady(0)] + [ReadAuthOk], Command);
  }

  // ---------------------------------------------------------------- the server's operations

  datatype Action = InstanceKill | InstanceResume | OtherAction

  datatype AuditEvent = AuditEvent(actor: string, action: Action, account: string)

  /** The kill and resume rows of one account. */
  function AccountRows(events: seq<AuditEvent>, account: string): seq<Row> {
    if events == [] then []
    else
      var e := events[|events| - 1];
      AccountRows(events[..|events| - 1], account)
      + if e.account != account || e.action.OtherAction? then [] else [if e.action.InstanceKill? then Kill else Resume]
  }

  lemma AccountRowsSnoc(events: seq<AuditEvent>, e: AuditEvent, account: string)
    ensures AccountRows(events + [e], account) ==
            AccountRows(events, account)
            + if e.account != account || e.action.OtherAction? then []
              else [if e.action.InstanceKill? then Kill else Resume]
  {
  }

  ghost predicate NoneAfter(events: seq<AuditEvent>, account: string, i: int)
    requires -1 <= i
  {
    forall j | i < j < |events| :: events[j].account != account || events[j].action.OtherAction?
  }

  /** The insert-only action trail. issued counts the statements, of which fails
      tells the outcome; tried is every insert, written or not. */
  class AuditRepo {
    const fails: Faults
    var events: seq<AuditEvent>
    var issued: nat
    ghost var tried: seq<AuditEvent>

    constructor (fails: Faults)
      ensures this.fails == fails && events == [] && issued == 0 && tried == []
    {
      this.fails := fails;
      events, issued, tried := [], 0, [];
    }

    method Insert(e: AuditEvent) returns (ok: bool)
      modifies this
      ensures ok == !fails(old(issued)) && issued == old(issued) + 1
      ensures tried == old(tried) + [e]
      ensures events == if ok then old(events) + [e] else old(events)
    {
      ok := !fails(issued);
      issued, tried := issued + 1, tried + [e];
      if ok {
        events := events + [e];
      }
    }

    /** The latest kill or resume event of the account, if there is one. */
    method LatestKillOrResume(account: string) returns (row: Option<AuditEvent>, ok: bool)
      modifies this`issued
      ensures ok == !fails(old(issued)) && issued == old(issued) + 1
      ensures row.None? <==> !ok || AccountRows(events, account) == []
      ensures row.Some? ==> row.value in events && row.value.account == account && !row.value.action.OtherAction?
      ensures row.Some? ==> (row.value.action.InstanceKill? <==> Latched(AccountRows(events, account)))
      ensures row.Some? ==> exists i :: 0 <= i < |events| && row.value == events[i] && NoneAfter(events, account, i)
    {
      ok, row := !fails(issued), None;
      issued := issued + 1;
      if !ok {
        return;
      }
      assert events[..|events|] == events;
      for i := |events| downto 0
        invariant AccountRows(events[..i], account) == AccountRows(events, account)
        invariant NoneAfter(events, account, i - 1)
      {
        assert events[..i + 1][..i] == events[..i];
        if events[i].account == account && !events[i].action.OtherAction? {
          return Some(events[i]), true;
        }
      }
    }

    method IsAccountFrozen(account: string) returns (frozen: bool, ok: bool)
      modifies this`issued
      ensures ok == !fails(old(issued)) && issued == old(issued) + 1
      ensures frozen == (ok && Latched(AccountRows(events, account)))
    {
      var row;
      row, ok := LatestKillOrResume(account);
      frozen := ok && row.Some? && row.value.action.InstanceKill?;
    }
  }

  // ---------------------------------------------------------------- admin calls as steps

  /** One admin call of the step system. */
  function AdminCall(s: Sys, row: Row, sent: bool): Sys {
    AdminStep(AdminStep(s, Write(row)), Push(sent))
  }

  /** rows' is what the call makes of rows, and every frame it sends carries frameRows of them. */
  ghost predicate IsAdminCall(rows: seq<Row>, rows': seq<Row>, row: Row, frameRows: nat) {
    forall s: Sys, sent | s.rows == rows && !s.pushing :: CallLeaves(s, AdminCall(s, row, sent), rows', frameRows)
  }

  ghost predicate CallLeaves(s: Sys, t: Sys, rows': seq<Row>, frameRows: nat) {
    && t.rows == rows' && !t.pushing && |t.conns| == |s.conns|
    && forall c | 0 <= c < |s.conns| ::
         t.conns[c].pushed == s.conns[c].pushed || t.conns[c].pushed == s.conns[c].pushed + [frameRows]
  }

  lemma AdminCallIs(rows: seq<Row>, row: Row)
    ensures IsAdminCall(rows, rows + [row], row, |rows| + 1)
  {
    forall s: Sys, sent | s.rows == rows && !s.pushing
      ensures CallLeaves(s, AdminCall(s, row, sent), rows + [row], |rows| + 1)
    {
    }
  }

  /** What a call does beside the table, each with how many kill and resume rows
      the account had by then. */
  datatype Act = Pushed(account: string, row: Row, rows: nat) | Cleared(account: string, rows: nat)

  /** The live side of the server: pushes to connected agents, some of which reach
      nobody, and the drift streaks in memory. acts is all of it, in order. */
  class LiveSide {
    const audit: AuditRepo
    const lost: Faults
    var sends: nat
    ghost var acts: seq<Act>

    constructor (audit: AuditRepo, lost: Faults)
      ensures this.audit == audit && this.lost == lost && sends == 0 && acts == []
    {
      this.audit, this.lost, sends, acts := audit, lost, 0, [];
    }

    method SendKillSwitch(account: string, row: Row) returns (sent: bool)
      modifies this
      ensures sent == !lost(old(sends)) && sends == old(sends) + 1
      ensures acts == old(acts) + [Pushed(account, row, |AccountRows(audit.events, account)|)]
    {
      sent := !lost(sends);
      sends, acts := sends + 1, acts + [Pushed(account, row, |AccountRows(audit.events, account)|)];
    }

    method ClearDriftStreak(account: string)
      modifies this`acts
      ensures acts == old(acts) + [Cleared(account, |AccountRows(audit.events, account)|)]
    {
      acts := acts + [Cleared(account, |AccountRows(audit.events, account)|)];
    }
  }

  /** The admin operations: the row is the latch and comes first; the live push
      is best effort and cannot fail the call. */
  class InstanceKiller {
    const audit: AuditRepo
    const live: LiveSide
    const instances: map<string, string>

    constructor (audit: AuditRepo, live: LiveSide, instances: map<string, string>)
      requires live.audit == audit
      ensures this.audit == audit && this.live == live && this.instances == instances
    {
      this.audit, this.live, this.instances := audit, live, instances;
    }

    method Kill(instance: string, operator: string) returns (ok: bool)
      requires live.audit == audit
      modifies live, audit
      ensures ok <==> instance in instances && !audit.fails(old(audit.issued))
      ensures ok ==>
                var account := instances[instance];
                var rows := AccountRows(audit.events, account);
                && rows == AccountRows(old(audit.events), account) + [Row.Kill] && Latched(rows)
                && live.acts == old(live.acts) + [Pushed(account, Row.Kill, |rows|)]
                && IsAdminCall(AccountRows(old(audit.events), account), rows, Row.Kill, |rows|)
      ensures !ok ==> audit.events == old(audit.events) && live.acts == old(live.acts)
      ensures forall a | instance in instances && a != instances[instance] ::
                AccountRows(audit.events, a) == AccountRows(old(audit.events), a)
    {
      hide IsAdminCall;
      if instance !in instances {
        return false;
      }
      var account := instances[instance];
      var e := AuditEvent(operator, InstanceKill, account);
      forall a
        ensures AccountRows(audit.events + [e], a) ==
                AccountRows(audit.events, a) + if a == account then [Row.Kill] else []
      {
        AccountRowsSnoc(audit.events, e, a);
      }
      AdminCallIs(AccountRows(audit.events, account), Row.Kill);
      ok := audit.Insert(e);
      if ok {
        var _ := live.SendKillSwitch(account, Row.Kill);
      }
    }

    method Resume(instance: string, operator: string) returns (ok: bool)
      requires live.audit == audit
      modifies live, audit
      ensures ok <==> instance in instances && !audit.fails(old(audit.issued))
      ensures ok ==>
                var account := instances[instance];
                var rows := AccountRows(audit.events, account);
                && rows == AccountRows(old(audit.events), account) + [Row.Resume] && !Latched(rows)
                && live.acts == old(live.acts) + [Cleared(account, |rows|), Pushed(account, Row.Resume, |rows|)]
                && IsAdminCall(AccountRows(old(audit.events), account), rows, Row.Resume, |rows|)
      ensures !ok ==> audit.events == old(audit.events) && live.acts == old(live.acts)
      ensures forall a | instance in instances && a != instances[instance] ::
                AccountRows(audit.events, a) == AccountRows(old(audit.events), a)
    {
      hide IsAdminCall;
      if instance !in instances {
        return false;
      }
      var account := instances[instance];
      var e := AuditEvent(operator, InstanceResume, account);
      forall a
        ensures AccountRows(audit.events + [e], a) ==
                AccountRows(audit.events, a) + if a == account then [Row.Resume] else []
      {
        AccountRowsSnoc(audit.events, e, a);
      }
      AdminCallIs(AccountRows(audit.events, account), Row.Resume);
      ok := audit.Insert(e);
      if ok {
        live.ClearDriftStreak(account);
        var _ := live.SendKillSwitch(account, Row.Resume);
      }
    }
  }

  /** What auth_ok carries for this connection after its lookup, and what is recorded of it. */
  ghost predicate LookupCarries(s: Sys, c: nat, ok: bool, frozen: bool) {
    var t := Apply(s, Lookup(c, ok));
    && c < |s.conns| == |t.conns|
    && t.conns[c].frozen == frozen && t.conns[c].lookedOk == ok && t.conns[c].asOf == |s.rows|
  }

  /** The server's half of the handshake: a failed lookup reads as frozen. */
  method FrozenForAuthOk(audit: AuditRepo, account: string) returns (frozen: bool)
    modifies audit`issued
    ensures frozen == (audit.fails(old(audit.issued)) || Latched(AccountRows(audit.events, account)))
    ensures audit.issued == old(audit.issued) + 1
    ensures forall s: Sys, c: nat |
              s.rows == AccountRows(audit.events, account) && c < |s.conns| && s.conns[c].stage.Dialed? ::
              LookupCarries(s, c, !audit.fails(old(audit.issued)), frozen)
  {
    var f, ok := audit.IsAccountFrozen(account);
    frozen := if ok then f else true;
  }
}
