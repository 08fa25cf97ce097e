/** The agent of SubmitOnce on the connections of KillLatch: what the two promise
    together about the exchange.

    One read loop handles one frame at a time, so auth_ok and kill_switch frames
    set the flag only between two commands, and a command past the checks is
    carried to its submit under the flag it passed. */
module FrozenAgent {
  import K = KillLatch
  import A = SubmitOnce
  import opened Wire

  datatype Step = OnLatch(latch: K.Step) | OnAgent(agent: A.Step)

  /** hand is the passed command the agent is working on, origin the passed
      command behind each submit, and ids the order of each passed command. */
  datatype Sys = Sys(latch: K.Sys, agent: A.Agent, hand: nat, origin: seq<nat>, ids: seq<string>)

  function Initial(now: int): Sys {
    Sys(K.Initial(), A.Fresh(now), 0, [], [])
  }

  predicate SetsFlag(step: K.Step) {
    step.ReadAuthOk? || step.ReadPush?
  }

  /** A command frame can be read and passes every check before the pre-record. */
  predicate Passes(s: Sys, step: A.Step) {
    && step.Deliver? && s.latch.session.Up? && s.agent.phase.Ready? && step.readOk
    && A.Gate(A.Row(s.agent.rows, step.tc.ClientOrderID), s.agent.frozen, step.tc, s.agent.now).Proceed?
  }

  /** The steps of the latch system one joint step consists of. */
  function LatchPart(s: Sys, step: Step): seq<K.Step> {
    match step
    case OnLatch(l) =>
      if SetsFlag(l) then (if s.agent.phase.Ready? then [l] else [])
      else if l.Dial? then (if s.agent.phase.Down? then [] else [l])
      else if l.Command? || l.Restart? then []
      else [l]
    case OnAgent(a) =>
      if Passes(s, a) then [K.Command]
      else if a.Crash? then [K.Disconnect]
      else if a.Restart? && s.agent.phase.Down? then [K.Restart]
      else []
  }

  /** The steps of the agent system one joint step consists of. */
  function AgentPart(s: Sys, step: Step): seq<A.Step> {
    match step
    case OnLatch(l) =>
      if SetsFlag(l) && s.agent.phase.Ready? then [A.Freeze(K.Apply(s.latch, l).frozen)] else []
    case OnAgent(a) =>
      if a.Freeze? || (a.Deliver? && !s.latch.session.Up?) then [] else [a]
  }

  function Apply(s: Sys, step: Step): Sys {
    var latch := K.ExecFrom(s.latch, LatchPart(s, step));
    var agent := A.Exec(s.agent, AgentPart(s, step));
    var passes := step.OnAgent? && Passes(s, step.agent);
    Sys(latch, agent,
        if passes then |s.latch.passed| else s.hand,
        if |agent.submits| > |s.agent.submits| then s.origin + [s.hand] else s.origin,
        if passes then s.ids + [step.agent.tc.ClientOrderID] else s.ids)
  }

  function ExecFrom(s: Sys, steps: seq<Step>): Sys {
    if steps == [] then s else Apply(ExecFrom(s, steps[..|steps| - 1]), steps[|steps| - 1])
  }

  lemma {:induction false} ExecFromAppend(s: Sys, xs: seq<Step>, ys: seq<Step>)
    ensures ExecFrom(s, xs + ys) == ExecFrom(ExecFrom(s, xs), ys)
  {
    hide Apply;
    if ys == [] {
      assert xs + ys == xs;
    } else {
      ExecFromAppend(s, xs, ys[..|ys| - 1]);
      assert (xs + ys)[..|xs + ys| - 1] == xs + ys[..|ys| - 1];
    }
  }

  /** Every joint run is a run of both systems, so each keeps what it promises alone. */
  lemma {:induction false} RunProjects(now: int, steps: seq<Step>) returns (ls: seq<K.Step>, as': seq<A.Step>)
    ensures ExecFrom(Initial(now), steps).latch == K.Exec(ls)
    ensures ExecFrom(Initial(now), steps).agent == A.Exec(A.Fresh(now), as')
  {
    ls, as' := [], [];
    if steps != [] {
      hide K.Apply, A.Apply, LatchPart, AgentPart;
      var k := |steps| - 1;
      var s := ExecFrom(Initial(now), steps[..k]);
      ls, as' := RunProjects(now, steps[..k]);
      K.ExecFromAppend(K.Initial(), ls, LatchPart(s, steps[k]));
      A.ExecAppend(A.Fresh(now), as', AgentPart(s, steps[k]));
      ls, as' := ls + LatchPart(s, steps[k]), as' + AgentPart(s, steps[k]);
    }
  }

  predicate InHand(p: A.Phase) {
    p.Gated? || p.Recorded?
  }

  /** One flag, and the command in hand and every submit lead back to a command
      that passed it; nothing was read since the one in hand passed. */
  ghost predicate Joined(s: Sys) {
    && s.agent.frozen == s.latch.frozen
    && |s.origin| == |s.agent.submits| && |s.ids| == |s.latch.passed|
    && (forall i | 0 <= i < |s.origin| :: s.origin[i] < |s.ids| && s.agent.submits[i] == s.ids[s.origin[i]])
    && (InHand(s.agent.phase) ==>
          && s.hand < |s.latch.passed|
          && s.ids[s.hand] == s.agent.phase.tc.ClientOrderID
          && s.latch.passed[s.hand].reflected == s.latch.reflected)
  }

  /** One latch step as part of a joint step. */
  lemma OneLatchStep(s: K.Sys, step: K.Step)
    ensures K.ExecFrom(s, [step]) == K.Apply(s, step)
  {
    assert [step][..0] == [];
  }

  lemma OneAgentStep(a: A.Agent, step: A.Step)
    ensures A.Exec(a, [step]) == A.Apply(a, step)
  {
    assert [step][..0] == [];
  }

  lemma NoLatchStep(s: K.Sys)
    ensures K.ExecFrom(s, []) == s
  {
  }

  lemma NoAgentStep(a: A.Agent)
    ensures A.Exec(a, []) == a
  {
  }

  /** What a latch step other than a read or a command leaves alone. */
  lemma QuietLatchStep(s: K.Sys, step: K.Step)
    requires !SetsFlag(step) && !step.Command? && !step.Restart?
    ensures var t := K.Apply(s, step); t.frozen == s.frozen && t.reflected == s.reflected && t.passed == s.passed
  {
    hide K.Latched, K.Closing;
  }

  lemma LatchStepJoins(s: Sys, l: K.Step)
    requires Joined(s)
    ensures Joined(Apply(s, OnLatch(l)))
  {
    hide K.ConnStep, K.AdminStep;
    OneLatchStep(s.latch, l);
    if SetsFlag(l) && s.agent.phase.Ready? {
      OneAgentStep(s.agent, A.Freeze(K.Apply(s.latch, l).frozen));
    } else if !SetsFlag(l) && !l.Command? && !l.Restart? {
      QuietLatchStep(s.latch, l);
    }
  }

  lemma DeliverJoins(s: Sys, a: A.Step)
    requires Joined(s) && a.Deliver?
    ensures Joined(Apply(s, OnAgent(a)))
  {
    hide K.ConnStep, K.AdminStep;
    OneAgentStep(s.agent, a);
    OneLatchStep(s.latch, K.Command);
  }

  lemma LifecycleOfAgent(a: A.Agent, step: A.Step)
    requires step.Crash? || step.Restart?
    ensures var b := A.Apply(a, step);
            && b.submits == a.submits && !(InHand(b.phase) && !InHand(a.phase))
            && (step.Crash? ==> !InHand(b.phase)) && (InHand(b.phase) ==> b.phase == a.phase)
            && b.frozen == (if step.Restart? && a.phase.Down? then false else a.frozen)
  {
    hide A.Gate;
  }

  lemma LifecycleOfLatch(s: K.Sys)
    ensures K.Apply(s, K.Disconnect).(session := s.session) == s
    ensures K.Apply(s, K.Restart).(session := s.session) == s.(frozen := false)
  {
  }

  lemma LifecycleJoins(s: Sys, a: A.Step)
    requires Joined(s) && (a.Crash? || a.Restart?)
    ensures Joined(Apply(s, OnAgent(a)))
  {
    hide A.Apply, K.Apply, A.Exec, K.ExecFrom;
    NoLatchStep(s.latch);
    OneAgentStep(s.agent, a);
    OneLatchStep(s.latch, if a.Crash? then K.Disconnect else K.Restart);
    LifecycleOfAgent(s.agent, a);
    LifecycleOfLatch(s.latch);
  }

  lemma HandlerOfAgent(a: A.Agent, step: A.Step)
    requires !step.Deliver? && !step.Crash? && !step.Restart? && !step.Freeze?
    ensures var b := A.Apply(a, step);
            && b.frozen == a.frozen
            && (InHand(b.phase) ==> InHand(a.phase) && b.phase.tc == a.phase.tc)
            && (b.submits == a.submits
                || (InHand(a.phase) && b.submits == a.submits + [a.phase.tc.ClientOrderID]))
  {
    hide A.Gate, A.Written;
  }

  lemma HandlerJoins(s: Sys, a: A.Step)
    requires Joined(s) && !a.Deliver? && !a.Crash? && !a.Restart?
    ensures Joined(Apply(s, OnAgent(a)))
  {
    hide A.Apply, K.Apply, A.Exec, K.ExecFrom;
    NoLatchStep(s.latch);
    NoAgentStep(s.agent);
    if !a.Freeze? {
      OneAgentStep(s.agent, a);
      HandlerOfAgent(s.agent, a);
    }
  }

  lemma {:induction false} RunJoins(now: int, steps: seq<Step>)
    ensures Joined(ExecFrom(Initial(now), steps))
  {
    hide Apply, Joined;
    if steps == [] {
      JoinedAtFirst(now);
    } else {
      var s, step := ExecFrom(Initial(now), steps[..|steps| - 1]), steps[|steps| - 1];
      RunJoins(now, steps[..|steps| - 1]);
      if step.OnLatch? {
        LatchStepJoins(s, step.latch);
      } else if step.agent.Deliver? {
        DeliverJoins(s, step.agent);
      } else if step.agent.Crash? || step.agent.Restart? {
        LifecycleJoins(s, step.agent);
      } else {
        HandlerJoins(s, step.agent);
      }
    }
  }

  lemma JoinedAtFirst(now: int)
    ensures Joined(Initial(now))
  {
  }

  /** Every submit made since s0 is of a command that passed a flag set from at
      least the rows reflected at s0. */
  ghost predicate SubmitsSince(s0: Sys, s: Sys) {
    && |s0.agent.submits| <= |s.agent.submits| == |s.origin|
    && s0.latch.reflected <= s.latch.reflected && s0.latch.rows <= s.latch.rows
    && forall i | |s0.agent.submits| <= i < |s.agent.submits| ::
         s.origin[i] < |s.latch.passed| && s0.latch.reflected <= s.latch.passed[s.origin[i]].reflected
  }

  lemma LatchGrows(s: Sys, step: Step)
    requires K.Inv(s.latch)
    ensures K.Extends(s.latch, Apply(s, step).latch)
  {
    hide K.Apply, K.Inv, K.ExecFrom, A.Exec, Passes, K.Extends;
    var ls := LatchPart(s, step);
    NoLatchStep(s.latch);
    K.ExtendsItself(s.latch);
    if ls != [] {
      OneLatchStep(s.latch, ls[0]);
      K.StepExtends(s.latch, ls[0]);
    }
  }

  lemma PartSubmits(s: Sys, step: Step)
    ensures var t := Apply(s, step);
            || t.agent.submits == s.agent.submits
            || (InHand(s.agent.phase) && t.agent.submits == s.agent.submits + [s.agent.phase.tc.ClientOrderID])
  {
    hide K.Apply, K.ExecFrom, A.Exec, A.Apply, Passes, LatchPart, InHand;
    var as' := AgentPart(s, step);
    NoAgentStep(s.agent);
    if as' != [] {
      OneAgentStep(s.agent, as'[0]);
      SubmitsGrow(s.agent, as'[0]);
    }
  }

  lemma SubmitStep(s: Sys, step: Step)
    requires Joined(s) && K.Inv(s.latch)
    ensures SubmitsSince(s, Apply(s, step))
    ensures s.latch.passed <= Apply(s, step).latch.passed && s.origin <= Apply(s, step).origin
  {
    hide K.Inv, K.ExecFrom, A.Exec, Passes, LatchPart, AgentPart;
    LatchGrows(s, step);
    PartSubmits(s, step);
  }

  lemma SubmitsGrow(a: A.Agent, step: A.Step)
    ensures var b := A.Apply(a, step);
            || b.submits == a.submits
            || (InHand(a.phase) && b.submits == a.submits + [a.phase.tc.ClientOrderID])
  {
    hide A.Gate, A.Written;
  }

  lemma {:induction false} RunSubmitsSince(now: int, xs: seq<Step>, ys: seq<Step>)
    ensures SubmitsSince(ExecFrom(Initial(now), xs), ExecFrom(Initial(now), xs + ys))
  {
    hide Apply, Joined, K.Inv;
    RunJoins(now, xs);
    if ys == [] {
      assert xs + ys == xs;
      SinceItself(ExecFrom(Initial(now), xs));
    } else {
      var init, last := ys[..|ys| - 1], ys[|ys| - 1];
      var s0, s := ExecFrom(Initial(now), xs), ExecFrom(Initial(now), xs + init);
      RunSubmitsSince(now, xs, init);
      assert (xs + ys)[..|xs + ys| - 1] == xs + init;
      RunJoins(now, xs + init);
      var ls, _ := RunProjects(now, xs + init);
      K.RunKeepsInv(ls);
      SubmitStep(s, last);
    }
  }

  lemma SinceItself(s: Sys)
    requires Joined(s)
    ensures SubmitsSince(s, s)
  {
  }

  /** Once a kill row is reflected in the agent's flag, by a handshake or a push,
      every later Exchange.Submit is of a command that passed after a later
      resume row, over reconnects, crashes and restarts. */
  lemma NoSubmitAfterKill(now: int, xs: seq<Step>, ys: seq<Step>, k: nat, i: nat)
    requires var s := ExecFrom(Initial(now), xs);
             k < s.latch.reflected && k < |s.latch.rows| && s.latch.rows[k].Kill?
             && |s.agent.submits| <= i < |ExecFrom(Initial(now), xs + ys).agent.submits|
    ensures var t := ExecFrom(Initial(now), xs + ys);
            && i < |t.origin| && t.origin[i] < |t.latch.passed| == |t.ids| && t.agent.submits[i] == t.ids[t.origin[i]]
            && var p := t.latch.passed[t.origin[i]];
               p.reflected <= |t.latch.rows| && exists j :: k < j < p.reflected && t.latch.rows[j].Resume?
  {
    hide Apply, K.Inv, K.Latched;
    var t := ExecFrom(Initial(now), xs + ys);
    RunJoins(now, xs + ys);
    RunSubmitsSince(now, xs, ys);
    var ls, _ := RunProjects(now, xs + ys);
    K.RunKeepsInv(ls);
    PassedFlag(t.latch, t.origin[i]);
    K.LatchedSince(t.latch.rows, k, t.latch.passed[t.origin[i]].reflected);
  }

  lemma PassedFlag(s: K.Sys, i: nat)
    requires K.Inv(s) && i < |s.passed|
    ensures s.passed[i].reflected <= |s.rows| && !K.Latched(s.rows[..s.passed[i].reflected])
  {
  }
}
