/** Crashes between the append to a Session's log and the write of the metadata (src/kernel/storage.py,
    `save`), followed by the startup replay (src/goal/log.py). */
module LogAuthority {
  import opened Wrappers
  import opened DispatchModel
  import opened Protocol
  import opened LeaseInvariant
  import opened GoalInvariant
  import opened Replay
  import opened StepInvariant
  import opened Preservation
  import opened WindowTiling
  import opened Behaviours
  import opened Liveness
  import opened Requirements
  import SessionGraph

  /** The metadata of a Session with a log found on disk. */
  function WithLog(s: Session, log: seq<Entry>): Session {
    s.(log := log)
  }

  predicate SameCompletion(a: Session, b: Session) {
    && a.goal.Some? == b.goal.Some?
    && (a.goal.Some? ==> a.goal.value.complete == b.goal.value.complete)
  }

  // ---------------------------------------------------------------- stability of saved states

  /** Activity stands, and no entry speaks of it. */
  ghost predicate NoActivation(before: Session, after: Session) {
    && before.active == after.active && before.log <= after.log
    && forall k | |before.log| <= k < |after.log| :: !after.log[k].SessionActiveChanged?
  }

  lemma RuntimeStepKeepsActive(s: State, ev: Event, now: int, s': State, sid: SessionId)
    requires Inv(s) && Accepted(s, ev, now) && Effect(s, ev, now, s') && sid < |s.sessions| <= |s'.sessions|
    requires ev.Acquire? || ev.Refresh? || ev.Recover? || ev.AgentEnds?
    ensures NoActivation(s.sessions[sid], s'.sessions[sid])
  {
    hide Inv;
    hide Ended;
    hide Recovered;
    hide Refreshes;
    hide Acquires;
    if ev.Acquire? {
      AcquireSignals(s, ev, now, s');
    } else if ev.Refresh? {
      RefreshSignals(s, s', now);
    } else if ev.Recover? {
      RepairSignals(s, now);
    } else {
      EndBringsChildren(s, ev.run, ev.end, now, sid);
    }
  }

  lemma InputKeepsActive(s: State, ev: Event, now: int, s': State, sid: SessionId)
    requires Accepted(s, ev, now) && Effect(s, ev, now, s') && sid < |s.sessions| <= |s'.sessions|
    requires ev.UserInput? || ev.Post? || ev.UpdateGoal? || ev.ScheduleNext? || ev.SetPolicy? || ev.SetActive?
    requires ev.SetActive? ==> ev.sid != sid
    ensures NoActivation(s.sessions[sid], s'.sessions[sid])
  {
    hide WithUserInput;
    hide WithGoalBody;
    InputShape(s, ev, now, s');
    if ev.sid == sid {
      InputEntries(s.sessions[sid], ev);
    }
  }

  lemma InputEntries(s: Session, ev: Event)
    requires ev.UserInput? || (ev.Post? && ev.message.Message?) || ev.UpdateGoal? || ev.ScheduleNext? || ev.SetPolicy?
    ensures NoActivation(s, AfterInput(s, ev))
  {
  }

  lemma OtherStepsKeepActive(s: State, ev: Event, now: int, s': State, sid: SessionId)
    requires Accepted(s, ev, now) && Effect(s, ev, now, s') && sid < |s.sessions| <= |s'.sessions|
    requires ev.Declare? || ev.SetUnitActive? || ev.Link? || ev.Start? || ev.Create? || ev.RepairGraph?
      || (ev.ActivateSingleton? && ev.sid != sid)
    ensures NoActivation(s.sessions[sid], s'.sessions[sid])
  {
    hide SessionGraph.Rehome;
    hide SessionGraph.RootRepaired;
    hide SessionGraph.Reaches;
    hide LinkedUnder;
    hide FirstConflict;
  }

  /** Replay leaves activity that agrees with its log alone. */
  lemma ReloadKeepsActive(s: State, now: int, s': State, sid: SessionId)
    requires Inv(s) && Refreshes(AfterReplay(s), s', now) && sid < |s.sessions| <= |s'.sessions|
    requires ReplayedActive(s.sessions[sid].active, s.sessions[sid].log) == s.sessions[sid].active
    ensures NoActivation(s.sessions[sid], s'.sessions[sid])
  {
    ReplayIsPeaceful(s);
    RefreshSignals(AfterReplay(s), s', now);
    hide Inv;
    hide Peaceful;
    hide Restarted;
    assert SignalsOnly(AfterReplay(s).sessions[sid], s'.sessions[sid]);
  }

  /** What each step does to activity that agrees with the log: the log accounts for it, except when a
      singleton is switched on. */
  lemma StepExplainsActive(s: State, ev: Event, now: int, s': State, sid: SessionId)
    requires Inv(s) && Step(s, ev, now, s') && sid < |s.sessions| <= |s'.sessions|
    requires !(ev.ActivateSingleton? && ev.sid == sid)
    requires ReplayedActive(s.sessions[sid].active, s.sessions[sid].log) == s.sessions[sid].active
    ensures ActiveExplained(s.sessions[sid], s'.sessions[sid])
  {
    hide Inv;
    var before, after := s.sessions[sid], s'.sessions[sid];
    if !Accepted(s, ev, now) {
      NoActivationReplay(before.active, []);
      assert before.log[|before.log|..] == [];
    } else if ev.SetActive? && ev.sid == sid {
      assert after.log[|before.log|..] == [SessionActiveChanged(ev.active)];
    } else {
      hide Effect;
      hide Accepted;
      if ev.Acquire? || ev.Refresh? || ev.Recover? || ev.AgentEnds? {
        RuntimeStepKeepsActive(s, ev, now, s', sid);
      } else if ev.UserInput? || ev.Post? || ev.UpdateGoal? || ev.ScheduleNext? || ev.SetPolicy? || ev.SetActive? {
        InputKeepsActive(s, ev, now, s', sid);
      } else if ev.Reload? {
        EffectOfReload(s, now, s');
        ReloadKeepsActive(s, now, s', sid);
      } else {
        OtherStepsKeepActive(s, ev, now, s', sid);
      }
      NoActivationReplay(before.active, after.log[|before.log|..]);
    }
  }

  /** The step switches the singleton Session `sid` on. */
  ghost predicate Reactivates(s: State, ev: Event, now: int, sid: SessionId) {
    ev.ActivateSingleton? && ev.sid == sid && Accepted(s, ev, now)
  }

  lemma {:induction false} ActivityAgreesWithLog(states: seq<State>, moments: seq<Moment>, i: nat, sid: SessionId)
    requires IsBehaviour(states, moments) && |states| == |moments| + 1 && i < |states| && sid < |states[i].sessions|
    requires forall m | 0 <= m < i :: !Reactivates(states[m], moments[m].event, moments[m].now, sid)
    ensures ReplayedActive(states[i].sessions[sid].active, states[i].sessions[sid].log) == states[i].sessions[sid].active
  {
    if i > 0 {
      hide IsBehaviour;
      hide Inv;
      hide Step;
      hide Reactivates;
      hide ActiveExplained;
      hide ReplayedActive;
      hide Quiet;
      hide LogExplains;
      hide RunsContinue;
      hide AllTiled;
      var s, ev, now, s' := states[i - 1], moments[i - 1].event, moments[i - 1].now, states[i];
      AlwaysInv(states, moments, i - 1);
      BehaviourStep(states, moments, i - 1);
      StepKeepsInv(s, ev, now, s');
      if sid < |s.sessions| {
        ActivityAgreesWithLog(states, moments, i - 1, sid);
        assert !Reactivates(states[i - 1], moments[i - 1].event, moments[i - 1].now, sid);
        UnacceptedExplains(s, ev, now, s', sid);
        ActiveStaysStable(s.sessions[sid], s'.sessions[sid]);
      } else {
        NewSessionActivity(s, ev, now, s', sid);
      }
    }
  }

  lemma UnacceptedExplains(s: State, ev: Event, now: int, s': State, sid: SessionId)
    requires Inv(s) && Step(s, ev, now, s') && sid < |s.sessions| <= |s'.sessions|
    requires !Reactivates(s, ev, now, sid)
    requires ReplayedActive(s.sessions[sid].active, s.sessions[sid].log) == s.sessions[sid].active
    ensures ActiveExplained(s.sessions[sid], s'.sessions[sid])
  {
    if ev.ActivateSingleton? && ev.sid == sid {
      NoActivationReplay(s.sessions[sid].active, []);
      assert s.sessions[sid].log[|s.sessions[sid].log|..] == [];
    } else {
      StepExplainsActive(s, ev, now, s', sid);
    }
  }

  lemma NewSessionActivity(s: State, ev: Event, now: int, s': State, sid: SessionId)
    requires Inv(s) && Step(s, ev, now, s') && |s.sessions| <= sid < |s'.sessions|
    ensures ReplayedActive(s'.sessions[sid].active, s'.sessions[sid].log) == s'.sessions[sid].active
  {
    hide Inv;
    hide Ended;
    hide Recovered;
    hide Refreshes;
    hide Acquires;
    hide SessionGraph.Rehome;
    hide SessionGraph.RootRepaired;
    hide LinkedUnder;
    if !(ev.Start? || ev.Create?) {
      StepCounts(s, ev, now, s');
      assert false;
    }
    NoActivationReplay(true, s'.sessions[sid].log);
  }

  /** On a fully saved state of any run, replay changes nothing, in goals, cursors and activity, as long as
      the Session was never switched on as a singleton. */
  lemma SavedStateIsStable(states: seq<State>, moments: seq<Moment>, i: nat, sid: SessionId)
    requires IsBehaviour(states, moments) && |states| == |moments| + 1 && i < |states| && sid < |states[i].sessions|
    ensures
      var s := states[i].sessions[sid];
      Restarted(s) == s.(active := ReplayedActive(s.active, s.log))
    ensures (forall m | 0 <= m < i :: !Reactivates(states[m], moments[m].event, moments[m].now, sid)) ==>
      Restarted(states[i].sessions[sid]) == states[i].sessions[sid]
  {
    hide IsBehaviour;
    hide Replayed;
    hide Reactivates;
    AlwaysInv(states, moments, i);
    var s := states[i];
    assert GoalOk(s.sessions[sid], sid, s.runs);
    assert Cursor(s.sessions[sid], GoalManager) <= |s.sessions[sid].log| && Cursor(s.sessions[sid], WorkerAgent) <= |s.sessions[sid].log| by {
      assert CursorsOk(s.sessions);
    }
    if forall m | 0 <= m < i :: !Reactivates(states[m], moments[m].event, moments[m].now, sid) {
      ActivityAgreesWithLog(states, moments, i, sid);
    }
  }

  /** Switching a singleton on leaves no entry, so the next restart decides by the log: a Session that had
      been switched off is off again. */
  lemma ReactivationIsLost(s: Session, body: string)
    ensures Activated(s, body).active
    ensures Restarted(Activated(s, body)).active == ReplayedActive(true, s.log)
  {
    var after := Activated(s, body);
    assert after.log == s.log + [GM_SIGNAL, MarkedIncomplete(false, None)];
    ReplayedActiveConcat(true, s.log, [GM_SIGNAL, MarkedIncomplete(false, None)]);
    NoActivationReplay(ReplayedActive(true, s.log), [GM_SIGNAL, MarkedIncomplete(false, None)]);
  }

  // ---------------------------------------------------------------- crashes during a save

  /** When a step of any run is cut after the log append of a Session and before the metadata, startup
      arrives at the completion state of the finished save, if and only if the goal itself was in the
      metadata before: the log does not carry the goal record. */
  lemma CrashAfterAppend(states: seq<State>, moments: seq<Moment>, i: nat, sid: SessionId)
    requires IsBehaviour(states, moments) && i + 1 < |states| && sid < |states[i].sessions|
    ensures sid < |states[i + 1].sessions|
    ensures
      var before, after := states[i].sessions[sid], states[i + 1].sessions[sid];
      SameCompletion(Restarted(WithLog(before, after.log)), after) <==> (after.goal.Some? ==> before.goal.Some?)
  {
    AlwaysInv(states, moments, i);
    BehaviourStep(states, moments, i);
    StepKeepsInv(states[i], moments[i].event, moments[i].now, states[i + 1]);
    assert GoalOk(states[i].sessions[sid], sid, states[i].runs);
    hide IsBehaviour;
    hide Inv;
    hide AllTiled;
    hide Step;
    hide Quiet;
    hide Replayed;
    var before, after := states[i].sessions[sid], states[i + 1].sessions[sid];
    assert LogExplains(before, after);
    if before.goal.Some? {
      ReplayAfterCrash(before, after);
    }
  }

  /** Whatever part of a log survived, user input in it that no surviving completion follows leaves the
      goal incomplete. */
  lemma CrashWithinAppend(before: Session, log: seq<Entry>, k: nat)
    requires k < |log| && log[k].Message? && log[k].payload.userInput
    requires forall j | k < j < |log| :: !(log[j].GoalStateChanged? && log[j].state == Complete)
    requires before.goal.Some?
    ensures !Restarted(WithLog(before, log)).goal.value.complete
  {
    DurableInputReopens(before.goal.value.complete, log, k);
  }

  /** The logs of different Sessions are appended one after the other, and replay does not act on a
      completed child by itself. So a complete parent whose child completes is reopened after a crash
      exactly when the whole of the parent's own batch survived. */
  lemma ParentReopensWithWholeBatch(parent: Session, child: SessionId, log: seq<Entry>)
    requires parent.goal.Some? && parent.goal.value.complete && ReplayStable(parent)
    requires parent.log <= log <= Notified(parent, child).log
    ensures Restarted(WithLog(parent, log)).goal.value.complete <==> log != Notified(parent, child).log
  {
    var tail := log[|parent.log|..];
    assert log == parent.log + tail;
    var batch := [ChildGoalCompleted(child), MarkedIncomplete(false, None)];
    assert Notified(parent, child).log == parent.log + batch;
    assert tail == batch[..|tail|];
    ReplayedConcat(true, parent.log, tail);
    if |tail| == 0 {
      assert tail == [];
    } else if |tail| == 1 {
      assert tail == [ChildGoalCompleted(child)];
      assert tail[..0] == [];
    } else {
      assert tail == batch;
      MarkedReplay(true, batch, 1);
    }
  }

  // ---------------------------------------------------------------- the runtime after a crash

  /** The state that startup makes of old metadata and the logs on disk. */
  function Reloaded(s: State, logs: seq<seq<Entry>>): State
    requires |logs| == |s.sessions|
  {
    AfterReplay(s.(sessions := seq(|s.sessions|, i requires 0 <= i < |s.sessions| => WithLog(s.sessions[i], logs[i]))))
  }

  /** The logs hold everything that was saved, and perhaps more. */
  ghost predicate Survived(s: State, logs: seq<seq<Entry>>) {
    |logs| == |s.sessions| && forall i | 0 <= i < |logs| :: s.sessions[i].log <= logs[i]
  }

  lemma ReloadedIsLoose(s: State, logs: seq<seq<Entry>>)
    requires Inv(s) && Survived(s, logs)
    ensures LeaseCore(Reloaded(s, logs).sessions, s.runs, s.readiness, s.nextReadiness)
    ensures forall i, role | 0 <= i < |logs| :: Cursor(Reloaded(s, logs).sessions[i], role) == Cursor(s.sessions[i], role)
  {
    var s' := Reloaded(s, logs);
    assert CursorsOk(s.sessions);
    CoreOf(s.sessions, s.runs, s.readiness, s.nextReadiness);
    hide LeaseInv;
    hide LeaseCore;
    hide GoalsOk;
    hide Replayed;
    hide ReplayedActive;
    forall i | 0 <= i < |s.sessions|
      ensures Loose(s.sessions[i], s'.sessions[i])
    {
      assert Cursor(s.sessions[i], GoalManager) <= |s.sessions[i].log| && Cursor(s.sessions[i], WorkerAgent) <= |s.sessions[i].log|;
    }
    LooseKeepsCore(s.sessions, s'.sessions, s.runs, s.readiness, s.nextReadiness);
  }

  lemma RefreshKeepsLoose(a: State, b: State, now: int)
    requires LeaseCore(a.sessions, a.runs, a.readiness, a.nextReadiness) && Refreshes(a, b, now)
    ensures LeaseCore(b.sessions, b.runs, b.readiness, b.nextReadiness)
  {
    hide LeaseCore;
    hide ReadinessRefreshed;
    hide WaitEnds;
    forall i | 0 <= i < |a.sessions|
      ensures Loose(a.sessions[i], b.sessions[i])
    {
      assert b.sessions[i] == Expired(a.sessions[i], now);
    }
    LooseKeepsCore(a.sessions, b.sessions, a.runs, a.readiness, a.nextReadiness);
    RefreshKeepsCore(b.sessions, a.runs, a.readiness, b.readiness, a.nextReadiness, b.nextReadiness, now);
  }

  lemma RecoveryRestoresLease(b: State)
    requires LeaseCore(b.sessions, b.runs, b.readiness, b.nextReadiness)
    ensures var c := Recovered(b); LeaseInv(c.sessions, c.runs, c.readiness, c.nextReadiness)
  {
    hide LeaseCore;
    hide LeaseInv;
    hide InterruptedRoles;
    hide Resumable;
    var c := Recovered(b);
    RecoveryKeepsLease(b.sessions, b.runs, c.runs, b.readiness, c.readiness, b.nextReadiness);
    CalmKeepsLease(b.sessions, c.sessions, c.runs, c.readiness, c.nextReadiness);
  }

  /** Leases and windows across a crash: whatever part of the logs beyond the saved metadata survived,
      after replay, the refresh of startup and the recovery the whole lease invariant holds again, and the
      released windows still tile every log up to its cursor. */
  lemma CrashKeepsLeases(s: State, logs: seq<seq<Entry>>, b: State, now: int)
    requires Inv(s) && AllTiled(s) && Survived(s, logs) && Refreshes(Reloaded(s, logs), b, now)
    ensures var c := Recovered(b); LeaseInv(c.sessions, c.runs, c.readiness, c.nextReadiness) && AllTiled(c)
  {
    var a, c := Reloaded(s, logs), Recovered(b);
    ReloadedIsLoose(s, logs);
    RefreshKeepsLoose(a, b, now);
    RecoveryRestoresLease(b);
    hide Inv;
    hide LeaseInv;
    hide Refreshes;
    hide Tiled;
    hide Recovered;
    hide Reloaded;
    forall sid, role | 0 <= sid < |c.sessions|
      ensures Tiled(Cursor(c.sessions[sid], role), c.runs, sid, role)
    {
      assert Tiled(Cursor(s.sessions[sid], role), s.runs, sid, role);
      QuietTiles(s, c, sid, role);
    }
  }

  /** Signals end no wait. */
  lemma SignalsFireNothing(before: Session, after: Session, w: Wait, now: int)
    requires SignalsOnly(before, after)
    ensures WaitFires(after.log, w, now) <==> WaitFires(before.log, w, now)
  {
    SilentEntriesFireNothing(before, after, w, now);
  }

  /** After a crash the GoalManager of every active incomplete goal is ready once the runtime has replayed,
      refreshed, recovered and refreshed again, if and only if no wait survives: replay restores the wait
      that the metadata has, even when the log holds the input that had cancelled it. */
  lemma RestartIsHeard(s: State, logs: seq<seq<Entry>>, b: State, d: State, t0: int, t1: int, sid: SessionId)
    requires Inv(s) && Survived(s, logs) && t0 <= t1
    requires Refreshes(Reloaded(s, logs), b, t0) && Refreshes(Recovered(b), d, t1)
    requires sid < |s.sessions| && ActiveIncomplete(Reloaded(s, logs).sessions[sid])
    ensures HasReady(d.readiness, sid, GoalManager) <==>
      var waiting := s.sessions[sid].goal.value.waiting;
      waiting.None? || WaitFires(logs[sid], waiting.value, t1)
  {
    var a, c := Reloaded(s, logs), Recovered(b);
    ReloadedIsLoose(s, logs);
    RefreshKeepsLoose(a, b, t0);
    RecoveryRestoresLease(b);
    RecoveredShape(b, sid);
    RecoveredCursors(b);
    RefreshSignals(a, b, t0);
    hide Inv;
    hide LeaseInv;
    hide LeaseCore;
    hide ReadinessRefreshed;
    hide Woken;
    hide WaitFires;
    hide Recovered;
    hide Replayed;
    hide ReplayedActive;
    RefreshedList(a, b, t0);
    var x, y, z := a.sessions[sid], b.sessions[sid], c.sessions[sid];
    assert y == Expired(x, t0);
    HeardUnlessWaiting(c, d, t1, sid);
    if x.goal.value.waiting.Some? {
      var w := x.goal.value.waiting.value;
      assert SignalsOnly(x, y) && SignalsOnly(y, z);
      SignalsFireNothing(x, y, w, t1);
      SignalsFireNothing(y, z, w, t1);
    }
  }

  lemma RecoveredShape(b: State, sid: SessionId)
    requires LeaseCore(b.sessions, b.runs, b.readiness, b.nextReadiness) && sid < |b.sessions| && ActiveIncomplete(b.sessions[sid])
    ensures var c := Recovered(b);
      && |c.sessions| == |b.sessions| && c.sessions[sid].goal == b.sessions[sid].goal && c.sessions[sid].active
      && SignalsOnly(b.sessions[sid], c.sessions[sid])
      && !HasAcquiredRun(c.runs, sid, GoalManager) && !HasTakenReadiness(c.readiness, sid, GoalManager)
  {
    hide InterruptedRoles;
  }

  lemma RecoveredCursors(b: State)
    requires LeaseCore(b.sessions, b.runs, b.readiness, b.nextReadiness)
    ensures forall i | 0 <= i < |b.sessions| && ActiveIncomplete(b.sessions[i]) ::
      Woken(Recovered(b).sessions[i], GoalManager, HasAcquiredRun(Recovered(b).runs, i, WorkerAgent))
  {
    RecoveryIsTotal(b);
  }
}
