/** What ends the wait of a goal (src/goal/readiness.py, `_expire_goal_waiting`), by the kind of the wait, from
    its declaration to the refresh that ends it. */
module Waits {
  import opened Wrappers
  import opened DispatchModel
  import opened Projection
  import opened Protocol
  import opened LeaseInvariant
  import opened GoalInvariant
  import opened Replay
  import opened StepInvariant
  import opened CommitInvariant
  import opened Preservation
  import opened Liveness
  import opened Requirements

  // ---------------------------------------------------------------- one refresh

  /** A refresh ends the wait of an active Session or leaves the whole Session as it was, and the GoalManager
      is ready afterwards if and only if the wait has ended. */
  lemma RefreshOfWait(s: State, s': State, now: int, sid: SessionId)
    requires Inv(s) && Refreshes(s, s', now) && sid < |s.sessions| && s.sessions[sid].active
    requires s.sessions[sid].goal.Some? && s.sessions[sid].goal.value.waiting.Some?
    ensures s'.sessions[sid].goal.Some?
    ensures s'.sessions[sid].goal.value.waiting.None? <==>
              WaitFires(s.sessions[sid].log, s.sessions[sid].goal.value.waiting.value, now)
    ensures s'.sessions[sid].goal.value.waiting.None? <==> HasReady(s'.readiness, sid, GoalManager)
    ensures s'.sessions[sid] == s.sessions[sid]
      || s'.sessions[sid] == s.sessions[sid].(goal := s'.sessions[sid].goal,
           log := s.sessions[sid].log + [SystemSignal({GoalManager}, None)])
  {
    WaitingIsIdle(s, sid);
    LeaseOf(s);
    hide Inv;
    hide LeaseInv;
    hide WaitFires;
    hide ReadinessRefreshed;
    HeardUnlessWaiting(s, s', now, sid);
    assert s'.sessions[sid] == Expired(s.sessions[sid], now);
  }

  /** A wait for a time ends at a refresh if and only if the time has come; then the GoalManager is ready. */
  lemma DeadlineWaitIsExact(s: State, s': State, now: int, sid: SessionId, until: int)
    requires Inv(s) && Refreshes(s, s', now) && sid < |s.sessions| && s.sessions[sid].active
    requires s.sessions[sid].goal.Some? && s.sessions[sid].goal.value.waiting.Some?
    requires s.sessions[sid].goal.value.waiting.value.kind == Deadline(until)
    ensures s'.sessions[sid].goal.Some? && (s'.sessions[sid].goal.value.waiting.None? <==> until <= now)
    ensures HasReady(s'.readiness, sid, GoalManager) <==> until <= now
  {
    hide Inv;
    hide Refreshes;
    hide HasReady;
    RefreshOfWait(s, s', now, sid);
  }

  /** A wait for an event ends at a refresh if and only if a message with that event lies behind the position
      the wait looks from. */
  lemma EventWaitIsExact(s: State, s': State, now: int, sid: SessionId, name: string)
    requires Inv(s) && Refreshes(s, s', now) && sid < |s.sessions| && s.sessions[sid].active
    requires s.sessions[sid].goal.Some? && s.sessions[sid].goal.value.waiting.Some?
    requires s.sessions[sid].goal.value.waiting.value.kind == OnEvent(name)
    ensures s'.sessions[sid].goal.Some?
    ensures s'.sessions[sid].goal.value.waiting.None? <==>
      exists k | s.sessions[sid].goal.value.waiting.value.wakeLogSeq <= k < |s.sessions[sid].log| ::
        s.sessions[sid].log[k].Message? && name in s.sessions[sid].log[k].payload.wakeEvents
    ensures HasReady(s'.readiness, sid, GoalManager) <==> s'.sessions[sid].goal.value.waiting.None?
  {
    hide Inv;
    hide Refreshes;
    hide HasReady;
    RefreshOfWait(s, s', now, sid);
  }

  /** A wait for a child ends at a refresh if and only if a completion of that child lies behind the window of
      the run that declared the wait. */
  lemma ChildWaitIsExact(s: State, s': State, now: int, sid: SessionId, child: SessionId)
    requires Inv(s) && Refreshes(s, s', now) && sid < |s.sessions| && s.sessions[sid].active
    requires s.sessions[sid].goal.Some? && s.sessions[sid].goal.value.waiting.Some?
    requires s.sessions[sid].goal.value.waiting.value.kind == OnChild(child)
    ensures s'.sessions[sid].goal.Some? && s.sessions[sid].goal.value.waiting.value.declaredRun < |s.runs|
    ensures s'.sessions[sid].goal.value.waiting.None? <==>
      exists k | s.runs[s.sessions[sid].goal.value.waiting.value.declaredRun].window.toSeq <= k < |s.sessions[sid].log| ::
        s.sessions[sid].log[k] == ChildGoalCompleted(child)
    ensures HasReady(s'.readiness, sid, GoalManager) <==> s'.sessions[sid].goal.value.waiting.None?
  {
    RefreshOfWait(s, s', now, sid);
    var session := s.sessions[sid];
    var w := session.goal.value.waiting.value;
    assert GoalOk(session, sid, s.runs);
    hide Inv;
    hide Refreshes;
    hide HasReady;
    hide Replayed;
    if k :| s.runs[w.declaredRun].window.toSeq <= k < |session.log| && session.log[k] == ChildGoalCompleted(child) {
      assert WaitedFor(session.log[k], w.kind, w.declaredRun);
    }
  }

  /** A refresh touches no Session that is switched off, has no goal or does not wait. */
  lemma NoWaitNoChange(s: State, s': State, now: int, sid: SessionId)
    requires Refreshes(s, s', now) && sid < |s.sessions|
    requires !s.sessions[sid].active || s.sessions[sid].goal.None? || s.sessions[sid].goal.value.waiting.None?
    ensures s'.sessions[sid] == s.sessions[sid]
  {
    hide ReadinessRefreshed;
    assert s'.sessions[sid] == Expired(s.sessions[sid], now);
  }
}
