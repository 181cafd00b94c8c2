/** What happens to a result that comes back too late (src/goal/dispatch.py,
    `_stale_dispatch_fence_locked` and `_discard_stale_dispatch_result_locked`). */
module Fencing {
  import opened Wrappers
  import opened DispatchModel
  import opened Protocol
  import opened LeaseInvariant
  import opened GoalInvariant
  import opened StepInvariant
  import opened CommitInvariant
  import opened Preservation
  import opened WindowTiling
  import opened Behaviours
  import opened Liveness

  /** The fence lets a result through exactly when the run still holds its lease, the goal's body is the
      one it was given, and behind its window there is no revised body, no completed child, and no message
      or state change but the run's own. */
  lemma FenceIsExact(s: State, r: RunId)
    requires r < |s.runs| && s.runs[r].session < |s.sessions|
    ensures
      var run, session := s.runs[r], s.sessions[s.runs[r].session];
      Fence(s, r).None? <==>
        && run.lease == Acquired && session.goal.Some? && session.goal.value.body == run.observedBody
        && forall k | run.window.toSeq <= k < |session.log| ::
             && !session.log[k].GoalBodyUpdated? && !session.log[k].ChildGoalCompleted?
             && (session.log[k].Message? ==> session.log[k].payload.runId == Some(r))
             && (session.log[k].GoalStateChanged? ==> session.log[k].run == Some(r))
  {
    var run, session := s.runs[r], s.sessions[s.runs[r].session];
    if FirstConflict(session.log, run.window.toSeq, r).None? {
      forall k | run.window.toSeq <= k < |session.log|
        ensures Conflict(session.log[k], r).None?
      {
        NoConflictAfter(session.log, run.window.toSeq, r, k);
      }
    } else {
      SomeConflict(session.log, run.window.toSeq, r);
    }
  }

  /** Why a result is held back: the first of these to fail, and among the entries the first conflicting one. */
  lemma FenceNamesTheFirst(s: State, r: RunId)
    requires r < |s.runs| && s.runs[r].session < |s.sessions| && Fence(s, r).Some?
    ensures
      var run, session, reason := s.runs[r], s.sessions[s.runs[r].session], Fence(s, r).value;
      if run.lease != Acquired then reason == NotAcquired
      else if session.goal.None? then reason == MissingGoal
      else if session.goal.value.body != run.observedBody then reason == GoalUpdated
      else exists k | run.window.toSeq <= k < |session.log| ::
        && Conflict(session.log[k], r) == Some(reason)
        && (forall j | run.window.toSeq <= j < k :: Conflict(session.log[j], r).None?)
        && (session.log[k].GoalBodyUpdated? ==> reason == BodyRevised)
        && (session.log[k].ChildGoalCompleted? ==> reason == ChildDone)
        && (session.log[k].Message? ==> reason == NewerMessage)
        && (session.log[k].GoalStateChanged? ==> reason == NewerState)
  {
    var run, session := s.runs[r], s.sessions[s.runs[r].session];
    if FirstConflict(session.log, run.window.toSeq, r).Some? {
      FirstIsFirst(session.log, run.window.toSeq, r);
    }
  }

  lemma {:induction false} FirstIsFirst(log: seq<Entry>, from: nat, run: RunId)
    requires FirstConflict(log, from, run).Some?
    ensures exists k | from <= k < |log| ::
      Conflict(log[k], run) == FirstConflict(log, from, run) && forall j | from <= j < k :: Conflict(log[j], run).None?
    decreases |log| - from
  {
    if Conflict(log[from], run).None? {
      FirstIsFirst(log, from + 1, run);
    }
  }

  /** Over whole runs: the step that completes a goal is the return of a GoalManager run that holds its
      lease, has seen the goal's body and has declared completion; behind its window every message and
      every state change carries its id, and no body was revised and no child completed. */
  lemma CompletionSawEverything(states: seq<State>, moments: seq<Moment>, i: nat, sid: SessionId)
    requires IsBehaviour(states, moments) && i < |moments|
    requires i + 1 < |states| && !IsComplete(states[i], sid) && IsComplete(states[i + 1], sid)
    ensures moments[i].event.AgentEnds? && moments[i].event.run < |states[i].runs| && sid < |states[i].sessions|
    ensures
      var r, goal := moments[i].event.run, states[i].sessions[sid].goal;
      var run, log := states[i].runs[r], states[i].sessions[sid].log;
      && run.session == sid && run.role == GoalManager && run.lease == Acquired
      && run.declared.Some? && run.declared.value.DeclaredComplete?
      && goal.Some? && goal.value.body == run.observedBody
      && forall k | run.window.toSeq <= k < |log| ::
           && !log[k].GoalBodyUpdated? && !log[k].ChildGoalCompleted?
           && (log[k].Message? ==> log[k].payload.runId == Some(r))
           && (log[k].GoalStateChanged? ==> log[k].run == Some(r))
  {
    var s, ev, s' := states[i], moments[i].event, states[i + 1];
    BehaviourStep(states, moments, i);
    AlwaysInv(states, moments, i);
    hide IsBehaviour;
    hide Inv;
    hide AllTiled;
    hide Step;
    hide Fence;
    StepKeepsInv(s, ev, moments[i].now, s');
    assert Decides(s, ev, sid);
    if s.runs[ev.run].declared.value.DeclaredWaiting? {
      EffectOfEnd(s, ev.run, ev.end, moments[i].now, s');
      WaitingDoesNotComplete(s, ev.run, ev.end, moments[i].now);
    }
    FenceIsExact(s, ev.run);
  }

  /** A result whose run has lost its lease decides nothing: only the run's own record and one signal
      to the GoalManager of its Session change. */
  lemma LostLeaseDecidesNothing(s: State, r: RunId, end: AgentEnd, now: int)
    requires Inv(s) && r < |s.runs| && s.runs[r].lease != Acquired && s.runs[r].session < |s.sessions|
    ensures
      var s', sid := Ended(s, r, end, now), s.runs[r].session;
      && s'.units == s.units && s'.edges == s.edges
      && s'.readiness == s.readiness && s'.nextReadiness == s.nextReadiness
      && |s'.sessions| == |s.sessions| && |s'.runs| == |s.runs|
      && (forall i | 0 <= i < |s.runs| && i != r :: s'.runs[i] == s.runs[i])
      && s'.runs[r] == s.runs[r].(staleResults := s.runs[r].staleResults + 1)
      && (forall i | 0 <= i < |s.sessions| && i != sid :: s'.sessions[i] == s.sessions[i])
      && s'.sessions[sid] == s.sessions[sid].(log := s'.sessions[sid].log)
      && s'.sessions[sid].log == s.sessions[sid].log + [GM_SIGNAL]
      && Woken(s'.sessions[sid], GoalManager, HasAcquiredRun(s'.runs, sid, WorkerAgent))
  {
    var s', sid := Ended(s, r, end, now), s.runs[r].session;
    assert CursorsOk(s.sessions) && Cursor(s.sessions[sid], GoalManager) <= |s.sessions[sid].log|;
    hide Inv;
    assert s' == Discarded(s, r);
    SignalWakes(s'.sessions[sid], GoalManager, {GoalManager}, HasAcquiredRun(s'.runs, sid, WorkerAgent));
  }

  /** A run that still holds its lease but has been overtaken gives it up: no goal changes, its readiness
      is no longer live, its role's cursor moves over its window and no further, and an entry that wakes
      the GoalManager lies beyond the GoalManager's cursor. */
  lemma OvertakenRunIsReleased(s: State, r: RunId, end: AgentEnd, now: int)
    requires Inv(s) && r < |s.runs| && s.runs[r].lease == Acquired && s.runs[r].session < |s.sessions|
    requires Fence(s, r).Some?
    ensures
      var s', sid, role := Ended(s, r, end, now), s.runs[r].session, s.runs[r].role;
      && |s'.sessions| == |s.sessions|
      && (forall i | 0 <= i < |s.sessions| :: s'.sessions[i].goal == s.sessions[i].goal)
      && s'.sessions[sid].active == s.sessions[sid].active
      && Settles(s, r, s')
      && s'.runs[r].result == s.runs[r].result
      && !HasAcquiredRun(s'.runs, sid, role)
      && (forall e | e in s'.readiness && Live(e) :: !IsFor(e, sid, role))
      && s'.sessions[sid].log == s.sessions[sid].log + [GM_SIGNAL]
      && Woken(s'.sessions[sid], GoalManager, HasAcquiredRun(s'.runs, sid, WorkerAgent))
  {
    hide FirstConflict;
    hide Settles;
    var s', sid := Ended(s, r, end, now), s.runs[r].session;
    DiscardSettles(s, r);
    AcquiredWindow(s, r);
    assert CursorsOk(s.sessions) && Cursor(s.sessions[sid], GoalManager) <= |s.sessions[sid].log|;
    ResolvedShrinks(s.readiness, sid, false, s.runs[r].readinessId, true, Stale);
    ReleaseKeepsLease(s.sessions, s.runs, s.readiness, s.nextReadiness, r, s'.runs[r], s'.readiness);
    hide Inv;
    SignalWakes(s'.sessions[sid], GoalManager, {GoalManager}, HasAcquiredRun(s'.runs, sid, WorkerAgent));
  }

  /** What overtook a GoalManager run is what the next one sees: after the next refresh of an active
      Session its GoalManager is ready again, with every conflicting entry inside its window. */
  lemma ConflictIsReviewedNext(s: State, r: RunId, end: AgentEnd, now: int, s': State, later: int, k: nat)
    requires Inv(s) && r < |s.runs| && s.runs[r].lease == Acquired && s.runs[r].session < |s.sessions|
    requires s.runs[r].role == GoalManager && s.sessions[s.runs[r].session].active
    requires s.runs[r].window.toSeq <= k < |s.sessions[s.runs[r].session].log|
    requires
      var e := s.sessions[s.runs[r].session].log[k];
      || e.GoalBodyUpdated? || e.ChildGoalCompleted?
      || (e.Message? && e.payload.runId != Some(r))
      || (e.GoalStateChanged? && e.run != Some(r))
    requires Refreshes(Ended(s, r, end, now), s', later)
    ensures HasReady(s'.readiness, s.runs[r].session, GoalManager)
    ensures forall e | e in s'.readiness && e.status == Ready && IsFor(e, s.runs[r].session, GoalManager) ::
      e.window.fromSeq == s.runs[r].window.toSeq + 1 <= k + 1 <= e.window.toSeq
  {
    var mid, sid := Ended(s, r, end, now), s.runs[r].session;
    FenceIsExact(s, r);
    OvertakenRunIsReleased(s, r, end, now);
    ManagedGoalIsIncomplete(s, r);
    RefreshedList(mid, s', later);
    hide Inv;
    hide Fence;
    hide Ended;
    hide ReadinessRefreshed;
    hide Woken;
    assert s'.sessions[sid] == mid.sessions[sid] by {
      assert s'.sessions[sid] == Expired(mid.sessions[sid], later);
    }
    assert Open(s'.sessions, mid.runs, mid.readiness, sid, GoalManager);
    RefreshFollowsTheLog(s'.sessions, mid.runs, mid.readiness, s'.readiness, mid.nextReadiness, s'.nextReadiness, later,
      sid, GoalManager);
  }

  /** The race of a wait with what it is for: when such an entry from outside the declaring run is already
      in the log after the run's window, the wait is not committed at all. */
  lemma RacedWaitIsFenced(s: State, r: RunId, kind: WaitKind, k: nat)
    requires r < |s.runs| && s.runs[r].session < |s.sessions|
    requires s.runs[r].window.toSeq <= k < |s.sessions[s.runs[r].session].log|
    requires WaitedFor(s.sessions[s.runs[r].session].log[k], kind, r)
    ensures Fence(s, r).Some?
  {
    FenceIsExact(s, r);
  }
}
