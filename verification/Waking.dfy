/** What a refresh makes of the unread log (src/goal/projections.py, src/goal/readiness.py), entry by entry: whom
    an entry wakes, which window the woken role gets, and from when on it may be dispatched. */
module Waking {
  import opened Wrappers
  import opened DispatchModel
  import opened Projection
  import opened Protocol
  import opened LeaseInvariant
  import opened GoalInvariant
  import opened StepInvariant
  import opened CommitInvariant
  import opened Liveness
  import opened Requirements

  /** Nobody runs the role or is about to. */
  ghost predicate IsFree(s: State, sid: SessionId, role: Role) {
    && (forall r | r in s.runs && r.lease == Acquired :: r.session != sid || r.role != role)
    && (forall e | e in s.readiness && e.status == Taken :: e.session != sid || e.role != role)
  }

  /** An active Session whose goal is incomplete and does not wait. */
  predicate IsOpen(s: Session) {
    s.active && s.goal.Some? && !s.goal.value.complete && s.goal.value.waiting.None?
  }

  /** The GoalManager that is free is ready after a refresh exactly for these: an activation, a signal for it, a
      completed child, user input that was not put off, a schedule update, what a Worker says to the Session,
      and, while no Worker runs, a goal that somebody else than a GoalManager reopened. */
  lemma GoalManagerIsReadyFor(s: State, s': State, now: int, sid: SessionId)
    requires Inv(s) && Refreshes(s, s', now) && sid < |s.sessions| && IsOpen(s.sessions[sid])
    requires IsFree(s, sid, GoalManager)
    ensures HasReady(s'.readiness, sid, GoalManager) <==>
      exists k | s.sessions[sid].goalManagerCursor <= k < |s.sessions[sid].log| ::
        var e := s.sessions[sid].log[k];
        || (e.SessionActiveChanged? && e.active)
        || (e.SystemSignal? && GoalManager in e.targets)
        || e.ChildGoalCompleted?
        || (e.GoalStateChanged? && e.state == Incomplete && !e.deferGoalManager && !e.byGoalManager
            && forall r | r in s.runs && r.lease == Acquired :: r.session != sid || r.role != WorkerAgent)
        || (e.Message? && e.payload.userInput && !e.payload.workerRequest && !e.payload.deferGoalManager)
        || (e.Message? && !e.payload.userInput && e.payload.scheduleUpdate)
        || (e.Message? && !e.payload.userInput && e.toSession
            && (e.payload.agentRole == Some(WorkerAgent) || e.sender == AgentSender(WorkerAgent)))
  {
    RefreshedRole(s, s', now, sid, GoalManager);
    hide Inv;
    hide Refreshes;
    hide HasReady;
    var log := s.sessions[sid].log;
    assert HasAcquiredRun(s.runs, sid, WorkerAgent) <==>
      !forall r | r in s.runs && r.lease == Acquired :: r.session != sid || r.role != WorkerAgent;
    assert forall k | s.sessions[sid].goalManagerCursor <= k < |log| ::
      WakeOf(log[k], GoalManager, HasAcquiredRun(s.runs, sid, WorkerAgent)) ==
      GoalManagerWake(log[k], HasAcquiredRun(s.runs, sid, WorkerAgent));
  }

  /** A Worker that is free is ready after a refresh exactly for a signal for it and for a request to the
      Session that a GoalManager made or that forwards user input. */
  lemma WorkerIsReadyFor(s: State, s': State, now: int, sid: SessionId)
    requires Inv(s) && Refreshes(s, s', now) && sid < |s.sessions| && IsOpen(s.sessions[sid])
    requires IsFree(s, sid, WorkerAgent)
    ensures HasReady(s'.readiness, sid, WorkerAgent) <==>
      exists k | s.sessions[sid].workerCursor <= k < |s.sessions[sid].log| ::
        var e := s.sessions[sid].log[k];
        || (e.SystemSignal? && WorkerAgent in e.targets)
        || (e.Message? && e.payload.workerRequest && e.toSession
            && (|| e.payload.agentRole == Some(GoalManager) || e.sender == AgentSender(GoalManager)
                || e.payload.workerFollowup))
  {
    RefreshedRole(s, s', now, sid, WorkerAgent);
    hide Inv;
    hide Refreshes;
    hide HasReady;
    var log := s.sessions[sid].log;
    assert forall k | s.sessions[sid].workerCursor <= k < |log| ::
      WakeOf(log[k], WorkerAgent, HasAcquiredRun(s.runs, sid, WorkerAgent)) == WorkerWake(log[k]);
  }

  /** The refresh of a role that is free, in one place. */
  lemma RefreshedRole(s: State, s': State, now: int, sid: SessionId, role: Role)
    requires Inv(s) && Refreshes(s, s', now) && sid < |s.sessions| && IsOpen(s.sessions[sid])
    requires IsFree(s, sid, role)
    ensures s'.sessions[sid] == s.sessions[sid]
    ensures HasReady(s'.readiness, sid, role) <==>
      Woken(s.sessions[sid], role, HasAcquiredRun(s.runs, sid, WorkerAgent))
    ensures forall e | e in s'.readiness && e.status == Ready && IsFor(e, sid, role) ::
      Derive(s.sessions[sid].log, Cursor(s.sessions[sid], role), role, HasAcquiredRun(s.runs, sid, WorkerAgent)) == Some(e.window)
  {
    hide Inv;
    hide Wakes;
    hide ReadyFor;
    RefreshedList(s, s', now);
    assert s'.sessions[sid] == Expired(s.sessions[sid], now);
    assert Open(s'.sessions, s.runs, s.readiness, sid, role);
    RefreshFollowsTheLog(s'.sessions, s.runs, s.readiness, s'.readiness, s.nextReadiness, s'.nextReadiness, now, sid, role);
    forall e | e in s'.readiness && e.status == Ready && IsFor(e, sid, role)
      ensures Projected(s'.sessions, s.runs, sid, role) == Some(e.window)
    {
      assert ReadyFor(s'.readiness, sid, role) == Some(e);
      assert RefreshedFor(s'.sessions, s.runs, s.readiness, s'.readiness, s.nextReadiness, s'.nextReadiness, now, sid, role);
    }
  }

  /** A refresh makes nothing ready for a Session that is off, has no incomplete goal or waits, nor for a role that
      is not free: whatever is ready for them afterwards was so before. */
  lemma NothingElseGetsReady(s: State, s': State, now: int, e: Readiness)
    requires Refreshes(s, s', now) && e in s'.readiness && e.status == Ready
    requires e.session >= |s'.sessions| || !IsOpen(s'.sessions[e.session]) || !IsFree(s, e.session, e.role)
    ensures e in s.readiness
  {
    RefreshedList(s, s', now);
    assert ReadyFor(s'.readiness, e.session, e.role) == Some(e);
    assert RefreshedFor(s'.sessions, s.runs, s.readiness, s'.readiness, s.nextReadiness, s'.nextReadiness, now, e.session, e.role);
    ReadyForIsMember(s.readiness, e.session, e.role);
    hide ReadyFor;
    hide Wakes;
  }

  // ---------------------------------------------------------------- from when on

  /** The reasons of a window are the waking entries behind the cursor, each with its own delay. */
  lemma {:induction false} ReasonIsEntry(log: seq<Entry>, from: nat, role: Role, activeWorker: bool, i: nat)
    requires i < |Wakes(log, from, role, activeWorker)|
    ensures
      var reason := Wakes(log, from, role, activeWorker)[i];
      from < reason.seqNo <= |log| && WakeOf(log[reason.seqNo - 1], role, activeWorker) == Some((reason.kind, reason.availableAfter))
  {
    hide WakeOf;
    var earlier := Wakes(log[..|log| - 1], from, role, activeWorker);
    if i < |earlier| {
      ReasonIsEntry(log[..|log| - 1], from, role, activeWorker, i);
    }
  }

  lemma {:induction false} EntryIsReason(log: seq<Entry>, from: nat, role: Role, activeWorker: bool, k: nat)
    requires from <= k < |log| && WakeOf(log[k], role, activeWorker).Some?
    ensures
      var wake := WakeOf(log[k], role, activeWorker).value;
      WakeReason(k + 1, wake.0, wake.1) in Wakes(log, from, role, activeWorker)
  {
    hide WakeOf;
    if k < |log| - 1 {
      EntryIsReason(log[..|log| - 1], from, role, activeWorker, k);
    }
  }

  lemma OnlySignalsAreDelayed(e: Entry, role: Role, activeWorker: bool)
    requires WakeOf(e, role, activeWorker).Some?
    ensures WakeOf(e, role, activeWorker).value.1 == if e.SystemSignal? then e.availableAfter else None
  {
  }

  /** A role that is ready may be dispatched at once, unless all that wakes it are delayed signals; then from
      the earliest of their times on. */
  lemma ReadyFromWhen(s: State, s': State, now: int, sid: SessionId, role: Role, e: Readiness)
    requires Inv(s) && Refreshes(s, s', now) && sid < |s.sessions| && IsOpen(s.sessions[sid])
    requires IsFree(s, sid, role)
    requires e in s'.readiness && e.status == Ready && e.session == sid && e.role == role
    ensures e.window.fromSeq == Cursor(s.sessions[sid], role) + 1 && e.window.toSeq == |s.sessions[sid].log|
    ensures
      var log, from, worker := s.sessions[sid].log, Cursor(s.sessions[sid], role), HasAcquiredRun(s.runs, sid, WorkerAgent);
      && (e.window.availableAfter.None? <==>
            exists k | from <= k < |log| :: WakeOf(log[k], role, worker).Some? && !(log[k].SystemSignal? && log[k].availableAfter.Some?))
      && (e.window.availableAfter.Some? ==>
            && (forall k | from <= k < |log| && WakeOf(log[k], role, worker).Some? ::
                  log[k].SystemSignal? && log[k].availableAfter.Some? && e.window.availableAfter.value <= log[k].availableAfter.value)
            && (exists k | from <= k < |log| ::
                  WakeOf(log[k], role, worker).Some? && log[k].SystemSignal? && log[k].availableAfter == e.window.availableAfter))
  {
    hide Inv;
    hide Refreshes;
    hide Wakes;
    hide WakeOf;
    hide Available;
    hide Cursor;
    RefreshedRole(s, s', now, sid, role);
    var log, from, worker := s.sessions[sid].log, Cursor(s.sessions[sid], role), HasAcquiredRun(s.runs, sid, WorkerAgent);
    DerivedDelay(log, from, role, worker);
  }

  lemma ReasonOf(log: seq<Entry>, from: nat, role: Role, worker: bool, k: nat) returns (i: nat)
    requires from <= k < |log| && WakeOf(log[k], role, worker).Some?
    ensures i < |Wakes(log, from, role, worker)|
    ensures Wakes(log, from, role, worker)[i].availableAfter == if log[k].SystemSignal? then log[k].availableAfter else None
  {
    hide Wakes;
    hide WakeOf;
    var wakes := Wakes(log, from, role, worker);
    EntryIsReason(log, from, role, worker, k);
    OnlySignalsAreDelayed(log[k], role, worker);
    var wake := WakeOf(log[k], role, worker).value;
    i :| 0 <= i < |wakes| && wakes[i] == WakeReason(k + 1, wake.0, wake.1);
  }

  lemma EntryOf(log: seq<Entry>, from: nat, role: Role, worker: bool, i: nat) returns (k: nat)
    requires i < |Wakes(log, from, role, worker)|
    ensures from <= k < |log| && WakeOf(log[k], role, worker).Some?
    ensures Wakes(log, from, role, worker)[i].availableAfter == if log[k].SystemSignal? then log[k].availableAfter else None
  {
    hide Wakes;
    hide WakeOf;
    ReasonIsEntry(log, from, role, worker, i);
    k := Wakes(log, from, role, worker)[i].seqNo - 1;
    OnlySignalsAreDelayed(log[k], role, worker);
  }

  lemma DerivedDelay(log: seq<Entry>, from: nat, role: Role, worker: bool)
    requires Derive(log, from, role, worker).Some?
    ensures
      var until := Derive(log, from, role, worker).value.availableAfter;
      && (until.None? <==>
            exists k | from <= k < |log| :: WakeOf(log[k], role, worker).Some? && !(log[k].SystemSignal? && log[k].availableAfter.Some?))
      && (until.Some? ==>
            && (forall k | from <= k < |log| && WakeOf(log[k], role, worker).Some? ::
                  log[k].SystemSignal? && log[k].availableAfter.Some? && until.value <= log[k].availableAfter.value)
            && (exists k | from <= k < |log| ::
                  WakeOf(log[k], role, worker).Some? && log[k].SystemSignal? && log[k].availableAfter == until))
  {
    hide Wakes;
    hide WakeOf;
    hide Available;
    var wakes := Wakes(log, from, role, worker);
    AvailableIsLeastDelay(wakes);
    var until := Available(wakes);
    forall k | from <= k < |log| && WakeOf(log[k], role, worker).Some? && until.Some?
      ensures log[k].SystemSignal? && log[k].availableAfter.Some? && until.value <= log[k].availableAfter.value
    {
      var i := ReasonOf(log, from, role, worker, k);
    }
    var i :| 0 <= i < |wakes| && wakes[i].availableAfter == until;
    var k := EntryOf(log, from, role, worker, i);
  }
}
