/** What each way of ending a run leaves behind (src/goal/dispatch.py), for the goal, the log, the readiness and
    the parents. */
module Outcomes {
  import opened Wrappers
  import opened DispatchModel
  import opened Projection
  import opened Protocol
  import opened LeaseInvariant
  import opened GoalInvariant
  import opened Replay
  import opened StepInvariant
  import opened CommitInvariant
  import opened Preservation
  import opened WindowTiling
  import opened Behaviours
  import opened Liveness
  import opened Requirements
  import opened TurnEnds
  import opened Turns
  import opened Fencing
  import opened Forwarding
  import opened Waking
  import Schedule
  import SessionGraph

  /** Every end of a known run is taken, late or not. */
  lemma EveryEndIsTaken(s: State, r: RunId, end: AgentEnd, now: int, s': State)
    requires Inv(s) && Step(s, AgentEnds(r, end), now, s') && r < |s.runs|
    ensures s.runs[r].session < |s.sessions| && s' == Ended(s, r, end, now)
  {
    RunFacts(s, r);
    hide Inv;
    hide Ended;
  }

  // ---------------------------------------------------------------- the frame of every end past the fence

  /** The run gives up its lease with this result, its role's cursor stands at the end of its window, its
      readiness gets this status, and its Session changes in nothing else but goal and log. */
  ghost predicate Closes(s: State, r: RunId, s': State, result: RunResult, status: ReadinessStatus)
    requires r < |s.runs| && s.runs[r].session < |s.sessions|
  {
    var run, before := s.runs[r], s.sessions[s.runs[r].session];
    && s'.edges == s.edges && |s'.sessions| == |s.sessions|
    && s'.runs == s.runs[r := run.(lease := Released, result := result)]
    && |s'.readiness| == |s.readiness|
    && (forall i | 0 <= i < |s.readiness| && s.readiness[i].id == run.readinessId :: s'.readiness[i].status == status)
    && (forall i | 0 <= i < |s.readiness| :: s'.readiness[i] == s.readiness[i].(status := s'.readiness[i].status))
    && before.log <= s'.sessions[run.session].log
    && s'.sessions[run.session] == before.(
         goal := s'.sessions[run.session].goal, log := s'.sessions[run.session].log,
         goalManagerCursor := if run.role == GoalManager then run.window.toSeq else before.goalManagerCursor,
         workerCursor := if run.role == WorkerAgent then run.window.toSeq else before.workerCursor)
  }

  /** No other Session and no Unit changes, and no other readiness of the Session. */
  ghost predicate OnlyOwn(s: State, r: RunId, s': State)
    requires r < |s.runs| && s.runs[r].session < |s.sessions|
  {
    && s'.units == s.units && |s'.sessions| == |s.sessions| && |s'.readiness| == |s.readiness|
    && (forall i | 0 <= i < |s.sessions| && i != s.runs[r].session :: s'.sessions[i] == s.sessions[i])
    && (forall i | 0 <= i < |s.readiness| && s.readiness[i].id != s.runs[r].readinessId :: s'.readiness[i] == s.readiness[i])
  }

  /** A late result of a run that still held its lease decides nothing: the run gives it up with one more stale
      result, its readiness is given up, its cursor moves, and the GoalManager gets a signal. */
  lemma DiscardedTurn(s: State, r: RunId, end: AgentEnd, now: int)
    requires Inv(s) && r < |s.runs| && s.runs[r].session < |s.sessions|
    requires s.runs[r].lease == Acquired && Fence(s, r).Some?
    ensures
      var s', sid, run := Ended(s, r, end, now), s.runs[r].session, s.runs[r];
      && OnlyOwn(s, r, s') && s'.edges == s.edges
      && s'.runs == s.runs[r := run.(lease := Released, staleResults := run.staleResults + 1)]
      && (forall i | 0 <= i < |s.readiness| && s.readiness[i].id == run.readinessId ::
            s'.readiness[i] == if s.readiness[i].status == Taken then s.readiness[i].(status := Stale) else s.readiness[i])
      && s'.sessions[sid] == s.sessions[sid].(
           log := s.sessions[sid].log + [SystemSignal({GoalManager}, None)],
           goalManagerCursor := if run.role == GoalManager then run.window.toSeq else s.sessions[sid].goalManagerCursor,
           workerCursor := if run.role == WorkerAgent then run.window.toSeq else s.sessions[sid].workerCursor)
  {
    hide FirstConflict;
    AcquiredWindow(s, r);
  }

  /** A provider error reopens the goal, keeps its wait and its body, and says so in the log. */
  lemma FailedTurn(s: State, r: RunId, now: int)
    requires Inv(s) && r < |s.runs| && s.runs[r].session < |s.sessions| && Fence(s, r).None?
    ensures
      var s', sid := Ended(s, r, ProviderError, now), s.runs[r].session;
      && Closes(s, r, s', FinishedIncomplete, Failed) && OnlyOwn(s, r, s')
      && s.sessions[sid].goal.Some?
      && s'.sessions[sid].goal == Some(s.sessions[sid].goal.value.(complete := false))
      && s'.sessions[sid].log == s.sessions[sid].log + [GoalStateChanged(Incomplete, false, Some(r), false)]
  {
    hide FirstConflict;
    AcquiredWindow(s, r);
  }

  /** A Worker's turn leaves the goal alone. When the log has no message of the run under its own sender to the
      Session, it leaves a signal to the GoalManager, 30 seconds later. */
  lemma WorkerTurn(s: State, r: RunId, timing: Schedule.Timing, remote: bool, now: int)
    requires Inv(s) && r < |s.runs| && s.runs[r].session < |s.sessions| && Fence(s, r).None?
    requires s.runs[r].role == WorkerAgent
    ensures
      var s', sid, run := Ended(s, r, Returned(timing, remote), now), s.runs[r].session, s.runs[r];
      var reported := exists k | 0 <= k < |s.sessions[sid].log| ::
        && s.sessions[sid].log[k].Message? && s.sessions[sid].log[k].toSession
        && s.sessions[sid].log[k].payload.runId == Some(r)
        && s.sessions[sid].log[k].sender
           == (if run.agentUser.Some? then UserSender(run.agentUser.value) else AgentSender(WorkerAgent));
      && Closes(s, r, s', FinishedComplete, Resolved) && OnlyOwn(s, r, s')
      && s'.sessions[sid].goal == s.sessions[sid].goal
      && s'.sessions[sid].log == s.sessions[sid].log
           + (if remote then [Message(PLAIN.(runId := Some(r)), OtherSender, false)] else [])
           + (if reported then [] else [SystemSignal({GoalManager}, Some(now + 30))])
  {
    hide FirstConflict;
    AcquiredWindow(s, r);
    var sid, run := s.runs[r].session, s.runs[r];
    var log := s.sessions[sid].log;
    var all := log + (if remote then [RemoteHandoff(r)] else []);
    if Reported(s, r, remote) {
      var e :| e in all && IsReport(e, r, run);
      assert e in log;
      var k :| 0 <= k < |log| && log[k] == e;
    } else {
      forall k | 0 <= k < |log|
        ensures !IsReport(log[k], r, run)
      {
        assert all[k] in all && all[k] == log[k];
      }
    }
  }

  /** A GoalManager that decided nothing leaves the goal alone and a signal to itself, 30 seconds later. */
  lemma UndecidedTurn(s: State, r: RunId, timing: Schedule.Timing, remote: bool, now: int)
    requires Inv(s) && r < |s.runs| && s.runs[r].session < |s.sessions| && Fence(s, r).None?
    requires s.runs[r].role == GoalManager && s.runs[r].declared.None?
    ensures
      var s', sid := Ended(s, r, Returned(timing, remote), now), s.runs[r].session;
      && Closes(s, r, s', FinishedIncomplete, Resolved) && OnlyOwn(s, r, s')
      && s'.sessions[sid].goal == s.sessions[sid].goal
      && s'.sessions[sid].log == s.sessions[sid].log + [SystemSignal({GoalManager}, Some(now + 30))]
  {
    hide FirstConflict;
    AcquiredWindow(s, r);
  }

  /** A declared wait is committed as it was declared: for the same thing, from the same position. */
  lemma WaitingTurn(s: State, r: RunId, timing: Schedule.Timing, remote: bool, now: int, kind: WaitKind, position: nat)
    requires Inv(s) && r < |s.runs| && s.runs[r].session < |s.sessions| && Fence(s, r).None?
    requires s.runs[r].role == GoalManager && s.runs[r].declared == Some(DeclaredWaiting(kind, position))
    ensures
      var s', sid := Ended(s, r, Returned(timing, remote), now), s.runs[r].session;
      && Closes(s, r, s', FinishedIncomplete, Resolved) && s'.units == s.units
      && (forall i | 0 <= i < |s.sessions| && i != sid :: s'.sessions[i] == s.sessions[i])
      && s.sessions[sid].goal.Some?
      && s'.sessions[sid].goal == Some(Goal(s.sessions[sid].goal.value.body, false, Some(Wait(kind, position, r))))
      && s'.sessions[sid].log == s.sessions[sid].log + [GoalStateChanged(Waiting, false, Some(r), false)]
  {
    hide FirstConflict;
    AcquiredWindow(s, r);
    ManagedGoalIsIncomplete(s, r);
  }

  /** A Worker is ready, about to run or running, or the run has asked for one already. */
  predicate WorkerIsComing(s: State, r: RunId, sid: SessionId)
    requires sid < |s.sessions|
  {
    || (exists e | e in s.readiness ::
          (e.status == Ready || e.status == Taken) && e.session == sid && e.role == WorkerAgent)
    || (exists q | q in s.runs :: q.lease == Acquired && q.session == sid && q.role == WorkerAgent)
    || (exists e | e in s.sessions[sid].log :: e.Message? && e.payload.runId == Some(r) && e.payload.workerRequest)
  }

  lemma RequestedMeansComing(s: State, r: RunId, sid: SessionId)
    requires sid < |s.sessions|
    ensures WorkerRequested(s, r, sid) <==> WorkerIsComing(s, r, sid)
  {
    assert (exists e | e in s.readiness :: Live(e) && IsFor(e, sid, WorkerAgent)) <==>
      exists e | e in s.readiness :: (e.status == Ready || e.status == Taken) && e.session == sid && e.role == WorkerAgent;
    assert HasAcquiredRun(s.runs, sid, WorkerAgent) <==>
      exists q | q in s.runs :: q.lease == Acquired && q.session == sid && q.role == WorkerAgent;
    assert (exists e | e in s.sessions[sid].log :: IsWorkerRequest(e, r)) <==>
      exists e | e in s.sessions[sid].log :: e.Message? && e.payload.runId == Some(r) && e.payload.workerRequest;
  }

  /** A GoalManager that declared its goal incomplete asks for a Worker, unless one is coming already. */
  lemma IncompleteTurn(s: State, r: RunId, timing: Schedule.Timing, remote: bool, now: int)
    requires Inv(s) && r < |s.runs| && s.runs[r].session < |s.sessions| && Fence(s, r).None?
    requires s.runs[r].role == GoalManager && s.runs[r].declared == Some(DeclaredIncomplete)
    ensures
      var s', sid, run := Ended(s, r, Returned(timing, remote), now), s.runs[r].session, s.runs[r];
      var sender := if run.agentUser.Some? then UserSender(run.agentUser.value) else AgentSender(GoalManager);
      && Closes(s, r, s', FinishedIncomplete, Resolved) && s'.units == s.units
      && (forall i | 0 <= i < |s.sessions| && i != sid :: s'.sessions[i] == s.sessions[i])
      && s.sessions[sid].goal.Some?
      && s'.sessions[sid].goal == Some(Goal(s.sessions[sid].goal.value.body, false, None))
      && s'.sessions[sid].log == s.sessions[sid].log + [GoalStateChanged(Incomplete, true, Some(r), false)]
           + (if WorkerIsComing(s, r, sid) then []
              else [Message(PLAIN.(workerRequest := true, agentRole := Some(GoalManager), runId := Some(r)), sender, true)])
  {
    hide FirstConflict;
    hide WorkerRequested;
    hide WorkerIsComing;
    AcquiredWindow(s, r);
    ManagedGoalIsIncomplete(s, r);
    RequestedMeansComing(s, r, s.runs[r].session);
  }

  /** What a Session makes of a child's completion, and what any other Session makes of it: nothing. */
  ghost predicate Told(edges: seq<SessionGraph.Edge>, before: Session, after: Session, i: SessionId, child: SessionId) {
    if exists e | e in edges :: e.parent == i && e.child == child then
      var reopened := before.goal.Some? && before.goal.value.complete;
      && after == before.(goal := after.goal, log := after.log)
      && after.goal == (if reopened then Some(before.goal.value.(complete := false)) else before.goal)
      && after.log == before.log + [ChildGoalCompleted(child)]
                      + (if reopened then [GoalStateChanged(Incomplete, false, None, false)] else [])
    else after == before
  }

  /** A declared completion that the schedule blocks reopens the goal and calls the GoalManager at once. */
  lemma BlockedTurn(s: State, r: RunId, timing: Schedule.Timing, remote: bool, now: int, next: Option<int>)
    requires Inv(s) && r < |s.runs| && s.runs[r].session < |s.sessions| && Fence(s, r).None?
    requires s.runs[r].role == GoalManager && s.runs[r].declared == Some(DeclaredComplete(next))
    requires GateFor(s, r, next, timing, now).Blocked?
    ensures
      var s', sid := Ended(s, r, Returned(timing, remote), now), s.runs[r].session;
      && Closes(s, r, s', FinishedIncomplete, Resolved) && OnlyOwn(s, r, s')
      && s'.sessions[sid].goal == s.sessions[sid].goal
      && s'.sessions[sid].log == s.sessions[sid].log
           + [SystemSignal({GoalManager}, None), GoalStateChanged(Incomplete, false, Some(r), false)]
  {
    hide FirstConflict;
    hide GateFor;
    AcquiredWindow(s, r);
    ManagedGoalIsIncomplete(s, r);
    assert Ended(s, r, Returned(timing, remote), now) == CommitBlocked(s, r);
  }

  /** One that goes through completes the goal, leaves nothing ready or taken for its Session, and tells every
      parent, by the edges, reopening those that were complete. */
  lemma CompletedTurn(s: State, r: RunId, timing: Schedule.Timing, remote: bool, now: int, next: Option<int>)
    requires Inv(s) && r < |s.runs| && s.runs[r].session < |s.sessions| && Fence(s, r).None?
    requires s.runs[r].role == GoalManager && s.runs[r].declared == Some(DeclaredComplete(next))
    requires !GateFor(s, r, next, timing, now).Blocked?
    ensures
      var s', sid, gate := Ended(s, r, Returned(timing, remote), now), s.runs[r].session, GateFor(s, r, next, timing, now);
      var before, after := s.sessions[sid], s'.sessions[sid];
      && before.goal.Some? && Closes(s, r, s', FinishedComplete, Resolved)
      && after.goal == Some(before.goal.value.(complete := true))
      && after.log == before.log
           + (if gate.Resolved?
              then [Message(PLAIN.(scheduleUpdate := true, runId := Some(r)), AgentSender(GoalManager), true)] else [])
           + [GoalStateChanged(Complete, true, Some(r), false)]
      && (forall e | e in s'.readiness && e.session == sid :: e.status != Ready && e.status != Taken)
      && (forall i | 0 <= i < |s.readiness| && s.readiness[i].session != sid && s.readiness[i].id != s.runs[r].readinessId ::
            s'.readiness[i] == s.readiness[i])
      && (forall i | 0 <= i < |s.sessions| && i != sid :: Told(s.edges, s.sessions[i], s'.sessions[i], i, sid))
  {
    hide FirstConflict;
    hide GateFor;
    hide Told;
    hide Closes;
    AcquiredWindow(s, r);
    ManagedGoalIsIncomplete(s, r);
    NoSelfParent(s, r);
    hide Inv;
    var gate := GateFor(s, r, next, timing, now);
    var sid, done := s.runs[r].session, OwnCompletion(s, r, gate);
    var s' := ParentsNotified(done, sid);
    assert Ended(s, r, Returned(timing, remote), now) == s';
    forall i | 0 <= i < |s.sessions| && i != sid
      ensures Told(s.edges, s.sessions[i], s'.sessions[i], i, sid)
    {
      NotifiedIsTold(done.edges, s.sessions[i], i, sid);
    }
    OwnCompletionCloses(s, r, gate, s');
  }

  lemma NotifiedIsTold(edges: seq<SessionGraph.Edge>, before: Session, i: SessionId, child: SessionId)
    ensures Told(edges, before, if i in ParentIds(edges, child) then Notified(before, child) else before, i, child)
  {
  }

  lemma OwnCompletionCloses(s: State, r: RunId, gate: Schedule.Gate, s': State)
    requires r < |s.runs| && s.runs[r].session < |s.sessions| && s.runs[r].role == GoalManager
    requires s.sessions[s.runs[r].session].goal.Some?
    requires WindowOk(s.sessions[s.runs[r].session], GoalManager, s.runs[r].window)
    requires s' == ParentsNotified(OwnCompletion(s, r, gate), s.runs[r].session)
    requires s.runs[r].session !in ParentIds(s.edges, s.runs[r].session)
    ensures Closes(s, r, s', FinishedComplete, Resolved)
    ensures forall e | e in s'.readiness && e.session == s.runs[r].session :: e.status != Ready && e.status != Taken
    ensures forall i | 0 <= i < |s.readiness| && s.readiness[i].session != s.runs[r].session && s.readiness[i].id != s.runs[r].readinessId ::
      s'.readiness[i] == s.readiness[i]
  {
    hide Notified;
  }

  // ---------------------------------------------------------------- completions and parents

  /** The turn that completes a goal. */
  lemma CompletingTurn(s: State, ev: Event, now: int, s': State, sid: SessionId)
    requires Inv(s) && Step(s, ev, now, s') && sid < |s.sessions|
    requires !IsComplete(s, sid) && IsComplete(s', sid)
    ensures ev.AgentEnds? && ev.end.Returned? && ev.run < |s.runs| && s.runs[ev.run].session == sid
    ensures s.runs[ev.run].role == GoalManager && s.runs[ev.run].declared.Some?
    ensures s.runs[ev.run].declared.value.DeclaredComplete? && Fence(s, ev.run).None?
    ensures !GateFor(s, ev.run, s.runs[ev.run].declared.value.nextRunAt, ev.end.timing, now).Blocked?
    ensures s' == Ended(s, ev.run, ev.end, now)
  {
    hide Inv;
    hide Ended;
    hide Fence;
    hide LogExplains;
    hide Quiet;
    hide RunsContinue;
    hide GateFor;
    hide Closes;
    hide OnlyOwn;
    hide Step;
    CompletionDecides(s, ev, now, s', sid);
    if s.runs[ev.run].declared.value.DeclaredWaiting? {
      WaitingDoesNotComplete(s, ev.run, ev.end, now);
    } else if GateFor(s, ev.run, s.runs[ev.run].declared.value.nextRunAt, ev.end.timing, now).Blocked? {
      BlockedTurn(s, ev.run, ev.end.timing, ev.end.remote, now, s.runs[ev.run].declared.value.nextRunAt);
    }
  }

  lemma CompletionDecides(s: State, ev: Event, now: int, s': State, sid: SessionId)
    requires Inv(s) && Step(s, ev, now, s') && sid < |s.sessions|
    requires !IsComplete(s, sid) && IsComplete(s', sid)
    ensures Decides(s, ev, sid) && s' == Ended(s, ev.run, ev.end, now)
  {
    hide Inv;
    hide Effect;
    hide Ended;
    hide Fence;
    hide LogExplains;
    hide RunsContinue;
    StepKeepsInv(s, ev, now, s');
    EffectOfEnd(s, ev.run, ev.end, now, s');
  }

  /** Whenever a goal turns complete, each of its parents, and nobody else, has the completion in its log, is
      incomplete, and keeps its body and its wait; and nothing is ready or taken for the goal's Session. */
  lemma CompletionTellsParents(s: State, ev: Event, now: int, s': State, sid: SessionId)
    requires Inv(s) && Step(s, ev, now, s') && sid < |s.sessions|
    requires !IsComplete(s, sid) && IsComplete(s', sid)
    ensures |s'.sessions| == |s.sessions|
    ensures forall i | 0 <= i < |s.sessions| && i != sid :: Told(s.edges, s.sessions[i], s'.sessions[i], i, sid)
    ensures forall e | e in s.edges && e.child == sid && e.parent < |s.sessions| :: !IsComplete(s', e.parent)
    ensures forall e | e in s'.readiness && e.session == sid :: e.status != Ready && e.status != Taken
  {
    hide Inv;
    hide Step;
    hide Ended;
    hide Fence;
    hide GateFor;
    hide Told;
    CompletingTurn(s, ev, now, s', sid);
    CompletedTurn(s, ev.run, ev.end.timing, ev.end.remote, now, s.runs[ev.run].declared.value.nextRunAt);
    NoSelfEdge(s, sid);
    forall e | e in s.edges && e.child == sid && e.parent < |s.sessions|
      ensures !IsComplete(s', e.parent)
    {
      ToldIsIncomplete(s.edges, e, s.sessions[e.parent], s'.sessions[e.parent]);
    }
  }

  lemma ToldIsIncomplete(edges: seq<SessionGraph.Edge>, e: SessionGraph.Edge, before: Session, after: Session)
    requires e in edges && Told(edges, before, after, e.parent, e.child)
    ensures after.goal.Some? ==> !after.goal.value.complete
  {
  }

  lemma NoSelfEdge(s: State, sid: SessionId)
    requires Inv(s)
    ensures forall e | e in s.edges :: e.parent != e.child
  {
  }

  /** A completed child is never made up: when its completion enters a log, the child's goal has turned
      complete in that very step, and the log is one of its parents'. */
  lemma ChildCompletionIsTrue(s: State, ev: Event, now: int, s': State, sid: SessionId, k: nat)
    requires Inv(s) && Step(s, ev, now, s') && sid < |s'.sessions|
    requires sid < |s.sessions| ==> |s.sessions[sid].log| <= k
    requires k < |s'.sessions[sid].log| && s'.sessions[sid].log[k].ChildGoalCompleted?
    requires ev.Post? ==> ev.message.Message?
    ensures
      var child := s'.sessions[sid].log[k].child;
      && child < |s.sessions| && !IsComplete(s, child) && IsComplete(s', child)
      && exists e | e in s.edges :: e.parent == sid && e.child == child
  {
    hide Inv;
    hide Step;
    hide Ended;
    hide Fence;
    hide GateFor;
    RequirementSources(s, ev, now, s', sid, k);
    EndedChild(s, ev, now, s', sid, k);
  }

  lemma EndedChild(s: State, ev: Event, now: int, s': State, sid: SessionId, k: nat)
    requires Inv(s) && Step(s, ev, now, s') && sid < |s'.sessions| && Accepted(s, ev, now)
    requires sid < |s.sessions| && |s.sessions[sid].log| <= k < |s'.sessions[sid].log|
    requires ev.AgentEnds? && sid != s.runs[ev.run].session && s'.sessions[sid].log[k].ChildGoalCompleted?
    ensures
      var child := s'.sessions[sid].log[k].child;
      && child < |s.sessions| && !IsComplete(s, child) && IsComplete(s', child)
      && exists e | e in s.edges :: e.parent == sid && e.child == child
  {
    hide Inv;
    hide Ended;
    hide Fence;
    hide GateFor;
    hide Closes;
    var r, end := ev.run, ev.end;
    EndKeepsSessions(s, r, end, now);
    if Fence(s, r).Some? {
      LateResult(s, r, end, now);
    } else {
      FencePassed(s, r);
      if end.ProviderError? {
        FailedTurn(s, r, now);
      } else if s.runs[r].role == WorkerAgent {
        WorkerTurn(s, r, end.timing, end.remote, now);
      } else {
        match s.runs[r].declared
        case None => UndecidedTurn(s, r, end.timing, end.remote, now);
        case Some(DeclaredWaiting(kind, position)) => WaitingTurn(s, r, end.timing, end.remote, now, kind, position);
        case Some(DeclaredIncomplete) => IncompleteTurn(s, r, end.timing, end.remote, now);
        case Some(DeclaredComplete(next)) =>
          if GateFor(s, r, next, end.timing, now).Blocked? {
            BlockedTurn(s, r, end.timing, end.remote, now, next);
          } else {
            CompletedTurn(s, r, end.timing, end.remote, now, next);
            ManagedGoalIsIncomplete(s, r);
          }
      }
    }
  }

  lemma LateResult(s: State, r: RunId, end: AgentEnd, now: int)
    requires r < |s.runs| && s.runs[r].session < |s.sessions| && Fence(s, r).Some?
    ensures forall i | 0 <= i < |s.sessions| && i != s.runs[r].session :: Ended(s, r, end, now).sessions[i] == s.sessions[i]
  {
    hide FirstConflict;
  }

  // ---------------------------------------------------------------- the retry

  /** A GoalManager that decided nothing is tried again, but not before 30 seconds have passed: the next refresh
      of the active goal makes it ready, and as long as nothing else behind its window wakes it, its
      readiness is available from 30 seconds after the turn on. */
  lemma RetryWaits(s: State, r: RunId, timing: Schedule.Timing, remote: bool, now: int, s': State, later: int)
    requires Inv(s) && r < |s.runs| && s.runs[r].session < |s.sessions| && Fence(s, r).None?
    requires s.runs[r].role == GoalManager && s.runs[r].declared.None? && s.sessions[s.runs[r].session].active
    requires Refreshes(Ended(s, r, Returned(timing, remote), now), s', later)
    ensures HasReady(s'.readiness, s.runs[r].session, GoalManager)
    ensures
      var session := s.sessions[s.runs[r].session];
      (forall k | s.runs[r].window.toSeq <= k < |session.log| ::
         WakeOf(session.log[k], GoalManager, HasAcquiredRun(s.runs, s.runs[r].session, WorkerAgent)).None?) ==>
        forall e | e in s'.readiness && e.status == Ready && e.session == s.runs[r].session && e.role == GoalManager ::
          e.window.availableAfter == Some(now + 30)
  {
    hide Inv;
    hide Fence;
    hide Ended;
    hide OnlyOwn;
    hide Refreshes;
    hide HasAcquiredRun;
    hide WakeOf;
    var sid, mid := s.runs[r].session, Ended(s, r, Returned(timing, remote), now);
    UndecidedTurn(s, r, timing, remote, now);
    FencePassed(s, r);
    ManagedGoalIsIncomplete(s, r);
    AgentEndKeepsInv(s, r, Returned(timing, remote), now);
    EndedIsFree(s, r, mid);
    SignalIsWake(mid.sessions[sid].log[|s.sessions[sid].log|], HasAcquiredRun(mid.runs, sid, WorkerAgent));
    AcquiredWindow(s, r);
    RefreshedRole(mid, s', later, sid, GoalManager);
    forall e | e in s'.readiness && e.status == Ready && e.session == sid && e.role == GoalManager
      && forall k | s.runs[r].window.toSeq <= k < |s.sessions[sid].log| ::
           WakeOf(s.sessions[sid].log[k], GoalManager, HasAcquiredRun(s.runs, sid, WorkerAgent)).None?
      ensures e.window.availableAfter == Some(now + 30)
    {
      ReadyFromWhen(mid, s', later, sid, GoalManager, e);
      assert forall k | 0 <= k < |s.sessions[sid].log| :: mid.sessions[sid].log[k] == s.sessions[sid].log[k];
    }
  }

  lemma SignalIsWake(e: Entry, activeWorker: bool)
    requires e.SystemSignal? && GoalManager in e.targets
    ensures WakeOf(e, GoalManager, activeWorker).Some?
  {
  }

  /** Nobody runs the role of a run that has ended, and the other role goes on as before. */
  lemma EndedIsFree(s: State, r: RunId, mid: State)
    requires Inv(s) && Inv(mid) && r < |s.runs| && s.runs[r].lease == Acquired
    requires |mid.runs| == |s.runs| && mid.runs[r].lease != Acquired
    requires forall i | 0 <= i < |s.runs| && i != r :: mid.runs[i] == s.runs[i]
    ensures IsFree(mid, s.runs[r].session, s.runs[r].role)
    ensures forall role | role != s.runs[r].role ::
      HasAcquiredRun(mid.runs, s.runs[r].session, role) <==> HasAcquiredRun(s.runs, s.runs[r].session, role)
  {
    hide Inv;
    OthersOfSession(s, r, mid.runs);
    TakenHasOwner(mid);
    forall q | q in mid.runs && q.lease == Acquired
      ensures q.session != s.runs[r].session || q.role != s.runs[r].role
    {
      assert !RunsFor(q, s.runs[r].session, s.runs[r].role);
    }
  }

  lemma TakenHasOwner(s: State)
    requires Inv(s)
    ensures forall e | e in s.readiness && e.status == Taken :: exists r | r in s.runs :: Owns(r, e)
  {
    hide GoalsOk;
  }

  // ---------------------------------------------------------------- overtaken turns

  /** Once a revised body, a completed child, or a message or state change of anybody else lies behind a run's
      window, that run never decides anything, whenever it ends and with whatever result: no goal changes. */
  lemma OvertakenNeverDecides(states: seq<State>, moments: seq<Moment>, i: nat, j: nat, r: RunId, k: nat)
    requires IsBehaviour(states, moments) && i <= j < |moments| < |states|
    requires r < |states[i].runs| && states[i].runs[r].session < |states[i].sessions|
    requires states[i].runs[r].window.toSeq <= k < |states[i].sessions[states[i].runs[r].session].log|
    requires
      var e := states[i].sessions[states[i].runs[r].session].log[k];
      || e.GoalBodyUpdated? || e.ChildGoalCompleted?
      || (e.Message? && e.payload.runId != Some(r))
      || (e.GoalStateChanged? && e.run != Some(r))
    requires moments[j].event.AgentEnds? && moments[j].event.run == r
    ensures |states[j + 1].sessions| == |states[j].sessions|
    ensures forall t | 0 <= t < |states[j].sessions| :: states[j + 1].sessions[t].goal == states[j].sessions[t].goal
  {
    hide IsBehaviour;
    hide Inv;
    hide AllTiled;
    hide Effect;
    hide Ended;
    hide Fence;
    hide Woken;
    hide Settles;
    LaterStates(states, moments, i, j);
    AlwaysInv(states, moments, j);
    BehaviourStep(states, moments, j);
    var s, end := states[j], moments[j].event.end;
    var sid := s.runs[r].session;
    FenceIsExact(s, r);
    assert s.sessions[sid].log[k] == states[i].sessions[sid].log[k];
    EffectOfEnd(s, r, end, moments[j].now, states[j + 1]);
    if s.runs[r].lease == Acquired {
      OvertakenRunIsReleased(s, r, end, moments[j].now);
    } else {
      LostLeaseDecidesNothing(s, r, end, moments[j].now);
    }
  }

  /** A revised body is in the goal, which is open again; and no run at work at that time decides anything any
      more. */
  lemma RevisionReachesEveryRun(s: State, now: int, s': State, sid: SessionId, body: string)
    requires Inv(s) && Step(s, UpdateGoal(sid, body), now, s') && sid < |s.sessions| && body != ""
    ensures |s'.sessions| == |s.sessions| && s'.runs == s.runs && s.sessions[sid].log <= s'.sessions[sid].log
    ensures s'.sessions[sid].goal.Some? && s'.sessions[sid].goal.value.body == body && !s'.sessions[sid].goal.value.complete
    ensures s.sessions[sid].goal.Some? ==> s'.sessions[sid].goal.value.waiting == s.sessions[sid].goal.value.waiting
    ensures forall r | 0 <= r < |s.runs| && s.runs[r].session == sid && s.runs[r].lease == Acquired ::
      && s.runs[r].window.toSeq <= |s.sessions[sid].log| < |s'.sessions[sid].log|
      && s'.sessions[sid].log[|s.sessions[sid].log|].GoalBodyUpdated?
      && Fence(s', r).Some?
  {
    hide Inv;
    hide FirstConflict;
    hide Acquires;
    hide Refreshes;
    hide Ended;
    hide Recovered;
    hide AfterReplay;
    hide MayPost;
    hide HomesOk;
    hide OwnersRepaired;
    hide LinkedUnder;
    forall r | 0 <= r < |s.runs| && s.runs[r].session == sid && s.runs[r].lease == Acquired
      ensures s.runs[r].window.toSeq <= |s.sessions[sid].log| && s.sessions[sid].goal.Some?
      ensures Fence(s', r).Some?
    {
      AcquiredWindow(s, r);
      FenceIsExact(s', r);
      assert s'.sessions[sid].log[|s.sessions[sid].log|].GoalBodyUpdated?;
    }
  }
}
