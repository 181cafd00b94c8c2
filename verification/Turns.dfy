/** What an agent turn that leaves its goal open hands on to (src/goal/dispatch.py). */
module Turns {
  import opened Wrappers
  import opened DispatchModel
  import opened Projection
  import opened Protocol
  import opened LeaseInvariant
  import opened StepInvariant
  import opened CommitInvariant
  import opened Preservation
  import opened Liveness

  /** The role has an unread entry that wakes it after the step. */
  ghost predicate RoleWoken(s: State, sid: SessionId, role: Role)
    requires sid < |s.sessions|
  {
    Woken(s.sessions[sid], role, HasAcquiredRun(s.runs, sid, WorkerAgent))
  }

  lemma LastEntryWakes(s: State, sid: SessionId, role: Role)
    requires sid < |s.sessions| && s.sessions[sid].log != []
    requires Cursor(s.sessions[sid], role) < |s.sessions[sid].log|
    requires var log := s.sessions[sid].log;
      WakeOf(log[|log| - 1], role, HasAcquiredRun(s.runs, sid, WorkerAgent)).Some?
    ensures RoleWoken(s, sid, role)
  {
  }

  /** The last entry of a commit is new to both roles. */
  lemma CommitEndsWith(s: State, r: RunId, list: seq<Readiness>, status: ReadinessStatus, goal: Option<Goal>,
                       entries: seq<Entry>, result: RunResult, role: Role)
    requires Inv(s) && r < |s.runs| && s.runs[r].lease == Acquired && s.runs[r].session < |s.sessions| && entries != []
    ensures
      var session := Committed(s, r, list, status, goal, entries, result).sessions[s.runs[r].session];
      && session.log != [] && session.log[|session.log| - 1] == entries[|entries| - 1]
      && Cursor(session, role) < |session.log|
  {
    AcquiredWindow(s, r);
    assert Cursor(s.sessions[s.runs[r].session], role) <= |s.sessions[s.runs[r].session].log| by {
      assert CursorsOk(s.sessions);
    }
  }

  lemma UndecidedTurnWakes(s: State, r: RunId, now: int)
    requires Inv(s) && r < |s.runs| && s.runs[r].lease == Acquired && s.runs[r].session < |s.sessions|
    ensures RoleWoken(CommitUndecided(s, r, now), s.runs[r].session, GoalManager)
  {
    CommitEndsWith(s, r, s.readiness, Resolved, s.sessions[s.runs[r].session].goal, [RetrySignal(now)],
      FinishedIncomplete, GoalManager);
    hide Inv;
    LastEntryWakes(CommitUndecided(s, r, now), s.runs[r].session, GoalManager);
  }

  lemma ReopeningWakes(s: State, r: RunId, list: seq<Readiness>, status: ReadinessStatus, goal: Option<Goal>,
                       entries: seq<Entry>)
    requires Inv(s) && r < |s.runs| && s.runs[r].lease == Acquired && s.runs[r].session < |s.sessions|
    requires entries != [] && entries[|entries| - 1] == MarkedIncomplete(false, Some(r))
    ensures
      var s', sid := Committed(s, r, list, status, goal, entries, FinishedIncomplete), s.runs[r].session;
      RoleWoken(s', sid, GoalManager) || HasAcquiredRun(s'.runs, sid, WorkerAgent)
  {
    CommitEndsWith(s, r, list, status, goal, entries, FinishedIncomplete, GoalManager);
    hide Inv;
    var s', sid := Committed(s, r, list, status, goal, entries, FinishedIncomplete), s.runs[r].session;
    if !HasAcquiredRun(s'.runs, sid, WorkerAgent) {
      LastEntryWakes(s', sid, GoalManager);
    }
  }

  lemma IncompleteTurnWakes(s: State, r: RunId)
    requires Inv(s) && r < |s.runs| && s.runs[r].lease == Acquired && s.runs[r].session < |s.sessions|
    requires !WorkerRequested(s, r, s.runs[r].session)
    ensures RoleWoken(CommitIncomplete(s, r), s.runs[r].session, WorkerAgent)
  {
    var sid := s.runs[r].session;
    CommitEndsWith(s, r, ResolvedFor(s.readiness, sid, true), Resolved, SetIncomplete(s.sessions[sid]).goal,
      [MarkedIncomplete(true, Some(r))] + [ImplicitRequest(r, s.runs[r])], FinishedIncomplete, WorkerAgent);
    hide Inv;
    hide WorkerRequested;
    LastEntryWakes(CommitIncomplete(s, r), sid, WorkerAgent);
  }

  lemma SilentWorkerWakes(s: State, r: RunId, remote: bool, now: int)
    requires Inv(s) && r < |s.runs| && s.runs[r].lease == Acquired && s.runs[r].session < |s.sessions|
    requires !Reported(s, r, remote)
    ensures RoleWoken(CommitWorker(s, r, remote, now), s.runs[r].session, GoalManager)
  {
    var handoff := if remote then [RemoteHandoff(r)] else [];
    CommitEndsWith(s, r, s.readiness, Resolved, s.sessions[s.runs[r].session].goal, handoff + [RetrySignal(now)],
      FinishedComplete, GoalManager);
    hide Inv;
    hide IsReport;
    LastEntryWakes(CommitWorker(s, r, remote, now), s.runs[r].session, GoalManager);
  }

  // ---------------------------------------------------------------- the silent turns

  /** Some entry from position `from` on wakes the role. */
  ghost predicate UnreadAfter(log: seq<Entry>, from: nat, role: Role, activeWorker: bool) {
    exists k | from <= k < |log| :: WakeOf(log[k], role, activeWorker).Some?
  }

  lemma UnreadAfterMore(log: seq<Entry>, more: seq<Entry>, from: nat, role: Role, activeWorker: bool)
    requires forall k | 0 <= k < |more| :: WakeOf(more[k], role, activeWorker).None?
    ensures UnreadAfter(log + more, from, role, activeWorker) <==> UnreadAfter(log, from, role, activeWorker)
  {
    hide WakeOf;
    var all := log + more;
    assert forall k | 0 <= k < |all| :: all[k] == if k < |log| then log[k] else more[k - |log|];
    if UnreadAfter(log, from, role, activeWorker) {
      var k :| from <= k < |log| && WakeOf(log[k], role, activeWorker).Some?;
      assert all[k] == log[k];
    }
  }

  /** A GoalManager that declared its goal incomplete after asking for a Worker, or beside one, adds no entry
      that wakes anybody. */
  lemma RequestedTurn(s: State, r: RunId)
    requires Inv(s) && r < |s.runs| && s.runs[r].lease == Acquired && s.runs[r].session < |s.sessions|
    requires s.runs[r].role == GoalManager && WorkerRequested(s, r, s.runs[r].session)
    ensures
      var s', sid := CommitIncomplete(s, r), s.runs[r].session;
      var worker := HasAcquiredRun(s.runs, sid, WorkerAgent);
      && (HasLiveRun(s'.runs, sid) <==> worker)
      && (RoleWoken(s', sid, GoalManager) <==>
            UnreadAfter(s.sessions[sid].log, s.runs[r].window.toSeq, GoalManager, worker))
      && (RoleWoken(s', sid, WorkerAgent) <==> Woken(s.sessions[sid], WorkerAgent, worker))
  {
    AcquiredWindow(s, r);
    OthersOfSession(s, r, CommitIncomplete(s, r).runs);
    hide Inv;
    hide WorkerRequested;
    hide HasLiveRun;
    hide HasAcquiredRun;
    var s', sid := CommitIncomplete(s, r), s.runs[r].session;
    var session := s.sessions[sid];
    var worker := HasAcquiredRun(s.runs, sid, WorkerAgent);
    var more := [MarkedIncomplete(true, Some(r))];
    assert s'.sessions[sid].log == session.log + more;
    UnreadAfterMore(session.log, more, s.runs[r].window.toSeq, GoalManager, worker);
    UnreadAfterMore(session.log, more, session.workerCursor, WorkerAgent, worker);
  }

  /** A Worker that reported adds no entry that wakes anybody either. */
  lemma ReportedTurn(s: State, r: RunId, remote: bool, now: int)
    requires Inv(s) && r < |s.runs| && s.runs[r].lease == Acquired && s.runs[r].session < |s.sessions|
    requires s.runs[r].role == WorkerAgent && Reported(s, r, remote)
    ensures
      var s', sid := CommitWorker(s, r, remote, now), s.runs[r].session;
      && (HasLiveRun(s'.runs, sid) <==> HasAcquiredRun(s.runs, sid, GoalManager))
      && (RoleWoken(s', sid, GoalManager) <==> Woken(s.sessions[sid], GoalManager, false))
      && (RoleWoken(s', sid, WorkerAgent) <==> UnreadAfter(s.sessions[sid].log, s.runs[r].window.toSeq, WorkerAgent, false))
  {
    AcquiredWindow(s, r);
    OthersOfSession(s, r, CommitWorker(s, r, remote, now).runs);
    hide Inv;
    hide IsReport;
    hide HasLiveRun;
    hide HasAcquiredRun;
    var s', sid := CommitWorker(s, r, remote, now), s.runs[r].session;
    var session := s.sessions[sid];
    var more := if remote then [RemoteHandoff(r)] else [];
    assert s'.sessions[sid].log == session.log + more;
    UnreadAfterMore(session.log, more, session.goalManagerCursor, GoalManager, false);
    UnreadAfterMore(session.log, more, s.runs[r].window.toSeq, WorkerAgent, false);
  }

  /** Beside a run of a Session only one of the other role can hold a lease. */
  lemma OthersOfSession(s: State, r: RunId, runs': seq<Run>)
    requires Inv(s) && r < |s.runs| && s.runs[r].lease == Acquired
    requires |runs'| == |s.runs| && runs'[r].lease != Acquired && forall i | 0 <= i < |runs'| && i != r :: runs'[i] == s.runs[i]
    ensures
      var sid, role := s.runs[r].session, s.runs[r].role;
      var other := if role == GoalManager then WorkerAgent else GoalManager;
      && (HasLiveRun(runs', sid) <==> HasAcquiredRun(s.runs, sid, other))
      && !HasAcquiredRun(runs', sid, role)
      && (HasAcquiredRun(runs', sid, other) <==> HasAcquiredRun(s.runs, sid, other))
  {
    assert OneRun(s.runs);
    hide Inv;
    var sid, role := s.runs[r].session, s.runs[r].role;
    var other := if role == GoalManager then WorkerAgent else GoalManager;
    forall q | q in runs' && q.lease == Acquired && q.session == sid
      ensures q in s.runs && q.role == other
    {
      var i :| 0 <= i < |runs'| && runs'[i] == q;
      assert i != r && s.runs[i] == q;
    }
    forall q | q in s.runs && RunsFor(q, sid, other)
      ensures q in runs'
    {
      var i :| 0 <= i < |s.runs| && s.runs[i] == q;
      assert i != r;
    }
  }

  /** The turn adds nothing that wakes anybody, because its request or its report counts as made already,
      and whoever was to act on it has read it: no other role of the Session runs, and nothing is unread
      that would wake one. */
  ghost predicate LeavesNobody(s: State, r: RunId, end: AgentEnd)
    requires r < |s.runs| && s.runs[r].session < |s.sessions|
  {
    var sid, to := s.runs[r].session, s.runs[r].window.toSeq;
    var session := s.sessions[sid];
    if s.runs[r].role == GoalManager then
      && end.Returned? && s.runs[r].declared == Some(DeclaredIncomplete)
      && WorkerRequested(s, r, sid) && !HasAcquiredRun(s.runs, sid, WorkerAgent)
      && !UnreadAfter(session.log, to, GoalManager, false) && !Woken(session, WorkerAgent, false)
    else
      && end.Returned?
      && Reported(s, r, end.remote) && !HasAcquiredRun(s.runs, sid, GoalManager)
      && !Woken(session, GoalManager, false) && !UnreadAfter(session.log, to, WorkerAgent, false)
  }

  /** When a turn lets an open goal drop, exactly. After a turn that passed its fence and left its goal
      incomplete and not waiting, an unread entry wakes the GoalManager or the Worker, or the other role is
      running, except where the turn leaves nobody in the sense above. That this takes a Worker whose
      reports all claim another slot is shown of whole runs in `Handover`. */
  lemma OpenTurnHandsOn(s: State, r: RunId, end: AgentEnd, now: int)
    requires Inv(s) && r < |s.runs| && s.runs[r].session < |s.sessions| && Fence(s, r).None?
    requires
      var after := Ended(s, r, end, now).sessions[s.runs[r].session];
      after.goal.Some? && !after.goal.value.complete && after.goal.value.waiting.None?
    ensures
      var s', sid := Ended(s, r, end, now), s.runs[r].session;
      (RoleWoken(s', sid, GoalManager) || RoleWoken(s', sid, WorkerAgent) || HasLiveRun(s'.runs, sid))
      <==> !LeavesNobody(s, r, end)
  {
    FencePassed(s, r);
    hide Inv;
    hide Fence;
    hide RoleWoken;
    hide WorkerRequested;
    hide Reported;
    hide UnreadAfter;
    hide Woken;
    hide HasLiveRun;
    var sid := s.runs[r].session;
    var session := s.sessions[sid];
    match end
    case ProviderError =>
      ReopeningWakes(s, r, s.readiness, Failed, SetIncomplete(session).goal, [MarkedIncomplete(false, Some(r))]);
    case Returned(timing, remote) =>
      if s.runs[r].role == WorkerAgent {
        if Reported(s, r, remote) {
          ReportedTurn(s, r, remote, now);
        } else {
          SilentWorkerWakes(s, r, remote, now);
        }
      } else {
        match s.runs[r].declared
        case None => UndecidedTurnWakes(s, r, now);
        case Some(DeclaredWaiting(kind, wakeLogSeq)) => DecidedTurnIsClosed(s, r, end, now);
        case Some(DeclaredIncomplete) =>
          if WorkerRequested(s, r, sid) {
            RequestedTurn(s, r);
          } else {
            IncompleteTurnWakes(s, r);
          }
        case Some(DeclaredComplete(next)) =>
          if GateFor(s, r, next, timing, now).Blocked? {
            ReopeningWakes(s, r, s.readiness, Resolved, SetIncomplete(session).goal,
              [GM_SIGNAL, MarkedIncomplete(false, Some(r))]);
          } else {
            DecidedTurnIsClosed(s, r, end, now);
          }
      }
  }

  /** The other turns of a GoalManager complete the goal or make it wait. */
  lemma DecidedTurnIsClosed(s: State, r: RunId, end: AgentEnd, now: int)
    requires Inv(s) && r < |s.runs| && s.runs[r].session < |s.sessions| && Fence(s, r).None?
    requires end.Returned? && s.runs[r].role == GoalManager && s.runs[r].declared.Some?
    requires !s.runs[r].declared.value.DeclaredIncomplete?
    requires s.runs[r].declared.value.DeclaredComplete? ==>
      !GateFor(s, r, s.runs[r].declared.value.nextRunAt, end.timing, now).Blocked?
    ensures
      var after := Ended(s, r, end, now).sessions[s.runs[r].session];
      after.goal.Some? && (after.goal.value.complete || after.goal.value.waiting.Some?)
  {
    FencePassed(s, r);
    hide LeaseInv;
    hide FirstConflict;
    if s.runs[r].declared.value.DeclaredComplete? {
      var gate := GateFor(s, r, s.runs[r].declared.value.nextRunAt, end.timing, now);
      OwnCompletionKeepsInv(s, r, gate);
      NotifyingKeepsInv(OwnCompletion(s, r, gate), s.runs[r].session);
    }
  }
}
