/** What the end of a run writes, in one shape for every way it can end (src/goal/dispatch.py). */
module TurnEnds {
  import opened Wrappers
  import opened DispatchModel
  import opened Protocol
  import opened StepInvariant
  import Schedule

  /** Entries by which a finished turn speaks to others or for itself. */
  predicate Tells(e: Entry, r: RunId) {
    (e.SystemSignal? && e.targets == {GoalManager}) || (e.GoalStateChanged? && e.run == Some(r))
  }

  predicate WrittenAtEnd(s: State, r: RunId, e: Entry)
    requires r < |s.runs|
  {
    || Tells(e, r)
    || e == RemoteHandoff(r)
    || e == ScheduleMessage(Some(r))
    || (s.runs[r].role == GoalManager && e == ImplicitRequest(r, s.runs[r]))
  }

  /** The end of a run appends these entries to its own Session's log, and otherwise only tells parents. */
  ghost predicate EndsWith(s: State, r: RunId, s': State, entries: seq<Entry>)
    requires r < |s.runs|
  {
    var own := s.runs[r].session;
    && own < |s.sessions| == |s'.sessions| && |s'.runs| == |s.runs|
    && (forall i | 0 <= i < |s.runs| && i != r :: s'.runs[i] == s.runs[i])
    && s'.sessions[own].log == s.sessions[own].log + entries && s'.sessions[own].active == s.sessions[own].active
    && (forall e | e in entries :: WrittenAtEnd(s, r, e))
    && (forall i | 0 <= i < |s.sessions| && i != own ::
          s'.sessions[i] == s.sessions[i] || s'.sessions[i] == Notified(s.sessions[i], own))
  }

  lemma CommitWrites(s: State, r: RunId, s0: State, list: seq<Readiness>, status: ReadinessStatus,
                       goal: Option<Goal>, entries: seq<Entry>, result: RunResult)
    requires r < |s.runs| && s.runs[r].session < |s.sessions| && s0 == s.(units := s0.units)
    requires forall e | e in entries :: WrittenAtEnd(s, r, e)
    ensures EndsWith(s, r, Committed(s0, r, list, status, goal, entries, result), entries)
    ensures s.runs[r].session !in ParentIds(s.edges, s.runs[r].session) ==>
      EndsWith(s, r, ParentsNotified(Committed(s0, r, list, status, goal, entries, result), s.runs[r].session), entries)
  {
    hide WrittenAtEnd;
    hide Notified;
  }

  /** What a GoalManager turn past its fence writes. */
  lemma ManagerWrites(s: State, r: RunId, timing: Schedule.Timing, now: int) returns (entries: seq<Entry>)
    requires r < |s.runs| && s.runs[r].session < |s.sessions| && s.runs[r].role == GoalManager
    requires s.sessions[s.runs[r].session].goal.Some?
    requires s.runs[r].session !in ParentIds(s.edges, s.runs[r].session)
    ensures EndsWith(s, r, CommitGoalManager(s, r, timing, now), entries)
    ensures exists e | e in entries :: Tells(e, r)
  {
    hide Committed;
    hide ParentsNotified;
    hide GateFor;
    hide WorkerRequested;
    hide EndsWith;
    var own := s.runs[r].session;
    var session := s.sessions[own];
    match s.runs[r].declared
    case None =>
      entries := [RetrySignal(now)];
      CommitWrites(s, r, s, s.readiness, Resolved, session.goal, entries, FinishedIncomplete);
      assert Tells(entries[0], r);
    case Some(DeclaredWaiting(kind, wakeLogSeq)) =>
      entries := [GoalStateChanged(Waiting, false, Some(r), false)];
      CommitWrites(s, r, s, ResolvedFor(s.readiness, own, true), Resolved,
        Some(session.goal.value.(waiting := Some(Wait(kind, wakeLogSeq, r)))), entries, FinishedIncomplete);
      assert Tells(entries[0], r);
    case Some(DeclaredIncomplete) =>
      entries := [MarkedIncomplete(true, Some(r))]
        + (if WorkerRequested(s, r, own) then [] else [ImplicitRequest(r, s.runs[r])]);
      CommitWrites(s, r, s, ResolvedFor(s.readiness, own, true), Resolved, SetIncomplete(session).goal, entries,
        FinishedIncomplete);
      assert Tells(entries[0], r);
    case Some(DeclaredComplete(next)) =>
      var gate := GateFor(s, r, next, timing, now);
      if gate.Blocked? {
        entries := [GM_SIGNAL, MarkedIncomplete(false, Some(r))];
        CommitWrites(s, r, s, s.readiness, Resolved, SetIncomplete(session).goal, entries, FinishedIncomplete);
        assert Tells(entries[0], r);
      } else {
        entries := CompletionEntries(r, gate);
        CommitWrites(s, r, WithSchedule(s, session.unit, Schedule.AfterGate(UnitSchedule(s, session.unit), gate)),
          ResolvedFor(s.readiness, own, false), Resolved, Some(session.goal.value.(complete := true)), entries,
          FinishedComplete);
        assert Tells(entries[|entries| - 1], r);
      }
  }

  /** Every end of a run writes such entries, and tells something by them unless it counts as a Worker's
      report. */
  lemma EndWrites(s: State, r: RunId, end: AgentEnd, now: int) returns (entries: seq<Entry>)
    requires Inv(s) && r < |s.runs| && s.runs[r].session < |s.sessions|
    ensures EndsWith(s, r, Ended(s, r, end, now), entries)
    ensures
      || (Fence(s, r).None? && end.Returned? && s.runs[r].role == WorkerAgent && Reported(s, r, end.remote)
          && Ended(s, r, end, now) == CommitWorker(s, r, end.remote, now))
      || exists e | e in entries :: Tells(e, r)
  {
    NoSelfParent(s, r);
    hide Inv;
    hide FirstConflict;
    hide Committed;
    hide CommitGoalManager;
    hide Discarded;
    hide IsReport;
    hide EndsWith;
    var session := s.sessions[s.runs[r].session];
    if Fence(s, r).Some? {
      entries := [GM_SIGNAL];
      assert Tells(entries[0], r);
    } else if end.ProviderError? {
      entries := [MarkedIncomplete(false, Some(r))];
      CommitWrites(s, r, s, s.readiness, Failed, SetIncomplete(session).goal, entries, FinishedIncomplete);
      assert Tells(entries[0], r);
    } else if s.runs[r].role == GoalManager {
      entries := ManagerWrites(s, r, end.timing, now);
    } else {
      var handoff := if end.remote then [RemoteHandoff(r)] else [];
      var reported := Reported(s, r, end.remote);
      entries := handoff + (if reported then [] else [RetrySignal(now)]);
      CommitWrites(s, r, s, s.readiness, Resolved, session.goal, entries, FinishedComplete);
      assert reported || Tells(entries[|entries| - 1], r);
    }
  }

  lemma NoSelfParent(s: State, r: RunId)
    requires Inv(s) && r < |s.runs| && s.runs[r].session < |s.sessions|
    ensures s.runs[r].session !in ParentIds(s.edges, s.runs[r].session)
    ensures Fence(s, r).None? ==> s.sessions[s.runs[r].session].goal.Some?
  {
  }

  /** The new entries of a Session at the end of a run, one by one. */
  lemma EndEntries(s: State, r: RunId, s': State, entries: seq<Entry>, sid: SessionId, k: nat)
    requires r < |s.runs| && EndsWith(s, r, s', entries) && sid < |s.sessions|
    ensures s.sessions[sid].log <= s'.sessions[sid].log
    ensures |s.sessions[sid].log| <= k < |s'.sessions[sid].log| ==>
      var e := s'.sessions[sid].log[k];
      if sid == s.runs[r].session then WrittenAtEnd(s, r, e) else !e.Message?
  {
    hide WrittenAtEnd;
    if sid == s.runs[r].session && |s.sessions[sid].log| <= k < |s'.sessions[sid].log| {
      assert s'.sessions[sid].log[k] == entries[k - |s.sessions[sid].log|];
    }
  }
}
