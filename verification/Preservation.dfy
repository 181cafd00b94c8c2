/** Every step of the protocol keeps the invariant, only ever extends logs, and completes a goal or
    starts a wait in one way: a GoalManager commit that passed its fence. */
module Preservation {
  import opened Wrappers
  import opened DispatchModel
  import opened SelectionPolicy
  import opened Protocol
  import opened LeaseInvariant
  import opened GoalInvariant
  import opened Replay
  import opened StepInvariant
  import opened CommitInvariant
  import SessionGraph
  import Schedule

  /** The commit that decides on completion or waiting of Session `i`: the only step that may complete
      a goal or start a wait. */
  predicate Decides(s: State, ev: Event, i: SessionId) {
    && ev.AgentEnds? && ev.end.Returned?
    && ev.run < |s.runs| && s.runs[ev.run].session == i < |s.sessions|
    && s.runs[ev.run].role == GoalManager
    && Fence(s, ev.run).None?
    && s.runs[ev.run].declared.Some?
    && (s.runs[ev.run].declared.value.DeclaredComplete? || s.runs[ev.run].declared.value.DeclaredWaiting?)
  }

  /** What every step does to every Session; the goal of a new Session is incomplete. */
  ghost predicate SessionFacts(s: State, ev: Event, s': State) {
    && |s.sessions| <= |s'.sessions|
    && (forall i | 0 <= i < |s.sessions| :: LogExplains(s.sessions[i], s'.sessions[i]))
    && (forall i | 0 <= i < |s.sessions| && !Decides(s, ev, i) :: Quiet(s.sessions[i], s'.sessions[i]))
    && (forall i | |s.sessions| <= i < |s'.sessions| :: s'.sessions[i].goal.Some? ==> !s'.sessions[i].goal.value.complete)
  }

  /** A step that settles no run: cursors stand, no lease is released. */
  ghost predicate SettlesNothing(s: State, s': State) {
    && |s.sessions| <= |s'.sessions| && |s.runs| <= |s'.runs|
    && (forall i, role | 0 <= i < |s.sessions| :: Cursor(s'.sessions[i], role) == Cursor(s.sessions[i], role))
    && (forall i, role | |s.sessions| <= i < |s'.sessions| :: Cursor(s'.sessions[i], role) == 0)
    && (forall i | 0 <= i < |s.runs| ::
          && (s'.runs[i].lease == Released <==> s.runs[i].lease == Released)
          && (s'.runs[i].lease == Acquired ==> s.runs[i].lease == Acquired))
    && (forall i | |s.runs| <= i < |s'.runs| :: s'.runs[i].lease == Acquired)
  }

  /** A step that settles run `r`: its lease is released and its role's cursor moves from just before
      its window to the window's end; every other cursor and lease stands. */
  ghost predicate Settles(s: State, r: RunId, s': State) {
    && |s.sessions| == |s'.sessions| && |s.runs| == |s'.runs|
    && r < |s.runs| && s.runs[r].session < |s.sessions|
    && s.runs[r].lease == Acquired && s'.runs[r].lease == Released
    && Cursor(s.sessions[s.runs[r].session], s.runs[r].role) + 1 == s.runs[r].window.fromSeq <= s.runs[r].window.toSeq
    && (forall i, role | 0 <= i < |s.sessions| ::
          Cursor(s'.sessions[i], role) ==
          if i == s.runs[r].session && role == s.runs[r].role then s.runs[r].window.toSeq else Cursor(s.sessions[i], role))
    && (forall i | 0 <= i < |s.runs| && i != r :: s'.runs[i].lease == s.runs[i].lease)
  }

  // ---------------------------------------------------------------- ends of agent runs

  lemma QuietExplains(before: Session, after: Session)
    requires Quiet(before, after)
    ensures LogExplains(before, after)
  {
  }

  /** A commit touches only its own Session. */
  lemma OwnSessionOnly(s: State, ev: Event, s': State, sid: SessionId)
    requires sid < |s.sessions| == |s'.sessions| && s'.sessions == s.sessions[sid := s'.sessions[sid]]
    requires LogExplains(s.sessions[sid], s'.sessions[sid])
    requires Decides(s, ev, sid) || Quiet(s.sessions[sid], s'.sessions[sid])
    ensures SessionFacts(s, ev, s')
  {
    hide Quiet;
    hide LogExplains;
    forall i | 0 <= i < |s.sessions| && i != sid
      ensures Quiet(s.sessions[i], s'.sessions[i]) && LogExplains(s.sessions[i], s'.sessions[i])
    {
      QuietReflexive(s.sessions[i]);
      QuietExplains(s.sessions[i], s.sessions[i]);
    }
  }

  lemma FencePassed(s: State, r: RunId)
    requires Inv(s) && r < |s.runs| && s.runs[r].session < |s.sessions| && Fence(s, r).None?
    ensures s.runs[r].lease == Acquired && s.sessions[s.runs[r].session].goal.Some?
  {
  }

  /** The commits that leave completion and waiting alone, or only reopen. */
  lemma PlainCommit(s: State, r: RunId, ev: Event, list: seq<Readiness>, status: ReadinessStatus,
                    goal: Option<Goal>, entries: seq<Entry>, result: RunResult, onlyGoalManager: bool)
    requires Inv(s) && r < |s.runs| && s.runs[r].session < |s.sessions| && Fence(s, r).None?
    requires list == s.readiness || list == ResolvedFor(s.readiness, s.runs[r].session, onlyGoalManager)
    requires status != Ready && status != Taken
    requires
      || ((forall k | 0 <= k < |entries| :: Neutral(entries[k])) && goal == s.sessions[s.runs[r].session].goal)
      || (&& goal == SetIncomplete(s.sessions[s.runs[r].session]).goal
          && (forall k | 0 <= k < |entries| :: !(entries[k].GoalStateChanged? && entries[k].state == Complete))
          && exists k | 0 <= k < |entries| :: entries[k].GoalStateChanged? && entries[k].state == Incomplete)
    ensures
      var s' := Committed(s, r, list, status, goal, entries, result);
      Inv(s') && RunsContinue(s.runs, s'.runs) && SessionFacts(s, ev, s')
  {
    hide Quiet;
    hide LeaseInv;
    hide GoalsOk;
    hide LogExplains;
    var sid := s.runs[r].session;
    var s' := Committed(s, r, list, status, goal, entries, result);
    FencePassed(s, r);
    if (forall k | 0 <= k < |entries| :: Neutral(entries[k])) && goal == s.sessions[sid].goal {
      QuietByNeutral(s.sessions[sid], s'.sessions[sid], entries);
    } else {
      var k :| 0 <= k < |entries| && entries[k].GoalStateChanged? && entries[k].state == Incomplete;
      QuietByMark(s.sessions[sid], s'.sessions[sid], entries, k);
    }
    QuietCommitKeepsInv(s, r, list, status, goal, entries, result, onlyGoalManager);
    QuietExplains(s.sessions[sid], s'.sessions[sid]);
    OwnSessionOnly(s, ev, s', sid);
  }

  lemma WorkerCommit(s: State, r: RunId, ev: Event, remote: bool, now: int)
    requires Inv(s) && r < |s.runs| && s.runs[r].session < |s.sessions| && Fence(s, r).None?
    ensures
      var s' := CommitWorker(s, r, remote, now);
      Inv(s') && RunsContinue(s.runs, s'.runs) && SessionFacts(s, ev, s')
  {
    hide Inv;
    hide SessionFacts;
    hide Fence;
    var session := s.sessions[s.runs[r].session];
    var handoff := if remote then [RemoteHandoff(r)] else [];
    var reported := exists e | e in session.log + handoff :: IsReport(e, r, s.runs[r]);
    var entries := handoff + (if reported then [] else [RetrySignal(now)]);
    assert forall k | 0 <= k < |entries| :: entries[k] == RemoteHandoff(r) || entries[k] == RetrySignal(now);
    PlainCommit(s, r, ev, s.readiness, Resolved, session.goal, entries, FinishedComplete, false);
  }

  lemma ErrorCommit(s: State, r: RunId, ev: Event)
    requires Inv(s) && r < |s.runs| && s.runs[r].session < |s.sessions| && Fence(s, r).None?
    ensures
      var s' := CommitError(s, r);
      Inv(s') && RunsContinue(s.runs, s'.runs) && SessionFacts(s, ev, s')
  {
    hide Inv;
    hide SessionFacts;
    hide Fence;
    var entries := [MarkedIncomplete(false, Some(r))];
    assert entries[0].state == Incomplete;
    PlainCommit(s, r, ev, s.readiness, Failed, SetIncomplete(s.sessions[s.runs[r].session]).goal, entries, FinishedIncomplete, false);
  }

  lemma UndecidedCommit(s: State, r: RunId, ev: Event, now: int)
    requires Inv(s) && r < |s.runs| && s.runs[r].session < |s.sessions| && Fence(s, r).None?
    ensures
      var s' := CommitUndecided(s, r, now);
      Inv(s') && RunsContinue(s.runs, s'.runs) && SessionFacts(s, ev, s')
  {
    hide Inv;
    hide SessionFacts;
    hide Fence;
    PlainCommit(s, r, ev, s.readiness, Resolved, s.sessions[s.runs[r].session].goal, [RetrySignal(now)], FinishedIncomplete, false);
  }

  lemma IncompleteCommit(s: State, r: RunId, ev: Event)
    requires Inv(s) && r < |s.runs| && s.runs[r].session < |s.sessions| && Fence(s, r).None?
    ensures
      var s' := CommitIncomplete(s, r);
      Inv(s') && RunsContinue(s.runs, s'.runs) && SessionFacts(s, ev, s')
  {
    hide Inv;
    hide SessionFacts;
    hide Fence;
    var sid := s.runs[r].session;
    var entries := [MarkedIncomplete(true, Some(r))] + (if WorkerRequested(s, r, sid) then [] else [ImplicitRequest(r, s.runs[r])]);
    assert entries[0].state == Incomplete;
    PlainCommit(s, r, ev, ResolvedFor(s.readiness, sid, true), Resolved, SetIncomplete(s.sessions[sid]).goal, entries,
      FinishedIncomplete, true);
  }

  lemma BlockedCommit(s: State, r: RunId, ev: Event)
    requires Inv(s) && r < |s.runs| && s.runs[r].session < |s.sessions| && Fence(s, r).None?
    ensures
      var s' := CommitBlocked(s, r);
      Inv(s') && RunsContinue(s.runs, s'.runs) && SessionFacts(s, ev, s')
  {
    hide Inv;
    hide SessionFacts;
    hide Fence;
    var entries := [GM_SIGNAL, MarkedIncomplete(false, Some(r))];
    assert entries[1].state == Incomplete;
    PlainCommit(s, r, ev, s.readiness, Resolved, SetIncomplete(s.sessions[s.runs[r].session]).goal, entries, FinishedIncomplete, false);
  }

  lemma WaitingCommit(s: State, r: RunId, ev: Event, kind: WaitKind, wakeLogSeq: nat)
    requires Inv(s) && r < |s.runs| && s.runs[r].session < |s.sessions| && Fence(s, r).None?
    requires s.runs[r].declared == Some(DeclaredWaiting(kind, wakeLogSeq)) && Decides(s, ev, s.runs[r].session)
    requires ev.run == r
    ensures
      var s' := CommitWaiting(s, r, kind, wakeLogSeq);
      Inv(s') && RunsContinue(s.runs, s'.runs) && SessionFacts(s, ev, s')
  {
    hide Inv;
    hide Quiet;
    hide LogExplains;
    hide Fence;
    FencePassed(s, r);
    WaitingKeepsInv(s, r, kind, wakeLogSeq);
    WaitingExplained(s, r, kind, wakeLogSeq);
    OwnSessionOnly(s, ev, CommitWaiting(s, r, kind, wakeLogSeq), s.runs[r].session);
  }

  lemma WaitingExplained(s: State, r: RunId, kind: WaitKind, wakeLogSeq: nat)
    requires r < |s.runs| && s.runs[r].session < |s.sessions| && s.sessions[s.runs[r].session].goal.Some?
    ensures LogExplains(s.sessions[s.runs[r].session], CommitWaiting(s, r, kind, wakeLogSeq).sessions[s.runs[r].session])
  {
    var before, after := s.sessions[s.runs[r].session], CommitWaiting(s, r, kind, wakeLogSeq).sessions[s.runs[r].session];
    var tail := [GoalStateChanged(Waiting, false, Some(r), false)];
    assert after.log[|before.log|..] == tail;
    assert Neutral(tail[0]);
    NeutralReplay(before.goal.value.complete, tail);
  }

  lemma CompleteCommit(s: State, r: RunId, ev: Event, gate: Schedule.Gate)
    requires Inv(s) && r < |s.runs| && s.runs[r].session < |s.sessions| && Fence(s, r).None?
    requires s.runs[r].role == GoalManager && Decides(s, ev, s.runs[r].session) && ev.run == r
    requires s.sessions[s.runs[r].session].goal.Some?
    ensures
      var s' := CommitComplete(s, r, gate);
      Inv(s') && RunsContinue(s.runs, s'.runs) && SessionFacts(s, ev, s')
  {
    hide Inv;
    hide Quiet;
    hide Calm;
    hide LogExplains;
    hide Fence;
    FencePassed(s, r);
    ManagedGoalIsIncomplete(s, r);
    OwnCompletionKeepsInv(s, r, gate);
    var mid := OwnCompletion(s, r, gate);
    var sid := s.runs[r].session;
    OwnSessionOnly(s, ev, mid, sid);
    NotifyingKeepsInv(mid, sid);
    var s' := ParentsNotified(mid, sid);
    forall i | 0 <= i < |s.sessions| && i != sid
      ensures Quiet(s.sessions[i], s'.sessions[i]) && LogExplains(s.sessions[i], s'.sessions[i])
    {
      assert mid.sessions[i] == s.sessions[i];
      QuietExplains(s.sessions[i], s'.sessions[i]);
    }
  }

  lemma DiscardedResult(s: State, r: RunId, ev: Event)
    requires Inv(s) && r < |s.runs| && s.runs[r].session < |s.sessions|
    ensures
      var s' := Discarded(s, r);
      Inv(s') && RunsContinue(s.runs, s'.runs) && SessionFacts(s, ev, s')
  {
    hide Inv;
    hide Quiet;
    hide LogExplains;
    DiscardKeepsInv(s, r);
    var sid := s.runs[r].session;
    QuietExplains(s.sessions[sid], Discarded(s, r).sessions[sid]);
    OwnSessionOnly(s, ev, Discarded(s, r), sid);
  }

  lemma GoalManagerCommit(s: State, r: RunId, ev: Event, now: int)
    requires Inv(s) && r < |s.runs| && s.runs[r].session < |s.sessions| && Fence(s, r).None?
    requires ev.AgentEnds? && ev.run == r && ev.end.Returned?
    requires s.runs[r].role == GoalManager && s.sessions[s.runs[r].session].goal.Some?
    ensures
      var s' := CommitGoalManager(s, r, ev.end.timing, now);
      Inv(s') && RunsContinue(s.runs, s'.runs) && SessionFacts(s, ev, s')
  {
    hide Inv;
    hide SessionFacts;
    hide Fence;
    hide CommitComplete;
    hide CommitIncomplete;
    hide CommitWaiting;
    hide CommitBlocked;
    hide CommitUndecided;
    match s.runs[r].declared
    case None => UndecidedCommit(s, r, ev, now);
    case Some(DeclaredWaiting(kind, wakeLogSeq)) => WaitingCommit(s, r, ev, kind, wakeLogSeq);
    case Some(DeclaredIncomplete) => IncompleteCommit(s, r, ev);
    case Some(DeclaredComplete(next)) =>
      var gate := GateFor(s, r, next, ev.end.timing, now);
      if gate.Blocked? {
        BlockedCommit(s, r, ev);
      } else {
        CompleteCommit(s, r, ev, gate);
      }
  }

  lemma AgentEndKeepsInv(s: State, r: RunId, end: AgentEnd, now: int)
    requires Inv(s) && r < |s.runs| && s.runs[r].session < |s.sessions|
    ensures
      var s' := Ended(s, r, end, now);
      Inv(s') && RunsContinue(s.runs, s'.runs) && SessionFacts(s, AgentEnds(r, end), s')
  {
    hide Inv;
    hide SessionFacts;
    hide Fence;
    hide CommitGoalManager;
    hide CommitWorker;
    hide CommitError;
    hide Discarded;
    var ev := AgentEnds(r, end);
    if Fence(s, r).Some? {
      DiscardedResult(s, r, ev);
    } else {
      FencePassed(s, r);
      match end
      case ProviderError => ErrorCommit(s, r, ev);
      case Returned(timing, remote) =>
        if s.runs[r].role == GoalManager {
          GoalManagerCommit(s, r, ev, now);
        } else {
          WorkerCommit(s, r, ev, remote, now);
        }
    }
  }

  // ---------------------------------------------------------------- steps that change Sessions only

  lemma PeacefulFacts(s: State, ev: Event, s': State)
    requires Peaceful(s.sessions, s'.sessions)
    ensures SessionFacts(s, ev, s')
  {
    hide Quiet;
    hide LogExplains;
    forall i | 0 <= i < |s.sessions|
      ensures LogExplains(s.sessions[i], s'.sessions[i])
    {
      QuietExplains(s.sessions[i], s'.sessions[i]);
    }
  }

  /** Input, messages, activation, a revised body and a schedule entry, on one Session. */
  lemma OneSessionKeepsInv(s: State, ev: Event, s': State, sid: SessionId, session: Session)
    requires Inv(s) && sid < |s.sessions|
    requires Calm(s.sessions[sid], session) && Quiet(s.sessions[sid], session)
    requires s'.sessions == s.sessions[sid := session]
    requires s'.runs == s.runs && s'.readiness == s.readiness && s'.nextReadiness == s.nextReadiness
    requires s'.edges == s.edges
    ensures Inv(s') && RunsContinue(s.runs, s'.runs) && SessionFacts(s, ev, s')
  {
    hide Inv;
    hide Calm;
    hide Quiet;
    hide SessionFacts;
    SessionStepKeepsInv(s, s', sid, session);
    PeacefulFacts(s, ev, s');
  }

  lemma NothingChanges(s: State, ev: Event, s': State)
    requires Inv(s) && s'.sessions == s.sessions
    requires s'.runs == s.runs && s'.readiness == s.readiness && s'.nextReadiness == s.nextReadiness
    requires EdgesOk(s'.edges, |s.sessions|)
    ensures Inv(s') && RunsContinue(s.runs, s'.runs) && SessionFacts(s, ev, s')
  {
    hide LeaseInv;
    hide GoalsOk;
    hide Quiet;
    hide Calm;
    hide SessionFacts;
    forall i | 0 <= i < |s.sessions|
      ensures Calm(s.sessions[i], s'.sessions[i]) && Quiet(s.sessions[i], s'.sessions[i])
    {
      SameIsPeaceful(s.sessions[i]);
    }
    PeacefulFacts(s, ev, s');
  }

  lemma InputKeepsInv(s: State, ev: Event, now: int, s': State)
    requires Inv(s) && Step(s, ev, now, s')
    requires ev.UserInput? || ev.Post? || ev.SetActive? || ev.UpdateGoal? || ev.ScheduleNext? || ev.SetPolicy?
    ensures Inv(s') && RunsContinue(s.runs, s'.runs) && SessionFacts(s, ev, s')
  {
    hide Inv;
    hide SessionFacts;
    hide Calm;
    hide Quiet;
    if !Accepted(s, ev, now) {
      Unchanged(s, ev);
    } else {
      var session := s.sessions[ev.sid];
      InputIsPeaceful(s, ev, now);
      OneSessionKeepsInv(s, ev, s', ev.sid, s'.sessions[ev.sid]);
    }
  }

  lemma Unchanged(s: State, ev: Event)
    requires Inv(s)
    ensures RunsContinue(s.runs, s.runs) && SessionFacts(s, ev, s)
  {
    NothingChanges(s, ev, s);
  }

  /** The new version of the Session that an input event changes. */
  function AfterInput(session: Session, ev: Event): Session
    requires ev.UserInput? || ev.Post? || ev.SetActive? || ev.UpdateGoal? || ev.ScheduleNext? || ev.SetPolicy?
  {
    match ev
    case UserInput(_, worker) => WithUserInput(session, worker)
    case Post(_, message) => Appended(session, [message])
    case SetActive(_, active) => Appended(session.(active := active), [SessionActiveChanged(active)])
    case UpdateGoal(_, body) => WithGoalBody(session, body)
    case ScheduleNext(_, author, _, _) => Appended(session, [ScheduleMessage(author)])
    case SetPolicy(_, policy) => session.(policy := policy)
  }

  lemma InputIsPeaceful(s: State, ev: Event, now: int)
    requires ev.UserInput? || ev.Post? || ev.SetActive? || ev.UpdateGoal? || ev.ScheduleNext? || ev.SetPolicy?
    requires Accepted(s, ev, now)
    ensures Calm(s.sessions[ev.sid], AfterInput(s.sessions[ev.sid], ev))
    ensures Quiet(s.sessions[ev.sid], AfterInput(s.sessions[ev.sid], ev))
  {
    hide Quiet;
    var session := s.sessions[ev.sid];
    match ev
    case UserInput(_, worker) => UserInputIsPeaceful(session, worker);
    case UpdateGoal(_, body) => GoalBodyIsPeaceful(session, body);
    case Post(_, message) => QuietByNeutral(session, AfterInput(session, ev), [message]);
    case SetActive(_, active) => QuietByNeutral(session, AfterInput(session, ev), [SessionActiveChanged(active)]);
    case ScheduleNext(_, author, _, _) => QuietByNeutral(session, AfterInput(session, ev), [ScheduleMessage(author)]);
    case SetPolicy(_, policy) => QuietByNeutral(session, AfterInput(session, ev), []);
  }

  // ---------------------------------------------------------------- declarations

  lemma DeclareKeepsInv(s: State, ev: Event, now: int, s': State)
    requires Inv(s) && Step(s, ev, now, s') && ev.Declare?
    ensures Inv(s') && RunsContinue(s.runs, s'.runs) && SessionFacts(s, ev, s')
  {
    hide LeaseInv;
    hide GoalOk;
    hide SessionFacts;
    hide EdgesOk;
    if !MayDeclare(s, ev.run, ev.decision, now) {
      Unchanged(s, ev);
    } else {
      NoteKeepsLease(s, ev.run, s'.runs[ev.run]);
      AcquiredWindow(s, ev.run);
      forall i | 0 <= i < |s.sessions|
        ensures GoalOk(s.sessions[i], i, s'.runs)
      {
        assert GoalOk(s.sessions[i], i, s.runs);
        RunsContinueKeepGoal(s.sessions[i], i, s.runs, s'.runs);
      }
      SamePeace(s.sessions);
      PeacefulFacts(s, ev, s');
    }
  }

  lemma SamePeace(sessions: seq<Session>)
    ensures Peaceful(sessions, sessions)
  {
    hide Quiet;
    hide Calm;
    forall i | 0 <= i < |sessions|
      ensures Calm(sessions[i], sessions[i]) && Quiet(sessions[i], sessions[i])
    {
      SameIsPeaceful(sessions[i]);
    }
  }

  // ---------------------------------------------------------------- acquisition

  /** Marking chosen ready entries stale harms nobody. */
  lemma StaleMarksKeepInv(s: State, filter: Option<SessionId>, now: int)
    requires Inv(s)
    ensures Inv(s.(readiness := MarkStale(s.readiness, s.sessions, filter, now)))
  {
    hide GoalsOk;
    hide EdgesOk;
    var list' := MarkStale(s.readiness, s.sessions, filter, now);
    MarksKeepOwners(s.runs, s.readiness, list', s.sessions, filter, now);
    hide LeaseInv;
    ShrinkKeepsLease(s.sessions, s.runs, s.runs, s.readiness, list', s.nextReadiness);
  }

  lemma MarksKeepOwners(runs: seq<Run>, list: seq<Readiness>, list': seq<Readiness>, sessions: seq<Session>,
                        filter: Option<SessionId>, now: int)
    requires TakenOwned(runs, list) && list' == MarkStale(list, sessions, filter, now)
    ensures TakenOwned(runs, list') && ListShrinks(list, list') && RunsShrink(runs, runs)
  {
    forall e | e in list' && e.status == Taken
      ensures exists r | r in runs :: Owns(r, e)
    {
      var i :| 0 <= i < |list'| && list'[i] == e;
      assert list[i] in list;
    }
  }

  lemma LeasedKeepsInv(s: State, filter: Option<SessionId>, now: int, chosen: nat, agentUser: Option<nat>)
    requires Inv(s) && chosen < |s.readiness|
    requires IsChoice(s.readiness, s.sessions, AcquiredRoles(s.runs), filter, now, chosen)
    ensures Inv(Leased(s, filter, chosen, agentUser, now))
    ensures RunsContinue(s.runs, Leased(s, filter, chosen, agentUser, now).runs)
  {
    hide LeaseInv;
    hide GoalsOk;
    hide EdgesOk;
    hide DeclarationsOk;
    var e := s.readiness[chosen];
    var list := MarkStale(s.readiness, s.sessions, filter, now);
    var run := LeasedRun(s, e, agentUser, now);
    assert Candidate(e, s.sessions, AcquiredRoles(s.runs), filter, now);
    StaleMarksKeepInv(s, filter, now);
    assert list[chosen] == e;
    TakeKeepsLease(s.sessions, s.runs, list, s.nextReadiness, chosen, run);
    SamePeace(s.sessions);
    SameRunsKeepInv(s, Leased(s, filter, chosen, agentUser, now));
  }

  lemma AcquireKeepsInv(s: State, ev: Event, now: int, s': State)
    requires Inv(s) && ev.Acquire? && Accepted(s, ev, now) && Effect(s, ev, now, s')
    ensures Inv(s') && RunsContinue(s.runs, s'.runs) && SessionFacts(s, ev, s')
  {
    hide Inv;
    hide SessionFacts;
    hide Reconciles;
    hide Refreshes;
    hide IsChoice;
    hide Candidate;
    hide MarkStale;
    hide UnitRefuses;
    hide Peaceful;
    hide LapsedRuns;
    hide LeasedRun;
    var repaired, ready :| AcquiresVia(s, repaired, ready, s', ev.filter, now, ev.outcome);
    AcquireShape(s, repaired, ready, now);
    match ev.outcome
    case Refused => Unchanged(s, ev);
    case Idle =>
      StaleMarksKeepInv(ready, ev.filter, now);
      if s' == s {
        Unchanged(s, ev);
      } else {
        PeacefulFacts(s, ev, s');
      }
    case LeaseTaken(run, chosen, agentUser) =>
      ChoiceInRange(ready, ev.filter, now, chosen);
      LeasedKeepsInv(ready, ev.filter, now, chosen, agentUser);
      PeacefulFacts(s, ev, s');
  }

  lemma ChoiceInRange(s: State, filter: Option<SessionId>, now: int, chosen: nat)
    requires IsChoice(s.readiness, s.sessions, AcquiredRoles(s.runs), filter, now, chosen)
    ensures chosen < |s.readiness|
  {
  }

  /** The repair and refresh that precede every selection. */
  lemma AcquireShape(s: State, repaired: State, ready: State, now: int)
    requires Inv(s) && Reconciles(s, repaired, now) && Refreshes(repaired, ready, now)
    ensures Inv(ready) && Peaceful(s.sessions, ready.sessions)
    ensures ready.runs == LapsedRuns(s.runs, now) && RunsContinue(s.runs, ready.runs)
    ensures ready.units == s.units && ready.edges == s.edges
  {
    hide Inv;
    hide Refreshes;
    hide ReconcilesVia;
    hide Peaceful;
    var mid :| ReconcilesVia(s, mid, repaired, now);
    ReconcileKeepsInv(s, mid, repaired, now);
    RefreshShape(repaired, ready, now);
    RefreshKeepsInv(repaired, ready, now);
    PeacefulTransitive(s.sessions, repaired.sessions, ready.sessions);
  }

  // ---------------------------------------------------------------- recovery, links, new Sessions

  lemma RecoverKeepsInv(s: State, ev: Event, s': State)
    requires Inv(s) && s' == Recovered(s)
    ensures Inv(s') && RunsContinue(s.runs, s'.runs) && SessionFacts(s, ev, s')
  {
    hide LeaseInv;
    hide LeaseCore;
    hide GoalsOk;
    hide EdgesOk;
    hide DeclarationsOk;
    hide SessionFacts;
    hide Quiet;
    hide Calm;
    hide Resumable;
    hide InterruptedRoles;
    CoreOf(s.sessions, s.runs, s.readiness, s.nextReadiness);
    RecoveryKeepsLease(s.sessions, s.runs, s'.runs, s.readiness, s'.readiness, s.nextReadiness);
    forall i | 0 <= i < |s.sessions|
      ensures s'.sessions[i] == s.sessions[i] || exists e :: Neutral(e) && s'.sessions[i] == Appended(s.sessions[i], [e])
    {
      var e := SystemSignal({GoalManager} + InterruptedRoles(s.runs, i), None);
      assert Neutral(e);
    }
    SomeSignalled(s.sessions, s'.sessions);
    SameRunsKeepInv(s, s');
    PeacefulFacts(s, ev, s');
  }

  lemma {:induction false} NewChildKeepsEdges(edges: seq<SessionGraph.Edge>, parents: seq<SessionId>, child: SessionId)
    requires EdgesOk(edges, child) && forall p | p in parents :: p < child
    ensures EdgesOk(edges + EdgesFrom(parents, child), child + 1)
  {
    if parents == [] {
      assert edges + EdgesFrom(parents, child) == edges;
    } else {
      var rest := parents[..|parents| - 1];
      assert parents[|parents| - 1] in parents && forall p | p in rest :: p in parents;
      NewChildKeepsEdges(edges, rest, child);
    }
  }

  lemma {:induction false} LinkedUnderKeepsEdges(edges: seq<SessionGraph.Edge>, n: nat, parents: seq<SessionId>, child: SessionId)
    requires EdgesOk(edges, n) && child < n && LinkedUnder(edges, n, parents, child).Some?
    ensures EdgesOk(LinkedUnder(edges, n, parents, child).value, n)
  {
    if parents != [] {
      LinkedUnderKeepsEdges(edges, n, parents[..|parents| - 1], child);
    }
  }

  lemma NewSessionIsOk(unit: Option<UnitId>, body: string, prompt: bool, sid: SessionId, runs: seq<Run>)
    ensures GoalOk(NewSession(unit, body, prompt), sid, runs)
  {
    var s := NewSession(unit, body, prompt);
    if prompt {
      assert s.log[..2][..1] == [MarkedIncomplete(false, None)];
    }
    MarkedReplay(false, s.log, |s.log| - 1);
  }

  /** A new Session, with its goal or without, under parents that exist. */
  lemma NewSessionKeepsInv(s: State, ev: Event, s': State, session: Session, parents: seq<SessionId>)
    requires Inv(s) && forall p | p in parents :: p < |s.sessions|
    requires s'.sessions == s.sessions + [session] && s'.edges == s.edges + EdgesFrom(parents, |s.sessions|)
    requires s'.runs == s.runs && s'.readiness == s.readiness && s'.nextReadiness == s.nextReadiness
    requires GoalOk(session, |s.sessions|, s.runs) && (session.goal.Some? ==> !session.goal.value.complete)
    requires session.goalManagerCursor == session.workerCursor == 0
    ensures Inv(s') && RunsContinue(s.runs, s'.runs) && SessionFacts(s, ev, s')
  {
    hide LeaseInv;
    hide GoalOk;
    hide Quiet;
    hide LogExplains;
    hide Calm;
    forall i | 0 <= i < |s.sessions|
      ensures Calm(s.sessions[i], s'.sessions[i]) && Quiet(s.sessions[i], s'.sessions[i])
      ensures LogExplains(s.sessions[i], s'.sessions[i])
      ensures GoalOk(s'.sessions[i], i, s'.runs)
    {
      SameIsPeaceful(s.sessions[i]);
      QuietExplains(s.sessions[i], s'.sessions[i]);
      assert GoalOk(s.sessions[i], i, s.runs);
    }
    CalmKeepsLease(s.sessions, s'.sessions, s.runs, s.readiness, s.nextReadiness);
    NewChildKeepsEdges(s.edges, parents, |s.sessions|);
    forall r | r in s'.runs && r.declared.Some? && r.declared.value.DeclaredWaiting?
      ensures r.session < |s'.sessions|
      ensures r.window.toSeq <= r.declared.value.wakeLogSeq <= |s'.sessions[r.session].log|
    {
      assert r in s.runs;
    }
  }

  lemma StartKeepsInv(s: State, ev: Event, now: int, s': State)
    requires Inv(s) && Step(s, ev, now, s') && (ev.Start? || ev.Create?)
    ensures Inv(s') && RunsContinue(s.runs, s'.runs) && SessionFacts(s, ev, s')
  {
    hide Inv;
    hide GoalOk;
    hide SessionFacts;
    hide EdgesFrom;
    if !Accepted(s, ev, now) {
      Unchanged(s, ev);
    } else if ev.Start? {
      NewSessionIsOk(ev.owner, ev.body, ev.prompt, |s.sessions|, s.runs);
      NewSessionKeepsInv(s, ev, s', NewSession(ev.owner, ev.body, ev.prompt), OrRoot(ev.parents));
    } else {
      EmptySessionIsOk(ev.owner, |s.sessions|, s.runs);
      NewSessionKeepsInv(s, ev, s', EmptySession(ev.owner), OrRoot(ev.parents));
    }
  }

  lemma EmptySessionIsOk(unit: Option<UnitId>, sid: SessionId, runs: seq<Run>)
    ensures GoalOk(EmptySession(unit), sid, runs)
  {
  }

  /** Switching a singleton Session on changes its goal quietly, and the graph. */
  lemma ActivationKeepsInv(s: State, ev: Event, now: int, s': State)
    requires Inv(s) && Step(s, ev, now, s') && ev.ActivateSingleton?
    ensures Inv(s') && RunsContinue(s.runs, s'.runs) && SessionFacts(s, ev, s')
  {
    hide LeaseInv;
    hide GoalsOk;
    hide DeclarationsOk;
    hide SessionFacts;
    hide Calm;
    hide Quiet;
    hide Activated;
    if !Accepted(s, ev, now) {
      Unchanged(s, ev);
    } else {
      var mid := At(s, ev.sid, Activated(s.sessions[ev.sid], ev.body));
      ActivatedIsPeaceful(s.sessions[ev.sid], ev.body);
      OneSessionKeepsInv(s, ev, mid, ev.sid, mid.sessions[ev.sid]);
      LinkedUnderKeepsEdges(s.edges, |s.sessions|, OrRoot(ev.parents), ev.sid);
      SameFacts(s, ev, mid, s');
    }
  }

  lemma ActivatedIsPeaceful(s: Session, body: string)
    ensures Calm(s, Activated(s, body)) && Quiet(s, Activated(s, body))
  {
    QuietByMark(s, Activated(s, body), [GM_SIGNAL, MarkedIncomplete(false, None)], 1);
  }

  lemma SameFacts(s: State, ev: Event, mid: State, s': State)
    requires SessionFacts(s, ev, mid) && s'.sessions == mid.sessions
    ensures SessionFacts(s, ev, s')
  {
  }

  /** The repairs of the graph at startup touch nothing else. */
  lemma RepairKeepsInv(s: State, ev: Event, now: int, s': State)
    requires Inv(s) && Step(s, ev, now, s') && ev.RepairGraph?
    ensures Inv(s') && RunsContinue(s.runs, s'.runs) && SessionFacts(s, ev, s')
  {
    hide LeaseInv;
    hide GoalsOk;
    hide DeclarationsOk;
    hide SessionFacts;
    hide SessionGraph.Reaches;
    hide SessionGraph.Rehome;
    if Accepted(s, ev, now) {
      var ids, owned := Ids(|s.sessions|), OwnersRepaired(s, ev.homes).value;
      SessionGraph.RehomeEdges(ids, ev.homes, s.edges, ROOT_SESSION, |ids|);
      assert ids[..|ids|] == ids;
      forall e | e in s'.edges
        ensures e.parent < |s.sessions| && e.child < |s.sessions| && e.parent != e.child
      {
        assert s'.edges == owned + s'.edges[|owned|..];
      }
    }
    NothingChanges(s, ev, s');
  }

  lemma LinkKeepsInv(s: State, ev: Event, now: int, s': State)
    requires Inv(s) && Step(s, ev, now, s') && ev.Link?
    ensures Inv(s') && RunsContinue(s.runs, s'.runs) && SessionFacts(s, ev, s')
  {
    hide LeaseInv;
    hide GoalsOk;
    hide SessionFacts;
    hide SessionGraph.Reaches;
    hide SessionGraph.Acyclic;
    NothingChanges(s, ev, s');
  }

  // ---------------------------------------------------------------- the theorem

  /** Every step, accepted or not, keeps the invariant. Runs only move on, logs only grow and explain
      every change of completion, and outside a deciding commit a Session's goal is neither completed
      nor put to wait, and new requirements leave it incomplete. */
  lemma StepKeepsInv(s: State, ev: Event, now: int, s': State)
    requires Inv(s) && Step(s, ev, now, s')
    ensures Inv(s') && RunsContinue(s.runs, s'.runs) && SessionFacts(s, ev, s')
  {
    hide Inv;
    hide SessionFacts;
    hide Effect;
    hide Ended;
    hide Recovered;
    hide Refreshes;
    if !Accepted(s, ev, now) {
      Unchanged(s, ev);
    } else {
      match ev
      case UserInput(_, _) => InputKeepsInv(s, ev, now, s');
      case Post(_, _) => InputKeepsInv(s, ev, now, s');
      case SetActive(_, _) => InputKeepsInv(s, ev, now, s');
      case UpdateGoal(_, _) => InputKeepsInv(s, ev, now, s');
      case ScheduleNext(_, _, _, _) => InputKeepsInv(s, ev, now, s');
      case Declare(_, _) => DeclareKeepsInv(s, ev, now, s');
      case Acquire(_, _) => AcquireKeepsInv(s, ev, now, s');
      case AgentEnds(run, end) =>
        AgentEndKeepsInv(s, run, end, now);
        EffectOfEnd(s, run, end, now, s');
      case Refresh => RefreshStep(s, now, s');
      case Reload =>
        EffectOfReload(s, now, s');
        ReloadStep(s, now, s');
      case Recover =>
        EffectOfRecovery(s, now, s');
        RecoverKeepsInv(s, ev, s');
      case SetUnitActive(_, _) => UnitStep(s, ev, now, s');
      case Link(_, _) => LinkKeepsInv(s, ev, now, s');
      case Start(_, _, _, _, _) => StartKeepsInv(s, ev, now, s');
      case Create(_, _) => StartKeepsInv(s, ev, now, s');
      case ActivateSingleton(_, _, _) => ActivationKeepsInv(s, ev, now, s');
      case SetPolicy(_, _) => InputKeepsInv(s, ev, now, s');
      case RepairGraph(_) => RepairKeepsInv(s, ev, now, s');
    }
  }

  lemma EffectOfEnd(s: State, run: RunId, end: AgentEnd, now: int, s': State)
    requires Accepted(s, AgentEnds(run, end), now) && Step(s, AgentEnds(run, end), now, s')
    ensures s' == Ended(s, run, end, now)
  {
  }

  lemma EffectOfReload(s: State, now: int, s': State)
    requires Step(s, Reload, now, s')
    ensures Refreshes(AfterReplay(s), s', now)
  {
  }

  lemma EffectOfRecovery(s: State, now: int, s': State)
    requires Step(s, Recover, now, s')
    ensures s' == Recovered(s)
  {
  }

  lemma RefreshStep(s: State, now: int, s': State)
    requires Inv(s) && Step(s, Refresh, now, s')
    ensures Inv(s') && RunsContinue(s.runs, s'.runs) && SessionFacts(s, Refresh, s')
  {
    hide Inv;
    hide SessionFacts;
    hide ReadinessRefreshed;
    hide Peaceful;
    RefreshKeepsInv(s, s', now);
    RefreshShape(s, s', now);
    PeacefulFacts(s, Refresh, s');
  }

  lemma ReplayIsPeaceful(s: State)
    requires Inv(s)
    ensures Peaceful(s.sessions, AfterReplay(s).sessions)
    ensures forall i | 0 <= i < |s.sessions| ::
      AfterReplay(s).sessions[i] == s.sessions[i].(active := ReplayedActive(s.sessions[i].active, s.sessions[i].log))
  {
    assert CursorsOk(s.sessions);
    hide LeaseInv;
    hide Quiet;
    hide Calm;
    hide GoalOk;
    hide Restarted;
    forall i | 0 <= i < |s.sessions|
      ensures Calm(s.sessions[i], AfterReplay(s).sessions[i]) && Quiet(s.sessions[i], AfterReplay(s).sessions[i])
      ensures AfterReplay(s).sessions[i] == s.sessions[i].(active := ReplayedActive(s.sessions[i].active, s.sessions[i].log))
    {
      assert GoalOk(s.sessions[i], i, s.runs);
      assert Cursor(s.sessions[i], GoalManager) <= |s.sessions[i].log| && Cursor(s.sessions[i], WorkerAgent) <= |s.sessions[i].log|;
    }
  }

  /** Replay and the refresh after it. */
  lemma ReloadKeeps(s: State, s': State, now: int)
    requires Inv(s) && Refreshes(AfterReplay(s), s', now)
    ensures Inv(AfterReplay(s)) && Inv(s') && Peaceful(s.sessions, s'.sessions)
    ensures s'.runs == s.runs && s'.units == s.units && s'.edges == s.edges
  {
    hide LeaseInv;
    hide Quiet;
    hide Calm;
    hide Refreshes;
    hide Restarted;
    var mid := AfterReplay(s);
    ReplayIsPeaceful(s);
    PeacefulKeeps(s.sessions, mid.sessions, s.runs);
    CalmKeepsLease(s.sessions, mid.sessions, s.runs, s.readiness, s.nextReadiness);
    RefreshShape(mid, s', now);
    RefreshKeepsInv(mid, s', now);
    PeacefulTransitive(s.sessions, mid.sessions, s'.sessions);
  }

  lemma ReloadStep(s: State, now: int, s': State)
    requires Inv(s) && Refreshes(AfterReplay(s), s', now)
    ensures Inv(s') && RunsContinue(s.runs, s'.runs) && SessionFacts(s, Reload, s')
  {
    hide Inv;
    hide SessionFacts;
    hide Refreshes;
    hide Peaceful;
    ReloadKeeps(s, s', now);
    PeacefulFacts(s, Reload, s');
  }

  lemma UnitStep(s: State, ev: Event, now: int, s': State)
    requires Inv(s) && Step(s, ev, now, s') && ev.SetUnitActive?
    ensures Inv(s') && RunsContinue(s.runs, s'.runs) && SessionFacts(s, ev, s')
  {
    hide LeaseInv;
    hide GoalsOk;
    hide SessionFacts;
    NothingChanges(s, ev, s');
  }
}
