/** Preservation of the invariant by the second atomic section of a dispatch: the fenced commits and
    the discarded results. */
module CommitInvariant {
  import opened Wrappers
  import opened DispatchModel
  import opened Protocol
  import opened LeaseInvariant
  import opened GoalInvariant
  import opened Replay
  import opened StepInvariant
  import Schedule

  // ---------------------------------------------------------------- giving up one lease

  /** Releasing run `r` together with the entry it holds, and moving its cursor over its window. */
  lemma ReleaseKeepsLease(sessions: seq<Session>, runs: seq<Run>, list: seq<Readiness>, next: nat,
                          r: RunId, run': Run, list': seq<Readiness>)
    requires LeaseInv(sessions, runs, list, next)
    requires r < |runs| && runs[r].lease == Acquired && run'.lease != Acquired
    requires run'.session == runs[r].session && run'.role == runs[r].role
    requires run'.readinessId == runs[r].readinessId && run'.window == runs[r].window
    requires ListShrinks(list, list')
    requires forall i | 0 <= i < |list| && list[i].id == runs[r].readinessId && list[i].status == Taken :: !Live(list'[i])
    ensures LeaseInv(sessions, runs[r := run'], list', next)
    ensures forall q | q in runs[r := run'] :: !RunsFor(q, run'.session, run'.role)
    ensures forall e | e in list' && Live(e) :: !IsFor(e, run'.session, run'.role)
    ensures HasGoal(sessions, run'.session) && run'.window.toSeq <= |sessions[run'.session].log|
    ensures Cursor(sessions[run'.session], run'.role) + 1 == run'.window.fromSeq <= run'.window.toSeq
  {
    var runs' := runs[r := run'];
    assert runs[r] in runs;
    forall e | e in list' && Live(e)
      ensures e in list && (e.status == Taken ==> e.id != run'.readinessId)
      ensures !IsFor(e, run'.session, run'.role)
    {
      var i :| 0 <= i < |list'| && list'[i] == e;
      assert list[i] == e && list[i] in list;
      if e.status == Taken {
        var q :| q in runs && Owns(q, e);
        var j :| 0 <= j < |runs| && runs[j] == q;
        assert j != r;
      }
    }
    forall e | e in list' && e.status == Taken
      ensures exists q | q in runs' :: Owns(q, e)
    {
      var q :| q in runs && Owns(q, e);
      var j :| 0 <= j < |runs| && runs[j] == q;
      assert runs'[j] == q;
    }
    forall q | q in runs'
      ensures !RunsFor(q, run'.session, run'.role)
    {
      var j :| 0 <= j < |runs'| && runs'[j] == q;
      if j != r {
        assert runs[j] == q;
      }
    }
    ShrinkKeepsLease(sessions, runs, runs', list, list', next);
  }

  /** A goal may change freely, as long as no GoalManager of its Session runs or is about to. */
  lemma GoalChangeKeepsLease(sessions: seq<Session>, runs: seq<Run>, list: seq<Readiness>, next: nat,
                             sid: SessionId, goal: Goal)
    requires LeaseInv(sessions, runs, list, next) && HasGoal(sessions, sid)
    requires forall q | q in runs :: !RunsFor(q, sid, GoalManager)
    requires forall e | e in list && Live(e) :: !IsFor(e, sid, GoalManager)
    ensures LeaseInv(sessions[sid := sessions[sid].(goal := Some(goal))], runs, list, next)
  {
    var sessions' := sessions[sid := sessions[sid].(goal := Some(goal))];
    forall i, role | 0 <= i < |sessions'|
      ensures Cursor(sessions'[i], role) <= |sessions'[i].log|
    {
      assert Cursor(sessions[i], role) <= |sessions[i].log|;
    }
    assert WindowsOk(sessions', runs, list);
    assert RunClaims(sessions', runs) && EntryClaims(sessions', list);
  }

  lemma AppendKeepsLease(sessions: seq<Session>, runs: seq<Run>, list: seq<Readiness>, next: nat,
                         sid: SessionId, entries: seq<Entry>)
    requires LeaseInv(sessions, runs, list, next) && sid < |sessions|
    ensures LeaseInv(sessions[sid := Appended(sessions[sid], entries)], runs, list, next)
  {
    CalmKeepsLease(sessions, sessions[sid := Appended(sessions[sid], entries)], runs, list, next);
  }

  /** The whole of a release: lease, entry, cursor, goal and log of the run's Session. */
  lemma FinishKeepsLease(s: State, r: RunId, run': Run, list': seq<Readiness>, goal: Option<Goal>, entries: seq<Entry>,
                         sessions': seq<Session>)
    requires LeaseInv(s.sessions, s.runs, s.readiness, s.nextReadiness)
    requires r < |s.runs| && s.runs[r].lease == Acquired && run'.lease != Acquired
    requires run'.session == s.runs[r].session && run'.role == s.runs[r].role
    requires run'.readinessId == s.runs[r].readinessId && run'.window == s.runs[r].window
    requires ListShrinks(s.readiness, list')
    requires forall i | 0 <= i < |s.readiness| && s.readiness[i].id == s.runs[r].readinessId && s.readiness[i].status == Taken ::
      !Live(list'[i])
    requires run'.session < |s.sessions| && goal.Some?
    requires run'.role == GoalManager || goal == s.sessions[run'.session].goal || goal == SetIncomplete(s.sessions[run'.session]).goal
    requires sessions' == s.sessions[run'.session :=
      Appended(RaiseCursor(s.sessions[run'.session].(goal := goal), run'.role, run'.window.toSeq), entries)]
    ensures LeaseInv(sessions', s.runs[r := run'], list', s.nextReadiness)
    ensures Cursor(s.sessions[run'.session], run'.role) + 1 == run'.window.fromSeq
    ensures Cursor(sessions'[run'.session], run'.role) == run'.window.toSeq
  {
    hide LeaseInv;
    hide ListShrinks;
    var sid, runs', next := run'.session, s.runs[r := run'], s.nextReadiness;
    ReleaseKeepsLease(s.sessions, s.runs, s.readiness, next, r, run', list');
    var moved := s.sessions[sid := RaiseCursor(s.sessions[sid], run'.role, run'.window.toSeq)];
    CursorMoveKeepsLease(s.sessions, runs', list', next, sid, run'.role, run'.window.toSeq);
    var changed := moved[sid := moved[sid].(goal := goal)];
    if run'.role == GoalManager {
      GoalChangeKeepsLease(moved, runs', list', next, sid, goal.value);
    } else {
      CalmKeepsLease(moved, changed, runs', list', next);
    }
    AppendKeepsLease(changed, runs', list', next, sid, entries);
    assert sessions' == changed[sid := Appended(changed[sid], entries)];
  }

  lemma ResolvedShrinks(list: seq<Readiness>, sid: SessionId, onlyGoalManager: bool, id: nat, onlyTaken: bool,
                        status: ReadinessStatus)
    requires status != Ready && status != Taken
    ensures ListShrinks(list, WithStatus(list, id, onlyTaken, status))
    ensures ListShrinks(list, WithStatus(ResolvedFor(list, sid, onlyGoalManager), id, onlyTaken, status))
    ensures forall i | 0 <= i < |list| && list[i].id == id && list[i].status == Taken ::
      && !Live(WithStatus(list, id, onlyTaken, status)[i])
      && !Live(WithStatus(ResolvedFor(list, sid, onlyGoalManager), id, onlyTaken, status)[i])
  {
  }

  // ---------------------------------------------------------------- from leases to the invariant

  /** One Session changes with one run; the goal half of the invariant on the other Sessions, and on
      all declarations, carries over. */
  lemma FinishKeepsInv(s: State, s': State, r: RunId, run': Run, session': Session)
    requires Inv(s) && r < |s.runs|
    requires s'.runs == s.runs[r := run'] && s'.edges == s.edges
    requires run'.session == s.runs[r].session && run'.role == s.runs[r].role && run'.window == s.runs[r].window
    requires run'.declared == s.runs[r].declared
    requires s.runs[r].lease == Released ==> run'.lease == Released && run'.result == s.runs[r].result
    requires run'.session < |s.sessions| && s'.sessions == s.sessions[run'.session := session']
    requires s.sessions[run'.session].log <= session'.log
    requires LeaseInv(s'.sessions, s'.runs, s'.readiness, s'.nextReadiness)
    requires GoalOk(session', run'.session, s'.runs)
    ensures Inv(s') && RunsContinue(s.runs, s'.runs)
  {
    hide LeaseInv;
    hide GoalOk;
    var sid := run'.session;
    forall i | 0 <= i < |s'.sessions|
      ensures GoalOk(s'.sessions[i], i, s'.runs)
    {
      if i != sid {
        assert GoalOk(s.sessions[i], i, s.runs);
        RunsContinueKeepGoal(s.sessions[i], i, s.runs, s'.runs);
      }
    }
    forall q | q in s'.runs && q.declared.Some? && q.declared.value.DeclaredWaiting?
      ensures q.session < |s'.sessions| && q.window.toSeq <= q.declared.value.wakeLogSeq <= |s'.sessions[q.session].log|
    {
      var j :| 0 <= j < |s'.runs| && s'.runs[j] == q;
      assert s.runs[j] in s.runs;
      assert q.session == s.runs[j].session && q.declared == s.runs[j].declared;
    }
  }

  /** The same for a quiet change. */
  lemma QuietFinishKeepsInv(s: State, s': State, r: RunId, run': Run, session': Session)
    requires Inv(s) && r < |s.runs|
    requires s'.runs == s.runs[r := run'] && s'.edges == s.edges
    requires run'.session == s.runs[r].session && run'.role == s.runs[r].role && run'.window == s.runs[r].window
    requires run'.declared == s.runs[r].declared
    requires s.runs[r].lease == Released ==> run'.lease == Released && run'.result == s.runs[r].result
    requires run'.session < |s.sessions| && s'.sessions == s.sessions[run'.session := session']
    requires LeaseInv(s'.sessions, s'.runs, s'.readiness, s'.nextReadiness)
    requires Quiet(s.sessions[run'.session], session')
    ensures Inv(s') && RunsContinue(s.runs, s'.runs)
  {
    var sid := run'.session;
    assert GoalOk(s.sessions[sid], sid, s.runs);
    hide LeaseInv;
    hide GoalOk;
    hide Quiet;
    RunsContinueKeepGoal(s.sessions[sid], sid, s.runs, s'.runs);
    QuietKeepsGoal(s.sessions[sid], session', sid, s'.runs);
    FinishKeepsInv(s, s', r, run', session');
  }

  lemma RunFacts(s: State, r: RunId)
    requires Inv(s) && r < |s.runs|
    ensures HasGoal(s.sessions, s.runs[r].session)
  {
    assert s.runs[r] in s.runs;
  }

  /** A run at work has its window inside its Session's log, right after its cursor. */
  lemma AcquiredWindow(s: State, r: RunId)
    requires Inv(s) && r < |s.runs| && s.runs[r].lease == Acquired
    ensures HasGoal(s.sessions, s.runs[r].session)
    ensures WindowOk(s.sessions[s.runs[r].session], s.runs[r].role, s.runs[r].window)
  {
    assert s.runs[r] in s.runs;
  }

  // ---------------------------------------------------------------- the commits, one by one

  lemma DiscardKeepsInv(s: State, r: RunId)
    requires Inv(s) && r < |s.runs| && s.runs[r].session < |s.sessions|
    ensures Inv(Discarded(s, r)) && RunsContinue(s.runs, Discarded(s, r).runs)
    ensures Quiet(s.sessions[s.runs[r].session], Discarded(s, r).sessions[s.runs[r].session])
  {
    hide Quiet;
    hide LeaseInv;
    hide GoalsOk;
    var s' := Discarded(s, r);
    var sid := s.runs[r].session;
    RunFacts(s, r);
    assert Neutral(GM_SIGNAL);
    QuietByNeutral(s.sessions[sid], s'.sessions[sid], [GM_SIGNAL]);
    if s.runs[r].lease == Acquired {
      ResolvedShrinks(s.readiness, sid, false, s.runs[r].readinessId, true, Stale);
      FinishKeepsLease(s, r, s'.runs[r], s'.readiness, s.sessions[sid].goal, [GM_SIGNAL], s'.sessions);
    } else {
      NoteKeepsLease(s, r, s'.runs[r]);
      AppendKeepsLease(s.sessions, s'.runs, s.readiness, s.nextReadiness, sid, [GM_SIGNAL]);
    }
    QuietFinishKeepsInv(s, s', r, s'.runs[r], s'.sessions[sid]);
  }

  /** Notes on a run that leave its lease and its claim alone. */
  lemma NoteKeepsLease(s: State, r: RunId, run': Run)
    requires LeaseInv(s.sessions, s.runs, s.readiness, s.nextReadiness)
    requires r < |s.runs|
    requires run'.session == s.runs[r].session && run'.role == s.runs[r].role && run'.lease == s.runs[r].lease
    requires run'.readinessId == s.runs[r].readinessId && run'.window == s.runs[r].window
    ensures LeaseInv(s.sessions, s.runs[r := run'], s.readiness, s.nextReadiness)
  {
    var runs' := s.runs[r := run'];
    forall e | e in s.readiness && e.status == Taken
      ensures exists q | q in runs' :: Owns(q, e)
    {
      var q :| q in s.runs && Owns(q, e);
      var j :| 0 <= j < |s.runs| && s.runs[j] == q;
      assert runs'[j] in runs' && Owns(runs'[j], e);
    }
    ShrinkKeepsLease(s.sessions, s.runs, runs', s.readiness, s.readiness, s.nextReadiness);
  }

  /** Every commit that completes nothing and starts no wait. */
  lemma QuietCommitKeepsInv(s: State, r: RunId, list: seq<Readiness>, status: ReadinessStatus,
                            goal: Option<Goal>, entries: seq<Entry>, result: RunResult, onlyGoalManager: bool)
    requires Inv(s) && r < |s.runs| && s.runs[r].session < |s.sessions| && s.runs[r].lease == Acquired
    requires list == s.readiness || list == ResolvedFor(s.readiness, s.runs[r].session, onlyGoalManager)
    requires status != Ready && status != Taken
    requires goal == s.sessions[s.runs[r].session].goal || goal == SetIncomplete(s.sessions[s.runs[r].session]).goal
    requires
      var after := Committed(s, r, list, status, goal, entries, result).sessions[s.runs[r].session];
      Quiet(s.sessions[s.runs[r].session], after)
    ensures Inv(Committed(s, r, list, status, goal, entries, result))
    ensures RunsContinue(s.runs, Committed(s, r, list, status, goal, entries, result).runs)
  {
    hide Quiet;
    hide LeaseInv;
    hide GoalsOk;
    hide DeclarationsOk;
    var s' := Committed(s, r, list, status, goal, entries, result);
    var sid := s.runs[r].session;
    RunFacts(s, r);
    ResolvedShrinks(s.readiness, sid, onlyGoalManager, s.runs[r].readinessId, false, status);
    FinishKeepsLease(s, r, s'.runs[r], s'.readiness, goal, entries, s'.sessions);
    QuietFinishKeepsInv(s, s', r, s'.runs[r], s'.sessions[sid]);
  }

  /** What the fence established before a commit. */
  lemma {:induction false} NoConflictAfter(log: seq<Entry>, from: nat, run: RunId, k: nat)
    requires FirstConflict(log, from, run).None? && from <= k < |log|
    ensures Conflict(log[k], run).None?
    decreases |log| - from
  {
    if from < k {
      NoConflictAfter(log, from + 1, run, k);
    }
  }

  lemma {:induction false} SomeConflict(log: seq<Entry>, from: nat, run: RunId)
    requires FirstConflict(log, from, run).Some?
    ensures exists k | from <= k < |log| :: FirstConflict(log, from, run) == Conflict(log[k], run)
    decreases |log| - from
  {
    if Conflict(log[from], run).None? {
      SomeConflict(log, from + 1, run);
    }
  }

  lemma WaitingKeepsInv(s: State, r: RunId, kind: WaitKind, wakeLogSeq: nat)
    requires Inv(s) && r < |s.runs| && s.runs[r].session < |s.sessions|
    requires s.runs[r].declared == Some(DeclaredWaiting(kind, wakeLogSeq)) && s.runs[r].role == GoalManager
    requires Fence(s, r).None?
    ensures Inv(CommitWaiting(s, r, kind, wakeLogSeq)) && RunsContinue(s.runs, CommitWaiting(s, r, kind, wakeLogSeq).runs)
  {
    hide Replayed;
    hide LeaseInv;
    var s' := CommitWaiting(s, r, kind, wakeLogSeq);
    var sid := s.runs[r].session;
    var before, after := s.sessions[sid], s'.sessions[sid];
    RunFacts(s, r);
    ResolvedShrinks(s.readiness, sid, true, s.runs[r].readinessId, false, Resolved);
    FinishKeepsLease(s, r, s'.runs[r], s'.readiness, after.goal, [GoalStateChanged(Waiting, false, Some(r), false)], s'.sessions);
    assert s.runs[r] in s.runs && wakeLogSeq <= |before.log|;
    ManagedGoalIsIncomplete(s, r);
    assert GoalOk(before, sid, s.runs);
    var tail := [GoalStateChanged(Waiting, false, Some(r), false)];
    assert after.log == before.log + tail && after.log[|before.log|..] == tail;
    assert Neutral(tail[0]);
    NeutralReplay(before.goal.value.complete, tail);
    ReplayAfterCrash(before, after);
    var w := after.goal.value.waiting.value;
    forall k | s.runs[r].window.toSeq <= k < w.wakeLogSeq
      ensures !WaitedFor(after.log[k], kind, r)
    {
      NoConflictAfter(before.log, s.runs[r].window.toSeq, r, k);
      assert after.log[k] == before.log[k];
    }
    assert WaitOk(after.log, sid, s'.runs, w);
    FinishKeepsInv(s, s', r, s'.runs[r], after);
  }

  lemma ManagedGoalIsIncomplete(s: State, r: RunId)
    requires Inv(s) && r < |s.runs| && s.runs[r].lease == Acquired && s.runs[r].role == GoalManager
    ensures HasGoal(s.sessions, s.runs[r].session)
    ensures !s.sessions[s.runs[r].session].goal.value.complete
    ensures s.sessions[s.runs[r].session].goal.value.waiting.None?
  {
    assert s.runs[r] in s.runs;
  }

  lemma OwnCompletionKeepsLease(s: State, r: RunId, gate: Schedule.Gate)
    requires Inv(s) && r < |s.runs| && s.runs[r].session < |s.sessions|
    requires s.runs[r].role == GoalManager && Fence(s, r).None?
    ensures var s' := OwnCompletion(s, r, gate); LeaseInv(s'.sessions, s'.runs, s'.readiness, s'.nextReadiness)
  {
    LeaseOf(s);
    hide Inv;
    hide OwnCompletion;
    hide FirstConflict;
    var s', sid := OwnCompletion(s, r, gate), s.runs[r].session;
    ResolvedShrinks(s.readiness, sid, false, s.runs[r].readinessId, false, Resolved);
    FinishKeepsLease(s, r, s'.runs[r], s'.readiness, s'.sessions[sid].goal, CompletionEntries(r, gate), s'.sessions);
  }

  lemma OwnCompletionKeepsGoal(s: State, r: RunId, gate: Schedule.Gate)
    requires Inv(s) && r < |s.runs| && s.runs[r].session < |s.sessions|
    requires s.runs[r].role == GoalManager && Fence(s, r).None?
    ensures
      var s', sid := OwnCompletion(s, r, gate), s.runs[r].session;
      && |s'.runs| == |s.runs| && sid < |s'.sessions| && GoalOk(s'.sessions[sid], sid, s'.runs)
      && LogExplains(s.sessions[sid], s'.sessions[sid])
  {
    ManagedGoalIsIncomplete(s, r);
    assert GoalOk(s.sessions[s.runs[r].session], s.runs[r].session, s.runs);
    hide Inv;
    hide OwnCompletion;
    hide FirstConflict;
    hide Replayed;
    hide Reviewed;
    hide LogExplains;
    hide ReplayStable;
    var s', sid := OwnCompletion(s, r, gate), s.runs[r].session;
    CompletionIsReviewed(s.sessions[sid].log, CompletionEntries(r, gate), sid, s'.runs, r);
  }

  /** A completion reviewed every requirement: the fence found none after the run's window, and the
      commit itself adds none. */
  lemma OwnCompletionKeepsInv(s: State, r: RunId, gate: Schedule.Gate)
    requires Inv(s) && r < |s.runs| && s.runs[r].session < |s.sessions|
    requires s.runs[r].role == GoalManager && Fence(s, r).None?
    ensures Inv(OwnCompletion(s, r, gate)) && RunsContinue(s.runs, OwnCompletion(s, r, gate).runs)
    ensures LogExplains(s.sessions[s.runs[r].session], OwnCompletion(s, r, gate).sessions[s.runs[r].session])
  {
    OwnCompletionKeepsLease(s, r, gate);
    OwnCompletionKeepsGoal(s, r, gate);
    hide LeaseInv;
    hide GoalOk;
    hide OwnCompletion;
    hide FirstConflict;
    hide LogExplains;
    var s' := OwnCompletion(s, r, gate);
    FinishKeepsInv(s, s', r, s'.runs[r], s'.sessions[s.runs[r].session]);
  }

  lemma LeaseOf(s: State)
    requires Inv(s)
    ensures LeaseInv(s.sessions, s.runs, s.readiness, s.nextReadiness)
  {
  }

  lemma CompletionIsReviewed(log: seq<Entry>, tail: seq<Entry>, sid: SessionId, runs: seq<Run>, r: RunId)
    requires r < |runs| && runs[r].session == sid && runs[r].role == GoalManager
    requires runs[r].lease == Released && runs[r].result == FinishedComplete
    requires FirstConflict(log, runs[r].window.toSeq, r).None?
    requires forall k | 0 <= k < |tail| :: !IsRequirement(tail[k])
    ensures Reviewed(log + tail, sid, runs, r)
  {
    hide FirstConflict;
    var all := log + tail;
    forall k | 0 <= k < |all|
      ensures IsRequirement(all[k]) ==> k + 1 <= runs[r].window.toSeq
    {
      if k >= |log| {
        assert !IsRequirement(tail[k - |log|]);
      } else if runs[r].window.toSeq <= k {
        NoConflictAfter(log, runs[r].window.toSeq, r, k);
      }
    }
  }

  /** Telling the parents changes other Sessions only, and those peacefully. */
  lemma NotifyingKeepsInv(s: State, child: SessionId)
    requires Inv(s) && child < |s.sessions|
    ensures Inv(ParentsNotified(s, child)) && Peaceful(s.sessions, ParentsNotified(s, child).sessions)
    ensures ParentsNotified(s, child).sessions[child] == s.sessions[child]
  {
    hide LeaseInv;
    hide GoalsOk;
    hide Quiet;
    hide Calm;
    hide Notified;
    var s' := ParentsNotified(s, child);
    forall i | 0 <= i < |s.sessions|
      ensures Calm(s.sessions[i], s'.sessions[i]) && Quiet(s.sessions[i], s'.sessions[i])
    {
      if i in ParentIds(s.edges, child) {
        NotifiedIsPeaceful(s.sessions[i], child);
      } else {
        SameIsPeaceful(s.sessions[i]);
      }
    }
    assert child !in ParentIds(s.edges, child);
    PeacefulKeeps(s.sessions, s'.sessions, s.runs);
    CalmKeepsLease(s.sessions, s'.sessions, s.runs, s.readiness, s.nextReadiness);
  }

  lemma SameIsPeaceful(s: Session)
    ensures Calm(s, s) && Quiet(s, s)
  {
    QuietReflexive(s);
  }
}
