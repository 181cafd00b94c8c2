/** The lease half of the invariant: who may hold what. Each lemma covers one way the runs, the
    readiness list or the Sessions change. */
module LeaseInvariant {
  import opened Wrappers
  import opened DispatchModel
  import opened Projection
  import opened Protocol

  /** A window that starts right after the role's cursor and lies inside the log. */
  predicate WindowOk(s: Session, role: Role, w: Window) {
    w.fromSeq == Cursor(s, role) + 1 && w.fromSeq <= w.toSeq <= |s.log|
  }

  ghost predicate CursorsOk(sessions: seq<Session>) {
    forall i, role | 0 <= i < |sessions| :: Cursor(sessions[i], role) <= |sessions[i].log|
  }

  predicate HasGoal(sessions: seq<Session>, sid: SessionId) {
    sid < |sessions| && sessions[sid].goal.Some?
  }

  /** Every run belongs to a Session with a goal, and its readiness id has been given out. */
  predicate RunsOk(sessions: seq<Session>, runs: seq<Run>, next: nat) {
    forall r | r in runs :: HasGoal(sessions, r.session) && r.readinessId < next
  }

  /** The windows of acquired runs and of live entries continue their cursors. */
  ghost predicate WindowsOk(sessions: seq<Session>, runs: seq<Run>, list: seq<Readiness>) {
    && (forall r | r in runs && r.lease == Acquired ::
          HasGoal(sessions, r.session) && WindowOk(sessions[r.session], r.role, r.window))
    && (forall e | e in list && Live(e) ::
          HasGoal(sessions, e.session) && WindowOk(sessions[e.session], e.role, e.window))
  }

  /** At most one ready or taken entry per Session and role. */
  predicate OneLive(list: seq<Readiness>) {
    forall e, f | e in list && f in list && Live(e) && Live(f) && e.session == f.session && e.role == f.role :: e == f
  }

  /** At most one acquired run per Session and role, and per readiness id. */
  predicate OneRun(runs: seq<Run>) {
    forall i, j | 0 <= i < j < |runs| && runs[i].lease == Acquired && runs[j].lease == Acquired ::
      (runs[i].session, runs[i].role) != (runs[j].session, runs[j].role) && runs[i].readinessId != runs[j].readinessId
  }

  predicate Owns(r: Run, e: Readiness) {
    r.lease == Acquired && r.readinessId == e.id && r.session == e.session && r.role == e.role && r.window == e.window
  }

  /** Every taken entry is held by an acquired run of the same Session, role and window. */
  predicate TakenOwned(runs: seq<Run>, list: seq<Readiness>) {
    forall e | e in list && e.status == Taken :: exists r | r in runs :: Owns(r, e)
  }

  /** No ready entry beside an acquired run of the same Session and role, or with its id. */
  predicate NoClash(runs: seq<Run>, list: seq<Readiness>) {
    forall e, r | e in list && r in runs && e.status == Ready && r.lease == Acquired ::
      (e.session, e.role) != (r.session, r.role) && e.id != r.readinessId
  }

  /** A GoalManager that runs has an incomplete goal that is not waiting. */
  predicate RunClaims(sessions: seq<Session>, runs: seq<Run>) {
    forall r | r in runs && r.lease == Acquired && r.role == GoalManager && HasGoal(sessions, r.session) ::
      !sessions[r.session].goal.value.complete && sessions[r.session].goal.value.waiting.None?
  }

  /** A GoalManager that is about to run has a goal that is not waiting. */
  predicate EntryClaims(sessions: seq<Session>, list: seq<Readiness>) {
    forall e | e in list && Live(e) && e.role == GoalManager && HasGoal(sessions, e.session) ::
      sessions[e.session].goal.value.waiting.None?
  }

  /** The part that survives even a crash, which may restore a complete goal beside a run. */
  ghost predicate LeaseCore(sessions: seq<Session>, runs: seq<Run>, list: seq<Readiness>, next: nat) {
    && CursorsOk(sessions)
    && RunsOk(sessions, runs, next)
    && WindowsOk(sessions, runs, list)
    && IdsBelow(list, next)
    && OneLive(list)
    && OneRun(runs)
    && TakenOwned(runs, list)
    && NoClash(runs, list)
    && EntryClaims(sessions, list)
  }

  ghost predicate LeaseInv(sessions: seq<Session>, runs: seq<Run>, list: seq<Readiness>, next: nat) {
    LeaseCore(sessions, runs, list, next) && RunClaims(sessions, runs)
  }

  lemma CoreOf(sessions: seq<Session>, runs: seq<Run>, list: seq<Readiness>, next: nat)
    requires LeaseInv(sessions, runs, list, next)
    ensures LeaseCore(sessions, runs, list, next)
  {
  }

  // ---------------------------------------------------------------- when only Sessions change

  /** Logs only grow, cursors stand, goals stay; goals may become incomplete or stop waiting. */
  ghost predicate Calm(before: Session, after: Session) {
    && before.log <= after.log
    && before.goalManagerCursor == after.goalManagerCursor
    && before.workerCursor == after.workerCursor
    && (before.goal.Some? ==>
          && after.goal.Some?
          && (after.goal.value.complete ==> before.goal.value.complete)
          && (after.goal.value.waiting.Some? ==> before.goal.value.waiting.Some?))
  }

  ghost predicate AllCalm(before: seq<Session>, after: seq<Session>) {
    && |before| <= |after|
    && (forall i | 0 <= i < |before| :: Calm(before[i], after[i]))
    && (forall i, role | |before| <= i < |after| :: Cursor(after[i], role) == 0)
  }

  /** The same without regard to completion. */
  ghost predicate Loose(before: Session, after: Session) {
    && before.log <= after.log
    && before.goalManagerCursor == after.goalManagerCursor
    && before.workerCursor == after.workerCursor
    && (before.goal.Some? ==> after.goal.Some? && (after.goal.value.waiting.Some? ==> before.goal.value.waiting.Some?))
  }

  lemma LooseKeepsCore(before: seq<Session>, after: seq<Session>, runs: seq<Run>, list: seq<Readiness>, next: nat)
    requires LeaseCore(before, runs, list, next) && |before| <= |after|
    requires forall i | 0 <= i < |before| :: Loose(before[i], after[i])
    requires forall i, role | |before| <= i < |after| :: Cursor(after[i], role) == 0
    ensures LeaseCore(after, runs, list, next)
  {
    forall i, role | 0 <= i < |after|
      ensures Cursor(after[i], role) <= |after[i].log|
    {
      if i < |before| {
        assert Loose(before[i], after[i]) && Cursor(before[i], role) <= |before[i].log|;
      }
    }
    forall r | r in runs
      ensures HasGoal(after, r.session)
    {
      assert Loose(before[r.session], after[r.session]);
    }
    forall r | r in runs && r.lease == Acquired
      ensures WindowOk(after[r.session], r.role, r.window)
    {
      assert Loose(before[r.session], after[r.session]);
    }
    forall e | e in list && Live(e)
      ensures HasGoal(after, e.session) && WindowOk(after[e.session], e.role, e.window)
    {
      assert Loose(before[e.session], after[e.session]);
    }
    assert WindowsOk(after, runs, list);
    assert EntryClaims(after, list);
  }

  lemma CalmKeepsLease(before: seq<Session>, after: seq<Session>, runs: seq<Run>, list: seq<Readiness>, next: nat)
    requires LeaseInv(before, runs, list, next) && AllCalm(before, after)
    ensures LeaseInv(after, runs, list, next)
  {
    forall r | r in runs && r.lease == Acquired && r.role == GoalManager
      ensures HasGoal(after, r.session)
      ensures !after[r.session].goal.value.complete && after[r.session].goal.value.waiting.None?
    {
      assert HasGoal(before, r.session) && Calm(before[r.session], after[r.session]);
    }
    hide LeaseCore;
    LooseKeepsCore(before, after, runs, list, next);
  }

  // ---------------------------------------------------------------- when claims are given up

  /** The same runs, some of which no longer hold their lease. */
  predicate RunsShrink(before: seq<Run>, after: seq<Run>) {
    && |before| == |after|
    && forall i | 0 <= i < |before| ::
         && after[i].session == before[i].session && after[i].role == before[i].role
         && after[i].readinessId == before[i].readinessId && after[i].window == before[i].window
         && (after[i].lease == Acquired ==> before[i].lease == Acquired)
  }

  /** The same entries, some of which are no longer live. */
  predicate ListShrinks(before: seq<Readiness>, after: seq<Readiness>) {
    && |before| == |after|
    && forall i | 0 <= i < |before| ::
         after[i] == before[i] || (!Live(after[i]) && after[i].id == before[i].id)
  }

  lemma ShrinkKeepsLease(sessions: seq<Session>, runs: seq<Run>, runs': seq<Run>,
                         list: seq<Readiness>, list': seq<Readiness>, next: nat)
    requires LeaseInv(sessions, runs, list, next)
    requires RunsShrink(runs, runs') && ListShrinks(list, list') && TakenOwned(runs', list')
    ensures LeaseInv(sessions, runs', list', next)
  {
    forall r | r in runs'
      ensures HasGoal(sessions, r.session) && r.readinessId < next
      ensures r.lease == Acquired ==> exists q | q in runs ::
        q.lease == Acquired && q.session == r.session && q.role == r.role && q.readinessId == r.readinessId && q.window == r.window
    {
      var i :| 0 <= i < |runs'| && runs'[i] == r;
      assert runs[i] in runs;
    }
    forall e | e in list'
      ensures e.id < next && (Live(e) ==> e in list)
    {
      var i :| 0 <= i < |list'| && list'[i] == e;
      assert list[i] in list;
    }
    assert WindowsOk(sessions, runs', list');
    assert OneRun(runs');
    assert NoClash(runs', list');
    assert RunClaims(sessions, runs') && EntryClaims(sessions, list');
    assert IdsBelow(list', next);
  }

  /** Moving a cursor is harmless once nothing of that Session and role is live. */
  lemma CursorMoveKeepsLease(sessions: seq<Session>, runs: seq<Run>, list: seq<Readiness>, next: nat,
                             sid: SessionId, role: Role, to: nat)
    requires LeaseInv(sessions, runs, list, next)
    requires sid < |sessions| && to <= |sessions[sid].log|
    requires forall r | r in runs :: !RunsFor(r, sid, role)
    requires forall e | e in list && Live(e) :: !IsFor(e, sid, role)
    ensures LeaseInv(sessions[sid := RaiseCursor(sessions[sid], role, to)], runs, list, next)
  {
    var sessions' := sessions[sid := RaiseCursor(sessions[sid], role, to)];
    forall i, other | 0 <= i < |sessions'|
      ensures Cursor(sessions'[i], other) <= |sessions'[i].log|
    {
      assert Cursor(sessions[i], other) <= |sessions[i].log|;
    }
    assert WindowsOk(sessions', runs, list);
    assert RunClaims(sessions', runs) && EntryClaims(sessions', list);
  }

  // ---------------------------------------------------------------- refresh

  lemma {:induction false} ReadyForIsMember(list: seq<Readiness>, sid: SessionId, role: Role)
    ensures
      var found := ReadyFor(list, sid, role);
      && (found.Some? ==> found.value in list && found.value.status == Ready && IsFor(found.value, sid, role))
      && (found.None? ==> forall e | e in list :: e.status != Ready || !IsFor(e, sid, role))
      && (found.Some? ==> forall e | e in list && e.status == Ready && IsFor(e, sid, role) ::
            found.value.firstReadyAt <= e.firstReadyAt)
  {
    if list != [] {
      var n := |list| - 1;
      ReadyForIsMember(list[..n], sid, role);
      assert forall e | e in list :: e in list[..n] || e == list[n];
    }
  }

  lemma DerivedWindow(s: Session, role: Role, activeWorker: bool)
    requires Derive(s.log, Cursor(s, role), role, activeWorker).Some?
    ensures WindowOk(s, role, Derive(s.log, Cursor(s, role), role, activeWorker).value)
  {
  }

  /** Where a ready entry of a refreshed list comes from. */
  lemma RefreshedEntry(sessions: seq<Session>, runs: seq<Run>, list: seq<Readiness>, list': seq<Readiness>,
                       next: nat, next': nat, now: int, e: Readiness)
    requires ReadinessRefreshed(sessions, runs, list, list', next, next', now)
    requires e in list' && e.status == Ready
    ensures
      || (e in list && !Open(sessions, runs, list, e.session, e.role))
      || (&& Open(sessions, runs, list, e.session, e.role)
          && WindowOk(sessions[e.session], e.role, e.window)
          && ((next <= e.id < next' && e.firstReadyAt == now)
              || exists f | f in list :: f.status == Ready && f.id == e.id && IsFor(f, e.session, e.role)
                                         && f.firstReadyAt == e.firstReadyAt))
  {
    hide Derive;
    assert RefreshedFor(sessions, runs, list, list', next, next', now, e.session, e.role);
    ReadyForIsMember(list, e.session, e.role);
    assert ReadyFor(list', e.session, e.role) == Some(e);
    if Open(sessions, runs, list, e.session, e.role) {
      DerivedWindow(sessions[e.session], e.role, HasAcquiredRun(runs, e.session, WorkerAgent));
    }
  }

  lemma RefreshKeepsCore(sessions: seq<Session>, runs: seq<Run>, list: seq<Readiness>, list': seq<Readiness>,
                         next: nat, next': nat, now: int)
    requires LeaseCore(sessions, runs, list, next)
    requires ReadinessRefreshed(sessions, runs, list, list', next, next', now)
    ensures LeaseCore(sessions, runs, list', next')
  {
    hide RefreshedFor;
    hide Derive;
    hide ReadyFor;
    forall e | e in list' && e.status == Ready
      ensures HasGoal(sessions, e.session) && WindowOk(sessions[e.session], e.role, e.window)
      ensures e.role == GoalManager ==> sessions[e.session].goal.value.waiting.None?
      ensures forall r | r in runs && r.lease == Acquired ::
        (e.session, e.role) != (r.session, r.role) && e.id != r.readinessId
      ensures forall f | f in list && f.status == Taken :: !IsFor(f, e.session, e.role)
    {
      RefreshedEntry(sessions, runs, list, list', next, next', now, e);
      if e !in list {
        assert Open(sessions, runs, list, e.session, e.role);
      }
    }
    assert OneLive(list') by {
      forall e, f | e in list' && f in list' && Live(e) && Live(f) && e.session == f.session && e.role == f.role
        ensures e == f
      {
      }
    }
    assert WindowsOk(sessions, runs, list');
    assert NoClash(runs, list');
    assert EntryClaims(sessions, list');
  }

  lemma RefreshKeepsLease(sessions: seq<Session>, runs: seq<Run>, list: seq<Readiness>, list': seq<Readiness>,
                          next: nat, next': nat, now: int)
    requires LeaseInv(sessions, runs, list, next)
    requires ReadinessRefreshed(sessions, runs, list, list', next, next', now)
    ensures LeaseInv(sessions, runs, list', next')
  {
    hide LeaseCore;
    hide ReadinessRefreshed;
    RefreshKeepsCore(sessions, runs, list, list', next, next', now);
  }

  // ---------------------------------------------------------------- taking a lease

  /** Ready entry `i` becomes taken by a new run of its own. */
  lemma TakeKeepsLease(sessions: seq<Session>, runs: seq<Run>, list: seq<Readiness>, next: nat, i: nat, run: Run)
    requires LeaseInv(sessions, runs, list, next)
    requires i < |list| && list[i].status == Ready
    requires HasGoal(sessions, list[i].session) && !sessions[list[i].session].goal.value.complete
    requires run.session == list[i].session && run.role == list[i].role && run.lease == Acquired
    requires run.readinessId == list[i].id && run.window == list[i].window
    ensures LeaseInv(sessions, runs + [run], list[i := list[i].(status := Taken)], next)
  {
    var taken := list[i].(status := Taken);
    var runs', list' := runs + [run], list[i := taken];
    forall e | e in list'
      ensures e == taken || (e in list && e.id != taken.id)
    {
      var k :| 0 <= k < |list'| && list'[k] == e;
      if k != i {
        assert list[k] in list;
      }
    }
    assert list[i] in list;
    forall e | e in list' && e.status == Taken
      ensures exists r | r in runs' :: Owns(r, e)
    {
      if e == taken {
        assert run in runs' && Owns(run, e);
      } else {
        var r :| r in runs && Owns(r, e);
        assert r in runs';
      }
    }
    assert OneRun(runs') by {
      forall a, b | 0 <= a < b < |runs'| && runs'[a].lease == Acquired && runs'[b].lease == Acquired
        ensures (runs'[a].session, runs'[a].role) != (runs'[b].session, runs'[b].role)
        ensures runs'[a].readinessId != runs'[b].readinessId
      {
        assert runs[a] in runs;
      }
    }
    assert NoClash(runs', list');
    assert WindowsOk(sessions, runs', list');
    assert RunClaims(sessions, runs') && EntryClaims(sessions, list');
    assert IdsBelow(list', next);
  }

  // ---------------------------------------------------------------- restart recovery

  /** No run holds a lease any more; taken entries turn ready or dead. */
  lemma RecoveryKeepsLease(sessions: seq<Session>, runs: seq<Run>, runs': seq<Run>,
                           list: seq<Readiness>, list': seq<Readiness>, next: nat)
    requires LeaseCore(sessions, runs, list, next)
    requires RunsShrink(runs, runs') && forall r | r in runs' :: r.lease != Acquired
    requires |list| == |list'|
    requires forall i | 0 <= i < |list| ::
      list'[i] == list[i].(status := list'[i].status) && list'[i].status != Taken && (Live(list'[i]) ==> Live(list[i]))
    ensures LeaseInv(sessions, runs', list', next)
  {
    forall r | r in runs'
      ensures HasGoal(sessions, r.session) && r.readinessId < next
    {
      var i :| 0 <= i < |runs'| && runs'[i] == r;
      assert runs[i] in runs;
    }
    forall e | e in list'
      ensures e.id < next
      ensures Live(e) ==> exists f | f in list :: Live(f) && f.id == e.id && e == f.(status := Ready)
    {
      var i :| 0 <= i < |list'| && list'[i] == e;
      assert list[i] in list;
    }
    assert OneLive(list') by {
      forall e, f | e in list' && f in list' && Live(e) && Live(f) && e.session == f.session && e.role == f.role
        ensures e == f
      {
        var a :| a in list && Live(a) && a.id == e.id && e == a.(status := Ready);
        var b :| b in list && Live(b) && b.id == f.id && f == b.(status := Ready);
      }
    }
    assert WindowsOk(sessions, runs', list');
    assert NoClash(runs', list');
    assert RunClaims(sessions, runs') && EntryClaims(sessions, list');
    assert IdsBelow(list', next);
  }
}
