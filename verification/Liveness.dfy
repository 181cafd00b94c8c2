/** What refresh, the liveness repair, restart recovery and the fence promise about who runs next. */
module Liveness {
  import opened Wrappers
  import opened DispatchModel
  import opened Projection
  import opened Protocol
  import opened LeaseInvariant
  import opened GoalInvariant
  import opened Replay
  import opened StepInvariant

  ghost predicate HasReady(list: seq<Readiness>, sid: SessionId, role: Role) {
    exists e | e in list :: e.status == Ready && IsFor(e, sid, role)
  }

  /** Some entry after the role's cursor wakes it. */
  ghost predicate Woken(s: Session, role: Role, activeWorker: bool) {
    exists k | Cursor(s, role) <= k < |s.log| :: WakeOf(s.log[k], role, activeWorker).Some?
  }

  // ---------------------------------------------------------------- refresh

  /** After a refresh, a role that nobody runs is ready exactly when an unread entry wakes it, and its
      window covers everything unread. */
  lemma RefreshFollowsTheLog(sessions: seq<Session>, runs: seq<Run>, list: seq<Readiness>, list': seq<Readiness>,
                             next: nat, next': nat, now: int, sid: SessionId, role: Role)
    requires ReadinessRefreshed(sessions, runs, list, list', next, next', now)
    requires Open(sessions, runs, list, sid, role)
    ensures HasReady(list', sid, role) <==> Woken(sessions[sid], role, HasAcquiredRun(runs, sid, WorkerAgent))
    ensures forall e | e in list' && e.status == Ready && IsFor(e, sid, role) ::
      e.window.fromSeq == Cursor(sessions[sid], role) + 1 && e.window.toSeq == |sessions[sid].log|
  {
    var activeWorker := HasAcquiredRun(runs, sid, WorkerAgent);
    assert RefreshedFor(sessions, runs, list, list', next, next', now, sid, role);
    ReadyIffWoken(sessions[sid].log, Cursor(sessions[sid], role), role, activeWorker);
    ReadyForIsMember(list', sid, role);
    ReadyForIsMember(list, sid, role);
    hide RefreshedFor;
    hide ReadyFor;
    hide Wakes;
  }

  lemma RefreshedList(s: State, s': State, now: int)
    requires Refreshes(s, s', now)
    ensures ReadinessRefreshed(s'.sessions, s.runs, s.readiness, s'.readiness, s.nextReadiness, s'.nextReadiness, now)
    ensures s'.runs == s.runs && |s'.sessions| == |s.sessions|
    ensures forall i | 0 <= i < |s.sessions| :: s'.sessions[i] == Expired(s.sessions[i], now)
  {
  }

  /** A signal for a role always wakes it. */
  lemma SignalWakes(s: Session, role: Role, targets: set<Role>, activeWorker: bool)
    requires s.log != [] && role in targets && s.log[|s.log| - 1] == SystemSignal(targets, None)
    requires Cursor(s, role) < |s.log|
    ensures Woken(s, role, activeWorker)
  {
    assert WakeOf(s.log[|s.log| - 1], role, activeWorker).Some?;
  }

  // ---------------------------------------------------------------- waiting

  /** Nobody runs or is about to run the GoalManager of a waiting goal. */
  lemma WaitingIsIdle(s: State, sid: SessionId)
    requires Inv(s) && sid < |s.sessions| && s.sessions[sid].goal.Some? && s.sessions[sid].goal.value.waiting.Some?
    ensures !HasAcquiredRun(s.runs, sid, GoalManager) && !HasTakenReadiness(s.readiness, sid, GoalManager)
    ensures !s.sessions[sid].goal.value.complete
    ensures Cursor(s.sessions[sid], GoalManager) <= |s.sessions[sid].log|
  {
    assert CursorsOk(s.sessions);
    assert GoalOk(s.sessions[sid], sid, s.runs);
    hide Replayed;
  }

  /** A wait that ends at a refresh makes the GoalManager ready in that refresh. */
  lemma EndedWaitIsReady(s: State, s': State, now: int, sid: SessionId)
    requires Inv(s) && Refreshes(s, s', now) && sid < |s.sessions| && WaitEnds(s.sessions[sid], now)
    ensures s'.sessions[sid].goal.Some? && s'.sessions[sid].goal.value.waiting.None?
    ensures HasReady(s'.readiness, sid, GoalManager)
  {
    hide Inv;
    hide ReadinessRefreshed;
    hide WaitFires;
    WaitingIsIdle(s, sid);
    RefreshedList(s, s', now);
    var session := s'.sessions[sid];
    assert session == Expired(s.sessions[sid], now);
    SignalWakes(session, GoalManager, {GoalManager}, HasAcquiredRun(s.runs, sid, WorkerAgent));
    RefreshFollowsTheLog(s'.sessions, s.runs, s.readiness, s'.readiness, s.nextReadiness, s'.nextReadiness, now, sid, GoalManager);
  }

  /** No lost wake. Whatever a committed wait is for, the first such entry from outside the declaring
      run that lies after that run's window ends the wait at the next refresh of the active Session
      and makes the GoalManager ready, even when it raced with the declaration or the commit. */
  lemma NoLostWake(s: State, s': State, now: int, sid: SessionId, k: nat)
    requires Inv(s) && Refreshes(s, s', now) && sid < |s.sessions| && s.sessions[sid].active
    requires s.sessions[sid].goal.Some? && s.sessions[sid].goal.value.waiting.Some?
    requires var w := s.sessions[sid].goal.value.waiting.value;
      && w.declaredRun < |s.runs|
      && s.runs[w.declaredRun].window.toSeq <= k < |s.sessions[sid].log|
      && WaitedFor(s.sessions[sid].log[k], w.kind, w.declaredRun)
    ensures s'.sessions[sid].goal.Some? && s'.sessions[sid].goal.value.waiting.None?
    ensures HasReady(s'.readiness, sid, GoalManager)
  {
    hide LeaseInv;
    hide Replayed;
    hide ReadinessRefreshed;
    var session := s.sessions[sid];
    var w := session.goal.value.waiting.value;
    assert GoalOk(session, sid, s.runs);
    assert w.wakeLogSeq <= k;
    assert WaitFires(session.log, w, now);
    EndedWaitIsReady(s, s', now, sid);
  }

  // ---------------------------------------------------------------- restart recovery

  /** After restart recovery nothing is held and no cursor has moved; every active incomplete goal has
      a signal for its GoalManager, and for each role that was running, beyond that role's cursor. */
  lemma RecoveryIsTotal(s: State)
    requires CursorsOk(s.sessions)
    ensures var s' := Recovered(s);
      && |s'.sessions| == |s.sessions|
      && (forall r | r in s'.runs :: r.lease != Acquired)
      && (forall e | e in s'.readiness :: e.status != Taken)
      && (forall i, role | 0 <= i < |s.sessions| ::
            s'.sessions[i].goal == s.sessions[i].goal && Cursor(s'.sessions[i], role) == Cursor(s.sessions[i], role))
      && (forall i, role, activeWorker | 0 <= i < |s.sessions| && ActiveIncomplete(s.sessions[i])
             && (role == GoalManager || HasAcquiredRun(s.runs, i, role)) ::
            Woken(s'.sessions[i], role, activeWorker))
  {
    var s' := Recovered(s);
    forall i, role, activeWorker | 0 <= i < |s.sessions| && ActiveIncomplete(s.sessions[i])
      && (role == GoalManager || HasAcquiredRun(s.runs, i, role))
      ensures Woken(s'.sessions[i], role, activeWorker)
    {
      assert Cursor(s.sessions[i], role) <= |s.sessions[i].log|;
      assert Resumable(s.sessions, i);
      SignalWakes(s'.sessions[i], role, {GoalManager} + InterruptedRoles(s.runs, i), activeWorker);
    }
  }

  /** And nothing else happens: a run is interrupted if and only if it held its lease; a taken entry is handed back
      if and only if its Session is active with an incomplete goal and a run of that Session held it, and
      given up otherwise; a Session gets one signal or stays as it was. */
  lemma RecoveryIsExact(s: State)
    ensures var s' := Recovered(s);
      && s'.units == s.units && s'.edges == s.edges && s'.nextReadiness == s.nextReadiness
      && |s'.runs| == |s.runs| && |s'.readiness| == |s.readiness| && |s'.sessions| == |s.sessions|
      && (forall i | 0 <= i < |s.runs| ::
            s'.runs[i] == s.runs[i].(lease := if s.runs[i].lease == Acquired then Interrupted else s.runs[i].lease))
      && (forall i | 0 <= i < |s.readiness| && s.readiness[i].status != Taken :: s'.readiness[i] == s.readiness[i])
      && (forall i | 0 <= i < |s.readiness| && s.readiness[i].status == Taken ::
            var sid, id := s.readiness[i].session, s.readiness[i].id;
            s'.readiness[i] == s.readiness[i].(status :=
              if sid < |s.sessions| && s.sessions[sid].active && s.sessions[sid].goal.Some? && !s.sessions[sid].goal.value.complete
                 && exists r | r in s.runs :: r.lease == Acquired && r.session == sid && r.readinessId == id
              then Ready else Stale))
      && (forall i | 0 <= i < |s.sessions| ::
            var session := s.sessions[i];
            s'.sessions[i] ==
              if session.active && session.goal.Some? && !session.goal.value.complete
              then session.(log := session.log + [SystemSignal(
                {GoalManager} + (set r | r in s.runs && r.lease == Acquired && r.session == i :: r.role), None)])
              else session)
  {
    var s' := Recovered(s);
    forall i | 0 <= i < |s.readiness| && s.readiness[i].status == Taken
      ensures s'.readiness[i] == ReleasedReadiness(s, s.readiness[i])
    {
    }
  }

  /** So the refresh after a recovery makes the GoalManager of every goal that does not wait ready, and
      with it each role that was interrupted. */
  lemma RecoveryThenReady(s: State, s': State, now: int, sid: SessionId, role: Role)
    requires Inv(s) && Refreshes(Recovered(s), s', now)
    requires sid < |s.sessions| && Dispatchable(s.sessions[sid])
    requires role == GoalManager || HasAcquiredRun(s.runs, sid, role)
    ensures HasReady(s'.readiness, sid, role)
  {
    var mid := Recovered(s);
    RecoveryIsTotal(s);
    RefreshedList(mid, s', now);
    hide Inv;
    hide ReadinessRefreshed;
    hide Recovered;
    hide Woken;
    assert s'.sessions[sid] == mid.sessions[sid] by {
      assert s'.sessions[sid] == Expired(mid.sessions[sid], now);
    }
    assert mid.sessions[sid].active == s.sessions[sid].active by {
      RecoveryKeepsActive(s, sid);
    }
    assert Woken(mid.sessions[sid], role, HasAcquiredRun(mid.runs, sid, WorkerAgent));
    RefreshFollowsTheLog(s'.sessions, mid.runs, mid.readiness, s'.readiness, mid.nextReadiness, s'.nextReadiness, now, sid, role);
  }

  lemma RecoveryKeepsActive(s: State, sid: SessionId)
    requires sid < |s.sessions|
    ensures Recovered(s).sessions[sid].active == s.sessions[sid].active
  {
  }

  // ---------------------------------------------------------------- liveness repair

  predicate HasUnexpiredRun(runs: seq<Run>, sid: SessionId, now: int) {
    exists r | r in runs :: r.lease == Acquired && r.session == sid && !LeaseExpired(r, now)
  }

  predicate HasReadyRole(list: seq<Readiness>, sid: SessionId) {
    exists e | e in list :: e.status == Ready && e.session == sid
  }

  /** A Session the audit looks at: active, incomplete, its Unit not paused. */
  predicate Audited(s: State, sid: SessionId)
    requires sid < |s.sessions|
  {
    ActiveIncomplete(s.sessions[sid]) && !UnitPaused(s.units, s.sessions[sid].unit)
  }

  predicate IsCovered(s: State, sid: SessionId, now: int)
    requires sid < |s.sessions|
  {
    || (s.sessions[sid].goal.Some? && s.sessions[sid].goal.value.waiting.Some?)
    || HasReadyRole(s.readiness, sid)
    || HasUnexpiredRun(s.runs, sid, now)
  }

  predicate IsGap(s: State, sid: SessionId, now: int) {
    sid < |s.sessions| && Audited(s, sid) && !IsCovered(s, sid, now)
  }

  /** A taken entry without a live run. */
  predicate IsOrphan(runs: seq<Run>, e: Readiness, now: int) {
    e.status == Taken && !exists r | r in runs :: r.lease == Acquired && !LeaseExpired(r, now) && r.readinessId == e.id
  }

  /** What the audit reports, in the terms of the state: a gap is an active Session with an incomplete goal, whose
      Unit is not switched off, that neither waits nor has a ready role nor a run whose lease is younger than
      660 seconds; an orphan a taken entry that no such run holds. */
  lemma AuditMeans(s: State, now: int)
    ensures forall sid: SessionId :: IsGap(s, sid, now) <==>
      && sid < |s.sessions|
      && s.sessions[sid].active && s.sessions[sid].goal.Some? && !s.sessions[sid].goal.value.complete
      && (s.sessions[sid].unit.Some? && s.sessions[sid].unit.value < |s.units| ==> s.units[s.sessions[sid].unit.value].active)
      && s.sessions[sid].goal.value.waiting.None?
      && (forall e | e in s.readiness && e.status == Ready :: e.session != sid)
      && (forall r | r in s.runs && r.lease == Acquired && r.session == sid :: now - r.acquiredAt >= 660)
    ensures forall e: Readiness :: IsOrphan(s.runs, e, now) <==>
      && e.status == Taken
      && forall r | r in s.runs && r.lease == Acquired && r.readinessId == e.id :: now - r.acquiredAt >= 660
  {
    forall sid: SessionId
      ensures HasReadyRole(s.readiness, sid) <==> !forall e | e in s.readiness && e.status == Ready :: e.session != sid
      ensures HasUnexpiredRun(s.runs, sid, now) <==>
        !forall r | r in s.runs && r.lease == Acquired && r.session == sid :: now - r.acquiredAt >= 660
    {
    }
  }

  lemma LapsedRunsAreLive(runs: seq<Run>, now: int)
    ensures forall r | r in LapsedRuns(runs, now) && r.lease == Acquired :: !LeaseExpired(r, now)
  {
    forall r | r in LapsedRuns(runs, now) && r.lease == Acquired
      ensures !LeaseExpired(r, now)
    {
      var i :| 0 <= i < |runs| && LapsedRuns(runs, now)[i] == r;
      assert r == Lapsed(runs[i], now);
    }
  }

  /** Where the repair saw nothing to do, the Session is covered already. */
  lemma NotUncoveredIsCovered(s: State, sid: SessionId, now: int)
    requires Inv(s) && sid < |s.sessions| && Audited(s, sid) && !Uncovered(s, sid)
    requires forall r | r in s.runs && r.lease == Acquired :: !LeaseExpired(r, now)
    ensures IsCovered(s, sid, now)
  {
    if HasLiveReadiness(s.readiness, sid) {
      var e :| e in s.readiness && Live(e) && e.session == sid;
      if e.status == Taken {
        var r :| r in s.runs && Owns(r, e);
      }
    }
  }

  /** A ready entry of a refreshed state stays ready when nothing about its Session changes and the
      state is refreshed again. */
  lemma ReadyAgain(first: State, mid: State, again: State, s': State, now: int, sid: SessionId, role: Role)
    requires Refreshes(first, mid, now) && Inv(mid)
    requires again.runs == mid.runs && again.readiness == mid.readiness && |again.sessions| == |mid.sessions|
    requires Refreshes(again, s', now)
    requires sid < |mid.sessions| && again.sessions[sid] == mid.sessions[sid] && Dispatchable(mid.sessions[sid])
    requires !HasLiveRun(mid.runs, sid) && HasReady(mid.readiness, sid, role)
    ensures HasReady(s'.readiness, sid, role)
  {
    RefreshedList(first, mid, now);
    RefreshedList(again, s', now);
    assert s'.sessions[sid] == mid.sessions[sid] by {
      assert s'.sessions[sid] == Expired(again.sessions[sid], now);
    }
    NothingTakenBesideReady(mid, sid, role);
    hide Inv;
    assert Open(mid.sessions, mid.runs, first.readiness, sid, role) by {
      forall e | e in first.readiness && e.status == Taken
        ensures !IsFor(e, sid, role)
      {
        assert e in mid.readiness;
      }
    }
    hide ReadinessRefreshed;
    RefreshFollowsTheLog(mid.sessions, first.runs, first.readiness, mid.readiness, first.nextReadiness, mid.nextReadiness,
      now, sid, role);
    RefreshFollowsTheLog(s'.sessions, again.runs, again.readiness, s'.readiness, again.nextReadiness, s'.nextReadiness,
      now, sid, role);
  }

  lemma NothingTakenBesideReady(s: State, sid: SessionId, role: Role)
    requires Inv(s) && HasReady(s.readiness, sid, role)
    ensures !HasTakenReadiness(s.readiness, sid, role)
  {
    hide GoalsOk;
    var e :| e in s.readiness && e.status == Ready && IsFor(e, sid, role);
  }

  /** The signal of the repair makes an uncovered Session ready. */
  lemma SignalledIsReady(mid: State, s': State, now: int, sid: SessionId)
    requires Inv(mid) && Refreshes(Signalled(mid), s', now)
    requires sid < |mid.sessions| && Uncovered(mid, sid)
    ensures HasReady(s'.readiness, sid, GoalManager)
  {
    var again := Signalled(mid);
    assert CursorsOk(mid.sessions) && Cursor(mid.sessions[sid], GoalManager) <= |mid.sessions[sid].log|;
    hide Inv;
    hide ReadinessRefreshed;
    RefreshedList(again, s', now);
    var session := s'.sessions[sid];
    assert session == Appended(mid.sessions[sid], [GM_SIGNAL]) by {
      assert session == Expired(again.sessions[sid], now);
    }
    SignalWakes(session, GoalManager, {GoalManager}, HasAcquiredRun(again.runs, sid, WorkerAgent));
    RefreshFollowsTheLog(s'.sessions, again.runs, again.readiness, s'.readiness, again.nextReadiness, s'.nextReadiness,
      now, sid, GoalManager);
  }

  /** A wait that survived one refresh survives another one at the same time. */
  lemma WaitSurvives(first: State, mid: State, s': State, now: int, sid: SessionId)
    requires Refreshes(first, mid, now) && Refreshes(Signalled(mid), s', now)
    requires sid < |mid.sessions| && mid.sessions[sid].goal.Some? && mid.sessions[sid].goal.value.waiting.Some?
    ensures s'.sessions[sid] == mid.sessions[sid]
  {
    hide ReadinessRefreshed;
    assert mid.sessions[sid] == Expired(first.sessions[sid], now);
    assert s'.sessions[sid] == Expired(Signalled(mid).sessions[sid], now);
  }

  /** After the liveness repair every audited Session waits, has a ready role, or is being run under
      an unexpired lease. */
  lemma RepairCovers(s: State, mid: State, s': State, now: int, sid: SessionId)
    requires Inv(s) && ReconcilesVia(s, mid, s', now)
    requires sid < |s'.sessions| && Audited(s', sid)
    ensures IsCovered(s', sid, now)
  {
    ReconcileKeepsInv(s, mid, s', now);
    LapsedRunsAreLive(s.runs, now);
    hide Inv;
    hide ReadinessRefreshed;
    hide AfterExpiry;
    hide Peaceful;
    if !AnyUncovered(mid) {
      NotUncoveredIsCovered(mid, sid, now);
    } else if Uncovered(mid, sid) {
      SignalledIsReady(mid, s', now, sid);
    } else {
      var session := mid.sessions[sid];
      RefreshedList(Signalled(mid), s', now);
      assert s'.sessions[sid] == Expired(session, now);
      if session.goal.Some? && session.goal.value.waiting.Some? {
        WaitSurvives(AfterExpiry(s, now), mid, s', now, sid);
      } else {
        assert s'.sessions[sid] == session;
        NotUncoveredIsCovered(mid, sid, now);
        if !HasLiveRun(mid.runs, sid) {
          var e :| e in mid.readiness && e.status == Ready && e.session == sid;
          ReadyAgain(AfterExpiry(s, now), mid, Signalled(mid), s', now, sid, e.role);
        }
      }
    }
  }

  /** The liveness promise of the repair, in the terms of the audit: no gap, no orphaned readiness, no
      expired lease. */
  lemma RepairedStateIsLive(s: State, s': State, now: int)
    requires Inv(s) && Reconciles(s, s', now)
    ensures forall sid | 0 <= sid < |s'.sessions| :: !IsGap(s', sid, now)
    ensures forall e | e in s'.readiness :: !IsOrphan(s'.runs, e, now)
    ensures forall r | r in s'.runs && r.lease == Acquired :: !LeaseExpired(r, now)
    ensures forall sid | 0 <= sid < |s'.sessions| ::
      var session := s'.sessions[sid];
      session.active && session.goal.Some? && !session.goal.value.complete
      && (session.unit.Some? && session.unit.value < |s'.units| ==> s'.units[session.unit.value].active) ==>
        || session.goal.value.waiting.Some?
        || (exists e | e in s'.readiness :: e.status == Ready && e.session == sid)
        || (exists r | r in s'.runs :: r.lease == Acquired && r.session == sid && now - r.acquiredAt < 660)
    ensures forall r | r in s'.runs && r.lease == Acquired :: now - r.acquiredAt < 660
    ensures forall e | e in s'.readiness && e.status == Taken ::
      exists r | r in s'.runs :: r.lease == Acquired && r.readinessId == e.id
  {
    var mid :| ReconcilesVia(s, mid, s', now);
    ReconcileKeepsInv(s, mid, s', now);
    LapsedRunsAreLive(s.runs, now);
    OwnersAreLive(s', now);
    hide Inv;
    hide ReconcilesVia;
    hide IsCovered;
    forall sid | 0 <= sid < |s'.sessions|
      ensures !IsGap(s', sid, now)
      ensures Audited(s', sid) ==>
        || s'.sessions[sid].goal.value.waiting.Some?
        || (exists e | e in s'.readiness :: e.status == Ready && e.session == sid)
        || (exists r | r in s'.runs :: r.lease == Acquired && r.session == sid && now - r.acquiredAt < 660)
    {
      if Audited(s', sid) {
        RepairCovers(s, mid, s', now, sid);
        CoveredMeans(s', sid, now);
      }
    }
  }

  lemma CoveredMeans(s: State, sid: SessionId, now: int)
    requires sid < |s.sessions| && IsCovered(s, sid, now)
    ensures
      || (s.sessions[sid].goal.Some? && s.sessions[sid].goal.value.waiting.Some?)
      || (exists e | e in s.readiness :: e.status == Ready && e.session == sid)
      || (exists r | r in s.runs :: r.lease == Acquired && r.session == sid && now - r.acquiredAt < 660)
  {
    if HasUnexpiredRun(s.runs, sid, now) {
      var r :| r in s.runs && r.lease == Acquired && r.session == sid && !LeaseExpired(r, now);
      assert now - r.acquiredAt < 660;
    }
  }

  lemma OwnersAreLive(s: State, now: int)
    requires Inv(s) && forall r | r in s.runs && r.lease == Acquired :: !LeaseExpired(r, now)
    ensures forall e | e in s.readiness :: !IsOrphan(s.runs, e, now)
  {
    hide GoalsOk;
    forall e | e in s.readiness && e.status == Taken
      ensures !IsOrphan(s.runs, e, now)
    {
      var r :| r in s.runs && Owns(r, e);
    }
  }

  // ---------------------------------------------------------------- the repair and paused Units

  /** Nothing of a Session is taken when none of its runs holds a lease. */
  lemma NothingTakenWithoutRun(s: State, sid: SessionId, role: Role)
    requires Inv(s) && !HasLiveRun(s.runs, sid)
    ensures !HasTakenReadiness(s.readiness, sid, role) && !HasAcquiredRun(s.runs, sid, role)
  {
    hide GoalsOk;
    forall e | e in s.readiness && e.status == Taken
      ensures !IsFor(e, sid, role)
    {
      var r :| r in s.runs && Owns(r, e);
    }
  }

  /** A refresh of a Session that nobody runs makes exactly the woken roles ready. */
  lemma IdleRefresh(m: State, s': State, now: int, sid: SessionId, role: Role)
    requires Inv(m) && Refreshes(m, s', now) && sid < |m.sessions| && Dispatchable(m.sessions[sid])
    requires !HasLiveRun(m.runs, sid)
    ensures s'.sessions[sid] == m.sessions[sid]
    ensures HasReady(s'.readiness, sid, role) <==> Woken(m.sessions[sid], role, false)
  {
    NothingTakenWithoutRun(m, sid, role);
    NothingTakenWithoutRun(m, sid, WorkerAgent);
    hide Inv;
    hide ReadinessRefreshed;
    hide Woken;
    RefreshedList(m, s', now);
    assert s'.sessions[sid] == Expired(m.sessions[sid], now);
    RefreshFollowsTheLog(s'.sessions, m.runs, m.readiness, s'.readiness, m.nextReadiness, s'.nextReadiness, now, sid, role);
  }

  /** The repair leaves a paused Session that nobody runs to its log. */
  lemma PausedFollowsTheLog(s: State, mid: State, s': State, now: int, sid: SessionId, role: Role)
    requires Inv(s) && ReconcilesVia(s, mid, s', now) && sid < |s.sessions|
    requires UnitPaused(s.units, s.sessions[sid].unit) && !HasLiveRun(LapsedRuns(s.runs, now), sid)
    requires Dispatchable(AfterExpiry(s, now).sessions[sid])
    ensures HasReady(s'.readiness, sid, role) <==> Woken(AfterExpiry(s, now).sessions[sid], role, false)
    ensures s'.sessions[sid] == AfterExpiry(s, now).sessions[sid]
  {
    var first := AfterExpiry(s, now);
    ExpiryKeepsInv(s, now);
    ExpiryShape(s, now, sid);
    hide Inv;
    hide Refreshes;
    hide AfterExpiry;
    hide Woken;
    hide Peaceful;
    hide Dispatchable;
    RefreshShape(first, mid, now);
    RefreshKeepsInv(first, mid, now);
    IdleRefresh(first, mid, now, sid, role);
    if AnyUncovered(mid) {
      PausedIsNotSignalled(mid, sid);
      SignalledKeepsInv(mid);
      IdleRefresh(Signalled(mid), s', now, sid, role);
    }
  }

  lemma ExpiryShape(s: State, now: int, sid: SessionId)
    requires sid < |s.sessions|
    ensures var first := AfterExpiry(s, now);
      && first.runs == LapsedRuns(s.runs, now) && first.units == s.units && |first.sessions| == |s.sessions|
      && first.sessions[sid].unit == s.sessions[sid].unit && first.sessions[sid].active == s.sessions[sid].active
      && first.sessions[sid].goal == s.sessions[sid].goal
      && first.sessions[sid] == if LostOwnership(s.runs, s.readiness, now, sid)
                                then Appended(s.sessions[sid], [GM_SIGNAL]) else s.sessions[sid]
  {
  }

  lemma PausedIsNotSignalled(s: State, sid: SessionId)
    requires sid < |s.sessions| && UnitPaused(s.units, s.sessions[sid].unit)
    ensures Signalled(s).sessions[sid] == s.sessions[sid] && Signalled(s).runs == s.runs
    ensures |Signalled(s).sessions| == |s.sessions|
  {
  }

  lemma TakenHasRun(s: State, sid: SessionId)
    requires Inv(s) && exists e | e in s.readiness :: e.status == Taken && e.session == sid
    ensures HasLiveRun(s.runs, sid)
  {
    hide GoalsOk;
    var e :| e in s.readiness && e.status == Taken && e.session == sid;
    var r :| r in s.runs && Owns(r, e);
  }

  /** A run that holds its lease has either expired or goes on after the expiry. */
  lemma ExpiredOrUnexpired(runs: seq<Run>, now: int, sid: SessionId)
    ensures HasLiveRun(runs, sid) <==>
      || (exists r | r in runs :: r.lease == Acquired && LeaseExpired(r, now) && r.session == sid)
      || HasUnexpiredRun(LapsedRuns(runs, now), sid, now)
    ensures HasLiveRun(LapsedRuns(runs, now), sid) ==> HasUnexpiredRun(LapsedRuns(runs, now), sid, now)
  {
    var lapsed := LapsedRuns(runs, now);
    LapsedRunsAreLive(runs, now);
    hide LeaseExpired;
    if HasLiveRun(runs, sid) {
      var r :| r in runs && r.lease == Acquired && r.session == sid;
      var i :| 0 <= i < |runs| && runs[i] == r;
      assert lapsed[i] == Lapsed(r, now) && lapsed[i] in lapsed;
    }
    if HasUnexpiredRun(lapsed, sid, now) {
      var r :| r in lapsed && r.lease == Acquired && r.session == sid;
      var i :| 0 <= i < |lapsed| && lapsed[i] == r;
      assert lapsed[i] == Lapsed(runs[i], now) && runs[i] in runs;
    }
  }

  /** Ownership is lost exactly by the Sessions whose runs have expired. */
  lemma LostMeansExpired(s: State, now: int, sid: SessionId)
    requires Inv(s)
    ensures HasLiveRun(s.runs, sid) <==>
      LostOwnership(s.runs, s.readiness, now, sid) || HasUnexpiredRun(LapsedRuns(s.runs, now), sid, now)
    ensures HasLiveRun(LapsedRuns(s.runs, now), sid) ==> HasUnexpiredRun(LapsedRuns(s.runs, now), sid, now)
  {
    hide Inv;
    hide LeaseExpired;
    hide HasLiveRun;
    hide HasUnexpiredRun;
    ExpiredOrUnexpired(s.runs, now, sid);
    if exists e | e in s.readiness :: e.status == Taken && !Owned(LapsedRuns(s.runs, now), e) && e.session == sid {
      TakenHasRun(s, sid);
    }
  }

  /** Before the repair, the Session has something to go on: a Unit that is not paused, a wait, a run that
      holds a lease, or an unread entry that wakes one of its roles. */
  ghost predicate HasSomethingToGoOn(s: State, sid: SessionId)
    requires sid < |s.sessions| && s.sessions[sid].goal.Some?
  {
    || !UnitPaused(s.units, s.sessions[sid].unit)
    || s.sessions[sid].goal.value.waiting.Some?
    || HasLiveRun(s.runs, sid)
    || Woken(s.sessions[sid], GoalManager, false)
    || Woken(s.sessions[sid], WorkerAgent, false)
  }

  lemma ReadyRoleIsARole(list: seq<Readiness>, sid: SessionId)
    ensures HasReadyRole(list, sid) <==> HasReady(list, sid, GoalManager) || HasReady(list, sid, WorkerAgent)
  {
    if HasReadyRole(list, sid) {
      var e :| e in list && e.status == Ready && e.session == sid;
      assert IsFor(e, sid, e.role);
    }
  }

  /** A wait of a paused Session covers it: the repair keeps it, or ends it and makes the GoalManager ready. */
  lemma PausedWaitIsCovered(s: State, mid: State, s': State, now: int, sid: SessionId)
    requires Inv(s) && ReconcilesVia(s, mid, s', now) && sid < |s.sessions| && ActiveIncomplete(s.sessions[sid])
    requires UnitPaused(s.units, s.sessions[sid].unit) && s.sessions[sid].goal.value.waiting.Some?
    ensures sid < |s'.sessions| && IsCovered(s', sid, now)
  {
    var first := AfterExpiry(s, now);
    ExpiryKeepsInv(s, now);
    ExpiryShape(s, now, sid);
    ReconcileKeepsInv(s, mid, s', now);
    LostMeansExpired(s, now, sid);
    hide Inv;
    hide ReadinessRefreshed;
    hide AfterExpiry;
    hide Peaceful;
    hide WaitFires;
    hide LostOwnership;
    RefreshedList(first, mid, now);
    assert mid.sessions[sid] == Expired(first.sessions[sid], now);
    if AnyUncovered(mid) {
      RefreshedList(Signalled(mid), s', now);
    }
    if WaitEnds(first.sessions[sid], now) {
      EndedWaitIsReady(first, mid, now, sid);
      ReadyRoleIsARole(mid.readiness, sid);
      if AnyUncovered(mid) && !HasLiveRun(mid.runs, sid) {
        PausedIsNotSignalled(mid, sid);
        ReadyAgain(first, mid, Signalled(mid), s', now, sid, GoalManager);
        ReadyRoleIsARole(s'.readiness, sid);
      }
    } else if AnyUncovered(mid) {
      WaitSurvives(first, mid, s', now, sid);
    }
  }

  /** The liveness promise for every active incomplete Session, exactly: after the repair it waits, has a
      ready role or is being run if and only if it had something to go on before. */
  lemma RepairCoversExactly(s: State, mid: State, s': State, now: int, sid: SessionId)
    requires Inv(s) && ReconcilesVia(s, mid, s', now)
    requires sid < |s.sessions| && ActiveIncomplete(s.sessions[sid])
    ensures sid < |s'.sessions| && ActiveIncomplete(s'.sessions[sid])
    ensures IsCovered(s', sid, now) <==> HasSomethingToGoOn(s, sid)
  {
    ReconcileKeepsInv(s, mid, s', now);
    RepairKeepsGoals(s, mid, s', now, sid);
    if !UnitPaused(s.units, s.sessions[sid].unit) {
      RepairCovers(s, mid, s', now, sid);
    } else if s.sessions[sid].goal.value.waiting.Some? {
      PausedWaitIsCovered(s, mid, s', now, sid);
    } else {
      ExpiryShape(s, now, sid);
      LostMeansExpired(s, now, sid);
      assert Cursor(s.sessions[sid], GoalManager) <= |s.sessions[sid].log| by {
        assert CursorsOk(s.sessions);
      }
      hide Inv;
      hide ReconcilesVia;
      hide AfterExpiry;
      hide Peaceful;
      hide LostOwnership;
      ReadyRoleIsARole(s'.readiness, sid);
      if !HasLiveRun(LapsedRuns(s.runs, now), sid) {
        PausedFollowsTheLog(s, mid, s', now, sid, GoalManager);
        PausedFollowsTheLog(s, mid, s', now, sid, WorkerAgent);
        if LostOwnership(s.runs, s.readiness, now, sid) {
          SignalWakes(AfterExpiry(s, now).sessions[sid], GoalManager, {GoalManager}, false);
        }
      }
    }
  }

  lemma RepairKeepsGoals(s: State, mid: State, s': State, now: int, sid: SessionId)
    requires ReconcilesVia(s, mid, s', now) && sid < |s.sessions|
    ensures |s'.sessions| == |s.sessions| && s'.units == s.units
    ensures s'.sessions[sid].active == s.sessions[sid].active && s'.sessions[sid].unit == s.sessions[sid].unit
    ensures s'.sessions[sid].goal.Some? == s.sessions[sid].goal.Some?
    ensures s.sessions[sid].goal.Some? ==> s'.sessions[sid].goal.value.complete == s.sessions[sid].goal.value.complete
  {
    hide ReadinessRefreshed;
    hide LostOwnership;
    hide Uncovered;
    hide WaitFires;
    var first := AfterExpiry(s, now);
    assert mid.sessions[sid] == Expired(first.sessions[sid], now);
    if AnyUncovered(mid) {
      assert s'.sessions[sid] == Expired(Signalled(mid).sessions[sid], now);
    }
  }
}
