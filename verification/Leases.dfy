/** What an acquisition leases and what a lease lasts (src/goal/dispatch.py, `_acquire_dispatch_lease_locked`;
    src/goal/readiness.py, `_reconcile_dispatch_liveness`). */
module Leases {
  import opened Wrappers
  import opened DispatchModel
  import opened Projection
  import opened SelectionPolicy
  import opened Protocol
  import opened LeaseInvariant
  import opened GoalInvariant
  import opened StepInvariant
  import opened CommitInvariant
  import opened Preservation
  import opened Liveness
  import opened Requirements

  /** The repair interrupts exactly the runs whose lease is 660 seconds old, and changes no other. */
  lemma LeaseLasts(s: State, s': State, now: int)
    requires Reconciles(s, s', now)
    ensures |s'.runs| == |s.runs|
    ensures forall i | 0 <= i < |s.runs| ::
      s'.runs[i] == if s.runs[i].lease == Acquired && now - s.runs[i].acquiredAt >= 660
                    then s.runs[i].(lease := Interrupted) else s.runs[i]
  {
    hide ReadinessRefreshed;
    hide Uncovered;
    hide LostOwnership;
    var mid :| ReconcilesVia(s, mid, s', now);
  }

  /** A run that a step other than its end takes the lease from was 660 seconds old, or there was a restart. */
  lemma LeaseIsOnlyLostToTime(s: State, ev: Event, now: int, s': State, r: RunId)
    requires Inv(s) && Step(s, ev, now, s') && r < |s.runs| && s.runs[r].lease == Acquired
    requires r < |s'.runs| && s'.runs[r].lease != Acquired
    ensures (ev.AgentEnds? && ev.run == r) || ev.Recover? || (ev.Acquire? && now - s.runs[r].acquiredAt >= 660)
  {
    hide Inv;
    hide Refreshes;
    hide Ended;
    hide ReconcilesVia;
    hide IsChoice;
    hide Candidate;
    hide MayPost;
    hide HomesOk;
    hide OwnersRepaired;
    hide LinkedUnder;
    hide Recovered;
    if Accepted(s, ev, now) {
      if ev.AgentEnds? {
        EndsOneRun(s, ev.run, ev.end, now);
      } else if ev.Acquire? {
        AcquiredRuns(s, ev, now, s');
      } else if ev.Refresh? || ev.Reload? {
        RefreshedRuns(s, ev, now, s');
      }
    }
  }

  lemma EndsOneRun(s: State, r: RunId, end: AgentEnd, now: int)
    requires r < |s.runs| && s.runs[r].session < |s.sessions|
    ensures |Ended(s, r, end, now).runs| == |s.runs|
    ensures forall i | 0 <= i < |s.runs| && i != r :: Ended(s, r, end, now).runs[i] == s.runs[i]
  {
    hide FirstConflict;
    hide WithStatus;
    hide ResolvedFor;
    hide GateFor;
    hide WorkerRequested;
    hide Reported;
  }

  lemma RefreshedRuns(s: State, ev: Event, now: int, s': State)
    requires (ev.Refresh? || ev.Reload?) && Step(s, ev, now, s')
    ensures s'.runs == s.runs
  {
    hide ReadinessRefreshed;
  }

  lemma AcquiredRuns(s: State, ev: Event, now: int, s': State)
    requires ev.Acquire? && Accepted(s, ev, now) && Effect(s, ev, now, s')
    ensures |s.runs| <= |s'.runs|
    ensures s' != s ==> forall i | 0 <= i < |s.runs| ::
      s'.runs[i] == if s.runs[i].lease == Acquired && now - s.runs[i].acquiredAt >= 660
                    then s.runs[i].(lease := Interrupted) else s.runs[i]
  {
    hide ReadinessRefreshed;
    hide ReconcilesVia;
    hide IsChoice;
    hide Candidate;
    hide UnitRefuses;
    hide MarkStale;
    var repaired, ready :| AcquiresVia(s, repaired, ready, s', ev.filter, now, ev.outcome);
    LeaseLasts(s, repaired, now);
    if ev.outcome.LeaseTaken? {
      ChoiceInRange(ready, ev.filter, now, ev.outcome.chosen);
    }
  }

  /** A Session that is off is left alone by the repair, unless one of its runs is interrupted. */
  lemma RepairLeavesOffAlone(s: State, s': State, now: int, sid: SessionId)
    requires Inv(s) && Reconciles(s, s', now) && sid < |s.sessions|
    requires !s.sessions[sid].active
    requires forall r | r in s.runs && r.lease == Acquired && r.session == sid :: now - r.acquiredAt < 660
    ensures sid < |s'.sessions| && s'.sessions[sid] == s.sessions[sid]
  {
    hide ReadinessRefreshed;
    hide WaitFires;
    hide UnitPaused;
    hide HasLiveReadiness;
    var mid :| ReconcilesVia(s, mid, s', now);
    LostMeansExpired(s, now, sid);
    hide Inv;
    if LostOwnership(s.runs, s.readiness, now, sid) {
      LostHasRun(s, now, sid);
    }
    assert mid.sessions[sid] == Expired(AfterExpiry(s, now).sessions[sid], now);
    if AnyUncovered(mid) {
      assert s'.sessions[sid] == Expired(Signalled(mid).sessions[sid], now);
    }
  }

  /** Nor does it touch a Session of a Unit that is switched off, as long as nobody runs it: its roles are ready
      afterwards exactly if its unread log wakes them. */
  lemma RepairLeavesPausedAlone(s: State, s': State, now: int, sid: SessionId, role: Role)
    requires Inv(s) && Reconciles(s, s', now) && sid < |s.sessions|
    requires s.sessions[sid].active && s.sessions[sid].goal.Some? && !s.sessions[sid].goal.value.complete
    requires s.sessions[sid].goal.value.waiting.None?
    requires s.sessions[sid].unit.Some? && s.sessions[sid].unit.value < |s.units|
    requires !s.units[s.sessions[sid].unit.value].active
    requires forall r | r in s.runs && r.lease == Acquired :: r.session != sid
    ensures sid < |s'.sessions| && s'.sessions[sid] == s.sessions[sid]
    ensures HasReady(s'.readiness, sid, role) <==> Woken(s.sessions[sid], role, false)
  {
    hide ReconcilesVia;
    hide Woken;
    hide AfterExpiry;
    var mid :| ReconcilesVia(s, mid, s', now);
    LostMeansExpired(s, now, sid);
    ExpiryShape(s, now, sid);
    if LostOwnership(s.runs, s.readiness, now, sid) {
      LostHasRun(s, now, sid);
    }
    hide Inv;
    assert !HasLiveRun(LapsedRuns(s.runs, now), sid);
    PausedFollowsTheLog(s, mid, s', now, sid, role);
    RepairKeepsGoals(s, mid, s', now, sid);
  }

  lemma LostHasRun(s: State, now: int, sid: SessionId)
    requires Inv(s) && LostOwnership(s.runs, s.readiness, now, sid)
    ensures exists r | r in s.runs :: r.lease == Acquired && r.session == sid && now - r.acquiredAt >= 660
  {
    hide GoalsOk;
    if e :| e in s.readiness && e.status == Taken && !Owned(LapsedRuns(s.runs, now), e) && e.session == sid {
      var r :| r in s.runs && Owns(r, e);
      var i :| 0 <= i < |s.runs| && s.runs[i] == r;
      assert LapsedRuns(s.runs, now)[i] == Lapsed(r, now) && LapsedRuns(s.runs, now)[i] in LapsedRuns(s.runs, now);
    }
  }

  // ---------------------------------------------------------------- what is leased

  /** What a lease is given for: the new run belongs to an active Session with an incomplete goal, inside the
      filter, of no Unit that is unknown or switched off. It has observed that goal's body and works on the
      log from just behind its role's cursor; unless the goal waits, its window reaches the end of the log
      and an entry in it wakes the role. Nobody else runs that role. */
  lemma LeaseIsEarned(s: State, s': State, filter: Option<SessionId>, now: int, r: RunId, chosen: nat, agentUser: Option<nat>)
    requires Inv(s) && Step(s, Event.Acquire(filter, LeaseTaken(r, chosen, agentUser)), now, s')
    requires filter.Some? ==> filter.value < |s.sessions|
    ensures r == |s.runs| && |s'.runs| == |s.runs| + 1 && s'.runs[r].session < |s'.sessions|
    ensures
      var run, session := s'.runs[r], s'.sessions[s'.runs[r].session];
      && run == Run(run.session, run.role, Acquired, run.readinessId, agentUser, now, run.observedBody, run.window,
                    None, Unfinished, 0)
      && (filter.Some? ==> run.session == filter.value)
      && session.active && session.goal.Some? && !session.goal.value.complete
      && (session.unit.Some? ==> session.unit.value < |s.units| && s.units[session.unit.value].active)
      && run.observedBody == session.goal.value.body
      && run.window.fromSeq == Cursor(session, run.role) + 1 <= run.window.toSeq <= |session.log|
      && (run.window.availableAfter.Some? ==> run.window.availableAfter.value <= now)
      && (session.goal.value.waiting.None? ==>
            && run.window.toSeq == |session.log|
            && exists k | run.window.fromSeq - 1 <= k < run.window.toSeq ::
                 WakeOf(session.log[k], run.role, HasAcquiredRun(s'.runs, run.session, WorkerAgent)).Some?)
      && (run.role == GoalManager ==> session.goal.value.waiting.None?)
      && (exists e | e in s'.readiness :: e.status == Taken && e.id == run.readinessId && e.session == run.session && e.role == run.role)
      && (forall q | q in s'.runs && q.lease == Acquired && q.session == run.session && q.role == run.role :: q == run)
  {
    hide Inv;
    hide Refreshes;
    hide Reconciles;
    hide IsChoice;
    hide Woken;
    hide HasAcquiredRun;
    hide WakeOf;
    StepKeepsInv(s, Event.Acquire(filter, LeaseTaken(r, chosen, agentUser)), now, s');
    var repaired, ready :| AcquiresVia(s, repaired, ready, s', filter, now, LeaseTaken(r, chosen, agentUser));
    AcquireShape(s, repaired, ready, now);
    ChoiceIsFree(ready, filter, now, chosen);
    AcquiredWindow(s', r);
    SoleRun(s', r);
    var e := ready.readiness[chosen];
    assert s'.readiness[chosen] == e.(status := Taken) && s'.readiness[chosen] in s'.readiness;
    if e.role == GoalManager {
      ManagedGoalIsIncomplete(s', r);
    }
    if ready.sessions[e.session].goal.value.waiting.None? {
      RefreshedChoice(repaired, ready, now, e);
      SameWorkers(ready, s', r);
      WokenInWindow(ready.sessions[e.session], e.role, HasAcquiredRun(ready.runs, e.session, WorkerAgent),
        HasAcquiredRun(s'.runs, e.session, WorkerAgent));
    }
  }

  /** An acquisition is refused for a Unit that is unknown or off only, and then nothing changes. */
  lemma RefusalMeansOff(s: State, s': State, filter: Option<SessionId>, now: int)
    requires Inv(s) && Step(s, Event.Acquire(filter, Refused), now, s') && (filter.Some? ==> filter.value < |s.sessions|)
    ensures s' == s
    ensures exists sid: SessionId | sid < |s.sessions| ::
      && s.sessions[sid].unit.Some?
      && (s.sessions[sid].unit.value < |s.units| ==> !s.units[s.sessions[sid].unit.value].active)
  {
    hide Inv;
    hide Refreshes;
    hide Reconciles;
    hide IsChoice;
    var repaired, ready :| AcquiresVia(s, repaired, ready, s', filter, now, Refused);
    AcquireShape(s, repaired, ready, now);
    var sid := RefusedSession(ready, filter, now);
    SameUnits(s, repaired, ready, now, sid);
  }

  lemma RefusedSession(s: State, filter: Option<SessionId>, now: int) returns (sid: SessionId)
    requires ChoiceRefused(s, filter, now)
    ensures sid < |s.sessions| && UnitRefuses(s.units, s.sessions[sid].unit)
  {
    hide Precedes;
    hide Starved;
    var i: nat :|
      && IsChoice(s.readiness, s.sessions, AcquiredRoles(s.runs), filter, now, i)
      && UnitRefuses(s.units, s.sessions[s.readiness[i].session].unit);
    sid := s.readiness[i].session;
  }

  lemma SameUnits(s: State, repaired: State, ready: State, now: int, sid: SessionId)
    requires Reconciles(s, repaired, now) && Refreshes(repaired, ready, now) && sid < |ready.sessions|
    ensures sid < |s.sessions| && ready.sessions[sid].unit == s.sessions[sid].unit
  {
    hide ReadinessRefreshed;
    hide WaitEnds;
    hide LostOwnership;
    hide Uncovered;
    var mid :| ReconcilesVia(s, mid, repaired, now);
    assert ready.sessions[sid] == Expired(repaired.sessions[sid], now);
    assert mid.sessions[sid] == Expired(AfterExpiry(s, now).sessions[sid], now);
    if AnyUncovered(mid) {
      assert repaired.sessions[sid] == Expired(Signalled(mid).sessions[sid], now);
    }
  }

  lemma ChoiceIsFree(s: State, filter: Option<SessionId>, now: int, i: nat)
    requires IsChoice(s.readiness, s.sessions, AcquiredRoles(s.runs), filter, now, i)
    ensures i < |s.readiness| && s.readiness[i].session < |s.sessions|
    ensures
      var e, session := s.readiness[i], s.sessions[s.readiness[i].session];
      && e.status == Ready && (filter.Some? ==> filter.value == e.session)
      && (e.window.availableAfter.Some? ==> e.window.availableAfter.value <= now)
      && session.active && session.goal.Some? && !session.goal.value.complete
      && !HasAcquiredRun(s.runs, e.session, e.role)
  {
    hide Precedes;
  }

  lemma SoleRun(s: State, r: RunId)
    requires Inv(s) && r < |s.runs| && s.runs[r].lease == Acquired
    ensures forall q | q in s.runs && q.lease == Acquired && q.session == s.runs[r].session && q.role == s.runs[r].role :: q == s.runs[r]
  {
    hide GoalsOk;
    forall q | q in s.runs && q.lease == Acquired && q.session == s.runs[r].session && q.role == s.runs[r].role
      ensures q == s.runs[r]
    {
      var i :| 0 <= i < |s.runs| && s.runs[i] == q;
    }
  }

  lemma RefreshedChoice(s: State, s': State, now: int, e: Readiness)
    requires Refreshes(s, s', now) && Inv(s') && e in s'.readiness && e.status == Ready
    requires e.session < |s'.sessions| && Dispatchable(s'.sessions[e.session]) && !HasAcquiredRun(s'.runs, e.session, e.role)
    ensures Woken(s'.sessions[e.session], e.role, HasAcquiredRun(s'.runs, e.session, WorkerAgent))
    ensures e.window.fromSeq == Cursor(s'.sessions[e.session], e.role) + 1 && e.window.toSeq == |s'.sessions[e.session].log|
  {
    NothingTakenBesideReady(s', e.session, e.role);
    RefreshedList(s, s', now);
    hide Inv;
    hide Woken;
    assert Open(s'.sessions, s.runs, s.readiness, e.session, e.role) by {
      forall f | f in s.readiness && f.status == Taken
        ensures !IsFor(f, e.session, e.role)
      {
        assert f in s'.readiness;
      }
    }
    hide ReadinessRefreshed;
    RefreshFollowsTheLog(s'.sessions, s.runs, s.readiness, s'.readiness, s.nextReadiness, s'.nextReadiness, now,
      e.session, e.role);
  }

  lemma SameWorkers(ready: State, s': State, r: RunId)
    requires r == |ready.runs| < |s'.runs| && s'.runs == ready.runs + [s'.runs[r]]
    ensures s'.runs[r].role == GoalManager ==>
      (HasAcquiredRun(s'.runs, s'.runs[r].session, WorkerAgent) <==> HasAcquiredRun(ready.runs, s'.runs[r].session, WorkerAgent))
  {
  }

  lemma WokenInWindow(s: Session, role: Role, worker: bool, worker': bool)
    requires Woken(s, role, worker) && (role == GoalManager ==> worker' == worker)
    ensures exists k | Cursor(s, role) <= k < |s.log| :: WakeOf(s.log[k], role, worker').Some?
  {
    hide GoalManagerWake;
    hide WorkerWake;
    var k :| Cursor(s, role) <= k < |s.log| && WakeOf(s.log[k], role, worker).Some?;
    assert WakeOf(s.log[k], role, worker').Some?;
  }
}
