/** The dispatch runtime as it works in place: a store whose collections the operations update entry by
    entry, each operation proved to be the step of the protocol it stands for. */
module Runtime {
  import opened Wrappers
  import opened DispatchModel
  import opened Projection
  import opened SelectionPolicy
  import opened Protocol
  import opened LeaseInvariant
  import opened StepInvariant
  import opened ReadinessList
  import opened Preservation
  import opened Liveness
  import opened Replay
  import SessionGraph
  import Schedule

  /** The liveness audit: Sessions looked at, Sessions that nothing covers, taken readiness without a
      live run, and runs whose lease has expired. */
  datatype LivenessReport = LivenessReport(audited: set<SessionId>, gaps: set<SessionId>, orphans: set<nat>, expired: set<RunId>)

  class DispatchStore {
    var sessions: seq<Session>
    var units: seq<WorkUnit>
    var edges: seq<SessionGraph.Edge>
    var runs: seq<Run>
    var readiness: seq<Readiness>
    var nextReadiness: nat

    constructor (loaded: State)
      ensures View() == loaded
    {
      sessions, units, edges := loaded.sessions, loaded.units, loaded.edges;
      runs, readiness, nextReadiness := loaded.runs, loaded.readiness, loaded.nextReadiness;
    }

    function View(): State
      reads this
    {
      State(sessions, units, edges, runs, readiness, nextReadiness)
    }

    // -------------------------------------------------------------- waiting

    /** `_goal_waiting_wake_reason`: look for what the wait is for after its log position. */
    static method HasWakeReason(log: seq<Entry>, w: Wait, now: int) returns (fires: bool)
      ensures fires == WaitFires(log, w, now)
      ensures w.kind.Deadline? ==> (fires <==> w.kind.until <= now)
      ensures w.kind.OnEvent? ==> (fires <==>
        exists k | w.wakeLogSeq <= k < |log| :: log[k].Message? && w.kind.name in log[k].payload.wakeEvents)
      ensures w.kind.OnChild? ==> (fires <==>
        exists k | w.wakeLogSeq <= k < |log| :: log[k] == ChildGoalCompleted(w.kind.child))
    {
      match w.kind
      case Deadline(until) => fires := until <= now;
      case _ =>
        var k := w.wakeLogSeq;
        while k < |log|
          invariant w.wakeLogSeq <= k
          invariant forall i | w.wakeLogSeq <= i < k && i < |log| :: !IsWakeOf(log[i], w.kind)
          decreases |log| - k
        {
          if IsWakeOf(log[k], w.kind) {
            return true;
          }
          k := k + 1;
        }
        fires := false;
    }

    static predicate IsWakeOf(e: Entry, kind: WaitKind) {
      match kind
      case Deadline(_) => false
      case OnEvent(name) => e.Message? && name in e.payload.wakeEvents
      case OnChild(child) => e == ChildGoalCompleted(child)
    }

    /** `_expire_goal_waiting`. */
    method ExpireGoalWaiting(now: int)
      modifies this`sessions
      ensures |sessions| == |old(sessions)|
      ensures forall i | 0 <= i < |sessions| :: sessions[i] == Expired(old(sessions)[i], now)
      ensures forall i | 0 <= i < |sessions| ::
        var s, s' := old(sessions)[i], sessions[i];
        if !s.active || s.goal.None? || s.goal.value.waiting.None? then s' == s
        else
          && (s' == s || s' == s.(goal := Some(s.goal.value.(waiting := None)),
                                  log := s.log + [SystemSignal({GoalManager}, None)]))
          && var kind, from := s.goal.value.waiting.value.kind, s.goal.value.waiting.value.wakeLogSeq;
          && (kind.Deadline? ==> (s' != s <==> kind.until <= now))
          && (kind.OnEvent? ==> (s' != s <==>
                exists k | from <= k < |s.log| :: s.log[k].Message? && kind.name in s.log[k].payload.wakeEvents))
          && (kind.OnChild? ==> (s' != s <==>
                exists k | from <= k < |s.log| :: s.log[k] == ChildGoalCompleted(kind.child)))
    {
      for i := 0 to |sessions|
        invariant |sessions| == |old(sessions)|
        invariant forall k | 0 <= k < i :: sessions[k] == Expired(old(sessions)[k], now)
        invariant forall k | i <= k < |sessions| :: sessions[k] == old(sessions)[k]
      {
        var s := sessions[i];
        if !s.active || s.goal.None? || s.goal.value.waiting.None? {
          continue;
        }
        var fires := HasWakeReason(s.log, s.goal.value.waiting.value, now);
        if fires {
          sessions := sessions[i := Appended(s.(goal := Some(s.goal.value.(waiting := None))), [GM_SIGNAL])];
        }
      }
    }

    // -------------------------------------------------------------- refresh

    /** Forget the entries that are neither ready nor taken. */
    method DropFinishedEntries()
      requires IdsBelow(readiness, nextReadiness)
      modifies this`readiness
      ensures IdsBelow(readiness, nextReadiness) && forall e | e in readiness :: Live(e)
      ensures SameTaken(old(readiness), readiness) && SameReady(old(readiness), readiness)
    {
      var kept: seq<Readiness> := [];
      for i := 0 to |readiness|
        invariant forall e :: e in kept <==> e in readiness[..i] && Live(e)
        invariant Distinct(kept) && SameReady(readiness[..i], kept)
      {
        var e := readiness[i];
        assert readiness[..i + 1] == readiness[..i] + [e];
        if Live(e) {
          assert forall k | 0 <= k < |kept| :: kept[k] in readiness[..i];
          kept := kept + [e];
        }
        forall sid: SessionId, role: Role
          ensures ReadyFor(readiness[..i + 1], sid, role) == ReadyFor(kept, sid, role)
        {
          ReadyForAppend(readiness[..i], e, sid, role);
          if Live(e) {
            ReadyForAppend(kept[..|kept| - 1], e, sid, role);
            assert kept == kept[..|kept| - 1] + [e];
          }
        }
      }
      assert readiness[..|readiness|] == readiness;
      readiness := kept;
    }

    /** `_deduplicate_ready_entries`: of the ready entries of a Session and role keep the first of the
        earliest. */
    method DeduplicateReadyEntries()
      requires IdsBelow(readiness, nextReadiness) && forall e | e in readiness :: Live(e)
      modifies this`readiness
      ensures Tidy(readiness, nextReadiness)
      ensures SameTaken(old(readiness), readiness) && SameReady(old(readiness), readiness)
    {
      hide ReadyFor;
      var retained: seq<Readiness> := [];
      var byKey: map<(SessionId, Role), Readiness> := map[];
      NothingSeen(readiness[..0]);
      for i := 0 to |readiness|
        invariant readiness == old(readiness)
        invariant Deduplicated(readiness[..i], retained, byKey)
      {
        var e := readiness[i];
        ghost var seen := readiness[..i];
        assert readiness[..i + 1] == seen + [e];
        var key := (e.session, e.role);
        if e.status != Ready {
          DeduplicateOther(seen, retained, byKey, e);
          retained := retained + [e];
        } else if key !in byKey {
          DeduplicateFirst(seen, retained, byKey, e);
          byKey, retained := byKey[key := e], retained + [e];
        } else if e.firstReadyAt < byKey[key].firstReadyAt {
          DeduplicateEarlier(seen, retained, byKey, e);
          byKey, retained := byKey[key := e], Removed(retained, byKey[key]) + [e];
        } else {
          DeduplicateLater(seen, retained, byKey, e);
        }
      }
      assert readiness[..|readiness|] == readiness;
      DeduplicatedIsTidy(readiness, retained, byKey, nextReadiness);
      readiness := retained;
    }

    /** `_reconcile_ready_entry`: withdraw, update or create the ready entry of a Session and role. */
    method ReconcileReadyEntry(sid: SessionId, role: Role, window: Option<Window>, now: int)
      requires Tidy(readiness, nextReadiness)
      modifies this`readiness, this`nextReadiness
      ensures EntryReconciled(old(readiness), readiness, old(nextReadiness), nextReadiness, now, sid, role, window)
    {
      hide EntryReconciled;
      hide Tidy;
      var i := 0;
      while i < |readiness| && !(readiness[i].status == Ready && IsFor(readiness[i], sid, role))
        invariant i <= |readiness|
        invariant forall k | 0 <= k < i :: readiness[k].status != Ready || !IsFor(readiness[k], sid, role)
      {
        i := i + 1;
      }
      if i < |readiness| {
        if window.None? {
          EntryWithdrawn(readiness, nextReadiness, now, i);
          readiness := readiness[..i] + readiness[i + 1..];
        } else {
          EntryUpdated(readiness, nextReadiness, now, i, window.value);
          readiness := readiness[i := readiness[i].(window := window.value)];
        }
      } else if window.None? {
        EntryAbsent(readiness, nextReadiness, now, sid, role);
      } else {
        EntryAdded(readiness, nextReadiness, now, sid, role, window.value);
        readiness := readiness + [Readiness(nextReadiness, sid, role, Ready, now, window.value)];
        nextReadiness := nextReadiness + 1;
      }
    }

    /** The refresh of one role of a dispatchable Session. */
    method RefreshRole(sid: SessionId, role: Role, now: int)
      requires sid < |sessions| && Dispatchable(sessions[sid]) && Tidy(readiness, nextReadiness)
      modifies this`readiness, this`nextReadiness
      ensures
        if Open(sessions, runs, old(readiness), sid, role)
        then EntryReconciled(old(readiness), readiness, old(nextReadiness), nextReadiness, now, sid, role,
                             Projected(sessions, runs, sid, role))
        else readiness == old(readiness) && nextReadiness == old(nextReadiness)
    {
      hide EntryReconciled;
      hide Tidy;
      if HasAcquiredRun(runs, sid, role) {
        return;
      }
      if HasTakenReadiness(readiness, sid, role) {
        return;
      }
      var window := Derive(sessions[sid].log, Cursor(sessions[sid], role), role, HasAcquiredRun(runs, sid, WorkerAgent));
      ReconcileReadyEntry(sid, role, window, now);
    }

    /** `_refresh_dispatch_readiness`. */
    method RefreshDispatchReadiness(now: int)
      requires IdsBelow(readiness, nextReadiness)
      modifies this`sessions, this`readiness, this`nextReadiness
      ensures Refreshes(old(View()), View(), now)
    {
      hide RefreshedSoFar;
      hide ReadinessRefreshed;
      hide EntryReconciled;
      hide Expired;
      hide ReadyFor;
      hide Open;
      hide SameTaken;
      hide SameReady;
      ghost var list, next := readiness, nextReadiness;
      ExpireGoalWaiting(now);
      DropFinishedEntries();
      ghost var live := readiness;
      DeduplicateReadyEntries();
      SameTrans(list, live, readiness);
      RefreshStarts(sessions, runs, list, readiness, next, now);
      ghost var refreshed := sessions;
      for i := 0 to |sessions|
        invariant sessions == refreshed
        invariant RefreshedSoFar(sessions, runs, list, readiness, next, nextReadiness, now, i, {})
      {
        SoFarIsTidy(sessions, runs, list, readiness, next, nextReadiness, now, i, {});
        if !Dispatchable(sessions[i]) {
          RefreshDoesSession(sessions, runs, list, readiness, next, nextReadiness, now, i, {});
          continue;
        }
        ghost var first, before := readiness, nextReadiness;
        SameOpen(sessions, runs, list, first, i, GoalManager);
        RefreshRole(i, GoalManager, now);
        RoleIsDone(sessions, runs, list, first, readiness, next, before, nextReadiness, now, i, {}, GoalManager);
        ghost var done: set<Role> := {};
        assert done + {GoalManager} == {GoalManager} && {GoalManager} + {WorkerAgent} == {GoalManager, WorkerAgent};
        SoFarIsTidy(sessions, runs, list, readiness, next, nextReadiness, now, i, {GoalManager});
        ghost var second, middle := readiness, nextReadiness;
        SameOpen(sessions, runs, list, second, i, WorkerAgent);
        RefreshRole(i, WorkerAgent, now);
        RoleIsDone(sessions, runs, list, second, readiness, next, middle, nextReadiness, now, i, {GoalManager}, WorkerAgent);
        RefreshDoesSession(sessions, runs, list, readiness, next, nextReadiness, now, i, {GoalManager, WorkerAgent});
      }
      RefreshEnds(sessions, runs, list, readiness, next, nextReadiness, now);
    }

    // -------------------------------------------------------------- liveness repair

    /** The acquired runs by the readiness they hold. */
    method IndexAcquiredRuns() returns (byReadiness: map<nat, RunId>)
      ensures forall id | id in byReadiness ::
        byReadiness[id] < |runs| && runs[byReadiness[id]].lease == Acquired && runs[byReadiness[id]].readinessId == id
      ensures forall k | 0 <= k < |runs| && runs[k].lease == Acquired :: runs[k].readinessId in byReadiness
    {
      byReadiness := map[];
      for i := 0 to |runs|
        invariant forall id | id in byReadiness ::
          byReadiness[id] < i && runs[byReadiness[id]].lease == Acquired && runs[byReadiness[id]].readinessId == id
        invariant forall k | 0 <= k < i && runs[k].lease == Acquired :: runs[k].readinessId in byReadiness
      {
        if runs[i].lease == Acquired {
          byReadiness := byReadiness[runs[i].readinessId := i];
        }
      }
    }

    /** Interrupt the runs whose lease has expired. */
    method ExpireLeases(now: int) returns (repaired: set<SessionId>)
      modifies this`runs
      ensures runs == LapsedRuns(old(runs), now)
      ensures forall sid: SessionId :: sid in repaired <==>
        exists r | r in old(runs) :: r.lease == Acquired && LeaseExpired(r, now) && r.session == sid
    {
      repaired := {};
      for i := 0 to |runs|
        invariant |runs| == |old(runs)|
        invariant forall k | 0 <= k < i :: runs[k] == Lapsed(old(runs)[k], now)
        invariant forall k | i <= k < |runs| :: runs[k] == old(runs)[k]
        invariant forall sid: SessionId :: sid in repaired <==>
          exists r | r in old(runs)[..i] :: r.lease == Acquired && LeaseExpired(r, now) && r.session == sid
      {
        assert old(runs)[..i + 1] == old(runs)[..i] + [old(runs)[i]];
        var r := runs[i];
        if r.lease == Acquired && LeaseExpired(r, now) {
          runs := runs[i := r.(lease := Interrupted)];
          repaired := repaired + {r.session};
        }
      }
      assert old(runs)[..|runs|] == old(runs);
    }

    /** Give up the taken entries whose run no longer holds its lease. */
    method ReclaimReadiness(byReadiness: map<nat, RunId>) returns (repaired: set<SessionId>)
      requires forall id | id in byReadiness :: byReadiness[id] < |runs|
      requires forall e | e in readiness && e.status == Taken ::
        Owned(runs, e) <==> e.id in byReadiness && runs[byReadiness[e.id]].lease == Acquired
      modifies this`readiness
      ensures readiness == ReclaimedList(runs, old(readiness))
      ensures forall sid: SessionId :: sid in repaired <==>
        exists e | e in old(readiness) :: e.status == Taken && !Owned(runs, e) && e.session == sid
    {
      repaired := {};
      for i := 0 to |readiness|
        invariant |readiness| == |old(readiness)|
        invariant forall k | 0 <= k < i :: readiness[k] == Reclaimed(runs, old(readiness)[k])
        invariant forall k | i <= k < |readiness| :: readiness[k] == old(readiness)[k]
        invariant forall sid: SessionId :: sid in repaired <==>
          exists e | e in old(readiness)[..i] :: e.status == Taken && !Owned(runs, e) && e.session == sid
      {
        assert old(readiness)[..i + 1] == old(readiness)[..i] + [old(readiness)[i]];
        var e := readiness[i];
        assert e in old(readiness);
        if e.status == Taken {
          if e.id !in byReadiness || runs[byReadiness[e.id]].lease != Acquired {
            readiness := readiness[i := e.(status := Stale)];
            repaired := repaired + {e.session};
          }
        }
      }
      assert old(readiness)[..|readiness|] == old(readiness);
    }

    /** Append a GoalManager signal to the logs of these Sessions. */
    method SignalSessions(targets: set<SessionId>)
      modifies this`sessions
      ensures |sessions| == |old(sessions)|
      ensures forall i | 0 <= i < |sessions| ::
        sessions[i] == if i in targets then Appended(old(sessions)[i], [GM_SIGNAL]) else old(sessions)[i]
    {
      for i := 0 to |sessions|
        invariant |sessions| == |old(sessions)|
        invariant forall k | 0 <= k < i ::
          sessions[k] == if k in targets then Appended(old(sessions)[k], [GM_SIGNAL]) else old(sessions)[k]
        invariant forall k | i <= k < |sessions| :: sessions[k] == old(sessions)[k]
      {
        if i in targets {
          sessions := sessions[i := Appended(sessions[i], [GM_SIGNAL])];
        }
      }
    }

    /** The expiry half of `_reconcile_dispatch_liveness`. */
    method ReleaseLostOwnership(now: int)
      requires OneRun(runs)
      modifies this`sessions, this`runs, this`readiness
      ensures View() == AfterExpiry(old(View()), now)
    {
      hide OneRun;
      var byReadiness := IndexAcquiredRuns();
      var expired := ExpireLeases(now);
      forall e | e in readiness && e.status == Taken
        ensures Owned(runs, e) <==> e.id in byReadiness && runs[byReadiness[e.id]].lease == Acquired
      {
        OwnedByIndex(old(runs), runs, byReadiness, now, e);
      }
      var orphaned := ReclaimReadiness(byReadiness);
      SignalSessions(expired + orphaned);
      assert forall i | 0 <= i < |sessions| ::
        i in expired + orphaned <==> LostOwnership(old(runs), old(readiness), now, i);
    }

    /** Signal the GoalManager of every Session that nothing covers. */
    method SignalUncoveredSessions() returns (added: bool)
      modifies this`sessions
      ensures View() == Signalled(old(View()))
      ensures added == AnyUncovered(old(View()))
    {
      var live := (set e | e in readiness && Live(e) :: e.session) + (set r | r in runs && r.lease == Acquired :: r.session);
      added := false;
      ghost var s := View();
      for i := 0 to |sessions|
        invariant |sessions| == |old(sessions)|
        invariant forall k | 0 <= k < i ::
          sessions[k] == if Uncovered(s, k) then Appended(s.sessions[k], [GM_SIGNAL]) else s.sessions[k]
        invariant forall k | i <= k < |sessions| :: sessions[k] == s.sessions[k]
        invariant added <==> exists k | 0 <= k < i :: Uncovered(s, k)
      {
        if !Dispatchable(sessions[i]) || UnitPaused(units, sessions[i].unit) || i in live {
          continue;
        }
        assert Uncovered(s, i);
        sessions := sessions[i := Appended(sessions[i], [GM_SIGNAL])];
        added := true;
      }
    }

    /** `_reconcile_dispatch_liveness`. */
    method ReconcileDispatchLiveness(now: int) returns (changed: bool)
      requires Inv(View())
      modifies this`sessions, this`runs, this`readiness, this`nextReadiness
      ensures Inv(View()) && Reconciles(old(View()), View(), now)
      ensures !changed ==> View() == old(View())
    {
      hide Inv;
      hide Refreshes;
      hide AfterExpiry;
      hide Signalled;
      var loaded := View();
      InvParts(loaded);
      ReleaseLostOwnership(now);
      ExpiryKeepsInv(loaded, now);
      InvParts(View());
      RefreshDispatchReadiness(now);
      ghost var mid := View();
      RefreshKeepsInv(AfterExpiry(loaded, now), mid, now);
      var added := SignalUncoveredSessions();
      if added {
        SignalledKeepsInv(mid);
        InvParts(View());
        RefreshDispatchReadiness(now);
      } else {
        NothingSignalled(mid);
      }
      assert ReconcilesVia(loaded, mid, View(), now);
      ReconcileKeepsInv(loaded, mid, View(), now);
      changed := View() != loaded;
    }

    // -------------------------------------------------------------- acquiring a lease

    /** Mark the entries at these positions stale. */
    method MarkEntriesStale(positions: seq<nat>)
      requires forall m | 0 <= m < |positions| :: positions[m] < |readiness|
      modifies this`readiness
      ensures |readiness| == |old(readiness)|
      ensures forall i | 0 <= i < |readiness| ::
        readiness[i] == if i in positions then old(readiness)[i].(status := Stale) else old(readiness)[i]
    {
      for m := 0 to |positions|
        invariant |readiness| == |old(readiness)|
        invariant forall i | 0 <= i < |readiness| ::
          readiness[i] == if i in positions[..m] then old(readiness)[i].(status := Stale) else old(readiness)[i]
      {
        assert positions[..m + 1] == positions[..m] + [positions[m]];
        readiness := readiness[positions[m] := readiness[positions[m]].(status := Stale)];
      }
      assert positions[..|positions|] == positions;
    }

    /** Forget what was computed since the load. */
    method Restore(loaded: State)
      modifies this
      ensures View() == loaded
    {
      sessions, units, edges := loaded.sessions, loaded.units, loaded.edges;
      runs, readiness, nextReadiness := loaded.runs, loaded.readiness, loaded.nextReadiness;
    }

    /** `_next_dispatch_readiness_entry`: refresh, select, and mark what the policy found stale. */
    method NextReadiness(filter: Option<SessionId>, now: int) returns (chosen: Option<nat>, ghost ready: State)
      requires Inv(View())
      modifies this`sessions, this`readiness, this`nextReadiness
      ensures Refreshes(old(View()), ready, now)
      ensures View() == ready.(readiness := MarkStale(ready.readiness, ready.sessions, filter, now))
      ensures |readiness| == |ready.readiness| && forall i | 0 <= i < |readiness| ::
        var e := ready.readiness[i];
        readiness[i] ==
          if e.status == Ready && (filter.None? || filter == Some(e.session))
             && (e.window.availableAfter.Some? ==> e.window.availableAfter.value <= now)
             && !(e.session < |ready.sessions| && ready.sessions[e.session].goal.Some?
                  && !ready.sessions[e.session].goal.value.complete)
          then e.(status := Stale) else e
      ensures chosen.Some? ==> IsChoice(ready.readiness, ready.sessions, AcquiredRoles(ready.runs), filter, now, chosen.value)
      ensures chosen.None? ==> forall j | 0 <= j < |ready.readiness| ::
        !Candidate(ready.readiness[j], ready.sessions, AcquiredRoles(ready.runs), filter, now)
    {
      hide Inv;
      hide Refreshes;
      hide IsChoice;
      hide Candidate;
      hide IsStaleAt;
      InvParts(View());
      RefreshDispatchReadiness(now);
      ready := View();
      var acquired := set r | r in runs && r.lease == Acquired :: (r.session, r.role);
      var decision := Select(readiness, sessions, acquired, filter, now);
      StalePositions(ready, filter, now, decision.stale);
      MarkEntriesStale(decision.stale);
      assert readiness == MarkStale(ready.readiness, ready.sessions, filter, now);
      StaleMeans(ready, filter, now);
      chosen := decision.chosen;
    }

    /** `_acquire_dispatch_lease_locked`: repair, select, and record a run for the entry chosen. An unknown
        Session is refused before anything else; a refusing Unit after the selection, and then nothing is
        saved. */
    method AcquireDispatchLease(filter: Option<SessionId>, agentUser: Option<nat>, now: int)
      returns (outcome: Result<AcquireOutcome, string>)
      requires Inv(View())
      modifies this
      ensures outcome.Err? <==> filter.Some? && filter.value >= |old(sessions)|
      ensures outcome.Err? ==> View() == old(View())
      ensures outcome.Ok? ==> Step(old(View()), Event.Acquire(filter, outcome.value), now, View())
      ensures Inv(View())
    {
      hide Inv;
      hide Refreshes;
      hide Reconciles;
      hide IsChoice;
      hide Candidate;
      hide Acquires;
      hide MarkStale;
      hide Step;
      if filter.Some? && filter.value >= |sessions| {
        return Err("unknown session");
      }
      var loaded := View();
      var changed := ReconcileDispatchLiveness(now);
      ghost var repaired := View();
      var chosen, ready := NextReadiness(filter, now);
      ReadyUnits(loaded, repaired, ready, now);
      if chosen.None? {
        if !changed {
          Restore(loaded);
        }
        outcome := Ok(Idle);
        IdleAcquires(loaded, repaired, ready, View(), filter, now);
      } else {
        var i := chosen.value;
        ChosenIsFresh(ready, filter, now, i);
        var e := readiness[i];
        if UnitRefuses(units, sessions[e.session].unit) {
          Restore(loaded);
          outcome := Ok(Refused);
          RefusedAcquires(loaded, repaired, ready, filter, now, i);
        } else {
          var run := LeasedRun(View(), e, agentUser, now);
          readiness := readiness[i := e.(status := Taken)];
          outcome := Ok(LeaseTaken(|runs|, i, agentUser));
          runs := runs + [run];
          LeaseAcquires(loaded, repaired, ready, View(), filter, now, i, agentUser);
        }
      }
      StepAcquires(loaded, filter, outcome.value, now, View());
    }

    // -------------------------------------------------------------- the fence

    /** `_new_requirement_conflicts_after_window`. */
    static method FindConflict(log: seq<Entry>, from: nat, run: RunId) returns (conflict: Option<FenceReason>)
      ensures conflict == FirstConflict(log, from, run)
      ensures conflict.None? <==> forall k | from <= k < |log| ::
        && !log[k].GoalBodyUpdated? && !log[k].ChildGoalCompleted?
        && (log[k].Message? ==> log[k].payload.runId == Some(run))
        && (log[k].GoalStateChanged? ==> log[k].run == Some(run))
    {
      var k := from;
      while k < |log|
        invariant from <= k
        invariant FirstConflict(log, k, run) == FirstConflict(log, from, run)
        invariant forall i | from <= i < k && i < |log| :: Conflict(log[i], run).None?
        decreases |log| - k
      {
        if Conflict(log[k], run).Some? {
          return Conflict(log[k], run);
        }
        k := k + 1;
      }
      conflict := None;
    }

    /** `_stale_dispatch_fence_locked`. */
    method StaleDispatchFence(r: RunId) returns (reason: Option<FenceReason>)
      requires r < |runs| && runs[r].session < |sessions|
      ensures reason == Fence(View(), r)
      ensures reason.None? <==>
        && runs[r].lease == Acquired && sessions[runs[r].session].goal.Some?
        && sessions[runs[r].session].goal.value.body == runs[r].observedBody
        && forall k | runs[r].window.toSeq <= k < |sessions[runs[r].session].log| ::
             var e := sessions[runs[r].session].log[k];
             && !e.GoalBodyUpdated? && !e.ChildGoalCompleted?
             && (e.Message? ==> e.payload.runId == Some(r))
             && (e.GoalStateChanged? ==> e.run == Some(r))
    {
      var run := runs[r];
      var session := sessions[run.session];
      if run.lease != Acquired {
        return Some(NotAcquired);
      }
      if session.goal.None? {
        return Some(MissingGoal);
      }
      if session.goal.value.body != run.observedBody {
        return Some(GoalUpdated);
      }
      reason := FindConflict(session.log, run.window.toSeq, r);
    }

    // -------------------------------------------------------------- pieces of a commit

    method AppendLogEntry(sid: SessionId, e: Entry)
      requires sid < |sessions|
      modifies this`sessions
      ensures sessions == old(sessions)[sid := Appended(old(sessions)[sid], [e])]
    {
      sessions := sessions[sid := Appended(sessions[sid], [e])];
    }

    /** `_set_role_cursor` and the end of a lease. */
    method ReleaseRun(r: RunId, result: RunResult)
      requires r < |runs| && runs[r].session < |sessions|
      modifies this`sessions, this`runs
      ensures runs == old(runs)[r := old(runs)[r].(lease := Released, result := result)]
      ensures var sid := old(runs)[r].session;
        sessions == old(sessions)[sid := RaiseCursor(old(sessions)[sid], old(runs)[r].role, old(runs)[r].window.toSeq)]
    {
      var run := runs[r];
      sessions := sessions[run.session := RaiseCursor(sessions[run.session], run.role, run.window.toSeq)];
      runs := runs[r := run.(lease := Released, result := result)];
    }

    /** Find the readiness entry with this id and give it a new status. */
    method FinishReadiness(id: nat, onlyTaken: bool, status: ReadinessStatus)
      requires IdsBelow(readiness, nextReadiness)
      modifies this`readiness
      ensures readiness == WithStatus(old(readiness), id, onlyTaken, status)
    {
      for i := 0 to |readiness|
        invariant readiness == old(readiness) && forall k | 0 <= k < i :: readiness[k].id != id
      {
        if readiness[i].id == id {
          if !onlyTaken || readiness[i].status == Taken {
            readiness := readiness[i := readiness[i].(status := status)];
          }
          return;
        }
      }
    }

    /** `_resolve_dispatch_readiness`, or only for the GoalManager. */
    method ResolveReadiness(sid: SessionId, onlyGoalManager: bool)
      modifies this`readiness
      ensures readiness == ResolvedFor(old(readiness), sid, onlyGoalManager)
    {
      for i := 0 to |readiness|
        invariant |readiness| == |old(readiness)|
        invariant forall k | 0 <= k < i :: readiness[k] == ResolvedFor(old(readiness), sid, onlyGoalManager)[k]
        invariant forall k | i <= k < |readiness| :: readiness[k] == old(readiness)[k]
      {
        var e := readiness[i];
        if Live(e) && e.session == sid && (!onlyGoalManager || e.role == GoalManager) {
          readiness := readiness[i := e.(status := Resolved)];
        }
      }
    }

    /** The goal becomes incomplete, and the log says so. */
    method MarkIncomplete(sid: SessionId, byGoalManager: bool, author: Option<RunId>)
      requires sid < |sessions|
      modifies this`sessions
      ensures sessions == old(sessions)[sid := Appended(SetIncomplete(old(sessions)[sid]), [MarkedIncomplete(byGoalManager, author)])]
    {
      var s := sessions[sid];
      if s.goal.Some? {
        s := s.(goal := Some(s.goal.value.(complete := false)));
      }
      sessions := sessions[sid := Appended(s, [MarkedIncomplete(byGoalManager, author)])];
    }

    /** `_log_child_goal_completed_for_parents`, then `_reopen_completed_parent_goals_for_child`. */
    method NotifyParents(child: SessionId)
      modifies this`sessions
      ensures View() == ParentsNotified(old(View()), child)
    {
      var parents := ParentIds(edges, child);
      for i := 0 to |sessions|
        invariant |sessions| == |old(sessions)|
        invariant forall k | 0 <= k < i ::
          sessions[k] == if k in parents then Appended(old(sessions)[k], [ChildGoalCompleted(child)]) else old(sessions)[k]
        invariant forall k | i <= k < |sessions| :: sessions[k] == old(sessions)[k]
      {
        if i in parents {
          AppendLogEntry(i, ChildGoalCompleted(child));
        }
      }
      for i := 0 to |sessions|
        invariant |sessions| == |old(sessions)|
        invariant forall k | 0 <= k < i ::
          sessions[k] == if k in parents then Notified(old(sessions)[k], child) else old(sessions)[k]
        invariant forall k | i <= k < |sessions| ::
          sessions[k] == if k in parents then Appended(old(sessions)[k], [ChildGoalCompleted(child)]) else old(sessions)[k]
      {
        if i in parents && sessions[i].goal.Some? && sessions[i].goal.value.complete {
          MarkIncomplete(i, false, None);
          assert sessions[i].log == old(sessions)[i].log + [ChildGoalCompleted(child), MarkedIncomplete(false, None)];
        }
      }
    }

    // -------------------------------------------------------------- discarding and committing results

    /** `_discard_stale_dispatch_result_locked`. */
    method DiscardStaleResult(r: RunId)
      requires r < |runs| && runs[r].session < |sessions| && IdsBelow(readiness, nextReadiness)
      modifies this`sessions, this`runs, this`readiness
      ensures View() == Discarded(old(View()), r)
    {
      var run := runs[r];
      runs := runs[r := run.(staleResults := run.staleResults + 1)];
      if run.lease == Acquired {
        FinishReadiness(run.readinessId, true, Stale);
        ReleaseRun(r, run.result);
      }
      AppendLogEntry(run.session, GM_SIGNAL);
    }

    /** `_commit_worker_run_locked` past its fence. */
    method CommitWorkerRun(r: RunId, remote: bool, now: int)
      requires r < |runs| && runs[r].session < |sessions| && IdsBelow(readiness, nextReadiness)
      modifies this`sessions, this`runs, this`readiness
      ensures View() == CommitWorker(old(View()), r, remote, now)
    {
      var run := runs[r];
      var sid := run.session;
      ghost var before := sessions[sid];
      if remote {
        AppendLogEntry(sid, RemoteHandoff(r));
      }
      ghost var handoff := if remote then [RemoteHandoff(r)] else [];
      assert sessions[sid].log == before.log + handoff;
      var reported := exists e | e in sessions[sid].log :: IsReport(e, r, run);
      if !reported {
        AppendLogEntry(sid, RetrySignal(now));
      }
      assert sessions[sid].log == before.log + (handoff + (if reported then [] else [RetrySignal(now)]));
      FinishReadiness(run.readinessId, false, Resolved);
      ReleaseRun(r, FinishedComplete);
    }

    /** `_commit_dispatch_error_locked` past its fence. */
    method CommitProviderError(r: RunId)
      requires r < |runs| && runs[r].session < |sessions| && IdsBelow(readiness, nextReadiness)
      modifies this`sessions, this`runs, this`readiness
      ensures View() == CommitError(old(View()), r)
    {
      var run := runs[r];
      MarkIncomplete(run.session, false, Some(r));
      ReleaseRun(r, FinishedIncomplete);
      FinishReadiness(run.readinessId, false, Failed);
    }

    method CommitMissingDecision(r: RunId, now: int)
      requires r < |runs| && runs[r].session < |sessions| && IdsBelow(readiness, nextReadiness)
      modifies this`sessions, this`runs, this`readiness
      ensures View() == CommitUndecided(old(View()), r, now)
    {
      var run := runs[r];
      FinishReadiness(run.readinessId, false, Resolved);
      AppendLogEntry(run.session, RetrySignal(now));
      ReleaseRun(r, FinishedIncomplete);
    }

    method CommitWaitingDecision(r: RunId, kind: WaitKind, wakeLogSeq: nat)
      requires r < |runs| && runs[r].session < |sessions| && sessions[runs[r].session].goal.Some?
      requires IdsBelow(readiness, nextReadiness)
      modifies this`sessions, this`runs, this`readiness
      ensures View() == CommitWaiting(old(View()), r, kind, wakeLogSeq)
    {
      var run := runs[r];
      var s := sessions[run.session];
      sessions := sessions[run.session := s.(goal := Some(s.goal.value.(waiting := Some(Wait(kind, wakeLogSeq, r)))))];
      AppendLogEntry(run.session, GoalStateChanged(Waiting, false, Some(r), false));
      ResolveReadiness(run.session, true);
      FinishReadiness(run.readinessId, false, Resolved);
      ReleaseRun(r, FinishedIncomplete);
    }

    method CommitIncompleteDecision(r: RunId)
      requires r < |runs| && runs[r].session < |sessions| && IdsBelow(readiness, nextReadiness)
      modifies this`sessions, this`runs, this`readiness
      ensures View() == CommitIncomplete(old(View()), r)
    {
      var run := runs[r];
      var sid := run.session;
      ghost var before := sessions[sid];
      var requested := WorkerRequested(View(), r, sid);
      MarkIncomplete(sid, true, Some(r));
      if !requested {
        AppendLogEntry(sid, ImplicitRequest(r, run));
      }
      assert sessions[sid].log ==
        before.log + ([MarkedIncomplete(true, Some(r))] + (if requested then [] else [ImplicitRequest(r, run)]));
      ResolveReadiness(sid, true);
      FinishReadiness(run.readinessId, false, Resolved);
      ReleaseRun(r, FinishedIncomplete);
    }

    /** `_schedule_next_unit_run_locked`: set the Unit's next run and say so in the log, or refuse. */
    method ScheduleNextRun(sid: SessionId, author: Option<RunId>, next: Option<int>, timing: Schedule.Timing, now: int)
      returns (scheduled: bool)
      requires sid < |sessions| && sessions[sid].unit.Some? && sessions[sid].unit.value < |units|
      requires units[sessions[sid].unit.value].schedule.Some?
      modifies this`sessions, this`units
      ensures
        var schedule := old(units[sessions[sid].unit.value].schedule.value);
        var resolved := Schedule.Resolve(schedule, timing, next, now);
        && scheduled == resolved.Ok?
        && (resolved.Err? ==> View() == old(View()))
        && (resolved.Ok? ==>
              View() == WithSchedule(old(View()).(sessions := old(sessions)[sid := Appended(old(sessions)[sid], [ScheduleMessage(author)])]),
                          old(sessions)[sid].unit, Some(schedule.(nextRunAt := Some(resolved.value)))))
    {
      var unit := sessions[sid].unit.value;
      var schedule := units[unit].schedule.value;
      var resolved := Schedule.ResolveNextRun(schedule, timing, next, now);
      if resolved.Err? {
        return false;
      }
      units := units[unit := units[unit].(schedule := Some(schedule.(nextRunAt := Some(resolved.value))))];
      AppendLogEntry(sid, ScheduleMessage(author));
      scheduled := true;
    }

    /** `_prepare_scheduled_unit_completion`. */
    method PrepareScheduledCompletion(r: RunId, next: Option<int>, timing: Schedule.Timing, now: int)
      returns (gate: Schedule.Gate)
      requires r < |runs| && runs[r].session < |sessions|
      modifies this`sessions, this`units
      ensures gate == GateFor(old(View()), r, next, timing, now)
      ensures
        var s, sid := old(View()), old(runs)[r].session;
        var unit := s.sessions[sid].unit;
        View() == WithSchedule(
          s.(sessions := s.sessions[sid :=
               Appended(s.sessions[sid], if gate.Resolved? then [ScheduleMessage(Some(r))] else [])]),
          unit, Schedule.AfterGate(UnitSchedule(s, unit), gate))
    {
      var sid := runs[r].session;
      ghost var before := sessions[sid];
      assert Appended(before, []) == before;
      var unit := sessions[sid].unit;
      if unit.None? || unit.value >= |units| || units[unit.value].schedule.None? || !units[unit.value].schedule.value.enabled {
        return Schedule.Unscheduled;
      }
      var schedule := units[unit.value].schedule.value;
      var resolveNext := !schedule.resolver.Explicit? || schedule.nextRunAt.None? || schedule.nextRunAt.value <= now;
      if !resolveNext {
        return Schedule.Kept;
      }
      var scheduled := ScheduleNextRun(sid, Some(r), next, timing, now);
      if !scheduled {
        return Schedule.Blocked;
      }
      gate := Schedule.Resolved(units[unit.value].schedule.value.nextRunAt.value);
    }

    /** The completion was blocked by the schedule. */
    method RejectCompletion(r: RunId)
      requires r < |runs| && runs[r].session < |sessions| && IdsBelow(readiness, nextReadiness)
      modifies this`sessions, this`runs, this`readiness
      ensures View() == CommitBlocked(old(View()), r)
    {
      var run := runs[r];
      ghost var before := sessions[run.session];
      AppendLogEntry(run.session, GM_SIGNAL);
      MarkIncomplete(run.session, false, Some(r));
      assert sessions[run.session].log == before.log + [GM_SIGNAL, MarkedIncomplete(false, Some(r))];
      FinishReadiness(run.readinessId, false, Resolved);
      ReleaseRun(r, FinishedIncomplete);
    }

    /** The completion of the run's own Session; `entries` is what the schedule has logged before. */
    method CompleteOwnGoal(r: RunId, ghost entries: seq<Entry>, ghost before: Session)
      requires r < |runs| && runs[r].session < |sessions| && sessions[runs[r].session].goal.Some?
      requires IdsBelow(readiness, nextReadiness)
      requires sessions[runs[r].session] == Appended(before, entries)
      modifies this`sessions, this`runs, this`readiness
      ensures
        var s := old(View()).(sessions := old(sessions)[old(runs)[r].session := before]);
        View() == Committed(s, r, ResolvedFor(s.readiness, s.runs[r].session, false), Resolved,
          Some(before.goal.value.(complete := true)), entries + [GoalStateChanged(Complete, true, Some(r), false)], FinishedComplete)
    {
      var run := runs[r];
      var sid := run.session;
      var session := sessions[sid];
      sessions := sessions[sid := session.(goal := Some(session.goal.value.(complete := true)))];
      ResolveReadiness(sid, false);
      AppendLogEntry(sid, GoalStateChanged(Complete, true, Some(r), false));
      assert sessions[sid].log == before.log + (entries + [GoalStateChanged(Complete, true, Some(r), false)]);
      FinishReadiness(run.readinessId, false, Resolved);
      ReleaseRun(r, FinishedComplete);
    }

    method CommitCompleteDecision(r: RunId, next: Option<int>, timing: Schedule.Timing, now: int)
      requires r < |runs| && runs[r].session < |sessions| && sessions[runs[r].session].goal.Some?
      requires IdsBelow(readiness, nextReadiness)
      modifies this
      ensures
        var gate := GateFor(old(View()), r, next, timing, now);
        View() == if gate.Blocked? then CommitBlocked(old(View()), r) else CommitComplete(old(View()), r, gate)
    {
      hide Committed;
      hide CommitBlocked;
      hide ParentsNotified;
      hide Schedule.CompletionGate;
      ghost var s := View();
      var sid := runs[r].session;
      var wasComplete := sessions[sid].goal.value.complete;
      var gate := PrepareScheduledCompletion(r, next, timing, now);
      ghost var entries := if gate.Resolved? then [ScheduleMessage(Some(r))] else [];
      if gate.Blocked? {
        assert View() == s by {
          assert Appended(s.sessions[sid], entries) == s.sessions[sid];
        }
        RejectCompletion(r);
      } else {
        ghost var unit := s.sessions[sid].unit;
        ghost var scheduled := WithSchedule(s, unit, Schedule.AfterGate(UnitSchedule(s, unit), gate));
        CompleteOwnGoal(r, entries, s.sessions[sid]);
        assert scheduled.sessions == s.sessions[sid := Appended(s.sessions[sid], entries)][sid := s.sessions[sid]];
        assert View() == OwnCompletion(s, r, gate);
        if !wasComplete {
          NotifyParents(sid);
        }
      }
    }

    /** `_commit_goal_manager_run_locked` past its fence. */
    method CommitGoalManagerRun(r: RunId, timing: Schedule.Timing, now: int)
      requires r < |runs| && runs[r].session < |sessions| && sessions[runs[r].session].goal.Some?
      requires IdsBelow(readiness, nextReadiness)
      modifies this
      ensures View() == CommitGoalManager(old(View()), r, timing, now)
    {
      hide CommitUndecided;
      hide CommitWaiting;
      hide CommitIncomplete;
      hide CommitBlocked;
      hide CommitComplete;
      match runs[r].declared
      case None => CommitMissingDecision(r, now);
      case Some(DeclaredWaiting(kind, wakeLogSeq)) => CommitWaitingDecision(r, kind, wakeLogSeq);
      case Some(DeclaredIncomplete) => CommitIncompleteDecision(r);
      case Some(DeclaredComplete(next)) => CommitCompleteDecision(r, next, timing, now);
    }

    /** The second atomic section of `dispatch_once`. */
    method EndAgentRun(r: RunId, end: AgentEnd, now: int)
      requires Inv(View()) && r < |runs|
      modifies this
      ensures Step(old(View()), AgentEnds(r, end), now, View()) && Inv(View())
    {
      hide Inv;
      hide FirstConflict;
      hide CommitGoalManager;
      hide CommitWorker;
      hide CommitError;
      hide Discarded;
      ghost var s := View();
      RunInRange(s, r);
      InvParts(s);
      var reason := StaleDispatchFence(r);
      if reason.Some? {
        DiscardStaleResult(r);
      } else {
        match end
        case ProviderError => CommitProviderError(r);
        case Returned(timing, remote) =>
          if runs[r].role == GoalManager {
            CommitGoalManagerRun(r, timing, now);
          } else {
            CommitWorkerRun(r, remote, now);
          }
      }
      EndIsStep(s, r, end, now, View());
    }

    // -------------------------------------------------------------- input and declarations

    /** `_active_worker_run_for_session`. */
    method FindActiveWorker(sid: SessionId) returns (worker: Option<RunId>)
      ensures IsActiveWorker(View(), sid, worker)
    {
      for i := 0 to |runs|
        invariant forall k | 0 <= k < i :: !RunsFor(runs[k], sid, WorkerAgent)
      {
        if RunsFor(runs[i], sid, WorkerAgent) {
          return Some(i);
        }
      }
      worker := None;
    }

    /** The entries of a user input, and the goal it reopens. */
    method AppendInputEntries(sid: SessionId, worker: Option<RunId>)
      requires sid < |sessions|
      modifies this`sessions
      ensures sessions == old(sessions)[sid := WithUserInput(old(sessions)[sid], worker)]
      ensures old(sessions)[sid].log < sessions[sid].log
      ensures sessions[sid].goal.Some? && !sessions[sid].goal.value.complete && sessions[sid].goal.value.waiting.None?
      ensures
        var log, n := sessions[sid].log, |old(sessions)[sid].log|;
        && log[n].Message? && log[n].payload.userInput && log[n].payload.runId.None?
        && (worker.Some? ==>
              && log[|log| - 1].Message? && log[|log| - 1].payload.userInput && log[|log| - 1].payload.runId == worker
              && log[|log| - 1].payload.workerRequest && log[|log| - 1].payload.workerFollowup && log[|log| - 1].toSession)
    {
      ghost var before := sessions[sid];
      AppendLogEntry(sid, Message(
        PLAIN.(userInput := true, workerFollowup := worker.Some?, deferGoalManager := worker.Some?), OtherSender, true));
      ReopenForInput(sid, worker.Some?);
      if worker.Some? {
        AppendLogEntry(sid, Message(
          PLAIN.(userInput := true, workerFollowup := true, workerRequest := true, runId := worker), OtherSender, true));
      }
      assert sessions[sid].log == WithUserInput(before, worker).log;
    }

    /** `_append_user_input_locked`. */
    method AppendUserInput(sid: SessionId, now: int) returns (worker: Option<RunId>)
      requires Inv(View())
      modifies this`sessions
      ensures sid >= |old(sessions)| ==> View() == old(View())
      ensures Step(old(View()), UserInput(sid, worker), now, View()) && Inv(View())
      ensures worker.Some? ==>
        && worker.value < |runs| && runs[worker.value].lease == Acquired
        && runs[worker.value].session == sid && runs[worker.value].role == WorkerAgent
      ensures sid < |old(sessions)| ==>
        && |sessions| == |old(sessions)| && old(sessions)[sid].log < sessions[sid].log
        && (forall i | 0 <= i < |sessions| && i != sid :: sessions[i] == old(sessions)[i])
        && sessions[sid].goal.Some? && !sessions[sid].goal.value.complete && sessions[sid].goal.value.waiting.None?
        && var log, n := sessions[sid].log, |old(sessions)[sid].log|;
        && log[n].Message? && log[n].payload.userInput && log[n].payload.runId.None?
        && (worker.Some? ==>
              && log[|log| - 1].Message? && log[|log| - 1].payload.userInput && log[|log| - 1].payload.runId == worker
              && log[|log| - 1].payload.workerRequest && log[|log| - 1].payload.workerFollowup && log[|log| - 1].toSession)
    {
      hide Inv;
      hide WithUserInput;
      ghost var s := View();
      worker := FindActiveWorker(sid);
      if sid < |sessions| {
        AppendInputEntries(sid, worker);
      }
      InputIsStep(s, UserInput(sid, worker), now, View());
    }

    /** `_mark_session_reprocess_needed`: create the goal if there is none, end its wait, and make it
        incomplete. */
    method ReopenForInput(sid: SessionId, deferGoalManager: bool)
      requires sid < |sessions|
      modifies this`sessions
      ensures
        var before := old(sessions)[sid];
        var goal := if before.goal.Some? then before.goal.value else Goal("Reply to user input sent to this Session.", false, None);
        sessions == old(sessions)[sid := Appended(before.(goal := Some(goal.(complete := false, waiting := None))),
          (if goal.waiting.Some? then [GM_SIGNAL] else []) + [GoalStateChanged(Incomplete, false, None, deferGoalManager)])]
    {
      ghost var before := sessions[sid];
      if sessions[sid].goal.None? {
        sessions := sessions[sid := sessions[sid].(goal := Some(Goal("Reply to user input sent to this Session.", false, None)))];
      }
      var goal := sessions[sid].goal.value;
      if goal.waiting.Some? {
        AppendLogEntry(sid, GM_SIGNAL);
      }
      sessions := sessions[sid := sessions[sid].(goal := Some(goal.(complete := false, waiting := None)))];
      AppendLogEntry(sid, GoalStateChanged(Incomplete, false, None, deferGoalManager));
      assert sessions[sid].log == before.log
        + ((if goal.waiting.Some? then [GM_SIGNAL] else []) + [GoalStateChanged(Incomplete, false, None, deferGoalManager)]);
    }

    /** The two declarations of a GoalManager run. */
    method DeclareOutcome(r: RunId, d: Protocol.Decision, now: int) returns (accepted: bool)
      requires Inv(View())
      modifies this`runs
      ensures accepted == MayDeclare(old(View()), r, d, now)
      ensures Step(old(View()), Declare(r, d), now, View()) && Inv(View())
    {
      hide Inv;
      ghost var s := View();
      accepted := false;
      if r < |runs| && runs[r].role == GoalManager && runs[r].lease == Acquired && runs[r].declared.None? {
        RunInRange(s, r);
        var session := sessions[runs[r].session];
        if session.goal.Some? {
          match d
          case DecideWaiting(kind) => accepted := WaitAllowed(View(), kind, now);
          case _ =>
            if session.goal.value.body == runs[r].observedBody {
              var conflict := FindConflict(session.log, runs[r].window.toSeq, r);
              accepted := conflict.None?;
            }
        }
      }
      if accepted {
        var declared :=
          match d
          case DecideComplete(next) => DeclaredComplete(next)
          case DecideIncomplete => DeclaredIncomplete
          case DecideWaiting(kind) => DeclaredWaiting(kind, |sessions[runs[r].session].log|);
        runs := runs[r := runs[r].(declared := Some(declared))];
      }
      InputIsStep(s, Declare(r, d), now, View());
    }

    // -------------------------------------------------------------- restart recovery

    /** Interrupt the runs and give up the taken entries of Sessions that cannot go on. */
    method DropUnresumable(resumable: set<SessionId>)
      modifies this`runs, this`readiness
      ensures |runs| == |old(runs)| && |readiness| == |old(readiness)|
      ensures forall k | 0 <= k < |runs| :: runs[k] == RunOutside(old(runs)[k], resumable)
      ensures forall k | 0 <= k < |readiness| :: readiness[k] == EntryOutside(old(readiness)[k], resumable)
    {
      for i := 0 to |runs|
        modifies this`runs
        invariant |runs| == |old(runs)|
        invariant forall k | 0 <= k < i :: runs[k] == RunOutside(old(runs)[k], resumable)
        invariant forall k | i <= k < |runs| :: runs[k] == old(runs)[k]
      {
        if runs[i].lease == Acquired && runs[i].session !in resumable {
          runs := runs[i := runs[i].(lease := Interrupted)];
        }
      }
      for i := 0 to |readiness|
        modifies this`readiness
        invariant |readiness| == |old(readiness)|
        invariant forall k | 0 <= k < i :: readiness[k] == EntryOutside(old(readiness)[k], resumable)
        invariant forall k | i <= k < |readiness| :: readiness[k] == old(readiness)[k]
      {
        if readiness[i].status == Taken && readiness[i].session !in resumable {
          readiness := readiness[i := readiness[i].(status := Stale)];
        }
      }
    }

    /** Interrupt the runs of a Session, noting their roles and readiness ids. */
    method InterruptRunsOf(sid: SessionId) returns (roles: set<Role>, ids: set<nat>)
      modifies this`runs
      ensures |runs| == |old(runs)|
      ensures forall k | 0 <= k < |runs| :: runs[k] == RunInterrupted(old(runs)[k], sid)
      ensures roles == InterruptedRoles(old(runs), sid)
      ensures forall id: nat :: id in ids <==> HoldsId(old(runs), sid, id)
    {
      roles, ids := {}, {};
      for i := 0 to |runs|
        invariant |runs| == |old(runs)|
        invariant forall k | 0 <= k < i :: runs[k] == RunInterrupted(old(runs)[k], sid)
        invariant forall k | i <= k < |runs| :: runs[k] == old(runs)[k]
        invariant roles == InterruptedRoles(old(runs)[..i], sid)
        invariant forall id: nat :: id in ids <==> HoldsId(old(runs)[..i], sid, id)
      {
        assert old(runs)[..i + 1] == old(runs)[..i] + [old(runs)[i]];
        var r := runs[i];
        if r.session == sid && r.lease == Acquired {
          roles, ids := roles + {r.role}, ids + {r.readinessId};
          runs := runs[i := r.(lease := Interrupted)];
        }
      }
      assert old(runs)[..|runs|] == old(runs);
    }

    /** Hand the taken entries of a Session back, or give them up when no run held them. */
    method HandBackReadiness(sid: SessionId, ids: set<nat>)
      modifies this`readiness
      ensures |readiness| == |old(readiness)|
      ensures forall k | 0 <= k < |readiness| :: readiness[k] == HandedBack(old(readiness)[k], sid, ids)
    {
      for i := 0 to |readiness|
        invariant |readiness| == |old(readiness)|
        invariant forall k | 0 <= k < i :: readiness[k] == HandedBack(old(readiness)[k], sid, ids)
        invariant forall k | i <= k < |readiness| :: readiness[k] == old(readiness)[k]
      {
        var e := readiness[i];
        if e.status == Taken && e.session == sid {
          readiness := readiness[i := e.(status := if e.id in ids then Ready else Stale)];
        }
      }
    }

    /** Recover one Session that can go on. */
    method RecoverSession(sid: SessionId, ghost s: State, ghost resumable: set<SessionId>)
      requires sid < |sessions| && sid in resumable && RecoveredSoFar(s, View(), resumable, sid)
      requires forall i: SessionId | i in resumable :: Resumable(s.sessions, i)
      modifies this`sessions, this`runs, this`readiness
      ensures RecoveredSoFar(s, View(), resumable, sid + 1)
    {
      hide InterruptedRoles;
      hide HoldsId;
      ghost var before := View();
      var roles, ids := InterruptRunsOf(sid);
      SameRunsOf(s.runs, before.runs, resumable, sid);
      HandBackReadiness(sid, ids);
      AppendLogEntry(sid, SystemSignal({GoalManager} + roles, None));
      SessionIsRecovered(s, before, View(), resumable, sid, ids);
    }

    /** `record_runtime_recovery_signals`. */
    method RecordRecoverySignals(now: int)
      requires Inv(View())
      modifies this`sessions, this`runs, this`readiness
      ensures View() == Recovered(old(View()))
      ensures Step(old(View()), Recover, now, View()) && Inv(View())
    {
      hide Inv;
      hide RecoveredSoFar;
      hide Recovered;
      hide Step;
      ghost var s := View();
      var resumable := set i | 0 <= i < |sessions| && ActiveIncomplete(sessions[i]);
      DropUnresumable(resumable);
      RecoveryStarts(s, View(), resumable);
      for i := 0 to |sessions|
        invariant |sessions| == |s.sessions| && RecoveredSoFar(s, View(), resumable, i)
      {
        if i in resumable {
          RecoverSession(i, s, resumable);
        } else {
          SessionIsSkipped(s, View(), resumable, i);
        }
        RecoveryShape(s, View(), resumable, i + 1);
      }
      RecoveryIsDone(s, View(), resumable);
    }

    // -------------------------------------------------------------- startup

    /** The startup of a store: replay every log, then refresh. */
    method Initialize(now: int)
      requires Inv(View())
      modifies this`sessions, this`readiness, this`nextReadiness
      ensures Step(old(View()), Reload, now, View()) && Inv(View())
    {
      hide Inv;
      hide Restarted;
      hide Refreshes;
      hide Step;
      ghost var s := View();
      for i := 0 to |sessions|
        modifies this`sessions
        invariant |sessions| == |s.sessions|
        invariant forall k | 0 <= k < i :: sessions[k] == Restarted(s.sessions[k])
        invariant forall k | i <= k < |sessions| :: sessions[k] == s.sessions[k]
      {
        var replayed := ReplaySession(sessions[i]);
        sessions := sessions[i := replayed];
      }
      assert View() == AfterReplay(s);
      IdsOf(s);
      RefreshDispatchReadiness(now);
      ReloadIsStep(s, now, View());
    }

    /** The graph repair that every load makes: owned Sessions move under their owners' homes, and whatever
        the root does not reach then comes under the root. Nothing changes when the first half raises. */
    method EnsureDefaults(homes: map<nat, nat>, now: int) returns (r: Result<bool, SessionGraph.LinkError>)
      requires Inv(View()) && ROOT_SESSION < |sessions| && HomesOk(homes)
      modifies this`edges
      ensures Step(old(View()), RepairGraph(homes), now, View()) && Inv(View())
      ensures r.Ok? <==> OwnersRepaired(old(View()), homes).Some?
      ensures r.Err? ==> View() == old(View())
      ensures r.Ok? ==> forall i: SessionId | i < |sessions| :: SessionGraph.Reaches(edges, ROOT_SESSION, i)
    {
      hide Inv;
      hide SessionGraph.Reaches;
      hide SessionGraph.Rehome;
      hide SessionGraph.Acyclic;
      ghost var s := View();
      var ids := Ids(|sessions|);
      var owned;
      r, owned := SessionGraph.EnsureOwnerParents(ids, homes, edges, ROOT_SESSION);
      if r.Ok? {
        edges := SessionGraph.RepairRoot(ids, owned, ROOT_SESSION);
        forall i: SessionId | i < |sessions|
          ensures i in ids
        {
          assert ids[i] == i;
        }
      }
      InputIsStep(s, RepairGraph(homes), now, View());
    }

    // -------------------------------------------------------------- scheduled launches

    /** `_start_goal_session_in_state`: a new Session with its goal, linked under its parents; nothing
        changes when it is refused. */
    method StartGoalSession(owner: Option<UnitId>, parents: seq<SessionId>, body: string, prompt: bool,
                            scheduled: bool, now: int)
      returns (started: bool)
      requires Inv(View())
      requires scheduled ==> owner.Some? && Schedule.IsDue(UnitSchedule(View(), owner), now)
      modifies this`sessions, this`edges, this`units
      ensures started == (!UnitRefuses(old(units), owner) && forall p | p in OrRoot(parents) :: p < |old(sessions)|)
      ensures Step(old(View()), Start(owner, parents, body, prompt, scheduled), now, View()) && Inv(View())
      ensures !started ==> View() == old(View())
    {
      hide Inv;
      hide HomesOk;
      hide OwnersRepaired;
      hide MayPost;
      hide Acquires;
      hide Refreshes;
      hide Ended;
      hide Recovered;
      ghost var s := View();
      var under := OrRoot(parents);
      started := !UnitRefuses(units, owner) && forall p | p in under :: p < |sessions|;
      if started {
        EdgesBelow(s);
        var child := |sessions|;
        sessions := sessions + [NewSession(owner, body, prompt)];
        for i := 0 to |under|
          modifies this`edges
          invariant edges == s.edges + EdgesFrom(under[..i], child)
        {
          assert under[..i + 1][..i] == under[..i];
          var edge := SessionGraph.Edge(under[i], child);
          if edge !in edges {
            edges := edges + [edge];
          }
        }
        assert under[..|under|] == under;
        if scheduled && units[owner.value].schedule.Some? {
          units := units[owner.value :=
            units[owner.value].(schedule := Some(units[owner.value].schedule.value.(nextRunAt := None)))];
        }
      }
      InputIsStep(s, Start(owner, parents, body, prompt, scheduled), now, View());
    }

    /** The launch of one due Unit. */
    method LaunchUnit(u: UnitId, parent: SessionId, body: string, prompt: bool, now: int)
      requires Inv(View()) && parent < |sessions|
      requires u < |units| && units[u].active && Schedule.IsDue(units[u].schedule, now)
      modifies this`sessions, this`edges, this`units
      ensures Inv(View())
      ensures sessions == old(sessions) + [NewSession(Some(u), body, prompt)]
      ensures units == old(units)[u := AfterPass(old(units)[u], true)]
    {
      hide Inv;
      hide NewSession;
      var started := StartGoalSession(Some(u), [parent], body, prompt, true, now);
    }

    /** `run_scheduled_units`: start a Session for every active Unit whose schedule is due, except those
        whose launch is refused for reasons outside this model, and use up their next run times. A due
        Unit whose singleton Session is there already (`running`) breaks the whole pass: its Session is
        switched on under its own name, the pass looks for the name it had made up, and nothing is
        saved. */
    method RunScheduledUnits(parent: SessionId, bodies: UnitId -> string, prompts: set<UnitId>, refused: set<UnitId>,
                             running: set<UnitId>, now: int)
      returns (r: Result<seq<UnitId>, string>)
      requires Inv(View()) && parent < |sessions|
      modifies this
      ensures Inv(View())
      ensures r.Err? <==> exists u: UnitId ::
        u < |old(units)| && u in running && u !in refused && DueNow(old(units)[u], now)
      ensures r.Err? ==> View() == old(View())
      ensures r.Ok? ==>
        && (forall u: UnitId :: u in r.value <==> u < |old(units)| && u !in refused && DueNow(old(units)[u], now))
        && (forall k, m | 0 <= k < m < |r.value| :: r.value[k] < r.value[m])
        && |units| == |old(units)|
        && (forall u: UnitId | u < |units| :: units[u] == AfterPass(old(units)[u], u in r.value))
        && old(sessions) <= sessions && |sessions| == |old(sessions)| + |r.value|
        && (forall k | 0 <= k < |r.value| ::
              sessions[|old(sessions)| + k] == NewSession(Some(r.value[k]), bodies(r.value[k]), r.value[k] in prompts))
    {
      hide Inv;
      hide NewSession;
      hide AfterPass;
      var loaded := View();
      var started: seq<UnitId> := [];
      NotLaunched(units);
      for i := 0 to |units|
        invariant Inv(View())
        invariant forall u: UnitId :: u in started <==> u < i && u !in refused && DueNow(old(units)[u], now)
        invariant forall u: UnitId | u < i && u !in refused && DueNow(old(units)[u], now) :: u !in running
        invariant forall k, m | 0 <= k < m < |started| :: started[k] < started[m]
        invariant |units| == |old(units)|
        invariant forall u: UnitId | u < |units| :: units[u] == AfterPass(old(units)[u], u in started)
        invariant old(sessions) <= sessions && |sessions| == |old(sessions)| + |started|
        invariant forall k | 0 <= k < |started| ::
          sessions[|old(sessions)| + k] == NewSession(Some(started[k]), bodies(started[k]), started[k] in prompts)
      {
        var unit := units[i];
        if !unit.active || !Schedule.IsDue(unit.schedule, now) || i in refused {
          continue;
        }
        if i in running {
          Restore(loaded);
          return Err("unknown session");
        }
        assert forall k | 0 <= k < |started| :: started[k] in started;
        LaunchUnit(i, parent, bodies(i), i in prompts, now);
        started := started + [i];
      }
      r := Ok(started);
    }

    // -------------------------------------------------------------- the liveness audit

    /** `_dispatch_liveness_snapshot`. */
    method LivenessSnapshot(now: int) returns (report: LivenessReport)
      ensures report.audited == set i | 0 <= i < |sessions| && Audited(View(), i)
      ensures report.gaps == set i | 0 <= i < |sessions| && IsGap(View(), i, now)
      ensures report.orphans == set e | e in readiness && IsOrphan(runs, e, now) :: e.id
      ensures report.expired == set r | 0 <= r < |runs| && runs[r].lease == Acquired && LeaseExpired(runs[r], now)
    {
      var expired: set<RunId>, liveIds: set<nat>, running: set<SessionId> := {}, {}, {};
      for i := 0 to |runs|
        invariant expired == set r | 0 <= r < i && runs[r].lease == Acquired && LeaseExpired(runs[r], now)
        invariant liveIds == set r | r in runs[..i] && r.lease == Acquired && !LeaseExpired(r, now) :: r.readinessId
        invariant running == set r | r in runs[..i] && r.lease == Acquired && !LeaseExpired(r, now) :: r.session
      {
        assert runs[..i + 1] == runs[..i] + [runs[i]];
        if runs[i].lease == Acquired {
          if LeaseExpired(runs[i], now) {
            expired := expired + {i};
          } else {
            liveIds, running := liveIds + {runs[i].readinessId}, running + {runs[i].session};
          }
        }
      }
      assert runs[..|runs|] == runs;
      var orphans: set<nat>, ready: set<SessionId> := {}, {};
      for i := 0 to |readiness|
        invariant orphans == set e | e in readiness[..i] && IsOrphan(runs, e, now) :: e.id
        invariant ready == set e | e in readiness[..i] && e.status == Ready :: e.session
      {
        assert readiness[..i + 1] == readiness[..i] + [readiness[i]];
        var e := readiness[i];
        if e.status == Taken && e.id !in liveIds {
          orphans := orphans + {e.id};
        }
        if e.status == Ready {
          ready := ready + {e.session};
        }
      }
      assert readiness[..|readiness|] == readiness;
      var audited: set<SessionId>, gaps: set<SessionId> := {}, {};
      for i := 0 to |sessions|
        invariant audited == set k | 0 <= k < i && Audited(View(), k)
        invariant gaps == set k | 0 <= k < i && IsGap(View(), k, now)
      {
        if !ActiveIncomplete(sessions[i]) || UnitPaused(units, sessions[i].unit) {
          continue;
        }
        audited := audited + {i};
        var waiting := sessions[i].goal.value.waiting.Some?;
        if !(i in ready || i in running || waiting) {
          gaps := gaps + {i};
        }
      }
      report := LivenessReport(audited, gaps, orphans, expired);
    }
  }

  lemma OwnedByIndex(before: seq<Run>, runs: seq<Run>, byReadiness: map<nat, RunId>, now: int, e: Readiness)
    requires OneRun(before) && runs == LapsedRuns(before, now)
    requires forall id | id in byReadiness ::
      byReadiness[id] < |before| && before[byReadiness[id]].lease == Acquired && before[byReadiness[id]].readinessId == id
    requires forall k | 0 <= k < |before| && before[k].lease == Acquired :: before[k].readinessId in byReadiness
    ensures Owned(runs, e) <==> e.id in byReadiness && runs[byReadiness[e.id]].lease == Acquired
  {
    if Owned(runs, e) {
      var r :| r in runs && r.lease == Acquired && r.readinessId == e.id;
      var k :| 0 <= k < |runs| && runs[k] == r;
      assert before[k] == r;
    }
    if e.id in byReadiness && runs[byReadiness[e.id]].lease == Acquired {
      assert runs[byReadiness[e.id]] in runs;
    }
  }

  lemma InvParts(s: State)
    requires Inv(s)
    ensures IdsBelow(s.readiness, s.nextReadiness) && OneRun(s.runs)
  {
  }

  lemma NothingSignalled(s: State)
    requires !AnyUncovered(s)
    ensures Signalled(s) == s
  {
    assert Signalled(s).sessions == s.sessions;
  }

  // ---------------------------------------------------------------- the ways an acquisition ends

  lemma ReadyUnits(s: State, repaired: State, ready: State, now: int)
    requires Inv(s) && Reconciles(s, repaired, now) && Refreshes(repaired, ready, now)
    ensures Inv(ready) && |ready.sessions| == |s.sessions| && |ready.runs| == |s.runs|
  {
    hide Inv;
    hide Refreshes;
    AcquireShape(s, repaired, ready, now);
  }

  lemma StalePositions(s: State, filter: Option<SessionId>, now: int, stale: seq<nat>)
    requires forall i: nat :: i in stale <==> IsStaleAt(s.readiness, s.sessions, filter, now, i)
    ensures forall m | 0 <= m < |stale| :: stale[m] < |s.readiness|
    ensures forall i | 0 <= i < |s.readiness| ::
      i in stale <==> MarkStale(s.readiness, s.sessions, filter, now)[i] == s.readiness[i].(status := Stale)
                      && IsStaleAt(s.readiness, s.sessions, filter, now, i)
  {
    forall m | 0 <= m < |stale|
      ensures stale[m] < |s.readiness|
    {
      assert stale[m] in stale;
    }
  }

  lemma StaleMeans(s: State, filter: Option<SessionId>, now: int)
    ensures forall i | 0 <= i < |s.readiness| ::
      var e := s.readiness[i];
      MarkStale(s.readiness, s.sessions, filter, now)[i] ==
        if e.status == Ready && (filter.None? || filter == Some(e.session))
           && (e.window.availableAfter.Some? ==> e.window.availableAfter.value <= now)
           && !(e.session < |s.sessions| && s.sessions[e.session].goal.Some? && !s.sessions[e.session].goal.value.complete)
        then e.(status := Stale) else e
  {
  }

  lemma ChosenIsFresh(s: State, filter: Option<SessionId>, now: int, i: nat)
    requires IsChoice(s.readiness, s.sessions, AcquiredRoles(s.runs), filter, now, i)
    ensures i < |s.readiness| && s.readiness[i].session < |s.sessions|
    ensures MarkStale(s.readiness, s.sessions, filter, now)[i] == s.readiness[i]
  {
    assert Candidate(s.readiness[i], s.sessions, AcquiredRoles(s.runs), filter, now);
  }

  lemma IdleAcquires(s: State, repaired: State, ready: State, s': State, filter: Option<SessionId>, now: int)
    requires Reconciles(s, repaired, now) && Refreshes(repaired, ready, now)
    requires forall j | 0 <= j < |ready.readiness| ::
      !Candidate(ready.readiness[j], ready.sessions, AcquiredRoles(ready.runs), filter, now)
    requires s' == s || s' == ready.(readiness := MarkStale(ready.readiness, ready.sessions, filter, now))
    ensures Acquires(s, s', filter, now, Idle)
  {
    hide Reconciles;
    hide Refreshes;
    hide Candidate;
    hide MarkStale;
    assert AcquiresVia(s, repaired, ready, s', filter, now, Idle);
  }

  lemma RefusedAcquires(s: State, repaired: State, ready: State, filter: Option<SessionId>, now: int, i: nat)
    requires Reconciles(s, repaired, now) && Refreshes(repaired, ready, now)
    requires IsChoice(ready.readiness, ready.sessions, AcquiredRoles(ready.runs), filter, now, i)
    requires i < |ready.readiness| && ready.readiness[i].session < |ready.sessions|
    requires UnitRefuses(ready.units, ready.sessions[ready.readiness[i].session].unit)
    ensures Acquires(s, s, filter, now, Refused)
  {
    hide Reconciles;
    hide Refreshes;
    hide IsChoice;
    assert ChoiceRefused(ready, filter, now);
    assert AcquiresVia(s, repaired, ready, s, filter, now, Refused);
  }

  lemma LeaseAcquires(s: State, repaired: State, ready: State, s': State, filter: Option<SessionId>, now: int,
                      chosen: nat, agentUser: Option<nat>)
    requires Reconciles(s, repaired, now) && Refreshes(repaired, ready, now) && |ready.runs| == |s.runs|
    requires IsChoice(ready.readiness, ready.sessions, AcquiredRoles(ready.runs), filter, now, chosen)
    requires chosen < |ready.readiness| && ready.readiness[chosen].session < |ready.sessions|
    requires !UnitRefuses(ready.units, ready.sessions[ready.readiness[chosen].session].unit)
    requires s' == Leased(ready, filter, chosen, agentUser, now)
    ensures Acquires(s, s', filter, now, LeaseTaken(|s.runs|, chosen, agentUser))
  {
    hide Reconciles;
    hide Refreshes;
    hide IsChoice;
    assert AcquiresVia(s, repaired, ready, s', filter, now, LeaseTaken(|s.runs|, chosen, agentUser));
  }

  lemma StepAcquires(s: State, filter: Option<SessionId>, outcome: AcquireOutcome, now: int, s': State)
    requires Inv(s) && Acquires(s, s', filter, now, outcome) && (filter.Some? ==> filter.value < |s.sessions|)
    ensures Step(s, Event.Acquire(filter, outcome), now, s') && Inv(s')
  {
    hide Inv;
    hide Acquires;
    hide SessionFacts;
    StepKeepsInv(s, Event.Acquire(filter, outcome), now, s');
  }

  lemma RunInRange(s: State, r: RunId)
    requires Inv(s) && r < |s.runs|
    ensures s.runs[r].session < |s.sessions|
  {
    assert s.runs[r] in s.runs;
  }

  lemma EndIsStep(s: State, r: RunId, end: AgentEnd, now: int, s': State)
    requires Inv(s) && r < |s.runs| && s.runs[r].session < |s.sessions| && s' == Ended(s, r, end, now)
    ensures Step(s, AgentEnds(r, end), now, s') && Inv(s')
  {
    hide Inv;
    hide Ended;
    hide SessionFacts;
    StepKeepsInv(s, AgentEnds(r, end), now, s');
  }

  /** A Unit after the scheduled pass. */
  function AfterPass(unit: WorkUnit, launched: bool): WorkUnit {
    if launched && unit.schedule.Some? then unit.(schedule := Some(unit.schedule.value.(nextRunAt := None))) else unit
  }

  /** The Unit is active and its enabled schedule has a next run time that has come. */
  predicate DueNow(unit: WorkUnit, now: int) {
    && unit.active && unit.schedule.Some? && unit.schedule.value.enabled
    && unit.schedule.value.nextRunAt.Some? && unit.schedule.value.nextRunAt.value <= now
  }

  lemma NotLaunched(units: seq<WorkUnit>)
    ensures forall u | 0 <= u < |units| :: AfterPass(units[u], false) == units[u]
  {
  }

  lemma EdgesBelow(s: State)
    requires Inv(s)
    ensures forall e | e in s.edges :: e.child < |s.sessions|
  {
  }

  lemma IdsOf(s: State)
    requires Inv(s)
    ensures IdsBelow(s.readiness, s.nextReadiness)
  {
  }

  lemma ReloadIsStep(s: State, now: int, s': State)
    requires Inv(s) && Refreshes(AfterReplay(s), s', now)
    ensures Step(s, Reload, now, s') && Inv(s')
  {
    hide Inv;
    hide Refreshes;
    ReloadKeeps(s, s', now);
  }

  lemma InputIsStep(s: State, ev: Event, now: int, s': State)
    requires Inv(s) && Step(s, ev, now, s')
    ensures Inv(s')
  {
    hide Inv;
    hide Step;
    hide SessionFacts;
    StepKeepsInv(s, ev, now, s');
  }

  /** Interrupting the runs of other Sessions does not change what this one holds. */
  lemma SameRunsOf(before: seq<Run>, now: seq<Run>, resumable: set<SessionId>, sid: SessionId)
    requires |before| == |now| && sid in resumable
    requires forall k | 0 <= k < |now| :: now[k] == RunSoFar(before[k], resumable, sid)
    ensures InterruptedRoles(now, sid) == InterruptedRoles(before, sid)
    ensures forall id: nat :: HoldsId(now, sid, id) == HoldsId(before, sid, id)
  {
    forall r: Run | r.lease == Acquired && r.session == sid
      ensures r in now <==> r in before
    {
      if r in before {
        var k :| 0 <= k < |before| && before[k] == r;
        assert now[k] == r;
      }
      if r in now {
        var k :| 0 <= k < |now| && now[k] == r;
        assert before[k] == r;
      }
    }
  }

  /** The recovery has dealt with the Sessions that cannot go on, and with those before `i`. */
  ghost predicate RecoveredSoFar(s: State, v: State, resumable: set<SessionId>, i: nat) {
    && |v.sessions| == |s.sessions| && |v.runs| == |s.runs| && |v.readiness| == |s.readiness|
    && v.units == s.units && v.edges == s.edges && v.nextReadiness == s.nextReadiness
    && (forall k | 0 <= k < |s.runs| :: v.runs[k] == RunSoFar(s.runs[k], resumable, i))
    && (forall k | 0 <= k < |s.readiness| :: v.readiness[k] == EntrySoFar(s, s.readiness[k], resumable, i))
    && (forall k | 0 <= k < |s.sessions| ::
          v.sessions[k] == if k < i then SessionRecovered(s, k, resumable) else s.sessions[k])
  }

  lemma RecoveryStarts(s: State, v: State, resumable: set<SessionId>)
    requires forall i: SessionId :: i in resumable <==> Resumable(s.sessions, i)
    requires v == s.(runs := v.runs, readiness := v.readiness) && |v.runs| == |s.runs| && |v.readiness| == |s.readiness|
    requires forall k | 0 <= k < |s.runs| :: v.runs[k] == RunOutside(s.runs[k], resumable)
    requires forall k | 0 <= k < |s.readiness| :: v.readiness[k] == EntryOutside(s.readiness[k], resumable)
    ensures RecoveredSoFar(s, v, resumable, 0)
  {
    hide ActiveIncomplete;
  }

  lemma SessionIsSkipped(s: State, v: State, resumable: set<SessionId>, i: nat)
    requires RecoveredSoFar(s, v, resumable, i) && i !in resumable
    ensures RecoveredSoFar(s, v, resumable, i + 1)
  {
    hide ReleasedReadiness;
    hide InterruptedRoles;
  }

  lemma RecoveryShape(s: State, v: State, resumable: set<SessionId>, i: nat)
    requires RecoveredSoFar(s, v, resumable, i)
    ensures |v.sessions| == |s.sessions|
  {
  }

  lemma SessionIsRecovered(s: State, before: State, v: State, resumable: set<SessionId>, sid: SessionId, ids: set<nat>)
    requires RecoveredSoFar(s, before, resumable, sid) && sid in resumable && sid < |s.sessions|
    requires forall i: SessionId | i in resumable :: Resumable(s.sessions, i)
    requires v == before.(sessions := v.sessions, runs := v.runs, readiness := v.readiness)
    requires |v.runs| == |s.runs| && |v.readiness| == |s.readiness|
    requires forall k | 0 <= k < |s.runs| :: v.runs[k] == RunInterrupted(before.runs[k], sid)
    requires forall k | 0 <= k < |s.readiness| :: v.readiness[k] == HandedBack(before.readiness[k], sid, ids)
    requires forall id: nat :: id in ids <==> HoldsId(s.runs, sid, id)
    requires v.sessions == before.sessions[sid :=
      Appended(before.sessions[sid], [SystemSignal({GoalManager} + InterruptedRoles(s.runs, sid), None)])]
    ensures RecoveredSoFar(s, v, resumable, sid + 1)
  {
    hide InterruptedRoles;
    hide Resumable;
    forall k | 0 <= k < |s.readiness|
      ensures v.readiness[k] == EntrySoFar(s, s.readiness[k], resumable, sid + 1)
    {
      assert before.readiness[k] == EntrySoFar(s, s.readiness[k], resumable, sid);
      if s.readiness[k].session == sid {
        assert HoldsId(s.runs, sid, s.readiness[k].id) <==> s.readiness[k].id in ids;
      }
    }
  }

  lemma RecoveryIsDone(s: State, s': State, resumable: set<SessionId>)
    requires Inv(s) && forall i: SessionId :: i in resumable <==> Resumable(s.sessions, i)
    requires RecoveredSoFar(s, s', resumable, |s.sessions|)
    ensures s' == Recovered(s) && Inv(s')
    ensures forall now :: Step(s, Recover, now, s')
  {
    hide Inv;
    hide SessionFacts;
    assert s'.runs == InterruptedRuns(s.runs);
    assert s'.readiness == Recovered(s).readiness;
    assert s'.sessions == Recovered(s).sessions;
    StepKeepsInv(s, Recover, 0, s');
  }

  // ---------------------------------------------------------------- the stages of a recovery

  /** Some run of the Session that holds its lease has this readiness id. */
  predicate HoldsId(runs: seq<Run>, sid: SessionId, id: nat) {
    exists r | r in runs :: r.lease == Acquired && r.session == sid && r.readinessId == id
  }

  function RunOutside(r: Run, resumable: set<SessionId>): Run {
    if r.lease == Acquired && r.session !in resumable then r.(lease := Interrupted) else r
  }

  function EntryOutside(e: Readiness, resumable: set<SessionId>): Readiness {
    if e.status == Taken && e.session !in resumable then e.(status := Stale) else e
  }

  function RunInterrupted(r: Run, sid: SessionId): Run {
    if r.lease == Acquired && r.session == sid then r.(lease := Interrupted) else r
  }

  function HandedBack(e: Readiness, sid: SessionId, ids: set<nat>): Readiness {
    if e.status == Taken && e.session == sid then e.(status := if e.id in ids then Ready else Stale) else e
  }

  /** A run after the Sessions that cannot go on, and those before `i`, have been dealt with. */
  function RunSoFar(r: Run, resumable: set<SessionId>, i: nat): Run {
    if r.lease == Acquired && (r.session !in resumable || r.session < i) then r.(lease := Interrupted) else r
  }

  function EntrySoFar(s: State, e: Readiness, resumable: set<SessionId>, i: nat): Readiness {
    if e.session !in resumable || e.session < i then ReleasedReadiness(s, e) else e
  }

  function SessionRecovered(s: State, sid: SessionId, resumable: set<SessionId>): Session
    requires sid < |s.sessions|
  {
    if sid in resumable
    then Appended(s.sessions[sid], [SystemSignal({GoalManager} + InterruptedRoles(s.runs, sid), None)])
    else s.sessions[sid]
  }
}
