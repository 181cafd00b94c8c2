/** When a new requirement gets its review: which steps bring one into a log, and exactly when the next
    refresh makes the GoalManager ready for it. */
module Requirements {
  import opened Wrappers
  import opened DispatchModel
  import opened Projection
  import opened SelectionPolicy
  import opened Protocol
  import opened LeaseInvariant
  import opened GoalInvariant
  import opened StepInvariant
  import opened CommitInvariant
  import opened Preservation
  import opened Behaviours
  import opened Liveness
  import opened WindowTiling
  import opened TurnEnds
  import SessionGraph

  // ---------------------------------------------------------------- where requirements come from

  /** Nothing but signals was appended. */
  ghost predicate SignalsOnly(before: Session, after: Session) {
    && before.active == after.active
    && before.log <= after.log && forall k | |before.log| <= k < |after.log| :: after.log[k].SystemSignal?
  }

  ghost predicate AllSignalsOnly(before: seq<Session>, after: seq<Session>) {
    |before| == |after| && forall i | 0 <= i < |before| :: SignalsOnly(before[i], after[i])
  }

  lemma SignalsOnlyTransitive(a: seq<Session>, b: seq<Session>, c: seq<Session>)
    requires AllSignalsOnly(a, b) && AllSignalsOnly(b, c)
    ensures AllSignalsOnly(a, c)
  {
    forall i | 0 <= i < |a|
      ensures SignalsOnly(a[i], c[i])
    {
      assert SignalsOnly(a[i], b[i]) && SignalsOnly(b[i], c[i]);
      forall k | |a[i].log| <= k < |c[i].log|
        ensures c[i].log[k].SystemSignal?
      {
        if k < |b[i].log| {
          assert c[i].log[k] == b[i].log[k];
        }
      }
    }
  }

  lemma RefreshSignals(s: State, s': State, now: int)
    requires Refreshes(s, s', now)
    ensures AllSignalsOnly(s.sessions, s'.sessions)
  {
    hide ReadinessRefreshed;
    hide WaitEnds;
    forall i | 0 <= i < |s.sessions|
      ensures SignalsOnly(s.sessions[i], s'.sessions[i])
    {
      assert s'.sessions[i] == Expired(s.sessions[i], now);
    }
  }

  lemma RepairSignals(s: State, now: int)
    ensures AllSignalsOnly(s.sessions, AfterExpiry(s, now).sessions)
    ensures AllSignalsOnly(s.sessions, Signalled(s).sessions)
    ensures AllSignalsOnly(s.sessions, Recovered(s).sessions)
  {
    hide LostOwnership;
    hide Uncovered;
    hide Resumable;
  }

  lemma AcquireSignals(s: State, ev: Event, now: int, s': State)
    requires ev.Acquire? && Accepted(s, ev, now) && Effect(s, ev, now, s')
    ensures AllSignalsOnly(s.sessions, s'.sessions)
  {
    hide Refreshes;
    hide IsChoice;
    hide Candidate;
    hide UnitRefuses;
    hide AllSignalsOnly;
    hide AfterExpiry;
    hide Signalled;
    var repaired, ready :| AcquiresVia(s, repaired, ready, s', ev.filter, now, ev.outcome);
    var mid :| ReconcilesVia(s, mid, repaired, now);
    var first := AfterExpiry(s, now);
    RepairSignals(s, now);
    RefreshSignals(first, mid, now);
    SignalsOnlyTransitive(s.sessions, first.sessions, mid.sessions);
    if AnyUncovered(mid) {
      RepairSignals(mid, now);
      RefreshSignals(Signalled(mid), repaired, now);
      SignalsOnlyTransitive(mid.sessions, Signalled(mid).sessions, repaired.sessions);
      SignalsOnlyTransitive(s.sessions, mid.sessions, repaired.sessions);
    }
    RefreshSignals(repaired, ready, now);
    SignalsOnlyTransitive(s.sessions, repaired.sessions, ready.sessions);
    if s' == s {
      NoSignals(s.sessions);
    } else if ev.outcome.LeaseTaken? {
      ChoiceInRange(ready, ev.filter, now, ev.outcome.chosen);
    }
  }

  lemma NoSignals(sessions: seq<Session>)
    ensures AllSignalsOnly(sessions, sessions)
  {
  }

  /** No requirement and no activation was appended. */
  ghost predicate PlainChange(before: Session, after: Session) {
    && before.active == after.active
    && before.log <= after.log
    && forall k | |before.log| <= k < |after.log| :: !IsRequirement(after.log[k]) && !after.log[k].SessionActiveChanged?
  }

  lemma WrittenIsPlain(s: State, r: RunId, e: Entry)
    requires r < |s.runs| && WrittenAtEnd(s, r, e)
    ensures !IsRequirement(e) && !e.SessionActiveChanged?
  {
  }

  /** The end of a run brings requirements to its parents only. */
  lemma EndBringsChildren(s: State, r: RunId, end: AgentEnd, now: int, sid: SessionId)
    requires Inv(s) && r < |s.runs| && s.runs[r].session < |s.sessions| && sid < |s.sessions|
    ensures
      var before, after, child := s.sessions[sid], Ended(s, r, end, now).sessions[sid], s.runs[r].session;
      PlainChange(before, after) || (sid != child && after == Notified(before, child))
  {
    hide Inv;
    hide Ended;
    hide Notified;
    hide IsRequirement;
    hide WrittenAtEnd;
    var entries := EndWrites(s, r, end, now);
    var before, after := s.sessions[sid], Ended(s, r, end, now).sessions[sid];
    if sid == s.runs[r].session {
      forall k | |before.log| <= k < |after.log|
        ensures !IsRequirement(after.log[k]) && !after.log[k].SessionActiveChanged?
      {
        WrittenIsPlain(s, r, entries[k - |before.log|]);
      }
    }
  }

  /** The four ways a requirement enters a log: user input, a revised body, the completion of a child,
      and the prompt of a new Session. */
  lemma RequirementSources(s: State, ev: Event, now: int, s': State, sid: SessionId, k: nat)
    requires Inv(s) && Step(s, ev, now, s') && sid < |s'.sessions|
    requires sid < |s.sessions| ==> |s.sessions[sid].log| <= k
    requires k < |s'.sessions[sid].log| && IsRequirement(s'.sessions[sid].log[k])
    ensures Accepted(s, ev, now)
    ensures
      || (sid < |s.sessions| && ev.UserInput? && ev.sid == sid
          && s'.sessions[sid] == WithUserInput(s.sessions[sid], ev.worker))
      || (sid < |s.sessions| && ev.UpdateGoal? && ev.sid == sid && s.sessions[sid].goal.Some?
          && s'.sessions[sid] == WithGoalBody(s.sessions[sid], ev.body))
      || (sid < |s.sessions| && ev.AgentEnds? && sid != s.runs[ev.run].session
          && s'.sessions[sid] == Notified(s.sessions[sid], s.runs[ev.run].session))
      || (sid == |s.sessions| && ev.Start? && ev.prompt && s'.sessions[sid] == NewSession(ev.owner, ev.body, true))
  {
    hide Inv;
    hide Ended;
    hide Recovered;
    hide Refreshes;
    hide Acquires;
    hide SessionGraph.Rehome;
    hide SessionGraph.RootRepaired;
    hide LinkedUnder;
    if ev.Acquire? {
      AcquireSignals(s, ev, now, s');
    } else if ev.Refresh? {
      RefreshSignals(s, s', now);
    } else if ev.Reload? {
      RefreshSignals(AfterReplay(s), s', now);
    } else if ev.Recover? {
      RepairSignals(s, now);
    } else if ev.AgentEnds? && Accepted(s, ev, now) {
      EndKeepsSessions(s, ev.run, ev.end, now);
      EndBringsChildren(s, ev.run, ev.end, now, sid);
    }
  }

  lemma EndKeepsSessions(s: State, r: RunId, end: AgentEnd, now: int)
    requires Inv(s) && r < |s.runs| && s.runs[r].session < |s.sessions|
    ensures |Ended(s, r, end, now).sessions| == |s.sessions|
  {
    EndSettles(s, r, end, now);
    hide Inv;
    hide Ended;
  }

  /** Only the two creations add a Session. */
  lemma StepCounts(s: State, ev: Event, now: int, s': State)
    requires Inv(s) && Step(s, ev, now, s') && !(ev.Start? || ev.Create?)
    ensures |s'.sessions| == |s.sessions|
  {
    hide Inv;
    hide Ended;
    hide Recovered;
    hide Refreshes;
    hide Acquires;
    hide SessionGraph.Rehome;
    hide SessionGraph.RootRepaired;
    hide LinkedUnder;
    if ev.Acquire? && Accepted(s, ev, now) {
      AcquireSignals(s, ev, now, s');
    } else if ev.Refresh? {
      RefreshSignals(s, s', now);
    } else if ev.Reload? {
      RefreshSignals(AfterReplay(s), s', now);
    } else if ev.Recover? {
      RepairSignals(s, now);
    } else if ev.AgentEnds? && Accepted(s, ev, now) {
      EndKeepsSessions(s, ev.run, ev.end, now);
    }
  }

  // ---------------------------------------------------------------- what a refresh makes of it

  lemma RefreshKeepsClaims(m: State, s': State, now: int)
    requires LeaseInv(m.sessions, m.runs, m.readiness, m.nextReadiness) && Refreshes(m, s', now)
    ensures LeaseInv(s'.sessions, s'.runs, s'.readiness, s'.nextReadiness)
  {
    hide LeaseInv;
    hide ReadinessRefreshed;
    hide Quiet;
    hide Calm;
    hide Expired;
    forall i | 0 <= i < |m.sessions|
      ensures Calm(m.sessions[i], s'.sessions[i])
    {
      ExpiredIsPeaceful(m.sessions[i], now);
    }
    CalmKeepsLease(m.sessions, s'.sessions, m.runs, m.readiness, m.nextReadiness);
    RefreshKeepsLease(s'.sessions, m.runs, m.readiness, s'.readiness, m.nextReadiness, s'.nextReadiness, now);
  }

  /** Whether a refresh makes the GoalManager of an active incomplete goal ready, while nobody runs it: a
      waiting goal needs its wait to end, any other an unread entry that wakes the GoalManager. */
  lemma HeardUnlessWaiting(m: State, s': State, now: int, sid: SessionId)
    requires LeaseInv(m.sessions, m.runs, m.readiness, m.nextReadiness) && Refreshes(m, s', now)
    requires sid < |m.sessions| && ActiveIncomplete(m.sessions[sid])
    requires !HasAcquiredRun(m.runs, sid, GoalManager) && !HasTakenReadiness(m.readiness, sid, GoalManager)
    ensures HasReady(s'.readiness, sid, GoalManager) <==>
      var goal := m.sessions[sid].goal.value;
      if goal.waiting.Some? then WaitFires(m.sessions[sid].log, goal.waiting.value, now)
      else Woken(m.sessions[sid], GoalManager, HasAcquiredRun(m.runs, sid, WorkerAgent))
  {
    assert Cursor(m.sessions[sid], GoalManager) <= |m.sessions[sid].log| by {
      assert CursorsOk(m.sessions);
    }
    RefreshedList(m, s', now);
    RefreshKeepsClaims(m, s', now);
    hide LeaseInv;
    hide ReadinessRefreshed;
    hide Woken;
    hide WaitFires;
    var before, after := m.sessions[sid], s'.sessions[sid];
    var activeWorker := HasAcquiredRun(m.runs, sid, WorkerAgent);
    assert after == Expired(before, now);
    if WaitEnds(before, now) {
      SignalWakes(after, GoalManager, {GoalManager}, activeWorker);
    }
    if before.goal.value.waiting.Some? && !WaitEnds(before, now) {
    } else {
      RefreshFollowsTheLog(s'.sessions, m.runs, m.readiness, s'.readiness, m.nextReadiness, s'.nextReadiness, now,
        sid, GoalManager);
    }
  }

  // ---------------------------------------------------------------- what wakes the GoalManager

  lemma EntryWakes(s: Session, k: nat, activeWorker: bool)
    requires Cursor(s, GoalManager) <= k < |s.log| && WakeOf(s.log[k], GoalManager, activeWorker).Some?
    ensures Woken(s, GoalManager, activeWorker)
  {
  }

  /** Entries that do not wake the GoalManager leave it as it was. */
  lemma NoNewWake(before: Session, after: Session, activeWorker: bool)
    requires before.log <= after.log && Cursor(after, GoalManager) == Cursor(before, GoalManager)
    requires forall k | |before.log| <= k < |after.log| :: WakeOf(after.log[k], GoalManager, activeWorker).None?
    ensures Woken(after, GoalManager, activeWorker) <==> Woken(before, GoalManager, activeWorker)
  {
    hide WakeOf;
    if Woken(before, GoalManager, activeWorker) {
      var k :| Cursor(before, GoalManager) <= k < |before.log| && WakeOf(before.log[k], GoalManager, activeWorker).Some?;
      assert after.log[k] == before.log[k];
    }
    if Woken(after, GoalManager, activeWorker) {
      var k :| Cursor(after, GoalManager) <= k < |after.log| && WakeOf(after.log[k], GoalManager, activeWorker).Some?;
      assert after.log[k] == before.log[k];
    }
  }

  /** User input wakes the GoalManager unless a Worker is running, which gets it first; a cancelled wait
      wakes it in any case. */
  lemma InputWakes(s: Session, worker: Option<RunId>)
    requires Cursor(s, GoalManager) <= |s.log|
    ensures
      var after := WithUserInput(s, worker);
      Woken(after, GoalManager, worker.Some?) <==>
        worker.None? || (s.goal.Some? && s.goal.value.waiting.Some?) || Woken(s, GoalManager, true)
  {
    var after := WithUserInput(s, worker);
    var n := |s.log|;
    if worker.None? {
      EntryWakes(after, n, false);
    } else if s.goal.Some? && s.goal.value.waiting.Some? {
      assert after.log[n + 1] == GM_SIGNAL;
      EntryWakes(after, n + 1, true);
    } else {
      NoNewWake(s, after, true);
    }
  }

  /** A revised body wakes it unless a Worker is running. */
  lemma BodyWakes(s: Session, body: string, activeWorker: bool)
    requires Cursor(s, GoalManager) <= |s.log| && s.goal.Some?
    ensures Woken(WithGoalBody(s, body), GoalManager, activeWorker) <==>
            !activeWorker || Woken(s, GoalManager, true)
  {
    var after := WithGoalBody(s, body);
    if !activeWorker {
      EntryWakes(after, |s.log| + 1, false);
    } else {
      NoNewWake(s, after, true);
    }
  }

  /** A completed child always does. */
  lemma ChildWakes(s: Session, child: SessionId, activeWorker: bool)
    requires Cursor(s, GoalManager) <= |s.log|
    ensures Woken(Notified(s, child), GoalManager, activeWorker)
  {
    assert Notified(s, child).log[|s.log|] == ChildGoalCompleted(child);
    EntryWakes(Notified(s, child), |s.log|, activeWorker);
  }

  lemma CursorInLog(s: State, sid: SessionId)
    requires Inv(s) && sid < |s.sessions|
    ensures Cursor(s.sessions[sid], GoalManager) <= |s.sessions[sid].log|
  {
    assert CursorsOk(s.sessions);
  }

  // ---------------------------------------------------------------- the theorem

  predicate NobodyManages(s: State, sid: SessionId) {
    !HasAcquiredRun(s.runs, sid, GoalManager) && !HasTakenReadiness(s.readiness, sid, GoalManager)
  }

  /** The wait of the goal, if there is one, ends at a refresh at this time. */
  predicate NotHeldBack(s: Session, now: int)
    requires s.goal.Some?
  {
    s.goal.value.waiting.None? || WaitFires(s.log, s.goal.value.waiting.value, now)
  }

  /** The steps that bring a requirement leave the goal incomplete, and the GoalManager woken unless a
      running Worker comes first. */
  lemma ArrivalWakes(s: State, ev: Event, now: int, s': State, sid: SessionId, k: nat)
    requires Inv(s) && Step(s, ev, now, s') && sid < |s'.sessions| && s'.sessions[sid].goal.Some?
    requires sid < |s.sessions| ==> |s.sessions[sid].log| <= k
    requires k < |s'.sessions[sid].log| && IsRequirement(s'.sessions[sid].log[k])
    requires !HasAcquiredRun(s'.runs, sid, WorkerAgent) || s'.sessions[sid].log[k].ChildGoalCompleted?
    ensures !s'.sessions[sid].goal.value.complete
    ensures Woken(s'.sessions[sid], GoalManager, HasAcquiredRun(s'.runs, sid, WorkerAgent))
    ensures ev.UserInput? ==> s'.sessions[sid].goal.value.waiting.None?
  {
    hide Inv;
    hide Ended;
    hide Recovered;
    hide Woken;
    hide Refreshes;
    hide Acquires;
    hide AfterReplay;
    hide HomesOk;
    hide MayPost;
    hide OwnersRepaired;
    hide LinkedUnder;
    hide SessionGraph.RootRepaired;
    hide IsRequirement;
    RequirementSources(s, ev, now, s', sid, k);
    var activeWorker := HasAcquiredRun(s'.runs, sid, WorkerAgent);
    if sid < |s.sessions| {
      CursorInLog(s, sid);
    }
    var after := s'.sessions[sid];
    if sid == |s.sessions| {
      EntryWakes(after, 0, activeWorker);
    } else if ev.UserInput? {
      InputWakes(s.sessions[sid], ev.worker);
    } else if ev.UpdateGoal? {
      BodyWakes(s.sessions[sid], ev.body, activeWorker);
    } else {
      ChildWakes(s.sessions[sid], s.runs[ev.run].session, activeWorker);
    }
  }

  /** A requirement is heard, exactly. After the step that brings it into an active Session whose
      GoalManager nobody runs, and while no Worker runs either, the next refresh makes the GoalManager
      ready if and only if the goal does not wait or its wait ends. A completed child is heard under the
      same condition whether a Worker runs or not. User input always ends the wait, so it is always
      heard. */
  lemma RequirementIsHeard(s: State, ev: Event, now: int, s1: State, s2: State, later: int, sid: SessionId, k: nat)
    requires Inv(s) && Step(s, ev, now, s1) && Refreshes(s1, s2, later)
    requires sid < |s1.sessions| && s1.sessions[sid].active && s1.sessions[sid].goal.Some? && NobodyManages(s1, sid)
    requires sid < |s.sessions| ==> |s.sessions[sid].log| <= k
    requires k < |s1.sessions[sid].log| && IsRequirement(s1.sessions[sid].log[k])
    requires !HasAcquiredRun(s1.runs, sid, WorkerAgent) || s1.sessions[sid].log[k].ChildGoalCompleted?
    ensures HasReady(s2.readiness, sid, GoalManager) <==> NotHeldBack(s1.sessions[sid], later)
    ensures ev.UserInput? ==> HasReady(s2.readiness, sid, GoalManager)
  {
    ArrivalWakes(s, ev, now, s1, sid, k);
    StepKeepsInv(s, ev, now, s1);
    LeaseOf(s1);
    hide Inv;
    hide Step;
    hide Refreshes;
    hide SessionFacts;
    hide LeaseInv;
    hide Woken;
    HeardUnlessWaiting(s1, s2, later, sid);
  }

  /** While a Worker runs, user input reaches the GoalManager at the next refresh if and only if it ended a
      wait or something else woke the GoalManager already. */
  lemma DeferredInputIsHeard(s: State, now: int, s1: State, s2: State, later: int, sid: SessionId, worker: RunId)
    requires Inv(s) && Step(s, UserInput(sid, Some(worker)), now, s1) && Refreshes(s1, s2, later)
    requires Accepted(s, UserInput(sid, Some(worker)), now) && s.sessions[sid].active && NobodyManages(s, sid)
    ensures HasReady(s2.readiness, sid, GoalManager) <==>
      || (s.sessions[sid].goal.Some? && s.sessions[sid].goal.value.waiting.Some?)
      || Woken(s.sessions[sid], GoalManager, true)
  {
    CursorInLog(s, sid);
    InputWakes(s.sessions[sid], Some(worker));
    StepKeepsInv(s, UserInput(sid, Some(worker)), now, s1);
    LeaseOf(s1);
    hide Inv;
    hide Refreshes;
    hide SessionFacts;
    hide LeaseInv;
    hide Woken;
    assert s.runs[worker] in s1.runs && RunsFor(s.runs[worker], sid, WorkerAgent);
    HeardUnlessWaiting(s1, s2, later, sid);
  }

  /** A revised body never ends a wait. It is heard if and only if the wait it finds ends by itself, or,
      when there is none, no Worker runs or something else woke the GoalManager already. */
  lemma RevisedBodyIsHeard(s: State, now: int, s1: State, s2: State, later: int, sid: SessionId, body: string)
    requires Inv(s) && Step(s, UpdateGoal(sid, body), now, s1) && Refreshes(s1, s2, later)
    requires Accepted(s, UpdateGoal(sid, body), now) && s.sessions[sid].active && NobodyManages(s, sid)
    requires s.sessions[sid].goal.Some?
    ensures HasReady(s2.readiness, sid, GoalManager) <==>
      var before := s.sessions[sid];
      if before.goal.value.waiting.Some? then WaitFires(before.log, before.goal.value.waiting.value, later)
      else !HasAcquiredRun(s.runs, sid, WorkerAgent) || Woken(before, GoalManager, true)
  {
    CursorInLog(s, sid);
    BodyWakes(s.sessions[sid], body, HasAcquiredRun(s.runs, sid, WorkerAgent));
    StepKeepsInv(s, UpdateGoal(sid, body), now, s1);
    LeaseOf(s1);
    if s.sessions[sid].goal.value.waiting.Some? {
      SilentEntriesFireNothing(s.sessions[sid], WithGoalBody(s.sessions[sid], body), s.sessions[sid].goal.value.waiting.value, later);
    }
    hide Inv;
    hide Refreshes;
    hide SessionFacts;
    hide LeaseInv;
    hide Woken;
    hide WaitFires;
    HeardUnlessWaiting(s1, s2, later, sid);
  }

  /** A wait looks at messages and completed children only. */
  lemma SilentEntriesFireNothing(before: Session, after: Session, w: Wait, now: int)
    requires before.log <= after.log
    requires forall k | |before.log| <= k < |after.log| :: !after.log[k].Message? && !after.log[k].ChildGoalCompleted?
    ensures WaitFires(after.log, w, now) <==> WaitFires(before.log, w, now)
  {
    forall k | w.wakeLogSeq <= k < |after.log| && (after.log[k].Message? || after.log[k].ChildGoalCompleted?)
      ensures k < |before.log| && before.log[k] == after.log[k]
    {
    }
    assert forall k | w.wakeLogSeq <= k < |before.log| :: before.log[k] == after.log[k];
  }

  /** A parent that waits for something else does not hear of its child: the completion is in its log, its
      goal is incomplete, and its GoalManager is ready after the refresh only if that wait ends. */
  lemma WaitingParentHears(s: State, ev: Event, now: int, s1: State, s2: State, later: int, sid: SessionId)
    requires Inv(s) && Step(s, ev, now, s1) && Refreshes(s1, s2, later) && ev.AgentEnds?
    requires sid < |s.sessions| && s.sessions[sid].active && NobodyManages(s1, sid)
    requires ev.run < |s.runs| && s1.sessions[sid] == Notified(s.sessions[sid], s.runs[ev.run].session)
    requires s.sessions[sid].goal.Some? && s.sessions[sid].goal.value.waiting.Some?
    ensures !IsComplete(s1, sid)
    ensures HasReady(s2.readiness, sid, GoalManager) <==>
      var before, w := s.sessions[sid], s.sessions[sid].goal.value.waiting.value;
      WaitFires(before.log, w, later) || w.kind == OnChild(s.runs[ev.run].session)
  {
    var before, child := s.sessions[sid], s.runs[ev.run].session;
    assert GoalOk(before, sid, s.runs);
    assert s1.sessions[sid].log == before.log + [ChildGoalCompleted(child)];
    StepKeepsInv(s, ev, now, s1);
    LeaseOf(s1);
    ChildFires(before.log, before.goal.value.waiting.value, child, later);
    hide Inv;
    hide Step;
    hide Refreshes;
    hide SessionFacts;
    hide LeaseInv;
    hide Woken;
    hide WaitFires;
    HeardUnlessWaiting(s1, s2, later, sid);
  }

  lemma ChildFires(log: seq<Entry>, w: Wait, child: SessionId, now: int)
    ensures WaitFires(log + [ChildGoalCompleted(child)], w, now) <==>
            WaitFires(log, w, now) || (w.kind == OnChild(child) && w.wakeLogSeq <= |log|)
  {
    var all := log + [ChildGoalCompleted(child)];
    assert all[|log|] == ChildGoalCompleted(child);
    assert forall k | 0 <= k < |log| :: all[k] == log[k];
  }
}
