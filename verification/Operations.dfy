/** What the operations on Sessions accept and leave (src/goal/sessions.py, src/goal/messages.py), as far as the
    goal, the log, the schedule and the next refresh go; for the graph see `GraphSteps.StepEdges`. */
module Operations {
  import opened Wrappers
  import opened DispatchModel
  import opened Projection
  import opened SelectionPolicy
  import opened Protocol
  import opened LeaseInvariant
  import opened GoalInvariant
  import opened StepInvariant
  import opened CommitInvariant
  import opened Preservation
  import opened Liveness
  import opened Requirements
  import opened Waking
  import opened Fencing
  import Schedule
  import SessionGraph

  // ---------------------------------------------------------------- new Sessions

  /** The Unit, if there is one, is known and switched on. */
  predicate UnitIsOn(s: State, owner: Option<UnitId>) {
    owner.Some? ==> owner.value < |s.units| && s.units[owner.value].active
  }

  /** The Unit has an enabled schedule whose next run time has come. */
  predicate RunIsDue(s: State, owner: Option<UnitId>, now: int) {
    && owner.Some? && owner.value < |s.units| && s.units[owner.value].schedule.Some?
    && var schedule := s.units[owner.value].schedule.value;
    && schedule.enabled && schedule.nextRunAt.Some? && schedule.nextRunAt.value <= now
  }

  lemma StartIsAccepted(s: State, now: int, owner: Option<UnitId>, parents: seq<SessionId>, body: string, prompt: bool,
                        scheduled: bool)
    ensures Accepted(s, Start(owner, parents, body, prompt, scheduled), now) <==>
      && (forall p | p in parents :: p < |s.sessions|) && (parents == [] ==> 0 < |s.sessions|)
      && UnitIsOn(s, owner) && (scheduled ==> RunIsDue(s, owner, now))
  {
    var accepted := (forall p | p in OrRoot(parents) :: p < |s.sessions|) && !UnitRefuses(s.units, owner)
      && (scheduled ==> owner.Some? && Schedule.IsDue(UnitSchedule(s, owner), now));
    assert Accepted(s, Start(owner, parents, body, prompt, scheduled), now) <==> accepted;
    RootOrParents(s, parents);
  }

  lemma RootOrParents(s: State, parents: seq<SessionId>)
    ensures (forall p | p in OrRoot(parents) :: p < |s.sessions|) <==>
      (forall p | p in parents :: p < |s.sessions|) && (parents == [] ==> 0 < |s.sessions|)
  {
    if parents == [] {
      assert OrRoot(parents) == [0] && 0 in OrRoot(parents);
    }
  }

  /** A Session is started exactly under known parents and for a Unit that is on, and a scheduled one only when
      its run is due. It is active, its goal has the body and is open, nothing has been read, and its Unit's
      next run time is used up if it was scheduled. Nothing else changes, and the next refresh makes its
      GoalManager ready for everything in the log. */
  lemma StartedSessionIsReady(s: State, now: int, s': State, later: int, s2: State, owner: Option<UnitId>,
                              parents: seq<SessionId>, body: string, prompt: bool, scheduled: bool)
    requires Inv(s) && Step(s, Start(owner, parents, body, prompt, scheduled), now, s') && Refreshes(s', s2, later)
    ensures s' == s || |s'.sessions| == |s.sessions| + 1
    ensures |s'.sessions| == |s.sessions| + 1 <==>
      && (forall p | p in parents :: p < |s.sessions|) && (parents == [] ==> 0 < |s.sessions|)
      && UnitIsOn(s, owner) && (scheduled ==> RunIsDue(s, owner, now))
    ensures |s'.sessions| == |s.sessions| + 1 ==>
      var sid := |s.sessions|;
      var session := s'.sessions[sid];
      && s'.sessions == s.sessions + [session] && s'.runs == s.runs && s'.readiness == s.readiness
      && session.active && session.unit == owner && session.goal == Some(Goal(body, false, None))
      && session.policy == SchedulingPolicy(0, 0) && session.goalManagerCursor == 0 && session.workerCursor == 0
      && (prompt <==> exists k | 0 <= k < |session.log| :: session.log[k].Message? && session.log[k].payload.userInput)
      && |s'.units| == |s.units|
      && (forall u | 0 <= u < |s.units| :: s'.units[u] ==
            if scheduled && owner == Some(u) then s.units[u].(schedule := Some(s.units[u].schedule.value.(nextRunAt := None)))
            else s.units[u])
      && HasReady(s2.readiness, sid, GoalManager)
      && (forall e | e in s2.readiness && e.status == Ready && e.session == sid && e.role == GoalManager ::
            e.window.fromSeq == 1 && e.window.toSeq == |session.log| && e.window.availableAfter.None?)
  {
    hide Inv;
    hide Refreshes;
    hide EdgesFrom;
    hide NewSession;
    hide UnitIsOn;
    hide RunIsDue;
    StepKeepsInv(s, Start(owner, parents, body, prompt, scheduled), now, s');
    StartIsAccepted(s, now, owner, parents, body, prompt, scheduled);
    if Accepted(s, Start(owner, parents, body, prompt, scheduled), now) {
      var sid := |s.sessions|;
      NewSessionEntries(owner, body, prompt);
      NothingForNewSession(s, s', sid);
      RefreshedRole(s', s2, later, sid, GoalManager);
      assert WakeOf(s'.sessions[sid].log[0], GoalManager, HasAcquiredRun(s'.runs, sid, WorkerAgent)).Some?;
      forall e | e in s2.readiness && e.status == Ready && e.session == sid && e.role == GoalManager
        ensures e.window.fromSeq == 1 && e.window.toSeq == |s'.sessions[sid].log| && e.window.availableAfter.None?
      {
        ReadyFromWhen(s', s2, later, sid, GoalManager, e);
      }
    }
  }

  lemma NewSessionEntries(owner: Option<UnitId>, body: string, prompt: bool)
    ensures
      var s := NewSession(owner, body, prompt);
      && s.active && s.unit == owner && s.goal == Some(Goal(body, false, None)) && s.policy == SchedulingPolicy(0, 0)
      && s.goalManagerCursor == 0 && s.workerCursor == 0
      && s.log != [] && s.log[0] == GoalStateChanged(Incomplete, false, None, false)
      && (prompt <==> exists k | 0 <= k < |s.log| :: s.log[k].Message? && s.log[k].payload.userInput)
  {
    var s := NewSession(owner, body, prompt);
    if prompt {
      assert s.log[1].Message?;
    }
  }

  lemma NothingForNewSession(s: State, s': State, sid: SessionId)
    requires Inv(s) && s'.runs == s.runs && s'.readiness == s.readiness && |s.sessions| <= sid
    ensures IsFree(s', sid, GoalManager) && !HasAcquiredRun(s'.runs, sid, WorkerAgent)
  {
    hide GoalsOk;
    hide ReadyFor;
    forall e | e in s.readiness && e.status == Taken
      ensures e.session != sid
    {
      var r :| r in s.runs && Owns(r, e);
    }
  }

  /** A Session created empty is active, has no goal and nothing in its log. */
  lemma CreatedSessionIsEmpty(s: State, now: int, s': State, owner: Option<UnitId>, parents: seq<SessionId>)
    requires Step(s, Create(owner, parents), now, s')
    ensures
      if (forall p | p in parents :: p < |s.sessions|) && (parents == [] ==> 0 < |s.sessions|) && UnitIsOn(s, owner)
      then s' == s.(sessions := s.sessions + [Session(true, owner, SchedulingPolicy(0, 0), None, 0, 0, [])], edges := s'.edges)
      else s' == s
  {
    RootOrParents(s, parents);
  }

  // ---------------------------------------------------------------- changes of one Session

  /** Activity is changed in the Session and in its log; a policy and a Unit's activity in their places only. An
      unknown Session or Unit and an empty body are refused. */
  lemma SettingsChange(s: State, ev: Event, now: int, s': State)
    requires Step(s, ev, now, s')
    ensures ev.SetActive? && ev.sid < |s.sessions| ==>
      var session := s.sessions[ev.sid];
      s' == s.(sessions := s.sessions[ev.sid := session.(active := ev.active, log := session.log + [SessionActiveChanged(ev.active)])])
    ensures ev.SetPolicy? && ev.sid < |s.sessions| ==>
      s' == s.(sessions := s.sessions[ev.sid := s.sessions[ev.sid].(policy := ev.policy)])
    ensures ev.SetUnitActive? && ev.unit < |s.units| ==>
      s' == s.(units := s.units[ev.unit := s.units[ev.unit].(active := ev.active)])
    ensures (ev.SetActive? || ev.SetPolicy? || ev.UpdateGoal? || ev.UserInput?) && ev.sid >= |s.sessions| ==> s' == s
    ensures (ev.SetUnitActive? && ev.unit >= |s.units|) || (ev.UpdateGoal? && ev.body == "") ==> s' == s
  {
    hide Refreshes;
    hide Acquires;
    hide Ended;
    hide Recovered;
    hide AfterReplay;
    hide SessionGraph.RootRepaired;
    hide LinkedUnder;
  }

  /** A singleton is switched on exactly when it is known, its Unit is on and no parent that it would get is
      reached from it. Its goal is open again, with the new body if one is given, and keeps its wait; its
      GoalManager, if nobody runs it, is ready at the next refresh unless that wait holds. */
  lemma ActivatedSessionIsReady(s: State, now: int, s': State, later: int, s2: State, sid: SessionId,
                                parents: seq<SessionId>, body: string)
    requires Inv(s) && Step(s, ActivateSingleton(sid, parents, body), now, s') && sid < |s.sessions|
    requires UnitIsOn(s, s.sessions[sid].unit) && Refreshes(s', s2, later)
    requires LinkedUnder(s.edges, |s.sessions|, OrRoot(parents), sid).Some?
    ensures |s'.sessions| == |s.sessions| && s'.sessions == s.sessions[sid := s'.sessions[sid]]
    ensures s'.runs == s.runs && s'.readiness == s.readiness && s'.units == s.units
    ensures
      var before, after := s.sessions[sid], s'.sessions[sid];
      && after.active && after.goal.Some? && !after.goal.value.complete
      && after == before.(active := true, goal := after.goal, log := after.log)
      && before.log <= after.log
      && after.goal.value.body == (if before.goal.Some? && body == "" then before.goal.value.body else body)
      && after.goal.value.waiting == (if before.goal.Some? then before.goal.value.waiting else None)
      && (NobodyManages(s, sid) ==> (HasReady(s2.readiness, sid, GoalManager) <==> NotHeldBack(after, later)))
  {
    hide Inv;
    hide LeaseInv;
    hide Refreshes;
    hide LinkedUnder;
    hide WaitFires;
    hide Woken;
    StepKeepsInv(s, ActivateSingleton(sid, parents, body), now, s');
    CursorInLog(s, sid);
    LeaseOf(s');
    ActivationWakes(s.sessions[sid], body, HasAcquiredRun(s'.runs, sid, WorkerAgent));
    if NobodyManages(s, sid) {
      HeardUnlessWaiting(s', s2, later, sid);
    }
  }

  lemma ActivationWakes(s: Session, body: string, activeWorker: bool)
    requires Cursor(s, GoalManager) <= |s.log|
    ensures Woken(Activated(s, body), GoalManager, activeWorker)
  {
    assert Activated(s, body).log[|s.log|] == GM_SIGNAL;
    EntryWakes(Activated(s, body), |s.log|, activeWorker);
  }

  // ---------------------------------------------------------------- messages and declarations

  /** A message that is let in is appended and nothing else happens. None passes as user input, as forwarded or
      put off, or as a schedule update. Without an agent's slot it is plain and not from an agent. With one it
      comes from that slot or a user; a Worker writes to its Session only, and work is requested by
      GoalManagers of their Session only; and who names a run with an account of its own is that account. */
  lemma PostIsExact(s: State, now: int, s': State, sid: SessionId, m: Entry)
    requires Step(s, Post(sid, m), now, s')
    ensures
      if
        && sid < |s.sessions| && m.Message?
        && (if m.payload.agentRole.None? then m.payload == PLAIN && (m.sender.UserSender? || m.sender == OtherSender)
            else
              && m.payload == PLAIN.(workerRequest := m.payload.workerRequest, agentRole := m.payload.agentRole,
                                     runId := m.payload.runId, wakeEvents := m.payload.wakeEvents)
              && (m.sender.UserSender? || m.sender == AgentSender(m.payload.agentRole.value))
              && (m.payload.workerRequest ==> m.payload.agentRole == Some(GoalManager))
              && (m.payload.workerRequest || m.payload.agentRole == Some(WorkerAgent) ==> m.toSession)
              && forall r | 0 <= r < |s.runs| && m.payload.runId == Some(r) && s.runs[r].agentUser.Some? ::
                   m.sender == UserSender(s.runs[r].agentUser.value))
      then s' == s.(sessions := s.sessions[sid := s.sessions[sid].(log := s.sessions[sid].log + [m])])
      else s' == s
  {
    hide Refreshes;
    hide Acquires;
    hide Ended;
    hide Recovered;
    hide AfterReplay;
    hide SessionGraph.RootRepaired;
    hide LinkedUnder;
  }

  /** A GoalManager run that holds its lease decides once. It may declare its goal complete or incomplete only
      while its body is the one it has seen and everything behind its window is its own; it may wait for a
      time to come, for an event with a name or for a known child, from the end of the log on. */
  lemma DeclarationIsExact(s: State, now: int, s': State, r: RunId, d: Protocol.Decision)
    requires Inv(s) && Step(s, Declare(r, d), now, s')
    ensures
      if
        && r < |s.runs| && s.runs[r].role == GoalManager && s.runs[r].lease == Acquired && s.runs[r].declared.None?
        && (d.DecideWaiting? ==>
              && (d.kind.Deadline? ==> now < d.kind.until)
              && (d.kind.OnEvent? ==> d.kind.name != "")
              && (d.kind.OnChild? ==> d.kind.child < |s.sessions|))
        && (!d.DecideWaiting? ==>
              && s.runs[r].session < |s.sessions| && s.sessions[s.runs[r].session].goal.Some?
              && s.sessions[s.runs[r].session].goal.value.body == s.runs[r].observedBody
              && forall k | s.runs[r].window.toSeq <= k < |s.sessions[s.runs[r].session].log| ::
                   var e := s.sessions[s.runs[r].session].log[k];
                   && !e.GoalBodyUpdated? && !e.ChildGoalCompleted?
                   && (e.Message? ==> e.payload.runId == Some(r))
                   && (e.GoalStateChanged? ==> e.run == Some(r)))
      then
        && s.runs[r].session < |s.sessions|
        && s' == s.(runs := s.runs[r := s.runs[r].(declared := Some(
             if d.DecideComplete? then DeclaredComplete(d.nextRunAt)
             else if d.DecideIncomplete? then DeclaredIncomplete
             else DeclaredWaiting(d.kind, |s.sessions[s.runs[r].session].log|)))])
      else s' == s
  {
    hide Inv;
    hide Refreshes;
    hide Acquires;
    hide Ended;
    hide Recovered;
    hide AfterReplay;
    hide SessionGraph.RootRepaired;
    hide LinkedUnder;
    hide FirstConflict;
    hide MayPost;
    if r < |s.runs| && s.runs[r].lease == Acquired {
      RunFacts(s, r);
      FenceIsExact(s, r);
    }
  }

  /** A schedule is set exactly when the Session's Unit has an enabled one and the resolver answers; the answer is
      the Unit's next run time, and the log says so in the author's name. */
  lemma ScheduleIsExact(s: State, now: int, s': State, sid: SessionId, author: Option<RunId>, next: Option<int>,
                        timing: Schedule.Timing)
    requires Step(s, ScheduleNext(sid, author, next, timing), now, s')
    ensures
      var owner := if sid < |s.sessions| then s.sessions[sid].unit else None;
      var scheduled := owner.Some? && owner.value < |s.units| && s.units[owner.value].schedule.Some?
        && s.units[owner.value].schedule.value.enabled
        && Schedule.Resolve(s.units[owner.value].schedule.value, timing, next, now).Ok?;
      if !scheduled then s' == s
      else
        var unit := s.units[owner.value];
        var time := Schedule.Resolve(unit.schedule.value, timing, next, now).value;
        s' == s.(
          units := s.units[owner.value := unit.(schedule := Some(unit.schedule.value.(nextRunAt := Some(time))))],
          sessions := s.sessions[sid := s.sessions[sid].(log := s.sessions[sid].log
            + [Message(PLAIN.(scheduleUpdate := true, runId := author), AgentSender(GoalManager), true)])])
  {
    hide Refreshes;
    hide Acquires;
    hide Ended;
    hide Recovered;
    hide AfterReplay;
    hide SessionGraph.RootRepaired;
    hide LinkedUnder;
    hide Schedule.Resolve;
  }
}
