/** User input beside a running Worker (src/goal/messages.py, `_append_user_input_locked`): it is forwarded to
    that run, and whatever the run makes of it, the message is read by a later Worker run. */
module Forwarding {
  import opened Wrappers
  import opened DispatchModel
  import opened Projection
  import opened SelectionPolicy
  import opened Protocol
  import opened LeaseInvariant
  import opened GoalInvariant
  import opened StepInvariant
  import opened CommitInvariant
  import opened Preservation
  import opened WindowTiling
  import opened Behaviours
  import opened Liveness
  import opened Requirements
  import opened Signatures
  import opened Leases

  /** What user input leaves in the log, for every state of the goal: the input itself, and beside a running
      Worker a message that names that run and wakes the Worker, behind the run's window. The goal is open
      afterwards and waits for nothing. */
  lemma InputReachesTheWorker(s: State, now: int, s': State, sid: SessionId, worker: Option<RunId>) returns (k: nat)
    requires Inv(s) && Step(s, UserInput(sid, worker), now, s') && sid < |s.sessions|
    requires worker.Some? ==>
      && worker.value < |s.runs| && s.runs[worker.value].lease == Acquired
      && s.runs[worker.value].session == sid && s.runs[worker.value].role == WorkerAgent
    requires worker.None? ==> !HasAcquiredRun(s.runs, sid, WorkerAgent)
    ensures s'.runs == s.runs && |s'.sessions| == |s.sessions| && s.sessions[sid].log <= s'.sessions[sid].log
    ensures s'.sessions[sid].goal.Some? && !s'.sessions[sid].goal.value.complete
    ensures s'.sessions[sid].goal.value.waiting.None?
    ensures s.sessions[sid].goal.Some? ==> s'.sessions[sid].goal.value.body == s.sessions[sid].goal.value.body
    ensures
      var n, log' := |s.sessions[sid].log|, s'.sessions[sid].log;
      && n < |log'| && log'[n].Message? && log'[n].payload.userInput && log'[n].payload.runId.None?
      && (worker.Some? ==>
            && s.runs[worker.value].window.toSeq <= n <= k < |log'|
            && log'[k].Message? && log'[k].payload.userInput && log'[k].payload.runId == worker
            && WakeOf(log'[k], WorkerAgent, true).Some?)
  {
    hide Inv;
    hide Acquires;
    hide Refreshes;
    hide Ended;
    hide Recovered;
    hide AfterReplay;
    hide MayPost;
    hide HomesOk;
    hide OwnersRepaired;
    hide LinkedUnder;
    k := |s'.sessions[sid].log| - 1;
    if worker.Some? {
      AcquiredWindow(s, worker.value);
    }
  }

  /** All that user input writes. */
  lemma InputEntries(s: State, now: int, s': State, sid: SessionId, worker: Option<RunId>)
    requires Step(s, UserInput(sid, worker), now, s') && sid < |s.sessions| && IsActiveWorker(s, sid, worker)
    ensures
      var before, beside := s.sessions[sid], worker.Some?;
      var waited := before.goal.Some? && before.goal.value.waiting.Some?;
      && s' == s.(sessions := s.sessions[sid := s'.sessions[sid]]) && |s'.sessions| == |s.sessions|
      && s'.sessions[sid] == before.(goal := s'.sessions[sid].goal, log := s'.sessions[sid].log)
      && s'.sessions[sid].goal == Some(Goal(
           if before.goal.Some? then before.goal.value.body else "Reply to user input sent to this Session.", false, None))
      && s'.sessions[sid].log == before.log
           + [Message(PLAIN.(userInput := true, workerFollowup := beside, deferGoalManager := beside), OtherSender, true)]
           + (if waited then [SystemSignal({GoalManager}, None)] else [])
           + [GoalStateChanged(Incomplete, false, None, beside)]
           + (if beside
              then [Message(PLAIN.(userInput := true, workerFollowup := true, workerRequest := true, runId := worker), OtherSender, true)]
              else [])
  {
    hide Acquires;
    hide Refreshes;
    hide Ended;
    hide Recovered;
    hide AfterReplay;
    hide MayPost;
    hide HomesOk;
    hide OwnersRepaired;
    hide LinkedUnder;
    hide HasAcquiredRun;
    var worked := WithUserInput(s.sessions[sid], worker);
    assert s'.sessions[sid] == worked;
  }

  /** Input put off for a Worker stays put off: unless it ended a wait, none of its entries wakes the GoalManager,
      neither while the Worker runs nor after; what the Worker reports does. */
  lemma DeferralHolds(s: State, now: int, s': State, sid: SessionId, w: RunId, activeWorker: bool)
    requires Inv(s) && Step(s, UserInput(sid, Some(w)), now, s') && sid < |s.sessions| && IsActiveWorker(s, sid, Some(w))
    requires s.sessions[sid].goal.Some? ==> s.sessions[sid].goal.value.waiting.None?
    ensures Woken(s'.sessions[sid], GoalManager, activeWorker) <==> Woken(s.sessions[sid], GoalManager, activeWorker)
  {
    hide Inv;
    hide Step;
    InputEntries(s, now, s', sid, Some(w));
    NoNewWake(s.sessions[sid], s'.sessions[sid], activeWorker);
  }

  /** Runs keep their Session, role and window, and logs are only extended, from any state of a run of the
      protocol to any later one. */
  lemma {:induction false} LaterStates(states: seq<State>, moments: seq<Moment>, i: nat, j: nat)
    requires IsBehaviour(states, moments) && i <= j < |states|
    ensures |states[i].runs| <= |states[j].runs| && |states[i].sessions| <= |states[j].sessions|
    ensures forall q | 0 <= q < |states[i].runs| ::
      states[j].runs[q].session == states[i].runs[q].session && states[j].runs[q].role == states[i].runs[q].role
      && states[j].runs[q].window == states[i].runs[q].window
    ensures forall sid | 0 <= sid < |states[i].sessions| :: states[i].sessions[sid].log <= states[j].sessions[sid].log
  {
    hide IsBehaviour;
    hide Inv;
    hide AllTiled;
    hide Step;
    if i < j {
      LaterStates(states, moments, i, j - 1);
      AlwaysInv(states, moments, j - 1);
      BehaviourStep(states, moments, j - 1);
      StepExtends(states[j - 1], moments[j - 1].event, moments[j - 1].now, states[j]);
    }
  }

  /** A message that names a Worker run and lies behind its window is not lost: in every later state in which
      nobody runs the Worker, another Worker run has read it, or the next refresh of an active goal that
      does not wait makes the Worker ready with the message in its window. */
  lemma ForwardedInputIsRead(states: seq<State>, moments: seq<Moment>, i: nat, j: nat, sid: SessionId, w: RunId, k: nat,
                             s': State, later: int)
    requires IsBehaviour(states, moments) && i <= j < |states|
    requires w < |states[i].runs| && states[i].runs[w].session == sid && states[i].runs[w].role == WorkerAgent
    requires sid < |states[i].sessions| && states[i].runs[w].window.toSeq <= k < |states[i].sessions[sid].log|
    requires WakeOf(states[i].sessions[sid].log[k], WorkerAgent, true).Some?
    requires sid < |states[j].sessions| && Dispatchable(states[j].sessions[sid])
    requires !HasAcquiredRun(states[j].runs, sid, WorkerAgent) && Refreshes(states[j], s', later)
    ensures
      || (exists q: nat | q < |states[j].runs| && q != w ::
            && states[j].runs[q].session == sid && states[j].runs[q].role == WorkerAgent && states[j].runs[q].lease == Released
            && states[j].runs[q].window.fromSeq <= k + 1 <= states[j].runs[q].window.toSeq)
      || (&& HasReady(s'.readiness, sid, WorkerAgent)
          && forall e | e in s'.readiness && e.status == Ready && IsFor(e, sid, WorkerAgent) ::
               e.window.fromSeq <= k + 1 <= e.window.toSeq)
  {
    hide IsBehaviour;
    hide Inv;
    hide AllTiled;
    hide Refreshes;
    hide WakeOf;
    hide Cursor;
    hide Dispatchable;
    var s := states[j];
    LaterStates(states, moments, i, j);
    WindowsTileTheLog(states, moments, j, sid, WorkerAgent);
    AlwaysInv(states, moments, j);
    assert s.sessions[sid].log[k] == states[i].sessions[sid].log[k];
    if k + 1 <= Cursor(s.sessions[sid], WorkerAgent) {
      assert Observed(s.runs, sid, WorkerAgent, k + 1);
      var q: nat :| Observes(s.runs, q, sid, WorkerAgent, k + 1);
      assert s.runs[q].lease == Released;
    } else {
      UnreadIsReady(s, s', later, sid, k);
    }
  }

  /** An unread entry that wakes the Worker is in its window after a refresh. */
  lemma UnreadIsReady(s: State, s': State, now: int, sid: SessionId, k: nat)
    requires Inv(s) && Refreshes(s, s', now) && sid < |s.sessions| && Dispatchable(s.sessions[sid])
    requires !HasAcquiredRun(s.runs, sid, WorkerAgent)
    requires Cursor(s.sessions[sid], WorkerAgent) <= k < |s.sessions[sid].log|
    requires WakeOf(s.sessions[sid].log[k], WorkerAgent, true).Some?
    ensures HasReady(s'.readiness, sid, WorkerAgent)
    ensures forall e | e in s'.readiness && e.status == Ready && IsFor(e, sid, WorkerAgent) ::
      e.window.fromSeq <= k + 1 <= e.window.toSeq
  {
    NothingTaken(s, sid, WorkerAgent);
    hide Inv;
    hide ReadinessRefreshed;
    hide WorkerWake;
    RefreshedList(s, s', now);
    assert s'.sessions[sid] == Expired(s.sessions[sid], now);
    assert WakeOf(s.sessions[sid].log[k], WorkerAgent, false).Some?;
    RefreshFollowsTheLog(s'.sessions, s.runs, s.readiness, s'.readiness, s.nextReadiness, s'.nextReadiness, now, sid, WorkerAgent);
  }

  lemma NothingTaken(s: State, sid: SessionId, role: Role)
    requires Inv(s) && !HasAcquiredRun(s.runs, sid, role)
    ensures !HasTakenReadiness(s.readiness, sid, role)
  {
    hide GoalsOk;
    forall e | e in s.readiness && e.status == Taken
      ensures !IsFor(e, sid, role)
    {
      var r :| r in s.runs && Owns(r, e);
    }
  }

  /** User input that came while a Worker was running is what the Worker runs for next. In the first state in
      which that run no longer holds its lease, and whose goal is active and does not wait, either another
      Worker run has taken its place in that very step, with the forwarded message in its window, or the next
      refresh makes the Worker ready with the message in its window. */
  lemma InputOutlivesTheWorker(states: seq<State>, moments: seq<Moment>, i: nat, j: nat, sid: SessionId, w: RunId,
                               s': State, later: int) returns (k: nat)
    requires IsBehaviour(states, moments) && i + 1 < j < |states| == |moments| + 1
    requires moments[i].event == UserInput(sid, Some(w)) && sid < |states[i].sessions|
    requires w < |states[i].runs| && states[i].runs[w].session == sid && states[i].runs[w].role == WorkerAgent
    requires forall t | i <= t < j :: w < |states[t].runs| && states[t].runs[w].lease == Acquired
    requires w < |states[j].runs| && states[j].runs[w].lease != Acquired
    requires sid < |states[j].sessions| && Dispatchable(states[j].sessions[sid]) && Refreshes(states[j], s', later)
    ensures
      var n, log := |states[i].sessions[sid].log|, states[j].sessions[sid].log;
      n <= k < |log| && log[k].Message? && log[k].payload.userInput && log[k].payload.runId == Some(w)
    ensures forall q | q in states[j].runs && RunsFor(q, sid, WorkerAgent) :: q.window.fromSeq <= k + 1 <= q.window.toSeq
    ensures HasAcquiredRun(states[j].runs, sid, WorkerAgent) || HasReady(s'.readiness, sid, WorkerAgent)
    ensures forall e | e in s'.readiness && e.status == Ready && IsFor(e, sid, WorkerAgent) ::
      e.window.fromSeq <= k + 1 <= e.window.toSeq
  {
    hide IsBehaviour;
    hide AllTiled;
    hide Refreshes;
    hide WakeOf;
    hide Inv;
    hide Step;
    hide Cursor;
    hide Dispatchable;
    BehaviourStep(states, moments, i);
    BehaviourStep(states, moments, j - 1);
    AlwaysInv(states, moments, i);
    AlwaysInv(states, moments, j - 1);
    AlwaysInv(states, moments, j);
    LaterStates(states, moments, i, j - 1);
    LaterStates(states, moments, i + 1, j);
    k := InputReachesTheWorker(states[i], moments[i].now, states[i + 1], sid, Some(w));
    assert states[j].sessions[sid].log[k] == states[i + 1].sessions[sid].log[k];
    ReleasedBefore(states[j - 1], moments[j - 1].event, moments[j - 1].now, states[j], sid, w, k);
    if HasAcquiredRun(states[j].runs, sid, WorkerAgent) {
      TakenOver(states[j - 1], moments[j - 1].event, moments[j - 1].now, states[j], sid, w);
      NothingReadyBeside(states[j], s', later, sid, WorkerAgent);
    } else {
      UnreadIsReady(states[j], s', later, sid, k);
    }
  }

  /** A Worker run that holds its lease right after another one has lost it was leased in that step, for
      everything unread. */
  lemma TakenOver(s: State, ev: Event, now: int, s': State, sid: SessionId, w: RunId)
    requires Inv(s) && Step(s, ev, now, s') && w < |s.runs| && w < |s'.runs| && s'.runs[w].lease != Acquired
    requires RunsFor(s.runs[w], sid, WorkerAgent) && sid < |s'.sessions| && Dispatchable(s'.sessions[sid])
    ensures forall q | q in s'.runs && RunsFor(q, sid, WorkerAgent) ::
      q.window.fromSeq == Cursor(s'.sessions[sid], WorkerAgent) + 1 && q.window.toSeq == |s'.sessions[sid].log|
  {
    hide Inv;
    hide Step;
    hide Cursor;
    hide WakeOf;
    StepSettles(s, ev, now, s');
    StepExtends(s, ev, now, s');
    OneRunOf(s);
    forall q | q in s'.runs && RunsFor(q, sid, WorkerAgent)
      ensures q.window.fromSeq == Cursor(s'.sessions[sid], WorkerAgent) + 1 && q.window.toSeq == |s'.sessions[sid].log|
    {
      var i :| 0 <= i < |s'.runs| && s'.runs[i] == q;
      if i < |s.runs| {
        assert false;
      }
      NewRunIsLeased(s, ev, now, s');
      LeaseIsEarned(s, s', ev.filter, now, |s.runs|, ev.outcome.chosen, ev.outcome.agentUser);
      assert i == |s.runs|;
    }
  }

  /** Only an acquisition adds a run. */
  lemma NewRunIsLeased(s: State, ev: Event, now: int, s': State)
    requires Inv(s) && Step(s, ev, now, s') && |s'.runs| > |s.runs|
    ensures ev.Acquire? && Accepted(s, ev, now) && ev.outcome.LeaseTaken? && ev.outcome.run == |s.runs|
  {
    hide Inv;
    hide Refreshes;
    hide Ended;
    hide Reconciles;
    hide IsChoice;
    hide Candidate;
    hide MayPost;
    hide HomesOk;
    hide OwnersRepaired;
    hide LinkedUnder;
    hide Recovered;
    if Accepted(s, ev, now) {
      if ev.AgentEnds? {
        EndsOneRun(s, ev.run, ev.end, now);
      } else if ev.Acquire? {
        var repaired, ready :| AcquiresVia(s, repaired, ready, s', ev.filter, now, ev.outcome);
        AcquireShape(s, repaired, ready, now);
      } else if ev.Refresh? || ev.Reload? {
        RefreshedRuns(s, ev, now, s');
      } else if ev.Recover? {
        RecoveredRuns(s);
      }
    }
  }

  lemma RecoveredRuns(s: State)
    ensures |Recovered(s).runs| == |s.runs|
  {
  }

  /** Nothing gets ready for a role that is being run. */
  lemma NothingReadyBeside(s: State, s': State, now: int, sid: SessionId, role: Role)
    requires Inv(s) && Refreshes(s, s', now) && HasAcquiredRun(s.runs, sid, role)
    ensures !HasReady(s'.readiness, sid, role)
  {
    RefreshKeepsInv(s, s', now);
    RefreshedList(s, s', now);
    assert NoClash(s'.runs, s'.readiness) by {
      assert LeaseInv(s'.sessions, s'.runs, s'.readiness, s'.nextReadiness);
    }
  }

  /** The step that ends a run leaves its role's cursor inside that run's window. */
  lemma ReleasedBefore(s: State, ev: Event, now: int, s': State, sid: SessionId, w: RunId, k: nat)
    requires Inv(s) && Step(s, ev, now, s') && w < |s.runs| && s.runs[w].lease == Acquired
    requires s.runs[w].session == sid < |s.sessions| && s.runs[w].window.toSeq <= k
    ensures sid < |s'.sessions| && Cursor(s'.sessions[sid], s.runs[w].role) <= k
  {
    StepSettles(s, ev, now, s');
    AcquiredWindow(s, w);
    OneRunOf(s);
    hide Inv;
    hide Step;
    hide Cursor;
  }

  lemma OneRunOf(s: State)
    requires Inv(s)
    ensures OneRun(s.runs)
  {
  }
}
