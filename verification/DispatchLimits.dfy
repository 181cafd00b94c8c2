/** Runs of the protocol that end where the dispatcher or the startup replay misses what it is for. */
module DispatchLimits {
  import opened Wrappers
  import opened DispatchModel
  import opened Projection
  import opened SelectionPolicy
  import opened Protocol
  import opened Replay
  import opened StepInvariant
  import opened Behaviours
  import opened Liveness
  import opened Requirements
  import opened LogAuthority
  import opened Care
  import opened Scenarios
  import opened Runtime
  import Schedule

  const NO_TIMING := Schedule.Timing(None, None, None)
  const READY_WINDOW := Window(1, 1, [WakeReason(1, GoalIncomplete, None)], None)

  lemma OpenedWindows()
    ensures OneOpening(Opened(), GoalManager, READY_WINDOW)
  {
    var s := Opened();
    assert s.sessions[0].log == [MarkedIncomplete(false, None)];
    OpenedWindow();
  }

  lemma OpenedWindow()
    ensures Derive([MarkedIncomplete(false, None)], 0, GoalManager, false) == Some(READY_WINDOW)
    ensures Derive([MarkedIncomplete(false, None)], 0, WorkerAgent, false) == None
  {
    var log := [MarkedIncomplete(false, None)];
    assert log[..0] == [];
    assert Wakes(log, 0, GoalManager, false) == Wakes([], 0, GoalManager, false) + [WakeReason(1, GoalIncomplete, None)];
    assert Wakes(log, 0, GoalManager, false) == [WakeReason(1, GoalIncomplete, None)];
    assert Available([WakeReason(1, GoalIncomplete, None)]) == None;
    assert Wakes(log, 0, WorkerAgent, false) == [] + [];
  }

  /** The first GoalManager run of the Session. */
  function Managed(): State {
    Dispatched(Opened(), GoalManager, READY_WINDOW, None, 0)
  }

  lemma ManagedIsReached()
    ensures Reached(Managed(), 0)
  {
    OpenedIsReached();
    OpenedWindows();
    hide Reached;
    hide Step;
    OneIsAcquired(Opened(), GoalManager, READY_WINDOW, None, 0);
    ReachedNext(Opened(), 0, Acquire(None, LeaseTaken(0, 0, None)), 0, Managed());
  }

  /** It declares, and ends. */
  function AfterTurn(d: Protocol.Decision): State {
    Ended(Declared(Managed(), 0, d), 0, Returned(NO_TIMING, false), 0)
  }

  lemma TurnIsReached(d: Protocol.Decision)
    requires d == DecideIncomplete || d == DecideWaiting(Deadline(100))
    ensures Reached(AfterTurn(d), 0) && Fence(Declared(Managed(), 0, d), 0).None?
  {
    ManagedIsReached();
    hide Reached;
    var s := Managed();
    var declared := Declared(s, 0, d);
    assert FirstConflict(s.sessions[0].log, 1, 0) == None;
    assert Step(s, Declare(0, d), 0, declared);
    ReachedNext(s, 0, Declare(0, d), 0, declared);
    assert FirstConflict(declared.sessions[0].log, 1, 0) == None;
    ReachedNext(declared, 0, AgentEnds(0, Returned(NO_TIMING, false)), 0, AfterTurn(d));
  }

  // ---------------------------------------------------------------- a new requirement during a wait

  function ManagerRun(declared: Declaration): Run {
    Run(0, GoalManager, Released, 0, None, 0, "old", READY_WINDOW, Some(declared), FinishedIncomplete, 0)
  }

  /** A goal that waits for the time 100. */
  function WaitingState(): State {
    var log := [MarkedIncomplete(false, None), GoalStateChanged(Waiting, false, Some(0), false)];
    var goal := Goal("old", false, Some(Wait(Deadline(100), 1, 0)));
    State([Session(true, Some(0), NORMAL, Some(goal), 1, 0, log)], [WorkUnit(true, None)], [],
          [ManagerRun(DeclaredWaiting(Deadline(100), 1))], [Readiness(0, 0, GoalManager, Resolved, 0, READY_WINDOW)], 1)
  }

  lemma WaitingIsReached()
    ensures Reached(WaitingState(), 0)
  {
    hide Reached;
    TurnIsReached(DecideWaiting(Deadline(100)));
    var s, after := WaitingState(), AfterTurn(DecideWaiting(Deadline(100)));
    assert after.sessions[0].log == s.sessions[0].log;
    assert after.sessions == s.sessions && after.runs == s.runs && after.readiness == s.readiness;
  }

  /** A body revised at time 0 is in the log, fences every result, leaves the goal incomplete, and at time
      10 no refresh makes the GoalManager ready for it. */
  lemma RevisionIsNotHeard()
    ensures
      var s := WaitingState();
      var s1 := At(s, 0, WithGoalBody(s.sessions[0], "new"));
      && Reached(s, 0) && Step(s, UpdateGoal(0, "new"), 0, s1)
      && s1.sessions[0].log[2] == GoalBodyUpdated
      && forall s2 | Refreshes(s1, s2, 10) :: !HasReady(s2.readiness, 0, GoalManager)
  {
    hide Refreshes;
    hide HasReady;
    hide Reached;
    var s := WaitingState();
    var s1 := At(s, 0, WithGoalBody(s.sessions[0], "new"));
    WaitingIsReached();
    ReachedHolds(s, 0);
    hide Inv;
    forall s2 | Refreshes(s1, s2, 10)
      ensures !HasReady(s2.readiness, 0, GoalManager)
    {
      RevisedBodyIsHeard(s, 0, s1, s2, 10, 0, "new");
    }
  }

  // ---------------------------------------------------------------- a wait that a crash brings back

  /** User input ends the wait, and the crash comes before the metadata is written: the input is in the log,
      and until time 100 neither the recovery nor any refresh makes the GoalManager ready for it. */
  lemma CancelledWaitComesBack()
    ensures
      var s := WaitingState();
      var s1 := At(s, 0, WithUserInput(s.sessions[0], None));
      var logs := [s1.sessions[0].log];
      && Reached(s, 0) && Step(s, UserInput(0, None), 0, s1)
      && s1.sessions[0].goal.value.waiting == None && Survived(s, logs)
      && forall b, d | Refreshes(Reloaded(s, logs), b, 0) && Refreshes(Recovered(b), d, 10) ::
           !HasReady(d.readiness, 0, GoalManager)
  {
    hide Refreshes;
    hide HasReady;
    hide Reached;
    hide Recovered;
    var s := WaitingState();
    var s1 := At(s, 0, WithUserInput(s.sessions[0], None));
    var logs := [s1.sessions[0].log];
    WaitingIsReached();
    ReachedHolds(s, 0);
    assert IsActiveWorker(s, 0, None);
    assert Step(s, UserInput(0, None), 0, s1);
    ReopenedLog(s1.sessions[0].log);
    hide Inv;
    hide Step;
    forall b, d | Refreshes(Reloaded(s, logs), b, 0) && Refreshes(Recovered(b), d, 10)
      ensures !HasReady(d.readiness, 0, GoalManager)
    {
      RestartIsHeard(s, logs, b, d, 0, 10, 0);
    }
  }

  lemma ReopenedLog(log: seq<Entry>)
    requires log == WithUserInput(WaitingState().sessions[0], None).log
    ensures !Replayed(false, log) && ReplayedActive(true, log)
  {
    var n := |log|;
    assert log[n - 1] == MarkedIncomplete(false, None);
    NoActivationReplay(true, log);
  }

  // ---------------------------------------------------------------- a report under another slot's name

  const REQUEST_WINDOW := Window(1, 3, [WakeReason(3, WakeKind.WorkerRequest, None)], None)

  const ASKED := [MarkedIncomplete(false, None), MarkedIncomplete(true, Some(0)),
                  ImplicitRequest(0, ManagerRun(DeclaredIncomplete))]

  /** The GoalManager has asked for work. */
  function RequestedState(): State {
    State([Session(true, Some(0), NORMAL, Some(Goal("old", false, None)), 1, 0, ASKED)], [WorkUnit(true, None)], [],
          [ManagerRun(DeclaredIncomplete)], [Readiness(0, 0, GoalManager, Resolved, 0, READY_WINDOW)], 1)
  }

  lemma RequestedIsReached()
    ensures Reached(RequestedState(), 0)
  {
    hide Reached;
    TurnIsReached(DecideIncomplete);
    assert !WorkerRequested(Declared(Managed(), 0, DecideIncomplete), 0, 0);
    var s, after := RequestedState(), AfterTurn(DecideIncomplete);
    assert after.sessions[0].log == s.sessions[0].log;
    assert after.sessions == s.sessions && after.runs == s.runs && after.readiness == s.readiness;
  }

  lemma RequestedOpening()
    ensures OneOpening(RequestedState(), WorkerAgent, REQUEST_WINDOW)
  {
    RequestedWindow();
    hide Derive;
    var s := RequestedState();
    forall role | role != WorkerAgent
      ensures Projected(s.sessions, s.runs, 0, role) == None
    {
      assert role == GoalManager;
    }
  }

  lemma RequestedWindow()
    ensures Derive(ASKED, 1, GoalManager, false) == None
    ensures Derive(ASKED, 0, WorkerAgent, false) == Some(REQUEST_WINDOW)
  {
    var log := ASKED;
    assert log[..2][..1] == log[..1] && log[..1][..0] == [];
    assert Wakes(log[..1], 1, GoalManager, false) == [];
    assert Wakes(log[..2], 1, GoalManager, false) == [];
    assert Wakes(log, 1, GoalManager, false) == [];
    assert Wakes(log[..1][..0], 0, WorkerAgent, false) == [];
    assert Wakes(log[..1], 0, WorkerAgent, false) == [];
    assert Wakes(log[..2], 0, WorkerAgent, false) == [];
    assert Wakes(log, 0, WorkerAgent, false) == [WakeReason(3, WakeKind.WorkerRequest, None)];
    assert Available([WakeReason(3, WakeKind.WorkerRequest, None)]) == None;
  }

  /** What the Worker's account says in the name of its run, from the GoalManager's slot. */
  const MISCLAIMED := Message(PLAIN.(agentRole := Some(GoalManager), runId := Some(1)), UserSender(7), true)

  /** The Worker has spoken under the other slot only. */
  function MisclaimedState(): State {
    var working := Dispatched(RequestedState(), WorkerAgent, REQUEST_WINDOW, Some(7), 0);
    At(working, 0, Appended(working.sessions[0], [MISCLAIMED]))
  }

  lemma MisclaimedIsReached()
    ensures Reached(MisclaimedState(), 0)
  {
    hide Reached;
    hide OneOpening;
    RequestedIsReached();
    RequestedOpening();
    var s := RequestedState();
    var working := Dispatched(s, WorkerAgent, REQUEST_WINDOW, Some(7), 0);
    OneIsAcquired(s, WorkerAgent, REQUEST_WINDOW, Some(7), 0);
    ReachedNext(s, 0, Acquire(None, LeaseTaken(1, 0, Some(7))), 0, working);
    assert MayPost(working.runs, MISCLAIMED);
    assert Step(working, Post(0, MISCLAIMED), 0, MisclaimedState());
    ReachedNext(working, 0, Post(0, MISCLAIMED), 0, MisclaimedState());
  }

  /** Its turn has ended, and its Unit is paused. */
  function DroppedState(): State {
    var done := CommitWorker(MisclaimedState(), 1, false, 0);
    done.(units := [WorkUnit(false, None)])
  }

  lemma MisclaimedIsReported()
    ensures
      var s := MisclaimedState();
      && Fence(s, 1).None? && Reported(s, 1, false)
      && forall k: nat :: !HeardReport(s, 1, k)
  {
    var s := MisclaimedState();
    var log := s.sessions[0].log;
    assert FirstConflict(log, 3, 1) == FirstConflict(log, 4, 1);
    assert log + [] == log && log[3] == MISCLAIMED && IsReport(log[3], 1, s.runs[1]);
    assert log[3] in log + [];
  }

  lemma DroppedIsReached()
    ensures Reached(DroppedState(), 0) && |DroppedState().sessions| == 1
    ensures DroppedState().sessions[0] ==
      Session(true, Some(0), NORMAL, Some(Goal("old", false, None)), 1, 3, ASKED + [MISCLAIMED])
    ensures forall r | r in DroppedState().runs :: r.lease == Released
  {
    hide Reached;
    hide Step;
    MisclaimedIsReached();
    WorkerIsDone();
    var s, end := MisclaimedState(), Returned(NO_TIMING, false);
    var done := CommitWorker(s, 1, false, 0);
    ReachedNext(s, 0, AgentEnds(1, end), 0, done);
    ReachedNext(done, 0, SetUnitActive(0, false), 0, DroppedState());
  }

  lemma WorkerIsDone()
    ensures
      var s, end := MisclaimedState(), Returned(NO_TIMING, false);
      var done := CommitWorker(s, 1, false, 0);
      && Step(s, AgentEnds(1, end), 0, done) && Step(done, SetUnitActive(0, false), 0, DroppedState())
      && |done.sessions| == 1 && (forall r | r in done.runs :: r.lease == Released)
      && done.sessions[0] == Session(true, Some(0), NORMAL, Some(Goal("old", false, None)), 1, 3, ASKED + [MISCLAIMED])
  {
    hide IsReport;
    hide FirstConflict;
    hide MayPost;
    hide HomesOk;
    hide OwnersRepaired;
    MisclaimedIsReported();
    assert ASKED + [MISCLAIMED] + [] == ASKED + [MISCLAIMED];
  }

  /** A Worker whose only report claims another slot: its turn passes the fence and counts as reported, and
      leaves the open goal to nobody; in a paused Unit every repair leaves the Session uncovered. */
  lemma MisclaimedReportDropsTheGoal()
    ensures
      var s := MisclaimedState();
      Reached(s, 0) && Fence(s, 1).None? && !Heard(s, AgentEnds(1, Returned(NO_TIMING, false)))
    ensures
      var s := DroppedState();
      && Reached(s, 0) && |s.sessions| == 1 && Dispatchable(s.sessions[0]) && !InHand(s.sessions[0], s.runs, 0)
      && forall s', now | Reconciles(s, s', now) ::
           0 < |s'.sessions| && ActiveIncomplete(s'.sessions[0]) && !IsCovered(s', 0, now)
  {
    hide ReconcilesVia;
    hide IsCovered;
    hide Reached;
    hide Fence;
    hide HeardReport;
    hide CommitWorker;
    MisclaimedIsReached();
    MisclaimedIsReported();
    DroppedIsReached();
    var s := DroppedState();
    ReachedHolds(s, 0);
    hide Inv;
    NothingStirs();
    forall s', now | Reconciles(s, s', now)
      ensures 0 < |s'.sessions| && ActiveIncomplete(s'.sessions[0]) && !IsCovered(s', 0, now)
    {
      var mid :| ReconcilesVia(s, mid, s', now);
      RepairCoversExactly(s, mid, s', now, 0);
    }
  }

  lemma NothingStirs()
    ensures |DroppedState().sessions| == 1 && !InHand(DroppedState().sessions[0], DroppedState().runs, 0)
  {
    hide Reached;
    DroppedIsReached();
    hide CommitWorker;
    var session := DroppedState().sessions[0];
    assert session.log == ASKED + [MISCLAIMED];
    forall k | 1 <= k < |session.log|
      ensures GoalManagerWake(session.log[k], false).None? && (k == 3 ==> WorkerWake(session.log[k]).None?)
    {
    }
  }

  // ---------------------------------------------------------------- one paused Unit in front of the queue

  const QUEUE := [Readiness(0, 0, GoalManager, Ready, 0, READY_WINDOW), Readiness(1, 1, GoalManager, Ready, 0, READY_WINDOW)]

  /** Two Sessions with new goals, each in its own Unit. */
  function TwoOpened(firstActive: bool, list: seq<Readiness>, next: nat): State {
    var log := [MarkedIncomplete(false, None)];
    State([Session(true, Some(0), NORMAL, Some(Goal("old", false, None)), 0, 0, log),
           Session(true, Some(1), NORMAL, Some(Goal("old", false, None)), 0, 0, log)],
          [WorkUnit(firstActive, None), WorkUnit(true, None)], [], [], list, next)
  }

  /** Two ready GoalManagers, the first of them in a paused Unit. */
  function QueueState(): State {
    TwoOpened(false, QUEUE, 2)
  }

  lemma QueueReady(list: seq<Readiness>, sid: SessionId, role: Role)
    requires list == QUEUE
    ensures ReadyFor(list, sid, role) == if sid < 2 && role == GoalManager then Some(list[sid]) else None
  {
    assert list[..1] == [list[0]] && list[..1][..0] == [];
    assert ReadyFor(list[..1], sid, role) == if sid == 0 && role == GoalManager then Some(list[0]) else None;
  }

  /** The refresh fills the queue, and leaves a full one alone. */
  lemma QueueRefreshes(firstActive: bool, list: seq<Readiness>, next: nat, now: int)
    requires (list == [] && next == 0 && now == 0) || (list == QUEUE && next == 2)
    ensures Refreshes(TwoOpened(firstActive, list, next), TwoOpened(firstActive, QUEUE, 2), now)
  {
    hide ReadyFor;
    hide Derive;
    var s := TwoOpened(firstActive, list, next);
    OpenedWindow();
    forall sid: SessionId, role: Role
      ensures RefreshedFor(s.sessions, s.runs, list, QUEUE, next, 2, now, sid, role)
    {
      QueueReady(QUEUE, sid, role);
      if list == [] {
        NoReadyFor(list, sid, role);
      }
    }
    forall e | e in QUEUE && e.status == Ready
      ensures ReadyFor(QUEUE, e.session, e.role) == Some(e)
    {
      QueueReady(QUEUE, e.session, e.role);
    }
  }

  lemma QueueIsReached()
    ensures Reached(QueueState(), 0)
  {
    hide Reached;
    hide Refreshes;
    var empty := Session(true, Some(0), NORMAL, None, 0, 0, []);
    var s0 := State([empty, empty.(unit := Some(1))], [WorkUnit(true, None), WorkUnit(true, None)], [], [], [], 0);
    var s1 := At(s0, 0, WithGoalBody(s0.sessions[0], "old"));
    var s2, s3 := TwoOpened(true, [], 0), TwoOpened(true, QUEUE, 2);
    InitiallyReached(s0, 0);
    ReachedNext(s0, 0, UpdateGoal(0, "old"), 0, s1);
    assert s1.sessions[0].log == s2.sessions[0].log && WithGoalBody(s1.sessions[1], "old").log == s2.sessions[1].log;
    assert s2.sessions == s1.sessions[1 := WithGoalBody(s1.sessions[1], "old")];
    ReachedNext(s1, 0, UpdateGoal(1, "old"), 0, s2);
    QueueRefreshes(true, [], 0, 0);
    ReachedNext(s2, 0, Refresh, 0, s3);
    ReachedNext(s3, 0, SetUnitActive(0, false), 0, QueueState());
  }

  lemma QueueNeedsNoRepair(now: int)
    ensures Reconciles(QueueState(), QueueState(), now)
  {
    hide Refreshes;
    var s := QueueState();
    QueueRefreshes(false, QUEUE, 2, now);
    NothingExpires(s, now);
    assert s.readiness[0] in s.readiness && s.readiness[1] in s.readiness;
    assert !AnyUncovered(s);
    assert ReconcilesVia(s, s, s, now);
  }

  lemma QueueChoice()
    ensures
      var s := QueueState();
      && IsChoice(s.readiness, s.sessions, AcquiredRoles(s.runs), None, 5, 0)
      && Candidate(s.readiness[1], s.sessions, AcquiredRoles(s.runs), None, 5)
  {
    var s := QueueState();
    assert AcquiredRoles(s.runs) == {};
    assert Precedes(s.readiness, s.sessions, false, 5, 0, 1);
  }

  /** The acquisition at time 5 is refused and changes nothing, although the second entry is a candidate in
      an active Unit. */
  lemma PausedHeadBlocksTheQueue()
    ensures
      var s := QueueState();
      && Reached(s, 0) && Step(s, Event.Acquire(None, Refused), 5, s)
      && Candidate(s.readiness[1], s.sessions, AcquiredRoles(s.runs), None, 5)
      && !UnitRefuses(s.units, s.sessions[s.readiness[1].session].unit)
  {
    hide Refreshes;
    hide Reconciles;
    hide IsChoice;
    hide Candidate;
    hide Reached;
    var s := QueueState();
    QueueIsReached();
    QueueRefreshes(false, QUEUE, 2, 5);
    QueueNeedsNoRepair(5);
    QueueChoice();
    assert ChoiceRefused(s, None, 5);
    assert AcquiresVia(s, s, s, s, None, 5, Refused);
  }

  // ---------------------------------------------------------------- singletons

  /** A Session switched off and switched on again as a singleton is off after the next startup replay. */
  lemma ReactivatedSingletonGoesOff()
    ensures
      var s1 := At(Empty(), 0, Appended(Empty().sessions[0].(active := false), [SessionActiveChanged(false)]));
      var s2 := At(s1, 0, Activated(s1.sessions[0], "go"));
      && Step(Empty(), SetActive(0, false), 0, s1) && Step(s1, ActivateSingleton(0, [], "go"), 0, s2)
      && Reached(s2, 0) && ActiveIncomplete(s2.sessions[0])
      && forall s3 | Step(s2, Reload, 0, s3) :: |s3.sessions| == 1 && !s3.sessions[0].active
  {
    hide Reached;
    var s0 := Empty();
    var s1 := At(s0, 0, Appended(s0.sessions[0].(active := false), [SessionActiveChanged(false)]));
    var s2 := At(s1, 0, Activated(s1.sessions[0], "go"));
    InitiallyReached(s0, 0);
    ReachedNext(s0, 0, SetActive(0, false), 0, s1);
    assert OrRoot([])[..0] == [];
    assert LinkedUnder(s1.edges, 1, OrRoot([]), 0) == Some([]);
    assert Step(s1, ActivateSingleton(0, [], "go"), 0, s2);
    ReachedNext(s1, 0, ActivateSingleton(0, [], "go"), 0, s2);
    ReactivationIsLost(s1.sessions[0], "go");
    assert ReplayedActive(true, s1.sessions[0].log) == false;
    hide ReadinessRefreshed;
    forall s3 | Step(s2, Reload, 0, s3)
      ensures |s3.sessions| == 1 && !s3.sessions[0].active
    {
      assert s3.sessions[0] == Expired(AfterReplay(s2).sessions[0], 0);
    }
  }

  const DUE_UNIT := WorkUnit(true, Some(Schedule.UnitSchedule(true, Some(0), Schedule.Explicit)))

  /** Two due Units, the first of which has its singleton Session: no Session is started for either. */
  method DueSingletonBlocksTheSchedule() returns (r: Result<seq<UnitId>, string>, started: nat)
    ensures r.Err? && started == 0
  {
    var session := Session(true, Some(0), NORMAL, None, 0, 0, []);
    var loaded := State([session], [DUE_UNIT, DUE_UNIT], [], [], [], 0);
    var store := new DispatchStore(loaded);
    assert DueNow(store.units[0], 0);
    r := store.RunScheduledUnits(0, _ => "work", {}, {}, {0}, 0);
    assert store.View() == loaded;
    started := |store.sessions| - 1;
  }

  // ---------------------------------------------------------------- a goal that only the metadata has

  /** The first user input to a Session creates its goal; a crash after the log append loses the goal. */
  lemma NewGoalIsLost()
    ensures
      var before := Session(true, None, NORMAL, None, 0, 0, []);
      var s0 := State([before], [], [], [], [], 0);
      var s1 := At(s0, 0, WithUserInput(before, None));
      && IsBehaviour([s0, s1], [Moment(0, UserInput(0, None))])
      && s1.sessions[0].goal.Some?
      && Restarted(WithLog(before, s1.sessions[0].log)).goal.None?
  {
    var before := Session(true, None, NORMAL, None, 0, 0, []);
    var s0 := State([before], [], [], [], [], 0);
    var s1 := At(s0, 0, WithUserInput(before, None));
    assert IsActiveWorker(s0, 0, None);
    assert Step(s0, UserInput(0, None), 0, s1);
  }
}
