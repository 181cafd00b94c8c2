/** The runtime state behind dispatch: Sessions with their log, SessionGoal and role cursors, dispatch
    runs, the readiness list, Units and the Session graph. Ids of Sessions, Units and runs are
    positions in their lists, standing in for the source's string ids and their order. */
module DispatchModel {
  import opened Wrappers
  import Schedule
  import SessionGraph

  type SessionId = nat
  type UnitId = nat
  type RunId = nat

  /** The root Session is the first one of every store. */
  const ROOT_SESSION: SessionId := 0

  const DISPATCH_LEASE_RECOVERY_SECONDS: int := 660
  const RETRY_DELAY_SECONDS: int := 30

  datatype Role = GoalManager | WorkerAgent

  /** Sender endpoints: a role token, a (service) user, or anything else. */
  datatype Sender = AgentSender(role: Role) | UserSender(user: nat) | OtherSender

  /** The payload fields dispatch looks at. */
  datatype Payload = Payload(
    userInput: bool,
    workerRequest: bool,
    workerFollowup: bool,
    deferGoalManager: bool,
    scheduleUpdate: bool,
    agentRole: Option<Role>,
    runId: Option<RunId>,
    wakeEvents: set<string>)

  const PLAIN := Payload(false, false, false, false, false, None, None, {})

  datatype GoalState = Complete | Incomplete | Waiting

  /** One SessionLog entry; its sequence number is its position plus one. */
  datatype Entry =
    | Message(payload: Payload, sender: Sender, toSession: bool)
    | GoalStateChanged(state: GoalState, byGoalManager: bool, run: Option<RunId>, deferGoalManager: bool)
    | GoalBodyUpdated
    | SessionActiveChanged(active: bool)
    | SystemSignal(targets: set<Role>, availableAfter: Option<int>)
    | ChildGoalCompleted(child: SessionId)

  datatype WaitKind = Deadline(until: int) | OnEvent(name: string) | OnChild(child: SessionId)

  datatype Wait = Wait(kind: WaitKind, wakeLogSeq: nat, declaredRun: RunId)

  datatype Goal = Goal(body: string, complete: bool, waiting: Option<Wait>)

  /** `scheduling_policy`: the score of the class and the base priority. */
  datatype SchedulingPolicy = SchedulingPolicy(classScore: int, basePriority: int)

  datatype Session = Session(
    active: bool,
    unit: Option<UnitId>,
    policy: SchedulingPolicy,
    goal: Option<Goal>,
    goalManagerCursor: nat,
    workerCursor: nat,
    log: seq<Entry>)

  datatype WorkUnit = WorkUnit(active: bool, schedule: Option<Schedule.UnitSchedule>)

  datatype WakeKind =
    | SessionActivated | GoalIncomplete | SignalReceived | ChildCompleted
    | UserInputArrived | ScheduleUpdated | WorkerReport | WorkerRequest | WorkerFollowup

  datatype WakeReason = WakeReason(seqNo: nat, kind: WakeKind, availableAfter: Option<int>)

  /** The observation window of one role: log entries `fromSeq` to `toSeq`. */
  datatype Window = Window(fromSeq: nat, toSeq: nat, wakes: seq<WakeReason>, availableAfter: Option<int>)

  datatype Lease = Acquired | Released | Interrupted

  datatype Declaration =
    | DeclaredComplete(nextRunAt: Option<int>)
    | DeclaredIncomplete
    | DeclaredWaiting(kind: WaitKind, wakeLogSeq: nat)

  datatype RunResult = Unfinished | FinishedComplete | FinishedIncomplete

  datatype Run = Run(
    session: SessionId,
    role: Role,
    lease: Lease,
    readinessId: nat,
    agentUser: Option<nat>,
    acquiredAt: int,
    observedBody: string,
    window: Window,
    declared: Option<Declaration>,
    result: RunResult,
    staleResults: nat)

  datatype ReadinessStatus = Ready | Taken | Resolved | Stale | Failed

  /** A `dispatch_readiness` entry; `Taken` is the source's status "acquired". */
  datatype Readiness = Readiness(
    id: nat,
    session: SessionId,
    role: Role,
    status: ReadinessStatus,
    firstReadyAt: int,
    window: Window)

  datatype State = State(
    sessions: seq<Session>,
    units: seq<WorkUnit>,
    edges: seq<SessionGraph.Edge>,
    runs: seq<Run>,
    readiness: seq<Readiness>,
    nextReadiness: nat)

  function Cursor(s: Session, role: Role): nat {
    if role == GoalManager then s.goalManagerCursor else s.workerCursor
  }

  /** `_set_session_log_cursor` only ever raises a cursor. */
  function RaiseCursor(s: Session, role: Role, to: nat): Session {
    if role == GoalManager
    then s.(goalManagerCursor := if to > s.goalManagerCursor then to else s.goalManagerCursor)
    else s.(workerCursor := if to > s.workerCursor then to else s.workerCursor)
  }

  function Appended(s: Session, entries: seq<Entry>): Session {
    s.(log := s.log + entries)
  }

  predicate Live(e: Readiness) {
    e.status == Ready || e.status == Taken
  }

  predicate IsFor(e: Readiness, sid: SessionId, role: Role) {
    e.session == sid && e.role == role
  }

  predicate RunsFor(r: Run, sid: SessionId, role: Role) {
    r.lease == Acquired && r.session == sid && r.role == role
  }

  /** `_has_acquired_role_run`; an acquired run is always in the phase of its role. */
  predicate HasAcquiredRun(runs: seq<Run>, sid: SessionId, role: Role) {
    exists r | r in runs :: RunsFor(r, sid, role)
  }

  predicate HasTakenReadiness(list: seq<Readiness>, sid: SessionId, role: Role) {
    exists e | e in list :: e.status == Taken && IsFor(e, sid, role)
  }

  /** A Session with an incomplete SessionGoal that is switched on. */
  predicate ActiveIncomplete(s: Session) {
    s.active && s.goal.Some? && !s.goal.value.complete
  }

  /** The Sessions readiness is derived for: active, incomplete, and not waiting. */
  predicate Dispatchable(s: Session) {
    ActiveIncomplete(s) && s.goal.value.waiting.None?
  }

  predicate LeaseExpired(r: Run, now: int) {
    now >= r.acquiredAt + DISPATCH_LEASE_RECOVERY_SECONDS
  }

  predicate UnitPaused(units: seq<WorkUnit>, unit: Option<UnitId>) {
    unit.Some? && unit.value < |units| && !units[unit.value].active
  }

  function ParentIds(edges: seq<SessionGraph.Edge>, child: SessionId): set<SessionId> {
    set e | e in edges && e.child == child :: e.parent
  }
}
