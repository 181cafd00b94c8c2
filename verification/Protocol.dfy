/** The atomic steps of the dispatch protocol, each under the state lock: user and agent input,
    declarations, refresh and liveness repair (src/goal/readiness.py), the lease acquisition and the
    fenced commits (src/goal/dispatch.py), restart recovery (src/goal/log.py) and the Session
    operations that write goals (src/goal/sessions.py, src/goal/messages.py).
    Refresh, reconcile and acquire are relations, because new readiness ids and list order are not
    determined; the other steps are functions. */
module Protocol {
  import opened Wrappers
  import opened DispatchModel
  import opened Projection
  import opened Replay
  import opened SelectionPolicy
  import Schedule
  import SessionGraph

  const GM_SIGNAL := SystemSignal({GoalManager}, None)

  // ---------------------------------------------------------------- goal state

  function SetIncomplete(s: Session): Session {
    if s.goal.Some? then s.(goal := Some(s.goal.value.(complete := false))) else s
  }

  function MarkedIncomplete(byGoalManager: bool, run: Option<RunId>): Entry {
    GoalStateChanged(Incomplete, byGoalManager, run, false)
  }

  /** What a parent Session gets when a child goal completes: the completion itself, and a reopening
      of its own goal if that was complete. */
  function Notified(parent: Session, child: SessionId): Session {
    if parent.goal.Some? && parent.goal.value.complete
    then SetIncomplete(Appended(parent, [ChildGoalCompleted(child), MarkedIncomplete(false, None)]))
    else Appended(parent, [ChildGoalCompleted(child)])
  }

  // ---------------------------------------------------------------- waiting

  /** `_goal_waiting_wake_reason`. */
  predicate WaitFires(log: seq<Entry>, w: Wait, now: int) {
    match w.kind
    case Deadline(until) => until <= now
    case OnEvent(name) =>
      exists k | w.wakeLogSeq <= k < |log| :: log[k].Message? && name in log[k].payload.wakeEvents
    case OnChild(child) => exists k | w.wakeLogSeq <= k < |log| :: log[k] == ChildGoalCompleted(child)
  }

  predicate WaitEnds(s: Session, now: int) {
    && s.active && s.goal.Some? && s.goal.value.waiting.Some?
    && WaitFires(s.log, s.goal.value.waiting.value, now)
  }

  /** `_expire_goal_waiting` on one Session. */
  function Expired(s: Session, now: int): Session {
    if WaitEnds(s, now)
    then Appended(s.(goal := Some(s.goal.value.(waiting := None))), [GM_SIGNAL])
    else s
  }

  // ---------------------------------------------------------------- refresh

  /** The ready entry of a Session and role that deduplication keeps: the first of the earliest. */
  function ReadyFor(list: seq<Readiness>, sid: SessionId, role: Role): Option<Readiness> {
    if list == [] then None
    else
      var e := list[|list| - 1];
      var earlier := ReadyFor(list[..|list| - 1], sid, role);
      if e.status != Ready || !IsFor(e, sid, role) then earlier
      else if earlier.None? || e.firstReadyAt < earlier.value.firstReadyAt then Some(e)
      else earlier
  }

  /** `_refresh_dispatch_readiness` recomputes exactly these: nobody runs the role already. */
  predicate Open(sessions: seq<Session>, runs: seq<Run>, list: seq<Readiness>, sid: SessionId, role: Role) {
    && sid < |sessions| && Dispatchable(sessions[sid])
    && !HasAcquiredRun(runs, sid, role)
    && !HasTakenReadiness(list, sid, role)
  }

  function Projected(sessions: seq<Session>, runs: seq<Run>, sid: SessionId, role: Role): Option<Window>
    requires sid < |sessions|
  {
    Derive(sessions[sid].log, Cursor(sessions[sid], role), role, HasAcquiredRun(runs, sid, WorkerAgent))
  }

  /** Ids are distinct and below the next fresh one. */
  predicate IdsBelow(list: seq<Readiness>, next: nat) {
    && (forall e | e in list :: e.id < next)
    && (forall i, j | 0 <= i < j < |list| :: list[i].id != list[j].id)
  }

  /** What one Session and role must have after a refresh: the projection of its unread log when the
      role is open, and what it had before otherwise. An entry that stays ready keeps its id and the
      time it first became ready. */
  ghost predicate RefreshedFor(sessions: seq<Session>, runs: seq<Run>, list: seq<Readiness>, list': seq<Readiness>,
                               next: nat, next': nat, now: int, sid: SessionId, role: Role)
  {
    var before, after := ReadyFor(list, sid, role), ReadyFor(list', sid, role);
    if !Open(sessions, runs, list, sid, role) then after == before
    else
      match Projected(sessions, runs, sid, role)
      case None => after == None
      case Some(window) =>
        && after.Some?
        && (if before.Some? then after.value == before.value.(window := window)
            else
              && next <= after.value.id < next'
              && after.value == Readiness(after.value.id, sid, role, Ready, now, window))
  }

  ghost predicate ReadinessRefreshed(sessions: seq<Session>, runs: seq<Run>, list: seq<Readiness>, list': seq<Readiness>,
                                     next: nat, next': nat, now: int)
  {
    && next <= next'
    && (IdsBelow(list, next) ==> IdsBelow(list', next'))
    && (forall e | e in list' :: Live(e))
    && (forall e | e in list' && e.status == Taken :: e in list)
    && (forall e | e in list && e.status == Taken :: e in list')
    && (forall e | e in list' && e.status == Ready :: ReadyFor(list', e.session, e.role) == Some(e))
    && (forall sid, role :: RefreshedFor(sessions, runs, list, list', next, next', now, sid, role))
  }

  /** `_refresh_dispatch_readiness`. */
  ghost predicate Refreshes(s: State, s': State, now: int) {
    && s'.runs == s.runs && s'.units == s.units && s'.edges == s.edges
    && |s'.sessions| == |s.sessions|
    && (forall i | 0 <= i < |s.sessions| :: s'.sessions[i] == Expired(s.sessions[i], now))
    && ReadinessRefreshed(s'.sessions, s.runs, s.readiness, s'.readiness, s.nextReadiness, s'.nextReadiness, now)
  }

  // ---------------------------------------------------------------- liveness repair

  function Lapsed(r: Run, now: int): Run {
    if r.lease == Acquired && LeaseExpired(r, now) then r.(lease := Interrupted) else r
  }

  function LapsedRuns(runs: seq<Run>, now: int): (r: seq<Run>)
    ensures |r| == |runs| && forall i | 0 <= i < |runs| :: r[i] == Lapsed(runs[i], now)
  {
    seq(|runs|, i requires 0 <= i < |runs| => Lapsed(runs[i], now))
  }

  predicate Owned(runs: seq<Run>, e: Readiness) {
    exists r | r in runs :: r.lease == Acquired && r.readinessId == e.id
  }

  function Reclaimed(runs: seq<Run>, e: Readiness): Readiness {
    if e.status == Taken && !Owned(runs, e) then e.(status := Stale) else e
  }

  function ReclaimedList(runs: seq<Run>, list: seq<Readiness>): (r: seq<Readiness>)
    ensures |r| == |list| && forall i | 0 <= i < |list| :: r[i] == Reclaimed(runs, list[i])
  {
    seq(|list|, i requires 0 <= i < |list| => Reclaimed(runs, list[i]))
  }

  /** Sessions that lost a lease or a taken readiness to the repair. */
  predicate LostOwnership(runs: seq<Run>, list: seq<Readiness>, now: int, sid: SessionId) {
    || (exists r | r in runs :: r.lease == Acquired && LeaseExpired(r, now) && r.session == sid)
    || (exists e | e in list :: e.status == Taken && !Owned(LapsedRuns(runs, now), e) && e.session == sid)
  }

  /** The expiry half of `_reconcile_dispatch_liveness`. */
  function AfterExpiry(s: State, now: int): State {
    var runs := LapsedRuns(s.runs, now);
    s.(runs := runs,
       readiness := ReclaimedList(runs, s.readiness),
       sessions := seq(|s.sessions|, i requires 0 <= i < |s.sessions| =>
         if LostOwnership(s.runs, s.readiness, now, i) then Appended(s.sessions[i], [GM_SIGNAL]) else s.sessions[i]))
  }

  predicate HasLiveReadiness(list: seq<Readiness>, sid: SessionId) {
    exists e | e in list :: Live(e) && e.session == sid
  }

  predicate HasLiveRun(runs: seq<Run>, sid: SessionId) {
    exists r | r in runs :: r.lease == Acquired && r.session == sid
  }

  /** An active Session whose incomplete goal neither waits nor has anything ready or running. */
  predicate Uncovered(s: State, sid: SessionId)
    requires sid < |s.sessions|
  {
    && Dispatchable(s.sessions[sid])
    && !UnitPaused(s.units, s.sessions[sid].unit)
    && !HasLiveReadiness(s.readiness, sid)
    && !HasLiveRun(s.runs, sid)
  }

  function Signalled(s: State): State {
    s.(sessions := seq(|s.sessions|, i requires 0 <= i < |s.sessions| =>
         if Uncovered(s, i) then Appended(s.sessions[i], [GM_SIGNAL]) else s.sessions[i]))
  }

  predicate AnyUncovered(s: State) {
    exists i | 0 <= i < |s.sessions| :: Uncovered(s, i)
  }

  /** `_reconcile_dispatch_liveness`, with the state between its two refreshes made explicit. */
  ghost predicate ReconcilesVia(s: State, mid: State, s': State, now: int) {
    && Refreshes(AfterExpiry(s, now), mid, now)
    && (if AnyUncovered(mid) then Refreshes(Signalled(mid), s', now) else s' == mid)
  }

  ghost predicate Reconciles(s: State, s': State, now: int) {
    exists mid :: ReconcilesVia(s, mid, s', now)
  }

  // ---------------------------------------------------------------- acquiring a lease

  function AcquiredRoles(runs: seq<Run>): set<(SessionId, Role)> {
    set r | r in runs && r.lease == Acquired :: (r.session, r.role)
  }

  function MarkStale(list: seq<Readiness>, sessions: seq<Session>, filter: Option<SessionId>, now: int): (r: seq<Readiness>)
    ensures |r| == |list|
    ensures forall i | 0 <= i < |list| ::
      r[i] == if IsStaleAt(list, sessions, filter, now, i) then list[i].(status := Stale) else list[i]
  {
    seq(|list|, i requires 0 <= i < |list| =>
      if IsStaleAt(list, sessions, filter, now, i) then list[i].(status := Stale) else list[i])
  }

  /** The run `_acquire_dispatch_lease_locked` records for a chosen entry. */
  function LeasedRun(s: State, e: Readiness, agentUser: Option<nat>, now: int): Run {
    var body := if e.session < |s.sessions| && s.sessions[e.session].goal.Some?
                then s.sessions[e.session].goal.value.body else "";
    Run(e.session, e.role, Acquired, e.id, agentUser, now, body, e.window, None, Unfinished, 0)
  }

  function Leased(s: State, filter: Option<SessionId>, i: nat, agentUser: Option<nat>, now: int): State
    requires i < |s.readiness|
  {
    var e := s.readiness[i];
    s.(readiness := MarkStale(s.readiness, s.sessions, filter, now)[i := e.(status := Taken)],
       runs := s.runs + [LeasedRun(s, e, agentUser, now)])
  }

  /** Acquisition raises instead of leasing when the Unit is unknown or not active. */
  predicate UnitRefuses(units: seq<WorkUnit>, unit: Option<UnitId>) {
    unit.Some? && (unit.value >= |units| || !units[unit.value].active)
  }

  /** The entry the policy chooses belongs to a Unit that refuses to be dispatched. */
  ghost predicate ChoiceRefused(s: State, filter: Option<SessionId>, now: int) {
    exists i: nat ::
      && IsChoice(s.readiness, s.sessions, AcquiredRoles(s.runs), filter, now, i)
      && UnitRefuses(s.units, s.sessions[s.readiness[i].session].unit)
  }

  datatype AcquireOutcome = Refused | Idle | LeaseTaken(run: RunId, chosen: nat, agentUser: Option<nat>)

  ghost predicate AcquiresVia(s: State, repaired: State, ready: State, s': State, filter: Option<SessionId>,
                              now: int, outcome: AcquireOutcome)
  {
    && Reconciles(s, repaired, now)
    && Refreshes(repaired, ready, now)
    && (match outcome
        case Refused => s' == s && ChoiceRefused(ready, filter, now)
        case Idle =>
          && (forall j | 0 <= j < |ready.readiness| ::
                !Candidate(ready.readiness[j], ready.sessions, AcquiredRoles(ready.runs), filter, now))
          && (|| s' == s
              || s' == ready.(readiness := MarkStale(ready.readiness, ready.sessions, filter, now)))
        case LeaseTaken(run, chosen, agentUser) =>
          && run == |s.runs|
          && IsChoice(ready.readiness, ready.sessions, AcquiredRoles(ready.runs), filter, now, chosen)
          && !UnitRefuses(ready.units, ready.sessions[ready.readiness[chosen].session].unit)
          && s' == Leased(ready, filter, chosen, agentUser, now))
  }

  ghost predicate Acquires(s: State, s': State, filter: Option<SessionId>, now: int, outcome: AcquireOutcome) {
    exists repaired, ready :: AcquiresVia(s, repaired, ready, s', filter, now, outcome)
  }

  // ---------------------------------------------------------------- fencing

  datatype FenceReason = NotAcquired | MissingGoal | GoalUpdated | BodyRevised | NewerMessage | NewerState | ChildDone

  /** Why an entry after a run's window makes its result stale. */
  function Conflict(e: Entry, run: RunId): Option<FenceReason> {
    match e
    case GoalBodyUpdated => Some(BodyRevised)
    case Message(p, _, _) => if p.runId == Some(run) then None else Some(NewerMessage)
    case GoalStateChanged(_, _, author, _) => if author == Some(run) then None else Some(NewerState)
    case ChildGoalCompleted(_) => Some(ChildDone)
    case _ => None
  }

  /** `_new_requirement_conflicts_after_window`: the first conflict at position `from` or later. */
  function FirstConflict(log: seq<Entry>, from: nat, run: RunId): Option<FenceReason>
    decreases |log| - from
  {
    if from >= |log| then None
    else if Conflict(log[from], run).Some? then Conflict(log[from], run)
    else FirstConflict(log, from + 1, run)
  }

  /** `_stale_dispatch_fence_locked`. */
  function Fence(s: State, r: RunId): Option<FenceReason>
    requires r < |s.runs| && s.runs[r].session < |s.sessions|
  {
    var run := s.runs[r];
    var session := s.sessions[run.session];
    if run.lease != Acquired then Some(NotAcquired)
    else if session.goal.None? then Some(MissingGoal)
    else if session.goal.value.body != run.observedBody then Some(GoalUpdated)
    else FirstConflict(session.log, run.window.toSeq, r)
  }

  /** Give one readiness entry a new status. */
  function WithStatus(list: seq<Readiness>, id: nat, onlyTaken: bool, status: ReadinessStatus): (r: seq<Readiness>)
    ensures |r| == |list|
    ensures forall i | 0 <= i < |list| ::
      r[i] == if list[i].id == id && (onlyTaken ==> list[i].status == Taken) then list[i].(status := status) else list[i]
  {
    seq(|list|, i requires 0 <= i < |list| =>
      if list[i].id == id && (onlyTaken ==> list[i].status == Taken) then list[i].(status := status) else list[i])
  }

  /** `_resolve_goal_manager_readiness_for_goal`, and for both roles `_resolve_dispatch_readiness`. */
  function ResolvedFor(list: seq<Readiness>, sid: SessionId, onlyGoalManager: bool): (r: seq<Readiness>)
    ensures |r| == |list|
    ensures forall i | 0 <= i < |list| ::
      r[i] == if Live(list[i]) && list[i].session == sid && (onlyGoalManager ==> list[i].role == GoalManager)
              then list[i].(status := Resolved) else list[i]
  {
    seq(|list|, i requires 0 <= i < |list| =>
      if Live(list[i]) && list[i].session == sid && (onlyGoalManager ==> list[i].role == GoalManager)
      then list[i].(status := Resolved) else list[i])
  }

  /** `_discard_stale_dispatch_result_locked`. A run that still held its lease gives it up and moves
      the cursor over its window; a run that had lost it only leaves evidence and a signal. */
  function Discarded(s: State, r: RunId): State
    requires r < |s.runs| && s.runs[r].session < |s.sessions|
  {
    var run := s.runs[r];
    var noted := run.(staleResults := run.staleResults + 1);
    var session := s.sessions[run.session];
    if run.lease == Acquired then
      s.(runs := s.runs[r := noted.(lease := Released)],
         readiness := WithStatus(s.readiness, run.readinessId, true, Stale),
         sessions := s.sessions[run.session :=
           Appended(RaiseCursor(session, run.role, run.window.toSeq), [GM_SIGNAL])])
    else
      s.(runs := s.runs[r := noted],
         sessions := s.sessions[run.session := Appended(session, [GM_SIGNAL])])
  }

  // ---------------------------------------------------------------- commits

  function RunSender(run: Run): Sender {
    if run.agentUser.Some? then UserSender(run.agentUser.value) else AgentSender(run.role)
  }

  /** Release the run's lease, move its role's cursor over the window, give its readiness entry the
      final status, and put the Session's new goal and entries in place. */
  function Committed(s: State, r: RunId, list: seq<Readiness>, status: ReadinessStatus, goal: Option<Goal>,
                     entries: seq<Entry>, result: RunResult): State
    requires r < |s.runs| && s.runs[r].session < |s.sessions|
  {
    var run := s.runs[r];
    var session := s.sessions[run.session].(goal := goal);
    s.(runs := s.runs[r := run.(lease := Released, result := result)],
       readiness := WithStatus(list, run.readinessId, false, status),
       sessions := s.sessions[run.session :=
         Appended(RaiseCursor(session, run.role, run.window.toSeq), entries)])
  }

  predicate IsReport(e: Entry, r: RunId, run: Run) {
    e.Message? && e.payload.runId == Some(r) && e.sender == RunSender(run) && e.toSession
  }

  predicate IsWorkerRequest(e: Entry, r: RunId) {
    e.Message? && e.payload.runId == Some(r) && e.payload.workerRequest
  }

  function RetrySignal(now: int): Entry {
    SystemSignal({GoalManager}, Some(now + RETRY_DELAY_SECONDS))
  }

  /** The handoff of a Worker run on a remote provider. */
  function RemoteHandoff(r: RunId): Entry {
    Message(PLAIN.(runId := Some(r)), OtherSender, false)
  }

  /** The Session has a report of this run; the handoff is looked through too. */
  predicate Reported(s: State, r: RunId, remote: bool)
    requires r < |s.runs| && s.runs[r].session < |s.sessions|
  {
    exists e | e in s.sessions[s.runs[r].session].log + (if remote then [RemoteHandoff(r)] else []) :: IsReport(e, r, s.runs[r])
  }

  /** `_commit_worker_run_locked` past its fence. */
  function CommitWorker(s: State, r: RunId, remote: bool, now: int): State
    requires r < |s.runs| && s.runs[r].session < |s.sessions|
  {
    var session := s.sessions[s.runs[r].session];
    var handoff := if remote then [RemoteHandoff(r)] else [];
    Committed(s, r, s.readiness, Resolved, session.goal,
      handoff + (if Reported(s, r, remote) then [] else [RetrySignal(now)]), FinishedComplete)
  }

  /** `_commit_dispatch_error_locked` past its fence. */
  function CommitError(s: State, r: RunId): State
    requires r < |s.runs| && s.runs[r].session < |s.sessions|
  {
    Committed(s, r, s.readiness, Failed, SetIncomplete(s.sessions[s.runs[r].session]).goal,
      [MarkedIncomplete(false, Some(r))], FinishedIncomplete)
  }

  function ScheduleMessage(run: Option<RunId>): Entry {
    Message(PLAIN.(scheduleUpdate := true, runId := run), AgentSender(GoalManager), true)
  }

  function ImplicitRequest(r: RunId, run: Run): Entry {
    Message(PLAIN.(workerRequest := true, agentRole := Some(GoalManager), runId := Some(r)), RunSender(run), true)
  }

  function UnitSchedule(s: State, unit: Option<UnitId>): Option<Schedule.UnitSchedule> {
    if unit.Some? && unit.value < |s.units| then s.units[unit.value].schedule else None
  }

  function WithSchedule(s: State, unit: Option<UnitId>, schedule: Option<Schedule.UnitSchedule>): State {
    if unit.Some? && unit.value < |s.units|
    then s.(units := s.units[unit.value := s.units[unit.value].(schedule := schedule)]) else s
  }

  /** The GoalManager returned without a decision. */
  function CommitUndecided(s: State, r: RunId, now: int): State
    requires r < |s.runs| && s.runs[r].session < |s.sessions|
  {
    Committed(s, r, s.readiness, Resolved, s.sessions[s.runs[r].session].goal, [RetrySignal(now)], FinishedIncomplete)
  }

  function CommitWaiting(s: State, r: RunId, kind: WaitKind, wakeLogSeq: nat): State
    requires r < |s.runs| && s.runs[r].session < |s.sessions|
    requires s.sessions[s.runs[r].session].goal.Some?
  {
    var sid := s.runs[r].session;
    Committed(s, r, ResolvedFor(s.readiness, sid, true), Resolved,
      Some(s.sessions[sid].goal.value.(waiting := Some(Wait(kind, wakeLogSeq, r)))),
      [GoalStateChanged(Waiting, false, Some(r), false)], FinishedIncomplete)
  }

  predicate WorkerRequested(s: State, r: RunId, sid: SessionId)
    requires sid < |s.sessions|
  {
    || (exists e | e in s.readiness :: Live(e) && IsFor(e, sid, WorkerAgent))
    || HasAcquiredRun(s.runs, sid, WorkerAgent)
    || (exists e | e in s.sessions[sid].log :: IsWorkerRequest(e, r))
  }

  function CommitIncomplete(s: State, r: RunId): State
    requires r < |s.runs| && s.runs[r].session < |s.sessions|
  {
    var sid := s.runs[r].session;
    Committed(s, r, ResolvedFor(s.readiness, sid, true), Resolved, SetIncomplete(s.sessions[sid]).goal,
      [MarkedIncomplete(true, Some(r))]
        + (if WorkerRequested(s, r, sid) then [] else [ImplicitRequest(r, s.runs[r])]),
      FinishedIncomplete)
  }

  /** A completion that the Unit's schedule blocks. */
  function CommitBlocked(s: State, r: RunId): State
    requires r < |s.runs| && s.runs[r].session < |s.sessions|
  {
    Committed(s, r, s.readiness, Resolved, SetIncomplete(s.sessions[s.runs[r].session]).goal,
      [GM_SIGNAL, MarkedIncomplete(false, Some(r))], FinishedIncomplete)
  }

  function CompletionEntries(r: RunId, gate: Schedule.Gate): seq<Entry> {
    (if gate.Resolved? then [ScheduleMessage(Some(r))] else []) + [GoalStateChanged(Complete, true, Some(r), false)]
  }

  /** The completion of the run's own Session, before its parents hear of it. */
  function OwnCompletion(s: State, r: RunId, gate: Schedule.Gate): State
    requires r < |s.runs| && s.runs[r].session < |s.sessions|
    requires s.sessions[s.runs[r].session].goal.Some?
  {
    var sid := s.runs[r].session;
    var unit := s.sessions[sid].unit;
    Committed(WithSchedule(s, unit, Schedule.AfterGate(UnitSchedule(s, unit), gate)),
      r, ResolvedFor(s.readiness, sid, false), Resolved,
      Some(s.sessions[sid].goal.value.(complete := true)),
      CompletionEntries(r, gate), FinishedComplete)
  }

  /** `_log_child_goal_completed_for_parents` and `_reopen_completed_parent_goals_for_child`. */
  function ParentsNotified(s: State, child: SessionId): State {
    s.(sessions := seq(|s.sessions|, i requires 0 <= i < |s.sessions| =>
         if i in ParentIds(s.edges, child) then Notified(s.sessions[i], child) else s.sessions[i]))
  }

  function CommitComplete(s: State, r: RunId, gate: Schedule.Gate): State
    requires r < |s.runs| && s.runs[r].session < |s.sessions|
    requires s.sessions[s.runs[r].session].goal.Some?
  {
    var sid := s.runs[r].session;
    if s.sessions[sid].goal.value.complete then OwnCompletion(s, r, gate)
    else ParentsNotified(OwnCompletion(s, r, gate), sid)
  }

  function GateFor(s: State, r: RunId, next: Option<int>, timing: Schedule.Timing, now: int): Schedule.Gate
    requires r < |s.runs| && s.runs[r].session < |s.sessions|
  {
    Schedule.CompletionGate(UnitSchedule(s, s.sessions[s.runs[r].session].unit), timing, next, now)
  }

  /** `_commit_goal_manager_run_locked` past its fence. */
  function CommitGoalManager(s: State, r: RunId, timing: Schedule.Timing, now: int): State
    requires r < |s.runs| && s.runs[r].session < |s.sessions|
    requires s.sessions[s.runs[r].session].goal.Some?
  {
    match s.runs[r].declared
    case None => CommitUndecided(s, r, now)
    case Some(DeclaredWaiting(kind, wakeLogSeq)) => CommitWaiting(s, r, kind, wakeLogSeq)
    case Some(DeclaredIncomplete) => CommitIncomplete(s, r)
    case Some(DeclaredComplete(next)) =>
      var gate := GateFor(s, r, next, timing, now);
      if gate.Blocked? then CommitBlocked(s, r) else CommitComplete(s, r, gate)
  }

  /** How an agent run ends: with a result, or with a provider error. */
  datatype AgentEnd = Returned(timing: Schedule.Timing, remote: bool) | ProviderError

  /** The second atomic section of `dispatch_once`: fence, then commit or discard. */
  function Ended(s: State, r: RunId, end: AgentEnd, now: int): State
    requires r < |s.runs| && s.runs[r].session < |s.sessions|
  {
    if Fence(s, r).Some? then Discarded(s, r)
    else
      match end
      case ProviderError => CommitError(s, r)
      case Returned(timing, remote) =>
        if s.runs[r].role == GoalManager then CommitGoalManager(s, r, timing, now)
        else CommitWorker(s, r, remote, now)
  }

  // ---------------------------------------------------------------- declarations

  datatype Decision = DecideComplete(nextRunAt: Option<int>) | DecideIncomplete | DecideWaiting(kind: WaitKind)

  /** `_normalize_goal_waiting_spec_locked`. */
  predicate WaitAllowed(s: State, kind: WaitKind, now: int) {
    match kind
    case Deadline(until) => until > now
    case OnEvent(name) => name != ""
    case OnChild(child) => child < |s.sessions|
  }

  /** When a GoalManager run may declare its outcome. A waiting declaration does not look for newer
      requirements; the commit does. */
  predicate MayDeclare(s: State, r: RunId, d: Decision, now: int) {
    && r < |s.runs| && s.runs[r].session < |s.sessions|
    && s.runs[r].role == GoalManager && s.runs[r].lease == Acquired
    && s.runs[r].declared.None?
    && var session := s.sessions[s.runs[r].session];
    && session.goal.Some?
    && (match d
        case DecideWaiting(kind) => WaitAllowed(s, kind, now)
        case _ =>
          && session.goal.value.body == s.runs[r].observedBody
          && FirstConflict(session.log, s.runs[r].window.toSeq, r).None?)
  }

  function Declared(s: State, r: RunId, d: Decision): State
    requires r < |s.runs| && s.runs[r].session < |s.sessions|
  {
    var declared :=
      match d
      case DecideComplete(next) => DeclaredComplete(next)
      case DecideIncomplete => DeclaredIncomplete
      case DecideWaiting(kind) => DeclaredWaiting(kind, |s.sessions[s.runs[r].session].log|);
    s.(runs := s.runs[r := s.runs[r].(declared := Some(declared))])
  }

  // ---------------------------------------------------------------- user input and Session operations

  /** `_append_user_input_locked` on its Session; `worker` is the active Worker run, which gets the
      input forwarded while the GoalManager is deferred. */
  function WithUserInput(s: Session, worker: Option<RunId>): Session {
    var goal := if s.goal.Some? then s.goal.value else Goal("Reply to user input sent to this Session.", false, None);
    var input := Message(
      PLAIN.(userInput := true, workerFollowup := worker.Some?, deferGoalManager := worker.Some?), OtherSender, true);
    var followup := Message(
      PLAIN.(userInput := true, workerFollowup := true, workerRequest := true, runId := worker), OtherSender, true);
    Appended(s.(goal := Some(goal.(complete := false, waiting := None))),
      [input]
        + (if goal.waiting.Some? then [GM_SIGNAL] else [])
        + [GoalStateChanged(Incomplete, false, None, worker.Some?)]
        + (if worker.Some? then [followup] else []))
  }

  /** `_active_worker_run_for_session`: a Worker run that holds its lease, if there is one. */
  predicate IsActiveWorker(s: State, sid: SessionId, worker: Option<RunId>) {
    if worker.Some? then worker.value < |s.runs| && RunsFor(s.runs[worker.value], sid, WorkerAgent)
    else !HasAcquiredRun(s.runs, sid, WorkerAgent)
  }

  function WithGoalBody(s: Session, body: string): Session {
    if s.goal.Some?
    then Appended(s.(goal := Some(s.goal.value.(body := body, complete := false))),
           [GoalBodyUpdated, MarkedIncomplete(false, None)])
    else Appended(s.(goal := Some(Goal(body, false, None))), [MarkedIncomplete(false, None)])
  }

  /** A Session created with its goal; a scheduled or startup launch may add an initial prompt. */
  function NewSession(unit: Option<UnitId>, body: string, prompt: bool): Session {
    Session(true, unit, SchedulingPolicy(0, 0), Some(Goal(body, false, None)), 0, 0,
      [MarkedIncomplete(false, None)]
        + (if prompt
           then [Message(PLAIN.(userInput := true), OtherSender, true), MarkedIncomplete(false, None)]
           else []))
  }

  /** `create_session`: no goal and nothing logged. */
  function EmptySession(unit: Option<UnitId>): Session {
    Session(true, unit, SchedulingPolicy(0, 0), None, 0, 0, [])
  }

  /** `_activate_singleton_unit_session_in_state`: switched on without a log entry, the goal gets the new
      body and is incomplete again, and keeps its wait. */
  function Activated(s: Session, body: string): Session {
    var goal := if s.goal.Some? then s.goal.value.(complete := false) else Goal("", false, None);
    Appended(s.(active := true, goal := Some(if s.goal.Some? && body == "" then goal else goal.(body := body))),
      [GM_SIGNAL, MarkedIncomplete(false, None)])
  }

  /** The links of a singleton activation, one after the other; parents that are unknown or the Session
      itself are passed over, and a link that would close a cycle raises. */
  ghost function LinkedUnder(edges: seq<SessionGraph.Edge>, n: nat, parents: seq<SessionId>, child: SessionId)
    : Option<seq<SessionGraph.Edge>>
  {
    if parents == [] then Some(edges)
    else
      var before := LinkedUnder(edges, n, parents[..|parents| - 1], child);
      var parent := parents[|parents| - 1];
      if before.None? then None
      else if parent >= n || parent == child || SessionGraph.Edge(parent, child) in before.value then before
      else if SessionGraph.Reaches(before.value, child, parent) then None
      else Some(before.value + [SessionGraph.Edge(parent, child)])
  }

  function Ids(n: nat): (ids: seq<nat>)
    ensures |ids| == n && forall i | 0 <= i < n :: ids[i] == i
  {
    seq(n, i => i)
  }

  /** A scheduled launch uses up the Unit's next run time. */
  function Launched(s: State, unit: Option<UnitId>): State {
    WithSchedule(s, unit, Schedule.Cleared(UnitSchedule(s, unit)))
  }

  /** The parents of a new Session or a singleton: the root when none are named. */
  function OrRoot(parents: seq<SessionId>): seq<SessionId> {
    if parents == [] then [ROOT_SESSION] else parents
  }

  /** Edges from distinct parents, in order. */
  function EdgesFrom(parents: seq<SessionId>, child: SessionId): seq<SessionGraph.Edge> {
    if parents == [] then []
    else
      var rest := EdgesFrom(parents[..|parents| - 1], child);
      var edge := SessionGraph.Edge(parents[|parents| - 1], child);
      if edge in rest then rest else rest + [edge]
  }

  // ---------------------------------------------------------------- messages

  /** What `append_runtime_message` and `append_message` let into a log. An agent's message carries the role
      of the slot it claims, and names a run only if it is that run's own account or the run has none; a
      Worker may write to its Session only, and only a GoalManager requests work. Any other message has a
      plain payload. */
  predicate MayPost(runs: seq<Run>, m: Entry) {
    && m.Message?
    && var p := m.payload;
    && !p.userInput && !p.workerFollowup && !p.deferGoalManager && !p.scheduleUpdate
    && (match p.agentRole
        case None => p == PLAIN && !m.sender.AgentSender?
        case Some(role) =>
          && (m.sender == AgentSender(role) || m.sender.UserSender?)
          && (p.workerRequest ==> role == GoalManager && m.toSession)
          && (role == WorkerAgent ==> m.toSession)
          && (p.runId.Some? && p.runId.value < |runs| && runs[p.runId.value].agentUser.Some? ==>
                m.sender == UserSender(runs[p.runId.value].agentUser.value)))
  }

  // ---------------------------------------------------------------- startup

  /** The startup replay of every Session's log. */
  function AfterReplay(s: State): State {
    s.(sessions := seq(|s.sessions|, i requires 0 <= i < |s.sessions| => Restarted(s.sessions[i])))
  }

  /** The root Unit has no owner, and a load raises when the home of an account is the root. */
  predicate HomesOk(homes: map<nat, nat>) {
    ROOT_SESSION !in homes && forall s | s in homes :: homes[s] != ROOT_SESSION
  }

  /** The owner half of the graph repair that every load makes. */
  ghost function OwnersRepaired(s: State, homes: map<nat, nat>): Option<seq<SessionGraph.Edge>> {
    SessionGraph.Rehome(Ids(|s.sessions|), homes, s.edges, ROOT_SESSION, |s.sessions|)
  }

  // ---------------------------------------------------------------- restart recovery

  function InterruptedRuns(runs: seq<Run>): (r: seq<Run>)
    ensures |r| == |runs| && forall i | 0 <= i < |runs| ::
      r[i] == if runs[i].lease == Acquired then runs[i].(lease := Interrupted) else runs[i]
  {
    seq(|runs|, i requires 0 <= i < |runs| =>
      if runs[i].lease == Acquired then runs[i].(lease := Interrupted) else runs[i])
  }

  predicate Resumable(sessions: seq<Session>, sid: SessionId) {
    sid < |sessions| && ActiveIncomplete(sessions[sid])
  }

  /** A taken entry becomes ready again when its Session can go on and its run held the lease. */
  function ReleasedReadiness(s: State, e: Readiness): Readiness {
    if e.status != Taken then e
    else if Resumable(s.sessions, e.session)
         && exists r | r in s.runs :: r.lease == Acquired && r.session == e.session && r.readinessId == e.id
    then e.(status := Ready)
    else e.(status := Stale)
  }

  function InterruptedRoles(runs: seq<Run>, sid: SessionId): set<Role> {
    set r | r in runs && r.lease == Acquired && r.session == sid :: r.role
  }

  /** `record_runtime_recovery_signals`. */
  function Recovered(s: State): State {
    s.(runs := InterruptedRuns(s.runs),
       readiness := seq(|s.readiness|, i requires 0 <= i < |s.readiness| => ReleasedReadiness(s, s.readiness[i])),
       sessions := seq(|s.sessions|, i requires 0 <= i < |s.sessions| =>
         if Resumable(s.sessions, i)
         then Appended(s.sessions[i], [SystemSignal({GoalManager} + InterruptedRoles(s.runs, i), None)])
         else s.sessions[i]))
  }

  // ---------------------------------------------------------------- one step

  datatype Event =
    | UserInput(sid: SessionId, worker: Option<RunId>)
    | Post(sid: SessionId, message: Entry)
    | Declare(run: RunId, decision: Decision)
    | Acquire(filter: Option<SessionId>, outcome: AcquireOutcome)
    | AgentEnds(run: RunId, end: AgentEnd)
    | Refresh
    | Reload
    | Recover
    | SetActive(sid: SessionId, active: bool)
    | UpdateGoal(sid: SessionId, body: string)
    | SetUnitActive(unit: UnitId, active: bool)
    | ScheduleNext(sid: SessionId, author: Option<RunId>, next: Option<int>, timing: Schedule.Timing)
    | Link(parent: SessionId, child: SessionId)
    | Start(owner: Option<UnitId>, parents: seq<SessionId>, body: string, prompt: bool, scheduled: bool)
    | Create(owner: Option<UnitId>, parents: seq<SessionId>)
    | ActivateSingleton(sid: SessionId, parents: seq<SessionId>, body: string)
    | SetPolicy(sid: SessionId, policy: SchedulingPolicy)
    | RepairGraph(homes: map<nat, nat>)

  function At(s: State, sid: SessionId, session: Session): State
    requires sid < |s.sessions|
  {
    s.(sessions := s.sessions[sid := session])
  }

  /** Whether the operation is accepted; otherwise it raises and nothing is saved. */
  ghost predicate Accepted(s: State, ev: Event, now: int) {
    match ev
    case UserInput(sid, worker) => sid < |s.sessions| && IsActiveWorker(s, sid, worker)
    case Post(sid, message) => sid < |s.sessions| && MayPost(s.runs, message)
    case Declare(run, decision) => MayDeclare(s, run, decision, now)
    case AgentEnds(run, _) => run < |s.runs| && s.runs[run].session < |s.sessions|
    case SetActive(sid, _) => sid < |s.sessions|
    case UpdateGoal(sid, body) => sid < |s.sessions| && body != ""
    case SetUnitActive(unit, _) => unit < |s.units|
    case ScheduleNext(sid, _, next, timing) =>
      && sid < |s.sessions|
      && var schedule := UnitSchedule(s, s.sessions[sid].unit);
      && schedule.Some? && schedule.value.enabled
      && Schedule.Resolve(schedule.value, timing, next, now).Ok?
    case Link(parent, child) =>
      && parent < |s.sessions| && child < |s.sessions| && parent != child
      && (SessionGraph.Edge(parent, child) in s.edges || !SessionGraph.Reaches(s.edges, child, parent))
    case Acquire(filter, _) => filter.None? || filter.value < |s.sessions|
    case Start(unit, parents, _, _, scheduled) =>
      && (forall p | p in OrRoot(parents) :: p < |s.sessions|)
      && !UnitRefuses(s.units, unit)
      && (scheduled ==> unit.Some? && Schedule.IsDue(UnitSchedule(s, unit), now))
    case Create(unit, parents) => (forall p | p in OrRoot(parents) :: p < |s.sessions|) && !UnitRefuses(s.units, unit)
    case ActivateSingleton(sid, parents, _) =>
      && sid < |s.sessions| && !UnitRefuses(s.units, s.sessions[sid].unit)
      && LinkedUnder(s.edges, |s.sessions|, OrRoot(parents), sid).Some?
    case SetPolicy(sid, _) => sid < |s.sessions|
    case RepairGraph(homes) => ROOT_SESSION < |s.sessions| && HomesOk(homes) && OwnersRepaired(s, homes).Some?
    case _ => true
  }

  ghost predicate Effect(s: State, ev: Event, now: int, s': State)
    requires Accepted(s, ev, now)
  {
    match ev
    case UserInput(sid, worker) => s' == At(s, sid, WithUserInput(s.sessions[sid], worker))
    case Post(sid, message) => s' == At(s, sid, Appended(s.sessions[sid], [message]))
    case Declare(run, decision) => s' == Declared(s, run, decision)
    case Acquire(filter, outcome) => Acquires(s, s', filter, now, outcome)
    case AgentEnds(run, end) => s' == Ended(s, run, end, now)
    case Refresh => Refreshes(s, s', now)
    case Reload => Refreshes(AfterReplay(s), s', now)
    case Recover => s' == Recovered(s)
    case SetActive(sid, active) =>
      s' == At(s, sid, Appended(s.sessions[sid].(active := active), [SessionActiveChanged(active)]))
    case UpdateGoal(sid, body) => s' == At(s, sid, WithGoalBody(s.sessions[sid], body))
    case SetUnitActive(unit, active) => s' == s.(units := s.units[unit := s.units[unit].(active := active)])
    case ScheduleNext(sid, run, next, timing) =>
      var schedule := UnitSchedule(s, s.sessions[sid].unit).value;
      var resolved := Schedule.Resolve(schedule, timing, next, now).value;
      s' == WithSchedule(At(s, sid, Appended(s.sessions[sid], [ScheduleMessage(run)])),
              s.sessions[sid].unit, Some(schedule.(nextRunAt := Some(resolved))))
    case Link(parent, child) =>
      var edge := SessionGraph.Edge(parent, child);
      s' == if edge in s.edges then s else s.(edges := s.edges + [edge])
    case Start(unit, parents, body, prompt, scheduled) =>
      s' == (if scheduled then Launched(s, unit) else s)
              .(sessions := s.sessions + [NewSession(unit, body, prompt)],
                edges := s.edges + EdgesFrom(OrRoot(parents), |s.sessions|))
    case Create(unit, parents) =>
      s' == s.(sessions := s.sessions + [EmptySession(unit)],
               edges := s.edges + EdgesFrom(OrRoot(parents), |s.sessions|))
    case ActivateSingleton(sid, parents, body) =>
      s' == At(s, sid, Activated(s.sessions[sid], body))
              .(edges := LinkedUnder(s.edges, |s.sessions|, OrRoot(parents), sid).value)
    case SetPolicy(sid, policy) => s' == At(s, sid, s.sessions[sid].(policy := policy))
    case RepairGraph(homes) =>
      && s' == s.(edges := s'.edges)
      && SessionGraph.RootRepaired(|s.sessions|, OwnersRepaired(s, homes).value, s'.edges, ROOT_SESSION)
  }

  ghost predicate Step(s: State, ev: Event, now: int, s': State) {
    if Accepted(s, ev, now) then Effect(s, ev, now, s') else s' == s
  }
}
