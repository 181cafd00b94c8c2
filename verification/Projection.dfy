/** What wakes a role (src/goal/projections.py): the pure projection of the unread log entries of a
    role to one readiness window. */
module Projection {
  import opened Wrappers
  import opened DispatchModel

  function Signal(e: Entry, role: Role): Option<(WakeKind, Option<int>)>
    requires e.SystemSignal?
  {
    if role in e.targets then Some((SignalReceived, e.availableAfter)) else None
  }

  predicate SentBy(e: Entry, role: Role)
    requires e.Message?
  {
    e.payload.agentRole == Some(role) || e.sender == AgentSender(role)
  }

  function GoalManagerWake(e: Entry, activeWorker: bool): Option<(WakeKind, Option<int>)> {
    match e
    case SessionActiveChanged(active) => if active then Some((SessionActivated, None)) else None
    case GoalStateChanged(state, byGoalManager, _, deferred) =>
      if state != Incomplete || deferred || byGoalManager || activeWorker then None
      else Some((GoalIncomplete, None))
    case SystemSignal(_, _) => Signal(e, GoalManager)
    case ChildGoalCompleted(_) => Some((ChildCompleted, None))
    case GoalBodyUpdated => None
    case Message(p, _, toSession) =>
      if p.userInput then
        if p.workerRequest || p.deferGoalManager then None else Some((UserInputArrived, None))
      else if p.scheduleUpdate then Some((ScheduleUpdated, None))
      else if toSession && SentBy(e, WorkerAgent) then Some((WorkerReport, None))
      else None
  }

  function WorkerWake(e: Entry): Option<(WakeKind, Option<int>)> {
    match e
    case SystemSignal(_, _) => Signal(e, WorkerAgent)
    case Message(p, _, toSession) =>
      if !p.workerRequest || !toSession then None
      else if SentBy(e, GoalManager) then Some((WorkerRequest, None))
      else if p.workerFollowup then Some((WorkerFollowup, None))
      else None
    case _ => None
  }

  function WakeOf(e: Entry, role: Role, activeWorker: bool): Option<(WakeKind, Option<int>)> {
    if role == GoalManager then GoalManagerWake(e, activeWorker) else WorkerWake(e)
  }

  /** The wake reasons among the entries after position `from`, in log order. */
  function Wakes(log: seq<Entry>, from: nat, role: Role, activeWorker: bool): seq<WakeReason> {
    if |log| <= from then []
    else
      var n := |log| - 1;
      var wake := WakeOf(log[n], role, activeWorker);
      Wakes(log[..n], from, role, activeWorker)
        + if wake.Some? then [WakeReason(n + 1, wake.value.0, wake.value.1)] else []
  }

  /** The smallest of the delays, if every reason is delayed. */
  function Available(wakes: seq<WakeReason>): Option<int> {
    if wakes == [] || wakes[|wakes| - 1].availableAfter.None? then None
    else
      var last := wakes[|wakes| - 1].availableAfter;
      if |wakes| == 1 then last
      else
        var earlier := Available(wakes[..|wakes| - 1]);
        if earlier.None? || earlier.value <= last.value then earlier else last
  }

  /** `derive_role_dispatch_readiness` on the entries after a cursor: one window over all of them, or
      nothing when none of them wakes the role. */
  function Derive(log: seq<Entry>, cursor: nat, role: Role, activeWorker: bool): Option<Window> {
    var wakes := Wakes(log, cursor, role, activeWorker);
    if wakes == [] then None else Some(Window(cursor + 1, |log|, wakes, Available(wakes)))
  }

  /** A role is ready exactly when some unread entry wakes it. */
  lemma {:induction false} ReadyIffWoken(log: seq<Entry>, cursor: nat, role: Role, activeWorker: bool)
    ensures Derive(log, cursor, role, activeWorker).Some? <==>
            exists k | cursor <= k < |log| :: WakeOf(log[k], role, activeWorker).Some?
  {
    if cursor < |log| {
      var n := |log| - 1;
      ReadyIffWoken(log[..n], cursor, role, activeWorker);
      if k :| cursor <= k < |log| && WakeOf(log[k], role, activeWorker).Some? {
        if k < n {
          assert log[..n][k] == log[k];
        }
      }
    }
  }

  /** The delay of a window is the least delay of its reasons, and absent as soon as one reason is
      not delayed. */
  lemma {:induction false} AvailableIsLeastDelay(wakes: seq<WakeReason>)
    ensures Available(wakes).Some? <==>
            wakes != [] && forall i | 0 <= i < |wakes| :: wakes[i].availableAfter.Some?
    ensures Available(wakes).Some? ==>
            && (forall i | 0 <= i < |wakes| :: Available(wakes).value <= wakes[i].availableAfter.value)
            && (exists i | 0 <= i < |wakes| :: Available(wakes) == wakes[i].availableAfter)
  {
    if |wakes| > 1 {
      var n := |wakes| - 1;
      AvailableIsLeastDelay(wakes[..n]);
      assert forall i | 0 <= i < n :: wakes[..n][i] == wakes[i];
    }
  }

  /** Not later: no delay is the earliest of all. */
  predicate NoLater(a: Option<int>, b: Option<int>) {
    a.None? || (b.Some? && a.value <= b.value)
  }

  lemma {:induction false} WakesGrow(log: seq<Entry>, more: seq<Entry>, from: nat, role: Role, activeWorker: bool)
    ensures Wakes(log, from, role, activeWorker) <= Wakes(log + more, from, role, activeWorker)
  {
    if more == [] {
      assert log + more == log;
    } else {
      var n := |more| - 1;
      assert (log + more)[..|log| + n] == log + more[..n];
      WakesGrow(log, more[..n], from, role, activeWorker);
    }
  }

  /** The projection is monotone in the log: with cursor and worker activity fixed, appending entries
      never withdraws a readiness, keeps where the window starts, never shrinks it, keeps the reasons
      found so far, and never delays it. */
  lemma ProjectionIsMonotone(log: seq<Entry>, more: seq<Entry>, cursor: nat, role: Role, activeWorker: bool)
    requires Derive(log, cursor, role, activeWorker).Some?
    ensures
      var before := Derive(log, cursor, role, activeWorker).value;
      var after := Derive(log + more, cursor, role, activeWorker);
      && after.Some?
      && after.value.fromSeq == before.fromSeq
      && before.toSeq <= after.value.toSeq
      && before.wakes <= after.value.wakes
      && NoLater(after.value.availableAfter, before.availableAfter)
  {
    WakesGrow(log, more, cursor, role, activeWorker);
    var some := Wakes(log, cursor, role, activeWorker);
    var all := Wakes(log + more, cursor, role, activeWorker);
    AvailableIsLeastDelay(some);
    AvailableIsLeastDelay(all);
    if Available(all).Some? {
      assert forall i | 0 <= i < |some| :: some[i] == all[i];
    }
  }
}
