/** Scheduled Units over whole runs (src/goal/sessions.py, `run_scheduled_units`): a launch uses up the
    next run time, and only a resolution sets a new one. */
module ScheduledRuns {
  import opened Wrappers
  import opened DispatchModel
  import opened Protocol
  import opened StepInvariant
  import opened Preservation
  import opened WindowTiling
  import opened Behaviours
  import opened Outcomes
  import opened SelectionPolicy
  import opened GoalInvariant
  import Schedule
  import SessionGraph

  function NextRun(s: State, unit: UnitId): Option<int> {
    var schedule := UnitSchedule(s, Some(unit));
    if schedule.Some? then schedule.value.nextRunAt else None
  }

  /** The step is a scheduled launch of this Unit that goes through. */
  ghost predicate Launches(s: State, ev: Event, now: int, unit: UnitId) {
    ev.Start? && ev.scheduled && ev.owner == Some(unit) && Accepted(s, ev, now)
  }

  /** The step resolves a next run time for this Unit: a GoalManager sets it outright, or completes a
      goal through the schedule's gate. */
  ghost predicate SetsNextRun(s: State, ev: Event, now: int, unit: UnitId) {
    || (ev.ScheduleNext? && Accepted(s, ev, now) && s.sessions[ev.sid].unit == Some(unit))
    || (&& ev.AgentEnds? && ev.run < |s.runs| && s.runs[ev.run].session < |s.sessions|
        && Decides(s, ev, s.runs[ev.run].session)
        && s.runs[ev.run].declared.value.DeclaredComplete?
        && s.sessions[s.runs[ev.run].session].unit == Some(unit)
        && GateFor(s, ev.run, s.runs[ev.run].declared.value.nextRunAt, ev.end.timing, now).Resolved?)
  }

  lemma EndKeepsNextRun(s: State, r: RunId, end: AgentEnd, now: int, unit: UnitId)
    requires Inv(s) && r < |s.runs| && s.runs[r].session < |s.sessions|
    requires !SetsNextRun(s, AgentEnds(r, end), now, unit)
    ensures NextRun(Ended(s, r, end, now), unit) == NextRun(s, unit)
  {
    hide Inv;
    hide FirstConflict;
    hide Schedule.CompletionGate;
  }

  /** A cleared next run time stays clear until a resolution. */
  lemma StepKeepsClear(s: State, ev: Event, now: int, s': State, unit: UnitId)
    requires Inv(s) && Step(s, ev, now, s') && NextRun(s, unit) == None
    requires !SetsNextRun(s, ev, now, unit)
    ensures NextRun(s', unit) == None
  {
    hide Inv;
    hide Ended;
    hide Reconciles;
    hide ReadinessRefreshed;
    hide IsChoice;
    hide SessionGraph.Reaches;
    if Accepted(s, ev, now) {
      if ev.AgentEnds? {
        EndKeepsNextRun(s, ev.run, ev.end, now, unit);
      } else if ev.Acquire? {
        AcquireKeepsUnits(s, ev, now, s');
      }
    }
  }

  lemma AcquireKeepsUnits(s: State, ev: Event, now: int, s': State)
    requires Inv(s) && ev.Acquire? && Accepted(s, ev, now) && Effect(s, ev, now, s')
    ensures s'.units == s.units
  {
    hide Inv;
    hide Reconciles;
    hide Refreshes;
    hide IsChoice;
    hide Candidate;
    hide UnitRefuses;
    var repaired, ready :| AcquiresVia(s, repaired, ready, s', ev.filter, now, ev.outcome);
    AcquireShape(s, repaired, ready, now);
    if s' != s && ev.outcome.LeaseTaken? {
      ChoiceInRange(ready, ev.filter, now, ev.outcome.chosen);
    }
  }

  lemma LaunchClears(s: State, ev: Event, now: int, s': State, unit: UnitId)
    requires Launches(s, ev, now, unit) && Step(s, ev, now, s')
    ensures NextRun(s', unit) == None
  {
  }

  lemma LaunchWasDue(s: State, ev: Event, now: int, unit: UnitId)
    requires Launches(s, ev, now, unit)
    ensures NextRun(s, unit).Some? && NextRun(s, unit).value <= now
  {
  }

  /** A step strictly between `i` and `j` resolves a next run time for the Unit. */
  ghost predicate ResolvedBetween(states: seq<State>, moments: seq<Moment>, i: nat, j: nat, unit: UnitId)
    requires j <= |moments| < |states|
  {
    exists m: nat | i < m < j :: SetsNextRun(states[m], moments[m].event, moments[m].now, unit)
  }

  lemma {:induction false} ClearUntilResolved(states: seq<State>, moments: seq<Moment>, i: nat, j: nat, unit: UnitId)
    requires IsBehaviour(states, moments) && i < j < |states|
    requires NextRun(states[i + 1], unit) == None && !ResolvedBetween(states, moments, i, j, unit)
    ensures NextRun(states[j], unit) == None
  {
    if i + 1 < j {
      var m: nat := j - 1;
      hide SetsNextRun;
      hide Inv;
      hide Step;
      hide AllTiled;
      hide Initial;
      hide NextRun;
      assert !ResolvedBetween(states, moments, i, m, unit);
      ClearUntilResolved(states, moments, i, m, unit);
      AlwaysInv(states, moments, m);
      BehaviourStep(states, moments, m);
      StepKeepsClear(states[m], moments[m].event, moments[m].now, states[j], unit);
    }
  }

  /** After a scheduled launch of a Unit there is no further one until its next run time has been
      resolved again. */
  lemma NoRelaunchBeforeResolution(states: seq<State>, moments: seq<Moment>, i: nat, j: nat, unit: UnitId)
    requires IsBehaviour(states, moments) && i < j < |moments|
    requires Launches(states[i], moments[i].event, moments[i].now, unit)
    requires Launches(states[j], moments[j].event, moments[j].now, unit)
    ensures ResolvedBetween(states, moments, i, j, unit)
  {
    hide Launches;
    hide NextRun;
    hide Step;
    hide ResolvedBetween;
    hide Initial;
    BehaviourStep(states, moments, i);
    LaunchClears(states[i], moments[i].event, moments[i].now, states[i + 1], unit);
    LaunchWasDue(states[j], moments[j].event, moments[j].now, unit);
    if !ResolvedBetween(states, moments, i, j, unit) {
      ClearUntilResolved(states, moments, i, j, unit);
      assert false;
    }
  }

  /** A goal whose Unit has an enabled schedule completes only with a next run strictly after the
      completion. */
  lemma CompletionIsScheduled(s: State, ev: Event, now: int, s': State, sid: SessionId)
    requires Inv(s) && Step(s, ev, now, s') && sid < |s.sessions|
    requires !IsComplete(s, sid) && IsComplete(s', sid)
    requires UnitSchedule(s, s.sessions[sid].unit).Some? && UnitSchedule(s, s.sessions[sid].unit).value.enabled
    ensures
      var after := UnitSchedule(s', s.sessions[sid].unit);
      after.Some? && after.value.nextRunAt.Some? && now < after.value.nextRunAt.value
  {
    StepKeepsInv(s, ev, now, s');
    assert Decides(s, ev, sid);
    hide Inv;
    hide SessionFacts;
    hide RunsContinue;
    hide FirstConflict;
    var unit := s.sessions[sid].unit;
    if s.runs[ev.run].declared.value.DeclaredWaiting? {
      WaitingDoesNotComplete(s, ev.run, ev.end, now);
    } else {
      var gate := GateFor(s, ev.run, s.runs[ev.run].declared.value.nextRunAt, ev.end.timing, now);
      CompletedUnit(s, ev.run, ev.end, now);
      Schedule.GateOpensOnlyOnFutureRun(UnitSchedule(s, unit), ev.end.timing, s.runs[ev.run].declared.value.nextRunAt, now);
    }
  }

  /** Which next run that is. An interval schedule gets the least boundary after the completion, counted from the
      time its anchor names; an explicit one keeps a next run that is still to come and otherwise gets the one
      that the run declared. */
  lemma CompletionSetsNextRun(s: State, ev: Event, now: int, s': State, sid: SessionId)
    requires Inv(s) && Step(s, ev, now, s') && sid < |s.sessions|
    requires !IsComplete(s, sid) && IsComplete(s', sid)
    requires UnitSchedule(s, s.sessions[sid].unit).Some? && UnitSchedule(s, s.sessions[sid].unit).value.enabled
    ensures ev.AgentEnds? && ev.end.Returned? && ev.run < |s.runs|
    ensures s.runs[ev.run].declared.Some? && s.runs[ev.run].declared.value.DeclaredComplete?
    ensures
      var before, after := UnitSchedule(s, s.sessions[sid].unit).value, UnitSchedule(s', s.sessions[sid].unit);
      var timing, declared := ev.end.timing, s.runs[ev.run].declared.value.nextRunAt;
      && after == Some(before.(nextRunAt := if after.Some? then after.value.nextRunAt else None))
      && after.value.nextRunAt.Some?
      && (before.resolver.Explicit? ==>
            after.value.nextRunAt ==
              if before.nextRunAt.Some? && now < before.nextRunAt.value then before.nextRunAt else declared)
      && (before.resolver.NextInterval? ==>
            forall from: int |
              || (before.resolver.anchor == Schedule.ScheduledFor && timing.scheduledFor == Some(from))
              || (before.resolver.anchor == Schedule.QueuedAt && timing.queuedAt == Some(from))
              || (before.resolver.anchor == Schedule.StartedAt && timing.startedAt == Some(from))
              || (before.resolver.anchor == Schedule.CompletedAt && now == from) ::
              && Schedule.IsBoundary(from, before.resolver.seconds, after.value.nextRunAt.value)
              && now < after.value.nextRunAt.value
              && forall t | Schedule.IsBoundary(from, before.resolver.seconds, t) && now < t :: after.value.nextRunAt.value <= t)
      && !before.resolver.UnknownResolver?
  {
    hide Inv;
    hide Step;
    hide Ended;
    hide Fence;
    hide Schedule.CompletionGate;
    hide Schedule.Resolve;
    hide Schedule.IsBoundary;
    CompletingTurn(s, ev, now, s', sid);
    FencePassed(s, ev.run);
    var unit, next := s.sessions[sid].unit, s.runs[ev.run].declared.value.nextRunAt;
    CompletedUnit(s, ev.run, ev.end, now);
    Schedule.GateIsExact(UnitSchedule(s, unit), ev.end.timing, next, now);
    Schedule.ResolveIsExact(UnitSchedule(s, unit).value, ev.end.timing, next, now);
    assert UnitSchedule(s', unit) ==
      Schedule.AfterGate(UnitSchedule(s, unit), GateFor(s, ev.run, next, ev.end.timing, now));
  }

  /** The schedule that a completion commit leaves is the one behind its gate. */
  lemma CompletedUnit(s: State, r: RunId, end: AgentEnd, now: int)
    requires r < |s.runs| && Decides(s, AgentEnds(r, end), s.runs[r].session)
    requires s.runs[r].declared.value.DeclaredComplete?
    requires s.sessions[s.runs[r].session].goal.Some?
    ensures
      var s', sid := Ended(s, r, end, now), s.runs[r].session;
      var gate := GateFor(s, r, s.runs[r].declared.value.nextRunAt, end.timing, now);
      var unit := s.sessions[sid].unit;
      && (gate.Blocked? ==> !IsComplete(s', sid))
      && (!gate.Blocked? ==> UnitSchedule(s', unit) == Schedule.AfterGate(UnitSchedule(s, unit), gate))
  {
    hide FirstConflict;
    hide Schedule.CompletionGate;
    var sid := s.runs[r].session;
    var gate := GateFor(s, r, s.runs[r].declared.value.nextRunAt, end.timing, now);
    if gate.Blocked? {
      assert Ended(s, r, end, now) == CommitBlocked(s, r);
    } else {
      assert Ended(s, r, end, now).units == OwnCompletion(s, r, gate).units;
    }
  }
}
