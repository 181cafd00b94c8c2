/** Next-run resolution of scheduled Units (src/goal/schedules.py) and the completion gate that a
    GoalManager commit passes through (src/goal/dispatch.py, src/goal/sessions.py).
    Times are whole seconds. */
module Schedule {
  import opened Wrappers

  /** The runtime parameter an interval schedule counts from. `UnknownName` is a name that is
      never supplied. */
  datatype Anchor = ScheduledFor | QueuedAt | StartedAt | CompletedAt | UnknownName

  datatype Resolver = Explicit | NextInterval(seconds: int, anchor: Anchor) | UnknownResolver

  datatype UnitSchedule = UnitSchedule(enabled: bool, nextRunAt: Option<int>, resolver: Resolver)

  /** What `_schedule_runtime_parameters` supplies besides the completion time. */
  datatype Timing = Timing(scheduledFor: Option<int>, queuedAt: Option<int>, startedAt: Option<int>)

  datatype ResolveError =
    | UnknownScheduleResolver
    | ExplicitNeedsNextRunAt
    | NeedsPositiveInterval
    | MissingAnchor
    | NotInTheFuture

  function AnchorValue(anchor: Anchor, timing: Timing, completedAt: int): Option<int> {
    match anchor
    case ScheduledFor => timing.scheduledFor
    case QueuedAt => timing.queuedAt
    case StartedAt => timing.startedAt
    case CompletedAt => Some(completedAt)
    case UnknownName => None
  }

  /** The boundaries an interval schedule can land on. */
  ghost predicate IsBoundary(anchor: int, interval: int, t: int) {
    exists k: nat :: t == anchor + k * interval
  }

  /** The closed form the boundary loop has to reach: no iteration at all when the anchor is
      already in the future. */
  function Boundary(anchor: int, interval: int, completed: int): int
    requires interval >= 1
  {
    if completed < anchor then anchor else anchor + ((completed - anchor) / interval + 1) * interval
  }

  lemma ProductMonotone(j: int, k: int, interval: int)
    requires interval >= 1
    ensures j <= k ==> j * interval <= k * interval
  {
  }

  /** The closed form is the least boundary strictly after the completion time. */
  lemma BoundaryIsLeast(anchor: int, interval: int, completed: int)
    requires interval >= 1
    ensures IsBoundary(anchor, interval, Boundary(anchor, interval, completed))
    ensures completed < Boundary(anchor, interval, completed)
    ensures forall t :: IsBoundary(anchor, interval, t) && completed < t
                    ==> Boundary(anchor, interval, completed) <= t
  {
    var k0: nat := if completed < anchor then 0 else (completed - anchor) / interval + 1;
    assert Boundary(anchor, interval, completed) == anchor + k0 * interval;
    forall t | IsBoundary(anchor, interval, t) && completed < t
      ensures anchor + k0 * interval <= t
    {
      var k: nat :| t == anchor + k * interval;
      ProductMonotone(k, k0 - 1, interval);
      ProductMonotone(k0, k, interval);
    }
  }

  /** Moving the anchor one interval closer does not change where the boundary lands. */
  lemma BoundaryOfNextAnchor(anchor: int, interval: int, completed: int)
    requires interval >= 1 && anchor <= completed
    ensures Boundary(anchor + interval, interval, completed) == Boundary(anchor, interval, completed)
  {
    var d := completed - anchor;
    var q, r := d / interval, d % interval;
    assert d == q * interval + r;
    if d < interval {
      ProductMonotone(1, q, interval);
      assert q == 0;
    } else {
      QuotientOfShift(d, interval);
      assert (q + 1) * interval == q * interval + interval;
    }
  }

  lemma QuotientOfShift(d: int, interval: int)
    requires interval >= 1
    ensures (d - interval) / interval == d / interval - 1
  {
    var q, p := d / interval, (d - interval) / interval;
    assert d == q * interval + d % interval;
    assert d - interval == p * interval + (d - interval) % interval;
    ProductMonotone(q, p, interval);
    ProductMonotone(p + 2, q, interval);
    assert (p + 2) * interval == p * interval + 2 * interval;
  }

  /** The boundary loop itself: step from the anchor until the completion time is passed. */
  method NextIntervalBoundary(anchor: int, interval: int, completed: int) returns (candidate: int)
    requires interval >= 1
    ensures candidate == Boundary(anchor, interval, completed)
  {
    candidate := anchor;
    while candidate <= completed
      invariant Boundary(candidate, interval, completed) == Boundary(anchor, interval, completed)
      decreases completed - candidate
    {
      BoundaryOfNextAnchor(candidate, interval, completed);
      candidate := candidate + interval;
    }
  }

  /** `_schedule_next_unit_run_locked` on an enabled schedule: run the resolver, then refuse a time
      that is not after the completion. */
  function Resolve(schedule: UnitSchedule, timing: Timing, callNext: Option<int>, completedAt: int)
    : (r: Result<int, ResolveError>)
    ensures r.Ok? ==> completedAt < r.value
  {
    match schedule.resolver
    case UnknownResolver => Err(UnknownScheduleResolver)
    case Explicit =>
      if callNext.None? then Err(ExplicitNeedsNextRunAt)
      else if callNext.value <= completedAt then Err(NotInTheFuture)
      else Ok(callNext.value)
    case NextInterval(seconds, anchor) =>
      if seconds < 1 then Err(NeedsPositiveInterval)
      else
        var from := AnchorValue(anchor, timing, completedAt);
        if from.None? then Err(MissingAnchor)
        else
          BoundaryIsLeast(from.value, seconds, completedAt);
          Ok(Boundary(from.value, seconds, completedAt))
  }

  /** What the resolver answers, schedule by schedule. An explicit schedule takes the time the call gives, if
      it is later than the completion. An interval schedule needs a positive interval and its anchor, each
      name standing for its own time, and answers the least boundary after the completion. */
  lemma ResolveIsExact(schedule: UnitSchedule, timing: Timing, callNext: Option<int>, completedAt: int)
    ensures
      var r := Resolve(schedule, timing, callNext, completedAt);
      match schedule.resolver
      case UnknownResolver => r == Err(UnknownScheduleResolver)
      case Explicit =>
        && (r.Ok? <==> callNext.Some? && completedAt < callNext.value)
        && (r.Ok? ==> r.value == callNext.value)
      case NextInterval(seconds, anchor) =>
        && (r.Ok? <==>
              && seconds >= 1 && anchor != UnknownName
              && (anchor == ScheduledFor ==> timing.scheduledFor.Some?)
              && (anchor == QueuedAt ==> timing.queuedAt.Some?)
              && (anchor == StartedAt ==> timing.startedAt.Some?))
        && forall from: int |
             || (anchor == ScheduledFor && timing.scheduledFor == Some(from))
             || (anchor == QueuedAt && timing.queuedAt == Some(from))
             || (anchor == StartedAt && timing.startedAt == Some(from))
             || (anchor == CompletedAt && completedAt == from) ::
             r.Ok? ==>
               && completedAt < r.value && IsBoundary(from, seconds, r.value)
               && forall t | IsBoundary(from, seconds, t) && completedAt < t :: r.value <= t
  {
    hide Boundary;
    hide IsBoundary;
    match schedule.resolver
    case NextInterval(seconds, anchor) =>
      var from := AnchorValue(anchor, timing, completedAt);
      if seconds >= 1 && from.Some? {
        BoundaryIsLeast(from.value, seconds, completedAt);
      }
    case _ =>
  }

  /** The same resolution with the boundary loop run. */
  method ResolveNextRun(schedule: UnitSchedule, timing: Timing, callNext: Option<int>, completedAt: int)
    returns (r: Result<int, ResolveError>)
    ensures r == Resolve(schedule, timing, callNext, completedAt)
    ensures schedule.resolver.UnknownResolver? ==> r.Err?
    ensures schedule.resolver.Explicit? ==>
      && (r.Ok? <==> callNext.Some? && completedAt < callNext.value)
      && (r.Ok? ==> r.value == callNext.value)
    ensures schedule.resolver.NextInterval? ==>
      var seconds, anchor := schedule.resolver.seconds, schedule.resolver.anchor;
      && (r.Ok? <==>
            && seconds >= 1 && anchor != UnknownName
            && (anchor == ScheduledFor ==> timing.scheduledFor.Some?)
            && (anchor == QueuedAt ==> timing.queuedAt.Some?)
            && (anchor == StartedAt ==> timing.startedAt.Some?))
      && forall from: int |
           || (anchor == ScheduledFor && timing.scheduledFor == Some(from))
           || (anchor == QueuedAt && timing.queuedAt == Some(from))
           || (anchor == StartedAt && timing.startedAt == Some(from))
           || (anchor == CompletedAt && completedAt == from) ::
           r.Ok? ==>
             && completedAt < r.value && IsBoundary(from, seconds, r.value)
             && forall t | IsBoundary(from, seconds, t) && completedAt < t :: r.value <= t
  {
    hide IsBoundary;
    ResolveIsExact(schedule, timing, callNext, completedAt);
    match schedule.resolver
    case UnknownResolver => r := Err(UnknownScheduleResolver);
    case Explicit =>
      if callNext.None? {
        return Err(ExplicitNeedsNextRunAt);
      }
      r := if callNext.value <= completedAt then Err(NotInTheFuture) else Ok(callNext.value);
    case NextInterval(seconds, anchor) =>
      if seconds < 1 {
        return Err(NeedsPositiveInterval);
      }
      var from := AnchorValue(anchor, timing, completedAt);
      if from.None? {
        return Err(MissingAnchor);
      }
      var next := NextIntervalBoundary(from.value, seconds, completedAt);
      r := Ok(next);
  }

  datatype Gate = Unscheduled | Kept | Resolved(next: int) | Blocked

  /** `_prepare_scheduled_unit_completion`: whether a completion may go through, and the next run
      time it sets on the way. */
  function CompletionGate(schedule: Option<UnitSchedule>, timing: Timing, callNext: Option<int>, completedAt: int): Gate {
    if schedule.None? || !schedule.value.enabled then Unscheduled
    else
      var next := schedule.value.nextRunAt;
      var resolveNext :=
        !schedule.value.resolver.Explicit? || next.None? || next.value <= completedAt;
      if !resolveNext then Kept
      else
        match Resolve(schedule.value, timing, callNext, completedAt)
        case Err(_) => Blocked
        case Ok(t) => Resolved(t)
  }

  function AfterGate(schedule: Option<UnitSchedule>, gate: Gate): Option<UnitSchedule> {
    if schedule.Some? && gate.Resolved? then Some(schedule.value.(nextRunAt := Some(gate.next))) else schedule
  }

  /** `_unit_schedule_due`. */
  predicate IsDue(schedule: Option<UnitSchedule>, now: int) {
    && schedule.Some? && schedule.value.enabled
    && schedule.value.nextRunAt.Some? && schedule.value.nextRunAt.value <= now
  }

  function Cleared(schedule: Option<UnitSchedule>): Option<UnitSchedule> {
    if schedule.Some? then Some(schedule.value.(nextRunAt := None)) else None
  }

  /** The gate in the terms of the schedule: nothing to do without an enabled schedule; an explicit one whose next
      run lies after the completion is kept; any other asks the resolver, is blocked when that refuses, and
      takes its answer otherwise. */
  lemma GateIsExact(schedule: Option<UnitSchedule>, timing: Timing, callNext: Option<int>, completedAt: int)
    ensures
      var gate, r := CompletionGate(schedule, timing, callNext, completedAt),
        if schedule.Some? then Resolve(schedule.value, timing, callNext, completedAt) else Err(UnknownScheduleResolver);
      var enabled := schedule.Some? && schedule.value.enabled;
      var kept := enabled && schedule.value.resolver.Explicit? && schedule.value.nextRunAt.Some?
        && completedAt < schedule.value.nextRunAt.value;
      && (gate.Unscheduled? <==> !enabled)
      && (gate.Kept? <==> kept)
      && (gate.Blocked? <==> enabled && !kept && r.Err?)
      && (gate.Resolved? <==> enabled && !kept && r.Ok?)
      && (gate.Resolved? ==> gate.next == r.value)
      && AfterGate(schedule, gate) ==
           (if gate.Resolved? then Some(schedule.value.(nextRunAt := Some(r.value))) else schedule)
  {
    hide Resolve;
  }

  /** A completion that the gate lets through leaves an enabled schedule with a next run strictly
      in the future, and it is blocked exactly when a new time is needed and cannot be resolved. */
  lemma GateOpensOnlyOnFutureRun(schedule: Option<UnitSchedule>, timing: Timing, callNext: Option<int>, completedAt: int)
    requires schedule.Some? && schedule.value.enabled
    ensures
      var gate := CompletionGate(schedule, timing, callNext, completedAt);
      var after := AfterGate(schedule, gate);
      && (!gate.Blocked? ==> after.value.nextRunAt.Some? && completedAt < after.value.nextRunAt.value)
      && (gate.Blocked? <==>
           && (schedule.value.resolver != Explicit
               || schedule.value.nextRunAt.None?
               || schedule.value.nextRunAt.value <= completedAt)
           && Resolve(schedule.value, timing, callNext, completedAt).Err?)
  {
  }
}
