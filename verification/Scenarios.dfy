/** Building blocks for concrete runs of the protocol: a store with one Session, in which one role at a time
    is ready. */
module Scenarios {
  import opened Wrappers
  import opened DispatchModel
  import opened Projection
  import opened SelectionPolicy
  import opened Protocol
  import opened LeaseInvariant
  import opened StepInvariant
  import opened Behaviours
  import opened Signatures

  const NORMAL := SchedulingPolicy(0, 0)

  /** One active Session in one active Unit, and nothing else. */
  function Empty(): State {
    State([Session(true, Some(0), NORMAL, None, 0, 0, [])], [WorkUnit(true, None)], [], [], [], 0)
  }

  /** The Session has its goal and the entry that announces it. */
  function Opened(): State {
    At(Empty(), 0, WithGoalBody(Empty().sessions[0], "old"))
  }

  /** One role of Session 0 is ready with this window, and nothing else is. */
  ghost predicate OneOpening(s: State, role: Role, window: Window) {
    && |s.sessions| == 1 && Dispatchable(s.sessions[0]) && !UnitRefuses(s.units, s.sessions[0].unit)
    && (forall r | r in s.runs :: r.lease != Acquired)
    && (forall e | e in s.readiness :: !Live(e))
    && Projected(s.sessions, s.runs, 0, role) == Some(window) && window.availableAfter == None
    && (forall other | other != role :: Projected(s.sessions, s.runs, 0, other) == None)
  }

  function EntryFor(s: State, role: Role, window: Window, now: int): Readiness {
    Readiness(s.nextReadiness, 0, role, Ready, now, window)
  }

  function MadeReady(s: State, role: Role, window: Window, now: int): State {
    s.(readiness := [EntryFor(s, role, window, now)], nextReadiness := s.nextReadiness + 1)
  }

  /** The state after the acquisition of that entry. */
  function Dispatched(s: State, role: Role, window: Window, agentUser: Option<nat>, now: int): State
    requires |s.sessions| == 1 && s.sessions[0].goal.Some?
  {
    s.(readiness := [EntryFor(s, role, window, now).(status := Taken)], nextReadiness := s.nextReadiness + 1,
       runs := s.runs + [Run(0, role, Acquired, s.nextReadiness, agentUser, now, s.sessions[0].goal.value.body, window,
                             None, Unfinished, 0)])
  }

  lemma NoReadyFor(list: seq<Readiness>, sid: SessionId, role: Role)
    requires forall e | e in list :: e.status != Ready || !IsFor(e, sid, role)
    ensures ReadyFor(list, sid, role) == None
  {
    ReadyForIsMember(list, sid, role);
  }

  lemma OnlyReadyFor(list: seq<Readiness>, e: Readiness)
    requires list == [e] && e.status == Ready
    ensures ReadyFor(list, e.session, e.role) == Some(e)
  {
    ReadyForIsMember(list, e.session, e.role);
    assert e in list && IsFor(e, e.session, e.role);
  }

  /** The refresh makes exactly that entry, and a second refresh leaves it. */
  lemma OneIsRefreshed(s: State, list: seq<Readiness>, next: nat, role: Role, window: Window, now: int)
    requires OneOpening(s, role, window)
    requires (list == s.readiness && next == s.nextReadiness)
      || (list == [EntryFor(s, role, window, now)] && next == s.nextReadiness + 1)
    ensures Refreshes(s.(readiness := list, nextReadiness := next), MadeReady(s, role, window, now), now)
  {
    hide Derive;
    hide ReadyFor;
    hide WaitFires;
    var e := EntryFor(s, role, window, now);
    var list', next' := [e], s.nextReadiness + 1;
    OnlyReadyFor(list', e);
    forall sid: SessionId, other: Role
      ensures RefreshedFor(s.sessions, s.runs, list, list', next, next', now, sid, other)
    {
      if sid == 0 && other == role {
        if list == s.readiness {
          NoReadyFor(list, sid, role);
        }
      } else {
        NoReadyFor(list, sid, other);
        NoReadyFor(list', sid, other);
      }
    }
  }

  lemma NothingExpires(s: State, now: int)
    requires (forall r | r in s.runs :: r.lease != Acquired) && forall e | e in s.readiness :: e.status != Taken
    ensures AfterExpiry(s, now) == s
  {
    var first := AfterExpiry(s, now);
    assert first.runs == s.runs;
    assert first.readiness == s.readiness;
    assert first.sessions == s.sessions;
  }

  /** The acquisition of the one entry that is ready. */
  lemma OneIsAcquired(s: State, role: Role, window: Window, agentUser: Option<nat>, now: int)
    requires OneOpening(s, role, window)
    ensures Step(s, Acquire(None, LeaseTaken(|s.runs|, 0, agentUser)), now, Dispatched(s, role, window, agentUser, now))
  {
    var ready := MadeReady(s, role, window, now);
    OneIsRefreshed(s, s.readiness, s.nextReadiness, role, window, now);
    OneIsRefreshed(s, ready.readiness, ready.nextReadiness, role, window, now);
    NothingExpires(s, now);
    hide Refreshes;
    hide IsChoice;
    hide Projected;
    hide AfterExpiry;
    assert ready.readiness[0] in ready.readiness;
    assert !AnyUncovered(ready);
    assert ReconcilesVia(s, ready, ready, now);
    var s' := Dispatched(s, role, window, agentUser, now);
    assert MarkStale(ready.readiness, ready.sessions, None, now) == ready.readiness;
    assert s' == Leased(ready, None, 0, agentUser, now);
    assert AcquiresVia(s, ready, ready, s', None, now, LeaseTaken(|s.runs|, 0, agentUser));
  }

  /** A run goes on by one step. */
  lemma Extended(states: seq<State>, moments: seq<Moment>, m: Moment, s': State)
    requires IsBehaviour(states, moments) && |states| == |moments| + 1
    requires Step(states[|moments|], m.event, m.now, s')
    requires forall i | 0 <= i < |moments| :: moments[i].now <= m.now
    ensures IsBehaviour(states + [s'], moments + [m])
  {
    hide Step;
    hide Initial;
    var all, times := states + [s'], moments + [m];
    forall i | 0 <= i < |times|
      ensures Step(all[i], times[i].event, times[i].now, all[i + 1])
    {
      if i < |moments| {
        assert Step(states[i], moments[i].event, moments[i].now, states[i + 1]);
      }
    }
  }

  /** The state is the last one of a run of the protocol up to time `now`, with fresh run ids. */
  ghost predicate Reached(s: State, now: int) {
    exists states, moments :: EndsIn(states, moments, s, now)
  }

  ghost predicate EndsIn(states: seq<State>, moments: seq<Moment>, s: State, now: int) {
    && IsBehaviour(states, moments) && |states| == |moments| + 1 && states[|moments|] == s
    && forall i | 0 <= i < |moments| :: moments[i].now <= now && FreshIds(states[i], moments[i].event)
  }

  lemma ReachedNext(s: State, before: int, ev: Event, now: int, s': State)
    requires Reached(s, before) && before <= now && Step(s, ev, now, s') && FreshIds(s, ev)
    ensures Reached(s', now)
  {
    hide IsBehaviour;
    hide Step;
    hide FreshIds;
    var states, moments :| EndsIn(states, moments, s, before);
    Extended(states, moments, Moment(now, ev), s');
    assert EndsIn(states + [s'], moments + [Moment(now, ev)], s', now);
  }

  lemma InitiallyReached(s: State, now: int)
    requires Initial(s)
    ensures Reached(s, now)
  {
    assert EndsIn([s], [], s, now);
  }

  lemma ReachedHolds(s: State, now: int)
    requires Reached(s, now)
    ensures Inv(s)
  {
    var states, moments :| EndsIn(states, moments, s, now);
    AlwaysInv(states, moments, |moments|);
  }

  lemma OpenedIsReached()
    ensures Reached(Opened(), 0)
  {
    InitiallyReached(Empty(), 0);
    assert Step(Empty(), UpdateGoal(0, "old"), 0, Opened());
    ReachedNext(Empty(), 0, UpdateGoal(0, "old"), 0, Opened());
  }
}
