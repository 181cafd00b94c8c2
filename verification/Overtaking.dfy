/** Bounded overtaking: an entry that has starved is leased after finitely many acquisitions of others
    (src/goal/policy.py; the first ready time is kept by src/goal/readiness.py). */
module Overtaking {
  import opened Wrappers
  import opened DispatchModel
  import opened SelectionPolicy
  import opened Protocol
  import opened LeaseInvariant
  import opened GoalInvariant
  import opened StepInvariant
  import opened Preservation
  import opened WindowTiling
  import opened Behaviours

  /** The same readiness entry, up to its status and window. */
  predicate SameKey(e: Readiness, f: Readiness) {
    e.id == f.id && e.session == f.session && e.role == f.role && e.firstReadyAt == f.firstReadyAt
  }

  /** The ids of the ready entries that come before `e` in first-come-first-served order. */
  function Ahead(list: seq<Readiness>, e: Readiness): set<nat> {
    set f | f in list && f.status == Ready && FifoBefore(f, e) :: f.id
  }

  /** Every ready entry was ready before, or is new and became ready now. */
  ghost predicate ReadyFrom(list: seq<Readiness>, list': seq<Readiness>, next: nat, now: int) {
    forall f' | f' in list' && f'.status == Ready ::
      || (f'.firstReadyAt == now && next <= f'.id)
      || exists f | f in list :: f.status == Ready && SameKey(f, f')
  }

  lemma ReadyFromTransitive(a: seq<Readiness>, b: seq<Readiness>, c: seq<Readiness>, next: nat, next': nat, now: int)
    requires ReadyFrom(a, b, next, now) && ReadyFrom(b, c, next', now) && next <= next'
    ensures ReadyFrom(a, c, next, now)
  {
    forall h | h in c && h.status == Ready
      ensures (h.firstReadyAt == now && next <= h.id) || exists f | f in a :: f.status == Ready && SameKey(f, h)
    {
      if !(h.firstReadyAt == now && next' <= h.id) {
        var g :| g in b && g.status == Ready && SameKey(g, h);
        if !(g.firstReadyAt == now && next <= g.id) {
          var f :| f in a && f.status == Ready && SameKey(f, g);
        }
      }
    }
  }

  lemma ShrunkReadyFrom(list: seq<Readiness>, list': seq<Readiness>, next: nat, now: int)
    requires |list| == |list'| && forall i | 0 <= i < |list| :: list'[i] == list[i] || list'[i].status != Ready
    ensures ReadyFrom(list, list', next, now)
  {
    forall f' | f' in list' && f'.status == Ready
      ensures exists f | f in list :: f.status == Ready && SameKey(f, f')
    {
      var i :| 0 <= i < |list'| && list'[i] == f';
      assert list[i] in list && SameKey(list[i], f');
    }
  }

  lemma RefreshedReadyFrom(s: State, s': State, now: int)
    requires Refreshes(s, s', now)
    ensures ReadyFrom(s.readiness, s'.readiness, s.nextReadiness, now) && s.nextReadiness <= s'.nextReadiness
  {
    hide RefreshedFor;
    forall e | e in s'.readiness && e.status == Ready
      ensures
        || (e.firstReadyAt == now && s.nextReadiness <= e.id)
        || exists f | f in s.readiness :: f.status == Ready && SameKey(f, e)
    {
      RefreshedEntry(s'.sessions, s.runs, s.readiness, s'.readiness, s.nextReadiness, s'.nextReadiness, now, e);
      if e in s.readiness {
        assert SameKey(e, e);
      } else {
        assert Open(s'.sessions, s.runs, s.readiness, e.session, e.role);
        if !(s.nextReadiness <= e.id < s'.nextReadiness && e.firstReadyAt == now) {
          var f :| f in s.readiness && f.status == Ready && f.id == e.id && IsFor(f, e.session, e.role)
            && f.firstReadyAt == e.firstReadyAt;
          assert SameKey(f, e);
        }
      }
    }
  }

  /** The lists that an acquisition goes through before it selects. */
  lemma SelectedReadyFrom(s: State, repaired: State, ready: State, now: int)
    requires Reconciles(s, repaired, now) && Refreshes(repaired, ready, now)
    ensures ReadyFrom(s.readiness, ready.readiness, s.nextReadiness, now)
  {
    hide Refreshes;
    hide ReadyFrom;
    var mid :| ReconcilesVia(s, mid, repaired, now);
    var first := AfterExpiry(s, now);
    ShrunkReadyFrom(s.readiness, first.readiness, s.nextReadiness, now);
    RefreshedReadyFrom(first, mid, now);
    ReadyFromTransitive(s.readiness, first.readiness, mid.readiness, s.nextReadiness, s.nextReadiness, now);
    if AnyUncovered(mid) {
      RefreshedReadyFrom(Signalled(mid), repaired, now);
      ReadyFromTransitive(s.readiness, mid.readiness, repaired.readiness, s.nextReadiness, mid.nextReadiness, now);
    }
    RefreshedReadyFrom(repaired, ready, now);
    ReadyFromTransitive(s.readiness, repaired.readiness, ready.readiness, s.nextReadiness, repaired.nextReadiness, now);
  }

  lemma AcquiredReadyFrom(s: State, ev: Event, now: int, s': State)
    requires Inv(s) && ev.Acquire? && Accepted(s, ev, now) && Effect(s, ev, now, s')
    ensures ReadyFrom(s.readiness, s'.readiness, s.nextReadiness, now)
  {
    hide Inv;
    hide Reconciles;
    hide Refreshes;
    hide IsChoice;
    hide Candidate;
    hide UnitRefuses;
    hide ReadyFrom;
    hide IsStaleAt;
    var repaired, ready :| AcquiresVia(s, repaired, ready, s', ev.filter, now, ev.outcome);
    SelectedReadyFrom(s, repaired, ready, now);
    if s' == s {
      ShrunkReadyFrom(s.readiness, s'.readiness, s.nextReadiness, now);
    } else {
      if ev.outcome.LeaseTaken? {
        ChoiceInRange(ready, ev.filter, now, ev.outcome.chosen);
      }
      ShrunkReadyFrom(ready.readiness, s'.readiness, s.nextReadiness, now);
      ReadyFromTransitive(s.readiness, ready.readiness, s'.readiness, s.nextReadiness, s.nextReadiness, now);
    }
  }

  lemma EndShrinks(s: State, r: RunId, end: AgentEnd, now: int)
    requires r < |s.runs| && s.runs[r].session < |s.sessions|
    ensures ListShrinks(s.readiness, Ended(s, r, end, now).readiness)
  {
    hide Fence;
    hide GateFor;
    hide WorkerRequested;
    hide Reported;
    hide Notified;
    hide Appended;
    hide RaiseCursor;
    hide CompletionEntries;
    hide SetIncomplete;
  }

  /** No step but a restart recovery makes an old entry ready again. */
  lemma StepReadyFrom(s: State, ev: Event, now: int, s': State)
    requires Inv(s) && Step(s, ev, now, s') && !ev.Recover?
    ensures ReadyFrom(s.readiness, s'.readiness, s.nextReadiness, now)
  {
    hide Inv;
    hide ReadyFrom;
    hide Refreshes;
    hide Ended;
    if !Accepted(s, ev, now) {
      ShrunkReadyFrom(s.readiness, s'.readiness, s.nextReadiness, now);
    } else if ev.Acquire? {
      AcquiredReadyFrom(s, ev, now, s');
    } else if ev.Refresh? {
      RefreshedReadyFrom(s, s', now);
    } else if ev.Reload? {
      RefreshedReadyFrom(AfterReplay(s), s', now);
    } else if ev.AgentEnds? {
      EndShrinks(s, ev.run, ev.end, now);
      ShrunkReadyFrom(s.readiness, s'.readiness, s.nextReadiness, now);
    } else {
      assert s'.readiness == s.readiness;
      ShrunkReadyFrom(s.readiness, s'.readiness, s.nextReadiness, now);
    }
  }

  // ---------------------------------------------------------------- the rank of a starved entry

  /** Nobody gets ahead of a starved entry: the entries ahead of it after a step were ahead before. The
      entry itself keeps its place as long as it stays ready. */
  lemma NobodyGetsAhead(s: State, ev: Event, now: int, s': State, e: Readiness)
    requires Inv(s) && Step(s, ev, now, s') && !ev.Recover?
    requires e in s.readiness && e.status == Ready && Starved(e, now)
    ensures Ahead(s'.readiness, e) <= Ahead(s.readiness, e)
    ensures forall e' | e' in s'.readiness && e'.status == Ready && e'.id == e.id :: SameKey(e, e')
  {
    hide Step;
    StepReadyFrom(s, ev, now, s');
    assert IdsBelow(s.readiness, s.nextReadiness);
    hide Inv;
  }

  /** What an acquisition leases instead of a starved candidate was ahead of it. */
  lemma LeasedFromAhead(s: State, ready: State, s': State, now: int, chosen: nat, agentUser: Option<nat>,
                        e: Readiness, e': Readiness)
    requires Inv(ready) && ReadyFrom(s.readiness, ready.readiness, s.nextReadiness, now)
    requires IsChoice(ready.readiness, ready.sessions, AcquiredRoles(ready.runs), None, now, chosen)
    requires s' == Leased(ready, None, chosen, agentUser, now)
    requires Starved(e, now) && SameKey(e, e') && e' in s'.readiness && e'.status == Ready
    requires Candidate(e', s'.sessions, AcquiredRoles(s'.runs), None, now)
    ensures exists id :: id in Ahead(s.readiness, e) && id !in Ahead(s'.readiness, e)
  {
    hide IsChoice;
    hide GoalsOk;
    hide DeclarationsOk;
    hide EdgesOk;
    hide Considered;
    ChoiceInRange(ready, None, now, chosen);
    ChoiceWasReady(ready.readiness, ready.sessions, AcquiredRoles(ready.runs), now, chosen);
    var list := ready.readiness;
    var g := list[chosen];
    var c := LeftReady(list, ready.sessions, s'.readiness, now, chosen, e');
    assert AcquiredRoles(ready.runs) <= AcquiredRoles(s'.runs);
    ChoiceBeforeStarved(list, ready.sessions, AcquiredRoles(ready.runs), now, chosen, c);
    assert g in list && list[c] in list && g.id != e'.id;
    GoneFromAhead(s.readiness, list, s'.readiness, s.nextReadiness, now, chosen, e);
  }

  lemma ChoiceWasReady(list: seq<Readiness>, sessions: seq<Session>, acquired: set<(SessionId, Role)>, now: int, i: nat)
    requires IsChoice(list, sessions, acquired, None, now, i)
    ensures list[i].status == Ready
  {
  }

  /** An entry that is still ready after the lease was a different one before it. */
  lemma LeftReady(list: seq<Readiness>, sessions: seq<Session>, list': seq<Readiness>, now: int, chosen: nat, e': Readiness)
    returns (c: nat)
    requires chosen < |list| && list' == MarkStale(list, sessions, None, now)[chosen := list[chosen].(status := Taken)]
    requires e' in list' && e'.status == Ready
    ensures c < |list| && c != chosen && list[c] == e'
  {
    hide IsStaleAt;
    c :| 0 <= c < |list'| && list'[c] == e';
  }

  /** The leased entry was ahead, and no longer is. */
  lemma GoneFromAhead(before: seq<Readiness>, list: seq<Readiness>, list': seq<Readiness>, next: nat, now: int,
                      chosen: nat, e: Readiness)
    requires ReadyFrom(before, list, next, now) && Starved(e, now)
    requires |list| == |list'| && chosen < |list| && list[chosen].status == Ready && FifoBefore(list[chosen], e)
    requires forall i | 0 <= i < |list| :: list'[i].id == list[i].id
    requires list'[chosen].status == Taken && forall i, j | 0 <= i < j < |list| :: list[i].id != list[j].id
    ensures list[chosen].id in Ahead(before, e) && list[chosen].id !in Ahead(list', e)
  {
    var g := list[chosen];
    assert g in list;
    var f :| f in before && f.status == Ready && SameKey(f, g);
    assert FifoBefore(f, e);
    forall h | h in list' && h.id == g.id
      ensures h.status == Taken
    {
      var i :| 0 <= i < |list'| && list'[i] == h;
    }
  }

  /** The step takes a lease without a Session filter. */
  predicate TakesLease(ev: Event) {
    ev.Acquire? && ev.outcome.LeaseTaken? && ev.filter.None?
  }

  /** Each such acquisition of another entry moves a starved candidate one place forward. */
  lemma AcquisitionMovesForward(s: State, ev: Event, now: int, s': State, e: Readiness, e': Readiness)
    requires Inv(s) && Step(s, ev, now, s') && TakesLease(ev)
    requires e in s.readiness && e.status == Ready && Starved(e, now)
    requires e' in s'.readiness && e'.status == Ready && e'.id == e.id
    requires Candidate(e', s'.sessions, AcquiredRoles(s'.runs), None, now)
    ensures SameKey(e, e') && Ahead(s'.readiness, e) < Ahead(s.readiness, e)
  {
    NobodyGetsAhead(s, ev, now, s', e);
    hide Inv;
    hide Reconciles;
    hide Refreshes;
    hide IsChoice;
    hide Candidate;
    hide UnitRefuses;
    hide ReadyFrom;
    hide Ahead;
    hide Leased;
    hide Starved;
    var repaired, ready :| AcquiresVia(s, repaired, ready, s', ev.filter, now, ev.outcome);
    SelectedReadyFrom(s, repaired, ready, now);
    AcquireShape(s, repaired, ready, now);
    ChoiceInRange(ready, None, now, ev.outcome.chosen);
    LeasedFromAhead(s, ready, s', now, ev.outcome.chosen, ev.outcome.agentUser, e, e');
  }

  /** Whether an acquisition leases anything hangs on one entry only, the one the policy chooses: it is
      leased exactly when its Unit does not refuse, and when it does nothing changes at all. So the
      progress of everybody else needs the choice not to lie in a paused Unit. */
  lemma OnlyTheChoiceIsLeased(s: State, repaired: State, ready: State, s': State, filter: Option<SessionId>, now: int,
                              outcome: AcquireOutcome, i: nat)
    requires AcquiresVia(s, repaired, ready, s', filter, now, outcome)
    requires IsChoice(ready.readiness, ready.sessions, AcquiredRoles(ready.runs), filter, now, i)
    ensures i < |ready.readiness| && ready.readiness[i].session < |ready.sessions|
    ensures outcome.LeaseTaken? <==> !UnitRefuses(ready.units, ready.sessions[ready.readiness[i].session].unit)
    ensures outcome.LeaseTaken? ==> outcome.chosen == i
    ensures !outcome.LeaseTaken? ==> outcome == Refused && s' == s
  {
    hide Reconciles;
    hide Refreshes;
    hide Precedes;
    hide Starved;
    hide Leased;
    hide MarkStale;
    match outcome
    case LeaseTaken(_, chosen, _) =>
      ChoiceIsUnique(ready.readiness, ready.sessions, AcquiredRoles(ready.runs), filter, now, chosen, i);
    case Refused =>
      var j: nat :| IsChoice(ready.readiness, ready.sessions, AcquiredRoles(ready.runs), filter, now, j)
        && UnitRefuses(ready.units, ready.sessions[ready.readiness[j].session].unit);
      ChoiceIsUnique(ready.readiness, ready.sessions, AcquiredRoles(ready.runs), filter, now, j, i);
    case Idle =>
      assert false;
  }

  // ---------------------------------------------------------------- over a whole run

  /** How many of the steps `moments[i..j]` lease an entry without a Session filter. */
  function Acquisitions(moments: seq<Moment>, i: nat, j: nat): nat
    requires i <= j <= |moments|
    decreases j - i
  {
    if i == j then 0 else (if TakesLease(moments[i].event) then 1 else 0) + Acquisitions(moments, i + 1, j)
  }

  /** The entry with this id is ready after step `i`, and may be chosen as far as the policy goes. */
  predicate IsCandidateAfter(states: seq<State>, moments: seq<Moment>, i: nat, id: nat)
    requires i < |moments| && |states| == |moments| + 1
  {
    exists e | e in states[i + 1].readiness :: e.id == id && e.status == Ready
      && Candidate(e, states[i + 1].sessions, AcquiredRoles(states[i + 1].runs), None, moments[i].now)
  }

  /** Bounded overtaking. While an entry that has starved stays a candidate and the runtime is not
      restarted, at most as many acquisitions lease other entries as there were entries ahead of it;
      so it is leased within one more. */
  lemma {:induction false} BoundedOvertaking(states: seq<State>, moments: seq<Moment>, i: nat, j: nat, e: Readiness)
    requires IsBehaviour(states, moments) && |states| == |moments| + 1 && i <= j < |states|
    requires e in states[i].readiness && e.status == Ready
    requires i < j ==> Starved(e, moments[i].now)
    requires forall t | i <= t < j :: !moments[t].event.Recover? && IsCandidateAfter(states, moments, t, e.id)
    ensures Acquisitions(moments, i, j) <= |Ahead(states[i].readiness, e)|
    decreases j - i
  {
    hide IsBehaviour;
    hide Step;
    hide Ahead;
    hide TakesLease;
    hide Starved;
    if i < j {
      var ev := moments[i].event;
      assert !ev.Recover? && IsCandidateAfter(states, moments, i, e.id);
      var e' := CandidateMoves(states, moments, i, e);
      if i + 1 < j {
        StillStarved(states, moments, i, e, e');
      }
      BoundedOvertaking(states, moments, i + 1, j, e');
    }
  }

  /** One step of the argument: the entry is still there, and no further from the front; nearer when
      the step leased another entry. */
  lemma CandidateMoves(states: seq<State>, moments: seq<Moment>, i: nat, e: Readiness) returns (e': Readiness)
    requires IsBehaviour(states, moments) && i + 1 < |states| == |moments| + 1
    requires e in states[i].readiness && e.status == Ready && Starved(e, moments[i].now)
    requires !moments[i].event.Recover? && IsCandidateAfter(states, moments, i, e.id)
    ensures e' in states[i + 1].readiness && e'.status == Ready && SameKey(e, e')
    ensures |Ahead(states[i + 1].readiness, e')| + (if TakesLease(moments[i].event) then 1 else 0) <= |Ahead(states[i].readiness, e)|
  {
    BehaviourStep(states, moments, i);
    AlwaysInv(states, moments, i);
    hide IsBehaviour;
    hide Inv;
    hide AllTiled;
    hide Step;
    hide Candidate;
    hide Ahead;
    hide Starved;
    var s, s', ev, now := states[i], states[i + 1], moments[i].event, moments[i].now;
    e' :| e' in s'.readiness && e'.id == e.id && e'.status == Ready
      && Candidate(e', s'.sessions, AcquiredRoles(s'.runs), None, now);
    NobodyGetsAhead(s, ev, now, s', e);
    SameKeySameRank(s'.readiness, e, e');
    if TakesLease(ev) {
      AcquisitionMovesForward(s, ev, now, s', e, e');
      SmallerSet(Ahead(s'.readiness, e), Ahead(s.readiness, e));
    } else {
      SubsetSize(Ahead(s'.readiness, e), Ahead(s.readiness, e));
    }
  }

  lemma StillStarved(states: seq<State>, moments: seq<Moment>, i: nat, e: Readiness, e': Readiness)
    requires IsBehaviour(states, moments) && i + 1 < |moments|
    requires Starved(e, moments[i].now) && SameKey(e, e')
    ensures Starved(e', moments[i + 1].now)
  {
    assert moments[i].now <= moments[i + 1].now;
  }

  lemma SameKeySameRank(list: seq<Readiness>, e: Readiness, e': Readiness)
    requires SameKey(e, e')
    ensures Ahead(list, e) == Ahead(list, e')
  {
  }

  lemma SubsetSize(a: set<nat>, b: set<nat>)
    requires a <= b
    ensures |a| <= |b|
  {
    assert a + (b - a) == b;
  }

  lemma SmallerSet(a: set<nat>, b: set<nat>)
    requires a < b
    ensures |a| < |b|
  {
    var x :| x in b && x !in a;
    SubsetSize(a, b - {x});
  }
}
