/** No open goal is ever dropped. Over whole runs, every active incomplete Session that does not wait has a
    run that holds a lease or an unread entry that wakes a role, so the liveness repair covers every one of
    them, whatever its Unit (src/goal/readiness.py; README.md:297-301). */
module Handover {
  import opened Wrappers
  import opened DispatchModel
  import opened Projection
  import opened Protocol
  import opened GoalInvariant
  import opened StepInvariant
  import opened WindowTiling
  import opened Behaviours
  import opened Liveness
  import opened Turns
  import opened Signatures
  import opened Marks
  import opened Care

  // ---------------------------------------------------------------- over whole runs

  lemma StepKeepsTraced(s: State, ev: Event, now: int, s': State)
    requires Inv(s) && Step(s, ev, now, s') && Traced(s) && FreshIds(s, ev)
    ensures Traced(s')
  {
    StepExtends(s, ev, now, s');
    StepKeepsSigned(s, ev, now, s');
    StepKeepsMarks(s, ev, now, s');
    StepKeepsWoken(s, ev, now, s');
    hide Inv;
    hide Step;
    hide WindowsInLog;
    hide LogsSigned;
    hide AllMarked;
    hide WorkersWoken;
    hide OffAgrees;
    hide RunsContinue;
    forall sid | 0 <= sid < |s'.sessions|
      ensures OffAgrees(s'.sessions[sid])
    {
      if sid < |s.sessions| {
        StepKeepsOff(s, ev, now, s', sid);
      } else {
        NewSessionIsCaredFor(s, ev, now, s', sid);
      }
    }
  }

  /** A run of the protocol in which run ids are fresh. */
  ghost predicate Fresh(states: seq<State>, moments: seq<Moment>) {
    IsBehaviour(states, moments) && forall m | 0 <= m < |moments| :: FreshIds(states[m], moments[m].event)
  }

  /** And in which whatever counts as a Worker's report wakes the GoalManager. */
  ghost predicate Accountable(states: seq<State>, moments: seq<Moment>) {
    Fresh(states, moments) && forall m | 0 <= m < |moments| :: Heard(states[m], moments[m].event)
  }

  /** Or in which runs speak to their Sessions under their own role. */
  ghost predicate Truthful(states: seq<State>, moments: seq<Moment>) {
    Fresh(states, moments) && forall m | 0 <= m < |moments| :: OwnRole(states[m], moments[m].event)
  }

  lemma InitiallyTraced(s: State)
    requires Initial(s)
    ensures Traced(s) && AllCaredFor(s) && LogsVoiced(s)
  {
  }

  lemma {:induction false} AlwaysTraced(states: seq<State>, moments: seq<Moment>, i: nat)
    requires Fresh(states, moments) && i < |states|
    ensures Traced(states[i])
  {
    if i == 0 {
      InitiallyTraced(states[0]);
    } else {
      hide Inv;
      hide AllTiled;
      hide Initial;
      hide Step;
      hide Traced;
      hide FreshIds;
      AlwaysTraced(states, moments, i - 1);
      AlwaysInv(states, moments, i - 1);
      BehaviourStep(states, moments, i - 1);
      StepKeepsTraced(states[i - 1], moments[i - 1].event, moments[i - 1].now, states[i]);
    }
  }

  lemma {:induction false} AlwaysCaredFor(states: seq<State>, moments: seq<Moment>, i: nat)
    requires Accountable(states, moments) && i < |states|
    ensures AllCaredFor(states[i])
  {
    hide Inv;
    hide AllTiled;
    hide Initial;
    hide Step;
    hide Traced;
    hide FreshIds;
    hide Heard;
    hide AllCaredFor;
    if i == 0 {
      InitiallyTraced(states[0]);
    } else {
      AlwaysCaredFor(states, moments, i - 1);
      AlwaysTraced(states, moments, i - 1);
      AlwaysInv(states, moments, i - 1);
      BehaviourStep(states, moments, i - 1);
      StepKeepsCare(states[i - 1], moments[i - 1].event, moments[i - 1].now, states[i]);
    }
  }

  lemma {:induction false} AlwaysVoiced(states: seq<State>, moments: seq<Moment>, i: nat)
    requires Truthful(states, moments) && i < |states|
    ensures LogsVoiced(states[i])
  {
    if i == 0 {
      InitiallyTraced(states[0]);
    } else {
      hide Inv;
      hide AllTiled;
      hide Initial;
      hide Step;
      hide FreshIds;
      hide OwnRole;
      hide LogsVoiced;
      hide AllMarked;
      hide WorkersWoken;
      AlwaysVoiced(states, moments, i - 1);
      AlwaysTraced(states, moments, i - 1);
      AlwaysInv(states, moments, i - 1);
      BehaviourStep(states, moments, i - 1);
      StepKeepsVoiced(states[i - 1], moments[i - 1].event, moments[i - 1].now, states[i]);
    }
  }

  lemma VoicedIsHeard(s: State, ev: Event)
    requires LogsVoiced(s)
    ensures Heard(s, ev)
  {
    hide Fence;
    hide GoalManagerWake;
    if ev.AgentEnds? && ev.end.Returned? && ev.run < |s.runs| && s.runs[ev.run].session < |s.sessions|
      && s.runs[ev.run].role == WorkerAgent && Fence(s, ev.run).None? && Reported(s, ev.run, ev.end.remote)
    {
      var k := ReportPlace(s, ev.run, ev.end.remote);
      assert VoiceOk(s.runs, s.runs[ev.run].session, s.sessions[s.runs[ev.run].session].log[k]);
      assert HeardReport(s, ev.run, k);
    }
  }

  /** Runs that speak under their own role are heard. */
  lemma TruthfulIsAccountable(states: seq<State>, moments: seq<Moment>)
    requires Truthful(states, moments)
    ensures Accountable(states, moments)
  {
    hide IsBehaviour;
    hide FreshIds;
    hide OwnRole;
    hide Heard;
    assert |states| == |moments| + 1 by {
      BehaviourLength(states, moments);
    }
    forall m | 0 <= m < |moments|
      ensures Heard(states[m], moments[m].event)
    {
      AlwaysVoiced(states, moments, m);
      VoicedIsHeard(states[m], moments[m].event);
    }
  }

  lemma BehaviourLength(states: seq<State>, moments: seq<Moment>)
    requires IsBehaviour(states, moments)
    ensures |states| == |moments| + 1
  {
  }

  // ---------------------------------------------------------------- the theorems

  /** No open goal is dropped. In every state of such a run, an active Session whose goal is incomplete and
      does not wait has a run that holds its lease, or an unread entry that wakes its GoalManager or its
      Worker. */
  lemma NeverDropped(states: seq<State>, moments: seq<Moment>, i: nat, sid: SessionId)
    requires Accountable(states, moments) && i < |states| && sid < |states[i].sessions|
    requires Dispatchable(states[i].sessions[sid])
    ensures InHand(states[i].sessions[sid], states[i].runs, sid)
  {
    AlwaysCaredFor(states, moments, i);
    hide Accountable;
    hide Dispatchable;
    assert CaredFor(states[i].sessions[sid], states[i].runs, sid);
  }

  /** The liveness promise, for every active Session with an incomplete goal and whatever its Unit: after
      the repair of any state of such a run, it waits, has a ready role, or is run under an unexpired
      lease. */
  lemma EverySessionIsCovered(states: seq<State>, moments: seq<Moment>, i: nat, mid: State, s': State, now: int,
                              sid: SessionId)
    requires Accountable(states, moments) && i < |states|
    requires ReconcilesVia(states[i], mid, s', now)
    requires sid < |s'.sessions| && ActiveIncomplete(s'.sessions[sid])
    ensures IsCovered(s', sid, now)
    ensures
      || s'.sessions[sid].goal.value.waiting.Some?
      || (exists e | e in s'.readiness :: e.status == Ready && e.session == sid)
      || (exists r | r in s'.runs :: r.lease == Acquired && r.session == sid && now - r.acquiredAt < 660)
  {
    var s := states[i];
    AlwaysInv(states, moments, i);
    ReconcileKeepsInv(s, mid, s', now);
    assert sid < |s.sessions|;
    RepairKeepsGoals(s, mid, s', now, sid);
    if s.sessions[sid].goal.value.waiting.None? {
      NeverDropped(states, moments, i, sid);
    }
    hide Accountable;
    hide IsBehaviour;
    hide Inv;
    hide AllTiled;
    hide ReconcilesVia;
    hide Peaceful;
    hide IsCovered;
    RepairCoversExactly(s, mid, s', now, sid);
    CoveredMeans(s', sid, now);
  }

  /** A turn that leaves an open goal to nobody is one of a Worker whose reports all claim another slot;
      for this, fresh run ids are enough. */
  lemma OnlyMisclaimedReports(states: seq<State>, moments: seq<Moment>, i: nat, r: RunId, end: AgentEnd)
    requires Fresh(states, moments) && i < |states|
    requires r < |states[i].runs| && states[i].runs[r].session < |states[i].sessions|
    requires Fence(states[i], r).None? && LeavesNobody(states[i], r, end)
    ensures end.Returned? && states[i].runs[r].role == WorkerAgent && Reported(states[i], r, end.remote)
    ensures forall k: nat :: !HeardReport(states[i], r, k)
  {
    var s := states[i];
    AlwaysInv(states, moments, i);
    AlwaysTraced(states, moments, i);
    hide Fresh;
    hide IsBehaviour;
    hide Inv;
    hide AllTiled;
    hide Fence;
    hide HeardReport;
    hide LogsSigned;
    hide AllMarked;
    hide WorkersWoken;
    hide WindowsInLog;
    hide Reported;
    hide WorkerRequested;
    hide UnreadAfter;
    hide Woken;
    if s.runs[r].role == GoalManager {
      RequestIsUnread(s, r, end);
    } else if exists k: nat :: HeardReport(s, r, k) {
      ReportIsUnread(s, r, end);
    }
  }

  /** So where runs speak under their own role, every turn past its fence that leaves its goal open hands
      on: a role is woken or one is running. */
  lemma EveryOpenTurnHandsOn(states: seq<State>, moments: seq<Moment>, i: nat, r: RunId, end: AgentEnd, now: int)
    requires Truthful(states, moments) && i < |states|
    requires r < |states[i].runs| && states[i].runs[r].session < |states[i].sessions| && Fence(states[i], r).None?
    requires
      var after := Ended(states[i], r, end, now).sessions[states[i].runs[r].session];
      after.goal.Some? && !after.goal.value.complete && after.goal.value.waiting.None?
    ensures
      var s', sid := Ended(states[i], r, end, now), states[i].runs[r].session;
      RoleWoken(s', sid, GoalManager) || RoleWoken(s', sid, WorkerAgent) || HasLiveRun(s'.runs, sid)
  {
    var s := states[i];
    AlwaysInv(states, moments, i);
    AlwaysVoiced(states, moments, i);
    VoicedIsHeard(s, AgentEnds(r, end));
    hide Truthful;
    hide Inv;
    hide AllTiled;
    hide LeavesNobody;
    hide Ended;
    hide Fence;
    hide RoleWoken;
    hide HeardReport;
    hide LogsVoiced;
    OpenTurnHandsOn(s, r, end, now);
    if LeavesNobody(s, r, end) {
      FreshOf(states, moments);
      OnlyMisclaimedReports(states, moments, i, r, end);
    }
  }

  lemma FreshOf(states: seq<State>, moments: seq<Moment>)
    requires Truthful(states, moments)
    ensures Fresh(states, moments)
  {
  }
}
