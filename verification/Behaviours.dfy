/** What holds over whole runs of the dispatch protocol, under every interleaving of its steps. */
module Behaviours {
  import opened DispatchModel
  import opened Protocol
  import opened LeaseInvariant
  import opened GoalInvariant
  import opened Replay
  import opened StepInvariant
  import opened CommitInvariant
  import opened Preservation
  import opened WindowTiling

  /** One atomic step and the time it happens at. */
  datatype Moment = Moment(now: int, event: Event)

  /** A run of the protocol: `states[i]` becomes `states[i + 1]` by `moments[i]`, and time never goes
      back. */
  ghost predicate IsBehaviour(states: seq<State>, moments: seq<Moment>) {
    && |states| == |moments| + 1
    && Initial(states[0])
    && (forall i | 0 <= i < |moments| :: Step(states[i], moments[i].event, moments[i].now, states[i + 1]))
    && (forall i, j | 0 <= i <= j < |moments| :: moments[i].now <= moments[j].now)
  }

  /** The invariant and the window tiling hold in every reachable state. */
  lemma {:induction false} AlwaysInv(states: seq<State>, moments: seq<Moment>, i: nat)
    requires IsBehaviour(states, moments) && i < |states|
    ensures Inv(states[i]) && AllTiled(states[i])
  {
    if i == 0 {
    } else {
      hide Inv;
      hide AllTiled;
      hide Initial;
      hide Step;
      AlwaysInv(states, moments, i - 1);
      var m := moments[i - 1];
      assert Step(states[i - 1], m.event, m.now, states[i - 1 + 1]);
      StepKeepsInv(states[i - 1], m.event, m.now, states[i]);
      StepKeepsTiling(states[i - 1], m.event, m.now, states[i]);
    }
  }

  // ---------------------------------------------------------------- lease exclusion

  /** In every reachable state: two runs that hold a lease differ in Session or role and in their
      readiness id; nothing is ready for a Session and role that is being run; and a taken entry is
      held by exactly one run, of its own Session, role and window. */
  lemma LeaseExclusion(states: seq<State>, moments: seq<Moment>, i: nat)
    requires IsBehaviour(states, moments) && i < |states|
    ensures
      var runs, list := states[i].runs, states[i].readiness;
      && (forall a, b | 0 <= a < b < |runs| && runs[a].lease == Acquired && runs[b].lease == Acquired ::
            (runs[a].session, runs[a].role) != (runs[b].session, runs[b].role)
            && runs[a].readinessId != runs[b].readinessId)
      && (forall e, r | e in list && e.status == Ready && r in runs && r.lease == Acquired ::
            (e.session, e.role) != (r.session, r.role))
      && (forall e | e in list && e.status == Taken ::
            exists a | 0 <= a < |runs| :: Owns(runs[a], e) && forall b | 0 <= b < |runs| && Owns(runs[b], e) :: b == a)
  {
    AlwaysInv(states, moments, i);
    var s := states[i];
    hide AllTiled;
    hide GoalsOk;
    hide DeclarationsOk;
    hide EdgesOk;
    forall e | e in s.readiness && e.status == Taken
      ensures exists a | 0 <= a < |s.runs| :: Owns(s.runs[a], e) && forall b | 0 <= b < |s.runs| && Owns(s.runs[b], e) :: b == a
    {
      var r :| r in s.runs && Owns(r, e);
      var a :| 0 <= a < |s.runs| && s.runs[a] == r;
      assert forall b | 0 <= b < |s.runs| && Owns(s.runs[b], e) :: b == a;
    }
  }

  // ---------------------------------------------------------------- windows

  /** Run `i` moved the cursor of this Session and role over position `p`. */
  predicate Observes(runs: seq<Run>, i: nat, sid: SessionId, role: Role, p: nat) {
    i < |runs| && Moved(runs[i], sid, role) && runs[i].window.fromSeq <= p <= runs[i].window.toSeq
  }

  ghost predicate Observed(runs: seq<Run>, sid: SessionId, role: Role, p: nat) {
    exists i: nat :: Observes(runs, i, sid, role, p)
  }

  /** In every reachable state, each log position up to a role's cursor was observed by exactly one run
      of that role, nothing beyond the cursor was, and later positions were observed by later runs. */
  lemma WindowsTileTheLog(states: seq<State>, moments: seq<Moment>, i: nat, sid: SessionId, role: Role)
    requires IsBehaviour(states, moments) && i < |states| && sid < |states[i].sessions|
    ensures
      var runs, cursor := states[i].runs, Cursor(states[i].sessions[sid], role);
      && cursor <= |states[i].sessions[sid].log|
      && (forall p: nat | 1 <= p <= cursor :: Observed(runs, sid, role, p))
      && (forall p: nat | Observed(runs, sid, role, p) :: 1 <= p <= cursor)
      && (forall a: nat, b: nat, p: nat, q: nat | Observes(runs, a, sid, role, p) && Observes(runs, b, sid, role, q) ::
            (a < b ==> p < q) && (p == q ==> a == b))
  {
    AlwaysInv(states, moments, i);
    var s := states[i];
    var cursor := Cursor(s.sessions[sid], role);
    assert cursor <= |s.sessions[sid].log| by {
      assert CursorsOk(s.sessions);
    }
    assert Tiled(cursor, s.runs, sid, role);
    hide Inv;
    hide AllTiled;
    hide Cursor;
    hide Covered;
    forall p: nat | 1 <= p <= cursor
      ensures Observed(s.runs, sid, role, p)
    {
      CoveredIsObserved(p, s.runs, sid, role);
    }
  }

  lemma CoveredIsObserved(p: nat, runs: seq<Run>, sid: SessionId, role: Role)
    requires Covered(p, runs, sid, role)
    ensures Observed(runs, sid, role, p)
  {
    var a :| 0 <= a < |runs| && Moved(runs[a], sid, role) && runs[a].window.fromSeq <= p <= runs[a].window.toSeq;
    assert Observes(runs, a, sid, role, p);
  }

  // ---------------------------------------------------------------- no ignored input

  predicate IsComplete(s: State, sid: SessionId) {
    sid < |s.sessions| && s.sessions[sid].goal.Some? && s.sessions[sid].goal.value.complete
  }

  /** The step is a GoalManager commit that completes the goal of `sid` past an intact fence, by a run
      whose window reaches at least sequence number `seqNo`. */
  predicate CompletesPast(s: State, ev: Event, s': State, sid: SessionId, seqNo: nat) {
    && ev.AgentEnds? && ev.end.Returned? && ev.run < |s.runs|
    && s.runs[ev.run].session == sid < |s.sessions| && s.runs[ev.run].role == GoalManager
    && Fence(s, ev.run).None?
    && s.runs[ev.run].declared.Some? && s.runs[ev.run].declared.value.DeclaredComplete?
    && seqNo <= s.runs[ev.run].window.toSeq
    && !IsComplete(s, sid) && IsComplete(s', sid)
  }

  lemma WaitingDoesNotComplete(s: State, r: RunId, end: AgentEnd, now: int)
    requires r < |s.runs| && Decides(s, AgentEnds(r, end), s.runs[r].session)
    requires s.runs[r].declared.value.DeclaredWaiting? && !IsComplete(s, s.runs[r].session)
    ensures !IsComplete(Ended(s, r, end, now), s.runs[r].session)
  {
    hide FirstConflict;
  }

  /** Only such a commit completes a goal, and its window reaches every requirement in the log. */
  lemma CompletingStep(s: State, ev: Event, now: int, s': State, sid: SessionId, k: nat)
    requires Inv(s) && Step(s, ev, now, s') && sid < |s.sessions|
    requires !IsComplete(s, sid) && IsComplete(s', sid)
    requires k < |s.sessions[sid].log| && IsRequirement(s.sessions[sid].log[k])
    ensures CompletesPast(s, ev, s', sid, k + 1)
  {
    hide Inv;
    hide Ended;
    hide LogExplains;
    StepKeepsInv(s, ev, now, s');
    assert Decides(s, ev, sid);
    if s.runs[ev.run].declared.value.DeclaredWaiting? {
      WaitingDoesNotComplete(s, ev.run, ev.end, now);
    }
    var from := s.runs[ev.run].window.toSeq;
    if from <= k {
      NoConflictAfter(s.sessions[sid].log, from, ev.run, k);
    }
  }

  /** The step that brings a requirement into a log leaves the goal incomplete. */
  lemma ArrivingStep(s: State, ev: Event, now: int, s': State, sid: SessionId, k: nat)
    requires Inv(s) && AllTiled(s) && Step(s, ev, now, s') && sid < |s'.sessions|
    requires sid < |s.sessions| ==> |s.sessions[sid].log| <= k
    requires k < |s'.sessions[sid].log| && IsRequirement(s'.sessions[sid].log[k])
    ensures !IsComplete(s', sid)
  {
    StepKeepsInv(s, ev, now, s');
    StepKeepsTiling(s, ev, now, s');
    StepSettles(s, ev, now, s');
    if sid < |s.sessions| && Decides(s, ev, sid) {
      AcquiredWindow(s, ev.run);
      assert GoalOk(s'.sessions[sid], sid, s'.runs) && Tiled(Cursor(s'.sessions[sid], GoalManager), s'.runs, sid, GoalManager);
      hide Inv;
      hide AllTiled;
      hide Step;
      hide SessionFacts;
    } else {
      hide Inv;
      hide AllTiled;
      hide Step;
      hide Settles;
      hide SettlesNothing;
    }
  }

  /** A goal that is complete after a step, with a requirement in its log, was already complete or is
      completed by this very step; either way the requirement was there before. */
  lemma CompleteAfterStep(s: State, ev: Event, now: int, s': State, sid: SessionId, k: nat)
    requires Inv(s) && AllTiled(s) && Step(s, ev, now, s')
    requires IsComplete(s', sid) && k < |s'.sessions[sid].log| && IsRequirement(s'.sessions[sid].log[k])
    ensures sid < |s.sessions| && k < |s.sessions[sid].log| && s.sessions[sid].log[k] == s'.sessions[sid].log[k]
    ensures IsComplete(s, sid) || CompletesPast(s, ev, s', sid, k + 1)
  {
    hide Inv;
    hide AllTiled;
    hide Step;
    hide CompletesPast;
    hide Quiet;
    hide Replayed;
    if sid >= |s.sessions| || k >= |s.sessions[sid].log| {
      ArrivingStep(s, ev, now, s', sid, k);
      assert false;
    }
    StepKeepsInv(s, ev, now, s');
    assert LogExplains(s.sessions[sid], s'.sessions[sid]);
    if !IsComplete(s, sid) {
      CompletingStep(s, ev, now, s', sid, k);
    }
  }

  /** The goal of `sid` is complete throughout `states[from..to]`. */
  ghost predicate StaysComplete(states: seq<State>, from: nat, to: nat, sid: SessionId)
    requires to <= |states|
  {
    forall t | from <= t < to :: IsComplete(states[t], sid)
  }

  /** Step `m` completed the goal past log position `k`, and it has been complete up to `states[j]`. */
  ghost predicate CompletedBy(states: seq<State>, moments: seq<Moment>, m: nat, j: nat, sid: SessionId, k: nat)
    requires j < |states| == |moments| + 1
  {
    && m < j
    && CompletesPast(states[m], moments[m].event, states[m + 1], sid, k + 1)
    && k < |states[m].sessions[sid].log|
    && StaysComplete(states, m + 1, j + 1, sid)
  }

  /** No ignored input. Whenever a goal is complete while user input, a completed child goal or a
      revised body is in its Session's log, it was completed after that entry arrived, by the commit
      of a GoalManager run that had observed the entry, and has stayed complete since. So from the
      arrival of such an entry until such a commit the goal is incomplete, whatever else happens. */
  lemma {:induction false} NoIgnoredInput(states: seq<State>, moments: seq<Moment>, j: nat, sid: SessionId, k: nat)
    requires IsBehaviour(states, moments) && j < |states|
    requires IsComplete(states[j], sid)
    requires k < |states[j].sessions[sid].log| && IsRequirement(states[j].sessions[sid].log[k])
    ensures exists m :: CompletedBy(states, moments, m, j, sid, k)
  {
    hide IsBehaviour;
    hide Inv;
    hide AllTiled;
    hide Step;
    hide Initial;
    hide CompletesPast;
    hide CompletedBy;
    hide IsRequirement;
    if j == 0 {
      NothingCompleteAtFirst(states, moments, sid);
      assert false;
    } else {
      var i := j - 1;
      BehaviourStep(states, moments, i);
      AlwaysInv(states, moments, i);
      CompleteAfterStep(states[i], moments[i].event, moments[i].now, states[j], sid, k);
      if IsComplete(states[i], sid) {
        NoIgnoredInput(states, moments, i, sid, k);
        var m :| CompletedBy(states, moments, m, i, sid, k);
        StillCompleted(states, moments, m, i, sid, k);
      } else {
        CompletedNow(states, moments, i, sid, k);
      }
    }
  }

  lemma BehaviourStep(states: seq<State>, moments: seq<Moment>, i: nat)
    requires IsBehaviour(states, moments) && i + 1 < |states|
    ensures |states| == |moments| + 1
    ensures Step(states[i], moments[i].event, moments[i].now, states[i + 1])
  {
  }

  lemma NothingCompleteAtFirst(states: seq<State>, moments: seq<Moment>, sid: SessionId)
    requires IsBehaviour(states, moments)
    ensures |states| > 0 && !IsComplete(states[0], sid)
  {
  }

  lemma StillCompleted(states: seq<State>, moments: seq<Moment>, m: nat, i: nat, sid: SessionId, k: nat)
    requires i + 1 < |states| == |moments| + 1
    requires CompletedBy(states, moments, m, i, sid, k) && IsComplete(states[i + 1], sid)
    ensures CompletedBy(states, moments, m, i + 1, sid, k)
  {
    hide CompletesPast;
  }

  lemma CompletedNow(states: seq<State>, moments: seq<Moment>, i: nat, sid: SessionId, k: nat)
    requires i + 1 < |states| == |moments| + 1 && sid < |states[i].sessions| && k < |states[i].sessions[sid].log|
    requires CompletesPast(states[i], moments[i].event, states[i + 1], sid, k + 1) && IsComplete(states[i + 1], sid)
    ensures CompletedBy(states, moments, i, i + 1, sid, k)
  {
  }
}
