/** The inductive invariant of the dispatch protocol, and its preservation by every step. */
module StepInvariant {
  import opened Wrappers
  import opened DispatchModel
  import opened Protocol
  import opened LeaseInvariant
  import opened GoalInvariant
  import opened Replay
  import SessionGraph

  ghost predicate EdgesOk(edges: seq<SessionGraph.Edge>, sessions: nat) {
    forall e | e in edges :: e.parent < sessions && e.child < sessions && e.parent != e.child
  }

  ghost predicate Inv(s: State) {
    && LeaseInv(s.sessions, s.runs, s.readiness, s.nextReadiness)
    && GoalsOk(s.sessions, s.runs)
    && DeclarationsOk(s.sessions, s.runs)
    && EdgesOk(s.edges, |s.sessions|)
  }

  /** A state before any dispatch: Sessions exist, nothing is logged, declared, ready or running. */
  ghost predicate Initial(s: State) {
    && s.runs == [] && s.readiness == []
    && EdgesOk(s.edges, |s.sessions|)
    && forall i | 0 <= i < |s.sessions| ::
         && s.sessions[i].goal.None? && s.sessions[i].log == []
         && s.sessions[i].goalManagerCursor == 0 && s.sessions[i].workerCursor == 0
  }

  // ---------------------------------------------------------------- quiet changes of a Session

  /** Entries that neither decide a completion state nor carry a requirement. */
  predicate Neutral(e: Entry) {
    && !IsRequirement(e)
    && (e.GoalStateChanged? ==> e.state == Waiting)
    && (e.Message? ==> !e.payload.userInput)
  }

  lemma {:induction false} NeutralReplay(complete: bool, log: seq<Entry>)
    requires forall k | 0 <= k < |log| :: Neutral(log[k])
    ensures Replayed(complete, log) == complete
  {
    if log != [] {
      NeutralReplay(complete, log[..|log| - 1]);
    }
  }

  lemma {:induction false} MarkedReplay(complete: bool, log: seq<Entry>, k: nat)
    requires k < |log| && log[k].GoalStateChanged? && log[k].state == Incomplete
    requires forall j | k < j < |log| :: !(log[j].GoalStateChanged? && log[j].state == Complete)
    ensures !Replayed(complete, log)
  {
    var n := |log| - 1;
    if k < n {
      MarkedReplay(complete, log[..n], k);
    }
  }

  /** The goal may stop waiting, and otherwise waits for the same as before. */
  predicate WaitsLess(before: Session, after: Session) {
    after.goal.Some? && after.goal.value.waiting.Some? ==>
      before.goal.Some? && before.goal.value.waiting == after.goal.value.waiting
  }

  lemma QuietByNeutral(before: Session, after: Session, entries: seq<Entry>)
    requires after.log == before.log + entries
    requires forall k | 0 <= k < |entries| :: Neutral(entries[k])
    requires after.goal.Some? == before.goal.Some? && WaitsLess(before, after)
    requires after.goal.Some? ==> after.goal.value.complete == before.goal.value.complete
    ensures Quiet(before, after)
  {
    hide Replayed;
    assert after.log[|before.log|..] == entries;
    NeutralReplay(before.goal.Some? && before.goal.value.complete, entries);
    forall k | |before.log| <= k < |after.log|
      ensures !IsRequirement(after.log[k])
    {
      assert Neutral(entries[k - |before.log|]);
    }
  }

  lemma QuietByMark(before: Session, after: Session, entries: seq<Entry>, k: nat)
    requires after.log == before.log + entries
    requires after.goal.Some? && !after.goal.value.complete && WaitsLess(before, after)
    requires k < |entries| && entries[k].GoalStateChanged? && entries[k].state == Incomplete
    requires forall j | k < j < |entries| :: !(entries[j].GoalStateChanged? && entries[j].state == Complete)
    ensures Quiet(before, after)
  {
    hide Replayed;
    assert after.log[|before.log|..] == entries;
    MarkedReplay(before.goal.Some? && before.goal.value.complete, entries, k);
    assert after.log[|before.log| + k] == entries[k];
  }

  /** Every Session changes quietly and calmly, if at all. */
  ghost predicate Peaceful(before: seq<Session>, after: seq<Session>) {
    && |before| == |after|
    && forall i | 0 <= i < |before| :: Calm(before[i], after[i]) && Quiet(before[i], after[i])
  }

  lemma PeacefulKeeps(before: seq<Session>, after: seq<Session>, runs: seq<Run>)
    requires Peaceful(before, after) && GoalsOk(before, runs) && DeclarationsOk(before, runs)
    ensures GoalsOk(after, runs) && DeclarationsOk(after, runs) && AllCalm(before, after)
  {
    forall i | 0 <= i < |after|
      ensures GoalOk(after[i], i, runs)
    {
      assert GoalOk(before[i], i, runs);
      QuietKeepsGoal(before[i], after[i], i, runs);
    }
    hide GoalOk;
    hide Quiet;
    forall r | r in runs && r.declared.Some? && r.declared.value.DeclaredWaiting?
      ensures r.session < |after| && r.window.toSeq <= r.declared.value.wakeLogSeq <= |after[r.session].log|
    {
      assert Calm(before[r.session], after[r.session]);
    }
  }

  lemma OnePeaceful(before: seq<Session>, sid: SessionId, session: Session)
    requires sid < |before| && Calm(before[sid], session) && Quiet(before[sid], session)
    ensures Peaceful(before, before[sid := session])
  {
    forall i | 0 <= i < |before|
      ensures Quiet(before[i], before[sid := session][i])
    {
      if i != sid {
        QuietReflexive(before[i]);
      }
    }
  }

  lemma NeutralPeace(s: Session, entries: seq<Entry>)
    requires forall k | 0 <= k < |entries| :: Neutral(entries[k])
    ensures Calm(s, Appended(s, entries)) && Quiet(s, Appended(s, entries))
  {
    QuietByNeutral(s, Appended(s, entries), entries);
  }

  /** The repairs append a signal to some Sessions and leave the others alone. */
  lemma SomeSignalled(before: seq<Session>, after: seq<Session>)
    requires |before| == |after|
    requires forall i | 0 <= i < |before| ::
      after[i] == before[i] || exists e :: Neutral(e) && after[i] == Appended(before[i], [e])
    ensures Peaceful(before, after)
  {
    forall i | 0 <= i < |before|
      ensures Calm(before[i], after[i]) && Quiet(before[i], after[i])
    {
      if after[i] == before[i] {
        QuietReflexive(before[i]);
      } else {
        var e :| Neutral(e) && after[i] == Appended(before[i], [e]);
        NeutralPeace(before[i], [e]);
      }
    }
  }

  // ---------------------------------------------------------------- steps that only touch Sessions

  lemma UserInputIsPeaceful(s: Session, worker: Option<RunId>)
    ensures Calm(s, WithUserInput(s, worker)) && Quiet(s, WithUserInput(s, worker))
  {
    var after := WithUserInput(s, worker);
    var entries := after.log[|s.log|..];
    var k := if s.goal.Some? && s.goal.value.waiting.Some? then 2 else 1;
    assert after.log == s.log + entries;
    assert entries[k] == GoalStateChanged(Incomplete, false, None, worker.Some?);
    QuietByMark(s, after, entries, k);
  }

  lemma GoalBodyIsPeaceful(s: Session, body: string)
    ensures Calm(s, WithGoalBody(s, body)) && Quiet(s, WithGoalBody(s, body))
  {
    var after := WithGoalBody(s, body);
    var entries := after.log[|s.log|..];
    assert after.log == s.log + entries;
    QuietByMark(s, after, entries, |entries| - 1);
  }

  lemma ExpiredIsPeaceful(s: Session, now: int)
    ensures Calm(s, Expired(s, now)) && Quiet(s, Expired(s, now))
  {
    if WaitEnds(s, now) {
      QuietByNeutral(s, Expired(s, now), [GM_SIGNAL]);
    } else {
      QuietReflexive(s);
    }
  }

  lemma NotifiedIsPeaceful(s: Session, child: SessionId)
    ensures Calm(s, Notified(s, child)) && Quiet(s, Notified(s, child))
  {
    var after := Notified(s, child);
    if s.goal.Some? && s.goal.value.complete {
      QuietByMark(s, after, [ChildGoalCompleted(child), MarkedIncomplete(false, None)], 1);
    } else {
      assert after.log[|s.log|..] == [ChildGoalCompleted(child)];
      assert Replayed(false, [ChildGoalCompleted(child)]) == Replayed(false, [ChildGoalCompleted(child)][..0]);
    }
  }

  /** A step that changes one Session peacefully and nothing else the invariant speaks of. */
  lemma SessionStepKeepsInv(s: State, s': State, sid: SessionId, session: Session)
    requires Inv(s) && sid < |s.sessions|
    requires Calm(s.sessions[sid], session) && Quiet(s.sessions[sid], session)
    requires s'.sessions == s.sessions[sid := session]
    requires s'.runs == s.runs && s'.readiness == s.readiness && s'.nextReadiness == s.nextReadiness
    requires s'.edges == s.edges
    ensures Inv(s') && Peaceful(s.sessions, s'.sessions)
  {
    hide Quiet;
    hide LeaseInv;
    hide Calm;
    OnePeaceful(s.sessions, sid, session);
    PeacefulKeeps(s.sessions, s'.sessions, s.runs);
    CalmKeepsLease(s.sessions, s'.sessions, s.runs, s.readiness, s.nextReadiness);
  }

  // ---------------------------------------------------------------- refresh and repair

  lemma RefreshKeepsInv(s: State, s': State, now: int)
    requires Inv(s) && Refreshes(s, s', now)
    ensures Inv(s') && Peaceful(s.sessions, s'.sessions)
  {
    hide LeaseInv;
    hide ReadinessRefreshed;
    hide Quiet;
    hide Calm;
    hide Expired;
    forall i | 0 <= i < |s.sessions|
      ensures Calm(s.sessions[i], s'.sessions[i]) && Quiet(s.sessions[i], s'.sessions[i])
    {
      ExpiredIsPeaceful(s.sessions[i], now);
    }
    PeacefulKeeps(s.sessions, s'.sessions, s.runs);
    CalmKeepsLease(s.sessions, s'.sessions, s.runs, s.readiness, s.nextReadiness);
    RefreshKeepsLease(s'.sessions, s.runs, s.readiness, s'.readiness, s.nextReadiness, s'.nextReadiness, now);
  }

  lemma OwnerIsUnique(sessions: seq<Session>, runs: seq<Run>, list: seq<Readiness>, next: nat, e: Readiness, r: Run)
    requires LeaseInv(sessions, runs, list, next)
    requires e in list && e.status == Taken
    requires r in runs && r.lease == Acquired && r.readinessId == e.id
    ensures Owns(r, e)
  {
    var q :| q in runs && Owns(q, e);
    var i :| 0 <= i < |runs| && runs[i] == q;
    var j :| 0 <= j < |runs| && runs[j] == r;
  }

  lemma ExpiryIsPeaceful(s: State, now: int)
    ensures Peaceful(s.sessions, AfterExpiry(s, now).sessions)
  {
    hide LostOwnership;
    hide Quiet;
    hide Calm;
    assert Neutral(GM_SIGNAL);
    SomeSignalled(s.sessions, AfterExpiry(s, now).sessions);
  }

  lemma ReclaimedHaveOwners(sessions: seq<Session>, runs: seq<Run>, list: seq<Readiness>, next: nat, now: int)
    requires LeaseInv(sessions, runs, list, next)
    ensures TakenOwned(LapsedRuns(runs, now), ReclaimedList(LapsedRuns(runs, now), list))
  {
    hide LeaseInv;
    hide LeaseExpired;
    var runs' := LapsedRuns(runs, now);
    var list' := ReclaimedList(runs', list);
    forall e | e in list' && e.status == Taken
      ensures exists r | r in runs' :: Owns(r, e)
    {
      var i :| 0 <= i < |list'| && list'[i] == e;
      assert list[i] == e && e in list && Owned(runs', e);
      var r :| r in runs' && r.lease == Acquired && r.readinessId == e.id;
      var j :| 0 <= j < |runs'| && runs'[j] == r;
      assert runs[j] == r && r in runs;
      OwnerIsUnique(sessions, runs, list, next, e, r);
    }
  }

  lemma ReclaimedIsOwned(sessions: seq<Session>, runs: seq<Run>, list: seq<Readiness>, next: nat, now: int)
    requires LeaseInv(sessions, runs, list, next)
    ensures LeaseInv(sessions, LapsedRuns(runs, now), ReclaimedList(LapsedRuns(runs, now), list), next)
  {
    hide LeaseInv;
    hide TakenOwned;
    hide Owned;
    ReclaimedHaveOwners(sessions, runs, list, next, now);
    ShrinkKeepsLease(sessions, runs, LapsedRuns(runs, now), list, ReclaimedList(LapsedRuns(runs, now), list), next);
  }

  lemma ExpiryKeepsInv(s: State, now: int)
    requires Inv(s)
    ensures Inv(AfterExpiry(s, now)) && Peaceful(s.sessions, AfterExpiry(s, now).sessions)
    ensures RunsContinue(s.runs, AfterExpiry(s, now).runs)
  {
    hide LeaseInv;
    hide GoalsOk;
    hide Peaceful;
    ExpiryIsPeaceful(s, now);
    ReclaimedIsOwned(s.sessions, s.runs, s.readiness, s.nextReadiness, now);
    SameRunsKeepInv(s, AfterExpiry(s, now));
  }

  /** New sessions peacefully, runs that continue, and the lease half already shown on the old
      Sessions: together the whole invariant. */
  lemma SameRunsKeepInv(s: State, s': State)
    requires Inv(s) && Peaceful(s.sessions, s'.sessions) && RunsContinue(s.runs, s'.runs) && s'.edges == s.edges
    requires LeaseInv(s.sessions, s'.runs, s'.readiness, s'.nextReadiness)
    requires forall i | 0 <= i < |s.runs| :: s'.runs[i].declared == s.runs[i].declared
    requires forall i | |s.runs| <= i < |s'.runs| :: s'.runs[i].declared == None
    ensures Inv(s')
  {
    hide LeaseInv;
    hide Quiet;
    hide Calm;
    hide GoalOk;
    forall i | 0 <= i < |s.sessions|
      ensures GoalOk(s.sessions[i], i, s'.runs)
    {
      assert GoalOk(s.sessions[i], i, s.runs);
      RunsContinueKeepGoal(s.sessions[i], i, s.runs, s'.runs);
    }
    forall r | r in s'.runs && r.declared.Some? && r.declared.value.DeclaredWaiting?
      ensures r.session < |s.sessions| && r.window.toSeq <= r.declared.value.wakeLogSeq <= |s.sessions[r.session].log|
    {
      var i :| 0 <= i < |s'.runs| && s'.runs[i] == r;
      assert s.runs[i] in s.runs;
    }
    PeacefulKeeps(s.sessions, s'.sessions, s'.runs);
    CalmKeepsLease(s.sessions, s'.sessions, s'.runs, s'.readiness, s'.nextReadiness);
  }

  lemma PeacefulTransitive(a: seq<Session>, b: seq<Session>, c: seq<Session>)
    requires Peaceful(a, b) && Peaceful(b, c)
    ensures Peaceful(a, c)
  {
    forall i | 0 <= i < |a|
      ensures Calm(a[i], c[i]) && Quiet(a[i], c[i])
    {
      QuietTransitive(a[i], b[i], c[i]);
    }
  }

  lemma ReconcileKeepsInv(s: State, mid: State, s': State, now: int)
    requires Inv(s) && ReconcilesVia(s, mid, s', now)
    ensures Inv(mid) && Inv(s') && Peaceful(s.sessions, s'.sessions)
    ensures s'.runs == LapsedRuns(s.runs, now) == mid.runs && RunsContinue(s.runs, s'.runs)
    ensures s'.units == s.units && s'.edges == s.edges
  {
    hide LeaseInv;
    hide GoalsOk;
    hide Refreshes;
    hide Quiet;
    hide Calm;
    ExpiryKeepsInv(s, now);
    var first := AfterExpiry(s, now);
    RefreshShape(first, mid, now);
    RefreshKeepsInv(first, mid, now);
    PeacefulTransitive(s.sessions, first.sessions, mid.sessions);
    if AnyUncovered(mid) {
      var signalled := Signalled(mid);
      SignalledKeepsInv(mid);
      RefreshShape(signalled, s', now);
      RefreshKeepsInv(signalled, s', now);
      PeacefulTransitive(mid.sessions, signalled.sessions, s'.sessions);
      PeacefulTransitive(s.sessions, mid.sessions, s'.sessions);
    }
  }

  lemma RefreshShape(s: State, s': State, now: int)
    requires Refreshes(s, s', now)
    ensures s'.runs == s.runs && s'.units == s.units && s'.edges == s.edges && |s'.sessions| == |s.sessions|
  {
  }

  lemma SignalledKeepsInv(s: State)
    requires Inv(s)
    ensures Inv(Signalled(s)) && Peaceful(s.sessions, Signalled(s).sessions)
  {
    hide Quiet;
    hide LeaseInv;
    hide Calm;
    hide Uncovered;
    var s' := Signalled(s);
    assert Neutral(GM_SIGNAL);
    SomeSignalled(s.sessions, s'.sessions);
    PeacefulKeeps(s.sessions, s'.sessions, s.runs);
    CalmKeepsLease(s.sessions, s'.sessions, s.runs, s.readiness, s.nextReadiness);
  }
}
