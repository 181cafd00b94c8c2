/** What finished turns and waiting Workers leave to be read: behind everything a role has read there is a
    signal for the GoalManager or an entry of the run that read it, and a Worker that is ready or running
    has an entry to read (src/goal/dispatch.py, src/goal/readiness.py). */
module Marks {
  import opened Wrappers
  import opened DispatchModel
  import opened Projection
  import opened SelectionPolicy
  import opened Protocol
  import opened LeaseInvariant
  import opened GoalInvariant
  import opened Replay
  import opened StepInvariant
  import opened Preservation
  import opened WindowTiling
  import opened Behaviours
  import opened Liveness
  import opened Overtaking
  import opened TurnEnds
  import opened Signatures
  import SessionGraph

  // ---------------------------------------------------------------- what a finished turn leaves in the log

  predicate SignedBy(e: Entry, q: RunId) {
    || (e.Message? && e.payload.runId == Some(q))
    || (e.GoalStateChanged? && e.run == Some(q))
  }

  /** The entry calls the GoalManager, or comes from run `q` and so conflicts with every other run. */
  predicate HandsOn(e: Entry, q: RunId) {
    (e.SystemSignal? && GoalManager in e.targets) || SignedBy(e, q)
  }

  ghost predicate MarkedAt(s: State, sid: SessionId, role: Role, q: RunId, k: nat) {
    && sid < |s.sessions| && q < |s.runs| && s.runs[q].session == sid && s.runs[q].role == role
    && Cursor(s.sessions[sid], role) <= k < |s.sessions[sid].log|
    && HandsOn(s.sessions[sid].log[k], q)
  }

  /** A role that has read anything was run, and behind what it has read one of its runs left a signal for
      the GoalManager or an entry of its own. */
  ghost predicate Marked(s: State, sid: SessionId, role: Role)
    requires sid < |s.sessions|
  {
    Cursor(s.sessions[sid], role) == 0 || exists q, k :: MarkedAt(s, sid, role, q, k)
  }

  ghost predicate AllMarked(s: State) {
    forall sid, role | 0 <= sid < |s.sessions| :: Marked(s, sid, role)
  }

  lemma MarkStays(s: State, s': State, sid: SessionId, role: Role)
    requires sid < |s.sessions| <= |s'.sessions| && Marked(s, sid, role) && RunsContinue(s.runs, s'.runs)
    requires s.sessions[sid].log <= s'.sessions[sid].log
    requires Cursor(s'.sessions[sid], role) == Cursor(s.sessions[sid], role)
    ensures Marked(s', sid, role)
  {
    hide HandsOn;
    if Cursor(s.sessions[sid], role) != 0 {
      var q, k :| MarkedAt(s, sid, role, q, k);
      assert MarkedAt(s', sid, role, q, k);
    }
  }

  ghost predicate HandedOn(log: seq<Entry>, from: nat, r: RunId) {
    exists k | from <= k < |log| :: HandsOn(log[k], r)
  }

  /** A report lies in the log itself; the handoff to a remote provider is none. */
  lemma ReportPlace(s: State, r: RunId, remote: bool) returns (k: nat)
    requires r < |s.runs| && s.runs[r].session < |s.sessions| && Reported(s, r, remote)
    ensures k < |s.sessions[s.runs[r].session].log| && IsReport(s.sessions[s.runs[r].session].log[k], r, s.runs[r])
  {
    var log := s.sessions[s.runs[r].session].log;
    var all := log + (if remote then [RemoteHandoff(r)] else []);
    var e :| e in all && IsReport(e, r, s.runs[r]);
    k :| 0 <= k < |all| && all[k] == e;
    assert k < |log|;
  }

  /** Behind the window of every turn that ends, there is such an entry. */
  lemma EndMarks(s: State, r: RunId, end: AgentEnd, now: int)
    requires Inv(s) && WindowsInLog(s) && LogsSigned(s) && r < |s.runs|
    ensures s.runs[r].session < |s.sessions| == |Ended(s, r, end, now).sessions|
    ensures HandedOn(Ended(s, r, end, now).sessions[s.runs[r].session].log, s.runs[r].window.toSeq, r)
  {
    hide Inv;
    hide Ended;
    hide Fence;
    hide WorkerWake;
    hide WrittenAtEnd;
    hide Reported;
    var sid := s.runs[r].session;
    assert sid < |s.sessions| && s.runs[r].window.toSeq <= |s.sessions[sid].log|;
    var entries := EndWrites(s, r, end, now);
    var log, log' := s.sessions[sid].log, Ended(s, r, end, now).sessions[sid].log;
    if exists e | e in entries :: Tells(e, r) {
      var e :| e in entries && Tells(e, r);
      var k :| 0 <= k < |entries| && entries[k] == e;
      assert log'[|log| + k] == e && HandsOn(e, r);
    } else {
      var k := ReportPlace(s, r, end.remote);
      assert SignatureOk(s.runs, sid, k, log[k]);
      assert log'[k] == log[k] && HandsOn(log[k], r);
    }
  }

  /** Every step keeps the marks. */
  lemma StepKeepsMarks(s: State, ev: Event, now: int, s': State)
    requires Inv(s) && Step(s, ev, now, s') && WindowsInLog(s) && LogsSigned(s) && AllMarked(s)
    ensures AllMarked(s')
  {
    hide Inv;
    hide Step;
    hide Ended;
    hide WindowsInLog;
    hide LogsSigned;
    hide HandedOn;
    hide Marked;
    hide RunsContinue;
    StepExtends(s, ev, now, s');
    StepSettles(s, ev, now, s');
    var ends := ev.AgentEnds? && ev.run < |s.runs| && s.runs[ev.run].lease == Acquired;
    if ends {
      EndMarks(s, ev.run, ev.end, now);
      EffectOfEnd(s, ev.run, ev.end, now, s');
    }
    forall sid, role | 0 <= sid < |s'.sessions|
      ensures Marked(s', sid, role)
    {
      if ends && sid == s.runs[ev.run].session && role == s.runs[ev.run].role {
        SettledIsMarked(s, ev.run, s', sid, role);
      } else if sid < |s.sessions| {
        assert Marked(s, sid, role);
        MarkStays(s, s', sid, role);
      } else {
        UnreadIsMarked(s', sid, role);
      }
    }
  }

  lemma UnreadIsMarked(s: State, sid: SessionId, role: Role)
    requires sid < |s.sessions| && Cursor(s.sessions[sid], role) == 0
    ensures Marked(s, sid, role)
  {
  }

  lemma SettledIsMarked(s: State, r: RunId, s': State, sid: SessionId, role: Role)
    requires Settles(s, r, s') && RunsContinue(s.runs, s'.runs) && sid == s.runs[r].session && role == s.runs[r].role
    requires HandedOn(s'.sessions[sid].log, s.runs[r].window.toSeq, r)
    ensures Marked(s', sid, role)
  {
    var k :| s.runs[r].window.toSeq <= k < |s'.sessions[sid].log| && HandsOn(s'.sessions[sid].log[k], r);
    assert MarkedAt(s', sid, role, r, k);
  }

  // ---------------------------------------------------------------- Workers about to run have work to read

  /** A Worker entry that is ready or taken belongs to a Session with an unread entry that wakes the Worker. */
  ghost predicate WorkersWoken(sessions: seq<Session>, list: seq<Readiness>) {
    forall e | e in list && Live(e) && e.role == WorkerAgent && e.session < |sessions| ::
      Woken(sessions[e.session], WorkerAgent, false)
  }

  lemma WokenLater(before: Session, after: Session, role: Role, activeWorker: bool)
    requires before.log <= after.log && Cursor(after, role) == Cursor(before, role)
    requires Woken(before, role, activeWorker)
    ensures Woken(after, role, activeWorker)
  {
    hide WakeOf;
    var k :| Cursor(before, role) <= k < |before.log| && WakeOf(before.log[k], role, activeWorker).Some?;
    assert after.log[k] == before.log[k];
  }

  /** Whether another Worker runs matters to the GoalManager only. */
  lemma WorkerWakesAnyway(s: Session, activeWorker: bool)
    ensures Woken(s, WorkerAgent, activeWorker) <==> Woken(s, WorkerAgent, false)
  {
    hide WorkerWake;
    assert forall k | 0 <= k < |s.log| :: WakeOf(s.log[k], WorkerAgent, activeWorker) == WakeOf(s.log[k], WorkerAgent, false);
  }

  ghost predicate Grows(before: seq<Session>, after: seq<Session>) {
    && |before| <= |after|
    && forall i | 0 <= i < |before| ::
         && before[i].log <= after[i].log
         && Cursor(after[i], WorkerAgent) == Cursor(before[i], WorkerAgent)
  }

  /** Entries that were live before, in logs that only grew. */
  lemma OldWorkersWoken(sessions: seq<Session>, sessions': seq<Session>, list: seq<Readiness>, list': seq<Readiness>)
    requires WorkersWoken(sessions, list) && Grows(sessions, sessions')
    requires forall e' | e' in list' && Live(e') ::
      exists e | e in list :: Live(e) && e.session == e'.session && e.role == e'.role && e.session < |sessions|
    ensures WorkersWoken(sessions', list')
  {
    hide Woken;
    forall e' | e' in list' && Live(e') && e'.role == WorkerAgent && e'.session < |sessions'|
      ensures Woken(sessions'[e'.session], WorkerAgent, false)
    {
      var e :| e in list && Live(e) && e.session == e'.session && e.role == e'.role && e.session < |sessions|;
      WokenLater(sessions[e.session], sessions'[e.session], WorkerAgent, false);
    }
  }

  lemma LiveInSessions(s: State)
    requires Inv(s)
    ensures forall e | e in s.readiness && Live(e) :: e.session < |s.sessions|
  {
    hide GoalsOk;
  }

  lemma PeaceGrows(before: seq<Session>, after: seq<Session>)
    requires Peaceful(before, after)
    ensures Grows(before, after)
  {
    hide Quiet;
    forall i | 0 <= i < |before|
      ensures before[i].log <= after[i].log && Cursor(after[i], WorkerAgent) == Cursor(before[i], WorkerAgent)
    {
      assert Calm(before[i], after[i]);
    }
  }

  lemma RefreshKeepsWoken(s: State, s': State, now: int)
    requires Inv(s) && Refreshes(s, s', now) && WorkersWoken(s.sessions, s.readiness)
    ensures WorkersWoken(s'.sessions, s'.readiness)
  {
    RefreshKeepsInv(s, s', now);
    RefreshedList(s, s', now);
    PeaceGrows(s.sessions, s'.sessions);
    LiveInSessions(s);
    hide Inv;
    hide Peaceful;
    hide Woken;
    hide RefreshedFor;
    hide Expired;
    forall e | e in s'.readiness && Live(e) && e.role == WorkerAgent && e.session < |s'.sessions|
      ensures Woken(s'.sessions[e.session], WorkerAgent, false)
    {
      if e in s.readiness {
        WokenLater(s.sessions[e.session], s'.sessions[e.session], WorkerAgent, false);
      } else {
        NewWorkerIsWoken(s, s', now, e);
      }
    }
  }

  lemma NewWorkerIsWoken(s: State, s': State, now: int, e: Readiness)
    requires Refreshes(s, s', now) && e in s'.readiness && e.status == Ready && e.role == WorkerAgent
    requires e !in s.readiness && e.session < |s'.sessions|
    ensures Woken(s'.sessions[e.session], WorkerAgent, false)
  {
    RefreshedList(s, s', now);
    hide ReadinessRefreshed;
    hide Woken;
    RefreshedEntry(s'.sessions, s.runs, s.readiness, s'.readiness, s.nextReadiness, s'.nextReadiness, now, e);
    RefreshFollowsTheLog(s'.sessions, s.runs, s.readiness, s'.readiness, s.nextReadiness, s'.nextReadiness, now,
      e.session, WorkerAgent);
    WorkerWakesAnyway(s'.sessions[e.session], HasAcquiredRun(s.runs, e.session, WorkerAgent));
  }

  lemma SameSessionsWoken(s: State, list': seq<Readiness>)
    requires Inv(s) && WorkersWoken(s.sessions, s.readiness)
    requires |list'| == |s.readiness|
    requires forall i | 0 <= i < |list'| ::
      list'[i] == s.readiness[i].(status := list'[i].status) && (Live(list'[i]) ==> Live(s.readiness[i]))
    ensures WorkersWoken(s.sessions, list')
  {
    hide Woken;
    hide Inv;
    forall e' | e' in list' && Live(e') && e'.role == WorkerAgent && e'.session < |s.sessions|
      ensures Woken(s.sessions[e'.session], WorkerAgent, false)
    {
      var i :| 0 <= i < |list'| && list'[i] == e';
      assert s.readiness[i] in s.readiness;
    }
  }

  lemma ReconcileKeepsWoken(s: State, mid: State, s': State, now: int)
    requires Inv(s) && ReconcilesVia(s, mid, s', now) && WorkersWoken(s.sessions, s.readiness)
    ensures WorkersWoken(s'.sessions, s'.readiness) && Inv(s')
  {
    ReconcileKeepsInv(s, mid, s', now);
    var first := AfterExpiry(s, now);
    ExpiryKeepsInv(s, now);
    PeaceGrows(s.sessions, first.sessions);
    ReclaimedStatus(s, now);
    SameSessionsWoken(s, first.readiness);
    hide Inv;
    hide Refreshes;
    hide Peaceful;
    hide Woken;
    hide AfterExpiry;
    WokenInGrown(s.sessions, first.sessions, first.readiness, first);
    RefreshKeepsWoken(first, mid, now);
    if AnyUncovered(mid) {
      var signalled := Signalled(mid);
      SignalledKeepsInv(mid);
      PeaceGrows(mid.sessions, signalled.sessions);
      WokenInGrown(mid.sessions, signalled.sessions, mid.readiness, signalled);
      RefreshKeepsWoken(signalled, s', now);
    }
  }

  lemma WokenInGrown(sessions: seq<Session>, sessions': seq<Session>, list: seq<Readiness>, s': State)
    requires Grows(sessions, sessions') && |sessions'| == |sessions| && WorkersWoken(sessions, list)
    requires s'.sessions == sessions' && s'.readiness == list
    ensures WorkersWoken(s'.sessions, s'.readiness)
  {
    hide Woken;
    forall e | e in list && Live(e) && e.role == WorkerAgent && e.session < |sessions'|
      ensures Woken(sessions'[e.session], WorkerAgent, false)
    {
      WokenLater(sessions[e.session], sessions'[e.session], WorkerAgent, false);
    }
  }

  lemma ReclaimedStatus(s: State, now: int)
    ensures var list' := AfterExpiry(s, now).readiness;
      && |list'| == |s.readiness|
      && forall i | 0 <= i < |list'| ::
           list'[i] == s.readiness[i].(status := list'[i].status) && (Live(list'[i]) ==> Live(s.readiness[i]))
  {
    hide Owned;
  }

  lemma AcquireKeepsWoken(s: State, ev: Event, now: int, s': State)
    requires Inv(s) && ev.Acquire? && Accepted(s, ev, now) && Effect(s, ev, now, s')
    requires WorkersWoken(s.sessions, s.readiness)
    ensures WorkersWoken(s'.sessions, s'.readiness)
  {
    hide Inv;
    hide ReconcilesVia;
    hide Refreshes;
    hide IsChoice;
    hide Candidate;
    hide UnitRefuses;
    hide WorkersWoken;
    hide IsStaleAt;
    var repaired, ready :| AcquiresVia(s, repaired, ready, s', ev.filter, now, ev.outcome);
    var mid :| ReconcilesVia(s, mid, repaired, now);
    ReconcileKeepsWoken(s, mid, repaired, now);
    RefreshKeepsWoken(repaired, ready, now);
    AcquireShape(s, repaired, ready, now);
    if s' != s {
      if ev.outcome.LeaseTaken? {
        ChoiceInRange(ready, ev.filter, now, ev.outcome.chosen);
        ChoiceIsReady(ready, ev.filter, now, ev.outcome.chosen);
      }
      SameSessionsWoken(ready, s'.readiness);
    }
  }

  lemma ChoiceIsReady(s: State, filter: Option<SessionId>, now: int, i: nat)
    requires IsChoice(s.readiness, s.sessions, AcquiredRoles(s.runs), filter, now, i)
    ensures s.readiness[i].status == Ready
  {
  }

  /** The end of a run leaves no live entry of its own role, and only fewer of the others. */
  lemma EndKeepsWoken(s: State, r: RunId, end: AgentEnd, now: int)
    requires Inv(s) && r < |s.runs| && s.runs[r].session < |s.sessions| && WorkersWoken(s.sessions, s.readiness)
    ensures WorkersWoken(Ended(s, r, end, now).sessions, Ended(s, r, end, now).readiness)
  {
    hide Inv;
    hide Ended;
    hide Woken;
    hide Quiet;
    hide LogExplains;
    hide RunsContinue;
    var s' := Ended(s, r, end, now);
    EndSettles(s, r, end, now);
    AgentEndKeepsInv(s, r, end, now);
    EndShrinks(s, r, end, now);
    LiveWindows(s);
    LiveWindows(s');
    forall e | e in s'.readiness && Live(e) && e.role == WorkerAgent && e.session < |s'.sessions|
      ensures Woken(s'.sessions[e.session], WorkerAgent, false)
    {
      var i :| 0 <= i < |s'.readiness| && s'.readiness[i] == e;
      assert s.readiness[i] == e && e in s.readiness;
      assert Cursor(s'.sessions[e.session], WorkerAgent) == Cursor(s.sessions[e.session], WorkerAgent);
      EndExtends(s, r, end, now, e.session);
      WokenLater(s.sessions[e.session], s'.sessions[e.session], WorkerAgent, false);
    }
  }

  lemma EndExtends(s: State, r: RunId, end: AgentEnd, now: int, sid: SessionId)
    requires Inv(s) && r < |s.runs| && s.runs[r].session < |s.sessions| && sid < |s.sessions|
    ensures |Ended(s, r, end, now).sessions| == |s.sessions|
    ensures s.sessions[sid].log <= Ended(s, r, end, now).sessions[sid].log
  {
    hide Inv;
    hide Ended;
    var entries := EndWrites(s, r, end, now);
    EndEntries(s, r, Ended(s, r, end, now), entries, sid, 0);
  }

  lemma LiveWindows(s: State)
    requires Inv(s)
    ensures forall e | e in s.readiness && Live(e) ::
      e.session < |s.sessions| && e.window.fromSeq == Cursor(s.sessions[e.session], e.role) + 1
  {
    hide GoalsOk;
  }

  lemma RecoveredStatus(s: State)
    ensures var list' := Recovered(s).readiness;
      && |list'| == |s.readiness|
      && forall i | 0 <= i < |list'| ::
           list'[i] == s.readiness[i].(status := list'[i].status) && (Live(list'[i]) ==> Live(s.readiness[i]))
  {
  }

  lemma StepKeepsWoken(s: State, ev: Event, now: int, s': State)
    requires Inv(s) && Step(s, ev, now, s') && WorkersWoken(s.sessions, s.readiness)
    ensures WorkersWoken(s'.sessions, s'.readiness)
  {
    hide Inv;
    hide Ended;
    hide Recovered;
    hide Refreshes;
    hide WorkersWoken;
    hide Acquires;
    hide AfterReplay;
    if Accepted(s, ev, now) {
      if ev.Acquire? {
        AcquireKeepsWoken(s, ev, now, s');
      } else if ev.Refresh? {
        RefreshKeepsWoken(s, s', now);
      } else if ev.Reload? {
        ReloadKeepsWoken(s, s', now);
      } else if ev.AgentEnds? {
        EndKeepsWoken(s, ev.run, ev.end, now);
      } else if ev.Recover? {
        RecoverKeepsWoken(s);
      } else {
        OtherStepsKeepWoken(s, ev, now, s');
      }
    }
  }

  lemma ReloadKeepsWoken(s: State, s': State, now: int)
    requires Inv(s) && Refreshes(AfterReplay(s), s', now) && WorkersWoken(s.sessions, s.readiness)
    ensures WorkersWoken(s'.sessions, s'.readiness)
  {
    ReloadKeeps(s, s', now);
    ReplayIsPeaceful(s);
    PeaceGrows(s.sessions, AfterReplay(s).sessions);
    hide Inv;
    hide Refreshes;
    hide Restarted;
    hide WorkersWoken;
    hide Peaceful;
    WokenInGrown(s.sessions, AfterReplay(s).sessions, s.readiness, AfterReplay(s));
    RefreshKeepsWoken(AfterReplay(s), s', now);
  }

  lemma RecoverKeepsWoken(s: State)
    requires Inv(s) && WorkersWoken(s.sessions, s.readiness)
    ensures WorkersWoken(Recovered(s).sessions, Recovered(s).readiness)
  {
    RecoveredStatus(s);
    SameSessionsWoken(s, Recovered(s).readiness);
    RecoveredGrows(s);
    WokenInGrown(s.sessions, Recovered(s).sessions, Recovered(s).readiness, Recovered(s));
  }

  lemma RecoveredGrows(s: State)
    ensures |Recovered(s).sessions| == |s.sessions| && Grows(s.sessions, Recovered(s).sessions)
  {
    hide Resumable;
  }

  /** The other steps leave the readiness list alone. */
  lemma OtherStepsKeepWoken(s: State, ev: Event, now: int, s': State)
    requires Inv(s) && Step(s, ev, now, s') && WorkersWoken(s.sessions, s.readiness)
    requires !(ev.Acquire? || ev.Refresh? || ev.Reload? || ev.AgentEnds? || ev.Recover?)
    ensures WorkersWoken(s'.sessions, s'.readiness)
  {
    StepExtends(s, ev, now, s');
    StepSettles(s, ev, now, s');
    LiveInSessions(s);
    hide Inv;
    hide WorkersWoken;
    hide SessionGraph.Rehome;
    hide SessionGraph.RootRepaired;
    hide LinkedUnder;
    hide FirstConflict;
    assert s'.readiness == s.readiness;
    hide Step;
    assert Grows(s.sessions, s'.sessions) by {
      forall i | 0 <= i < |s.sessions|
        ensures Cursor(s'.sessions[i], WorkerAgent) == Cursor(s.sessions[i], WorkerAgent)
      {
      }
    }
    OldWorkersWoken(s.sessions, s'.sessions, s.readiness, s'.readiness);
  }
}
