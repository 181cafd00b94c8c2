/** Sessions that are cared for: a run holds a lease, or an unread entry wakes a role. What each step does to
    that, and why a turn that ends leaves somebody (src/goal/dispatch.py, src/goal/readiness.py). */
module Care {
  import opened Wrappers
  import opened DispatchModel
  import opened Projection
  import opened SelectionPolicy
  import opened Protocol
  import opened LeaseInvariant
  import opened Replay
  import opened StepInvariant
  import opened CommitInvariant
  import opened Preservation
  import opened WindowTiling
  import opened Behaviours
  import opened Liveness
  import opened Requirements
  import opened Turns
  import opened TurnEnds
  import opened Signatures
  import opened Marks
  import opened Fencing
  import opened LogAuthority
  import Schedule
  import SessionGraph

  // ---------------------------------------------------------------- Sessions that are cared for

  /** A run of the Session holds its lease, or an unread entry wakes one of its roles. */
  ghost predicate InHand(s: Session, runs: seq<Run>, sid: SessionId) {
    HasLiveRun(runs, sid) || Woken(s, GoalManager, false) || Woken(s, WorkerAgent, false)
  }

  ghost predicate CaredFor(s: Session, runs: seq<Run>, sid: SessionId) {
    Dispatchable(s) ==> InHand(s, runs, sid)
  }

  ghost predicate AllCaredFor(s: State) {
    forall sid | 0 <= sid < |s.sessions| :: CaredFor(s.sessions[sid], s.runs, sid)
  }

  predicate Stirs(e: Entry) {
    GoalManagerWake(e, false).Some? || WorkerWake(e).Some?
  }

  /** A new entry wakes a role. */
  ghost predicate Stirred(before: Session, after: Session) {
    exists k | |before.log| <= k < |after.log| :: Stirs(after.log[k])
  }

  /** A change that makes a goal dispatchable wakes a role. */
  ghost predicate Tended(before: Session, after: Session) {
    before.log <= after.log && (Dispatchable(after) ==> Dispatchable(before) || Stirred(before, after))
  }

  lemma TendedTransitive(a: Session, b: Session, c: Session)
    requires Tended(a, b) && Tended(b, c)
    ensures Tended(a, c)
    ensures Stirred(a, b) || Stirred(b, c) ==> Stirred(a, c)
  {
    hide Stirs;
    if Stirred(a, b) {
      var k :| |a.log| <= k < |b.log| && Stirs(b.log[k]);
      assert c.log[k] == b.log[k];
    }
  }

  lemma StirredIsWoken(before: Session, after: Session)
    requires Stirred(before, after)
    requires Cursor(after, GoalManager) <= |before.log| && Cursor(after, WorkerAgent) <= |before.log|
    ensures Woken(after, GoalManager, false) || Woken(after, WorkerAgent, false)
  {
    var k :| |before.log| <= k < |after.log| && Stirs(after.log[k]);
    assert WakeOf(after.log[k], GoalManager, false).Some? || WakeOf(after.log[k], WorkerAgent, false).Some?;
  }

  /** Whoever was cared for still is, as long as a lost run leaves something to read. */
  lemma CareStays(before: Session, after: Session, runs: seq<Run>, runs': seq<Run>, sid: SessionId)
    requires CaredFor(before, runs, sid) && Tended(before, after)
    requires Cursor(after, GoalManager) == Cursor(before, GoalManager) <= |before.log|
    requires Cursor(after, WorkerAgent) == Cursor(before, WorkerAgent) <= |before.log|
    requires HasLiveRun(runs, sid) ==> HasLiveRun(runs', sid) || Stirred(before, after) || !Dispatchable(after)
    ensures CaredFor(after, runs', sid)
  {
    hide Woken;
    hide HasLiveRun;
    hide Stirred;
    hide Cursor;
    if Stirred(before, after) {
      StirredIsWoken(before, after);
    } else if Dispatchable(after) {
      if Woken(before, GoalManager, false) {
        WokenLater(before, after, GoalManager, false);
      }
      if Woken(before, WorkerAgent, false) {
        WokenLater(before, after, WorkerAgent, false);
      }
    }
  }

  // ---------------------------------------------------------------- activity and its log

  /** A Session that is switched off was switched off in its log, if at all. */
  ghost predicate OffAgrees(s: Session) {
    !s.active ==> !ReplayedActive(false, s.log)
  }

  ghost predicate AllOffAgree(s: State) {
    forall sid | 0 <= sid < |s.sessions| :: OffAgrees(s.sessions[sid])
  }

  // ---------------------------------------------------------------- what each step does to one Session

  lemma InputTends(s: Session, ev: Event)
    requires ev.UserInput? || ev.Post? || ev.SetActive? || ev.UpdateGoal? || ev.ScheduleNext? || ev.SetPolicy?
    ensures Tended(s, AfterInput(s, ev))
  {
    var after := AfterInput(s, ev);
    match ev
    case UserInput(_, worker) =>
      if worker.None? {
        assert Stirs(after.log[|s.log|]);
      } else {
        assert Stirs(after.log[|after.log| - 1]);
      }
    case SetActive(_, active) =>
      assert active ==> Stirs(after.log[|s.log|]);
    case UpdateGoal(_, body) =>
      assert Stirs(after.log[|after.log| - 1]);
    case _ =>
  }

  lemma ActivationTends(s: Session, body: string)
    ensures Tended(s, Activated(s, body))
  {
    assert Activated(s, body).log[|s.log|] == GM_SIGNAL;
    assert Stirs(GM_SIGNAL);
  }

  lemma NotifiedTends(s: Session, child: SessionId)
    ensures Tended(s, Notified(s, child))
  {
    assert Stirs(ChildGoalCompleted(child));
    assert Notified(s, child).log[|s.log|] == ChildGoalCompleted(child);
  }

  lemma SignalTends(s: Session, e: Entry)
    requires e.SystemSignal? && GoalManager in e.targets
    ensures Tended(s, Appended(s, [e])) && Stirred(s, Appended(s, [e]))
  {
    assert Appended(s, [e]).log[|s.log|] == e;
    assert Stirs(e);
  }

  lemma ExpiredTends(s: Session, now: int)
    ensures Tended(s, Expired(s, now))
  {
    hide WaitFires;
    if WaitEnds(s, now) {
      var woken := s.(goal := Some(s.goal.value.(waiting := None)));
      SignalTends(woken, GM_SIGNAL);
    }
  }

  lemma RefreshTends(s: State, s': State, now: int, sid: SessionId)
    requires Refreshes(s, s', now) && sid < |s.sessions|
    ensures |s'.sessions| == |s.sessions| && s'.runs == s.runs && Tended(s.sessions[sid], s'.sessions[sid])
  {
    hide ReadinessRefreshed;
    hide Tended;
    hide Expired;
    ExpiredTends(s.sessions[sid], now);
  }

  /** The replay switches nothing on that its log does not. */
  lemma ReplayTends(s: State, sid: SessionId)
    requires Inv(s) && sid < |s.sessions| && OffAgrees(s.sessions[sid])
    ensures |AfterReplay(s).sessions| == |s.sessions| && Tended(s.sessions[sid], AfterReplay(s).sessions[sid])
  {
    ReplayIsPeaceful(s);
    hide Inv;
    hide Restarted;
    hide Peaceful;
    hide ReplayedActive;
  }

  lemma ExpiryTends(s: State, now: int, sid: SessionId)
    requires sid < |s.sessions|
    ensures
      var first := AfterExpiry(s, now);
      && |first.sessions| == |s.sessions| && first.runs == LapsedRuns(s.runs, now)
      && Tended(s.sessions[sid], first.sessions[sid])
      && (LostOwnership(s.runs, s.readiness, now, sid) ==> Stirred(s.sessions[sid], first.sessions[sid]))
  {
    hide LostOwnership;
    SignalTends(s.sessions[sid], GM_SIGNAL);
  }

  lemma SignalledTends(s: State, sid: SessionId)
    requires sid < |s.sessions|
    ensures |Signalled(s).sessions| == |s.sessions| && Tended(s.sessions[sid], Signalled(s).sessions[sid])
  {
    hide Uncovered;
    SignalTends(s.sessions[sid], GM_SIGNAL);
  }

  /** The repair: whoever loses a run is signalled. */
  lemma ReconcileTends(s: State, mid: State, s': State, now: int, sid: SessionId)
    requires Inv(s) && ReconcilesVia(s, mid, s', now) && sid < |s.sessions|
    ensures |s'.sessions| == |s.sessions| && Tended(s.sessions[sid], s'.sessions[sid])
    ensures s'.runs == LapsedRuns(s.runs, now)
    ensures HasLiveRun(s.runs, sid) ==> HasLiveRun(s'.runs, sid) || Stirred(s.sessions[sid], s'.sessions[sid])
  {
    ReconcileKeepsInv(s, mid, s', now);
    UnexpiredIsLive(LapsedRuns(s.runs, now), now, sid);
    ExpiryTends(s, now, sid);
    hide Inv;
    hide Refreshes;
    hide Peaceful;
    hide Tended;
    hide Stirred;
    hide AfterExpiry;
    hide Signalled;
    hide LostOwnership;
    hide HasLiveRun;
    var a, first := s.sessions[sid], AfterExpiry(s, now);
    RefreshTends(first, mid, now, sid);
    TendedTransitive(a, first.sessions[sid], mid.sessions[sid]);
    if AnyUncovered(mid) {
      SignalledTends(mid, sid);
      RefreshTends(Signalled(mid), s', now, sid);
      TendedTransitive(mid.sessions[sid], Signalled(mid).sessions[sid], s'.sessions[sid]);
      TendedTransitive(a, mid.sessions[sid], s'.sessions[sid]);
    }
  }

  lemma UnexpiredIsLive(runs: seq<Run>, now: int, sid: SessionId)
    ensures HasUnexpiredRun(runs, sid, now) ==> HasLiveRun(runs, sid)
  {
  }

  lemma AcquireTends(s: State, ev: Event, now: int, s': State, sid: SessionId)
    requires Inv(s) && ev.Acquire? && Accepted(s, ev, now) && Effect(s, ev, now, s') && sid < |s.sessions|
    ensures |s'.sessions| == |s.sessions| && Tended(s.sessions[sid], s'.sessions[sid])
    ensures HasLiveRun(s.runs, sid) ==> HasLiveRun(s'.runs, sid) || Stirred(s.sessions[sid], s'.sessions[sid])
  {
    hide Inv;
    hide ReconcilesVia;
    hide Refreshes;
    hide IsChoice;
    hide Candidate;
    hide UnitRefuses;
    hide IsStaleAt;
    hide Tended;
    hide Stirred;
    hide HasLiveRun;
    var repaired, ready :| AcquiresVia(s, repaired, ready, s', ev.filter, now, ev.outcome);
    var mid :| ReconcilesVia(s, mid, repaired, now);
    ReconcileTends(s, mid, repaired, now, sid);
    RefreshTends(repaired, ready, now, sid);
    TendedTransitive(s.sessions[sid], repaired.sessions[sid], ready.sessions[sid]);
    if s' == s {
      SameTends(s.sessions[sid]);
    } else if ev.outcome.LeaseTaken? {
      ChoiceInRange(ready, ev.filter, now, ev.outcome.chosen);
      MoreRunsLive(ready.runs, s'.runs, sid);
    }
  }

  lemma SameTends(s: Session)
    ensures Tended(s, s)
  {
  }

  lemma MoreRunsLive(runs: seq<Run>, runs': seq<Run>, sid: SessionId)
    requires runs <= runs'
    ensures HasLiveRun(runs, sid) ==> HasLiveRun(runs', sid)
  {
    if HasLiveRun(runs, sid) {
      var r :| r in runs && r.lease == Acquired && r.session == sid;
      var i :| 0 <= i < |runs| && runs[i] == r;
      assert runs'[i] == r;
    }
  }

  lemma RecoveryTends(s: State, sid: SessionId)
    requires sid < |s.sessions|
    ensures
      var s' := Recovered(s);
      && |s'.sessions| == |s.sessions| && Tended(s.sessions[sid], s'.sessions[sid])
      && (Stirred(s.sessions[sid], s'.sessions[sid]) || !Dispatchable(s'.sessions[sid]))
  {
    hide InterruptedRoles;
    if Resumable(s.sessions, sid) {
      SignalTends(s.sessions[sid], SystemSignal({GoalManager} + InterruptedRoles(s.runs, sid), None));
    }
  }

  /** The end of a run reaches other Sessions only by telling parents. */
  lemma EndTouches(s: State, r: RunId, end: AgentEnd, now: int, sid: SessionId)
    requires Inv(s) && r < |s.runs| && s.runs[r].session < |s.sessions| && sid < |s.sessions| && sid != s.runs[r].session
    ensures
      var s' := Ended(s, r, end, now);
      && |s'.sessions| == |s.sessions|
      && (s'.sessions[sid] == s.sessions[sid] || s'.sessions[sid] == Notified(s.sessions[sid], s.runs[r].session))
      && (HasLiveRun(s.runs, sid) ==> HasLiveRun(s'.runs, sid))
  {
    hide Inv;
    hide Ended;
    hide Notified;
    hide HasLiveRun;
    var entries := EndWrites(s, r, end, now);
    OtherRunsLive(s.runs, Ended(s, r, end, now).runs, r, sid);
  }

  lemma OtherRunsLive(runs: seq<Run>, runs': seq<Run>, r: RunId, sid: SessionId)
    requires |runs'| == |runs| && r < |runs| && runs[r].session != sid
    requires forall i | 0 <= i < |runs| && i != r :: runs'[i] == runs[i]
    ensures HasLiveRun(runs, sid) ==> HasLiveRun(runs', sid)
  {
    if HasLiveRun(runs, sid) {
      var q :| q in runs && q.lease == Acquired && q.session == sid;
      var i :| 0 <= i < |runs| && runs[i] == q;
      assert i != r && runs'[i] in runs';
    }
  }

  // ---------------------------------------------------------------- the turn that ends

  /** A Worker turn past its fence that counts as reported has a report that wakes the GoalManager. */
  ghost predicate Heard(s: State, ev: Event) {
    ev.AgentEnds? && ev.end.Returned? && ev.run < |s.runs| && s.runs[ev.run].session < |s.sessions|
      && s.runs[ev.run].role == WorkerAgent && Fence(s, ev.run).None? && Reported(s, ev.run, ev.end.remote) ==>
      exists k: nat :: HeardReport(s, ev.run, k)
  }

  predicate HeardReport(s: State, r: RunId, k: nat)
    requires r < |s.runs| && s.runs[r].session < |s.sessions|
  {
    var log := s.sessions[s.runs[r].session].log;
    k < |log| && IsReport(log[k], r, s.runs[r]) && GoalManagerWake(log[k], false).Some?
  }

  /** Behind what another role of the Session has read, no entry of one of its runs stands where the
      fence of run `r` passed; so a signal for the GoalManager does. */
  lemma SignalBehind(s: State, r: RunId, other: Role, k: nat)
    requires r < |s.runs| && s.runs[r].session < |s.sessions| && Fence(s, r).None? && other != s.runs[r].role
    requires AllMarked(s) && s.runs[r].window.toSeq <= k < Cursor(s.sessions[s.runs[r].session], other)
    ensures exists j | Cursor(s.sessions[s.runs[r].session], other) <= j < |s.sessions[s.runs[r].session].log| ::
      s.sessions[s.runs[r].session].log[j].SystemSignal? && GoalManager in s.sessions[s.runs[r].session].log[j].targets
  {
    hide FirstConflict;
    var sid := s.runs[r].session;
    assert Marked(s, sid, other);
    var q, j :| MarkedAt(s, sid, other, q, j);
    NoConflictAfter(s.sessions[sid].log, s.runs[r].window.toSeq, r, j);
  }

  lemma UnreadEntry(log: seq<Entry>, from: nat, role: Role, activeWorker: bool, k: nat)
    requires from <= k < |log| && WakeOf(log[k], role, activeWorker).Some?
    ensures UnreadAfter(log, from, role, activeWorker)
  {
  }

  lemma WokenEntry(s: Session, role: Role, activeWorker: bool, k: nat)
    requires Cursor(s, role) <= k < |s.log| && WakeOf(s.log[k], role, activeWorker).Some?
    ensures Woken(s, role, activeWorker)
  {
  }

  /** A GoalManager turn that made no request leaves somebody: the request it counts on is unread, or the
      Worker that read it left a signal. */
  lemma RequestIsUnread(s: State, r: RunId, end: AgentEnd)
    requires Inv(s) && LogsSigned(s) && AllMarked(s) && WorkersWoken(s.sessions, s.readiness)
    requires r < |s.runs| && s.runs[r].session < |s.sessions| && Fence(s, r).None? && s.runs[r].role == GoalManager
    ensures !LeavesNobody(s, r, end)
  {
    hide Fence;
    hide WorkerWake;
    hide LogsSigned;
    hide AllMarked;
    hide Inv;
    hide Woken;
    hide UnreadAfter;
    var sid, to := s.runs[r].session, s.runs[r].window.toSeq;
    var session := s.sessions[sid];
    if LeavesNobody(s, r, end) {
      if e :| e in s.readiness && Live(e) && IsFor(e, sid, WorkerAgent) {
        assert false;
      } else {
        var k := RequestPlace(s, r, sid);
        RequestWakes(s, r, k);
        if session.workerCursor <= k {
          WokenEntry(session, WorkerAgent, false, k);
        } else {
          SignalBehind(s, r, WorkerAgent, k);
          var j :| session.workerCursor <= j < |session.log| && session.log[j].SystemSignal? && GoalManager in session.log[j].targets;
          UnreadEntry(session.log, to, GoalManager, false, j);
        }
        assert false;
      }
    }
  }

  lemma RequestPlace(s: State, r: RunId, sid: SessionId) returns (k: nat)
    requires sid < |s.sessions| && WorkerRequested(s, r, sid) && !HasAcquiredRun(s.runs, sid, WorkerAgent)
    requires forall e | e in s.readiness && Live(e) :: !IsFor(e, sid, WorkerAgent)
    ensures k < |s.sessions[sid].log| && IsWorkerRequest(s.sessions[sid].log[k], r)
  {
    var e :| e in s.sessions[sid].log && IsWorkerRequest(e, r);
    k :| 0 <= k < |s.sessions[sid].log| && s.sessions[sid].log[k] == e;
  }

  lemma RequestWakes(s: State, r: RunId, k: nat)
    requires LogsSigned(s) && r < |s.runs| && s.runs[r].session < |s.sessions| && s.runs[r].role == GoalManager
    requires k < |s.sessions[s.runs[r].session].log| && IsWorkerRequest(s.sessions[s.runs[r].session].log[k], r)
    ensures s.runs[r].window.toSeq <= k && WorkerWake(s.sessions[s.runs[r].session].log[k]).Some?
  {
    hide WorkerWake;
    assert SignatureOk(s.runs, s.runs[r].session, k, s.sessions[s.runs[r].session].log[k]);
  }

  /** A Worker turn that counts as reported leaves somebody: the report is unread, or the GoalManager that
      read it left a signal. */
  lemma ReportIsUnread(s: State, r: RunId, end: AgentEnd)
    requires LogsSigned(s) && AllMarked(s) && Heard(s, AgentEnds(r, end))
    requires r < |s.runs| && s.runs[r].session < |s.sessions| && Fence(s, r).None? && s.runs[r].role == WorkerAgent
    ensures !LeavesNobody(s, r, end)
  {
    hide Fence;
    hide GoalManagerWake;
    hide WorkerWake;
    hide AllMarked;
    hide Woken;
    hide UnreadAfter;
    hide Reported;
    var sid, to := s.runs[r].session, s.runs[r].window.toSeq;
    var session := s.sessions[sid];
    if LeavesNobody(s, r, end) {
      var k: nat :| HeardReport(s, r, k);
      assert SignatureOk(s.runs, sid, k, session.log[k]);
      if session.goalManagerCursor <= k {
        WokenEntry(session, GoalManager, false, k);
      } else {
        SignalBehind(s, r, GoalManager, k);
        var j :| session.goalManagerCursor <= j < |session.log| && session.log[j].SystemSignal? && GoalManager in session.log[j].targets;
        SignalEntry(session, j);
      }
      assert false;
    }
  }

  lemma SignalEntry(s: Session, j: nat)
    requires Cursor(s, GoalManager) <= j < |s.log| && s.log[j].SystemSignal? && GoalManager in s.log[j].targets
    ensures Woken(s, GoalManager, false)
  {
    WokenEntry(s, GoalManager, false, j);
  }

  lemma WokenIsInHand(s: Session, runs: seq<Run>, sid: SessionId, role: Role)
    requires Woken(s, role, HasAcquiredRun(runs, sid, WorkerAgent))
    ensures InHand(s, runs, sid)
  {
    hide Woken;
  }

  /** The end of a turn that held its lease leaves its own Session cared for. */
  lemma EndCares(s: State, r: RunId, end: AgentEnd, now: int)
    requires Inv(s) && LogsSigned(s) && AllMarked(s) && WorkersWoken(s.sessions, s.readiness)
    requires Heard(s, AgentEnds(r, end))
    requires r < |s.runs| && s.runs[r].session < |s.sessions| && s.runs[r].lease == Acquired
    ensures |Ended(s, r, end, now).sessions| == |s.sessions|
    ensures CaredFor(Ended(s, r, end, now).sessions[s.runs[r].session], Ended(s, r, end, now).runs, s.runs[r].session)
  {
    var s', sid := Ended(s, r, end, now), s.runs[r].session;
    EndExtends(s, r, end, now, sid);
    if Fence(s, r).Some? {
      OvertakenRunIsReleased(s, r, end, now);
      WokenIsInHand(s'.sessions[sid], s'.runs, sid, GoalManager);
    } else {
      hide Inv;
      hide Fence;
      hide Ended;
      hide LeavesNobody;
      hide Heard;
      hide Woken;
      hide HasLiveRun;
      hide WorkersWoken;
      hide AllMarked;
      hide LogsSigned;
      if Dispatchable(s'.sessions[sid]) {
        OpenTurnHandsOn(s, r, end, now);
        if s.runs[r].role == GoalManager {
          RequestIsUnread(s, r, end);
        } else {
          ReportIsUnread(s, r, end);
        }
        if RoleWoken(s', sid, GoalManager) {
          WokenIsInHand(s'.sessions[sid], s'.runs, sid, GoalManager);
        } else if RoleWoken(s', sid, WorkerAgent) {
          WokenIsInHand(s'.sessions[sid], s'.runs, sid, WorkerAgent);
        }
      }
    }
  }

  // ---------------------------------------------------------------- every step

  /** The steps that neither move leases nor refresh anything. */
  lemma OtherStepsTend(s: State, ev: Event, now: int, s': State, sid: SessionId)
    requires Accepted(s, ev, now) && Effect(s, ev, now, s') && sid < |s.sessions|
    requires !(ev.Acquire? || ev.Refresh? || ev.Reload? || ev.AgentEnds? || ev.Recover?)
    ensures sid < |s'.sessions| && Tended(s.sessions[sid], s'.sessions[sid])
    ensures HasLiveRun(s.runs, sid) ==> HasLiveRun(s'.runs, sid)
  {
    hide Tended;
    hide Activated;
    hide AfterInput;
    hide HasLiveRun;
    hide SessionGraph.Rehome;
    hide SessionGraph.RootRepaired;
    hide LinkedUnder;
    hide Schedule.Resolve;
    SameTends(s.sessions[sid]);
    if ev.UserInput? || ev.Post? || ev.SetActive? || ev.UpdateGoal? || ev.ScheduleNext? || ev.SetPolicy? {
      InputShape(s, ev, now, s');
      InputTends(s.sessions[sid], ev);
    } else if ev.ActivateSingleton? {
      ActivationTends(s.sessions[sid], ev.body);
    } else if ev.Declare? {
      DeclaringKeepsLive(s, ev.run, ev.decision, sid);
    }
  }

  lemma DeclaringKeepsLive(s: State, r: RunId, d: Protocol.Decision, sid: SessionId)
    requires r < |s.runs| && s.runs[r].session < |s.sessions|
    ensures HasLiveRun(s.runs, sid) ==> HasLiveRun(Declared(s, r, d).runs, sid)
  {
    var runs' := Declared(s, r, d).runs;
    if HasLiveRun(s.runs, sid) {
      var q :| q in s.runs && q.lease == Acquired && q.session == sid;
      var i :| 0 <= i < |s.runs| && s.runs[i] == q;
      assert runs'[i] in runs' && runs'[i].lease == Acquired && runs'[i].session == sid;
    }
  }

  lemma ReloadTends(s: State, now: int, s': State, sid: SessionId)
    requires Inv(s) && Refreshes(AfterReplay(s), s', now) && sid < |s.sessions| && OffAgrees(s.sessions[sid])
    ensures |s'.sessions| == |s.sessions| && s'.runs == s.runs && Tended(s.sessions[sid], s'.sessions[sid])
  {
    ReplayTends(s, sid);
    hide Inv;
    hide Refreshes;
    hide AfterReplay;
    hide Tended;
    hide OffAgrees;
    RefreshTends(AfterReplay(s), s', now, sid);
    SameRunsReplayed(s);
    TendedTransitive(s.sessions[sid], AfterReplay(s).sessions[sid], s'.sessions[sid]);
  }

  lemma SameRunsReplayed(s: State)
    ensures AfterReplay(s).runs == s.runs
  {
  }

  /** Every step tends to every Session whose run does not end in it. */
  lemma StepTends(s: State, ev: Event, now: int, s': State, sid: SessionId)
    requires Inv(s) && Step(s, ev, now, s') && sid < |s.sessions| && OffAgrees(s.sessions[sid])
    requires !(ev.AgentEnds? && ev.run < |s.runs| && s.runs[ev.run].session == sid && s.runs[ev.run].lease == Acquired)
    ensures sid < |s'.sessions| && Tended(s.sessions[sid], s'.sessions[sid])
    ensures HasLiveRun(s.runs, sid) ==>
      HasLiveRun(s'.runs, sid) || Stirred(s.sessions[sid], s'.sessions[sid]) || !Dispatchable(s'.sessions[sid])
  {
    hide Inv;
    hide Ended;
    hide Recovered;
    hide Refreshes;
    hide Acquires;
    hide AfterReplay;
    hide Tended;
    hide Stirred;
    hide HasLiveRun;
    hide OffAgrees;
    if !Accepted(s, ev, now) {
      SameTends(s.sessions[sid]);
    } else if ev.Acquire? {
      AcquireTends(s, ev, now, s', sid);
    } else if ev.Refresh? {
      RefreshTends(s, s', now, sid);
    } else if ev.Reload? {
      ReloadTends(s, now, s', sid);
    } else if ev.Recover? {
      RecoveryTends(s, sid);
    } else if ev.AgentEnds? {
      if s.runs[ev.run].session == sid {
        LateResultTends(s, ev.run, ev.end, now);
      } else {
        EndTouches(s, ev.run, ev.end, now, sid);
        SameTends(s.sessions[sid]);
        NotifiedTends(s.sessions[sid], s.runs[ev.run].session);
      }
    } else {
      OtherStepsTend(s, ev, now, s', sid);
    }
  }

  /** A run that has lost its lease only signals. */
  lemma LateResultTends(s: State, r: RunId, end: AgentEnd, now: int)
    requires r < |s.runs| && s.runs[r].session < |s.sessions| && s.runs[r].lease != Acquired
    ensures
      var s', sid := Ended(s, r, end, now), s.runs[r].session;
      && |s'.sessions| == |s.sessions| && Tended(s.sessions[sid], s'.sessions[sid])
      && (HasLiveRun(s.runs, sid) ==> HasLiveRun(s'.runs, sid))
  {
    var s', sid := Ended(s, r, end, now), s.runs[r].session;
    assert s' == Discarded(s, r);
    SignalTends(s.sessions[sid], GM_SIGNAL);
    if HasLiveRun(s.runs, sid) {
      var q :| q in s.runs && q.lease == Acquired && q.session == sid;
      var i :| 0 <= i < |s.runs| && s.runs[i] == q;
      assert i != r && s'.runs[i] in s'.runs;
    }
  }

  /** A new Session comes with an entry that wakes its GoalManager, or without a goal. */
  lemma NewSessionIsCaredFor(s: State, ev: Event, now: int, s': State, sid: SessionId)
    requires Inv(s) && Step(s, ev, now, s') && |s.sessions| <= sid < |s'.sessions|
    ensures CaredFor(s'.sessions[sid], s'.runs, sid) && OffAgrees(s'.sessions[sid])
  {
    if !(ev.Start? || ev.Create?) {
      StepCounts(s, ev, now, s');
      assert false;
    }
    hide Inv;
    hide SessionGraph.Rehome;
    if ev.Start? {
      var session := s'.sessions[sid];
      assert session.log[0] == MarkedIncomplete(false, None);
      WokenEntry(session, GoalManager, false, 0);
    }
  }

  lemma CursorsInLog(s: State)
    requires Inv(s)
    ensures forall sid, role | 0 <= sid < |s.sessions| :: Cursor(s.sessions[sid], role) <= |s.sessions[sid].log|
  {
    assert CursorsOk(s.sessions);
  }

  /** What a run of the protocol keeps about the traces of its turns. */
  ghost predicate Traced(s: State) {
    && WindowsInLog(s) && LogsSigned(s) && AllMarked(s)
    && WorkersWoken(s.sessions, s.readiness)
    && AllOffAgree(s)
  }

  lemma StepKeepsCare(s: State, ev: Event, now: int, s': State)
    requires Inv(s) && Step(s, ev, now, s') && Traced(s) && AllCaredFor(s) && Heard(s, ev)
    ensures AllCaredFor(s')
  {
    StepSettles(s, ev, now, s');
    CursorsInLog(s);
    var ends := ev.AgentEnds? && ev.run < |s.runs| && s.runs[ev.run].lease == Acquired;
    if ends {
      EndCares(s, ev.run, ev.end, now);
      EffectOfEnd(s, ev.run, ev.end, now, s');
    }
    hide Inv;
    hide Step;
    hide Ended;
    hide LogsSigned;
    hide WindowsInLog;
    hide AllMarked;
    hide WorkersWoken;
    hide Heard;
    hide CaredFor;
    hide OffAgrees;
    hide HasLiveRun;
    hide Tended;
    hide Stirred;
    forall sid | 0 <= sid < |s'.sessions|
      ensures CaredFor(s'.sessions[sid], s'.runs, sid)
    {
      if sid >= |s.sessions| {
        NewSessionIsCaredFor(s, ev, now, s', sid);
      } else if !(ends && s.runs[ev.run].session == sid) {
        assert CaredFor(s.sessions[sid], s.runs, sid) && OffAgrees(s.sessions[sid]);
        StepTends(s, ev, now, s', sid);
        assert forall role :: Cursor(s'.sessions[sid], role) == Cursor(s.sessions[sid], role) <= |s.sessions[sid].log|;
        CareStays(s.sessions[sid], s'.sessions[sid], s.runs, s'.runs, sid);
      }
    }
  }

  // ---------------------------------------------------------------- activity

  lemma OffStays(before: Session, after: Session)
    requires OffAgrees(before) && NoActivation(before, after)
    ensures OffAgrees(after)
  {
    var tail := after.log[|before.log|..];
    assert after.log == before.log + tail;
    ReplayedActiveConcat(false, before.log, tail);
    NoActivationReplay(ReplayedActive(false, before.log), tail);
  }

  /** Only the log can switch a Session off. */
  lemma StepKeepsOff(s: State, ev: Event, now: int, s': State, sid: SessionId)
    requires Inv(s) && Step(s, ev, now, s') && sid < |s.sessions| <= |s'.sessions| && OffAgrees(s.sessions[sid])
    ensures OffAgrees(s'.sessions[sid])
  {
    hide Inv;
    var before, after := s.sessions[sid], s'.sessions[sid];
    if !Accepted(s, ev, now) {
    } else if ev.SetActive? && ev.sid == sid {
      assert after.log == before.log + [SessionActiveChanged(ev.active)];
      ReplayedActiveConcat(false, before.log, [SessionActiveChanged(ev.active)]);
      assert ReplayedActive(ReplayedActive(false, before.log), [SessionActiveChanged(ev.active)]) == ev.active;
    } else if ev.ActivateSingleton? && ev.sid == sid {
      assert after.active;
    } else if ev.Reload? {
      EffectOfReload(s, now, s');
      ReloadKeepsOff(s, now, s', sid);
    } else {
      hide Effect;
      hide Accepted;
      hide OffAgrees;
      if ev.Acquire? || ev.Refresh? || ev.Recover? || ev.AgentEnds? {
        RuntimeStepKeepsActive(s, ev, now, s', sid);
      } else if ev.UserInput? || ev.Post? || ev.UpdateGoal? || ev.ScheduleNext? || ev.SetPolicy? || ev.SetActive? {
        InputKeepsActive(s, ev, now, s', sid);
      } else {
        OtherStepsKeepActive(s, ev, now, s', sid);
      }
      OffStays(before, after);
    }
  }

  lemma ReloadKeepsOff(s: State, now: int, s': State, sid: SessionId)
    requires Inv(s) && Refreshes(AfterReplay(s), s', now) && sid < |s.sessions| <= |s'.sessions|
    ensures OffAgrees(s'.sessions[sid])
  {
    ReplayIsPeaceful(s);
    RefreshSignals(AfterReplay(s), s', now);
    hide Inv;
    hide Refreshes;
    hide Peaceful;
    hide Restarted;
    var before, mid, after := s.sessions[sid], AfterReplay(s).sessions[sid], s'.sessions[sid];
    ActiveDecidesOrKeeps(before.log, true);
    assert SignalsOnly(mid, after);
    OffStays(mid, after);
  }
}
