/** The observation windows of the runs that moved a role's cursor tile that Session's log, from its
    first entry to the cursor. */
module WindowTiling {
  import opened Wrappers
  import opened DispatchModel
  import opened SelectionPolicy
  import opened Protocol
  import opened LeaseInvariant
  import opened GoalInvariant
  import opened StepInvariant
  import opened CommitInvariant
  import opened Preservation
  import Schedule

  /** Runs that moved the cursor of `sid` and `role`: they released their lease. */
  predicate Moved(r: Run, sid: SessionId, role: Role) {
    r.lease == Released && r.session == sid && r.role == role
  }

  /** Each position up to the cursor lies in exactly one moved window, later runs observe later
      entries, and a run still at work will come after all of them. */
  ghost predicate Tiled(cursor: nat, runs: seq<Run>, sid: SessionId, role: Role) {
    && (forall i | 0 <= i < |runs| && Moved(runs[i], sid, role) ::
          1 <= runs[i].window.fromSeq <= runs[i].window.toSeq <= cursor)
    && (forall i, j | 0 <= i < j < |runs| && Moved(runs[i], sid, role) && Moved(runs[j], sid, role) ::
          runs[i].window.toSeq < runs[j].window.fromSeq)
    && (forall p | 1 <= p <= cursor :: Covered(p, runs, sid, role))
    && (forall i, j | 0 <= i < |runs| && 0 <= j < |runs| && Moved(runs[i], sid, role) && RunsFor(runs[j], sid, role) :: i < j)
  }

  ghost predicate Covered(p: nat, runs: seq<Run>, sid: SessionId, role: Role) {
    exists i | 0 <= i < |runs| :: Moved(runs[i], sid, role) && runs[i].window.fromSeq <= p <= runs[i].window.toSeq
  }

  ghost predicate AllTiled(s: State) {
    forall sid, role | 0 <= sid < |s.sessions| :: Tiled(Cursor(s.sessions[sid], role), s.runs, sid, role)
  }

  lemma CoverStays(p: nat, before: seq<Run>, after: seq<Run>, sid: SessionId, role: Role)
    requires RunsContinue(before, after) && Covered(p, before, sid, role)
    ensures Covered(p, after, sid, role)
  {
    var i :| 0 <= i < |before| && Moved(before[i], sid, role) && before[i].window.fromSeq <= p <= before[i].window.toSeq;
    assert Moved(after[i], sid, role);
  }

  /** Nothing settles: the moved runs and the cursors are the ones of before. */
  lemma QuietTiles(s: State, s': State, sid: SessionId, role: Role)
    requires SettlesNothing(s, s') && RunsContinue(s.runs, s'.runs)
    requires sid < |s.sessions| && Tiled(Cursor(s.sessions[sid], role), s.runs, sid, role)
    ensures Tiled(Cursor(s'.sessions[sid], role), s'.runs, sid, role)
  {
    hide Covered;
    assert Cursor(s'.sessions[sid], role) == Cursor(s.sessions[sid], role);
    forall i | 0 <= i < |s'.runs| && Moved(s'.runs[i], sid, role)
      ensures i < |s.runs| && Moved(s.runs[i], sid, role)
    {
      if i < |s.runs| {
        assert s'.runs[i].lease == Released <==> s.runs[i].lease == Released;
      }
    }
    forall p | 1 <= p <= Cursor(s'.sessions[sid], role)
      ensures Covered(p, s'.runs, sid, role)
    {
      CoverStays(p, s.runs, s'.runs, sid, role);
    }
  }

  /** A new Session starts with nothing observed. */
  lemma NewTiles(s: State, s': State, sid: SessionId, role: Role)
    requires SettlesNothing(s, s') && RunsContinue(s.runs, s'.runs) && RunsOk(s.sessions, s.runs, s.nextReadiness)
    requires |s.sessions| <= sid < |s'.sessions|
    ensures Tiled(Cursor(s'.sessions[sid], role), s'.runs, sid, role)
  {
    assert Cursor(s'.sessions[sid], role) == 0;
    forall i | 0 <= i < |s'.runs|
      ensures !Moved(s'.runs[i], sid, role)
    {
      if i < |s.runs| {
        assert s.runs[i] in s.runs;
      }
    }
  }

  /** The window of the settled run starts right after the last covered position. */
  lemma SettledTiles(s: State, r: RunId, s': State, sid: SessionId, role: Role)
    requires Settles(s, r, s') && RunsContinue(s.runs, s'.runs) && OneRun(s.runs)
    requires sid < |s.sessions| && Tiled(Cursor(s.sessions[sid], role), s.runs, sid, role)
    ensures Tiled(Cursor(s'.sessions[sid], role), s'.runs, sid, role)
  {
    hide Covered;
    hide Cursor;
    hide OneRun;
    if RunsFor(s.runs[r], sid, role) {
      OnlyRunOfRole(s.runs, r, sid, role);
    }
    var before, after := Cursor(s.sessions[sid], role), Cursor(s'.sessions[sid], role);
    assert after == if sid == s.runs[r].session && role == s.runs[r].role then s.runs[r].window.toSeq else before;
    forall i | 0 <= i < |s'.runs|
      ensures i != r ==> (Moved(s'.runs[i], sid, role) <==> Moved(s.runs[i], sid, role))
      ensures RunsFor(s'.runs[i], sid, role) ==> i != r && RunsFor(s.runs[i], sid, role)
      ensures s'.runs[i].window == s.runs[i].window
      ensures RunsFor(s.runs[r], sid, role) ==> !RunsFor(s'.runs[i], sid, role)
    {
    }
    forall p | 1 <= p <= after
      ensures Covered(p, s'.runs, sid, role)
    {
      if p <= before {
        CoverStays(p, s.runs, s'.runs, sid, role);
      } else {
        CoveredBy(p, s'.runs, r, sid, role);
      }
    }
  }

  lemma OnlyRunOfRole(runs: seq<Run>, r: RunId, sid: SessionId, role: Role)
    requires OneRun(runs) && r < |runs| && RunsFor(runs[r], sid, role)
    ensures forall i | 0 <= i < |runs| && i != r :: !RunsFor(runs[i], sid, role)
  {
  }

  lemma CoveredBy(p: nat, runs: seq<Run>, r: RunId, sid: SessionId, role: Role)
    requires r < |runs| && Moved(runs[r], sid, role) && runs[r].window.fromSeq <= p <= runs[r].window.toSeq
    ensures Covered(p, runs, sid, role)
  {
  }

  // ---------------------------------------------------------------- what each step does to cursors

  lemma PeacefulCursors(s: State, s': State)
    requires Peaceful(s.sessions, s'.sessions) && |s.runs| <= |s'.runs|
    requires forall i | 0 <= i < |s.runs| :: s'.runs[i].lease == s.runs[i].lease
                                             || (s.runs[i].lease == Acquired && s'.runs[i].lease == Interrupted)
    requires forall i | |s.runs| <= i < |s'.runs| :: s'.runs[i].lease == Acquired
    ensures SettlesNothing(s, s')
  {
    hide Quiet;
    forall i, role | 0 <= i < |s.sessions|
      ensures Cursor(s'.sessions[i], role) == Cursor(s.sessions[i], role)
    {
      assert Calm(s.sessions[i], s'.sessions[i]);
    }
  }

  lemma InputSettlesNothing(s: State, ev: Event, now: int, s': State)
    requires Accepted(s, ev, now) && Effect(s, ev, now, s')
    requires ev.UserInput? || ev.Post? || ev.SetActive? || ev.UpdateGoal? || ev.ScheduleNext? || ev.SetPolicy?
    ensures SettlesNothing(s, s')
  {
    hide Calm;
    hide Quiet;
    hide SettlesNothing;
    hide Peaceful;
    hide AfterInput;
    InputIsPeaceful(s, ev, now);
    OnePeaceful(s.sessions, ev.sid, AfterInput(s.sessions[ev.sid], ev));
    InputShape(s, ev, now, s');
    PeacefulCursors(s, s');
  }

  lemma InputShape(s: State, ev: Event, now: int, s': State)
    requires Accepted(s, ev, now) && Effect(s, ev, now, s')
    requires ev.UserInput? || ev.Post? || ev.SetActive? || ev.UpdateGoal? || ev.ScheduleNext? || ev.SetPolicy?
    ensures s'.sessions == s.sessions[ev.sid := AfterInput(s.sessions[ev.sid], ev)] && s'.runs == s.runs
  {
    hide Schedule.Resolve;
  }

  lemma AcquireSettlesNothing(s: State, ev: Event, now: int, s': State)
    requires Inv(s) && ev.Acquire? && Accepted(s, ev, now) && Effect(s, ev, now, s')
    ensures SettlesNothing(s, s')
  {
    hide Inv;
    hide Reconciles;
    hide Refreshes;
    hide IsChoice;
    hide Candidate;
    hide MarkStale;
    hide UnitRefuses;
    hide Peaceful;
    hide SettlesNothing;
    var repaired, ready :| AcquiresVia(s, repaired, ready, s', ev.filter, now, ev.outcome);
    AcquireShape(s, repaired, ready, now);
    if s' == s {
      SamePeace(s.sessions);
    } else if ev.outcome.LeaseTaken? {
      ChoiceInRange(ready, ev.filter, now, ev.outcome.chosen);
    }
    PeacefulCursors(s, s');
  }

  lemma RefreshSettlesNothing(s: State, now: int, s': State)
    requires Inv(s) && Refreshes(s, s', now)
    ensures SettlesNothing(s, s')
  {
    hide Inv;
    hide Peaceful;
    hide ReadinessRefreshed;
    RefreshKeepsInv(s, s', now);
    PeacefulCursors(s, s');
  }

  lemma ReloadSettlesNothing(s: State, now: int, s': State)
    requires Inv(s) && Refreshes(AfterReplay(s), s', now)
    ensures SettlesNothing(s, s')
  {
    hide Inv;
    hide Peaceful;
    hide Refreshes;
    ReloadKeeps(s, s', now);
    PeacefulCursors(s, s');
  }

  lemma RecoverySettlesNothing(s: State)
    ensures SettlesNothing(s, Recovered(s))
  {
  }

  lemma OtherStepsSettleNothing(s: State, ev: Event, now: int, s': State)
    requires Accepted(s, ev, now) && Effect(s, ev, now, s')
    requires ev.Declare? || ev.SetUnitActive? || ev.Link? || ev.Start? || ev.Create? || ev.ActivateSingleton?
      || ev.RepairGraph?
    ensures SettlesNothing(s, s')
  {
    hide FirstConflict;
    hide LinkedUnder;
    assert forall i, role | 0 <= i < |s.sessions| :: Cursor(s'.sessions[i], role) == Cursor(s.sessions[i], role);
    assert forall i | 0 <= i < |s.runs| :: s'.runs[i].lease == s.runs[i].lease;
  }

  // ---------------------------------------------------------------- ends of runs

  lemma CommitSettles(s: State, r: RunId, list: seq<Readiness>, status: ReadinessStatus, goal: Option<Goal>,
                      entries: seq<Entry>, result: RunResult)
    requires r < |s.runs| && s.runs[r].session < |s.sessions| && s.runs[r].lease == Acquired
    requires WindowOk(s.sessions[s.runs[r].session], s.runs[r].role, s.runs[r].window)
    ensures Settles(s, r, Committed(s, r, list, status, goal, entries, result))
  {
  }

  lemma DiscardSettles(s: State, r: RunId)
    requires Inv(s) && r < |s.runs| && s.runs[r].session < |s.sessions|
    ensures if s.runs[r].lease == Acquired then Settles(s, r, Discarded(s, r)) else SettlesNothing(s, Discarded(s, r))
  {
    hide GoalsOk;
    hide DeclarationsOk;
    hide EdgesOk;
    assert s.runs[r] in s.runs;
  }

  lemma CompletionSettles(s: State, r: RunId, gate: Schedule.Gate)
    requires r < |s.runs| && s.runs[r].session < |s.sessions| && s.runs[r].lease == Acquired
    requires WindowOk(s.sessions[s.runs[r].session], s.runs[r].role, s.runs[r].window)
    requires s.sessions[s.runs[r].session].goal.Some?
    ensures Settles(s, r, CommitComplete(s, r, gate))
  {
    hide Settles;
    hide Committed;
    hide ParentsNotified;
    var sid := s.runs[r].session;
    var unit := s.sessions[sid].unit;
    var scheduled := WithSchedule(s, unit, Schedule.AfterGate(UnitSchedule(s, unit), gate));
    CommitSettles(scheduled, r, ResolvedFor(s.readiness, sid, false), Resolved,
      Some(s.sessions[sid].goal.value.(complete := true)),
      CompletionEntries(r, gate),
      FinishedComplete);
    SettlesInSpiteOfUnits(s, scheduled, r, OwnCompletion(s, r, gate));
    NotifyingSettles(s, r, OwnCompletion(s, r, gate), sid);
  }

  lemma SettlesInSpiteOfUnits(s: State, other: State, r: RunId, s': State)
    requires other == s.(units := other.units) && Settles(other, r, s')
    ensures Settles(s, r, s')
  {
  }

  lemma NotifyingSettles(s: State, r: RunId, mid: State, child: SessionId)
    requires Settles(s, r, mid)
    ensures Settles(s, r, ParentsNotified(mid, child))
  {
  }

  lemma EndSettles(s: State, r: RunId, end: AgentEnd, now: int)
    requires Inv(s) && r < |s.runs| && s.runs[r].session < |s.sessions|
    ensures if s.runs[r].lease == Acquired then Settles(s, r, Ended(s, r, end, now)) else SettlesNothing(s, Ended(s, r, end, now))
  {
    hide Inv;
    hide Settles;
    hide SettlesNothing;
    hide Committed;
    hide Discarded;
    hide CommitComplete;
    hide FirstConflict;
    hide WindowOk;
    hide ParentsNotified;
    var sid := s.runs[r].session;
    var session := s.sessions[sid];
    if s.runs[r].lease == Acquired {
      AcquiredWindow(s, r);
    }
    if Fence(s, r).Some? {
      DiscardSettles(s, r);
    } else if end.ProviderError? {
      CommitSettles(s, r, s.readiness, Failed, SetIncomplete(session).goal, [MarkedIncomplete(false, Some(r))], FinishedIncomplete);
    } else if s.runs[r].role == WorkerAgent {
      var handoff := if end.remote then [RemoteHandoff(r)] else [];
      var reported := exists e | e in session.log + handoff :: IsReport(e, r, s.runs[r]);
      CommitSettles(s, r, s.readiness, Resolved, session.goal, handoff + (if reported then [] else [RetrySignal(now)]), FinishedComplete);
    } else {
      match s.runs[r].declared
      case None =>
        CommitSettles(s, r, s.readiness, Resolved, session.goal, [RetrySignal(now)], FinishedIncomplete);
      case Some(DeclaredWaiting(kind, wakeLogSeq)) =>
        CommitSettles(s, r, ResolvedFor(s.readiness, sid, true), Resolved,
          Some(session.goal.value.(waiting := Some(Wait(kind, wakeLogSeq, r)))),
          [GoalStateChanged(Waiting, false, Some(r), false)], FinishedIncomplete);
      case Some(DeclaredIncomplete) =>
        CommitSettles(s, r, ResolvedFor(s.readiness, sid, true), Resolved, SetIncomplete(session).goal,
          [MarkedIncomplete(true, Some(r))] + (if WorkerRequested(s, r, sid) then [] else [ImplicitRequest(r, s.runs[r])]),
          FinishedIncomplete);
      case Some(DeclaredComplete(next)) =>
        var gate := GateFor(s, r, next, end.timing, now);
        CommitSettles(s, r, s.readiness, Resolved, SetIncomplete(session).goal,
          [GM_SIGNAL, MarkedIncomplete(false, Some(r))], FinishedIncomplete);
        CompletionSettles(s, r, gate);
    }
  }

  /** Cursors move only when a run that still holds its lease ends, over exactly that run's window. */
  lemma StepSettles(s: State, ev: Event, now: int, s': State)
    requires Inv(s) && Step(s, ev, now, s')
    ensures
      if ev.AgentEnds? && ev.run < |s.runs| && s.runs[ev.run].lease == Acquired then Settles(s, ev.run, s')
      else SettlesNothing(s, s')
  {
    hide Effect;
    hide Settles;
    hide SettlesNothing;
    hide Ended;
    hide Recovered;
    hide Refreshes;
    if !Accepted(s, ev, now) {
      RefusalSettles(s, ev);
    } else if ev.AgentEnds? {
      EndSettles(s, ev.run, ev.end, now);
      EffectOfEnd(s, ev.run, ev.end, now, s');
    } else if ev.Acquire? {
      AcquireSettlesNothing(s, ev, now, s');
    } else if ev.Refresh? {
      EffectOfRefresh(s, now, s');
      RefreshSettlesNothing(s, now, s');
    } else if ev.Reload? {
      EffectOfReload(s, now, s');
      ReloadSettlesNothing(s, now, s');
    } else if ev.Recover? {
      EffectOfRecovery(s, now, s');
      RecoverySettlesNothing(s);
    } else if ev.Declare? || ev.SetUnitActive? || ev.Link? || ev.Start? || ev.Create? || ev.ActivateSingleton?
      || ev.RepairGraph? {
      OtherStepsSettleNothing(s, ev, now, s');
    } else {
      InputSettlesNothing(s, ev, now, s');
    }
  }

  lemma RefusalSettles(s: State, ev: Event)
    requires Inv(s)
    ensures SettlesNothing(s, s)
    ensures ev.AgentEnds? && ev.run < |s.runs| ==> s.runs[ev.run].session < |s.sessions|
  {
    if ev.AgentEnds? && ev.run < |s.runs| {
      assert s.runs[ev.run] in s.runs;
    }
  }

  lemma EffectOfRefresh(s: State, now: int, s': State)
    requires Step(s, Refresh, now, s')
    ensures Refreshes(s, s', now)
  {
  }

  /** The tiling survives every step. */
  lemma StepKeepsTiling(s: State, ev: Event, now: int, s': State)
    requires Inv(s) && AllTiled(s) && Step(s, ev, now, s')
    ensures AllTiled(s')
  {
    StepKeepsInv(s, ev, now, s');
    StepSettles(s, ev, now, s');
    hide Inv;
    hide Step;
    hide Tiled;
    hide SessionFacts;
    hide RunsContinue;
    forall sid, role | 0 <= sid < |s'.sessions|
      ensures Tiled(Cursor(s'.sessions[sid], role), s'.runs, sid, role)
    {
      if sid < |s.sessions| {
        assert Tiled(Cursor(s.sessions[sid], role), s.runs, sid, role);
        if ev.AgentEnds? && ev.run < |s.runs| && s.runs[ev.run].lease == Acquired {
          SettledTiles(s, ev.run, s', sid, role);
        } else {
          QuietTiles(s, s', sid, role);
        }
      } else {
        NewTiles(s, s', sid, role);
      }
    }
  }
}
