/** Which run a log entry comes from: where the messages that name a run come from, and what follows for
    their place in the log and for whom they wake (src/goal/messages.py, src/goal/dispatch.py). */
module Signatures {
  import opened Wrappers
  import opened DispatchModel
  import opened Projection
  import opened SelectionPolicy
  import opened Protocol
  import opened GoalInvariant
  import opened Replay
  import opened StepInvariant
  import opened Preservation
  import opened WindowTiling
  import opened Requirements
  import opened TurnEnds
  import SessionGraph

  /** Run ids are fresh: nobody names a run that does not exist yet. */
  predicate FreshIds(s: State, ev: Event) {
    match ev
    case Post(_, message) =>
      message.Message? && message.payload.runId.Some? ==> message.payload.runId.value < |s.runs|
    case ScheduleNext(_, author, _, _) => author.Some? ==> author.value < |s.runs|
    case _ => true
  }

  /** What a run tells its own Session carries the run's own role. */
  predicate OwnRole(s: State, ev: Event) {
    ev.Post? && ev.message.Message? && ev.message.toSession && ev.message.payload.runId.Some? ==>
      var q := ev.message.payload.runId.value;
      q < |s.runs| && s.runs[q].session == ev.sid ==> ev.message.payload.agentRole == Some(s.runs[q].role)
  }

  predicate Names(e: Entry) {
    e.Message? && e.payload.runId.Some?
  }

  /** The run exists, its window ends before the message, and a request of a GoalManager wakes the Worker. */
  predicate SignatureOk(runs: seq<Run>, sid: SessionId, k: nat, e: Entry)
    requires Names(e)
  {
    var q := e.payload.runId.value;
    && q < |runs|
    && (runs[q].session == sid ==> runs[q].window.toSeq <= k)
    && (runs[q].role == GoalManager && e.payload.workerRequest ==> WorkerWake(e).Some?)
  }

  ghost predicate LogsSigned(s: State) {
    forall sid, k | 0 <= sid < |s.sessions| && 0 <= k < |s.sessions[sid].log| && Names(s.sessions[sid].log[k]) ::
      SignatureOk(s.runs, sid, k, s.sessions[sid].log[k])
  }

  /** The window of a run lies inside its Session's log. */
  predicate WindowsInLog(s: State) {
    forall q | 0 <= q < |s.runs| ::
      s.runs[q].session < |s.sessions| && s.runs[q].window.toSeq <= |s.sessions[s.runs[q].session].log|
  }

  /** A message of a Worker to its Session, not counting forwarded input, wakes the GoalManager. */
  predicate VoiceOk(runs: seq<Run>, sid: SessionId, e: Entry)
    requires Names(e)
  {
    var q := e.payload.runId.value;
    e.toSession && e.sender != OtherSender && q < |runs| && runs[q].session == sid && runs[q].role == WorkerAgent ==>
      GoalManagerWake(e, false).Some?
  }

  ghost predicate LogsVoiced(s: State) {
    forall sid, k | 0 <= sid < |s.sessions| && 0 <= k < |s.sessions[sid].log| && Names(s.sessions[sid].log[k]) ::
      VoiceOk(s.runs, sid, s.sessions[sid].log[k])
  }

  // ---------------------------------------------------------------- what every step keeps

  /** Every step only extends logs and the list of runs, and a new run holds its lease. */
  lemma StepExtends(s: State, ev: Event, now: int, s': State)
    requires Inv(s) && Step(s, ev, now, s')
    ensures Inv(s') && RunsContinue(s.runs, s'.runs) && |s.sessions| <= |s'.sessions|
    ensures forall i | 0 <= i < |s.sessions| :: s.sessions[i].log <= s'.sessions[i].log
    ensures forall i | |s.runs| <= i < |s'.runs| :: s'.runs[i].lease == Acquired
  {
    StepKeepsInv(s, ev, now, s');
    StepSettles(s, ev, now, s');
    hide Inv;
    hide Step;
    hide Quiet;
    hide RunsContinue;
    forall i | 0 <= i < |s.sessions|
      ensures s.sessions[i].log <= s'.sessions[i].log
    {
      assert LogExplains(s.sessions[i], s'.sessions[i]);
    }
  }

  lemma StepKeepsWindows(s: State, ev: Event, now: int, s': State)
    requires Inv(s) && Step(s, ev, now, s') && WindowsInLog(s)
    ensures WindowsInLog(s')
  {
    StepExtends(s, ev, now, s');
    hide Inv;
    hide Step;
    forall q | 0 <= q < |s'.runs|
      ensures s'.runs[q].session < |s'.sessions|
      ensures s'.runs[q].window.toSeq <= |s'.sessions[s'.runs[q].session].log|
    {
      if q < |s.runs| {
        assert s'.runs[q].window == s.runs[q].window;
      }
    }
  }

  // ---------------------------------------------------------------- where messages that name a run come from

  /** No entry that names a run was appended. */
  ghost predicate Nameless(before: Session, after: Session) {
    before.log <= after.log && forall k | |before.log| <= k < |after.log| :: !Names(after.log[k])
  }

  /** The entry of the step that names a run. */
  ghost predicate Written(s: State, ev: Event, sid: SessionId, e: Entry) {
    match ev
    case Post(to, message) => to == sid && e == message && MayPost(s.runs, e)
    case ScheduleNext(to, author, _, _) => to == sid && e == ScheduleMessage(author)
    case UserInput(to, worker) =>
      && to == sid && e.Message? && e.payload.runId == worker && e.sender == OtherSender
      && worker.Some? && worker.value < |s.runs| && s.runs[worker.value].role == WorkerAgent
    case AgentEnds(run, _) => run < |s.runs| && s.runs[run].session == sid && WrittenAtEnd(s, run, e)
    case _ => false
  }

  lemma SignalsNameNobody(before: Session, after: Session)
    requires SignalsOnly(before, after)
    ensures Nameless(before, after)
  {
  }

  /** What an input writes in the name of a run. */
  lemma InputNames(s: State, ev: Event, now: int, k: nat)
    requires ev.UserInput? || ev.Post? || ev.SetActive? || ev.UpdateGoal? || ev.ScheduleNext? || ev.SetPolicy?
    requires Accepted(s, ev, now) && |s.sessions[ev.sid].log| <= k < |AfterInput(s.sessions[ev.sid], ev).log|
    requires Names(AfterInput(s.sessions[ev.sid], ev).log[k])
    ensures Written(s, ev, ev.sid, AfterInput(s.sessions[ev.sid], ev).log[k])
  {
    hide MayPost;
  }

  lemma NewSessionIsNameless(unit: Option<UnitId>, body: string, prompt: bool)
    ensures forall k | 0 <= k < |NewSession(unit, body, prompt).log| :: !Names(NewSession(unit, body, prompt).log[k])
  {
  }

  lemma OnlyMessagesName(e: Entry)
    requires Names(e)
    ensures e.Message?
  {
  }

  /** A new entry that names a run was posted, set a schedule, forwarded input to a running Worker, or was
      written by a run that ended. */
  lemma MessageSources(s: State, ev: Event, now: int, s': State, sid: SessionId, k: nat)
    requires Inv(s) && Step(s, ev, now, s') && sid < |s'.sessions|
    requires sid < |s.sessions| ==> |s.sessions[sid].log| <= k
    requires k < |s'.sessions[sid].log| && Names(s'.sessions[sid].log[k])
    ensures sid < |s.sessions| && Accepted(s, ev, now) && Written(s, ev, sid, s'.sessions[sid].log[k])
  {
    hide Inv;
    hide Ended;
    hide Recovered;
    hide Refreshes;
    hide Acquires;
    hide SessionGraph.Rehome;
    hide SessionGraph.RootRepaired;
    hide LinkedUnder;
    hide WrittenAtEnd;
    hide AfterReplay;
    hide HomesOk;
    hide AfterInput;
    hide NewSession;
    hide MayPost;
    hide Names;
    if ev.Acquire? && Accepted(s, ev, now) {
      AcquireSignals(s, ev, now, s');
      SignalsNameNobody(s.sessions[sid], s'.sessions[sid]);
    } else if ev.Refresh? {
      RefreshSignals(s, s', now);
      SignalsNameNobody(s.sessions[sid], s'.sessions[sid]);
    } else if ev.Reload? {
      RefreshSignals(AfterReplay(s), s', now);
      ReplayKeepsLogs(s);
      SignalsNameNobody(AfterReplay(s).sessions[sid], s'.sessions[sid]);
    } else if ev.Recover? {
      RepairSignals(s, now);
      SignalsNameNobody(s.sessions[sid], s'.sessions[sid]);
    } else if ev.AgentEnds? && Accepted(s, ev, now) {
      var entries := EndWrites(s, ev.run, ev.end, now);
      EndEntries(s, ev.run, s', entries, sid, k);
      OnlyMessagesName(s'.sessions[sid].log[k]);
    } else if ev.Start? && Accepted(s, ev, now) {
      NewSessionIsNameless(ev.owner, ev.body, ev.prompt);
    } else if ev.ActivateSingleton? && Accepted(s, ev, now) {
      ActivationIsNameless(s.sessions[ev.sid], ev.body);
    } else if (ev.UserInput? || ev.Post? || ev.SetActive? || ev.UpdateGoal? || ev.ScheduleNext? || ev.SetPolicy?)
      && Accepted(s, ev, now)
    {
      InputShape(s, ev, now, s');
      if sid == ev.sid {
        InputNames(s, ev, now, k);
      }
    }
  }

  lemma ActivationIsNameless(s: Session, body: string)
    ensures Nameless(s, Activated(s, body))
  {
  }

  lemma ReplayKeepsLogs(s: State)
    ensures |AfterReplay(s).sessions| == |s.sessions|
    ensures forall i | 0 <= i < |s.sessions| :: AfterReplay(s).sessions[i].log == s.sessions[i].log
  {
  }

  // ---------------------------------------------------------------- the invariants

  lemma WrittenIsSigned(s: State, ev: Event, sid: SessionId, k: nat, e: Entry)
    requires WindowsInLog(s) && FreshIds(s, ev) && sid < |s.sessions| && |s.sessions[sid].log| <= k
    requires Names(e) && Written(s, ev, sid, e)
    ensures SignatureOk(s.runs, sid, k, e)
    ensures OwnRole(s, ev) ==> VoiceOk(s.runs, sid, e)
  {
  }

  /** With fresh run ids, every step keeps the signatures in order. */
  lemma StepKeepsSigned(s: State, ev: Event, now: int, s': State)
    requires Inv(s) && Step(s, ev, now, s') && FreshIds(s, ev)
    requires WindowsInLog(s) && LogsSigned(s)
    ensures WindowsInLog(s') && LogsSigned(s')
  {
    hide Inv;
    hide Step;
    hide FreshIds;
    hide WindowsInLog;
    hide Written;
    hide WorkerWake;
    hide OwnRole;
    hide VoiceOk;
    StepKeepsWindows(s, ev, now, s');
    StepExtends(s, ev, now, s');
    forall sid, k | 0 <= sid < |s'.sessions| && 0 <= k < |s'.sessions[sid].log| && Names(s'.sessions[sid].log[k])
      ensures SignatureOk(s'.runs, sid, k, s'.sessions[sid].log[k])
    {
      var e := s'.sessions[sid].log[k];
      if sid < |s.sessions| && k < |s.sessions[sid].log| {
        assert s.sessions[sid].log[k] == e;
      } else {
        MessageSources(s, ev, now, s', sid, k);
        WrittenIsSigned(s, ev, sid, k, e);
      }
      assert SignatureOk(s.runs, sid, k, e);
    }
  }

  /** And when runs speak under their own role, what a Worker tells its Session wakes the GoalManager. */
  lemma StepKeepsVoiced(s: State, ev: Event, now: int, s': State)
    requires Inv(s) && Step(s, ev, now, s') && FreshIds(s, ev) && OwnRole(s, ev)
    requires WindowsInLog(s) && LogsSigned(s) && LogsVoiced(s)
    ensures LogsVoiced(s')
  {
    hide Inv;
    hide Step;
    hide FreshIds;
    hide WindowsInLog;
    hide Written;
    hide GoalManagerWake;
    hide WorkerWake;
    hide OwnRole;
    StepExtends(s, ev, now, s');
    forall sid, k | 0 <= sid < |s'.sessions| && 0 <= k < |s'.sessions[sid].log| && Names(s'.sessions[sid].log[k])
      ensures VoiceOk(s'.runs, sid, s'.sessions[sid].log[k])
    {
      var e := s'.sessions[sid].log[k];
      if sid < |s.sessions| && k < |s.sessions[sid].log| {
        assert s.sessions[sid].log[k] == e;
        assert SignatureOk(s.runs, sid, k, e);
      } else {
        MessageSources(s, ev, now, s', sid, k);
        WrittenIsSigned(s, ev, sid, k, e);
        assert SignatureOk(s.runs, sid, k, e);
      }
      assert VoiceOk(s.runs, sid, e);
    }
  }
}
