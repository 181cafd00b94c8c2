/** The goal half of the invariant: what a complete goal, a waiting goal and the log promise about each
    other, and the per-Session changes that keep those promises. */
module GoalInvariant {
  import opened Wrappers
  import opened DispatchModel
  import opened Replay

  /** Entries a GoalManager must not complete past: user input itself (a copy forwarded to a Worker
      carries that run's id), a completed child goal, and a revised goal body. */
  predicate IsRequirement(e: Entry) {
    || (e.Message? && e.payload.userInput && e.payload.runId.None?)
    || e.ChildGoalCompleted?
    || e.GoalBodyUpdated?
  }

  /** Run `r` completed the goal of Session `sid`, having observed every requirement in its log. */
  ghost predicate Reviewed(log: seq<Entry>, sid: SessionId, runs: seq<Run>, r: RunId) {
    && r < |runs| && runs[r].session == sid && runs[r].role == GoalManager
    && runs[r].lease == Released && runs[r].result == FinishedComplete
    && forall k | 0 <= k < |log| && IsRequirement(log[k]) :: k + 1 <= runs[r].window.toSeq
  }

  /** An entry from outside the declaring run that a wait is for. */
  predicate WaitedFor(e: Entry, kind: WaitKind, declaredRun: RunId) {
    match kind
    case Deadline(_) => false
    case OnEvent(name) => e.Message? && name in e.payload.wakeEvents && e.payload.runId != Some(declaredRun)
    case OnChild(child) => e == ChildGoalCompleted(child)
  }

  /** Nothing that a committed wait is for lies between the declaring run's window and the point the
      wait looks from. */
  ghost predicate WaitOk(log: seq<Entry>, sid: SessionId, runs: seq<Run>, w: Wait) {
    && w.declaredRun < |runs| && runs[w.declaredRun].session == sid && runs[w.declaredRun].role == GoalManager
    && runs[w.declaredRun].window.toSeq <= w.wakeLogSeq <= |log|
    && forall k | runs[w.declaredRun].window.toSeq <= k < w.wakeLogSeq :: !WaitedFor(log[k], w.kind, w.declaredRun)
  }

  ghost predicate GoalOk(s: Session, sid: SessionId, runs: seq<Run>) {
    && ReplayStable(s)
    && (s.goal.Some? && s.goal.value.complete ==> exists r: RunId :: Reviewed(s.log, sid, runs, r))
    && (s.goal.Some? && s.goal.value.waiting.Some? ==>
          && !s.goal.value.complete
          && WaitOk(s.log, sid, runs, s.goal.value.waiting.value))
  }

  ghost predicate GoalsOk(sessions: seq<Session>, runs: seq<Run>) {
    forall i | 0 <= i < |sessions| :: GoalOk(sessions[i], i, runs)
  }

  /** A declared wait points into the log as it was at the declaration, after the window of its run. */
  predicate DeclarationsOk(sessions: seq<Session>, runs: seq<Run>) {
    forall r | r in runs && r.declared.Some? && r.declared.value.DeclaredWaiting? ::
      r.session < |sessions| && r.window.toSeq <= r.declared.value.wakeLogSeq <= |sessions[r.session].log|
  }

  /** Later runs: nothing about a run's identity changes, and a finished review stays finished. */
  predicate RunsContinue(before: seq<Run>, after: seq<Run>) {
    && |before| <= |after|
    && forall i | 0 <= i < |before| ::
         && after[i].session == before[i].session && after[i].role == before[i].role
         && after[i].window == before[i].window
         && (before[i].lease == Released ==> after[i].lease == Released && after[i].result == before[i].result)
  }

  lemma RunsContinueKeepGoal(s: Session, sid: SessionId, before: seq<Run>, after: seq<Run>)
    requires GoalOk(s, sid, before) && RunsContinue(before, after)
    ensures GoalOk(s, sid, after)
  {
    hide Replayed;
    if s.goal.Some? && s.goal.value.complete {
      var r: RunId :| Reviewed(s.log, sid, before, r);
      assert Reviewed(s.log, sid, after, r);
    }
  }

  /** A change that completes nothing and starts no wait: its new entries explain the completion
      state, and any requirement among them leaves the goal incomplete. */
  ghost predicate Quiet(before: Session, after: Session) {
    && LogExplains(before, after)
    && (before.goal.None? && after.goal.Some? ==>
          exists k | |before.log| <= k < |after.log| :: after.log[k].GoalStateChanged? && after.log[k].state == Incomplete)
    && (after.goal.Some? && after.goal.value.complete ==>
          && before.goal.Some? && before.goal.value.complete
          && forall k | |before.log| <= k < |after.log| :: !IsRequirement(after.log[k]))
    && (after.goal.Some? && after.goal.value.waiting.Some? ==>
          before.goal.Some? && before.goal.value.waiting == after.goal.value.waiting)
  }

  lemma QuietKeepsGoal(before: Session, after: Session, sid: SessionId, runs: seq<Run>)
    requires GoalOk(before, sid, runs) && Quiet(before, after)
    ensures GoalOk(after, sid, runs)
  {
    if before.goal.Some? {
      ReplayAfterCrash(before, after);
    } else if after.goal.Some? {
      ReplayOfNewGoal(before, after);
    }
    QuietKeepsPromises(before, after, sid, runs);
  }

  lemma QuietKeepsPromises(before: Session, after: Session, sid: SessionId, runs: seq<Run>)
    requires GoalOk(before, sid, runs) && Quiet(before, after) && ReplayStable(after)
    ensures GoalOk(after, sid, runs)
  {
    hide Replayed;
    if after.goal.Some? && after.goal.value.complete {
      var r: RunId :| Reviewed(before.log, sid, runs, r);
      forall k | 0 <= k < |after.log| && IsRequirement(after.log[k])
        ensures k + 1 <= runs[r].window.toSeq
      {
        assert k < |before.log| && after.log[k] == before.log[k];
      }
      assert Reviewed(after.log, sid, runs, r);
    }
    if after.goal.Some? && after.goal.value.waiting.Some? {
      var w := after.goal.value.waiting.value;
      forall k | runs[w.declaredRun].window.toSeq <= k < w.wakeLogSeq
        ensures !WaitedFor(after.log[k], w.kind, w.declaredRun)
      {
        assert after.log[k] == before.log[k];
      }
    }
  }

  lemma QuietReflexive(s: Session)
    ensures Quiet(s, s)
  {
    assert s.log[|s.log|..] == [];
  }

  lemma QuietTransitive(a: Session, b: Session, c: Session)
    requires Quiet(a, b) && Quiet(b, c)
    ensures Quiet(a, c)
  {
    hide Replayed;
    var first, second := b.log[|a.log|..], c.log[|b.log|..];
    var complete := a.goal.Some? && a.goal.value.complete;
    assert c.log[|a.log|..] == first + second;
    ReplayedConcat(complete, first, second);
    if b.goal.None? && c.goal.Some? {
      var k :| |b.log| <= k < |c.log| && c.log[k].GoalStateChanged? && c.log[k].state == Incomplete;
      assert second[k - |b.log|] == c.log[k];
      Decided(second, k - |b.log|);
    }
    if a.goal.None? && c.goal.Some? && b.goal.Some? {
      var k :| |a.log| <= k < |b.log| && b.log[k].GoalStateChanged? && b.log[k].state == Incomplete;
      assert c.log[k] == b.log[k];
    }
    if c.goal.Some? && c.goal.value.complete {
      forall k | |a.log| <= k < |c.log|
        ensures !IsRequirement(c.log[k])
      {
        if k < |b.log| {
          assert c.log[k] == b.log[k];
        }
      }
    }
  }
}
