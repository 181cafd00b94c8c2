/** Rebuilding a SessionGoal's completion from its log at startup (src/goal/log.py,
    `_reconcile_state_from_session_logs`), and what makes the log an authority for it. */
module Replay {
  import opened Wrappers
  import opened DispatchModel

  /** What one entry does to the completion state. */
  function ReplayStep(complete: bool, e: Entry): bool {
    match e
    case GoalStateChanged(state, _, _, _) =>
      if state == Complete then true else if state == Incomplete then false else complete
    case Message(p, _, _) => complete && !p.userInput
    case _ => complete
  }

  /** Replaying a log onto the completion state that the metadata holds. */
  function Replayed(complete: bool, log: seq<Entry>): bool {
    if log == [] then complete
    else ReplayStep(Replayed(complete, log[..|log| - 1]), log[|log| - 1])
  }

  /** Replaying a log onto the activity that the metadata holds: the last logged change decides. */
  function ReplayedActive(active: bool, log: seq<Entry>): bool {
    if log == [] then active
    else
      var last := log[|log| - 1];
      if last.SessionActiveChanged? then last.active else ReplayedActive(active, log[..|log| - 1])
  }

  /** What startup makes of a Session: cursors cut to the log, activity and completion replayed. A log
      without a goal record rebuilds none, and a wait is left as the metadata has it. */
  function Restarted(s: Session): Session {
    var n := |s.log|;
    s.(goalManagerCursor := if s.goalManagerCursor < n then s.goalManagerCursor else n,
       workerCursor := if s.workerCursor < n then s.workerCursor else n,
       active := ReplayedActive(s.active, s.log),
       goal := if s.goal.Some? then Some(s.goal.value.(complete := Replayed(s.goal.value.complete, s.log))) else None)
  }

  /** The replay of one Session. */
  method ReplaySession(s: Session) returns (r: Session)
    ensures r == Restarted(s)
  {
    r := s;
    if r.goalManagerCursor > |s.log| {
      r := r.(goalManagerCursor := |s.log|);
    }
    if r.workerCursor > |s.log| {
      r := r.(workerCursor := |s.log|);
    }
    ghost var cut := r;
    for i := 0 to |s.log|
      invariant r == cut.(active := ReplayedActive(s.active, s.log[..i]),
                          goal := if s.goal.Some?
                                  then Some(s.goal.value.(complete := Replayed(s.goal.value.complete, s.log[..i])))
                                  else None)
    {
      assert s.log[..i + 1][..i] == s.log[..i];
      match s.log[i]
      case SessionActiveChanged(active) =>
        if r.active != active {
          r := r.(active := active);
        }
      case GoalStateChanged(state, _, _, _) =>
        if r.goal.Some? && (state == Complete || state == Incomplete) {
          r := r.(goal := Some(r.goal.value.(complete := state == Complete)));
        }
      case Message(p, _, _) =>
        if r.goal.Some? && p.userInput && r.goal.value.complete {
          r := r.(goal := Some(r.goal.value.(complete := false)));
        }
      case _ =>
    }
    assert s.log[..|s.log|] == s.log;
  }

  lemma {:induction false} ReplayedActiveConcat(active: bool, a: seq<Entry>, b: seq<Entry>)
    ensures ReplayedActive(active, a + b) == ReplayedActive(ReplayedActive(active, a), b)
  {
    if b == [] {
      assert a + b == a;
    } else {
      assert (a + b)[..|a + b| - 1] == a + b[..|b| - 1];
      ReplayedActiveConcat(active, a, b[..|b| - 1]);
    }
  }

  /** Either a log decides the activity on its own, or it leaves it as it was. */
  lemma {:induction false} ActiveDecidesOrKeeps(log: seq<Entry>, active: bool)
    ensures ReplayedActive(active, log) == active || ReplayedActive(active, log) == ReplayedActive(!active, log)
  {
    if log != [] {
      ActiveDecidesOrKeeps(log[..|log| - 1], active);
    }
  }

  lemma {:induction false} NoActivationReplay(active: bool, log: seq<Entry>)
    requires forall k | 0 <= k < |log| :: !log[k].SessionActiveChanged?
    ensures ReplayedActive(active, log) == active
  {
    if log != [] {
      NoActivationReplay(active, log[..|log| - 1]);
    }
  }

  /** The new entries account for the change of activity. */
  predicate ActiveExplained(before: Session, after: Session) {
    before.log <= after.log && after.active == ReplayedActive(before.active, after.log[|before.log|..])
  }

  /** Activity that agrees with its log still does after a change that the log explains. */
  lemma ActiveStaysStable(before: Session, after: Session)
    requires ReplayedActive(before.active, before.log) == before.active && ActiveExplained(before, after)
    ensures ReplayedActive(after.active, after.log) == after.active
    ensures ReplayedActive(before.active, after.log) == after.active
  {
    var tail := after.log[|before.log|..];
    assert after.log == before.log + tail;
    ReplayedActiveConcat(before.active, before.log, tail);
    ReplayedActiveConcat(after.active, before.log, tail);
    ActiveDecidesOrKeeps(tail, before.active);
  }

  lemma {:induction false} ReplayedConcat(complete: bool, a: seq<Entry>, b: seq<Entry>)
    ensures Replayed(complete, a + b) == Replayed(Replayed(complete, a), b)
  {
    if b == [] {
      assert a + b == a;
    } else {
      assert (a + b)[..|a + b| - 1] == a + b[..|b| - 1];
      ReplayedConcat(complete, a, b[..|b| - 1]);
    }
  }

  /** Either a log decides the completion on its own, or it leaves it as it was. */
  lemma {:induction false} DecidesOrKeeps(log: seq<Entry>, complete: bool)
    ensures Replayed(complete, log) == complete || Replayed(complete, log) == Replayed(!complete, log)
  {
    if log != [] {
      DecidesOrKeeps(log[..|log| - 1], complete);
    }
  }

  predicate Completes(e: Entry) {
    e.GoalStateChanged? && e.state == Complete
  }

  predicate Reopens(e: Entry) {
    (e.GoalStateChanged? && e.state == Incomplete) || (e.Message? && e.payload.userInput)
  }

  /** The last entry that decides wins: a replayed goal is complete exactly when a completion has neither a
      reopening nor user input after it, or when nothing in the log decides against the completion that the
      metadata has. */
  lemma {:induction false} LastEntryDecides(complete: bool, log: seq<Entry>)
    ensures Replayed(complete, log) <==>
      || (exists k | 0 <= k < |log| :: Completes(log[k]) && forall j | k < j < |log| :: !Reopens(log[j]))
      || (complete && forall j | 0 <= j < |log| :: !Reopens(log[j]))
  {
    if log != [] {
      var n := |log| - 1;
      LastEntryDecides(complete, log[..n]);
      assert forall k | 0 <= k < n :: log[..n][k] == log[k];
    }
  }

  /** The same for activity. */
  lemma {:induction false} LastChangeDecides(active: bool, log: seq<Entry>)
    ensures ReplayedActive(active, log) <==>
      || (exists k | 0 <= k < |log| ::
            && log[k].SessionActiveChanged? && log[k].active
            && forall j | k < j < |log| :: !(log[j].SessionActiveChanged? && !log[j].active))
      || (active && forall j | 0 <= j < |log| :: !(log[j].SessionActiveChanged? && !log[j].active))
  {
    if log != [] {
      LastChangeDecides(active, log[..|log| - 1]);
    }
  }

  /** User input in a log that no later completion follows leaves the goal incomplete, whatever the
      metadata says and wherever the log was cut after the input. */
  lemma {:induction false} DurableInputReopens(complete: bool, log: seq<Entry>, k: nat)
    requires k < |log| && log[k].Message? && log[k].payload.userInput
    requires forall j | k < j < |log| :: !(log[j].GoalStateChanged? && log[j].state == Complete)
    ensures !Replayed(complete, log)
  {
    var n := |log| - 1;
    if k < n {
      DurableInputReopens(complete, log[..n], k);
    }
  }

  /** The entries after `|old|` account for the change of the completion state. */
  predicate LogExplains(before: Session, after: Session) {
    && before.log <= after.log
    && (before.goal.Some? ==> after.goal.Some?)
    && (after.goal.Some? ==>
          after.goal.value.complete ==
          Replayed(before.goal.Some? && before.goal.value.complete, after.log[|before.log|..]))
  }

  /** The stored completion state agrees with its own log. */
  predicate ReplayStable(s: Session) {
    s.goal.Some? ==> Replayed(s.goal.value.complete, s.log) == s.goal.value.complete
  }

  /** A log that explains every change stays in agreement with the state; and replaying it onto the
      old metadata gives the new state, which is what a crash between the log append and the metadata
      write needs. */
  lemma ReplayAfterCrash(before: Session, after: Session)
    requires before.goal.Some? && ReplayStable(before) && LogExplains(before, after)
    ensures Replayed(before.goal.value.complete, after.log) == after.goal.value.complete
    ensures ReplayStable(after)
  {
    var c, c' := before.goal.value.complete, after.goal.value.complete;
    var tail := after.log[|before.log|..];
    assert after.log == before.log + tail;
    ReplayedConcat(c, before.log, tail);
    ReplayedConcat(c', before.log, tail);
    DecidesOrKeeps(tail, c);
  }

  /** A goal created by an operation starts incomplete, so only its own last entries matter. */
  lemma ReplayOfNewGoal(before: Session, after: Session)
    requires before.goal.None? && LogExplains(before, after) && after.goal.Some?
    requires exists k | |before.log| <= k < |after.log| :: after.log[k].GoalStateChanged? && after.log[k].state == Incomplete
    ensures ReplayStable(after)
  {
    var tail := after.log[|before.log|..];
    var c' := after.goal.value.complete;
    assert after.log == before.log + tail;
    ReplayedConcat(c', before.log, tail);
    var k :| |before.log| <= k < |after.log| && after.log[k].GoalStateChanged? && after.log[k].state == Incomplete;
    Decided(tail, k - |before.log|);
  }

  lemma {:induction false} Decided(log: seq<Entry>, k: nat)
    requires k < |log| && log[k].GoalStateChanged? && log[k].state == Incomplete
    ensures Replayed(true, log) == Replayed(false, log)
  {
    var n := |log| - 1;
    if k < n {
      Decided(log[..n], k);
    }
  }
}
