/** Which ready entry is dispatched next (src/goal/policy.py): priority with aging, overridden by
    first-come-first-served for entries that have waited too long. */
module SelectionPolicy {
  import opened Wrappers
  import opened DispatchModel

  const AGING_INTERVAL_SECONDS: int := 60
  const AGING_SCORE_LIMIT: int := 100
  const STARVATION_WAIT_SECONDS: int := 600

  /** `_waiting_seconds`. */
  function Waited(e: Readiness, now: int): (w: int)
    ensures w >= 0
  {
    if now > e.firstReadyAt then now - e.firstReadyAt else 0
  }

  /** `scheduling_score`; both roles have base priority 0. */
  function Score(policy: SchedulingPolicy, e: Readiness, now: int): int {
    var age := Waited(e, now) / AGING_INTERVAL_SECONDS;
    policy.classScore + policy.basePriority + if age < AGING_SCORE_LIMIT then age else AGING_SCORE_LIMIT
  }

  /** `readiness_is_available`. */
  predicate IsAvailable(e: Readiness, now: int) {
    e.window.availableAfter.None? || e.window.availableAfter.value <= now
  }

  predicate Considered(e: Readiness, filter: Option<SessionId>, now: int) {
    e.status == Ready && (filter.None? || filter.value == e.session) && IsAvailable(e, now)
  }

  predicate HasIncompleteGoal(sessions: seq<Session>, sid: SessionId) {
    sid < |sessions| && sessions[sid].goal.Some? && !sessions[sid].goal.value.complete
  }

  /** An entry the policy may choose. */
  predicate Candidate(e: Readiness, sessions: seq<Session>, acquired: set<(SessionId, Role)>,
                      filter: Option<SessionId>, now: int) {
    && Considered(e, filter, now)
    && HasIncompleteGoal(sessions, e.session)
    && sessions[e.session].active
    && (e.session, e.role) !in acquired
  }

  predicate Starved(e: Readiness, now: int) {
    Waited(e, now) >= STARVATION_WAIT_SECONDS
  }

  /** Role names compare like "GoalManager" < "WorkerAgent". */
  predicate RoleBefore(a: Role, b: Role) {
    a == GoalManager && b == WorkerAgent
  }

  /** The first-come-first-served order: first ready time, Session, role. */
  predicate FifoBefore(a: Readiness, b: Readiness) {
    || a.firstReadyAt < b.firstReadyAt
    || (a.firstReadyAt == b.firstReadyAt
        && (|| a.session < b.session
            || (a.session == b.session && RoleBefore(a.role, b.role))))
  }

  /** Entry `i` comes before entry `j` under the key of the rule in force; list position decides
      between equal keys. */
  predicate Precedes(list: seq<Readiness>, sessions: seq<Session>, starvation: bool, now: int, i: nat, j: nat)
    requires i < |list| && j < |list| && list[i].session < |sessions| && list[j].session < |sessions|
  {
    var si := Score(sessions[list[i].session].policy, list[i], now);
    var sj := Score(sessions[list[j].session].policy, list[j], now);
    if !starvation && si != sj then si > sj
    else FifoBefore(list[i], list[j]) || (!FifoBefore(list[j], list[i]) && i < j)
  }

  datatype Decision = Decision(chosen: Option<nat>, stale: seq<nat>, score: int, starvation: bool)

  /** `i` is the entry the policy must choose. */
  ghost predicate IsChoice(list: seq<Readiness>, sessions: seq<Session>, acquired: set<(SessionId, Role)>,
                           filter: Option<SessionId>, now: int, i: nat)
  {
    && i < |list| && Candidate(list[i], sessions, acquired, filter, now)
    && (Starved(list[i], now) <==>
          exists j | 0 <= j < |list| :: Candidate(list[j], sessions, acquired, filter, now) && Starved(list[j], now))
    && forall j | 0 <= j < |list| && j != i && Candidate(list[j], sessions, acquired, filter, now)
                  && (Starved(list[i], now) ==> Starved(list[j], now)) ::
         Precedes(list, sessions, Starved(list[i], now), now, i, j)
  }

  predicate IsStaleAt(list: seq<Readiness>, sessions: seq<Session>, filter: Option<SessionId>, now: int, i: nat) {
    i < |list| && Considered(list[i], filter, now) && !HasIncompleteGoal(sessions, list[i].session)
  }

  /** The total order of the rule: exactly one of two different positions precedes the other, and
      precedence is transitive. */
  lemma PrecedesTotal(list: seq<Readiness>, sessions: seq<Session>, starvation: bool, now: int, i: nat, j: nat)
    requires i < |list| && j < |list| && list[i].session < |sessions| && list[j].session < |sessions|
    ensures i != j ==> (Precedes(list, sessions, starvation, now, i, j) <==> !Precedes(list, sessions, starvation, now, j, i))
  {
  }

  lemma PrecedesTransitive(list: seq<Readiness>, sessions: seq<Session>, starvation: bool, now: int, i: nat, j: nat, k: nat)
    requires i < |list| && j < |list| && k < |list|
    requires list[i].session < |sessions| && list[j].session < |sessions| && list[k].session < |sessions|
    requires Precedes(list, sessions, starvation, now, i, j) && Precedes(list, sessions, starvation, now, j, k)
    ensures Precedes(list, sessions, starvation, now, i, k)
  {
  }

  /** The first of some positions under the order. */
  method First(list: seq<Readiness>, sessions: seq<Session>, starvation: bool, now: int, positions: seq<nat>)
    returns (i: nat)
    requires positions != []
    requires forall m | 0 <= m < |positions| :: positions[m] < |list| && list[positions[m]].session < |sessions|
    ensures i in positions && i < |list| && list[i].session < |sessions|
    ensures forall m | 0 <= m < |positions| && positions[m] != i :: Precedes(list, sessions, starvation, now, i, positions[m])
  {
    hide Precedes;
    i := positions[0];
    for n := 1 to |positions|
      invariant i in positions && i < |list| && list[i].session < |sessions|
      invariant forall m | 0 <= m < n && positions[m] != i :: Precedes(list, sessions, starvation, now, i, positions[m])
    {
      var q := positions[n];
      PrecedesTotal(list, sessions, starvation, now, q, i);
      if Before(list, sessions, starvation, now, q, i) {
        forall m | 0 <= m < n && positions[m] != i && positions[m] != q
          ensures Precedes(list, sessions, starvation, now, q, positions[m])
        {
          PrecedesTransitive(list, sessions, starvation, now, q, i, positions[m]);
        }
        i := q;
      }
    }
  }

  function Before(list: seq<Readiness>, sessions: seq<Session>, starvation: bool, now: int, i: nat, j: nat): (r: bool)
    requires i < |list| && j < |list| && list[i].session < |sessions| && list[j].session < |sessions|
    ensures r <==> i != j && Precedes(list, sessions, starvation, now, i, j)
  {
    i != j && Precedes(list, sessions, starvation, now, i, j)
  }

  /** Who is chosen, in numbers. While no candidate has waited 600 seconds, the chosen one has the greatest
      class score plus base priority plus full minutes waited, 100 at most; once one has, the chosen one has
      waited as long and was ready first. Equals are settled by first ready time, Session and role. */
  lemma ChoiceIsBest(list: seq<Readiness>, sessions: seq<Session>, acquired: set<(SessionId, Role)>,
                     filter: Option<SessionId>, now: int, i: nat, j: nat)
    requires IsChoice(list, sessions, acquired, filter, now, i)
    requires j < |list| && Candidate(list[j], sessions, acquired, filter, now)
    ensures i < |list| && list[i].session < |sessions|
    ensures now - list[j].firstReadyAt >= 600 ==> now - list[i].firstReadyAt >= 600
    ensures
      var p, q := sessions[list[i].session].policy, sessions[list[j].session].policy;
      var a, b := list[i].firstReadyAt, list[j].firstReadyAt;
      var u := p.classScore + p.basePriority + (if now <= a then 0 else if now - a < 6000 then (now - a) / 60 else 100);
      var v := q.classScore + q.basePriority + (if now <= b then 0 else if now - b < 6000 then (now - b) / 60 else 100);
      && (now - a < 600 ==> u >= v)
      && ((if now - a < 600 then u == v else now - b >= 600) ==>
            || a < b
            || (a == b && list[i].session < list[j].session)
            || (a == b && list[i].session == list[j].session
                && (list[i].role == GoalManager || list[j].role == WorkerAgent)))
  {
    if j != i {
      assert Starved(list[j], now) ==> Starved(list[i], now);
      if Starved(list[i], now) ==> Starved(list[j], now) {
        assert Precedes(list, sessions, Starved(list[i], now), now, i, j);
      }
    }
  }

  /** The loop of the selection: which entries may be chosen, which of them have starved, and whose
      readiness is stale. */
  method Sift(list: seq<Readiness>, sessions: seq<Session>, acquired: set<(SessionId, Role)>,
              filter: Option<SessionId>, now: int)
    returns (candidates: seq<nat>, starved: seq<nat>, stale: seq<nat>)
    ensures forall p: nat :: p in candidates <==> p < |list| && Candidate(list[p], sessions, acquired, filter, now)
    ensures forall p: nat :: p in stale <==> IsStaleAt(list, sessions, filter, now, p)
    ensures forall p: nat :: p in starved <==> p in candidates && Starved(list[p], now)
  {
    candidates, starved, stale := [], [], [];
    for i := 0 to |list|
      invariant forall p: nat :: p in candidates <==> p < i && Candidate(list[p], sessions, acquired, filter, now)
      invariant forall p: nat :: p in stale <==> p < i && IsStaleAt(list, sessions, filter, now, p)
      invariant forall p: nat :: p in starved <==> p in candidates && Starved(list[p], now)
    {
      var e := list[i];
      if !Considered(e, filter, now) {
        continue;
      }
      if !HasIncompleteGoal(sessions, e.session) {
        stale := stale + [i];
        continue;
      }
      if !sessions[e.session].active || (e.session, e.role) in acquired {
        continue;
      }
      candidates := candidates + [i];
      if Waited(e, now) >= STARVATION_WAIT_SECONDS {
        starved := starved + [i];
      }
    }
  }

  /** The decision in numbers. One is chosen unless there is no ready entry that is available, passes the
      filter, has nobody running its role and belongs to an active Session with an incomplete goal. Its score
      is class score plus base priority plus full minutes waited, 100 at most. Until one of the candidates
      has waited 600 seconds nobody has a greater score; after that, none that has waited as long was ready
      before. Stale are exactly the available entries whose goal is not incomplete. */
  ghost predicate InNumbers(list: seq<Readiness>, sessions: seq<Session>, acquired: set<(SessionId, Role)>,
                            filter: Option<SessionId>, now: int, d: Decision)
  {
    && (d.chosen.None? <==> forall j | 0 <= j < |list| && list[j].session < |sessions| ::
          var e, s := list[j], sessions[list[j].session];
          !(&& e.status == Ready && (filter.None? || filter == Some(e.session)) && (e.session, e.role) !in acquired
            && (e.window.availableAfter.Some? ==> e.window.availableAfter.value <= now)
            && s.active && s.goal.Some? && !s.goal.value.complete))
    && (d.chosen.Some? ==>
          && d.chosen.value < |list| && list[d.chosen.value].session < |sessions|
          && var e, s := list[d.chosen.value], sessions[list[d.chosen.value].session];
          && e.status == Ready && (filter.None? || filter == Some(e.session)) && (e.session, e.role) !in acquired
          && (e.window.availableAfter.Some? ==> e.window.availableAfter.value <= now)
          && s.active && s.goal.Some? && !s.goal.value.complete
          && d.starvation == (now - e.firstReadyAt >= 600)
          && d.score == s.policy.classScore + s.policy.basePriority
                        + (if now <= e.firstReadyAt then 0 else if now - e.firstReadyAt < 6000 then (now - e.firstReadyAt) / 60 else 100)
          && forall j | 0 <= j < |list| && Candidate(list[j], sessions, acquired, filter, now) ::
               var f, t := list[j], sessions[list[j].session];
               if d.starvation then now - f.firstReadyAt >= 600 ==> e.firstReadyAt <= f.firstReadyAt
               else
                 && now - f.firstReadyAt < 600
                 && d.score >= t.policy.classScore + t.policy.basePriority
                               + (if now <= f.firstReadyAt then 0 else (now - f.firstReadyAt) / 60))
    && (forall i: nat :: i in d.stale <==>
          && i < |list| && list[i].status == Ready && (filter.None? || filter == Some(list[i].session))
          && (list[i].window.availableAfter.Some? ==> list[i].window.availableAfter.value <= now)
          && !(list[i].session < |sessions| && sessions[list[i].session].goal.Some?
               && !sessions[list[i].session].goal.value.complete))
  }

  /** What a decision means in numbers. */
  lemma DecisionInNumbers(list: seq<Readiness>, sessions: seq<Session>, acquired: set<(SessionId, Role)>,
                          filter: Option<SessionId>, now: int, d: Decision)
    requires d.chosen.Some? ==>
      && IsChoice(list, sessions, acquired, filter, now, d.chosen.value)
      && d.starvation == Starved(list[d.chosen.value], now)
      && d.score == Score(sessions[list[d.chosen.value].session].policy, list[d.chosen.value], now)
    requires d.chosen.None? ==> forall j | 0 <= j < |list| :: !Candidate(list[j], sessions, acquired, filter, now)
    requires forall i: nat :: i in d.stale <==> IsStaleAt(list, sessions, filter, now, i)
    ensures InNumbers(list, sessions, acquired, filter, now, d)
  {
    hide Precedes;
    if d.chosen.Some? {
      forall j | 0 <= j < |list| && Candidate(list[j], sessions, acquired, filter, now)
        ensures now - list[j].firstReadyAt >= 600 ==> d.starvation && list[d.chosen.value].firstReadyAt <= list[j].firstReadyAt
        ensures !d.starvation ==> d.score >= Score(sessions[list[j].session].policy, list[j], now)
      {
        ChoiceIsBest(list, sessions, acquired, filter, now, d.chosen.value, j);
      }
    }
  }

  /** `select_role_dispatch_readiness`. */
  method Select(list: seq<Readiness>, sessions: seq<Session>, acquired: set<(SessionId, Role)>,
                filter: Option<SessionId>, now: int)
    returns (d: Decision)
    ensures d.chosen.Some? ==>
      && IsChoice(list, sessions, acquired, filter, now, d.chosen.value)
      && d.starvation == Starved(list[d.chosen.value], now)
      && d.score == Score(sessions[list[d.chosen.value].session].policy, list[d.chosen.value], now)
    ensures d.chosen.None? ==> forall j | 0 <= j < |list| :: !Candidate(list[j], sessions, acquired, filter, now)
    ensures forall i: nat :: i in d.stale <==> IsStaleAt(list, sessions, filter, now, i)
    ensures InNumbers(list, sessions, acquired, filter, now, d)
  {
    hide Precedes;
    hide Starved;
    hide IsStaleAt;
    hide InNumbers;
    hide Score;
    var candidates, starved, stale := Sift(list, sessions, acquired, filter, now);
    if candidates == [] {
      assert forall j | 0 <= j < |list| :: j !in candidates;
      d := Decision(None, stale, 0, false);
      DecisionInNumbers(list, sessions, acquired, filter, now, d);
      return;
    }
    var starvation := starved != [];
    var pool := if starvation then starved else candidates;
    forall m | 0 <= m < |pool|
      ensures pool[m] < |list| && list[pool[m]].session < |sessions|
    {
      assert pool[m] in candidates;
    }
    var chosen := First(list, sessions, starvation, now, pool);
    assert starvation ==> starved[0] in starved;
    assert chosen in candidates;
    forall j | 0 <= j < |list| && j != chosen && Candidate(list[j], sessions, acquired, filter, now)
               && (starvation ==> Starved(list[j], now))
      ensures Precedes(list, sessions, starvation, now, chosen, j)
    {
      assert j in pool;
    }
    assert forall j | 0 <= j < |list| && Candidate(list[j], sessions, acquired, filter, now) && Starved(list[j], now) :: j in starved;
    d := Decision(Some(chosen), stale, Score(sessions[list[chosen].session].policy, list[chosen], now), starvation);
    DecisionInNumbers(list, sessions, acquired, filter, now, d);
  }

  /** Among equal policies nobody who became ready later is chosen before somebody who became ready
      earlier. */
  lemma EqualsByAge(list: seq<Readiness>, sessions: seq<Session>, acquired: set<(SessionId, Role)>,
                    filter: Option<SessionId>, now: int, i: nat, j: nat)
    requires IsChoice(list, sessions, acquired, filter, now, i)
    requires j < |list| && Candidate(list[j], sessions, acquired, filter, now)
    requires i < |list| && list[i].session < |sessions| && list[j].session < |sessions|
    requires sessions[list[i].session].policy == sessions[list[j].session].policy
    ensures list[i].firstReadyAt <= list[j].firstReadyAt
  {
    hide IsChoice;
    hide Candidate;
    ChoiceIsBest(list, sessions, acquired, filter, now, i, j);
  }

  /** Between entries that became ready at the same time and have not starved, the higher policy is chosen. */
  lemma HigherClassFirst(list: seq<Readiness>, sessions: seq<Session>, acquired: set<(SessionId, Role)>,
                         filter: Option<SessionId>, now: int, i: nat, j: nat)
    requires IsChoice(list, sessions, acquired, filter, now, i)
    requires j < |list| && Candidate(list[j], sessions, acquired, filter, now)
    requires i < |list| && list[i].session < |sessions| && list[j].session < |sessions|
    requires list[i].firstReadyAt == list[j].firstReadyAt && now - list[i].firstReadyAt < 600
    ensures
      var p, q := sessions[list[i].session].policy, sessions[list[j].session].policy;
      p.classScore + p.basePriority >= q.classScore + q.basePriority
  {
    hide IsChoice;
    hide Candidate;
    ChoiceIsBest(list, sessions, acquired, filter, now, i, j);
  }

  /** Once an entry has starved, whatever is chosen instead of it comes before it in
      first-come-first-served order, or is the same Session and role at the same time. */
  lemma ChoiceBeforeStarved(list: seq<Readiness>, sessions: seq<Session>, acquired: set<(SessionId, Role)>,
                            now: int, i: nat, c: nat)
    requires IsChoice(list, sessions, acquired, None, now, i)
    requires c < |list| && c != i && Candidate(list[c], sessions, acquired, None, now) && Starved(list[c], now)
    ensures Starved(list[i], now)
    ensures !FifoBefore(list[c], list[i])
    ensures (list[i].session, list[i].role) != (list[c].session, list[c].role) ==> FifoBefore(list[i], list[c])
  {
    assert Precedes(list, sessions, Starved(list[i], now), now, i, c);
  }

  /** There is never more than one entry the policy may choose. */
  lemma ChoiceIsUnique(list: seq<Readiness>, sessions: seq<Session>, acquired: set<(SessionId, Role)>,
                       filter: Option<SessionId>, now: int, i: nat, j: nat)
    requires IsChoice(list, sessions, acquired, filter, now, i)
    requires IsChoice(list, sessions, acquired, filter, now, j)
    ensures i == j
  {
    hide Precedes;
    hide Starved;
    if i != j {
      PrecedesTotal(list, sessions, Starved(list[i], now), now, i, j);
    }
  }
}
