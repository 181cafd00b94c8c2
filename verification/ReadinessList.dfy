/** Facts about the readiness list that its in-place algorithms rest on. */
module ReadinessList {
  import opened Wrappers
  import opened DispatchModel
  import opened Protocol
  import opened LeaseInvariant

  /** Ids are distinct. */
  predicate Distinct(list: seq<Readiness>) {
    forall i, j | 0 <= i < j < |list| :: list[i].id != list[j].id
  }

  ghost predicate SameTaken(a: seq<Readiness>, b: seq<Readiness>) {
    forall e: Readiness | e.status == Taken :: e in a <==> e in b
  }

  ghost predicate SameReady(a: seq<Readiness>, b: seq<Readiness>) {
    forall sid: SessionId, role: Role :: ReadyFor(a, sid, role) == ReadyFor(b, sid, role)
  }

  /** Only live entries, ids distinct and used up, at most one ready entry per Session and role. */
  ghost predicate Tidy(list: seq<Readiness>, next: nat) {
    && IdsBelow(list, next)
    && (forall e | e in list :: Live(e))
    && (forall e | e in list && e.status == Ready :: ReadyFor(list, e.session, e.role) == Some(e))
  }

  predicate IsReadyFor(e: Readiness, sid: SessionId, role: Role) {
    e.status == Ready && e.session == sid && e.role == role
  }

  /** The ready entry that a Session and role keep is the first of the earliest. */
  lemma {:induction false} ReadyForIsEarliest(list: seq<Readiness>, sid: SessionId, role: Role)
    ensures ReadyFor(list, sid, role).None? <==> forall j | 0 <= j < |list| :: !IsReadyFor(list[j], sid, role)
    ensures ReadyFor(list, sid, role).Some? ==>
      exists i | 0 <= i < |list| :: list[i] == ReadyFor(list, sid, role).value && IsEarliest(list, sid, role, i)
  {
    if list != [] {
      var n := |list| - 1;
      var earlier, rest := ReadyFor(list[..n], sid, role), list[..n];
      ReadyForIsEarliest(rest, sid, role);
      hide IsReadyFor;
      assert forall j | 0 <= j < n :: rest[j] == list[j];
      if earlier.Some? {
        var i :| 0 <= i < n && rest[i] == earlier.value && IsEarliest(rest, sid, role, i);
        LastIsNotEarlier(list, sid, role, i);
      } else if IsReadyFor(list[n], sid, role) {
        assert IsEarliest(list, sid, role, n);
      }
    }
  }

  /** No competing entry became ready before, and none as early stands before. */
  ghost predicate IsEarliest(list: seq<Readiness>, sid: SessionId, role: Role, i: nat) {
    && i < |list| && IsReadyFor(list[i], sid, role)
    && (forall j | 0 <= j < i && IsReadyFor(list[j], sid, role) :: list[i].firstReadyAt < list[j].firstReadyAt)
    && (forall j | i <= j < |list| && IsReadyFor(list[j], sid, role) :: list[i].firstReadyAt <= list[j].firstReadyAt)
  }

  lemma LastIsNotEarlier(list: seq<Readiness>, sid: SessionId, role: Role, i: nat)
    requires list != [] && i < |list| - 1 && IsEarliest(list[..|list| - 1], sid, role, i)
    ensures
      var n := |list| - 1;
      if IsReadyFor(list[n], sid, role) && list[n].firstReadyAt < list[i].firstReadyAt then IsEarliest(list, sid, role, n)
      else IsEarliest(list, sid, role, i)
  {
    hide IsReadyFor;
    var n := |list| - 1;
    assert forall j | 0 <= j < n :: list[..n][j] == list[j];
  }

  lemma ReadyForAppend(list: seq<Readiness>, e: Readiness, sid: SessionId, role: Role)
    ensures ReadyFor(list + [e], sid, role) ==
            var earlier := ReadyFor(list, sid, role);
            if e.status != Ready || !IsFor(e, sid, role) then earlier
            else if earlier.None? || e.firstReadyAt < earlier.value.firstReadyAt then Some(e)
            else earlier
  {
    assert (list + [e])[..|list|] == list;
  }

  /** The entry that is the only ready one of its key is the one deduplication keeps. */
  lemma TheOnlyReady(list: seq<Readiness>, e: Readiness)
    requires e in list && e.status == Ready
    requires forall f | f in list && f.status == Ready && IsFor(f, e.session, e.role) :: f == e
    ensures ReadyFor(list, e.session, e.role) == Some(e)
  {
    ReadyForIsMember(list, e.session, e.role);
  }

  lemma NoneReady(list: seq<Readiness>, sid: SessionId, role: Role)
    requires forall f | f in list :: f.status != Ready || !IsFor(f, sid, role)
    ensures ReadyFor(list, sid, role) == None
  {
    ReadyForIsMember(list, sid, role);
  }

  /** Two tidy lists with the same ready entries of a key agree on what is kept for it. */
  lemma SameReadyOfKey(a: seq<Readiness>, b: seq<Readiness>, next: nat, sid: SessionId, role: Role)
    requires Tidy(a, next)
    requires forall f: Readiness | f.status == Ready && IsFor(f, sid, role) :: f in a <==> f in b
    ensures ReadyFor(a, sid, role) == ReadyFor(b, sid, role)
  {
    ReadyForIsMember(a, sid, role);
    ReadyForIsMember(b, sid, role);
    if ReadyFor(b, sid, role).Some? {
      var f := ReadyFor(b, sid, role).value;
      assert f in a && ReadyFor(a, f.session, f.role) == Some(f);
    }
  }

  // ---------------------------------------------------------------- deduplication

  /** `list.remove` on a list of distinct entries. */
  function Removed(list: seq<Readiness>, e: Readiness): (r: seq<Readiness>)
    requires Distinct(list)
    ensures Distinct(r)
    ensures forall f :: f in r <==> f in list && f != e
  {
    if list == [] then []
    else if list[0] == e then
      assert forall f :: f in list <==> f == e || f in list[1..];
      list[1..]
    else
      assert forall f :: f in list <==> f == list[0] || f in list[1..];
      var rest := Removed(list[1..], e);
      assert forall i | 0 <= i < |rest| :: rest[i] in list[1..];
      [list[0]] + rest
  }

  /** What the deduplication loop has established for the entries it has seen. */
  ghost predicate Deduplicated(seen: seq<Readiness>, retained: seq<Readiness>, byKey: map<(SessionId, Role), Readiness>) {
    && Distinct(retained)
    && (forall f | f in retained :: f in seen)
    && (forall f | f in seen && f.status != Ready :: f in retained)
    && (forall f | f in retained && f.status == Ready :: (f.session, f.role) in byKey && byKey[(f.session, f.role)] == f)
    && (forall key | key in byKey ::
          byKey[key] in retained && byKey[key].status == Ready && IsFor(byKey[key], key.0, key.1))
    && (forall sid: SessionId, role: Role :: ReadyFor(seen, sid, role) ==
          if (sid, role) in byKey then Some(byKey[(sid, role)]) else None)
  }

  lemma DeduplicateOther(seen: seq<Readiness>, retained: seq<Readiness>, byKey: map<(SessionId, Role), Readiness>, e: Readiness)
    requires Deduplicated(seen, retained, byKey) && Distinct(seen + [e]) && e.status != Ready
    ensures Deduplicated(seen + [e], retained + [e], byKey)
  {
    NewIdIsFresh(seen, e);
    forall sid: SessionId, role: Role
      ensures ReadyFor(seen + [e], sid, role) == if (sid, role) in byKey then Some(byKey[(sid, role)]) else None
    {
      ReadyForAppend(seen, e, sid, role);
    }
  }

  lemma DeduplicateFirst(seen: seq<Readiness>, retained: seq<Readiness>, byKey: map<(SessionId, Role), Readiness>, e: Readiness)
    requires Deduplicated(seen, retained, byKey) && Distinct(seen + [e]) && e.status == Ready
    requires (e.session, e.role) !in byKey
    ensures Deduplicated(seen + [e], retained + [e], byKey[(e.session, e.role) := e])
  {
    NewIdIsFresh(seen, e);
    var byKey' := byKey[(e.session, e.role) := e];
    forall sid: SessionId, role: Role
      ensures ReadyFor(seen + [e], sid, role) == if (sid, role) in byKey' then Some(byKey'[(sid, role)]) else None
    {
      ReadyForAppend(seen, e, sid, role);
    }
  }

  lemma DeduplicateEarlier(seen: seq<Readiness>, retained: seq<Readiness>, byKey: map<(SessionId, Role), Readiness>, e: Readiness)
    requires Deduplicated(seen, retained, byKey) && Distinct(seen + [e]) && e.status == Ready
    requires (e.session, e.role) in byKey && e.firstReadyAt < byKey[(e.session, e.role)].firstReadyAt
    ensures Deduplicated(seen + [e], Removed(retained, byKey[(e.session, e.role)]) + [e], byKey[(e.session, e.role) := e])
  {
    hide Distinct;
    hide Removed;
    hide ReadyFor;
    NewIdIsFresh(seen, e);
    var rest := Removed(retained, byKey[(e.session, e.role)]);
    DistinctWithFresh(rest, retained, seen, e);
    assert forall i | 0 <= i < |rest| :: rest[i] in retained;
    var byKey' := byKey[(e.session, e.role) := e];
    forall sid: SessionId, role: Role
      ensures ReadyFor(seen + [e], sid, role) == if (sid, role) in byKey' then Some(byKey'[(sid, role)]) else None
    {
      ReadyForAppend(seen, e, sid, role);
    }
  }

  lemma DistinctWithFresh(rest: seq<Readiness>, retained: seq<Readiness>, seen: seq<Readiness>, e: Readiness)
    requires Distinct(rest) && (forall f | f in rest :: f in retained) && forall f | f in retained :: f in seen
    requires forall f | f in seen :: f.id != e.id
    ensures Distinct(rest + [e])
  {
    assert forall i | 0 <= i < |rest| :: rest[i] in rest;
  }

  lemma DeduplicateLater(seen: seq<Readiness>, retained: seq<Readiness>, byKey: map<(SessionId, Role), Readiness>, e: Readiness)
    requires Deduplicated(seen, retained, byKey) && Distinct(seen + [e]) && e.status == Ready
    requires (e.session, e.role) in byKey && e.firstReadyAt >= byKey[(e.session, e.role)].firstReadyAt
    ensures Deduplicated(seen + [e], retained, byKey)
  {
    forall sid: SessionId, role: Role
      ensures ReadyFor(seen + [e], sid, role) == if (sid, role) in byKey then Some(byKey[(sid, role)]) else None
    {
      ReadyForAppend(seen, e, sid, role);
    }
  }

  lemma NewIdIsFresh(seen: seq<Readiness>, e: Readiness)
    requires Distinct(seen + [e])
    ensures forall f | f in seen :: f.id != e.id
  {
    forall f | f in seen
      ensures f.id != e.id
    {
      var i :| 0 <= i < |seen| && seen[i] == f;
      assert (seen + [e])[i] == f && (seen + [e])[|seen|] == e;
    }
  }

  lemma DeduplicatedIsTidy(list: seq<Readiness>, retained: seq<Readiness>, byKey: map<(SessionId, Role), Readiness>, next: nat)
    requires Deduplicated(list, retained, byKey)
    requires IdsBelow(list, next) && forall e | e in list :: Live(e)
    ensures Tidy(retained, next) && SameTaken(list, retained) && SameReady(list, retained)
  {
    forall e | e in retained && e.status == Ready
      ensures ReadyFor(retained, e.session, e.role) == Some(e)
    {
      TheOnlyReady(retained, e);
    }
    forall sid: SessionId, role: Role
      ensures ReadyFor(list, sid, role) == ReadyFor(retained, sid, role)
    {
      if (sid, role) in byKey {
        TheOnlyReady(retained, byKey[(sid, role)]);
      } else {
        NoneReady(retained, sid, role);
      }
    }
  }

  // ---------------------------------------------------------------- one Session and role

  /** What reconciling the ready entry of one Session and role with a projected window does. */
  ghost predicate EntryReconciled(list: seq<Readiness>, list': seq<Readiness>, next: nat, next': nat, now: int,
                                  sid: SessionId, role: Role, window: Option<Window>)
  {
    && next <= next' && Tidy(list', next') && SameTaken(list, list')
    && (forall other: SessionId, r: Role | (other, r) != (sid, role) :: ReadyFor(list', other, r) == ReadyFor(list, other, r))
    && var before, after := ReadyFor(list, sid, role), ReadyFor(list', sid, role);
       match window
       case None => after == None
       case Some(w) =>
         && after.Some?
         && (if before.Some? then after.value == before.value.(window := w)
             else
               && next <= after.value.id < next'
               && after.value == Readiness(after.value.id, sid, role, Ready, now, w))
  }

  lemma EntryAbsent(list: seq<Readiness>, next: nat, now: int, sid: SessionId, role: Role)
    requires Tidy(list, next) && forall e | e in list :: e.status != Ready || !IsFor(e, sid, role)
    ensures EntryReconciled(list, list, next, next, now, sid, role, None)
  {
    NoneReady(list, sid, role);
  }

  lemma EntryWithdrawn(list: seq<Readiness>, next: nat, now: int, i: nat)
    requires Tidy(list, next) && i < |list| && list[i].status == Ready
    ensures EntryReconciled(list, list[..i] + list[i + 1..], next, next, now, list[i].session, list[i].role, None)
  {
    var e, list' := list[i], list[..i] + list[i + 1..];
    forall f
      ensures f in list' <==> f in list && f != e
    {
      if f in list && f != e {
        var k :| 0 <= k < |list| && list[k] == f;
        assert k < i || list[i + 1..][k - i - 1] == f;
      }
      if f in list' {
        var k :| 0 <= k < |list'| && list'[k] == f;
        assert f == list[if k < i then k else k + 1];
      }
    }
    KeysKept(list, list', next, next, e.session, e.role);
    NoneReady(list', e.session, e.role);
  }

  lemma EntryUpdated(list: seq<Readiness>, next: nat, now: int, i: nat, w: Window)
    requires Tidy(list, next) && i < |list| && list[i].status == Ready
    ensures EntryReconciled(list, list[i := list[i].(window := w)], next, next, now, list[i].session, list[i].role, Some(w))
  {
    var e := list[i];
    var e', list' := e.(window := w), list[i := e.(window := w)];
    assert e in list && list'[i] == e';
    forall f
      ensures f in list' <==> f == e' || (f in list && f != e)
    {
      if f in list && f != e {
        var k :| 0 <= k < |list| && list[k] == f;
        assert list'[k] == f;
      }
      if f in list' && f != e' {
        var k :| 0 <= k < |list'| && list'[k] == f;
        assert k != i && list[k] == f && list[k].id != e.id;
      }
    }
    KeysKept(list, list', next, next, e.session, e.role);
    TheOnlyReady(list', e');
  }

  lemma EntryAdded(list: seq<Readiness>, next: nat, now: int, sid: SessionId, role: Role, w: Window)
    requires Tidy(list, next) && forall e | e in list :: e.status != Ready || !IsFor(e, sid, role)
    ensures EntryReconciled(list, list + [Readiness(next, sid, role, Ready, now, w)], next, next + 1, now, sid, role, Some(w))
  {
    var e := Readiness(next, sid, role, Ready, now, w);
    var list' := list + [e];
    forall f | f in list
      ensures f.id != next
    {
    }
    assert IdsBelow(list', next + 1) by {
      forall i, j | 0 <= i < j < |list'|
        ensures list'[i].id != list'[j].id
      {
        assert list[i] in list;
      }
    }
    KeysKept(list, list', next, next + 1, sid, role);
    NoneReady(list, sid, role);
    TheOnlyReady(list', e);
  }

  /** A change to the ready entry of one key leaves the rest of a tidy list alone. */
  lemma KeysKept(list: seq<Readiness>, list': seq<Readiness>, next: nat, next': nat, sid: SessionId, role: Role)
    requires Tidy(list, next) && IdsBelow(list', next') && forall e | e in list' :: Live(e)
    requires forall f: Readiness | f.status != Ready || !IsFor(f, sid, role) :: f in list <==> f in list'
    requires forall e, f | e in list' && f in list' && e.status == Ready && f.status == Ready
                           && IsFor(e, sid, role) && IsFor(f, sid, role) :: e == f
    ensures Tidy(list', next') && SameTaken(list, list')
    ensures forall other: SessionId, r: Role | (other, r) != (sid, role) :: ReadyFor(list', other, r) == ReadyFor(list, other, r)
  {
    forall other: SessionId, r: Role | (other, r) != (sid, role)
      ensures ReadyFor(list', other, r) == ReadyFor(list, other, r)
    {
      SameReadyOfKey(list, list', next, other, r);
    }
    forall e | e in list' && e.status == Ready
      ensures ReadyFor(list', e.session, e.role) == Some(e)
    {
      if IsFor(e, sid, role) {
        TheOnlyReady(list', e);
      } else {
        assert (e.session, e.role) != (sid, role);
        assert e in list;
      }
    }
  }

  // ---------------------------------------------------------------- the refresh loop

  /** The refresh has dealt with the Sessions before `i`, and with these roles of Session `i`. */
  ghost predicate RefreshedSoFar(sessions: seq<Session>, runs: seq<Run>, list: seq<Readiness>, list': seq<Readiness>,
                                 next: nat, next': nat, now: int, i: nat, roles: set<Role>)
  {
    && next <= next' && Tidy(list', next') && SameTaken(list, list')
    && forall sid: SessionId, role: Role ::
         if sid < i || (sid == i && role in roles)
         then RefreshedFor(sessions, runs, list, list', next, next', now, sid, role)
         else ReadyFor(list', sid, role) == ReadyFor(list, sid, role)
  }

  lemma RefreshStarts(sessions: seq<Session>, runs: seq<Run>, list: seq<Readiness>, list': seq<Readiness>, next: nat, now: int)
    requires Tidy(list', next) && SameTaken(list, list') && SameReady(list, list')
    ensures RefreshedSoFar(sessions, runs, list, list', next, next, now, 0, {})
  {
    hide ReadyFor;
    hide RefreshedFor;
  }

  /** A role that somebody runs is passed over. */
  lemma RefreshSkipsRole(sessions: seq<Session>, runs: seq<Run>, list: seq<Readiness>, list': seq<Readiness>,
                         next: nat, next': nat, now: int, i: nat, roles: set<Role>, role: Role)
    requires RefreshedSoFar(sessions, runs, list, list', next, next', now, i, roles) && role !in roles
    requires !Open(sessions, runs, list, i, role)
    ensures RefreshedSoFar(sessions, runs, list, list', next, next', now, i, roles + {role})
  {
    hide ReadyFor;
    hide Open;
    hide Tidy;
    hide Projected;
  }

  /** Any other gets its projection. */
  lemma RefreshDoesRole(sessions: seq<Session>, runs: seq<Run>, list: seq<Readiness>, mid: seq<Readiness>, list': seq<Readiness>,
                        next: nat, middle: nat, next': nat, now: int, i: nat, roles: set<Role>, role: Role)
    requires RefreshedSoFar(sessions, runs, list, mid, next, middle, now, i, roles) && role !in roles
    requires Open(sessions, runs, list, i, role)
    requires EntryReconciled(mid, list', middle, next', now, i, role, Projected(sessions, runs, i, role))
    ensures RefreshedSoFar(sessions, runs, list, list', next, next', now, i, roles + {role})
  {
    hide ReadyFor;
    hide Open;
    hide Tidy;
    hide Projected;
    forall sid: SessionId, r: Role
      ensures if sid < i || (sid == i && r in roles + {role})
              then RefreshedFor(sessions, runs, list, list', next, next', now, sid, r)
              else ReadyFor(list', sid, r) == ReadyFor(list, sid, r)
    {
      if (sid, r) != (i, role) {
        assert ReadyFor(list', sid, r) == ReadyFor(mid, sid, r);
      }
    }
  }

  lemma RefreshDoesSession(sessions: seq<Session>, runs: seq<Run>, list: seq<Readiness>, list': seq<Readiness>,
                           next: nat, next': nat, now: int, i: nat, roles: set<Role>)
    requires RefreshedSoFar(sessions, runs, list, list', next, next', now, i, roles)
    requires i < |sessions| && (roles == {GoalManager, WorkerAgent} || !Dispatchable(sessions[i]))
    ensures RefreshedSoFar(sessions, runs, list, list', next, next', now, i + 1, {})
  {
    hide ReadyFor;
    hide Tidy;
    hide Projected;
    forall sid: SessionId, r: Role
      ensures if sid < i + 1 then RefreshedFor(sessions, runs, list, list', next, next', now, sid, r)
              else ReadyFor(list', sid, r) == ReadyFor(list, sid, r)
    {
      assert r == GoalManager || r == WorkerAgent;
      assert if sid < i || (sid == i && r in roles)
             then RefreshedFor(sessions, runs, list, list', next, next', now, sid, r)
             else ReadyFor(list', sid, r) == ReadyFor(list, sid, r);
    }
  }

  lemma RefreshEnds(sessions: seq<Session>, runs: seq<Run>, list: seq<Readiness>, list': seq<Readiness>,
                    next: nat, next': nat, now: int)
    requires RefreshedSoFar(sessions, runs, list, list', next, next', now, |sessions|, {})
    ensures ReadinessRefreshed(sessions, runs, list, list', next, next', now)
  {
    hide ReadyFor;
    hide Projected;
    forall sid: SessionId, r: Role
      ensures RefreshedFor(sessions, runs, list, list', next, next', now, sid, r)
    {
      assert if sid < |sessions| then RefreshedFor(sessions, runs, list, list', next, next', now, sid, r)
             else ReadyFor(list', sid, r) == ReadyFor(list, sid, r);
    }
  }

  lemma SameTrans(a: seq<Readiness>, b: seq<Readiness>, c: seq<Readiness>)
    requires SameTaken(a, b) && SameTaken(b, c) && SameReady(a, b) && SameReady(b, c)
    ensures SameTaken(a, c) && SameReady(a, c)
  {
    hide ReadyFor;
  }

  lemma SoFarIsTidy(sessions: seq<Session>, runs: seq<Run>, list: seq<Readiness>, list': seq<Readiness>,
                    next: nat, next': nat, now: int, i: nat, roles: set<Role>)
    requires RefreshedSoFar(sessions, runs, list, list', next, next', now, i, roles)
    ensures Tidy(list', next') && SameTaken(list, list')
  {
  }

  lemma SameOpen(sessions: seq<Session>, runs: seq<Run>, a: seq<Readiness>, b: seq<Readiness>, sid: SessionId, role: Role)
    requires SameTaken(a, b)
    ensures Open(sessions, runs, a, sid, role) == Open(sessions, runs, b, sid, role)
  {
  }

  lemma RoleIsDone(sessions: seq<Session>, runs: seq<Run>, list: seq<Readiness>, mid: seq<Readiness>, list': seq<Readiness>,
                   next: nat, middle: nat, next': nat, now: int, i: nat, roles: set<Role>, role: Role)
    requires RefreshedSoFar(sessions, runs, list, mid, next, middle, now, i, roles) && role !in roles
    requires if Open(sessions, runs, list, i, role)
      then EntryReconciled(mid, list', middle, next', now, i, role, Projected(sessions, runs, i, role))
      else list' == mid && next' == middle
    ensures RefreshedSoFar(sessions, runs, list, list', next, next', now, i, roles + {role})
  {
    hide RefreshedSoFar;
    hide EntryReconciled;
    if Open(sessions, runs, list, i, role) {
      RefreshDoesRole(sessions, runs, list, mid, list', next, middle, next', now, i, roles, role);
    } else {
      RefreshSkipsRole(sessions, runs, list, list', next, next', now, i, roles, role);
    }
  }

  lemma NothingSeen(list: seq<Readiness>)
    requires list == []
    ensures Deduplicated(list, [], map[])
  {
  }
}
