/** The Session graph over whole runs: which steps keep it free of cycles. */
module GraphSteps {
  import opened DispatchModel
  import opened SelectionPolicy
  import opened Protocol
  import opened StepInvariant
  import opened Preservation
  import opened Behaviours
  import opened Requirements
  import SessionGraph

  /** Edges into a Session that has no edges of its own make no cycle. */
  lemma {:induction false} NewChildKeepsAcyclic(edges: seq<SessionGraph.Edge>, parents: seq<SessionId>, child: SessionId)
    requires SessionGraph.Acyclic(edges) && EdgesOk(edges, child) && forall p | p in parents :: p < child
    ensures SessionGraph.Acyclic(edges + EdgesFrom(parents, child))
    ensures forall e | e in edges + EdgesFrom(parents, child) :: e.parent < child
  {
    if parents == [] {
      assert edges + EdgesFrom(parents, child) == edges;
    } else {
      var rest := parents[..|parents| - 1];
      var edge := SessionGraph.Edge(parents[|parents| - 1], child);
      assert parents[|parents| - 1] in parents && forall p | p in rest :: p in parents;
      NewChildKeepsAcyclic(edges, rest, child);
      if edge !in EdgesFrom(rest, child) {
        var sofar := edges + EdgesFrom(rest, child);
        assert edges + EdgesFrom(parents, child) == sofar + [edge];
        LeafReachesNothing(sofar, child, edge.parent);
        SessionGraph.AcyclicWithNewEdge(sofar, edge);
      }
    }
  }

  lemma LeafReachesNothing(edges: seq<SessionGraph.Edge>, leaf: SessionId, other: SessionId)
    requires leaf != other && forall e | e in edges :: e.parent != leaf
    ensures !SessionGraph.Reaches(edges, leaf, other)
  {
    forall walk
      ensures !SessionGraph.IsWalk(edges, walk, leaf, other)
    {
      if |walk| >= 2 && walk[0] == leaf {
        assert SessionGraph.Edge(walk[0], walk[1]) !in edges;
      }
    }
  }

  lemma {:induction false} LinkedUnderKeepsAcyclic(edges: seq<SessionGraph.Edge>, n: nat, parents: seq<SessionId>, child: SessionId)
    requires SessionGraph.Acyclic(edges) && LinkedUnder(edges, n, parents, child).Some?
    ensures SessionGraph.Acyclic(LinkedUnder(edges, n, parents, child).value)
  {
    if parents != [] {
      var rest, parent := parents[..|parents| - 1], parents[|parents| - 1];
      LinkedUnderKeepsAcyclic(edges, n, rest, child);
      SessionGraph.AcyclicWithNewEdge(LinkedUnder(edges, n, rest, child).value, SessionGraph.Edge(parent, child));
    }
  }

  /** A graph repair whose owner half leaves a way back to the root. */
  ghost predicate ClosesCycle(s: State, ev: Event, now: int) {
    && ev.RepairGraph? && Accepted(s, ev, now)
    && exists sid: SessionId | sid < |s.sessions| && sid != ROOT_SESSION ::
         SessionGraph.Reaches(OwnersRepaired(s, ev.homes).value, sid, ROOT_SESSION)
  }

  lemma OtherEdgesStand(s: State, ev: Event, now: int, s': State)
    requires Inv(s) && Step(s, ev, now, s')
    requires !(ev.Link? || ev.Start? || ev.Create? || ev.ActivateSingleton? || ev.RepairGraph?)
    ensures s'.edges == s.edges
  {
    hide Inv;
    hide Ended;
    hide Reconciles;
    hide ReadinessRefreshed;
    hide IsChoice;
    if Accepted(s, ev, now) {
      if ev.AgentEnds? {
        EndKeepsEdges(s, ev.run, ev.end, now);
      } else if ev.Acquire? {
        AcquireKeepsEdges(s, ev, now, s');
      }
    }
  }

  lemma EndKeepsEdges(s: State, r: RunId, end: AgentEnd, now: int)
    requires r < |s.runs| && s.runs[r].session < |s.sessions|
    ensures Ended(s, r, end, now).edges == s.edges
  {
    hide FirstConflict;
    hide GateFor;
    hide WorkerRequested;
  }

  lemma AcquireKeepsEdges(s: State, ev: Event, now: int, s': State)
    requires Inv(s) && ev.Acquire? && Accepted(s, ev, now) && Effect(s, ev, now, s')
    ensures s'.edges == s.edges
  {
    hide Inv;
    hide Reconciles;
    hide Refreshes;
    hide IsChoice;
    hide Candidate;
    hide UnitRefuses;
    var repaired, ready :| AcquiresVia(s, repaired, ready, s', ev.filter, now, ev.outcome);
    AcquireShape(s, repaired, ready, now);
    if s' != s && ev.outcome.LeaseTaken? {
      ChoiceInRange(ready, ev.filter, now, ev.outcome.chosen);
    }
  }

  lemma OwnersStayAcyclic(s: State, homes: map<nat, nat>)
    requires OwnersRepaired(s, homes).Some?
    ensures SessionGraph.Acyclic(s.edges) ==> SessionGraph.Acyclic(OwnersRepaired(s, homes).value)
    ensures forall e | e in OwnersRepaired(s, homes).value :: e in s.edges || e.child in homes
  {
    SessionGraph.RehomeEdges(Ids(|s.sessions|), homes, s.edges, ROOT_SESSION, |s.sessions|);
  }

  /** Every step keeps the graph acyclic, with one exception, and that one always closes a cycle: the
      repair when, owners aside, another Session reaches the root. */
  lemma StepKeepsAcyclic(s: State, ev: Event, now: int, s': State)
    requires Inv(s) && Step(s, ev, now, s') && SessionGraph.Acyclic(s.edges)
    ensures SessionGraph.Acyclic(s'.edges) <==> !ClosesCycle(s, ev, now)
  {
    assert EdgesOk(s.edges, |s.sessions|);
    hide Inv;
    hide SessionGraph.Acyclic;
    hide SessionGraph.Reaches;
    hide SessionGraph.Rehome;
    hide EdgesOk;
    if ev.RepairGraph? {
      if Accepted(s, ev, now) {
        OwnersStayAcyclic(s, ev.homes);
        SessionGraph.RootRepairAcyclic(|s.sessions|, OwnersRepaired(s, ev.homes).value, s'.edges, ROOT_SESSION);
      }
    } else if ev.Link? {
      if Accepted(s, ev, now) {
        SessionGraph.AcyclicWithNewEdge(s.edges, SessionGraph.Edge(ev.parent, ev.child));
      }
    } else if ev.Start? || ev.Create? {
      if Accepted(s, ev, now) {
        NewChildKeepsAcyclic(s.edges, OrRoot(ev.parents), |s.sessions|);
      }
    } else if ev.ActivateSingleton? {
      if Accepted(s, ev, now) {
        LinkedUnderKeepsAcyclic(s.edges, |s.sessions|, OrRoot(ev.parents), ev.sid);
      }
    } else {
      OtherEdgesStand(s, ev, now, s');
    }
  }

  // ---------------------------------------------------------------- which edges a step makes

  lemma {:induction false} EdgesFromAre(parents: seq<SessionId>, child: SessionId)
    ensures forall e :: e in EdgesFrom(parents, child) <==> e.child == child && e.parent in parents
  {
    if parents != [] {
      EdgesFromAre(parents[..|parents| - 1], child);
      assert parents == parents[..|parents| - 1] + [parents[|parents| - 1]];
    }
  }

  /** A singleton may come under its named parents unless one of them that is not its parent yet is reached from
      it; then exactly the known ones among them become its parents. */
  lemma {:induction false} LinkedUnderIsExact(edges: seq<SessionGraph.Edge>, n: nat, parents: seq<SessionId>, child: SessionId)
    ensures LinkedUnder(edges, n, parents, child).None? <==> exists p | p in parents ::
      p < n && p != child && SessionGraph.Edge(p, child) !in edges && SessionGraph.Reaches(edges, child, p)
    ensures LinkedUnder(edges, n, parents, child).Some? ==>
      var after := LinkedUnder(edges, n, parents, child).value;
      && (forall e :: e in after <==>
            e in edges || (e.child == child && e.parent in parents && e.parent < n && e.parent != child))
      && (forall p :: SessionGraph.Reaches(after, child, p) <==> SessionGraph.Reaches(edges, child, p))
  {
    hide SessionGraph.Reaches;
    if parents != [] {
      var rest, parent := parents[..|parents| - 1], parents[|parents| - 1];
      assert parents == rest + [parent];
      LinkedUnderIsExact(edges, n, rest, child);
      var before := LinkedUnder(edges, n, rest, child);
      if before.Some? {
        var edge := SessionGraph.Edge(parent, child);
        forall p
          ensures SessionGraph.Reaches(before.value + [edge], child, p) <==> SessionGraph.Reaches(before.value, child, p)
        {
          SessionGraph.ReachesWithNewEdge(before.value, edge, child, p);
        }
      }
    }
  }

  /** Not a root edge of an owned Session, but an edge of before or one from an owner's home. */
  predicate IsHomed(s: State, homes: map<nat, nat>, e: SessionGraph.Edge) {
    var owned := e.child < |s.sessions| && e.child in homes && homes[e.child] != e.child;
    !(owned && e.parent == 0) && (e in s.edges || (owned && e.parent == homes[e.child]))
  }

  /** The edges behind every step. A new Session comes under the parents named, or the root; a singleton under the
      known ones; a link makes its one edge; a repair brings the home edges, drops the root edges of owned
      Sessions, and puts what the root does not reach then under the root. No other step changes the graph. */
  lemma StepEdges(s: State, ev: Event, now: int, s': State)
    requires Inv(s) && Step(s, ev, now, s')
    ensures !Accepted(s, ev, now) || !(ev.Link? || ev.Start? || ev.Create? || ev.ActivateSingleton? || ev.RepairGraph?) ==>
      s'.edges == s.edges
    ensures ev.Link? ==> forall e :: e in s'.edges <==>
      || e in s.edges
      || (&& e == SessionGraph.Edge(ev.parent, ev.child) && e.parent < |s.sessions| && e.child < |s.sessions|
          && e.parent != e.child && !SessionGraph.Reaches(s.edges, e.child, e.parent))
    ensures (ev.Start? || ev.Create?) && Accepted(s, ev, now) ==> forall e :: e in s'.edges <==>
      e in s.edges || (e.child == |s.sessions| && (e.parent in ev.parents || (ev.parents == [] && e.parent == 0)))
    ensures ev.ActivateSingleton? && Accepted(s, ev, now) ==> forall e :: e in s'.edges <==>
      || e in s.edges
      || (&& e.child == ev.sid && e.parent != ev.sid && e.parent < |s.sessions|
          && (e.parent in ev.parents || (ev.parents == [] && e.parent == 0)))
    ensures ev.RepairGraph? && Accepted(s, ev, now) ==>
      |OwnersRepaired(s, ev.homes).value| <= |s'.edges| && forall e :: e in s'.edges <==>
        || IsHomed(s, ev.homes, e)
        || e in s'.edges[|OwnersRepaired(s, ev.homes).value|..]
    ensures ev.RepairGraph? && Accepted(s, ev, now) ==>
      && (forall e | e in s'.edges[|OwnersRepaired(s, ev.homes).value|..] ::
            e.parent == 0 && 0 < e.child < |s.sessions| && !SessionGraph.Reaches(OwnersRepaired(s, ev.homes).value, 0, e.child))
      && (forall sid: SessionId | sid < |s.sessions| :: SessionGraph.Reaches(s'.edges, 0, sid))
  {
    hide Inv;
    hide SessionGraph.Reaches;
    hide SessionGraph.Rehome;
    hide LinkedUnder;
    hide EdgesFrom;
    if ev.RepairGraph? {
      if Accepted(s, ev, now) {
        RepairedEdges(s, ev.homes, s'.edges);
      }
    } else if ev.Start? {
      EdgesFromAre(OrRoot(ev.parents), |s.sessions|);
    } else if ev.Create? {
      EdgesFromAre(OrRoot(ev.parents), |s.sessions|);
    } else if ev.ActivateSingleton? {
      LinkedUnderIsExact(s.edges, |s.sessions|, OrRoot(ev.parents), ev.sid);
    } else if !ev.Link? {
      OtherEdgesStand(s, ev, now, s');
    }
  }

  lemma RepairedEdges(s: State, homes: map<nat, nat>, edges': seq<SessionGraph.Edge>)
    requires OwnersRepaired(s, homes).Some?
    requires SessionGraph.RootRepaired(|s.sessions|, OwnersRepaired(s, homes).value, edges', ROOT_SESSION)
    ensures |OwnersRepaired(s, homes).value| <= |edges'|
    ensures forall e :: e in edges' <==>
      || IsHomed(s, homes, e)
      || e in edges'[|OwnersRepaired(s, homes).value|..]
  {
    hide SessionGraph.Reaches;
    var ids, owned := Ids(|s.sessions|), OwnersRepaired(s, homes).value;
    SessionGraph.RehomeEdges(ids, homes, s.edges, ROOT_SESSION, |ids|);
    assert ids[..|ids|] == ids;
    assert edges' == owned + edges'[|owned|..];
    forall i: nat
      ensures i in ids <==> i < |s.sessions|
    {
      if i < |s.sessions| {
        assert ids[i] == i;
      }
    }
  }

  // ---------------------------------------------------------------- below the root

  /** The root reaches every Session, no edge leads into it, and there is no cycle. */
  ghost predicate Rooted(n: nat, edges: seq<SessionGraph.Edge>) {
    && ROOT_SESSION < n && SessionGraph.Acyclic(edges)
    && (forall sid: SessionId | sid < n :: SessionGraph.Reaches(edges, ROOT_SESSION, sid))
    && (forall e | e in edges :: e.child != ROOT_SESSION)
  }

  /** A store that holds only the root. */
  lemma OnlyTheRoot()
    ensures Rooted(1, [])
  {
    SessionGraph.ReachesItself([], ROOT_SESSION);
  }

  /** More edges between the same Sessions, none of them into the root. */
  lemma MoreRooted(n: nat, edges: seq<SessionGraph.Edge>, more: seq<SessionGraph.Edge>)
    requires Rooted(n, edges) && SessionGraph.Acyclic(more)
    requires forall e | e in edges :: e in more
    requires forall e | e in more :: e.child != ROOT_SESSION
    ensures Rooted(n, more)
  {
    hide SessionGraph.Acyclic;
    forall sid: SessionId | sid < n
      ensures SessionGraph.Reaches(more, ROOT_SESSION, sid)
    {
      SessionGraph.MoreEdgesReachMore(edges, more, ROOT_SESSION, sid);
    }
  }

  lemma {:induction false} EdgesFromParents(parents: seq<SessionId>, child: SessionId, k: nat)
    requires k < |parents|
    ensures SessionGraph.Edge(parents[k], child) in EdgesFrom(parents, child)
    ensures forall e | e in EdgesFrom(parents, child) :: e.child == child
  {
    if |parents| > 1 {
      var n := |parents| - 1;
      EdgesFromParents(parents[..n], child, if k < n then k else 0);
    }
  }

  /** A new Session is reached through its first parent. */
  lemma NewChildIsRooted(n: nat, edges: seq<SessionGraph.Edge>, parents: seq<SessionId>)
    requires Rooted(n, edges) && EdgesOk(edges, n) && parents != [] && forall p | p in parents :: p < n
    ensures Rooted(n + 1, edges + EdgesFrom(parents, n))
  {
    var more := edges + EdgesFrom(parents, n);
    NewChildKeepsAcyclic(edges, parents, n);
    EdgesFromParents(parents, n, 0);
    assert parents[0] in parents;
    hide SessionGraph.Acyclic;
    hide EdgesOk;
    MoreRooted(n, edges, more);
    SessionGraph.EdgeReaches(more, SessionGraph.Edge(parents[0], n));
    SessionGraph.ReachesAlong(more, ROOT_SESSION, parents[0], n);
  }

  /** Linking the root under anything is refused, because the root reaches it already. */
  lemma {:induction false} LinkedUnderIsRooted(n: nat, edges: seq<SessionGraph.Edge>, parents: seq<SessionId>, child: SessionId)
    requires Rooted(n, edges) && child < n && LinkedUnder(edges, n, parents, child).Some?
    ensures Rooted(n, LinkedUnder(edges, n, parents, child).value)
  {
    if parents != [] {
      var rest, parent := parents[..|parents| - 1], parents[|parents| - 1];
      var before := LinkedUnder(edges, n, rest, child).value;
      LinkedUnderIsRooted(n, edges, rest, child);
      SessionGraph.AcyclicWithNewEdge(before, SessionGraph.Edge(parent, child));
      var after := LinkedUnder(edges, n, parents, child).value;
      if after != before {
        MoreRooted(n, before, after);
      }
    }
  }

  /** The repair of a rooted graph; in between, the owner half may cut Sessions off the root, but it never
      leads an edge into it. */
  lemma RepairIsRooted(s: State, homes: map<nat, nat>, edges': seq<SessionGraph.Edge>)
    requires Rooted(|s.sessions|, s.edges) && ROOT_SESSION !in homes && OwnersRepaired(s, homes).Some?
    requires SessionGraph.RootRepaired(|s.sessions|, OwnersRepaired(s, homes).value, edges', ROOT_SESSION)
    ensures Rooted(|s.sessions|, edges')
  {
    var owned := OwnersRepaired(s, homes).value;
    OwnersStayAcyclic(s, homes);
    hide SessionGraph.Acyclic;
    hide SessionGraph.Reaches;
    hide SessionGraph.Rehome;
    forall sid: SessionId | sid != ROOT_SESSION
      ensures !SessionGraph.Reaches(owned, sid, ROOT_SESSION)
    {
      SessionGraph.NothingReachesAnOpenRoot(owned, ROOT_SESSION, sid);
    }
    SessionGraph.RootRepairAcyclic(|s.sessions|, owned, edges', ROOT_SESSION);
    assert edges' == owned + edges'[|owned|..];
  }

  lemma StepKeepsRooted(s: State, ev: Event, now: int, s': State)
    requires Inv(s) && Step(s, ev, now, s') && Rooted(|s.sessions|, s.edges)
    ensures Rooted(|s'.sessions|, s'.edges)
  {
    assert EdgesOk(s.edges, |s.sessions|);
    hide Inv;
    hide SessionGraph.Acyclic;
    hide SessionGraph.Reaches;
    hide SessionGraph.Rehome;
    hide EdgesOk;
    if ev.RepairGraph? {
      if Accepted(s, ev, now) {
        RepairIsRooted(s, ev.homes, s'.edges);
      }
    } else if ev.Link? {
      if Accepted(s, ev, now) && s'.edges != s.edges {
        SessionGraph.AcyclicWithNewEdge(s.edges, SessionGraph.Edge(ev.parent, ev.child));
        MoreRooted(|s.sessions|, s.edges, s'.edges);
      }
    } else if ev.Start? || ev.Create? {
      if Accepted(s, ev, now) {
        NewChildIsRooted(|s.sessions|, s.edges, OrRoot(ev.parents));
      }
    } else if ev.ActivateSingleton? {
      if Accepted(s, ev, now) {
        LinkedUnderIsRooted(|s.sessions|, s.edges, OrRoot(ev.parents), ev.sid);
      }
    } else {
      OtherEdgesStand(s, ev, now, s');
      StepCounts(s, ev, now, s');
    }
  }

  /** In every run from a store in which the root reaches everything and nothing leads into it, as in one
      that holds only the root, this stays so: no step links the root under a Session, every Session is
      reached, and the graph never gets a cycle. */
  lemma {:induction false} AlwaysRooted(states: seq<State>, moments: seq<Moment>, i: nat)
    requires IsBehaviour(states, moments) && |states| == |moments| + 1 && i < |states|
    requires Rooted(|states[0].sessions|, states[0].edges)
    ensures Rooted(|states[i].sessions|, states[i].edges)
  {
    if i > 0 {
      hide IsBehaviour;
      hide Inv;
      hide Step;
      hide Rooted;
      AlwaysRooted(states, moments, i - 1);
      AlwaysInv(states, moments, i - 1);
      BehaviourStep(states, moments, i - 1);
      StepKeepsRooted(states[i - 1], moments[i - 1].event, moments[i - 1].now, states[i]);
    }
  }

  /** So the exception above never occurs in such a run. */
  lemma NoRepairClosesCycle(states: seq<State>, moments: seq<Moment>, i: nat)
    requires IsBehaviour(states, moments) && i < |moments|
    requires Rooted(|states[0].sessions|, states[0].edges)
    ensures |states| == |moments| + 1 && !ClosesCycle(states[i], moments[i].event, moments[i].now)
  {
    AlwaysRooted(states, moments, i);
    AlwaysRooted(states, moments, i + 1);
    AlwaysInv(states, moments, i);
    BehaviourStep(states, moments, i);
    hide IsBehaviour;
    hide Inv;
    hide Step;
    hide ClosesCycle;
    StepKeepsAcyclic(states[i], moments[i].event, moments[i].now, states[i + 1]);
  }
}
