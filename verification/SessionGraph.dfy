/** The Session graph: cycle-free linking (src/goal/sessions.py), the root repair
    (src/goal/store.py) and shortest distances (src/goal/query.py).
    Session ids are naturals. */
module SessionGraph {
  import opened Wrappers

  datatype Edge = Edge(parent: nat, child: nat)

  // ---------------------------------------------------------------- walks

  /** A walk lists every Session it visits, from its first to its last. */
  ghost predicate IsWalk(edges: seq<Edge>, walk: seq<nat>, from: nat, to: nat) {
    && walk != [] && walk[0] == from && walk[|walk| - 1] == to
    && forall i | 0 <= i < |walk| - 1 :: Edge(walk[i], walk[i + 1]) in edges
  }

  ghost predicate Reaches(edges: seq<Edge>, from: nat, to: nat) {
    exists walk :: IsWalk(edges, walk, from, to)
  }

  /** No Session reaches itself through one edge or more. */
  ghost predicate Acyclic(edges: seq<Edge>) {
    forall e | e in edges :: !Reaches(edges, e.child, e.parent)
  }

  lemma WalkTail(edges: seq<Edge>, walk: seq<nat>, from: nat, to: nat)
    requires IsWalk(edges, walk, from, to) && |walk| > 1
    ensures IsWalk(edges, walk[1..], walk[1], to)
  {
    var rest := walk[1..];
    forall i | 0 <= i < |rest| - 1
      ensures Edge(rest[i], rest[i + 1]) in edges
    {
      assert rest[i] == walk[i + 1] && rest[i + 1] == walk[(i + 1) + 1];
    }
  }

  lemma ReachesItself(edges: seq<Edge>, a: nat)
    ensures Reaches(edges, a, a)
  {
    assert IsWalk(edges, [a], a, a);
  }

  lemma ReachesAlong(edges: seq<Edge>, a: nat, b: nat, c: nat)
    requires Reaches(edges, a, b) && Reaches(edges, b, c)
    ensures Reaches(edges, a, c)
  {
    var p :| IsWalk(edges, p, a, b);
    var q :| IsWalk(edges, q, b, c);
    var walk := p + q[1..];
    forall i | 0 <= i < |walk| - 1
      ensures Edge(walk[i], walk[i + 1]) in edges
    {
      if i >= |p| - 1 {
        assert walk[i] == q[i - |p| + 1] && walk[i + 1] == q[i - |p| + 2];
      }
    }
    assert IsWalk(edges, walk, a, c);
  }

  lemma EdgeReaches(edges: seq<Edge>, e: Edge)
    requires e in edges
    ensures Reaches(edges, e.parent, e.child)
  {
    assert IsWalk(edges, [e.parent, e.child], e.parent, e.child);
  }

  lemma MoreEdgesReachMore(edges: seq<Edge>, more: seq<Edge>, a: nat, b: nat)
    requires forall e | e in edges :: e in more
    requires Reaches(edges, a, b)
    ensures Reaches(more, a, b)
  {
    var walk :| IsWalk(edges, walk, a, b);
    assert IsWalk(more, walk, a, b);
  }

  /** Walks of a graph with one more edge either avoid it or reach its parent in the old graph and
      leave from its child in the old graph. */
  lemma {:induction false} WalkWithNewEdge(edges: seq<Edge>, e: Edge, walk: seq<nat>, a: nat, b: nat)
    requires IsWalk(edges + [e], walk, a, b)
    ensures Reaches(edges, a, b) || (Reaches(edges, a, e.parent) && Reaches(edges, e.child, b))
    decreases |walk|
  {
    if |walk| == 1 {
      ReachesItself(edges, a);
    } else {
      var next := walk[1];
      var rest := walk[1..];
      WalkTail(edges + [e], walk, a, b);
      WalkWithNewEdge(edges, e, rest, next, b);
      assert Edge(walk[0], walk[1]) in edges + [e];
      if Edge(a, next) in edges {
        EdgeReaches(edges, Edge(a, next));
        if Reaches(edges, next, b) {
          ReachesAlong(edges, a, next, b);
        } else {
          ReachesAlong(edges, a, next, e.parent);
        }
      } else {
        assert e == Edge(a, next);
        ReachesItself(edges, a);
      }
    }
  }

  lemma ReachesWithNewEdge(edges: seq<Edge>, e: Edge, a: nat, b: nat)
    ensures Reaches(edges + [e], a, b) <==>
            Reaches(edges, a, b) || (Reaches(edges, a, e.parent) && Reaches(edges, e.child, b))
  {
    if Reaches(edges + [e], a, b) {
      var walk :| IsWalk(edges + [e], walk, a, b);
      WalkWithNewEdge(edges, e, walk, a, b);
    }
    if Reaches(edges, a, b) {
      MoreEdgesReachMore(edges, edges + [e], a, b);
    }
    if Reaches(edges, a, e.parent) && Reaches(edges, e.child, b) {
      MoreEdgesReachMore(edges, edges + [e], a, e.parent);
      MoreEdgesReachMore(edges, edges + [e], e.child, b);
      EdgeReaches(edges + [e], e);
      ReachesAlong(edges + [e], a, e.parent, e.child);
      ReachesAlong(edges + [e], a, e.child, b);
    }
  }

  /** An edge may be added to an acyclic graph exactly when its child does not already reach its
      parent. */
  lemma AcyclicWithNewEdge(edges: seq<Edge>, e: Edge)
    requires Acyclic(edges)
    ensures Acyclic(edges + [e]) <==> !Reaches(edges, e.child, e.parent)
  {
    var more := edges + [e];
    if Reaches(edges, e.child, e.parent) {
      MoreEdgesReachMore(edges, more, e.child, e.parent);
      assert e in more;
    } else {
      forall f | f in more
        ensures !Reaches(more, f.child, f.parent)
      {
        ReachesWithNewEdge(edges, e, f.child, f.parent);
        if f in edges {
          if Reaches(edges, f.child, e.parent) && Reaches(edges, e.child, f.parent) {
            EdgeReaches(edges, f);
            ReachesAlong(edges, e.child, f.parent, f.child);
            ReachesAlong(edges, e.child, f.child, e.parent);
          }
        }
      }
    }
  }

  // ---------------------------------------------------------------- depth-first search

  function Children(edges: seq<Edge>, parent: nat): (r: seq<nat>)
    ensures forall x :: x in r <==> Edge(parent, x) in edges
  {
    if edges == [] then []
    else
      var e := edges[|edges| - 1];
      assert edges == edges[..|edges| - 1] + [e];
      Children(edges[..|edges| - 1], parent) + if e.parent == parent then [e.child] else []
  }

  /** `children_by_parent`. */
  method IndexChildren(edges: seq<Edge>) returns (byParent: map<nat, seq<nat>>)
    ensures forall p :: (if p in byParent then byParent[p] else []) == Children(edges, p)
  {
    byParent := map[];
    for i := 0 to |edges|
      invariant forall p :: (if p in byParent then byParent[p] else []) == Children(edges[..i], p)
    {
      assert edges[..i + 1][..i] == edges[..i];
      var e := edges[i];
      var known := if e.parent in byParent then byParent[e.parent] else [];
      byParent := byParent[e.parent := known + [e.child]];
    }
    assert edges[..|edges|] == edges;
  }

  /** Everything a search can meet. */
  function Nodes(edges: seq<Edge>, start: nat): set<nat> {
    {start} + set e | e in edges :: e.child
  }

  lemma SeenIsClosed(edges: seq<Edge>, seen: set<nat>, walk: seq<nat>, from: nat, to: nat)
    requires from in seen && IsWalk(edges, walk, from, to)
    requires forall e | e in edges && e.parent in seen :: e.child in seen
    ensures to in seen
    decreases |walk|
  {
    if |walk| > 1 {
      assert Edge(walk[0], walk[1]) in edges;
      assert IsWalk(edges, walk[1..], walk[1], to);
      SeenIsClosed(edges, seen, walk[1..], walk[1], to);
    }
  }

  /** `_has_path`: depth-first search with a stack and a seen set. It terminates on every graph and
      answers reachability. */
  method HasPath(edges: seq<Edge>, start: nat, target: nat) returns (found: bool)
    ensures found <==> Reaches(edges, start, target)
  {
    var byParent := IndexChildren(edges);
    ghost var nodes := Nodes(edges, start);
    var stack, seen := [start], {};
    ReachesItself(edges, start);
    while stack != []
      invariant forall x | x in stack :: x in nodes && Reaches(edges, start, x)
      invariant seen <= nodes && target !in seen
      invariant start in stack || start in seen
      invariant forall e | e in edges && e.parent in seen :: e.child in seen || e.child in stack
      decreases nodes - seen, |stack|
    {
      var current := stack[|stack| - 1];
      ghost var before := stack;
      stack := stack[..|stack| - 1];
      assert forall x | x in before :: x in stack || x == current;
      if current == target {
        return true;
      }
      if current in seen {
        continue;
      }
      seen := seen + {current};
      var next := if current in byParent then byParent[current] else [];
      forall x | x in next
        ensures x in nodes && Reaches(edges, start, x)
      {
        EdgeReaches(edges, Edge(current, x));
        ReachesAlong(edges, start, current, x);
      }
      stack := stack + next;
    }
    if Reaches(edges, start, target) {
      var walk :| IsWalk(edges, walk, start, target);
      SeenIsClosed(edges, seen, walk, start, target);
    }
    return false;
  }

  // ---------------------------------------------------------------- linking

  datatype LinkError = UnknownParent | UnknownChild | SelfEdge | WouldCycle

  /** `_link_sessions_in_state`. It refuses exactly the unknown, self and cycle-making edges, and an
      edge that is already there is returned without being added again. */
  method Link(sessions: nat, edges: seq<Edge>, parent: nat, child: nat)
    returns (r: Result<Edge, LinkError>, edges': seq<Edge>)
    ensures r.Err? <==>
      || parent >= sessions || child >= sessions || parent == child
      || (Edge(parent, child) !in edges && Reaches(edges, child, parent))
    ensures r.Err? ==> edges' == edges
    ensures r.Ok? ==>
      && r.value == Edge(parent, child)
      && edges' == (if r.value in edges then edges else edges + [r.value])
      && (Acyclic(edges) ==> Acyclic(edges'))
  {
    edges' := edges;
    if parent >= sessions {
      return Err(UnknownParent), edges;
    }
    if child >= sessions {
      return Err(UnknownChild), edges;
    }
    if parent == child {
      return Err(SelfEdge), edges;
    }
    var edge := Edge(parent, child);
    for i := 0 to |edges|
      invariant edge !in edges[..i]
    {
      if edges[i] == edge {
        return Ok(edge), edges;
      }
    }
    var cycle := HasPath(edges, child, parent);
    if cycle {
      return Err(WouldCycle), edges;
    }
    edges' := edges + [edge];
    if Acyclic(edges) {
      AcyclicWithNewEdge(edges, edge);
    }
    r := Ok(edge);
  }

  // ---------------------------------------------------------------- owner repair

  function Without(edges: seq<Edge>, e: Edge): (r: seq<Edge>)
    ensures forall f :: f in r <==> f in edges && f != e
  {
    if edges == [] then []
    else
      var last := edges[|edges| - 1];
      var rest := Without(edges[..|edges| - 1], e);
      assert forall f :: f in edges <==> f == last || f in edges[..|edges| - 1];
      if last == e then rest else rest + [last]
  }

  /** The Session is launched from a Unit whose owner's home is another Session. */
  predicate HasHome(homes: map<nat, nat>, s: nat) {
    s in homes && homes[s] != s
  }

  /** One Session's turn: link it under its owner's home, then drop its root edge. None when it raises,
      on an unknown home or a link that would close a cycle. */
  ghost function Rehomed(sessions: seq<nat>, homes: map<nat, nat>, edges: seq<Edge>, root: nat, s: nat): Option<seq<Edge>> {
    if !HasHome(homes, s) then Some(edges)
    else
      var edge := Edge(homes[s], s);
      if homes[s] !in sessions || (edge !in edges && Reaches(edges, s, homes[s])) then None
      else Some(Without(if edge in edges then edges else edges + [edge], Edge(root, s)))
  }

  /** The turns of the first `n` Sessions. */
  ghost function Rehome(sessions: seq<nat>, homes: map<nat, nat>, edges: seq<Edge>, root: nat, n: nat): Option<seq<Edge>>
    requires n <= |sessions|
  {
    if n == 0 then Some(edges)
    else
      var before := Rehome(sessions, homes, edges, root, n - 1);
      if before.None? then None else Rehomed(sessions, homes, before.value, root, sessions[n - 1])
  }

  /** The edges after the first `n` turns: exactly the home edges come, exactly the root edges of Sessions
      with a home go. */
  lemma {:induction false} RehomeEdges(sessions: seq<nat>, homes: map<nat, nat>, edges: seq<Edge>, root: nat, n: nat)
    requires n <= |sessions| && Rehome(sessions, homes, edges, root, n).Some?
    ensures forall e :: e in Rehome(sessions, homes, edges, root, n).value <==>
      !(e.parent == root && e.child in sessions[..n] && HasHome(homes, e.child))
      && (e in edges || (e.child in sessions[..n] && HasHome(homes, e.child) && e.parent == homes[e.child]))
    ensures forall s | s in sessions[..n] && HasHome(homes, s) :: homes[s] in sessions
    ensures Acyclic(edges) ==> Acyclic(Rehome(sessions, homes, edges, root, n).value)
  {
    if n > 0 {
      RehomeEdges(sessions, homes, edges, root, n - 1);
      var s := sessions[n - 1];
      var before := Rehome(sessions, homes, edges, root, n - 1).value;
      assert sessions[..n] == sessions[..n - 1] + [s];
      if HasHome(homes, s) && Acyclic(edges) {
        var edge := Edge(homes[s], s);
        var linked := if edge in before then before else before + [edge];
        AcyclicWithNewEdge(before, edge);
        FewerEdgesStayAcyclic(Without(linked, Edge(root, s)), linked);
      }
    }
  }

  /** Once a turn has raised, the repair has raised. */
  lemma {:induction false} RehomeStops(sessions: seq<nat>, homes: map<nat, nat>, edges: seq<Edge>, root: nat, i: nat, n: nat)
    requires i <= n <= |sessions| && Rehome(sessions, homes, edges, root, i).None?
    ensures Rehome(sessions, homes, edges, root, n).None?
    decreases n - i
  {
    if i < n {
      RehomeStops(sessions, homes, edges, root, i + 1, n);
    }
  }

  /** `_ensure_unit_session_owner_parents`: every Session with an owner hangs under its owner's home
      instead of under the root, and the graph stays acyclic. It raises exactly when, at the turn of some
      Session, the home is unknown or the home edge is missing and would close a cycle; then nothing is
      changed. */
  method EnsureOwnerParents(sessions: seq<nat>, homes: map<nat, nat>, edges: seq<Edge>, root: nat)
    returns (r: Result<bool, LinkError>, edges': seq<Edge>)
    ensures r.Ok? ==> Rehome(sessions, homes, edges, root, |sessions|) == Some(edges')
    ensures r.Err? ==> Rehome(sessions, homes, edges, root, |sessions|) == None && edges' == edges
    ensures r.Ok? ==> forall s | s in sessions && HasHome(homes, s) ::
      Edge(root, s) !in edges' && (homes[s] != root ==> Edge(homes[s], s) in edges')
    ensures r.Ok? && Acyclic(edges) ==> Acyclic(edges')
    ensures r.Ok? && !r.value ==> edges' == edges
    ensures r == Err(UnknownParent) ==> exists s | s in sessions && HasHome(homes, s) :: homes[s] !in sessions
    ensures r == Err(WouldCycle) ==>
      exists i | 0 <= i < |sessions| :: RaisesCycle(sessions, homes, edges, root, i)
  {
    hide Rehomed;
    edges' := edges;
    var changed := false;
    for i := 0 to |sessions|
      invariant Rehome(sessions, homes, edges, root, i) == Some(edges')
      invariant !changed ==> edges' == edges
    {
      var s := sessions[i];
      if !HasHome(homes, s) {
        NoHome(sessions, homes, edges', root, s);
        continue;
      }
      var home := homes[s];
      var edge, rooted := Edge(home, s), Edge(root, s);
      OneRehomed(sessions, homes, edges', root, s);
      if home !in sessions {
        RehomeStops(sessions, homes, edges, root, i + 1, |sessions|);
        return Err(UnknownParent), edges;
      }
      var linked := edges';
      if edge !in edges' {
        var cycle := HasPath(edges', s, home);
        if cycle {
          assert RaisesCycle(sessions, homes, edges, root, i);
          RehomeStops(sessions, homes, edges, root, i + 1, |sessions|);
          return Err(WouldCycle), edges;
        }
        linked := edges' + [edge];
        changed := true;
      }
      edges' := Without(linked, rooted);
      if edges' != linked {
        changed := true;
      }
    }
    RehomeEdges(sessions, homes, edges, root, |sessions|);
    assert sessions[..|sessions|] == sessions;
    r := Ok(changed);
  }

  /** The home edge of Session `i` is missing at its turn, and the Session already reaches its home. */
  ghost predicate RaisesCycle(sessions: seq<nat>, homes: map<nat, nat>, edges: seq<Edge>, root: nat, i: nat)
    requires i < |sessions|
  {
    var before, s := Rehome(sessions, homes, edges, root, i), sessions[i];
    before.Some? && HasHome(homes, s) && Edge(homes[s], s) !in before.value && Reaches(before.value, s, homes[s])
  }

  lemma NoHome(sessions: seq<nat>, homes: map<nat, nat>, edges: seq<Edge>, root: nat, s: nat)
    requires !HasHome(homes, s)
    ensures Rehomed(sessions, homes, edges, root, s) == Some(edges)
  {
  }

  lemma OneRehomed(sessions: seq<nat>, homes: map<nat, nat>, edges: seq<Edge>, root: nat, s: nat)
    requires HasHome(homes, s)
    ensures
      var edge := Edge(homes[s], s);
      Rehomed(sessions, homes, edges, root, s) ==
        if homes[s] !in sessions || (edge !in edges && Reaches(edges, s, homes[s])) then None
        else Some(Without(if edge in edges then edges else edges + [edge], Edge(root, s)))
  {
  }

  // ---------------------------------------------------------------- root repair

  /** The root-reachability repair of `ensure_defaults`: every Session the root does not reach is
      linked under it. Afterwards the root reaches every Session; the repair creates a cycle exactly
      when some other Session reaches the root, which no edge into the root rules out. */
  method RepairRoot(sessions: seq<nat>, edges: seq<Edge>, root: nat) returns (edges': seq<Edge>)
    ensures edges <= edges'
    ensures forall e | e in edges'[|edges|..] ::
      e.parent == root && e.child in sessions && e.child != root && !Reaches(edges, root, e.child)
    ensures forall s | s in sessions :: Reaches(edges', root, s)
    ensures Acyclic(edges) ==>
      (Acyclic(edges') <==> forall s | s in sessions && s != root :: !Reaches(edges, s, root))
  {
    edges' := edges;
    ghost var bad := false;
    for i := 0 to |sessions|
      invariant edges <= edges'
      invariant forall e | e in edges'[|edges|..] ::
        e.parent == root && e.child in sessions[..i] && e.child != root && !Reaches(edges, root, e.child)
      invariant forall s | s in sessions[..i] :: Reaches(edges', root, s)
      invariant forall s :: Reaches(edges', s, root) <==> Reaches(edges, s, root)
      invariant Acyclic(edges) ==>
        (Acyclic(edges') <==> forall s | s in sessions[..i] && s != root :: !Reaches(edges, s, root))
    {
      var s := sessions[i];
      assert sessions[..i + 1] == sessions[..i] + [s];
      ReachesItself(edges', root);
      if s == root {
        continue;
      }
      var rooted := HasPath(edges', root, s);
      if rooted {
        if Reaches(edges, s, root) && Acyclic(edges) && Acyclic(edges') {
          RoundTripIsCycle(edges', root, s);
        }
        continue;
      }
      RepairStep(edges, edges', root, s, sessions[..i]);
      assert (edges' + [Edge(root, s)])[|edges|..] == edges'[|edges|..] + [Edge(root, s)];
      edges' := edges' + [Edge(root, s)];
    }
    assert sessions[..|sessions|] == sessions;
  }

  /** What the root repair may make of a graph over the Sessions below `n`. */
  ghost predicate RootRepaired(n: nat, edges: seq<Edge>, edges': seq<Edge>, root: nat) {
    && edges <= edges'
    && (forall e | e in edges'[|edges|..] ::
          e.parent == root && e.child < n && e.child != root && !Reaches(edges, root, e.child))
    && (forall s: nat | s < n :: Reaches(edges', root, s))
  }

  /** Edges out of the root lead nobody new to the root. */
  lemma {:induction false} RootEdgesAddNoWayBack(edges: seq<Edge>, added: seq<Edge>, root: nat, s: nat)
    requires forall e | e in added :: e.parent == root
    ensures Reaches(edges + added, s, root) <==> Reaches(edges, s, root)
  {
    if added == [] {
      assert edges + added == edges;
    } else {
      var e, rest := added[|added| - 1], added[..|added| - 1];
      assert forall f | f in rest :: f in added;
      assert e in added;
      assert edges + added == (edges + rest) + [e];
      RootEdgesAddNoWayBack(edges, rest, root, s);
      ReachesWithNewEdge(edges + rest, e, s, root);
    }
  }

  lemma {:induction false} RootEdgesStayAcyclic(edges: seq<Edge>, added: seq<Edge>, root: nat, n: nat)
    requires Acyclic(edges) && forall e | e in added :: e.parent == root && e.child < n && e.child != root
    requires forall s: nat | s < n && s != root :: !Reaches(edges, s, root)
    ensures Acyclic(edges + added)
  {
    if added == [] {
      assert edges + added == edges;
    } else {
      var e, rest := added[|added| - 1], added[..|added| - 1];
      assert forall f | f in rest :: f in added;
      assert e in added;
      assert edges + added == (edges + rest) + [e];
      RootEdgesStayAcyclic(edges, rest, root, n);
      RootEdgesAddNoWayBack(edges, rest, root, e.child);
      AcyclicWithNewEdge(edges + rest, e);
    }
  }

  /** A root repair keeps an acyclic graph acyclic exactly when no other Session reaches the root. */
  lemma RootRepairAcyclic(n: nat, edges: seq<Edge>, edges': seq<Edge>, root: nat)
    requires RootRepaired(n, edges, edges', root) && Acyclic(edges)
    ensures Acyclic(edges') <==> forall s: nat | s < n && s != root :: !Reaches(edges, s, root)
  {
    var added := edges'[|edges|..];
    assert edges' == edges + added;
    if forall s: nat | s < n && s != root :: !Reaches(edges, s, root) {
      RootEdgesStayAcyclic(edges, added, root, n);
    } else {
      var s: nat :| s < n && s != root && Reaches(edges, s, root);
      MoreEdgesReachMore(edges, edges', s, root);
      RoundTripIsCycle(edges', root, s);
    }
  }

  lemma RoundTripIsCycle(edges: seq<Edge>, a: nat, b: nat)
    requires a != b && Reaches(edges, a, b) && Reaches(edges, b, a)
    ensures !Acyclic(edges)
  {
    var walk :| IsWalk(edges, walk, a, b);
    var e := Edge(walk[0], walk[1]);
    assert e in edges;
    WalkTail(edges, walk, a, b);
    ReachesAlong(edges, walk[1], b, a);
  }

  lemma RepairStep(edges: seq<Edge>, edges': seq<Edge>, root: nat, s: nat, done: seq<nat>)
    requires s != root && edges <= edges' && !Reaches(edges', root, s)
    requires forall t :: Reaches(edges', t, root) <==> Reaches(edges, t, root)
    requires forall t | t in done :: Reaches(edges', root, t)
    requires Acyclic(edges) ==> (Acyclic(edges') <==> forall t | t in done && t != root :: !Reaches(edges, t, root))
    ensures !Reaches(edges, root, s)
    ensures Reaches(edges' + [Edge(root, s)], root, s)
    ensures forall t | t in done :: Reaches(edges' + [Edge(root, s)], root, t)
    ensures forall t :: Reaches(edges' + [Edge(root, s)], t, root) <==> Reaches(edges, t, root)
    ensures Acyclic(edges) ==>
      (Acyclic(edges' + [Edge(root, s)]) <==>
       forall t | t in done + [s] && t != root :: !Reaches(edges, t, root))
  {
    var e := Edge(root, s);
    if Reaches(edges, root, s) {
      MoreEdgesReachMore(edges, edges', root, s);
    }
    EdgeReaches(edges' + [e], e);
    forall t | t in done
      ensures Reaches(edges' + [e], root, t)
    {
      MoreEdgesReachMore(edges', edges' + [e], root, t);
    }
    forall t
      ensures Reaches(edges' + [e], t, root) <==> Reaches(edges, t, root)
    {
      ReachesWithNewEdge(edges', e, t, root);
    }
    if Acyclic(edges) {
      if Acyclic(edges') {
        AcyclicWithNewEdge(edges', e);
        assert s in done + [s];
      } else if Acyclic(edges' + [e]) {
        FewerEdgesStayAcyclic(edges', edges' + [e]);
      }
    }
  }

  lemma FewerEdgesStayAcyclic(edges: seq<Edge>, more: seq<Edge>)
    requires (forall e | e in edges :: e in more) && Acyclic(more)
    ensures Acyclic(edges)
  {
    forall e | e in edges
      ensures !Reaches(edges, e.child, e.parent)
    {
      if Reaches(edges, e.child, e.parent) {
        MoreEdgesReachMore(edges, more, e.child, e.parent);
      }
    }
  }

  /** When no edge enters the root, nothing else reaches it, so the repair stays acyclic. */
  lemma NothingReachesAnOpenRoot(edges: seq<Edge>, root: nat, s: nat)
    requires s != root && forall e | e in edges :: e.child != root
    ensures !Reaches(edges, s, root)
  {
    forall walk
      ensures !IsWalk(edges, walk, s, root)
    {
      if |walk| >= 2 && walk[|walk| - 1] == root {
        var last := |walk| - 2;
        assert Edge(walk[last], walk[last + 1]) !in edges;
      }
    }
  }

  // ---------------------------------------------------------------- distances

  ghost predicate AdjacencyWalk(adjacency: map<nat, seq<nat>>, walk: seq<nat>, from: nat, to: nat) {
    && walk != [] && walk[0] == from && walk[|walk| - 1] == to
    && forall i | 0 <= i < |walk| - 1 :: walk[i] in adjacency && walk[i + 1] in adjacency[walk[i]]
  }

  lemma {:induction false} RelaxedIsShortest(adjacency: map<nat, seq<nat>>, start: nat, d: map<nat, nat>,
                                             walk: seq<nat>, to: nat)
    requires start in d && d[start] == 0 && forall v | v in d :: StepsWithin(adjacency, d, v)
    requires AdjacencyWalk(adjacency, walk, start, to)
    ensures to in d && d[to] <= |walk| - 1
    decreases |walk|
  {
    if |walk| > 1 {
      var n := |walk| - 1;
      assert AdjacencyWalk(adjacency, walk[..n], start, walk[n - 1]);
      RelaxedIsShortest(adjacency, start, d, walk[..n], walk[n - 1]);
    }
  }

  function Reachables(adjacency: map<nat, seq<nat>>, start: nat): set<nat> {
    {start} + set v, w | v in adjacency && w in adjacency[v] :: w
  }

  /** The queue of the search: nodes in the order of their distances, which span at most two
      neighbouring values, with nothing known beyond them. */
  ghost predicate Layered(d: map<nat, nat>, pending: seq<nat>) {
    && (forall i | 0 <= i < |pending| :: pending[i] in d)
    && (forall i, j | 0 <= i <= j < |pending| :: d[pending[i]] <= d[pending[j]])
    && (pending != [] ==> forall v | v in d :: d[v] <= d[pending[0]] + 1)
  }

  ghost predicate WalkLengths(adjacency: map<nat, seq<nat>>, start: nat, d: map<nat, nat>) {
    forall v | v in d :: exists walk :: AdjacencyWalk(adjacency, walk, start, v) && |walk| == d[v] + 1
  }

  lemma ExtendWalk(adjacency: map<nat, seq<nat>>, start: nat, d: map<nat, nat>, v: nat, w: nat)
    requires WalkLengths(adjacency, start, d)
    requires v in d && v in adjacency && w in adjacency[v]
    ensures WalkLengths(adjacency, start, d[w := d[v] + 1])
  {
    var walk :| AdjacencyWalk(adjacency, walk, start, v) && |walk| == d[v] + 1;
    var longer := walk + [w];
    forall i | 0 <= i < |longer| - 1
      ensures longer[i] in adjacency && longer[i + 1] in adjacency[longer[i]]
    {
      if i < |walk| - 1 {
        assert walk[i] in adjacency && walk[i + 1] in adjacency[walk[i]];
      }
    }
    assert AdjacencyWalk(adjacency, longer, start, w);
  }

  /** `Layered` while the neighbours of a node at distance `next - 1` are being added. */
  ghost predicate Front(d: map<nat, nat>, pending: seq<nat>, next: nat) {
    && (forall i | 0 <= i < |pending| :: pending[i] in d && next - 1 <= d[pending[i]] <= next)
    && (forall i, j | 0 <= i <= j < |pending| :: d[pending[i]] <= d[pending[j]])
    && (forall v | v in d :: d[v] <= next)
  }

  /** Every step out of a node leads at most one further. */
  ghost predicate StepsWithin(adjacency: map<nat, seq<nat>>, d: map<nat, nat>, v: nat)
    requires v in d
  {
    v in adjacency ==> forall w | w in adjacency[v] :: w in d && d[w] <= d[v] + 1
  }

  lemma FrontExtends(d: map<nat, nat>, pending: seq<nat>, next: nat, w: nat)
    requires Front(d, pending, next) && w !in d
    ensures Front(d[w := next], pending + [w], next)
  {
  }

  lemma StepsStayWithin(adjacency: map<nat, seq<nat>>, d: map<nat, nat>, d': map<nat, nat>, v: nat)
    requires v in d && StepsWithin(adjacency, d, v)
    requires forall u | u in d :: u in d' && d'[u] == d[u]
    ensures StepsWithin(adjacency, d', v)
  {
  }

  /** Taking the head of the queue starts a front, and a front is a queue again. */
  lemma HeadStartsFront(d: map<nat, nat>, pending: seq<nat>)
    requires Layered(d, pending) && pending != []
    ensures Front(d, pending[1..], d[pending[0]] + 1)
  {
  }

  lemma FrontIsLayered(d: map<nat, nat>, pending: seq<nat>, next: nat)
    requires Front(d, pending, next)
    ensures Layered(d, pending)
  {
  }

  /** What the turn for `current` keeps while it goes through the neighbours. */
  ghost predicate Relaxing(adjacency: map<nat, seq<nat>>, start: nat, d: map<nat, nat>, pending: seq<nat>,
                           d': map<nat, nat>, pending': seq<nat>, current: nat)
    requires current in d
  {
    && (forall v | v in d :: v in d' && d'[v] == d[v])
    && d'.Keys <= Reachables(adjacency, start)
    && (d'.Keys == d.Keys ==> |pending'| == |pending|)
    && Front(d', pending', d[current] + 1) && WalkLengths(adjacency, start, d')
    && (forall v | v in d' && v !in pending' && v != current :: StepsWithin(adjacency, d', v))
  }

  lemma RelaxOne(adjacency: map<nat, seq<nat>>, start: nat, d: map<nat, nat>, pending: seq<nat>,
                 d': map<nat, nat>, pending': seq<nat>, current: nat, w: nat)
    requires current in d && Relaxing(adjacency, start, d, pending, d', pending', current)
    requires current in adjacency && w in adjacency[current] && w !in d'
    ensures Relaxing(adjacency, start, d, pending, d'[w := d[current] + 1], pending' + [w], current)
  {
    hide Front;
    hide WalkLengths;
    hide StepsWithin;
    var next := d[current] + 1;
    ExtendWalk(adjacency, start, d', current, w);
    FrontExtends(d', pending', next, w);
    var d'', pending'' := d'[w := next], pending' + [w];
    assert w in Reachables(adjacency, start);
    assert w in d'' && w !in d;
    forall v | v in d'' && v !in pending'' && v != current
      ensures StepsWithin(adjacency, d'', v)
    {
      assert w in pending'' && v != w && v !in pending';
      StepsStayWithin(adjacency, d', d'', v);
    }
  }

  lemma RelaxingBounds(adjacency: map<nat, seq<nat>>, start: nat, d: map<nat, nat>, pending: seq<nat>,
                       d': map<nat, nat>, pending': seq<nat>, current: nat)
    requires current in d && Relaxing(adjacency, start, d, pending, d', pending', current)
    ensures current in d' && d'[current] == d[current]
    ensures forall v | v in d' :: d'[v] <= d[current] + 1
  {
    hide WalkLengths;
    hide StepsWithin;
  }

  /** One turn of the worklist: give each neighbour of `current` a distance unless it already has one
      that is no longer. */
  method RelaxNeighbours(adjacency: map<nat, seq<nat>>, start: nat, d: map<nat, nat>, pending: seq<nat>,
                         current: nat)
    returns (d': map<nat, nat>, pending': seq<nat>)
    requires current in d && d.Keys <= Reachables(adjacency, start)
    requires Front(d, pending, d[current] + 1) && WalkLengths(adjacency, start, d)
    requires forall v | v in d && v !in pending && v != current :: StepsWithin(adjacency, d, v)
    ensures Relaxing(adjacency, start, d, pending, d', pending', current)
    ensures forall v | v in d' && v !in pending' :: StepsWithin(adjacency, d', v)
  {
    d', pending' := d, pending;
    hide Relaxing;
    hide Front;
    hide WalkLengths;
    hide StepsWithin;
    d', pending' := d, pending;
    var next := d[current] + 1;
    var adjacent := if current in adjacency then adjacency[current] else [];
    NothingRelaxed(adjacency, start, d, pending, current);
    for i := 0 to |adjacent|
      invariant Relaxing(adjacency, start, d, pending, d', pending', current)
      invariant forall j | 0 <= j < i :: adjacent[j] in d' && d'[adjacent[j]] <= next
    {
      RelaxingBounds(adjacency, start, d, pending, d', pending', current);
      var w := adjacent[i];
      if w in d' && d'[w] <= next {
        continue;
      }
      RelaxOne(adjacency, start, d, pending, d', pending', current, w);
      d', pending' := d'[w := next], pending' + [w];
    }
    RelaxingBounds(adjacency, start, d, pending, d', pending', current);
    CurrentIsRelaxed(adjacency, d', current, adjacent);
    RelaxingSteps(adjacency, start, d, pending, d', pending', current);
  }

  lemma NothingRelaxed(adjacency: map<nat, seq<nat>>, start: nat, d: map<nat, nat>, pending: seq<nat>, current: nat)
    requires current in d && d.Keys <= Reachables(adjacency, start)
    requires Front(d, pending, d[current] + 1) && WalkLengths(adjacency, start, d)
    requires forall v | v in d && v !in pending && v != current :: StepsWithin(adjacency, d, v)
    ensures Relaxing(adjacency, start, d, pending, d, pending, current)
  {
  }

  lemma RelaxingSteps(adjacency: map<nat, seq<nat>>, start: nat, d: map<nat, nat>, pending: seq<nat>,
                      d': map<nat, nat>, pending': seq<nat>, current: nat)
    requires current in d && Relaxing(adjacency, start, d, pending, d', pending', current)
    ensures forall v | v in d' && v !in pending' && v != current :: StepsWithin(adjacency, d', v)
  {
  }

  lemma CurrentIsRelaxed(adjacency: map<nat, seq<nat>>, d: map<nat, nat>, current: nat, adjacent: seq<nat>)
    requires current in d && adjacent == if current in adjacency then adjacency[current] else []
    requires forall j | 0 <= j < |adjacent| :: adjacent[j] in d && d[adjacent[j]] <= d[current] + 1
    ensures StepsWithin(adjacency, d, current)
  {
  }

  lemma SearchStarts(adjacency: map<nat, seq<nat>>, start: nat)
    ensures Layered(map[start := 0], [start]) && WalkLengths(adjacency, start, map[start := 0])
  {
    assert AdjacencyWalk(adjacency, [start], start, start);
  }

  lemma QueueIsKnown(d: map<nat, nat>, pending: seq<nat>)
    requires Layered(d, pending) && pending != []
    ensures pending[0] in d
  {
  }

  /** `_session_graph_distances`: the worklist terminates on every graph, cyclic or not; the result
      covers exactly the reachable Sessions, each with the length of a shortest walk. */
  method Distances(adjacency: map<nat, seq<nat>>, start: nat) returns (d: map<nat, nat>)
    ensures forall v :: v in d <==> exists walk :: AdjacencyWalk(adjacency, walk, start, v)
    ensures forall v | v in d :: exists walk :: AdjacencyWalk(adjacency, walk, start, v) && |walk| == d[v] + 1
    ensures forall v, walk | v in d && AdjacencyWalk(adjacency, walk, start, v) :: d[v] <= |walk| - 1
  {
    hide Layered;
    hide Front;
    hide StepsWithin;
    d := map[start := 0];
    var pending := [start];
    SearchStarts(adjacency, start);
    while pending != []
      invariant start in d && d[start] == 0 && d.Keys <= Reachables(adjacency, start)
      invariant Layered(d, pending) && WalkLengths(adjacency, start, d)
      invariant forall v | v in d && v !in pending :: StepsWithin(adjacency, d, v)
      decreases Reachables(adjacency, start) - d.Keys, |pending|
    {
      var current := pending[0];
      ghost var queued, known := pending, d;
      pending := pending[1..];
      assert forall v | v in queued :: v == current || v in pending;
      QueueIsKnown(d, queued);
      HeadStartsFront(d, queued);
      d, pending := RelaxNeighbours(adjacency, start, d, pending, current);
      FrontIsLayered(d, pending, known[current] + 1);
      assert known.Keys <= d.Keys;
    }
    forall v, walk | AdjacencyWalk(adjacency, walk, start, v)
      ensures v in d && d[v] <= |walk| - 1
    {
      RelaxedIsShortest(adjacency, start, d, walk, v);
    }
  }
}
