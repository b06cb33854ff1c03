// The engine's cycle check: a depth-first search that marks edges and answers
// True at the first edge it meets again.
module GraphValidator {
  import opened Relations
  import opened Tasks
  import opened Text

  type Graph = map<Id, seq<Id>>

  /** A graph as `_set_tasks` builds it: children are keys, ids contain no ':'. */
  ghost predicate WellFormed(g: Graph) {
    && (forall p, i :: p in g && 0 <= i < |g[p]| ==> g[p][i] in g)
    && (forall p :: p in g ==> ':' !in p)
  }

  ghost predicate RootsIn(g: Graph, roots: seq<Id>) {
    forall k :: 0 <= k < |roots| ==> roots[k] in g
  }

  function EdgeName(from: Id, to: Id): string {
    from + ":" + to
  }

  /** The strings stored in `traversed_edges` tell edges apart. */
  lemma {:induction false} EdgeNameInjective(f: Id, t: Id, f': Id, t': Id)
    requires ':' !in f && ':' !in f' && EdgeName(f, t) == EdgeName(f', t')
    ensures f == f' && t == t'
  {
    assert EdgeName(f, t) == f + [':'] + t && EdgeName(f', t') == f' + [':'] + t';
    FirstDelimiter(f, t, f', t', ':');
  }

  datatype LastStep = NoWalk | Step(from: Id, to: Id)

  /** A route names one walk of the search: the index of an initial task, whose
      first child is taken, followed by the index of the child taken at every
      further vertex. */
  type Route = seq<nat>

  /** The edge the walk named by `r` ends in, if `r` names a walk. */
  ghost function LastEdge(g: Graph, roots: seq<Id>, r: Route): LastStep {
    if |r| == 0 then NoWalk
    else if |r| == 1 then
      if r[0] < |roots| && roots[r[0]] in g && g[roots[r[0]]] != []
      then Step(roots[r[0]], g[roots[r[0]]][0])
      else NoWalk
    else
      match LastEdge(g, roots, r[..|r| - 1])
      case NoWalk => NoWalk
      case Step(_, v) => if v in g && r[|r| - 1] < |g[v]| then Step(v, g[v][r[|r| - 1]]) else NoWalk
  }

  /** Two different walks, each starting with an initial task's first child,
      end in the same edge. */
  ghost predicate RoutesMeet(g: Graph, roots: seq<Id>) {
    exists r: Route, q: Route ::
      r != q && LastEdge(g, roots, r).Step? && LastEdge(g, roots, r) == LastEdge(g, roots, q)
  }

  ghost function EdgesOf(g: Graph): set<LastStep> {
    set p, c | p in g && c in g[p] :: Step(p, c)
  }

  lemma {:induction false} LastEdgeIsEdge(g: Graph, roots: seq<Id>, r: Route)
    requires WellFormed(g) && LastEdge(g, roots, r).Step?
    ensures LastEdge(g, roots, r) in EdgesOf(g) && LastEdge(g, roots, r).to in g && ':' !in LastEdge(g, roots, r).from
  {
    if |r| > 1 {
      LastEdgeIsEdge(g, roots, r[..|r| - 1]);
    }
  }

  lemma {:induction false} Extend(g: Graph, roots: seq<Id>, r: Route, j: nat)
    requires LastEdge(g, roots, r).Step? && LastEdge(g, roots, r).to in g
    ensures var v := LastEdge(g, roots, r).to;
            LastEdge(g, roots, r + [j]) == if j < |g[v]| then Step(v, g[v][j]) else NoWalk
  {
    assert (r + [j])[..|r + [j]| - 1] == r;
  }

  /** `edges` holds the names of the edges met along `routes`, no name twice. */
  ghost predicate Recorded(g: Graph, roots: seq<Id>, routes: seq<Route>, edges: seq<string>) {
    && |routes| == |edges| && Distinct(edges)
    && forall i :: 0 <= i < |routes| ==> Labels(g, roots, routes[i], edges[i])
  }

  ghost predicate Labels(g: Graph, roots: seq<Id>, r: Route, name: string) {
    var e := LastEdge(g, roots, r);
    e.Step? && name == EdgeName(e.from, e.to)
  }

  ghost function Met(g: Graph, roots: seq<Id>, routes: seq<Route>): set<LastStep> {
    set r | r in routes :: LastEdge(g, roots, r)
  }

  /** Every walk that continues `q` by one edge is in `routes`. */
  ghost predicate Expanded(g: Graph, roots: seq<Id>, routes: seq<Route>, q: Route) {
    forall j: nat :: LastEdge(g, roots, q + [j]).Step? ==> q + [j] in routes
  }

  lemma {:induction false} MarkedAgain(g: Graph, roots: seq<Id>, routes: seq<Route>, edges: seq<string>, r: Route)
    requires WellFormed(g) && Recorded(g, roots, routes, edges)
    requires LastEdge(g, roots, r).Step? && r !in routes
    requires EdgeName(LastEdge(g, roots, r).from, LastEdge(g, roots, r).to) in edges
    ensures RoutesMeet(g, roots)
  {
    var e := LastEdge(g, roots, r);
    var i :| 0 <= i < |edges| && edges[i] == EdgeName(e.from, e.to);
    assert Labels(g, roots, routes[i], edges[i]);
    LastEdgeIsEdge(g, roots, r);
    LastEdgeIsEdge(g, roots, routes[i]);
    var e' := LastEdge(g, roots, routes[i]);
    EdgeNameInjective(e.from, e.to, e'.from, e'.to);
    assert routes[i] != r;
  }

  lemma {:induction false} MarkedFirst(g: Graph, roots: seq<Id>, routes: seq<Route>, edges: seq<string>, r: Route)
    requires WellFormed(g) && Recorded(g, roots, routes, edges)
    requires LastEdge(g, roots, r).Step?
    requires EdgeName(LastEdge(g, roots, r).from, LastEdge(g, roots, r).to) !in edges
    ensures Recorded(g, roots, routes + [r], edges + [EdgeName(LastEdge(g, roots, r).from, LastEdge(g, roots, r).to)])
    ensures LastEdge(g, roots, r) in EdgesOf(g) - Met(g, roots, routes)
    ensures Met(g, roots, routes + [r]) == Met(g, roots, routes) + {LastEdge(g, roots, r)}
  {
    var e := LastEdge(g, roots, r);
    LastEdgeIsEdge(g, roots, r);
    assert forall q :: q in routes ==> exists i :: 0 <= i < |routes| && routes[i] == q && Labels(g, roots, q, edges[i]);
  }

  /** Everything met since `earlier` lies at or below `r`, and is fully explored
      except for `r` itself, whose first `j` children have been tried. */
  ghost predicate Below(g: Graph, roots: seq<Id>, earlier: seq<Route>, routes: seq<Route>, r: Route, j: nat) {
    && (forall q :: q in routes ==>
          q in earlier || q == r || (r < q && q[|r|] < j && Expanded(g, roots, routes, q)))
    && (forall k: nat :: k < j ==> r + [k] in routes)
  }

  ghost predicate Explored(g: Graph, roots: seq<Id>, earlier: seq<Route>, routes: seq<Route>, r: Route) {
    r in routes && forall q :: q in routes ==> q in earlier || (r <= q && Expanded(g, roots, routes, q))
  }

  ghost predicate Unvisited(routes: seq<Route>, r: Route) {
    forall q :: q in routes ==> !(r <= q)
  }

  lemma {:induction false} ChildUnvisited(g: Graph, roots: seq<Id>, earlier: seq<Route>, routes: seq<Route>, r: Route, j: nat)
    requires Unvisited(earlier, r) && Below(g, roots, earlier, routes, r, j)
    ensures Unvisited(routes, r + [j])
  {
    assert r <= r + [j] && (r + [j])[|r|] == j;
  }

  lemma {:induction false} ChildExplored(g: Graph, roots: seq<Id>, earlier: seq<Route>, sofar: seq<Route>, routes: seq<Route>, r: Route, j: nat)
    requires Below(g, roots, earlier, sofar, r, j) && sofar <= routes
    requires Explored(g, roots, sofar, routes, r + [j])
    ensures Below(g, roots, earlier, routes, r, j + 1)
  {
    forall q | q in routes && q !in earlier && q != r
      ensures r < q && q[|r|] < j + 1 && Expanded(g, roots, routes, q)
    {
      if q !in sofar {
        assert r + [j] <= q;
        assert (r + [j])[|r|] == j;
      }
    }
  }

  lemma {:induction false} AllChildrenTried(g: Graph, roots: seq<Id>, earlier: seq<Route>, routes: seq<Route>, r: Route)
    requires LastEdge(g, roots, r).Step? && LastEdge(g, roots, r).to in g && r in routes
    requires Below(g, roots, earlier, routes, r, |g[LastEdge(g, roots, r).to]|)
    ensures Explored(g, roots, earlier, routes, r)
  {
    forall k: nat | LastEdge(g, roots, r + [k]).Step? ensures r + [k] in routes {
      Extend(g, roots, r, k);
    }
  }

  /** All routes that start at one of the first `k` initial tasks have been met. */
  ghost predicate RootsDone(g: Graph, roots: seq<Id>, routes: seq<Route>, k: nat) {
    && (forall q :: q in routes ==> |q| > 0 && q[0] < k && Expanded(g, roots, routes, q))
    && (forall i: nat :: i < k && LastEdge(g, roots, [i]).Step? ==> [i] in routes)
  }

  lemma {:induction false} EveryRouteMet(g: Graph, roots: seq<Id>, routes: seq<Route>, r: Route)
    requires RootsDone(g, roots, routes, |roots|) && LastEdge(g, roots, r).Step?
    ensures r in routes
  {
    if |r| == 1 {
      assert r == [r[0]];
    } else {
      var q := r[..|r| - 1];
      EveryRouteMet(g, roots, routes, q);
      assert q + [r[|r| - 1]] == r;
    }
  }

  lemma {:induction false} RootUnvisited(g: Graph, roots: seq<Id>, routes: seq<Route>, k: nat)
    requires RootsDone(g, roots, routes, k)
    ensures Unvisited(routes, [k])
  {
    forall q | q in routes ensures !([k] <= q) {
      assert q[0] != [k][0];
    }
  }

  lemma {:induction false} RootExplored(g: Graph, roots: seq<Id>, sofar: seq<Route>, routes: seq<Route>, k: nat)
    requires RootsDone(g, roots, sofar, k) && sofar <= routes && Explored(g, roots, sofar, routes, [k])
    ensures RootsDone(g, roots, routes, k + 1)
  {
    forall q | q in routes ensures |q| > 0 && q[0] < k + 1 && Expanded(g, roots, routes, q) {
      if q !in sofar {
        assert [k] <= q;
        assert [k][0] == k;
      }
    }
  }

  lemma {:induction false} NoMeetingLeft(g: Graph, roots: seq<Id>, routes: seq<Route>, edges: seq<string>)
    requires Recorded(g, roots, routes, edges) && RootsDone(g, roots, routes, |roots|)
    ensures !RoutesMeet(g, roots)
  {
    forall r: Route, q: Route | LastEdge(g, roots, r).Step? && LastEdge(g, roots, r) == LastEdge(g, roots, q)
      ensures r == q
    {
      EveryRouteMet(g, roots, routes, r);
      EveryRouteMet(g, roots, routes, q);
      var i :| 0 <= i < |routes| && routes[i] == r;
      var j :| 0 <= j < |routes| && routes[j] == q;
      assert Labels(g, roots, routes[i], edges[i]) && Labels(g, roots, routes[j], edges[j]);
    }
  }

  class Validator {
    var traversedEdges: seq<string>
    var dependencyMap: Graph
    ghost var roots: seq<Id>
    /** The route along which each edge in `traversedEdges` was met. */
    ghost var routes: seq<Route>

    constructor ()
      ensures traversedEdges == [] && routes == []
    {
      traversedEdges, routes, dependencyMap := [], [], map[];
    }

    ghost predicate Valid()
      reads this
    {
      WellFormed(dependencyMap) && RootsIn(dependencyMap, roots) && Recorded(dependencyMap, roots, routes, traversedEdges)
    }

    /** The search below one edge. It stops because the edges not met yet shrink. */
    method Traverse(to: Id, from: Id, ghost r: Route) returns (found: bool)
      requires Valid() && LastEdge(dependencyMap, roots, r) == Step(from, to)
      requires Unvisited(routes, r)
      modifies this`traversedEdges, this`routes
      ensures Valid() && old(routes) <= routes
      ensures found ==> RoutesMeet(dependencyMap, roots)
      ensures !found ==> Explored(dependencyMap, roots, old(routes), routes, r)
      decreases EdgesOf(dependencyMap) - Met(dependencyMap, roots, routes)
    {
      ghost var g, rs, earlier := dependencyMap, roots, routes;
      var edge := EdgeName(from, to);
      if edge in traversedEdges {
        MarkedAgain(g, rs, routes, traversedEdges, r);
        return true;
      }
      MarkedFirst(g, rs, routes, traversedEdges, r);
      LastEdgeIsEdge(g, rs, r);
      traversedEdges := traversedEdges + [edge];
      routes := routes + [r];
      ghost var met := Met(g, rs, routes);
      var dependencies := dependencyMap[to];
      var j := 0;
      while j < |dependencies|
        invariant 0 <= j <= |dependencies|
        invariant Valid() && earlier + [r] <= routes && met <= Met(g, rs, routes)
        invariant Below(g, rs, earlier, routes, r, j)
      {
        Extend(g, rs, r, j);
        ChildUnvisited(g, rs, earlier, routes, r, j);
        ghost var sofar := routes;
        var hasCycle := Traverse(dependencies[j], to, r + [j]);
        if hasCycle {
          return true;
        }
        ChildExplored(g, rs, earlier, sofar, routes, r, j);
        j := j + 1;
      }
      assert routes[|earlier|] == r;
      AllChildrenTried(g, rs, earlier, routes, r);
      return false;
    }

    /** The answer is True exactly when two different walks meet in an edge. */
    method HasCycle(taskDependencyMap: Graph, initialTaskIds: seq<Id>) returns (found: bool)
      requires WellFormed(taskDependencyMap) && RootsIn(taskDependencyMap, initialTaskIds)
      requires traversedEdges == [] && routes == []
      modifies this
      ensures found <==> RoutesMeet(taskDependencyMap, initialTaskIds)
    {
      dependencyMap, roots := taskDependencyMap, initialTaskIds;
      ghost var g, rs := dependencyMap, roots;
      var k := 0;
      while k < |initialTaskIds|
        invariant 0 <= k <= |initialTaskIds|
        invariant dependencyMap == taskDependencyMap == g && roots == initialTaskIds == rs && Valid()
        invariant RootsDone(g, rs, routes, k)
      {
        var id := initialTaskIds[k];
        RootUnvisited(g, rs, routes, k);
        ghost var sofar := routes;
        if |dependencyMap[id]| > 0 {
          var hasCycle := Traverse(dependencyMap[id][0], id, [k]);
          if hasCycle {
            return true;
          }
          RootExplored(g, rs, sofar, routes, k);
        }
        k := k + 1;
      }
      NoMeetingLeft(g, rs, routes, traversedEdges);
      return false;
    }
  }

  // What that answer means for cycles.

  ghost function ChildEdges(g: Graph): set<(Id, Id)> {
    set p, c | p in g && c in g[p] :: (p, c)
  }

  lemma {:induction false} ExtendAlong(g: Graph, roots: seq<Id>, r: Route, w: seq<Id>) returns (q: Route)
    requires WellFormed(g) && LastEdge(g, roots, r).Step? && Walk(ChildEdges(g), w) && LastEdge(g, roots, r).to == w[0]
    ensures r <= q && |q| == |r| + |w| - 1
    ensures LastEdge(g, roots, q).Step? && LastEdge(g, roots, q).to == w[|w| - 1]
    ensures |w| > 1 ==> LastEdge(g, roots, q).from == w[|w| - 2]
  {
    if |w| == 1 {
      q := r;
    } else {
      var v := w[..|w| - 1];
      var q' := ExtendAlong(g, roots, r, v);
      assert (w[|w| - 2], w[|w| - 1]) in ChildEdges(g);
      var j :| 0 <= j < |g[w[|w| - 2]]| && g[w[|w| - 2]][j] == w[|w| - 1];
      Extend(g, roots, q', j);
      q := q' + [j];
    }
  }

  /** A cycle through a vertex the search can reach is always reported. */
  lemma {:induction false} CycleReported(g: Graph, roots: seq<Id>, r: Route, w: seq<Id>)
    requires WellFormed(g) && LastEdge(g, roots, r).Step?
    requires ClosedWalk(ChildEdges(g), w) && w[0] == LastEdge(g, roots, r).to
    ensures RoutesMeet(g, roots)
  {
    var once := ExtendAlong(g, roots, r, w[..2]);
    var around := ExtendAlong(g, roots, r, w);
    var twice := ExtendAlong(g, roots, around, w[..2]);
    assert once != twice && LastEdge(g, roots, once) == LastEdge(g, roots, twice);
  }

  /** The entry of the dependency map a route takes last: a parent and a position in its child list. */
  ghost function LastEntry(g: Graph, roots: seq<Id>, r: Route): (Id, nat)
    requires LastEdge(g, roots, r).Step?
  {
    (LastEdge(g, roots, r).from, if |r| == 1 then 0 else r[|r| - 1])
  }

  /** The search reaches one task through two entries, and the task has children
      or the entries repeat each other under one parent. */
  ghost predicate ExploredJoin(g: Graph, roots: seq<Id>) {
    exists r: Route, q: Route :: JoinAt(g, roots, r, q)
  }

  ghost predicate JoinAt(g: Graph, roots: seq<Id>, r: Route, q: Route) {
    && LastEdge(g, roots, r).Step? && LastEdge(g, roots, q).Step?
    && LastEntry(g, roots, r) != LastEntry(g, roots, q)
    && LastEdge(g, roots, r).to == LastEdge(g, roots, q).to
    && var v := LastEdge(g, roots, r).to;
       LastEdge(g, roots, r).from == LastEdge(g, roots, q).from || (v in g && g[v] != [])
  }

  /** Initial tasks as `_get_initial_tasks` finds them: pairwise different and nobody's child. */
  ghost predicate ProperRoots(g: Graph, roots: seq<Id>) {
    Distinct(roots) && forall p, i :: p in g && 0 <= i < |g[p]| ==> g[p][i] !in roots
  }

  lemma {:induction false} MeetingNeedsJoin(g: Graph, roots: seq<Id>, r: Route, q: Route)
    requires WellFormed(g) && ProperRoots(g, roots)
    requires r != q && LastEdge(g, roots, r).Step? && LastEdge(g, roots, r) == LastEdge(g, roots, q)
    ensures ExploredJoin(g, roots)
    decreases |r|
  {
    if LastEntry(g, roots, r) == LastEntry(g, roots, q) {
      SameEntryLonger(g, roots, r, q);
      var r', q' := r[..|r| - 1], q[..|q| - 1];
      if LastEdge(g, roots, r') == LastEdge(g, roots, q') {
        MeetingNeedsJoin(g, roots, r', q');
      } else {
        assert JoinAt(g, roots, r', q');
      }
    } else {
      assert JoinAt(g, roots, r, q);
    }
  }

  /** Different routes into one entry have gone further than an initial task, and differ before that entry. */
  lemma {:induction false} SameEntryLonger(g: Graph, roots: seq<Id>, r: Route, q: Route)
    requires WellFormed(g) && ProperRoots(g, roots) && r != q && LastEdge(g, roots, r).Step?
    requires LastEdge(g, roots, r) == LastEdge(g, roots, q) && LastEntry(g, roots, r) == LastEntry(g, roots, q)
    ensures |r| > 1 && |q| > 1
    ensures var r', q' := r[..|r| - 1], q[..|q| - 1];
      && r' != q' && LastEdge(g, roots, r').Step? && LastEdge(g, roots, q').Step?
      && LastEdge(g, roots, r').to == LastEdge(g, roots, q').to == LastEdge(g, roots, r).from
      && var v := LastEdge(g, roots, r').to; v in g && g[v] != []
  {
    if |r| > 1 {
      LastEdgeIsEdge(g, roots, r[..|r| - 1]);
      assert r == r[..|r| - 1] + [r[|r| - 1]];
    }
    if |q| > 1 {
      LastEdgeIsEdge(g, roots, q[..|q| - 1]);
      assert q == q[..|q| - 1] + [q[|q| - 1]];
    }
    NotARoot(g, roots, r);
    NotARoot(g, roots, q);
  }

  /** A route is one initial task, or its last edge starts at no initial task. */
  lemma {:induction false} NotARoot(g: Graph, roots: seq<Id>, r: Route)
    requires WellFormed(g) && ProperRoots(g, roots) && LastEdge(g, roots, r).Step?
    ensures if |r| == 1 then r[0] < |roots| && LastEdge(g, roots, r).from == roots[r[0]] else LastEdge(g, roots, r).from !in roots
  {
    if |r| > 1 {
      LastEdgeIsEdge(g, roots, r[..|r| - 1]);
    }
  }

  /** For initial tasks found by the engine, True means precisely that the search
      ran into a join: a task with children and two explored parent entries, or a
      repeated entry. It is neither implied by nor implies a cycle as such. */
  lemma {:induction false} MeetIffJoin(g: Graph, roots: seq<Id>)
    requires WellFormed(g) && ProperRoots(g, roots)
    ensures RoutesMeet(g, roots) <==> ExploredJoin(g, roots)
  {
    if r: Route, q: Route :| r != q && LastEdge(g, roots, r).Step? && LastEdge(g, roots, r) == LastEdge(g, roots, q) {
      MeetingNeedsJoin(g, roots, r, q);
    }
    if ExploredJoin(g, roots) {
      var r: Route, q: Route :| JoinAt(g, roots, r, q);
      if LastEdge(g, roots, r).from != LastEdge(g, roots, q).from {
        Extend(g, roots, r, 0);
        Extend(g, roots, q, 0);
        assert (r + [0])[..|r|] == r && (q + [0])[..|q|] == q;
        assert r + [0] != q + [0];
      }
    }
  }

  /** The search comes to `v` from the first child of an initial task. */
  ghost predicate Entered(g: Graph, roots: seq<Id>, v: Id) {
    exists k :: 0 <= k < |roots| && roots[k] in g && g[roots[k]] != [] && Reaches(ChildEdges(g), g[roots[k]][0], v)
  }

  /** The search follows the entry at position `i` of the children of `p`: of an
      initial task only the first, of a task it comes to every one. */
  ghost predicate Followed(g: Graph, roots: seq<Id>, p: Id, i: nat) {
    p in g && i < |g[p]| && ((p in roots && i == 0) || Entered(g, roots, p))
  }

  /** Two different entries that are followed lead to one task, and share the parent or the task has children. */
  ghost predicate JoinsAt(g: Graph, roots: seq<Id>, p: Id, i: nat, q: Id, j: nat) {
    && Followed(g, roots, p, i) && Followed(g, roots, q, j) && (p, i) != (q, j) && g[p][i] == g[q][j]
    && (p == q || (g[p][i] in g && g[g[p][i]] != []))
  }

  ghost predicate HasJoin(g: Graph, roots: seq<Id>) {
    exists p: Id, i: nat, q: Id, j: nat :: JoinsAt(g, roots, p, i, q, j)
  }

  lemma {:induction false} RouteEnters(g: Graph, roots: seq<Id>, r: Route)
    requires LastEdge(g, roots, r).Step?
    ensures Entered(g, roots, LastEdge(g, roots, r).to)
  {
    if |r| == 1 {
      ReachesItself(ChildEdges(g), g[roots[r[0]]][0]);
    } else {
      var r' := r[..|r| - 1];
      RouteEnters(g, roots, r');
      var u, v := LastEdge(g, roots, r').to, LastEdge(g, roots, r).to;
      var k :| 0 <= k < |roots| && roots[k] in g && g[roots[k]] != [] && Reaches(ChildEdges(g), g[roots[k]][0], u);
      assert (u, v) in ChildEdges(g);
      ReachesFurther(ChildEdges(g), g[roots[k]][0], u, v);
    }
  }

  lemma {:induction false} RouteFollows(g: Graph, roots: seq<Id>, r: Route)
    requires LastEdge(g, roots, r).Step?
    ensures var (p, i) := LastEntry(g, roots, r); Followed(g, roots, p, i) && g[p][i] == LastEdge(g, roots, r).to
  {
    if |r| > 1 {
      RouteEnters(g, roots, r[..|r| - 1]);
    }
  }

  lemma {:induction false} FollowedByRoute(g: Graph, roots: seq<Id>, p: Id, i: nat) returns (r: Route)
    requires WellFormed(g) && Followed(g, roots, p, i)
    ensures LastEdge(g, roots, r) == Step(p, g[p][i]) && LastEntry(g, roots, r) == (p, i)
  {
    if p in roots && i == 0 {
      var k :| 0 <= k < |roots| && roots[k] == p;
      r := [k];
    } else {
      var k :| 0 <= k < |roots| && roots[k] in g && g[roots[k]] != [] && Reaches(ChildEdges(g), g[roots[k]][0], p);
      var w :| WalkBetween(ChildEdges(g), w, g[roots[k]][0], p);
      assert LastEdge(g, roots, [k]).Step?;
      var q := ExtendAlong(g, roots, [k], w);
      Extend(g, roots, q, i);
      r := q + [i];
    }
  }

  /** The answer in terms of the graph alone: True exactly when, among the entries
      the search follows, two different ones lead to one task and share their
      parent or the task has children. */
  lemma {:induction false} MeetIffHasJoin(g: Graph, roots: seq<Id>)
    requires WellFormed(g) && ProperRoots(g, roots)
    ensures RoutesMeet(g, roots) <==> HasJoin(g, roots)
  {
    MeetIffJoin(g, roots);
    if r: Route, q: Route :| JoinAt(g, roots, r, q) {
      RouteFollows(g, roots, r);
      RouteFollows(g, roots, q);
      var (p, i) := LastEntry(g, roots, r);
      var (p', j) := LastEntry(g, roots, q);
      assert JoinsAt(g, roots, p, i, p', j);
    }
    if p: Id, i: nat, p': Id, j: nat :| JoinsAt(g, roots, p, i, p', j) {
      var r := FollowedByRoute(g, roots, p, i);
      var q := FollowedByRoute(g, roots, p', j);
      assert JoinAt(g, roots, r, q);
    }
  }

  /** A forest, where no task is listed twice as a child, is never reported. */
  lemma {:induction false} ForestAccepted(g: Graph, roots: seq<Id>)
    requires WellFormed(g) && ProperRoots(g, roots)
    requires forall p, i, p', i' :: p in g && p' in g && 0 <= i < |g[p]| && 0 <= i' < |g[p']| && g[p][i] == g[p'][i'] ==> p == p' && i == i'
    ensures !RoutesMeet(g, roots)
  {
    MeetIffJoin(g, roots);
    forall r: Route, q: Route | LastEdge(g, roots, r).Step? && LastEdge(g, roots, q).Step? && LastEdge(g, roots, r).to == LastEdge(g, roots, q).to
      ensures LastEntry(g, roots, r) == LastEntry(g, roots, q)
    {
      EntryLeadsTo(g, roots, r);
      EntryLeadsTo(g, roots, q);
    }
  }

  lemma {:induction false} EntryLeadsTo(g: Graph, roots: seq<Id>, r: Route)
    requires LastEdge(g, roots, r).Step?
    ensures var (p, i) := LastEntry(g, roots, r); p in g && i < |g[p]| && g[p][i] == LastEdge(g, roots, r).to
  {
  }

  /** Two initial tasks joining before a third is reported although nothing is cyclic. */
  lemma {:induction false} JoinReportedAsCycle()
    ensures var g := map["a" := ["c"], "b" := ["c"], "c" := ["d"], "d" := []];
            WellFormed(g) && ProperRoots(g, ["a", "b"]) && RoutesMeet(g, ["a", "b"]) && !Cyclic(ChildEdges(g))
  {
    var g := map["a" := ["c"], "b" := ["c"], "c" := ["d"], "d" := []];
    var roots := ["a", "b"];
    assert LastEdge(g, roots, [0]) == Step("a", "c") && LastEdge(g, roots, [1]) == Step("b", "c");
    Extend(g, roots, [0], 0);
    Extend(g, roots, [1], 0);
    assert [0] + [0] != [1] + [0] by { assert ([0] + [0])[0] != ([1] + [0])[0]; }
    RankedNotCyclic(ChildEdges(g), map["a" := 0, "b" := 0, "c" := 1, "d" := 2]);
  }

  /** A cycle behind the second child of an initial task is never seen. */
  lemma {:induction false} CycleMissed()
    ensures var g := map["a" := ["b", "c"], "b" := [], "c" := ["d"], "d" := ["c"]];
            WellFormed(g) && !RoutesMeet(g, ["a"]) && Cyclic(ChildEdges(g))
  {
    var g := map["a" := ["b", "c"], "b" := [], "c" := ["d"], "d" := ["c"]];
    assert ClosedWalk(ChildEdges(g), ["c", "d", "c"]);
    forall r: Route | LastEdge(g, ["a"], r).Step? ensures r == [0] {
      OnlyFirstChild(g, r);
    }
  }

  lemma {:induction false} OnlyFirstChild(g: Graph, r: Route)
    requires g == map["a" := ["b", "c"], "b" := [], "c" := ["d"], "d" := ["c"]]
    ensures LastEdge(g, ["a"], r).Step? ==> r == [0]
  {
    assert LastEdge(g, ["a"], [0]) == Step("a", "b");
    if |r| > 1 {
      OnlyFirstChild(g, r[..|r| - 1]);
    }
  }
}
