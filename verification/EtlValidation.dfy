// What the engine's validator makes of a generated ETL pipeline. It follows only the
// first child of an initial task, so the order in which the tasks arrive matters.
module EtlValidation {
  import opened Relations
  import opened Tasks
  import opened GraphValidator
  import opened DependencyGraph
  import opened EtlPipeline

  // Two graphs that differ in the chain of jobs only.

  /** `G` is `H` but for what it lists under the manifests and the jobs, and has no further initial tasks. */
  ghost predicate Grown(G: Graph, R: seq<Id>, H: Graph, Q: seq<Id>) {
    && WellFormed(G) && ProperRoots(G, R) && RootsIn(G, R) && GEN in R
    && WellFormed(H) && RootsIn(H, Q) && GEN in H
    && (forall r :: r in R ==> r in Q) && Agree(G, H)
  }

  ghost predicate Agree(G: Graph, H: Graph) {
    forall p :: p in H ==> p in G && (p != GEN ==> G[p] == H[p])
  }

  /** A walk that starts in `H`, but not at the manifests, stays in it. */
  lemma {:induction false} WalkInside(G: Graph, R: seq<Id>, H: Graph, Q: seq<Id>, w: seq<Id>)
    requires Grown(G, R, H, Q) && Walk(ChildEdges(G), w) && w[0] in H && w[0] != GEN
    ensures Walk(ChildEdges(H), w) && w[|w| - 1] in H && w[|w| - 1] != GEN
  {
    if |w| > 1 {
      var v := w[..|w| - 1];
      WalkInside(G, R, H, Q, v);
      var p, c := w[|w| - 2], w[|w| - 1];
      assert (p, c) in ChildEdges(G);
      assert c in H[p] && c in H && c != GEN;
      assert (p, c) in ChildEdges(H);
      forall i | 0 <= i < |w| - 1 ensures (w[i], w[i + 1]) in ChildEdges(H) {
        assert i < |v| - 1 ==> (v[i], v[i + 1]) in ChildEdges(H);
      }
    }
  }

  lemma {:induction false} EnteredInside(G: Graph, R: seq<Id>, H: Graph, Q: seq<Id>, r: Id, v: Id)
    requires Grown(G, R, H, Q) && r in R && G[r] != [] && Reaches(ChildEdges(G), G[r][0], v)
    requires r in Q && r in H && H[r] != [] && G[r][0] == H[r][0]
    ensures Entered(H, Q, v) && v in H && v != GEN
  {
    var w :| WalkBetween(ChildEdges(G), w, G[r][0], v);
    assert G[r][0] in H && G[r][0] != GEN;
    WalkInside(G, R, H, Q, w);
    assert WalkBetween(ChildEdges(H), w, H[r][0], v);
    var k :| 0 <= k < |Q| && Q[k] == r;
    assert Q[k] in H && H[Q[k]] != [] && Reaches(ChildEdges(H), H[Q[k]][0], v);
  }

  /** An initial task other than the manifests begins in `H` as in `G`. */
  lemma {:induction false} OtherRoot(G: Graph, R: seq<Id>, H: Graph, Q: seq<Id>, r: Id)
    requires Grown(G, R, H, Q) && r in R && r != GEN
    ensures r in Q && r in H && G[r] == H[r]
  {
    var k :| 0 <= k < |Q| && Q[k] == r;
  }

  // The manifests have a template task as their first child.

  ghost predicate SameStart(G: Graph, H: Graph) {
    GEN in G && GEN in H && G[GEN] != [] && H[GEN] != [] && G[GEN][0] == H[GEN][0]
  }

  lemma {:induction false} FollowedInside(G: Graph, R: seq<Id>, H: Graph, Q: seq<Id>, p: Id, i: nat)
    requires Grown(G, R, H, Q) && SameStart(G, H) && Followed(G, R, p, i)
    ensures Followed(H, Q, p, i) && H[p][i] == G[p][i]
  {
    if p in R && i == 0 {
      if p != GEN { OtherRoot(G, R, H, Q, p); }
    } else {
      var k :| 0 <= k < |R| && R[k] in G && G[R[k]] != [] && Reaches(ChildEdges(G), G[R[k]][0], p);
      if R[k] != GEN { OtherRoot(G, R, H, Q, R[k]); }
      EnteredInside(G, R, H, Q, R[k], p);
    }
  }

  /** Then the search sees nothing of the chain, and joins only where it would in the template. */
  lemma {:induction false} JoinInside(G: Graph, R: seq<Id>, H: Graph, Q: seq<Id>)
    requires Grown(G, R, H, Q) && SameStart(G, H) && HasJoin(G, R)
    ensures HasJoin(H, Q)
  {
    var p: Id, i: nat, q: Id, j: nat :| JoinsAt(G, R, p, i, q, j);
    FollowedInside(G, R, H, Q, p, i);
    FollowedInside(G, R, H, Q, q, j);
    var v := G[p][i];
    assert v in H && v != GEN;
    assert JoinsAt(H, Q, p, i, q, j);
  }

  // The manifests have the first job as their first child, and nothing comes after the reduce task.

  /** Every vertex is a job or in `H`, and not both. */
  ghost predicate Apart(G: Graph, H: Graph, n: nat) {
    && (forall p :: p in G ==> p in H || IsJob(p, n))
    && (forall p :: p in H ==> !IsJob(p, n))
  }

  /** Jobs lead to different tasks, each a job or the reduce task. */
  ghost predicate JobsLeadOn(G: Graph, n: nat) {
    && (forall p, i :: p in G && IsJob(p, n) && 0 <= i < |G[p]| ==> IsJob(G[p][i], n) || G[p][i] == REDUCE)
    && (forall p :: p in G && IsJob(p, n) ==> Distinct(G[p]))
  }

  /** A job is entered from the one before it only. */
  ghost predicate JobsFollow(G: Graph, n: nat) {
    forall p, i, k :: p in G && 0 <= i < |G[p]| && 1 <= k <= n && G[p][i] == JobId(k) ==> p == Before(k)
  }

  /** The chain, hung into the template. */
  ghost predicate Chained(G: Graph, H: Graph, n: nat) {
    && n >= 1 && GEN in G && G[GEN] != [] && G[GEN][0] == JobId(1)
    && REDUCE in H && REDUCE in G && REDUCE != GEN && G[REDUCE] == []
    && Apart(G, H, n) && JobsLeadOn(G, n) && JobsFollow(G, n)
  }

  lemma {:induction false} ChainWalkStays(G: Graph, H: Graph, n: nat, w: seq<Id>)
    requires Chained(G, H, n) && Walk(ChildEdges(G), w) && IsJob(w[0], n)
    ensures IsJob(w[|w| - 1], n) || w[|w| - 1] == REDUCE
  {
    if |w| > 1 {
      var v := w[..|w| - 1];
      ChainWalkStays(G, H, n, v);
      assert (w[|w| - 2], w[|w| - 1]) in ChildEdges(G);
    }
  }

  lemma {:induction false} FollowedOutsideChain(G: Graph, R: seq<Id>, H: Graph, Q: seq<Id>, n: nat, p: Id, i: nat)
    requires Grown(G, R, H, Q) && Chained(G, H, n) && Followed(G, R, p, i) && p in H && p != GEN
    ensures Followed(H, Q, p, i) && H[p] == G[p]
  {
    if p in R && i == 0 {
      OtherRoot(G, R, H, Q, p);
    } else {
      var k :| 0 <= k < |R| && R[k] in G && G[R[k]] != [] && Reaches(ChildEdges(G), G[R[k]][0], p);
      if R[k] == GEN {
        var w :| WalkBetween(ChildEdges(G), w, G[GEN][0], p);
        ChainWalkStays(G, H, n, w);
      } else {
        OtherRoot(G, R, H, Q, R[k]);
        EnteredInside(G, R, H, Q, R[k], p);
      }
    }
  }

  lemma {:induction false} EnteredIsChild(g: Graph, roots: seq<Id>, v: Id) returns (p: Id, i: nat)
    requires Entered(g, roots, v)
    ensures p in g && i < |g[p]| && g[p][i] == v
  {
    var k :| 0 <= k < |roots| && roots[k] in g && g[roots[k]] != [] && Reaches(ChildEdges(g), g[roots[k]][0], v);
    var w :| WalkBetween(ChildEdges(g), w, g[roots[k]][0], v);
    if |w| == 1 {
      p, i := roots[k], 0;
    } else {
      p := w[|w| - 2];
      assert (p, v) in ChildEdges(g);
      i :| 0 <= i < |g[p]| && g[p][i] == v;
    }
  }

  /** The manifests are nobody's child, so only their first entry is followed. */
  lemma {:induction false} ManifestsOnce(G: Graph, R: seq<Id>, H: Graph, Q: seq<Id>, i: nat)
    requires Grown(G, R, H, Q) && Followed(G, R, GEN, i)
    ensures i == 0
  {
    if Entered(G, R, GEN) {
      var p, j := EnteredIsChild(G, R, GEN);
    }
  }

  lemma {:induction false} JobsDoNotJoin(G: Graph, R: seq<Id>, H: Graph, Q: seq<Id>, n: nat, p: Id, i: nat, q: Id, j: nat)
    requires Grown(G, R, H, Q) && Chained(G, H, n) && JoinsAt(G, R, p, i, q, j)
    ensures p in H && q in H && p != GEN && q != GEN
  {
    var v := G[p][i];
    assert IsJob(p, n) ==> Distinct(G[p]);
    if v == REDUCE {
      assert p == q && i != j;
    } else if IsJob(v, n) {
      var k :| 1 <= k <= n && v == JobId(k);
      assert p == Before(k) && q == Before(k);
      assert i != j;
      if !IsJob(p, n) {
        BeforeIsJob(k, n);
        ManifestsOnce(G, R, H, Q, i);
        ManifestsOnce(G, R, H, Q, j);
      }
    }
    FirstIsJob(n);
    if p == GEN { ManifestsOnce(G, R, H, Q, i); }
    if q == GEN { ManifestsOnce(G, R, H, Q, j); }
  }

  lemma {:induction false} BeforeIsJob(k: nat, n: nat)
    requires 1 <= k <= n
    ensures Before(k) == GEN || IsJob(Before(k), n)
  {
    assert k > 1 ==> Before(k) == JobId(k - 1);
    hide JobId;
  }

  lemma {:induction false} FirstIsJob(n: nat)
    ensures n >= 1 ==> IsJob(JobId(1), n)
  {
    hide JobId;
  }

  /** Then the chain ends at the reduce task, and joins are the template's. */
  lemma {:induction false} JoinOutsideChain(G: Graph, R: seq<Id>, H: Graph, Q: seq<Id>, n: nat)
    requires Grown(G, R, H, Q) && Chained(G, H, n) && HasJoin(G, R)
    ensures HasJoin(H, Q)
  {
    var p: Id, i: nat, q: Id, j: nat :| JoinsAt(G, R, p, i, q, j);
    JobsDoNotJoin(G, R, H, Q, n, p, i, q, j);
    FollowedOutsideChain(G, R, H, Q, n, p, i);
    FollowedOutsideChain(G, R, H, Q, n, q, j);
    var v := G[p][i];
    assert v in H && v != GEN;
    hide Chained;
    assert JoinsAt(H, Q, p, i, q, j);
  }

  // From tasks to graphs.

  /** The template's own tasks in the order of `g`, without what the construction added to them. */
  function Own(g: seq<Task>, template: seq<Task>): seq<Task> {
    if g == [] then []
    else
      var n := |g| - 1;
      Own(g[..n], template) + if g[n].id in IdSet(template) then [TaskById(template, g[n].id)] else []
  }

  /** The first task of `tasks` with an entry naming `p` is `c`. */
  ghost predicate FirstToName(tasks: seq<Task>, p: Id, c: Id) {
    exists k :: FirstNaming(tasks, p, k) && tasks[k].id == c
  }

  ghost predicate FirstNaming(tasks: seq<Task>, p: Id, k: int) {
    0 <= k < |tasks| && CountNaming(tasks[k].dependsOn, p) > 0 && forall i :: 0 <= i < k ==> CountNaming(tasks[i].dependsOn, p) == 0
  }

  lemma {:induction false} HeadIsFirst(tasks: seq<Task>, p: Id) returns (k: int)
    ensures Children(tasks, p) == [] ==> forall t :: t in tasks ==> CountNaming(t.dependsOn, p) == 0
    ensures Children(tasks, p) != [] ==> FirstNaming(tasks, p, k) && Children(tasks, p)[0] == tasks[k].id
  {
    k := 0;
    if tasks != [] {
      var n := |tasks| - 1;
      assert tasks == tasks[..n] + [tasks[n]];
      k := HeadIsFirst(tasks[..n], p);
      if Children(tasks[..n], p) == [] {
        k := n;
        assert forall i :: 0 <= i < n ==> tasks[i] in tasks[..n];
      }
    }
  }

  lemma {:induction false} FirstToNameIsHead(tasks: seq<Task>, p: Id, c: Id)
    ensures FirstToName(tasks, p, c) <==> Children(tasks, p) != [] && Children(tasks, p)[0] == c
  {
    var k := HeadIsFirst(tasks, p);
    hide Children, CountNaming;
    if j :| FirstNaming(tasks, p, j) && tasks[j].id == c {
      assert tasks[j] in tasks;
    }
  }

  lemma {:induction false} OwnMembers(g: seq<Task>, template: seq<Task>)
    ensures forall t :: t in Own(g, template) ==> t.id in IdSet(template) && t == TaskById(template, t.id) && t.id in IdSet(g)
    ensures forall u :: u in g && u.id in IdSet(template) ==> TaskById(template, u.id) in Own(g, template)
  {
    if g != [] {
      var n := |g| - 1;
      OwnMembers(g[..n], template);
      assert g == g[..n] + [g[n]];
      assert IdSet(g) == IdSet(g[..n]) + {g[n].id};
    }
  }

  lemma {:induction false} OwnUnique(g: seq<Task>, template: seq<Task>)
    requires UniqueIds(g)
    ensures UniqueIds(Own(g, template))
  {
    if g != [] {
      var n := |g| - 1;
      OwnUnique(g[..n], template);
      OwnMembers(g[..n], template);
      var front := Own(g[..n], template);
      forall t | t in front ensures t.id != g[n].id {
        var i :| 0 <= i < n && g[i].id == t.id;
      }
      assert forall i :: 0 <= i < |front| ==> front[i] in front;
    }
  }

  lemma {:induction false} CountAppend(a: seq<Dependency>, b: seq<Dependency>, p: Id)
    ensures CountNaming(a + b, p) == CountNaming(a, p) + CountNaming(b, p)
  {
    if b == [] {
      assert a + b == a;
    } else {
      var m := |b| - 1;
      assert (a + b)[..|a + b| - 1] == a + b[..m];
      CountAppend(a, b[..m], p);
    }
  }

  lemma {:induction false} CountJobEntries(n: nat, p: Id)
    ensures CountNaming(JobEntries(n), p) <= 1
    ensures CountNaming(JobEntries(n), p) == 1 <==> IsJob(p, n)
  {
    if n > 0 {
      CountJobEntries(n - 1, p);
      CountAppend(JobEntries(n - 1), [Dependency(JobId(n), true, false)], p);
      OneMoreJob(n, p);
      hide JobId, IsJob;
      assert CountNaming([Dependency(JobId(n), true, false)], p) == if p == JobId(n) then 1 else 0;
    }
  }

  lemma {:induction false} OneMoreJob(n: nat, p: Id)
    requires n > 0
    ensures IsJob(p, n) <==> IsJob(p, n - 1) || p == JobId(n)
    ensures !IsJob(JobId(n), n - 1)
  {
    forall i | 1 <= i < n ensures JobId(i) != JobId(n) {
      JobIdInjective(i, n);
    }
    hide JobId;
  }

  /** What a delivered template task names outside the chain is what it names in the template. */
  lemma {:induction false} PartNames(template: seq<Task>, n: nat, t: Task, p: Id)
    requires Suitable(template, n) && Part(template, n, t) && p in IdSet(template)
    ensures t.id in IdSet(template) ==> CountNaming(t.dependsOn, p) == CountNaming(TaskById(template, t.id).dependsOn, p)
    ensures t.id !in IdSet(template) && p != GEN ==> CountNaming(t.dependsOn, p) == 0
    ensures t.id !in IdSet(template) ==> t == Job(1) || CountNaming(t.dependsOn, p) == 0
  {
    var r := TaskById(template, REDUCE);
    CountAppend(r.dependsOn, JobEntries(n), p);
    CountJobEntries(n, p);
    if t in template {
      TaskByIdUnique(template, t);
    } else if t != Reducer(template, n) {
      var i :| 1 <= i <= n && t == Job(i);
      JobNames(template, n, i, p);
    }
  }

  lemma {:induction false} JobNames(template: seq<Task>, n: nat, i: nat, p: Id)
    requires Suitable(template, n) && 1 <= i <= n && p in IdSet(template)
    ensures CountNaming(Job(i).dependsOn, p) == if i == 1 && p == GEN then 1 else 0
  {
    assert i > 1 ==> Before(i) == JobId(i - 1);
    JobIdInjective(i - 1, i);
    assert Job(i).dependsOn[..0] == [];
    hide JobId;
  }

  ghost predicate Parts(g: seq<Task>, template: seq<Task>, n: nat) {
    Suitable(template, n) && forall t :: t in g ==> Part(template, n, t)
  }

  lemma {:induction false} OwnChildren(g: seq<Task>, template: seq<Task>, n: nat, p: Id)
    requires Parts(g, template, n) && p in IdSet(template) && p != GEN
    ensures Children(g, p) == Children(Own(g, template), p)
  {
    if g != [] {
      var m := |g| - 1;
      assert g == g[..m] + [g[m]];
      OwnChildren(g[..m], template, n, p);
      PartNames(template, n, g[m], p);
      hide Parts, Suitable, Part;
      OwnSnoc(g, template, p);
    }
  }

  /** What the last of the tasks contributes to the template's own children of `p`. */
  lemma {:induction false} OwnSnoc(g: seq<Task>, template: seq<Task>, p: Id)
    requires g != []
    ensures var t := g[|g| - 1];
      Children(Own(g, template), p) == Children(Own(g[..|g| - 1], template), p)
        + if t.id in IdSet(template) then Repeat(t.id, CountNaming(TaskById(template, t.id).dependsOn, p)) else []
  {
    var front, t := Own(g[..|g| - 1], template), g[|g| - 1];
    if t.id in IdSet(template) {
      assert (front + [TaskById(template, t.id)])[..|front|] == front;
    } else {
      assert front + [] == front && Children(front, p) + [] == Children(front, p);
    }
  }

  /** Unless the first child of the manifests is the first job, it is their first child in the template. */
  lemma {:induction false} OwnFirst(g: seq<Task>, template: seq<Task>, n: nat)
    requires Parts(g, template, n) && GEN in IdSet(template)
    ensures Children(g, GEN) == [] ==> Children(Own(g, template), GEN) == []
    ensures Children(g, GEN) != [] && Children(g, GEN)[0] != JobId(1) ==>
      Children(Own(g, template), GEN) != [] && Children(Own(g, template), GEN)[0] == Children(g, GEN)[0]
  {
    if g != [] {
      var m := |g| - 1;
      assert g == g[..m] + [g[m]];
      OwnFirst(g[..m], template, n);
      PartNames(template, n, g[m], GEN);
      assert g[m] == Job(1) ==> g[m].id == JobId(1);
      hide Parts, Suitable, Part, JobId, Job;
      OwnSnoc(g, template, GEN);
    }
  }

  // Ids as the schema admits them contain no ':'.

  ghost predicate PlainIds(tasks: seq<Task>) {
    forall t :: t in tasks ==> ':' !in t.id
  }

  lemma {:induction false} DecimalPlain(n: nat)
    ensures ':' !in Decimal(n)
  {
    if n >= 10 { DecimalPlain(n / 10); }
    assert forall d :: 0 <= d < 10 ==> Digit(d) != ':';
  }

  lemma {:induction false} DeliveredPlain(g: seq<Task>, template: seq<Task>, n: nat)
    requires Composed(g, template, n) && PlainIds(template)
    ensures PlainIds(g) && PlainIds(Own(g, template))
  {
    forall i: nat ensures ':' !in JobId(i) {
      DecimalPlain(i);
      assert ':' !in "etl_job_";
    }
    OwnMembers(g, template);
    forall t | t in g ensures ':' !in t.id {
      assert Part(template, n, t);
      assert t == Reducer(template, n) ==> TaskById(template, REDUCE).id == t.id;
    }
    hide JobId, Suitable, Reducer;
  }

  // The two graphs of a delivered pipeline.

  lemma {:induction false} OwnIds(g: seq<Task>, template: seq<Task>, n: nat)
    requires Composed(g, template, n)
    ensures IdSet(Own(g, template)) == IdSet(template) && UniqueIds(Own(g, template))
    ensures forall t :: t in Own(g, template) <==> t in template
  {
    ComposedIds(g, template, n);
    OwnMembers(g, template);
    OwnUnique(g, template);
    var own := Own(g, template);
    forall t ensures t in own <==> t in template {
      if t in template {
        TaskByIdUnique(template, t);
        var u := TaskById(g, t.id);
        assert TaskById(template, u.id) in own;
      }
    }
    hide Composed, UniqueIds, Own;
  }

  lemma {:induction false} InitialInOwn(g: seq<Task>, template: seq<Task>, n: nat, r: Id)
    requires Composed(g, template, n) && n >= 1 && r in InitialIds(g)
    ensures r in InitialIds(Own(g, template))
  {
    InitialIdsAre(g);
    var t :| t in g && t.id == r && t.dependsOn == [];
    assert Part(template, n, t);
    EntriesAre(n);
    assert |Reducer(template, n).dependsOn| >= n;
    OwnIds(g, template, n);
    InitialIdsAre(Own(g, template));
    hide Composed, UniqueIds, Own, Reducer, JobEntries;
    assert t in template;
  }

  lemma {:induction false} GraphFits(tasks: seq<Task>)
    requires UniqueIds(tasks) && PlainIds(tasks)
    ensures WellFormed(GraphOf(tasks)) && RootsIn(GraphOf(tasks), InitialIds(tasks)) && ProperRoots(GraphOf(tasks), InitialIds(tasks))
  {
    GraphWellFormed(tasks);
  }

  lemma {:induction false} SameChildren(g: seq<Task>, template: seq<Task>, n: nat, p: Id)
    requires Composed(g, template, n) && p in GraphOf(Own(g, template))
    ensures p in GraphOf(g) && (p != GEN ==> GraphOf(g)[p] == GraphOf(Own(g, template))[p])
  {
    OwnIds(g, template, n);
    ComposedIds(g, template, n);
    if p != GEN {
      OwnChildren(g, template, n, p);
    }
    hide Suitable, UniqueIds, Own, Children, Part;
  }

  lemma {:induction false} GraphsAgree(g: seq<Task>, template: seq<Task>, n: nat)
    requires Composed(g, template, n)
    ensures Agree(GraphOf(g), GraphOf(Own(g, template)))
  {
    forall p | p in GraphOf(Own(g, template))
      ensures p in GraphOf(g) && (p != GEN ==> GraphOf(g)[p] == GraphOf(Own(g, template))[p])
    {
      SameChildren(g, template, n, p);
    }
    hide Composed, GraphOf, Own;
  }

  lemma {:induction false} GraphsGrown(g: seq<Task>, template: seq<Task>, n: nat)
    requires Composed(g, template, n) && PlainIds(template) && n >= 1 && TaskById(template, GEN).dependsOn == []
    ensures var own := Own(g, template); Grown(GraphOf(g), InitialIds(g), GraphOf(own), InitialIds(own))
  {
    var own := Own(g, template);
    OwnIds(g, template, n);
    DeliveredPlain(g, template, n);
    ManifestsInitial(g, template, n);
    GraphsAgree(g, template, n);
    assert GEN in GraphOf(own);
    hide WellFormed, ProperRoots, RootsIn, InitialIds, PlainIds, GraphOf, Agree, Suitable;
    GraphFits(g);
    GraphFits(own);
    forall r | r in InitialIds(g) ensures r in InitialIds(own) {
      InitialInOwn(g, template, n, r);
    }
    hide Composed, UniqueIds, Own;
  }

  lemma {:induction false} ManifestsInitial(g: seq<Task>, template: seq<Task>, n: nat)
    requires Composed(g, template, n) && TaskById(template, GEN).dependsOn == []
    ensures GEN in InitialIds(g) && GEN in IdSet(template)
  {
    var t := TaskById(template, GEN);
    assert GEN != REDUCE;
    assert t in g && t.id == GEN && t.dependsOn == [];
    InitialIdsAre(g);
  }

  /** Some template task waits for the reduce task. */
  ghost predicate ReduceAwaited(template: seq<Task>) {
    exists t :: t in template && Awaits(t, REDUCE)
  }

  ghost predicate Awaits(t: Task, p: Id) {
    exists d :: d in t.dependsOn && d.id == p
  }

  lemma {:induction false} ChildEdge(tasks: seq<Task>, p: Id, c: Id)
    ensures c in Children(tasks, p) <==> (c, p) in Edges(tasks)
  {
    ChildrenMembers(tasks, p, c);
    forall t | t in tasks ensures CountNaming(t.dependsOn, p) > 0 <==> exists d :: d in t.dependsOn && d.id == p {
      CountPositive(t.dependsOn, p);
    }
  }

  lemma {:induction false} NothingAfterReduce(g: seq<Task>, template: seq<Task>, n: nat)
    requires Composed(g, template, n)
    ensures Children(g, REDUCE) == [] <==> !ReduceAwaited(template)
  {
    forall c ensures c in Children(g, REDUCE) <==> (c, REDUCE) in Edges(template) {
      ChildEdge(g, REDUCE, c);
      if (c, REDUCE) in Edges(g) {
        ComposedEdge(g, template, n, c, REDUCE);
        ReduceEndsChain(n, c);
      }
      if (c, REDUCE) in Edges(template) {
        var t, d :| t in template && d in t.dependsOn && (c, REDUCE) == (t.id, d.id);
        assert t in g;
      }
    }
    EmptyOrInhabited(Children(g, REDUCE));
    hide Composed;
    if t :| t in template && Awaits(t, REDUCE) {
      var d :| d in t.dependsOn && d.id == REDUCE;
      assert (t.id, d.id) in Edges(template);
    }
    if c :| (c, REDUCE) in Edges(template) {
      var t, d :| t in template && d in t.dependsOn && (c, REDUCE) == (t.id, d.id);
      assert Awaits(t, REDUCE);
    }
  }

  lemma {:induction false} ReduceEndsChain(n: nat, c: Id)
    ensures !IsJob(REDUCE, n) && !ChainPair(c, REDUCE, n)
  {
    forall i: nat ensures JobId(i) != REDUCE {
      JobIdInjective(i, i);
    }
    assert forall i: nat :: i > 1 ==> Before(i) == JobId(i - 1);
    hide JobId;
  }

  /** Each delivered task names a job at most once. */
  lemma {:induction false} JobNamedOnce(template: seq<Task>, n: nat, t: Task, k: nat)
    requires Suitable(template, n) && Part(template, n, t) && 1 <= k <= n
    ensures CountNaming(t.dependsOn, JobId(k)) <= 1
  {
    var r := TaskById(template, REDUCE);
    CountAppend(r.dependsOn, JobEntries(n), JobId(k));
    CountJobEntries(n, JobId(k));
    TemplateNamesNoJob(template, n, r, k);
    TemplateNamesNoJob(template, n, t, k);
    hide JobId, Suitable;
    if i :| 1 <= i <= n && t == Job(i) {
      assert t.dependsOn[..0] == [];
    }
  }

  lemma {:induction false} OnceDistinct(tasks: seq<Task>, p: Id)
    requires UniqueIds(tasks) && forall t :: t in tasks ==> CountNaming(t.dependsOn, p) <= 1
    ensures Distinct(Children(tasks, p))
  {
    if tasks != [] {
      var n := |tasks| - 1;
      assert tasks == tasks[..n] + [tasks[n]];
      OnceDistinct(tasks[..n], p);
      ChildrenMembers(tasks[..n], p, tasks[n].id);
      assert tasks[n].id !in Children(tasks[..n], p);
      DistinctConcat(Children(tasks[..n], p), Repeat(tasks[n].id, CountNaming(tasks[n].dependsOn, p)));
    }
  }

  lemma {:induction false} JobChildrenDistinct(g: seq<Task>, template: seq<Task>, n: nat, p: Id)
    requires Composed(g, template, n) && IsJob(p, n)
    ensures Distinct(Children(g, p))
  {
    var k :| 1 <= k <= n && p == JobId(k);
    forall t | t in g ensures CountNaming(t.dependsOn, p) <= 1 {
      assert Part(template, n, t);
      JobNamedOnce(template, n, t, k);
    }
    hide Suitable, JobId, Part, Children;
    OnceDistinct(g, p);
  }

  lemma {:induction false} DeliveredIds(g: seq<Task>, template: seq<Task>, n: nat, p: Id)
    requires Composed(g, template, n) && p in IdSet(g)
    ensures p in IdSet(template) || IsJob(p, n)
  {
    var t := TaskById(g, p);
    assert Part(template, n, t);
    assert TaskById(template, REDUCE).id == REDUCE;
    hide JobId, UniqueIds;
  }

  lemma {:induction false} GraphsApart(g: seq<Task>, template: seq<Task>, n: nat)
    requires Composed(g, template, n)
    ensures Apart(GraphOf(g), GraphOf(Own(g, template)), n)
  {
    OwnIds(g, template, n);
    NoJobInTemplate(template, n);
    hide Suitable, Own, Children, Part, UniqueIds, IsJob;
    forall p | p in GraphOf(g) ensures p in IdSet(template) || IsJob(p, n) {
      DeliveredIds(g, template, n, p);
    }
  }

  lemma {:induction false} GraphLeadsOn(g: seq<Task>, template: seq<Task>, n: nat)
    requires Composed(g, template, n)
    ensures JobsLeadOn(GraphOf(g), n)
  {
    var G := GraphOf(g);
    hide Suitable, Children, Part, UniqueIds, IsJob, Edges;
    forall p, i | p in G && IsJob(p, n) && 0 <= i < |G[p]| ensures IsJob(G[p][i], n) || G[p][i] == REDUCE {
      ChildEdge(g, p, G[p][i]);
      ChildOfJob(g, template, n, G[p][i], p);
    }
    forall p | p in G && IsJob(p, n) ensures Distinct(G[p]) {
      JobChildrenDistinct(g, template, n, p);
    }
    hide Composed, Distinct, IdSet;
  }

  lemma {:induction false} GraphFollows(g: seq<Task>, template: seq<Task>, n: nat)
    requires Composed(g, template, n)
    ensures JobsFollow(GraphOf(g), n)
  {
    var G := GraphOf(g);
    hide Suitable, Children, Part, UniqueIds, Edges, JobId, Before;
    forall p, i, k | p in G && 0 <= i < |G[p]| && 1 <= k <= n && G[p][i] == JobId(k) ensures p == Before(k) {
      ChildEdge(g, p, JobId(k));
      ParentOfJob(g, template, n, k, p);
    }
    hide Composed, IdSet;
  }

  lemma {:induction false} GraphsChained(g: seq<Task>, template: seq<Task>, n: nat)
    requires Composed(g, template, n) && n >= 1 && FirstToName(g, GEN, JobId(1)) && !ReduceAwaited(template)
    ensures Chained(GraphOf(g), GraphOf(Own(g, template)), n)
  {
    OwnIds(g, template, n);
    ComposedIds(g, template, n);
    FirstToNameIsHead(g, GEN, JobId(1));
    NothingAfterReduce(g, template, n);
    GraphsApart(g, template, n);
    GraphLeadsOn(g, template, n);
    GraphFollows(g, template, n);
    assert GEN in IdSet(template) && REDUCE in IdSet(template) && GEN != REDUCE;
    hide Composed, Suitable, JobId, Own, Children, FirstToName, ReduceAwaited, UniqueIds, Apart, JobsLeadOn, JobsFollow, IdSet;
  }

  lemma {:induction false} NoJobInTemplate(template: seq<Task>, n: nat)
    requires Suitable(template, n)
    ensures forall p :: p in IdSet(template) ==> !IsJob(p, n)
  {
  }

  lemma {:induction false} ChildOfJob(g: seq<Task>, template: seq<Task>, n: nat, c: Id, p: Id)
    requires Composed(g, template, n) && IsJob(p, n) && (c, p) in Edges(g)
    ensures IsJob(c, n) || c == REDUCE
  {
    ComposedEdge(g, template, n, c, p);
    ComposedShaped(g, template, n);
    hide Composed, Edges, JobId, Before;
  }

  lemma {:induction false} ParentOfJob(g: seq<Task>, template: seq<Task>, n: nat, k: nat, p: Id)
    requires Composed(g, template, n) && 1 <= k <= n && (JobId(k), p) in Edges(g)
    ensures p == Before(k)
  {
    ComposedEdge(g, template, n, JobId(k), p);
    ComposedShaped(g, template, n);
    JobIdInjective(k, k);
    hide Composed, Edges;
    assert IsJob(JobId(k), n);
    var i :| 1 <= i <= n && JobId(k) == JobId(i) && p == Before(i);
    JobIdInjective(k, i);
  }

  lemma {:induction false} FirstChildEntered(g: Graph, roots: seq<Id>, r: Id)
    requires r in roots && r in g && g[r] != []
    ensures Entered(g, roots, g[r][0])
  {
    var k :| 0 <= k < |roots| && roots[k] == r;
    ReachesItself(ChildEdges(g), g[r][0]);
  }

  lemma {:induction false} ChildEntered(g: Graph, roots: seq<Id>, p: Id, c: Id)
    requires Entered(g, roots, p) && p in g && c in g[p]
    ensures Entered(g, roots, c)
  {
    var k :| 0 <= k < |roots| && roots[k] in g && g[roots[k]] != [] && Reaches(ChildEdges(g), g[roots[k]][0], p);
    assert (p, c) in ChildEdges(g);
    ReachesFurther(ChildEdges(g), g[roots[k]][0], p, c);
  }

  /** Two ways into a task that has children. */
  lemma {:induction false} TriangleJoins(g: Graph, roots: seq<Id>, r: Id, p: Id, q: Id, u: Id)
    requires r in roots && r in g && g[r] != [] && g[r][0] == p && p != q
    requires p in g && q in g && u in g && q in g[p] && u in g[p] && u in g[q] && g[u] != []
    ensures HasJoin(g, roots)
  {
    FirstChildEntered(g, roots, r);
    ChildEntered(g, roots, p, q);
    hide Entered;
    var i: nat :| i < |g[p]| && g[p][i] == u;
    var j: nat :| j < |g[q]| && g[q][j] == u;
    assert JoinsAt(g, roots, p, i, q, j);
  }

  /** The reduce task is entered from two jobs, and has children. */
  lemma {:induction false} JobsJoin(g: seq<Task>, template: seq<Task>, n: nat)
    requires Composed(g, template, n) && n >= 2 && TaskById(template, GEN).dependsOn == []
    requires FirstToName(g, GEN, JobId(1)) && ReduceAwaited(template)
    ensures HasJoin(GraphOf(g), InitialIds(g))
  {
    var one, two := JobId(1), JobId(2);
    ComposedIds(g, template, n);
    ManifestsInitial(g, template, n);
    FirstToNameIsHead(g, GEN, one);
    NothingAfterReduce(g, template, n);
    ChainEdge(g, template, n, 1);
    ChainEdge(g, template, n, 2);
    JobIdInjective(1, 2);
    assert Before(2) == one;
    ChildEdge(g, one, two);
    ChildEdge(g, one, REDUCE);
    ChildEdge(g, two, REDUCE);
    hide Composed, Suitable, UniqueIds, Children, JobId, FirstToName, ReduceAwaited, InitialIds, Before, HasJoin, Edges, BindingEdges;
    TriangleJoins(GraphOf(g), InitialIds(g), GEN, one, two, REDUCE);
  }

  /** With two jobs or more, and a template that is accepted in the order its tasks
      arrive in, the engine refuses the acyclic pipeline as cyclic exactly when the
      first job comes first of the tasks that wait for the manifests and some task
      waits for the reduce task. Otherwise it accepts it, even with a single job. */
  lemma {:induction false} RefusedIff(g: seq<Task>, template: seq<Task>, n: nat)
    requires Suitable(template, n) && Delivered(g, template, n) && PlainIds(template)
    requires n >= 1 && TaskById(template, GEN).dependsOn == [] && Validate(Own(g, template)) == Accepted
    ensures n >= 2 ==>
      Validate(g) == if FirstToName(g, GEN, JobId(1)) && ReduceAwaited(template) then CycleDetected else Accepted
    ensures !FirstToName(g, GEN, JobId(1)) || !ReduceAwaited(template) ==> Validate(g) == Accepted
  {
    var own := Own(g, template);
    DeliveredIsComposed(g, template, n);
    ComposedWellPosed(g, template, n);
    GraphsGrown(g, template, n);
    ManifestsInitial(g, template, n);
    OwnProper(g, template, n);
    MeetIffHasJoin(GraphOf(g), InitialIds(g));
    MeetIffHasJoin(GraphOf(own), InitialIds(own));
    if FirstToName(g, GEN, JobId(1)) {
      if ReduceAwaited(template) {
        if n >= 2 { JobsJoin(g, template, n); }
      } else {
        GraphsChained(g, template, n);
        NoJoinOutside(GraphOf(g), InitialIds(g), GraphOf(own), InitialIds(own), n);
      }
    } else {
      GraphsStartSame(g, template, n);
      NoJoinInside(GraphOf(g), InitialIds(g), GraphOf(own), InitialIds(own));
    }
    hide Suitable, Delivered, Composed, Own, FirstToName, ReduceAwaited, GraphOf, RoutesMeet, HasJoin, DependenciesExist, UniqueIds, Grown;
  }

  lemma {:induction false} OwnProper(g: seq<Task>, template: seq<Task>, n: nat)
    requires Composed(g, template, n) && PlainIds(template)
    ensures var own := Own(g, template);
      WellFormed(GraphOf(own)) && ProperRoots(GraphOf(own), InitialIds(own))
  {
    OwnIds(g, template, n);
    DeliveredPlain(g, template, n);
    GraphWellFormed(Own(g, template));
  }

  lemma {:induction false} NoJoinOutside(G: Graph, R: seq<Id>, H: Graph, Q: seq<Id>, n: nat)
    requires Grown(G, R, H, Q) && Chained(G, H, n)
    ensures HasJoin(G, R) ==> HasJoin(H, Q)
  {
    if HasJoin(G, R) {
      JoinOutsideChain(G, R, H, Q, n);
    }
  }

  lemma {:induction false} NoJoinInside(G: Graph, R: seq<Id>, H: Graph, Q: seq<Id>)
    requires Grown(G, R, H, Q) && SameStart(G, H)
    ensures HasJoin(G, R) ==> HasJoin(H, Q)
  {
    if HasJoin(G, R) {
      JoinInside(G, R, H, Q);
    }
  }

  lemma {:induction false} GraphsStartSame(g: seq<Task>, template: seq<Task>, n: nat)
    requires Composed(g, template, n) && n >= 1 && !FirstToName(g, GEN, JobId(1))
    ensures SameStart(GraphOf(g), GraphOf(Own(g, template)))
  {
    OwnIds(g, template, n);
    ComposedIds(g, template, n);
    ChainEdge(g, template, n, 1);
    ChildEdge(g, GEN, JobId(1));
    FirstToNameIsHead(g, GEN, JobId(1));
    OwnFirst(g, template, n);
    hide Suitable, Children, JobId, FirstToName, Own, UniqueIds;
  }

  // The same pipeline, delivered in two orders.

  /** A workflow in which no task waits for two entries is a forest, and accepted. */
  lemma {:induction false} SingleParentsAccepted(tasks: seq<Task>)
    requires UniqueIds(tasks) && PlainIds(tasks) && DependenciesExist(tasks) && InitialIds(tasks) != []
    requires forall t :: t in tasks ==> |t.dependsOn| <= 1
    ensures Validate(tasks) == Accepted
  {
    var g := GraphOf(tasks);
    GraphFits(tasks);
    forall p, i, p', i' | p in g && p' in g && 0 <= i < |g[p]| && 0 <= i' < |g[p']| && g[p][i] == g[p'][i'] ensures p == p' && i == i' {
      ChildEdge(tasks, p, g[p][i]);
      ChildEdge(tasks, p', g[p'][i']);
      OneParent(tasks, g[p][i], p, p');
      SingleDistinct(tasks, p);
    }
    ForestAccepted(g, InitialIds(tasks));
  }

  lemma {:induction false} OneParent(tasks: seq<Task>, c: Id, p: Id, q: Id)
    requires UniqueIds(tasks) && (forall t :: t in tasks ==> |t.dependsOn| <= 1) && (c, p) in Edges(tasks) && (c, q) in Edges(tasks)
    ensures p == q
  {
    var t, d :| t in tasks && d in t.dependsOn && (c, p) == (t.id, d.id);
    var u, e :| u in tasks && e in u.dependsOn && (c, q) == (u.id, e.id);
    TaskByIdUnique(tasks, t);
    TaskByIdUnique(tasks, u);
  }

  lemma {:induction false} SingleDistinct(tasks: seq<Task>, p: Id)
    requires UniqueIds(tasks) && forall t :: t in tasks ==> |t.dependsOn| <= 1
    ensures Distinct(Children(tasks, p))
  {
    forall t | t in tasks ensures CountNaming(t.dependsOn, p) <= 1 {
      assert t.dependsOn != [] ==> t.dependsOn[..0] == [];
    }
    OnceDistinct(tasks, p);
  }

  /** Two tasks without dependencies, and one waiting for each. */
  function Pairs(a: Id, b: Id, x: Id, y: Id): seq<Task> {
    [Task(a, []), Task(b, []), Task(x, [Dependency(a, false, false)]), Task(y, [Dependency(b, false, false)])]
  }

  lemma {:induction false} PairTasks(a: Id, b: Id, x: Id, y: Id)
    requires a != b && a != x && a != y && b != x && b != y && x != y
    ensures var ts := Pairs(a, b, x, y);
      && UniqueIds(ts) && IdSet(ts) == {a, b, x, y} && TaskById(ts, a) == ts[0] && TaskById(ts, b) == ts[1]
  {
    var ts := Pairs(a, b, x, y);
    assert ts[0] in ts && ts[1] in ts && ts[2] in ts && ts[3] in ts;
    TaskByIdUnique(ts, ts[0]);
    TaskByIdUnique(ts, ts[1]);
  }

  lemma {:induction false} PairEdges(a: Id, b: Id, x: Id, y: Id)
    ensures Edges(Pairs(a, b, x, y)) == {(x, a), (y, b)}
  {
    var ts := Pairs(a, b, x, y);
    assert ts[2] in ts && ts[3] in ts;
    assert Dependency(a, false, false) in ts[2].dependsOn && Dependency(b, false, false) in ts[3].dependsOn;
  }

  lemma {:induction false} PairsAcyclic(a: Id, b: Id, x: Id, y: Id)
    requires a != b && a != x && a != y && b != x && b != y && x != y
    ensures var ts := Pairs(a, b, x, y);
      !Cyclic(Edges(ts)) && !Reaches(Edges(ts), a, b) && DependenciesExist(ts)
  {
    var ts := Pairs(a, b, x, y);
    PairTasks(a, b, x, y);
    PairEdges(a, b, x, y);
    var E := Edges(ts);
    forall t, d | t in ts && d in t.dependsOn ensures d.id != t.id && d.id in IdSet(ts) {
      assert (t.id, d.id) in E;
    }
    hide Edges, IdSet, DependenciesExist, Pairs;
    RankedNotCyclic(E, map[x := 0, a := 1, y := 0, b := 1]);
    NoWayOut(E, a, b);
  }

  const MANIFESTS := Task(GEN, [])
  const STATUSES := Task(REDUCE, [])
  const BESIDE := Task("x", [Dependency(GEN, false, false)])
  const AFTERWARDS := Task("y", [Dependency(REDUCE, false, false)])
  const TEMPLATE: seq<Task> := [MANIFESTS, STATUSES, BESIDE, AFTERWARDS]

  lemma {:induction false} FourIds()
    ensures GEN != REDUCE && GEN != "x" && GEN != "y" && REDUCE != "x" && REDUCE != "y" && "x" != "y"
  {
    assert GEN[0] == 'g' && REDUCE[0] == 'i' && "x"[0] == 'x' && "y"[0] == 'y';
  }

  lemma {:induction false} NoJobAmongThem(i: nat)
    ensures JobId(i) != GEN && JobId(i) != REDUCE && JobId(i) != "x" && JobId(i) != "y"
  {
    JobIdInjective(i, i);
    assert |JobId(i)| >= 8;
  }

  lemma {:induction false} PairsPlain(a: Id, b: Id, x: Id, y: Id)
    requires ':' !in a && ':' !in b && ':' !in x && ':' !in y
    ensures PlainIds(Pairs(a, b, x, y))
  {
  }

  lemma {:induction false} FourPlain()
    ensures ':' !in GEN && ':' !in REDUCE && ':' !in "x" && ':' !in "y"
  {
  }

  lemma {:induction false} PairsSuitable(x: Id, y: Id, n: nat)
    requires GEN != REDUCE && GEN != x && GEN != y && REDUCE != x && REDUCE != y && x != y
    requires forall i: nat :: JobId(i) != GEN && JobId(i) != REDUCE && JobId(i) != x && JobId(i) != y
    ensures Suitable(Pairs(GEN, REDUCE, x, y), n)
  {
    PairTasks(GEN, REDUCE, x, y);
    PairsAcyclic(GEN, REDUCE, x, y);
    hide Pairs, Edges, IdSet, DependenciesExist, Cyclic, Reaches, UniqueIds, JobId;
  }

  lemma {:induction false} TemplateSuitable(n: nat)
    ensures Suitable(TEMPLATE, n) && PlainIds(TEMPLATE)
    ensures TaskById(TEMPLATE, GEN) == MANIFESTS && TaskById(TEMPLATE, REDUCE) == STATUSES
  {
    assert TEMPLATE == Pairs(GEN, REDUCE, "x", "y");
    FourIds();
    FourPlain();
    PairsPlain(GEN, REDUCE, "x", "y");
    PairTasks(GEN, REDUCE, "x", "y");
    forall i: nat ensures JobId(i) != GEN && JobId(i) != REDUCE && JobId(i) != "x" && JobId(i) != "y" {
      NoJobAmongThem(i);
    }
    hide Suitable, IdSet, UniqueIds, PlainIds, JobId;
    PairsSuitable("x", "y", n);
  }

  lemma {:induction false} TwoJobs() returns (reduce: Task)
    ensures reduce == Reducer(TEMPLATE, 2) && Generated(TEMPLATE, 2) == [Job(1), Job(2), MANIFESTS, reduce, BESIDE, AFTERWARDS]
  {
    TemplateSuitable(2);
    reduce := Reducer(TEMPLATE, 2);
    var m := GeneratedIs(TEMPLATE, 2);
    JobsAre(2);
    assert Jobs(2) == [Job(1), Job(2)];
    hide Job, Jobs, Reducer, Suitable, Generated;
    assert m == 1;
  }

  /** The order the generator leaves. */
  function AsGenerated(reduce: Task): seq<Task> {
    [Job(1), Job(2), MANIFESTS, reduce, BESIDE, AFTERWARDS]
  }

  /** Another order the store may hand out. */
  function AsStored(reduce: Task): seq<Task> {
    [MANIFESTS, BESIDE, Job(1), Job(2), reduce, AFTERWARDS]
  }

  lemma {:induction false} Reordered(reduce: Task)
    ensures multiset(AsStored(reduce)) == multiset(AsGenerated(reduce))
  {
    var a, b, m, x, y := Job(1), Job(2), MANIFESTS, BESIDE, AFTERWARDS;
    hide Job;
    assert multiset([m, x, a, b, reduce, y]) == multiset{a, b, m, reduce, x, y};
    assert multiset([a, b, m, reduce, x, y]) == multiset{a, b, m, reduce, x, y};
  }

  lemma {:induction false} SampleAccepted(own: seq<Task>)
    requires UniqueIds(own) && PlainIds(own) && (forall t :: t in own <==> t in TEMPLATE) && IdSet(own) == IdSet(TEMPLATE)
    requires DependenciesExist(TEMPLATE)
    ensures Validate(own) == Accepted
  {
    assert MANIFESTS in TEMPLATE && MANIFESTS in own;
    InitialIdsAre(own);
    assert GEN in InitialIds(own);
    assert forall t :: t in TEMPLATE ==> |t.dependsOn| <= 1;
    hide UniqueIds, PlainIds, InitialIds, Validate, IdSet;
    SingleParentsAccepted(own);
  }

  lemma {:induction false} TemplateAccepted(g: seq<Task>, n: nat)
    requires Delivered(g, TEMPLATE, n)
    ensures Validate(Own(g, TEMPLATE)) == Accepted
  {
    var own := Own(g, TEMPLATE);
    TemplateSuitable(n);
    DeliveredIsComposed(g, TEMPLATE, n);
    OwnIds(g, TEMPLATE, n);
    DeliveredPlain(g, TEMPLATE, n);
    hide Suitable, Delivered, Composed, Own, UniqueIds, PlainIds;
    SampleAccepted(own);
  }

  lemma {:induction false} TemplateAwaits()
    ensures ReduceAwaited(TEMPLATE)
  {
    assert AFTERWARDS in TEMPLATE;
    assert Dependency(REDUCE, false, false) in AFTERWARDS.dependsOn;
    assert Awaits(AFTERWARDS, REDUCE);
  }

  lemma {:induction false} WhoComesFirst(reduce: Task)
    ensures FirstToName(AsGenerated(reduce), GEN, JobId(1)) && !FirstToName(AsStored(reduce), GEN, JobId(1))
  {
    var g, s := AsGenerated(reduce), AsStored(reduce);
    JobIdInjective(1, 1);
    assert "x" != JobId(1) by { assert |JobId(1)| >= 8; }
    assert Job(1).dependsOn[..0] == [] && BESIDE.dependsOn[..0] == [];
    assert CountNaming(Job(1).dependsOn, GEN) == 1 && CountNaming(BESIDE.dependsOn, GEN) == 1;
    hide JobId;
    assert FirstNaming(g, GEN, 0) && g[0].id == JobId(1);
    assert CountNaming(s[0].dependsOn, GEN) == 0 && CountNaming(s[1].dependsOn, GEN) == 1;
    assert forall k :: FirstNaming(s, GEN, k) ==> k == 1;
  }

  /** Delivered as generated, a pipeline is refused; delivered in another order, the same pipeline is accepted. */
  lemma {:induction false} OrderDecides() returns (reduce: Task)
    ensures Suitable(TEMPLATE, 2) && reduce == Reducer(TEMPLATE, 2)
    ensures Delivered(AsGenerated(reduce), TEMPLATE, 2) && Validate(AsGenerated(reduce)) == CycleDetected
    ensures Delivered(AsStored(reduce), TEMPLATE, 2) && Validate(AsStored(reduce)) == Accepted
    ensures !Cyclic(Edges(AsGenerated(reduce))) && !Cyclic(Edges(AsStored(reduce)))
  {
    TemplateSuitable(2);
    reduce := TwoJobs();
    Reordered(reduce);
    var g, s := AsGenerated(reduce), AsStored(reduce);
    assert Delivered(g, TEMPLATE, 2) && Delivered(s, TEMPLATE, 2);
    WhoComesFirst(reduce);
    TemplateAwaits();
    hide AsGenerated, AsStored, Delivered, FirstToName, ReduceAwaited, Suitable, Reducer, Validate, Edges, Own;
    TemplateAccepted(g, 2);
    TemplateAccepted(s, 2);
    RefusedIff(g, TEMPLATE, 2);
    RefusedIff(s, TEMPLATE, 2);
    GeneratedAcyclic(g, TEMPLATE, 2);
    GeneratedAcyclic(s, TEMPLATE, 2);
  }
}
