// The dependency graph and the can_fail flags that `_set_tasks` derives from `depends_on`.
module DependencyGraph {
  import opened Relations
  import opened Tasks
  import opened GraphValidator

  function Repeat(id: Id, n: nat): seq<Id> {
    seq(n, _ => id)
  }

  /** How many entries name `p`. */
  function CountNaming(entries: seq<Dependency>, p: Id): nat {
    if entries == [] then 0
    else CountNaming(entries[..|entries| - 1], p) + if entries[|entries| - 1].id == p then 1 else 0
  }

  /** The children of `p`, in task order, one occurrence for each entry naming `p`. */
  function Children(tasks: seq<Task>, p: Id): seq<Id> {
    if tasks == [] then []
    else
      var t := tasks[|tasks| - 1];
      Children(tasks[..|tasks| - 1], p) + Repeat(t.id, CountNaming(t.dependsOn, p))
  }

  function GraphOf(tasks: seq<Task>): Graph {
    map id | id in IdSet(tasks) :: Children(tasks, id)
  }

  /** The first entry naming `p`. */
  function FirstEntry(entries: seq<Dependency>, p: Id): Dependency
    requires CountNaming(entries, p) > 0
  {
    var rest := entries[..|entries| - 1];
    if CountNaming(rest, p) > 0 then FirstEntry(rest, p) else entries[|entries| - 1]
  }

  /** Of several entries naming `p`, the one that counts is the first. */
  lemma {:induction false} FirstEntryIsFirst(entries: seq<Dependency>, p: Id, k: nat)
    requires k < |entries| && entries[k].id == p && forall i :: 0 <= i < k ==> entries[i].id != p
    ensures CountNaming(entries, p) > 0 && FirstEntry(entries, p) == entries[k]
  {
    var n := |entries| - 1;
    if k < n {
      FirstEntryIsFirst(entries[..n], p, k);
    } else {
      CountPositive(entries[..n], p);
      assert forall d :: d in entries[..n] ==> d.id != p;
    }
  }

  /** A task may fail when it has children and the first entry of each of them
      that names it says so. */
  ghost predicate MayFail(tasks: seq<Task>, p: Id) {
    Children(tasks, p) != [] &&
    forall t :: t in tasks && CountNaming(t.dependsOn, p) > 0 ==> FirstEntry(t.dependsOn, p).canFail
  }

  ghost function MayFailSet(tasks: seq<Task>): set<Id> {
    set id | id in IdSet(tasks) && MayFail(tasks, id)
  }

  function InitialIds(tasks: seq<Task>): seq<Id> {
    if tasks == [] then []
    else
      var t := tasks[|tasks| - 1];
      InitialIds(tasks[..|tasks| - 1]) + if |t.dependsOn| == 0 then [t.id] else []
  }

  lemma {:induction false} CountPositive(entries: seq<Dependency>, p: Id)
    ensures CountNaming(entries, p) > 0 <==> exists d :: d in entries && d.id == p
  {
    if entries != [] {
      var n := |entries| - 1;
      CountPositive(entries[..n], p);
      assert entries == entries[..n] + [entries[n]];
    }
  }

  lemma {:induction false} ChildrenMembers(tasks: seq<Task>, p: Id, c: Id)
    ensures c in Children(tasks, p) <==> exists t :: t in tasks && t.id == c && CountNaming(t.dependsOn, p) > 0
  {
    if tasks != [] {
      var n := |tasks| - 1;
      ChildrenMembers(tasks[..n], p, c);
      assert tasks == tasks[..n] + [tasks[n]];
      var k := CountNaming(tasks[n].dependsOn, p);
      assert k > 0 ==> Repeat(tasks[n].id, k)[0] == tasks[n].id;
    }
  }

  /** Inversion: a task is listed under `p` once for each of its own entries naming `p`. */
  lemma {:induction false} ChildMultiplicity(tasks: seq<Task>, t: Task, p: Id)
    requires UniqueIds(tasks) && t in tasks
    ensures multiset(Children(tasks, p))[t.id] == CountNaming(t.dependsOn, p)
  {
    var n := |tasks| - 1;
    var last := tasks[n];
    assert tasks == tasks[..n] + [last];
    RepeatCount(last.id, CountNaming(last.dependsOn, p), t.id);
    if t in tasks[..n] {
      ChildMultiplicity(tasks[..n], t, p);
    } else {
      forall u | u in tasks[..n] ensures u.id != t.id {
        var i :| 0 <= i < n && tasks[i] == u;
      }
      ChildrenMembers(tasks[..n], p, t.id);
    }
  }

  /** Children are listed in the order of the tasks. */
  lemma {:induction false} ChildrenConcat(a: seq<Task>, b: seq<Task>, p: Id)
    ensures Children(a + b, p) == Children(a, p) + Children(b, p)
  {
    if b == [] {
      assert a + b == a;
    } else {
      var n := |b| - 1;
      ChildrenConcat(a, b[..n], p);
      assert (a + b)[..|a + b| - 1] == a + b[..n];
    }
  }

  lemma {:induction false} RepeatCount(id: Id, n: nat, c: Id)
    ensures multiset(Repeat(id, n))[c] == if c == id then n else 0
  {
    if n > 0 {
      RepeatCount(id, n - 1, c);
      assert Repeat(id, n) == Repeat(id, n - 1) + [id];
    }
  }

  function EntryTotal(tasks: seq<Task>): nat {
    if tasks == [] then 0 else EntryTotal(tasks[..|tasks| - 1]) + |tasks[|tasks| - 1].dependsOn|
  }

  /** The number of children listed under `keys`. */
  function ChildTotal(tasks: seq<Task>, keys: seq<Id>): nat {
    if keys == [] then 0 else ChildTotal(tasks, keys[..|keys| - 1]) + |Children(tasks, keys[|keys| - 1])|
  }

  function NamingTotal(entries: seq<Dependency>, keys: seq<Id>): nat {
    if keys == [] then 0
    else NamingTotal(entries, keys[..|keys| - 1]) + CountNaming(entries, keys[|keys| - 1])
  }

  /** Conservation: no entry is lost and none is counted twice. */
  lemma {:induction false} EntriesConserved(tasks: seq<Task>, keys: seq<Id>)
    requires Distinct(keys)
    requires forall t, d :: t in tasks && d in t.dependsOn ==> d.id in keys
    ensures ChildTotal(tasks, keys) == EntryTotal(tasks)
  {
    if tasks == [] {
      NoChildren(keys);
    } else {
      var n := |tasks| - 1;
      assert tasks == tasks[..n] + [tasks[n]];
      EntriesConserved(tasks[..n], keys);
      OneTaskMore(tasks, keys);
      EveryEntryNamed(tasks[n].dependsOn, keys);
    }
  }

  lemma {:induction false} NoChildren(keys: seq<Id>)
    ensures ChildTotal([], keys) == 0
  {
    if keys != [] { NoChildren(keys[..|keys| - 1]); }
  }

  lemma {:induction false} OneTaskMore(tasks: seq<Task>, keys: seq<Id>)
    requires tasks != []
    ensures ChildTotal(tasks, keys)
         == ChildTotal(tasks[..|tasks| - 1], keys) + NamingTotal(tasks[|tasks| - 1].dependsOn, keys)
  {
    if keys != [] { OneTaskMore(tasks, keys[..|keys| - 1]); }
  }

  lemma {:induction false} EveryEntryNamed(entries: seq<Dependency>, keys: seq<Id>)
    requires Distinct(keys) && forall d :: d in entries ==> d.id in keys
    ensures NamingTotal(entries, keys) == |entries|
  {
    if entries == [] {
      NothingNamed(keys);
    } else {
      var n := |entries| - 1;
      assert entries == entries[..n] + [entries[n]];
      EveryEntryNamed(entries[..n], keys);
      OneEntryMore(entries, keys);
    }
  }

  lemma {:induction false} NothingNamed(keys: seq<Id>)
    ensures NamingTotal([], keys) == 0
  {
    if keys != [] { NothingNamed(keys[..|keys| - 1]); }
  }

  lemma {:induction false} OneEntryMore(entries: seq<Dependency>, keys: seq<Id>)
    requires entries != [] && Distinct(keys)
    ensures NamingTotal(entries, keys)
         == NamingTotal(entries[..|entries| - 1], keys) + if entries[|entries| - 1].id in keys then 1 else 0
  {
    if keys != [] {
      var n := |keys| - 1;
      assert keys == keys[..n] + [keys[n]];
      OneEntryMore(entries, keys[..n]);
    }
  }

  /** The graph handed to the validator meets its demands. */
  lemma {:induction false} GraphWellFormed(tasks: seq<Task>)
    requires UniqueIds(tasks) && forall t :: t in tasks ==> ':' !in t.id
    ensures WellFormed(GraphOf(tasks)) && RootsIn(GraphOf(tasks), InitialIds(tasks))
    ensures ProperRoots(GraphOf(tasks), InitialIds(tasks))
    ensures ChildEdges(GraphOf(tasks)) == set e | e in Edges(tasks) && e.1 in IdSet(tasks) :: (e.1, e.0)
  {
    var g := GraphOf(tasks);
    InitialIdsAre(tasks);
    forall k | 0 <= k < |InitialIds(tasks)| ensures InitialIds(tasks)[k] in g {
      assert InitialIds(tasks)[k] in InitialIds(tasks);
    }
    forall p, i | p in g && 0 <= i < |g[p]| ensures g[p][i] in g && g[p][i] !in InitialIds(tasks) && (g[p][i], p) in Edges(tasks) {
      var c := g[p][i];
      ChildrenMembers(tasks, p, c);
      var t :| t in tasks && t.id == c && CountNaming(t.dependsOn, p) > 0;
      CountPositive(t.dependsOn, p);
      forall u | u in tasks && u.id == c ensures u == t {
        TaskByIdUnique(tasks, t);
        TaskByIdUnique(tasks, u);
      }
    }
    forall e | e in Edges(tasks) && e.1 in IdSet(tasks) ensures e.0 in g[e.1] {
      var t, d :| t in tasks && d in t.dependsOn && e == (t.id, d.id);
      CountPositive(t.dependsOn, d.id);
      ChildrenMembers(tasks, d.id, t.id);
    }
  }

  lemma {:induction false} InitialIdsAre(tasks: seq<Task>)
    requires UniqueIds(tasks)
    ensures forall c :: c in InitialIds(tasks) <==> exists t :: t in tasks && t.id == c && t.dependsOn == []
    ensures Distinct(InitialIds(tasks))
  {
    if tasks != [] {
      var n := |tasks| - 1;
      InitialIdsAre(tasks[..n]);
      assert tasks == tasks[..n] + [tasks[n]];
      forall t | t in tasks[..n] ensures t.id != tasks[n].id {
        var i :| 0 <= i < n && tasks[i] == t;
      }
      assert tasks[n].id !in InitialIds(tasks[..n]);
    }
  }

  datatype Validation = Accepted | InvalidDependencies | MissingInitialTasks | CycleDetected

  /** The verdict of `_set_tasks`. */
  ghost function Validate(tasks: seq<Task>): Validation {
    if !DependenciesExist(tasks) then InvalidDependencies
    else if InitialIds(tasks) == [] then MissingInitialTasks
    else if RoutesMeet(GraphOf(tasks), InitialIds(tasks)) then CycleDetected
    else Accepted
  }

  /** What each verdict means for the tasks. */
  lemma {:induction false} VerdictMeans(tasks: seq<Task>)
    requires UniqueIds(tasks) && forall t :: t in tasks ==> ':' !in t.id
    ensures Validate(tasks) == InvalidDependencies <==>
      exists t, d :: t in tasks && d in t.dependsOn && (d.id == t.id || forall u :: u in tasks ==> u.id != d.id)
    ensures Validate(tasks) == MissingInitialTasks <==>
      Validate(tasks) != InvalidDependencies && forall t :: t in tasks ==> |t.dependsOn| > 0
    ensures Validate(tasks) == CycleDetected <==>
      && Validate(tasks) != InvalidDependencies && Validate(tasks) != MissingInitialTasks
      && HasJoin(GraphOf(tasks), InitialIds(tasks))
  {
    InitialIdsAre(tasks);
    EmptyOrInhabited(InitialIds(tasks));
    GraphWellFormed(tasks);
    MeetIffHasJoin(GraphOf(tasks), InitialIds(tasks));
    DependenciesExistIff(tasks);
    hide GraphOf, HasJoin, RoutesMeet, DependenciesExist;
    forall t | t in tasks && |t.dependsOn| == 0 ensures t.id in InitialIds(tasks) {
      assert t.dependsOn == [];
    }
  }

  lemma {:induction false} DependenciesExistIff(tasks: seq<Task>)
    ensures !DependenciesExist(tasks) <==>
      exists t, d :: t in tasks && d in t.dependsOn && (d.id == t.id || forall u :: u in tasks ==> u.id != d.id)
  {
    forall id ensures id !in IdSet(tasks) <==> forall u :: u in tasks ==> u.id != id {
    }
    hide IdSet;
  }

  /** The child `c` of `p` carries a first entry for `p` that allows failure. */
  ghost predicate ChildAllows(tasks: seq<Task>, p: Id, c: Id) {
    c in IdSet(tasks) && var entries := TaskById(tasks, c).dependsOn;
    CountNaming(entries, p) > 0 && FirstEntry(entries, p).canFail
  }

  ghost predicate AllAllow(tasks: seq<Task>, p: Id, children: seq<Id>) {
    forall c :: c in children ==> ChildAllows(tasks, p, c)
  }

  lemma {:induction false} NobodyObjects(tasks: seq<Task>, p: Id)
    ensures AllAllow(tasks, p, [])
  {
  }

  lemma {:induction false} OneMoreAllows(tasks: seq<Task>, p: Id, children: seq<Id>, j: nat)
    requires j < |children|
    ensures AllAllow(tasks, p, children[..j + 1]) <==> AllAllow(tasks, p, children[..j]) && ChildAllows(tasks, p, children[j])
  {
    assert children[..j + 1] == children[..j] + [children[j]];
  }

  lemma {:induction false} ChildKnown(tasks: seq<Task>, p: Id, c: Id)
    requires UniqueIds(tasks) && c in Children(tasks, p)
    ensures c in IdSet(tasks) && CountNaming(TaskById(tasks, c).dependsOn, p) > 0
    ensures ChildAllows(tasks, p, c) <==> FirstEntry(TaskById(tasks, c).dependsOn, p).canFail
  {
    ChildrenMembers(tasks, p, c);
    var t :| t in tasks && t.id == c && CountNaming(t.dependsOn, p) > 0;
    TaskByIdUnique(tasks, t);
  }

  lemma {:induction false} MayFailByChildren(tasks: seq<Task>, p: Id)
    requires UniqueIds(tasks)
    ensures MayFail(tasks, p) <==> Children(tasks, p) != [] && AllAllow(tasks, p, Children(tasks, p))
  {
    forall c | c in Children(tasks, p) ensures c in IdSet(tasks) && CountNaming(TaskById(tasks, c).dependsOn, p) > 0 {
      ChildKnown(tasks, p, c);
    }
    forall t | t in tasks && CountNaming(t.dependsOn, p) > 0 ensures t.id in Children(tasks, p) && TaskById(tasks, t.id) == t {
      ChildrenMembers(tasks, p, t.id);
      TaskByIdUnique(tasks, t);
    }
  }
}
