// The executor of one workflow: the methods that update its state in place,
// each tied to the step of the transition system it performs.
module WorkflowExecutor {
  import opened Relations
  import opened Tasks
  import opened GraphValidator
  import opened DependencyGraph
  import opened Events
  import opened Scheduler
  import opened SchedulerInvariants

  // The in-place fetch.

  function RemoveFirst(q: seq<Task>, t: Task): seq<Task> {
    if q == [] then [] else if q[0] == t then q[1..] else [q[0]] + RemoveFirst(q[1..], t)
  }

  lemma {:induction false} RemoveFirstAt(q: seq<Task>, t: Task, i: nat)
    requires i < |q| && q[i] == t && t !in q[..i]
    ensures RemoveFirst(q, t) == q[..i] + q[i + 1..]
  {
    if i > 0 {
      assert q[0] in q[..i];
      assert forall u :: u in q[1..][..i - 1] ==> u in q[..i];
      RemoveFirstAt(q[1..], t, i - 1);
    }
  }

  function Without(q: seq<Task>, gone: seq<Task>): seq<Task> {
    if q == [] then [] else (if q[0] in gone then [] else [q[0]]) + Without(q[1..], gone)
  }

  lemma {:induction false} SiftAppend(s: State, q: seq<Task>, t: Task, ready: bool)
    ensures Sift(s, q + [t], ready) == Sift(s, q, ready) + if Ready(s, t) == ready then [t] else []
  {
    if q == [] {
      assert [t][1..] == [];
    } else {
      SiftAppend(s, q[1..], t, ready);
      assert (q + [t])[1..] == q[1..] + [t];
    }
  }

  lemma {:induction false} RemoveOneMore(q: seq<Task>, gone: seq<Task>, t: Task)
    requires UniqueIds(q) && t !in gone
    ensures RemoveFirst(Without(q, gone), t) == Without(q, gone + [t])
  {
    if q != [] {
      RemoveOneMore(q[1..], gone, t);
      var rest := Without(q[1..], gone);
      assert [] + rest == rest && ([q[0]] + rest)[1..] == rest;
      if q[0] == t {
        assert forall u :: u in q[1..] ==> u != t;
        WithoutAbsent(q[1..], gone, t);
      }
    }
  }

  lemma {:induction false} WithoutAbsent(q: seq<Task>, gone: seq<Task>, t: Task)
    requires t !in q
    ensures Without(q, gone + [t]) == Without(q, gone)
  {
    if q != [] {
      WithoutAbsent(q[1..], gone, t);
    }
  }

  lemma {:induction false} WithoutNothing(q: seq<Task>)
    ensures Without(q, []) == q
  {
    if q != [] {
      WithoutNothing(q[1..]);
    }
  }

  lemma {:induction false} WithoutReady(s: State, q: seq<Task>, gone: seq<Task>)
    requires forall t :: t in q ==> (t in gone <==> Ready(s, t))
    ensures Without(q, gone) == Sift(s, q, false)
  {
    if q != [] {
      WithoutReady(s, q[1..], gone);
      assert q[0] in q;
    }
  }

  lemma {:induction false} WithoutMember(q: seq<Task>, gone: seq<Task>, t: Task)
    requires t in q && t !in gone
    ensures t in Without(q, gone)
  {
    if q[0] != t {
      WithoutMember(q[1..], gone, t);
    }
  }

  lemma {:induction false} IdsOfAppend(ts: seq<Task>, t: Task)
    ensures IdsOf(ts + [t]) == IdsOf(ts) + [t.id]
  {
    if ts == [] {
      assert [t][1..] == [];
    } else {
      IdsOfAppend(ts[1..], t);
      assert (ts + [t])[1..] == ts[1..] + [t];
    }
  }

  lemma {:induction false} RemovalStarts(q: seq<Task>, ready: seq<Task>)
    ensures Without(q, ready[..0]) == q && IdsOf(ready[..0]) == []
  {
    WithoutNothing(q);
    assert ready[..0] == [];
  }

  lemma {:induction false} RemovalAdvances(q: seq<Task>, ready: seq<Task>, k: nat)
    requires UniqueIds(q) && UniqueIds(ready) && k < |ready| && forall t :: t in ready ==> t in q
    ensures ready[k] in Without(q, ready[..k])
    ensures RemoveFirst(Without(q, ready[..k]), ready[k]) == Without(q, ready[..k + 1])
    ensures IdsOf(ready[..k + 1]) == IdsOf(ready[..k]) + [ready[k].id]
  {
    assert ready[..k + 1] == ready[..k] + [ready[k]];
    WithoutMember(q, ready[..k], ready[k]);
    RemoveOneMore(q, ready[..k], ready[k]);
    IdsOfAppend(ready[..k], ready[k]);
  }

  lemma {:induction false} RemovalEnds(s: State, q: seq<Task>, ready: seq<Task>)
    requires forall t :: t in q ==> (t in ready <==> Ready(s, t))
    ensures Without(q, ready[..|ready|]) == Sift(s, q, false) && IdsOf(ready[..|ready|]) == IdsOf(ready)
  {
    assert ready[..|ready|] == ready;
    WithoutReady(s, q, ready);
  }

  ghost predicate AllKnown(tasks: seq<Task>, t: Task) {
    forall d :: d in t.dependsOn ==> d.id in IdSet(tasks)
  }

  /** The check comes to an unknown task before it comes to one that is not settled. */
  ghost predicate MeetsUnknown(s: State, t: Task) {
    exists k :: 0 <= k < |t.dependsOn| && t.dependsOn[k].id !in IdSet(s.tasks)
      && forall d :: d in t.dependsOn[..k] ==> d.id in IdSet(s.tasks) && Settled(s, d)
  }

  lemma {:induction false} DependenciesKnown(s: State, t: Task)
    requires DependenciesExist(s.tasks) && t in s.tasks
    ensures AllKnown(s.tasks, t) && !MeetsUnknown(s, t)
  {
  }

  /** The result of a readiness check; `IllegalDependency` is the exception raised for an unknown task. */
  datatype Readiness = IsReady | NotReady | IllegalDependency

  class WorkflowExecutor {
    var tasks: seq<Task>
    var canFail: set<Id>
    var dependencyGraph: Graph
    var queue: seq<Task>
    var threads: seq<Id>
    var finished: seq<Id>
    var succeeded: seq<Id>
    var failed: seq<Id>
    var skipped: seq<Id>
    var executors: set<Id>
    var cleaned: seq<Id>
    var published: seq<Event>
    ghost var active: map<Id, Phase>
    ghost var dead: set<Id>

    ghost function Abs(): State
      reads this
    {
      State(tasks, canFail, queue, threads, active, dead, finished, succeeded, failed, skipped, executors, cleaned, published)
    }

    constructor ()
      ensures Abs() == NO_RUN
    {
      tasks, canFail, dependencyGraph, queue, threads := [], {}, map[], [], [];
      finished, succeeded, failed, skipped, executors := [], [], [], [], {};
      cleaned, published, active, dead := [], [], map[], {};
    }

    // Setting the tasks.

    method CountInvalidDependencies(ts: seq<Task>) returns (invalid: nat)
      ensures invalid == 0 <==> DependenciesExist(ts)
    {
      invalid := 0;
      for i := 0 to |ts|
        invariant invalid == 0 <==> forall k :: 0 <= k < i ==> EntriesValid(ts, ts[k].id, ts[k].dependsOn)
      {
        var sofar := invalid;
        for j := 0 to |ts[i].dependsOn|
          invariant invalid >= sofar
          invariant invalid == sofar <==> EntriesValid(ts, ts[i].id, ts[i].dependsOn[..j])
        {
          var dep := ts[i].dependsOn[j];
          assert ts[i].dependsOn[..j + 1] == ts[i].dependsOn[..j] + [dep];
          if dep.id == ts[i].id {
            invalid := invalid + 1;
          }
          if dep.id !in IdSet(ts) {
            invalid := invalid + 1;
          }
        }
        assert ts[i].dependsOn[..|ts[i].dependsOn|] == ts[i].dependsOn;
      }
      AllEntriesValid(ts);
    }

    method BuildGraph()
      requires DependenciesExist(tasks)
      modifies this`dependencyGraph
      ensures dependencyGraph == GraphOf(tasks)
    {
      hide Children, ChildrenSoFar, DependenciesExist;
      dependencyGraph := map id | id in IdSet(tasks) :: [];
      InversionStarts(tasks);
      for i := 0 to |tasks|
        invariant dependencyGraph.Keys == IdSet(tasks)
        invariant forall p :: p in dependencyGraph ==> dependencyGraph[p] == Children(tasks[..i], p)
      {
        AddChildren(tasks[i], i);
      }
      assert tasks[..|tasks|] == tasks;
    }

    /** The inner loop of the inversion: one task's entries. */
    method AddChildren(t: Task, ghost i: nat)
      requires i < |tasks| && tasks[i] == t && DependenciesExist(tasks)
      requires dependencyGraph.Keys == IdSet(tasks)
      requires forall p :: p in dependencyGraph ==> dependencyGraph[p] == Children(tasks[..i], p)
      modifies this`dependencyGraph
      ensures dependencyGraph.Keys == IdSet(tasks)
      ensures forall p :: p in dependencyGraph ==> dependencyGraph[p] == Children(tasks[..i + 1], p)
    {
      ghost var before := tasks[..i];
      OneTaskFurther(tasks, i);
      assert forall d :: d in t.dependsOn ==> d.id in IdSet(tasks);
      hide Children, ChildrenSoFar, DependenciesExist, IdSet;
      for j := 0 to |t.dependsOn|
        invariant dependencyGraph.Keys == IdSet(tasks)
        invariant forall p :: p in dependencyGraph ==> dependencyGraph[p] == ChildrenSoFar(before, t, j, p)
      {
        var parent := t.dependsOn[j].id;
        assert t.dependsOn[j] in t.dependsOn;
        OneEntryFurther(before, t, j);
        dependencyGraph := dependencyGraph[parent := dependencyGraph[parent] + [t.id]];
      }
    }

    method ResolveCanFail()
      requires UniqueIds(tasks) && dependencyGraph == GraphOf(tasks)
      modifies this`canFail
      ensures canFail == MayFailSet(tasks)
    {
      hide MayFail, UniqueIds;
      canFail := {};
      for k := 0 to |tasks|
        invariant canFail == set i | 0 <= i < k && MayFail(tasks, tasks[i].id) :: tasks[i].id
      {
        var may := ParentMayFail(tasks[k].id);
        if may {
          canFail := canFail + {tasks[k].id};
        }
      }
    }

    /** The flags of one parent's children, combined. */
    method ParentMayFail(parent: Id) returns (may: bool)
      requires UniqueIds(tasks) && dependencyGraph == GraphOf(tasks) && parent in IdSet(tasks)
      ensures may <==> MayFail(tasks, parent)
    {
      var children := dependencyGraph[parent];
      assert children == Children(tasks, parent);
      MayFailByChildren(tasks, parent);
      hide GraphOf, MayFail, UniqueIds, Children, ChildAllows, AllAllow, TaskById, FirstEntry, CountNaming;
      may := true;
      NobodyObjects(tasks, parent);
      for j := 0 to |children|
        invariant may <==> AllAllow(tasks, parent, children[..j])
      {
        ChildKnown(tasks, parent, children[j]);
        OneMoreAllows(tasks, parent, children, j);
        var child := TaskById(tasks, children[j]);
        var dep := FirstEntry(child.dependsOn, parent);
        may := may && dep.canFail;
      }
      assert children[..|children|] == children;
      may := |children| > 0 && may;
    }

    /** Validates the tasks, derives the graph and the flags, and queues the tasks if nothing is wrong with them. */
    method SetTasks(ts: seq<Task>) returns (v: Validation)
      requires UniqueIds(ts) && forall t :: t in ts ==> ':' !in t.id
      modifies this`tasks, this`canFail, this`dependencyGraph, this`queue
      ensures v == Validate(ts)
      ensures v == InvalidDependencies ==> unchanged(this)
      ensures v != InvalidDependencies ==> tasks == ts && dependencyGraph == GraphOf(ts) && canFail == MayFailSet(ts)
      ensures queue == if v == Accepted then ts else old(queue)
    {
      var invalid := CountInvalidDependencies(ts);
      if invalid > 0 {
        return InvalidDependencies;
      }
      tasks := ts;
      BuildGraph();
      ResolveCanFail();
      var initial := InitialIds(tasks);
      if |initial| == 0 {
        return MissingInitialTasks;
      }
      GraphWellFormed(tasks);
      var validator := new Validator();
      var cyclic := validator.HasCycle(dependencyGraph, initial);
      if cyclic {
        return CycleDetected;
      }
      queue := tasks;
      return Accepted;
    }

    /** The entry point, from staging to the first threads. */
    method Start(ts: seq<Task>, paramsValid: bool) returns (v: Validation)
      requires Abs() == NO_RUN
      requires UniqueIds(ts) && forall t :: t in ts ==> ':' !in t.id
      modifies this
      ensures v == Validate(ts) && Abs() == Launch(ts, v, paramsValid)
    {
      executors := IdSet(ts);
      v := SetTasks(ts);
      if v != Accepted {
        Publish(FAILED);
      }
      assert Abs() == Staged(ts, v);
      if !paramsValid {
        Publish(FAILED);
        return;
      }
      assert UniqueIds(queue) && DependenciesExist(tasks);
      hide MayFailSet, Sift, IdsOf, DependenciesExist, UniqueIds;
      var unstarted := FetchReadyTasks();
      Publish(ACTIVE);
      StartThreads(unstarted);
    }

    // Fetching ready tasks.

    method TaskIsReady(task: Task) returns (r: Readiness)
      ensures r == IsReady <==> Ready(Abs(), task) && AllKnown(tasks, task)
      ensures r == IllegalDependency <==> MeetsUnknown(Abs(), task)
    {
      if |task.dependsOn| == 0 {
        return IsReady;
      }
      for k := 0 to |task.dependsOn|
        invariant forall d :: d in task.dependsOn[..k] ==> d.id in IdSet(tasks) && Settled(Abs(), d)
      {
        var dep := task.dependsOn[k];
        if dep.id !in IdSet(tasks) {
          return IllegalDependency;
        }
        if dep.id in canFail && dep.id in failed {
          assert task.dependsOn[..k + 1] == task.dependsOn[..k] + [dep];
          continue;
        }
        if dep.id !in finished {
          assert dep in task.dependsOn && !Settled(Abs(), dep);
          return NotReady;
        }
        assert task.dependsOn[..k + 1] == task.dependsOn[..k] + [dep];
      }
      assert task.dependsOn[..|task.dependsOn|] == task.dependsOn;
      return IsReady;
    }

    method RemoveFromQueue(task: Task)
      requires queue == [] || task in queue
      modifies this`queue
      ensures queue == RemoveFirst(old(queue), task)
    {
      if |queue| > 0 {
        var i := 0;
        while queue[i] != task
          invariant 0 <= i < |queue| && task in queue[i..] && task !in queue[..i]
          decreases |queue| - i
        {
          assert queue[i..] == [queue[i]] + queue[i + 1..] && queue[..i + 1] == queue[..i] + [queue[i]];
          i := i + 1;
        }
        RemoveFirstAt(queue, task, i);
        queue := queue[..i] + queue[i + 1..];
      }
    }

    /** The first loop of a fetch: which queued tasks are ready, all judged before any is removed. */
    method CollectReady() returns (readyTasks: seq<Task>)
      requires DependenciesExist(tasks) && forall t :: t in queue ==> t in tasks
      ensures readyTasks == Sift(Abs(), queue, true)
    {
      ghost var s := Abs();
      assert Sift(s, queue[..0], true) == [];
      hide Sift, Ready, DependenciesExist, AllKnown, MeetsUnknown;
      readyTasks := [];
      for i := 0 to |queue|
        invariant readyTasks == Sift(s, queue[..i], true)
      {
        SiftAppend(s, queue[..i], queue[i], true);
        assert queue[..i + 1] == queue[..i] + [queue[i]];
        assert queue[i] in queue;
        DependenciesKnown(s, queue[i]);
        var r := TaskIsReady(queue[i]);
        if r == IsReady {
          readyTasks := readyTasks + [queue[i]];
        }
      }
      assert queue[..|queue|] == queue;
    }

    /** Takes the ready tasks out of the queue, in place, and hands over one unstarted thread for each. */
    method FetchReadyTasks() returns (unstarted: seq<Id>)
      requires UniqueIds(queue) && DependenciesExist(tasks) && forall t :: t in queue ==> t in tasks
      modifies this`queue
      ensures Abs() == Dequeue(old(Abs()))
      ensures unstarted == IdsOf(Sift(old(Abs()), old(queue), true))
    {
      ghost var s, q := Abs(), queue;
      var readyTasks := CollectReady();
      SiftMembers(s, q, true);
      RemovalStarts(q, readyTasks);
      RemovalEnds(s, q, readyTasks);
      hide Sift, Without, RemoveFirst, Ready, IdsOf, UniqueIds, DependenciesExist;
      unstarted := [];
      for k := 0 to |readyTasks|
        invariant queue == Without(q, readyTasks[..k])
        invariant unstarted == IdsOf(readyTasks[..k])
      {
        RemovalAdvances(q, readyTasks, k);
        RemoveFromQueue(readyTasks[k]);
        unstarted := unstarted + [readyTasks[k].id];
      }
    }

    /** The hook on `ready_tasks`: starts each thread and appends it. */
    method StartThreads(readyTasks: seq<Id>)
      modifies this`threads, this`active
      ensures Abs() == Spawn(old(Abs()), readyTasks)
    {
      ghost var s := Abs();
      SpawnNothing(s);
      hide Spawn;
      for k := 0 to |readyTasks|
        invariant Abs() == Spawn(s, readyTasks[..k])
      {
        SpawnOneMore(s, readyTasks[..k], readyTasks[k]);
        assert readyTasks[..k + 1] == readyTasks[..k] + [readyTasks[k]];
        active := active[readyTasks[k] := Spawned];
        threads := threads + [readyTasks[k]];
      }
      assert readyTasks[..|readyTasks|] == readyTasks;
    }

    // Running a task.

    /** The first half of a task's thread: decide whether to skip, fail or execute. */
    method Decide(task: Task, outcome: Outcome)
      requires task in tasks && UniqueIds(tasks)
      modifies this`active, this`dead, this`published
      ensures Abs() == Begin(old(Abs()), task.id, outcome)
    {
      TaskByIdUnique(tasks, task);
      var skip := false;
      var i := 0;
      while i < |task.dependsOn| && !skip
        invariant 0 <= i <= |task.dependsOn|
        invariant skip ==> SkippedByDependency(Abs(), task)
        invariant !skip ==> forall d :: d in task.dependsOn[..i] ==> d.id !in skipped || d.canSkip
        decreases |task.dependsOn| - i, !skip
      {
        var dep := task.dependsOn[i];
        assert task.dependsOn[..i + 1] == task.dependsOn[..i] + [dep];
        if dep.id in skipped && dep.canSkip == false {
          skip := true;
          assert dep in task.dependsOn;
        } else {
          i := i + 1;
        }
      }
      if skip || outcome == ConditionsFail {
        active := active[task.id := Resolved(-1)];
      } else if outcome == ConditionError {
        active := active[task.id := Resolved(1)];
      } else if outcome == Escapes {
        active, dead := active - {task.id}, dead + {task.id};
      } else {
        Publish(OfTask(TASK_ACTIVE, task.id));
        active := active[task.id := Executing];
      }
    }

    method Publish(e: Event)
      modifies this`published
      ensures published == old(published) + [e]
    {
      published := published + [e];
    }

    method OnTaskCompleted(id: Id)
      modifies this`published, this`finished, this`succeeded
      ensures published == old(published) + [OfTask(TASK_COMPLETED, id)]
      ensures finished == old(finished) + [id] && succeeded == old(succeeded) + [id]
    {
      Publish(OfTask(TASK_COMPLETED, id));
      finished := finished + [id];
      succeeded := succeeded + [id];
    }

    method OnTaskSkipped(id: Id)
      modifies this`published, this`finished, this`skipped
      ensures published == old(published) + [OfTask(TASK_SKIPPED, id)]
      ensures finished == old(finished) + [id] && skipped == old(skipped) + [id]
    {
      Publish(OfTask(TASK_SKIPPED, id));
      finished := finished + [id];
      skipped := skipped + [id];
    }

    method OnTaskFailed(id: Id)
      modifies this`published, this`finished, this`failed
      ensures published == old(published) + [OfTask(TASK_FAILED, id)]
      ensures finished == old(finished) + [id] && failed == old(failed) + [id]
    {
      Publish(OfTask(TASK_FAILED, id));
      finished := finished + [id];
      failed := failed + [id];
    }

    /** The lookup of a missing executor raises; `OnTaskTerminalState` shows that it never does. */
    method DeregisterExecutor(id: Id)
      requires id in executors
      modifies this`executors, this`cleaned
      ensures executors == old(executors) - {id} && cleaned == old(cleaned) + [id]
    {
      cleaned := cleaned + [id];
      executors := executors - {id};
    }

    /** The callback for a result, and the end of its executor and its thread. */
    method RecordResult(id: Id, status: int)
      requires id in executors
      modifies this
      ensures Abs() == Record(old(Abs()), id, status)
    {
      if status == 0 {
        OnTaskCompleted(id);
      } else if status < 0 {
        OnTaskSkipped(id);
      } else {
        OnTaskFailed(id);
      }
      DeregisterExecutor(id);
      active := active - {id};
    }

    /** The second half of a task's thread, up to the threads it is about to start. */
    method OnTaskTerminalState(task: Task, status: int) returns (unstarted: seq<Id>)
      requires Inv(Abs()) && task in tasks && Enabled(Abs(), CompleteStep(task.id, status))
      modifies this
      ensures Spawn(Abs(), unstarted) == Complete(old(Abs()), task.id, status)
    {
      ghost var s := Abs();
      FinishingIsSafe(s, task.id, status);
      hide Inv, Enabled, UniqueIds, DependenciesExist, Sift, IdsOf, Spawn, Record;
      RecordResult(task.id, status);
      if |tasks| == |finished| {
        Publish(COMPLETED);
        SpawnNothing(Abs());
        return [];
      }
      if status > 0 && task.id !in canFail {
        Publish(FAILED);
        SpawnNothing(Abs());
        return [];
      }
      unstarted := FetchReadyTasks();
    }

    /** The second half of a task's thread: one completion, one atomic step. */
    method Finish(task: Task, status: int)
      requires Inv(Abs()) && task in tasks && Enabled(Abs(), CompleteStep(task.id, status))
      modifies this
      ensures Abs() == Complete(old(Abs()), task.id, status) && Inv(Abs())
    {
      CompleteKeeps(Abs(), task.id, status);
      hide Complete, Inv;
      var unstarted := OnTaskTerminalState(task, status);
      StartThreads(unstarted);
    }
  }

  ghost predicate EntriesValid(ts: seq<Task>, id: Id, entries: seq<Dependency>) {
    forall d :: d in entries ==> d.id != id && d.id in IdSet(ts)
  }

  lemma {:induction false} AllEntriesValid(ts: seq<Task>)
    ensures DependenciesExist(ts) <==> forall k :: 0 <= k < |ts| ==> EntriesValid(ts, ts[k].id, ts[k].dependsOn)
  {
  }

  /** What is listed under `p` when `before` and the first `j` entries of `t` have been inverted. */
  ghost function ChildrenSoFar(before: seq<Task>, t: Task, j: nat, p: Id): seq<Id>
    requires j <= |t.dependsOn|
  {
    Children(before, p) + Repeat(t.id, CountNaming(t.dependsOn[..j], p))
  }

  lemma {:induction false} InversionStarts(tasks: seq<Task>)
    ensures forall p :: Children(tasks[..0], p) == []
  {
  }

  lemma {:induction false} OneEntryFurther(before: seq<Task>, t: Task, j: nat)
    requires j < |t.dependsOn|
    ensures forall p :: ChildrenSoFar(before, t, j + 1, p) == ChildrenSoFar(before, t, j, p) + if p == t.dependsOn[j].id then [t.id] else []
  {
    assert t.dependsOn[..j + 1][..j] == t.dependsOn[..j];
  }

  lemma {:induction false} OneTaskFurther(tasks: seq<Task>, i: nat)
    requires i < |tasks|
    ensures forall p :: ChildrenSoFar(tasks[..i], tasks[i], 0, p) == Children(tasks[..i], p)
    ensures forall p :: ChildrenSoFar(tasks[..i], tasks[i], |tasks[i].dependsOn|, p) == Children(tasks[..i + 1], p)
  {
    assert tasks[..i + 1][..i] == tasks[..i] && tasks[i].dependsOn[..|tasks[i].dependsOn|] == tasks[i].dependsOn;
  }

  lemma {:induction false} SpawnOneMore(s: State, ids: seq<Id>, id: Id)
    ensures var s1 := Spawn(s, ids);
            Spawn(s, ids + [id]) == s1.(threads := s1.threads + [id], active := s1.active[id := Spawned])
  {
    var s1 := Spawn(s, ids);
    assert Spawn(s, ids + [id]).active == s1.active[id := Spawned];
    assert s.threads + (ids + [id]) == (s.threads + ids) + [id];
  }

  lemma {:induction false} SpawnNothing(s: State)
    ensures Spawn(s, []) == s
  {
    assert Spawn(s, []).active == s.active;
  }

  /** What a completion relies on: its executor is still registered and its queue holds known tasks. */
  lemma {:induction false} FinishingIsSafe(s: State, id: Id, status: int)
    requires Inv(s) && Enabled(s, CompleteStep(id, status))
    ensures id in s.executors && DependenciesExist(s.tasks)
    ensures UniqueIds(s.queue) && forall t :: t in s.queue ==> t in s.tasks
  {
    UnstartedMembers(s.tasks, s.threads);
  }
}
