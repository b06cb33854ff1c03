// What holds of every run: any interleaving of the threads, any conditions, any results.
module Runs {
  import opened Relations
  import opened Tasks
  import opened DependencyGraph
  import opened Events
  import opened Scheduler
  import opened SchedulerInvariants

  lemma {:induction false} StepsKeep(s: State, run: seq<Step>)
    requires Inv(s) && IsRun(s, run)
    ensures Inv(After(s, run)) && After(s, run).tasks == s.tasks && After(s, run).canFail == s.canFail
    decreases |run|
  {
    if run != [] {
      StepKeeps(s, run[0]);
      StepsKeep(Apply(s, run[0]), run[1..]);
    }
  }

  lemma {:induction false} StepKeeps(s: State, a: Step)
    requires Inv(s) && Enabled(s, a)
    ensures Inv(Apply(s, a)) && Apply(s, a).tasks == s.tasks && Apply(s, a).canFail == s.canFail
  {
    if a.BeginStep? {
      BeginKeeps(s, a.id, a.outcome);
    } else {
      CompleteKeeps(s, a.id, a.status);
    }
  }

  /** The states a run can reach. */
  lemma {:induction false} RunKeeps(tasks: seq<Task>, run: seq<Step>)
    requires WellPosed(tasks) && IsRun(Launched(tasks), run)
    ensures Inv(After(Launched(tasks), run)) && After(Launched(tasks), run).tasks == tasks
    ensures After(Launched(tasks), run).canFail == MayFailSet(tasks)
  {
    LaunchKeeps(tasks);
    StepsKeep(Launched(tasks), run);
  }

  // Conservation.

  lemma {:induction false} PlacesPartition(s: State)
    requires UniqueIds(s.tasks) && Conserved(s)
    ensures IdSet(s.queue) + s.active.Keys + s.dead + (set id | id in s.finished) == IdSet(s.tasks)
    ensures IdSet(s.queue) !! s.active.Keys + s.dead + (set id | id in s.finished)
    ensures s.active.Keys !! s.dead + (set id | id in s.finished)
    ensures s.dead !! (set id | id in s.finished)
    ensures UniqueIds(s.queue)
  {
    UnstartedMembers(s.tasks, s.threads);
    forall id | id in IdSet(s.tasks) ensures id in IdSet(s.queue) <==> id !in s.threads {
      var t := TaskById(s.tasks, id);
      if u :| u in s.queue && u.id == id {
        assert u in s.tasks;
      }
    }
  }

  /** Queue, running, dead and finished share the tasks out between them; finished is
      shared out between succeeded, failed and skipped; executors are held exactly by
      the unfinished tasks and cleaned up in the order the tasks finish. */
  lemma {:induction false} TasksConserved(tasks: seq<Task>, run: seq<Step>)
    requires WellPosed(tasks) && IsRun(Launched(tasks), run)
    ensures var s := After(Launched(tasks), run);
            var finished := set id | id in s.finished;
      && IdSet(s.queue) + s.active.Keys + s.dead + finished == IdSet(tasks)
      && IdSet(s.queue) !! s.active.Keys + s.dead + finished
      && s.active.Keys !! s.dead + finished && s.dead !! finished
      && Distinct(s.finished) && UniqueIds(s.queue)
      && multiset(s.finished) == multiset(s.succeeded) + multiset(s.failed) + multiset(s.skipped)
      && s.executors == IdSet(tasks) - finished && s.cleaned == s.finished
      && s.queue == Unstarted(tasks, s.threads)
  {
    RunKeeps(tasks, run);
    PlacesPartition(After(Launched(tasks), run));
    hide Launched, Ordered, SkipsInherited;
  }

  // Order.

  /** In every reachable state a started task's dependencies are finished, and the
      start order is a topological order. */
  lemma {:induction false} StartsAfterDependencies(tasks: seq<Task>, run: seq<Step>, t: Task, d: Dependency, i: nat)
    requires WellPosed(tasks) && IsRun(Launched(tasks), run)
    requires t in tasks && d in t.dependsOn
    requires i < |After(Launched(tasks), run).threads| && After(Launched(tasks), run).threads[i] == t.id
    ensures var s := After(Launched(tasks), run); d.id in s.finished && d.id in s.threads[..i]
  {
    RunKeeps(tasks, run);
    hide Launched, IsRun, After, Conserved, SkipsInherited, CompletedOnce, WellPosed, Ordered;
    StartedAfter(After(Launched(tasks), run), t, d, i);
  }

  lemma {:induction false} StartedAfter(s: State, t: Task, d: Dependency, i: nat)
    requires Ordered(s) && t in s.tasks && d in t.dependsOn && i < |s.threads| && s.threads[i] == t.id
    ensures d.id in s.finished && d.id in s.threads[..i]
  {
    assert (t.id, d.id) in Edges(s.tasks);
  }

  lemma {:induction false} ParentStarted(E: set<(Id, Id)>, threads: seq<Id>, finished: seq<Id>, c: Id, p: Id)
    requires OrderedBy(E, threads, finished) && (c, p) in E && c in threads
    ensures p in threads && p in finished && IndexIn(threads, p) < IndexIn(threads, c)
  {
    var i := IndexIn(threads, c);
    assert threads[i] == c && (threads[i], p) in E;
    assert p in finished && p in threads[..i];
    var j :| 0 <= j < i && threads[j] == p;
    IndexIsFirst(threads, j);
  }

  lemma {:induction false} IndexIsFirst(s: seq<Id>, j: nat)
    requires j < |s|
    ensures IndexIn(s, s[j]) <= j
  {
    if j > 0 && s[0] != s[j] {
      IndexIsFirst(s[1..], j - 1);
    }
  }

  lemma {:induction false} WalkStarted(E: set<(Id, Id)>, threads: seq<Id>, finished: seq<Id>, w: seq<Id>)
    requires OrderedBy(E, threads, finished) && Walk(E, w) && w[0] in threads
    ensures forall i :: 0 <= i < |w| ==> w[i] in threads
  {
    if |w| > 1 {
      WalkStarted(E, threads, finished, w[..|w| - 1]);
      var n := |w| - 2;
      assert (w[n], w[n + 1]) in E && w[n] == w[..|w| - 1][n];
      ParentStarted(E, threads, finished, w[n], w[n + 1]);
    }
  }

  function IndexIn(s: seq<Id>, x: Id): (i: nat)
    requires x in s
    ensures i < |s| && s[i] == x
  {
    if s[0] == x then 0 else 1 + IndexIn(s[1..], x)
  }

  /** A closed walk cannot be started in any order that respects it. */
  lemma {:induction false} CycleUnstartable(E: set<(Id, Id)>, threads: seq<Id>, finished: seq<Id>, w: seq<Id>)
    requires OrderedBy(E, threads, finished) && ClosedWalk(E, w)
    ensures w[0] !in threads
  {
    if w[0] in threads {
      WalkStarted(E, threads, finished, w);
      var E' := set e | e in E && e.0 in threads && e.1 in threads;
      var rank: map<Id, int> := map x | x in (set y | y in threads) :: 0 - IndexIn(threads, x);
      forall a, b | (a, b) in E' ensures a in rank && b in rank && rank[a] < rank[b] {
        ParentStarted(E, threads, finished, a, b);
      }
      RankedNotCyclic(E', rank);
      assert ClosedWalk(E', w);
    }
  }

  /** No task on or downstream of a cycle ever leaves the queue, whether or not the validator saw the cycle. */
  lemma {:induction false} CycleNeverStarts(tasks: seq<Task>, run: seq<Step>, t: Task, path: seq<Id>, w: seq<Id>)
    requires WellPosed(tasks) && IsRun(Launched(tasks), run) && t in tasks
    requires ClosedWalk(Edges(tasks), w) && WalkBetween(Edges(tasks), path, t.id, w[0])
    ensures t in After(Launched(tasks), run).queue
  {
    RunKeeps(tasks, run);
    var s := After(Launched(tasks), run);
    CycleUnstartable(Edges(tasks), s.threads, s.finished, w);
    if t.id in s.threads {
      WalkStarted(Edges(tasks), s.threads, s.finished, path);
    }
    UnstartedMembers(tasks, s.threads);
  }

  /** A run that reported completion had an acyclic graph. */
  lemma {:induction false} CompletedMeansAcyclic(tasks: seq<Task>, run: seq<Step>)
    requires WellPosed(tasks) && IsRun(Launched(tasks), run)
    requires COMPLETED in After(Launched(tasks), run).published
    ensures !Cyclic(Edges(tasks))
  {
    RunKeeps(tasks, run);
    var s := After(Launched(tasks), run);
    EverythingFinished(s);
    if w :| ClosedWalk(Edges(tasks), w) {
      assert (w[0], w[1]) in Edges(tasks) && w[0] in IdSet(tasks);
      CycleUnstartable(Edges(tasks), s.threads, s.finished, w);
    }
  }

  // Progress.

  /** Nothing in the queue could be started now. */
  ghost predicate Drained(s: State) {
    forall t :: t in s.queue ==> !Ready(s, t)
  }

  lemma {:induction false} QueueOfTasks(s: State)
    requires UniqueIds(s.tasks) && Conserved(s)
    ensures forall t :: t in s.queue ==> t in s.tasks
  {
    UnstartedMembers(s.tasks, s.threads);
  }

  lemma {:induction false} UnsettledIsUnfinished(s: State, d: Dependency)
    requires Conserved(s)
    ensures Settled(s, d) <==> d.id in s.finished
  {
    FailedIsFinished(s, d.id);
  }

  /** The queue waits for itself when nothing outside it is left to wait for. */
  lemma {:induction false} StuckQueueTrapped(s: State)
    requires UniqueIds(s.tasks) && DependenciesExist(s.tasks) && Conserved(s)
    requires Drained(s) && s.queue != [] && s.active == map[] && s.dead == {}
    ensures Trapped(Edges(s.tasks), IdSet(s.queue))
  {
    assert s.queue[0].id in IdSet(s.queue);
    forall c | c in IdSet(s.queue) ensures StaysIn(Edges(s.tasks), IdSet(s.queue), c) {
      QueueMemberWaits(s, c);
    }
  }

  lemma {:induction false} QueueMemberWaits(s: State, c: Id)
    requires UniqueIds(s.tasks) && DependenciesExist(s.tasks) && Conserved(s)
    requires Drained(s) && s.active == map[] && s.dead == {} && c in IdSet(s.queue)
    ensures StaysIn(Edges(s.tasks), IdSet(s.queue), c)
  {
    var t := TaskById(s.queue, c);
    QueueOfTasks(s);
    WaitsOnUnfinished(s, t);
    PlacesPartition(s);
    hide Conserved, Ready, DependenciesExist, UniqueIds, IdSet, Edges;
    var p :| p in IdSet(s.tasks) && p !in s.finished && (t.id, p) in Edges(s.tasks);
    assert p in IdSet(s.queue);
  }

  lemma {:induction false} WaitsOnUnfinished(s: State, t: Task)
    requires DependenciesExist(s.tasks) && Conserved(s) && t in s.tasks && !Ready(s, t)
    ensures exists p :: p in IdSet(s.tasks) && p !in s.finished && (t.id, p) in Edges(s.tasks)
  {
    var d :| d in t.dependsOn && !Settled(s, d);
    UnsettledIsUnfinished(s, d);
    assert (t.id, d.id) in Edges(s.tasks);
  }

  /** In a drained state of an acyclic workflow, waiting tasks wait for a running (or dead) one. */
  lemma {:induction false} NoDeadlock(s: State)
    requires Inv(s) && Drained(s) && !Cyclic(Edges(s.tasks)) && s.queue != []
    ensures s.active != map[] || s.dead != {}
  {
    if s.active == map[] && s.dead == {} {
      StuckQueueTrapped(s);
      TrappedHasClosedWalk(Edges(s.tasks), IdSet(s.queue));
    }
  }

  /** The last completion of the run, if there is one, reported FAILED; otherwise `was`. */
  ghost predicate Stale(s: State, run: seq<Step>, was: bool)
    requires IsRun(s, run)
    decreases |run|
  {
    if run == [] then was
    else Stale(Apply(s, run[0]), run[1..], if run[0].BeginStep? then was else ReportsFailure(s, run[0].id, run[0].status))
  }

  lemma {:induction false} DrainedAfter(s: State, run: seq<Step>, was: bool)
    requires Inv(s) && IsRun(s, run) && (was || Drained(s)) && !Stale(s, run, was)
    ensures Drained(After(s, run))
    decreases |run|
  {
    if run != [] {
      StepKeeps(s, run[0]);
      match run[0] {
        case BeginStep(id, o) => DrainedBegin(s, id, o);
        case CompleteStep(id, status) => CompleteKeeps(s, id, status);
      }
      var was' := if run[0].BeginStep? then was else ReportsFailure(s, run[0].id, run[0].status);
      DrainedAfter(Apply(s, run[0]), run[1..], was');
    }
  }

  lemma {:induction false} DrainedBegin(s: State, id: Id, o: Outcome)
    requires Enabled(s, BeginStep(id, o))
    ensures Drained(s) <==> Drained(Begin(s, id, o))
  {
    var s' := Begin(s, id, o);
    assert s'.queue == s.queue;
    forall t | t in s.queue ensures Ready(s', t) <==> Ready(s, t) {
      assert forall d :: Settled(s, d) <==> Settled(s', d);
    }
  }

  /** After the launch and after every completion that did not report FAILED, no
      queued task is ready; if the workflow is acyclic and no thread died, a
      non-empty queue has a running task to wait for. */
  lemma {:induction false} QueueMakesProgress(tasks: seq<Task>, run: seq<Step>)
    requires WellPosed(tasks) && IsRun(Launched(tasks), run) && !Stale(Launched(tasks), run, false)
    ensures var s := After(Launched(tasks), run);
      && Drained(s)
      && (!Cyclic(Edges(tasks)) && s.dead == {} && s.queue != [] ==> s.active != map[])
  {
    RunKeeps(tasks, run);
    LaunchKeeps(tasks);
    DrainedAfter(Launched(tasks), run, false);
    var s := After(Launched(tasks), run);
    if !Cyclic(Edges(tasks)) && s.dead == {} && s.queue != [] {
      NoDeadlock(s);
    }
  }

  /** Unless the last completion reported FAILED, the tasks that have been started are
      exactly those whose dependencies have all finished, failed ones among them. */
  lemma {:induction false} StartedIffDependenciesFinished(tasks: seq<Task>, run: seq<Step>, t: Task)
    requires WellPosed(tasks) && IsRun(Launched(tasks), run) && !Stale(Launched(tasks), run, false) && t in tasks
    ensures var s := After(Launched(tasks), run);
      t.id in s.threads <==> forall d :: d in t.dependsOn ==> d.id in s.finished
  {
    RunKeeps(tasks, run);
    QueueMakesProgress(tasks, run);
    hide Launched, Stale, After, IsRun, Inv, Drained, Cyclic, WellPosed;
    StartedWhenDrained(After(Launched(tasks), run), t);
  }

  lemma {:induction false} StartedWhenDrained(s: State, t: Task)
    requires Inv(s) && Drained(s) && t in s.tasks
    ensures t.id in s.threads <==> forall d :: d in t.dependsOn ==> d.id in s.finished
  {
    if t.id in s.threads {
      DependenciesFinished(s, t);
    } else {
      UnstartedMembers(s.tasks, s.threads);
      hide SkipsInherited, Ordered;
      var d :| d in t.dependsOn && !Settled(s, d);
      UnsettledIsUnfinished(s, d);
    }
  }

  lemma {:induction false} DependenciesFinished(s: State, t: Task)
    requires Ordered(s) && t in s.tasks && t.id in s.threads
    ensures forall d :: d in t.dependsOn ==> d.id in s.finished
  {
    var i :| 0 <= i < |s.threads| && s.threads[i] == t.id;
    forall d | d in t.dependsOn ensures d.id in s.finished {
      assert (t.id, d.id) in Edges(s.tasks);
    }
  }

  lemma {:induction false} FailuresRecorded(s: State, run: seq<Step>, was: bool)
    requires IsRun(s, run) && Stale(s, run, was)
    ensures was || FAILED in After(s, run).published
    ensures forall e :: e in s.published ==> e in After(s, run).published
    decreases |run|
  {
    if run != [] {
      var was' := if run[0].BeginStep? then was else ReportsFailure(s, run[0].id, run[0].status);
      FailuresRecorded(Apply(s, run[0]), run[1..], was');
    }
  }

  function Completions(run: seq<Step>): nat {
    if run == [] then 0 else (if run[0].CompleteStep? then 1 else 0) + Completions(run[1..])
  }

  /** The tasks whose thread has decided what to do. */
  ghost function Decided(s: State): set<Id> {
    set id | id in s.threads && (id in s.active ==> s.active[id] != Spawned)
  }

  lemma {:induction false} DecidesOne(s: State, s': State, id: Id)
    requires id in s.threads && id in s.active && s.active[id] == Spawned && s'.threads == s.threads
    requires s'.active == s.active - {id} || (id in s'.active && s'.active[id] != Spawned && s'.active == s.active[id := s'.active[id]])
    ensures |Decided(s')| == |Decided(s)| + 1
  {
    assert Decided(s') == Decided(s) + {id};
  }

  lemma {:induction false} BeginCounts(s: State, id: Id, o: Outcome)
    requires Conserved(s) && Enabled(s, BeginStep(id, o))
    ensures Begin(s, id, o).finished == s.finished && |Decided(Begin(s, id, o))| == |Decided(s)| + 1
  {
    assert id in s.threads;
    hide Conserved, SkippedByDependency;
    DecidesOne(s, Begin(s, id, o), id);
  }

  lemma {:induction false} SpawnDecidesNothing(s: State, ids: seq<Id>)
    requires forall id :: id in ids ==> id !in s.threads
    ensures Decided(Spawn(s, ids)) == Decided(s)
  {
  }

  lemma {:induction false} CompleteCounts(s: State, id: Id, status: int)
    requires UniqueIds(s.tasks) && Conserved(s) && Enabled(s, CompleteStep(id, status))
    ensures Complete(s, id, status).finished == s.finished + [id] && Decided(Complete(s, id, status)) == Decided(s)
  {
    RecordConserves(s, id, status);
    RecordDecidesNothing(s, id, status);
    FetchDecidesNothing(Record(s, id, status));
  }

  lemma {:induction false} RecordDecidesNothing(s: State, id: Id, status: int)
    requires Enabled(s, CompleteStep(id, status))
    ensures Decided(Record(s, id, status)) == Decided(s)
  {
  }

  lemma {:induction false} FetchDecidesNothing(s: State)
    requires UniqueIds(s.tasks) && Conserved(s)
    ensures Decided(Fetch(s)) == Decided(s)
  {
    FetchPicksReady(s);
    hide Conserved, Sift, Unstarted, Ready;
    SpawnDecidesNothing(Dequeue(s), IdsOf(Sift(s, s.queue, true)));
  }

  lemma {:induction false} RunCounts(s: State, run: seq<Step>)
    requires Inv(s) && IsRun(s, run)
    ensures |After(s, run).finished| == |s.finished| + Completions(run)
    ensures |After(s, run).finished| + |Decided(After(s, run))| == |s.finished| + |Decided(s)| + |run|
    decreases |run|
  {
    if run != [] {
      StepKeeps(s, run[0]);
      if run[0].BeginStep? {
        BeginCounts(s, run[0].id, run[0].outcome);
      } else {
        CompleteCounts(s, run[0].id, run[0].status);
      }
      RunCounts(Apply(s, run[0]), run[1..]);
    }
  }

  /** Every run is finite: each task decides at most once and completes at most once. */
  lemma {:induction false} RunsAreBounded(tasks: seq<Task>, run: seq<Step>)
    requires WellPosed(tasks) && IsRun(Launched(tasks), run)
    ensures |run| <= 2 * |tasks| && Completions(run) == |After(Launched(tasks), run).finished| <= |tasks|
  {
    LaunchKeeps(tasks);
    RunKeeps(tasks, run);
    RunCounts(Launched(tasks), run);
    var s := After(Launched(tasks), run);
    IdSetSize(tasks);
    DistinctSize(s.finished, IdSet(tasks));
    SubsetSize(Decided(s), IdSet(tasks));
  }

  lemma {:induction false} SubsetSize<T>(a: set<T>, b: set<T>)
    requires a <= b
    ensures |a| <= |b|
  {
    if x :| x in a {
      SubsetSize(a - {x}, b - {x});
    }
  }

  /** A run that ends without FAILED and without a dead thread has reported COMPLETED
      exactly when the workflow is acyclic. */
  lemma {:induction false} CompletedIffAcyclic(tasks: seq<Task>, run: seq<Step>)
    requires WellPosed(tasks) && IsRun(Launched(tasks), run)
    requires var s := After(Launched(tasks), run); Quiescent(s) && s.dead == {} && FAILED !in s.published
    ensures COMPLETED in After(Launched(tasks), run).published <==> !Cyclic(Edges(tasks))
  {
    var s := After(Launched(tasks), run);
    if COMPLETED in s.published {
      CompletedMeansAcyclic(tasks, run);
    } else if !Cyclic(Edges(tasks)) {
      if Stale(Launched(tasks), run, false) {
        FailuresRecorded(Launched(tasks), run, false);
      }
      QueueMakesProgress(tasks, run);
      RunKeeps(tasks, run);
      EmptyQueueFinishes(s);
    }
  }

  lemma {:induction false} EmptyQueueFinishes(s: State)
    requires Inv(s) && s.queue == [] && Quiescent(s) && s.dead == {}
    ensures |s.finished| == |s.tasks| && (set id | id in s.finished) == IdSet(s.tasks)
  {
    PlacesPartition(s);
    assert IdSet(s.queue) == {};
    hide Conserved;
    UniqueIdsSize(s.tasks);
    DistinctSetSize(s.finished);
  }

  lemma {:induction false} UniqueIdsSize(tasks: seq<Task>)
    requires UniqueIds(tasks)
    ensures |IdSet(tasks)| == |tasks|
  {
    if tasks != [] {
      var n := |tasks| - 1;
      UniqueIdsSize(tasks[..n]);
      assert tasks == tasks[..n] + [tasks[n]];
      assert IdSet(tasks) == IdSet(tasks[..n]) + {tasks[n].id};
      assert tasks[n].id !in IdSet(tasks[..n]);
    }
  }

  lemma {:induction false} DistinctSetSize(s: seq<Id>)
    requires Distinct(s)
    ensures |set x | x in s| == |s|
  {
    if s != [] {
      var n := |s| - 1;
      DistinctSetSize(s[..n]);
      assert (set x | x in s) == (set x | x in s[..n]) + {s[n]};
    }
  }

  /** An acyclic run without FAILED and without a dead thread ends after exactly one
      completion for each task, with everything finished and COMPLETED published once. */
  lemma {:induction false} RunCompletes(tasks: seq<Task>, run: seq<Step>)
    requires WellPosed(tasks) && !Cyclic(Edges(tasks)) && IsRun(Launched(tasks), run)
    requires var s := After(Launched(tasks), run); Quiescent(s) && s.dead == {} && FAILED !in s.published
    ensures var s := After(Launched(tasks), run);
      && Completions(run) == |tasks| && (set id | id in s.finished) == IdSet(tasks)
      && s.queue == [] && multiset(s.published)[COMPLETED] == 1
  {
    CompletedIffAcyclic(tasks, run);
    RunKeeps(tasks, run);
    EverythingFinished(After(Launched(tasks), run));
    RunsAreBounded(tasks, run);
  }

  // A run that completes.

  /** No thread has died, no failure has been reported, and no thread holds one. */
  ghost predicate Benign(s: State) {
    && s.dead == {} && FAILED !in s.published
    && forall id :: id in s.active ==> s.active[id] == Spawned || s.active[id] == Executing || s.active[id] == Resolved(-1)
  }

  /** What a thread does when conditions hold and executors succeed. */
  function GoodStep(s: State, id: Id): (a: Step)
    requires id in s.active
    ensures a.id == id
  {
    match s.active[id]
    case Spawned => BeginStep(id, ConditionsHold)
    case Executing => CompleteStep(id, 0)
    case Resolved(status) => CompleteStep(id, status)
  }

  lemma {:induction false} SpawnBenign(s: State, ids: seq<Id>)
    requires Benign(s)
    ensures Benign(Spawn(s, ids))
  {
  }

  lemma {:induction false} CompleteBenign(s: State, id: Id, status: int)
    requires Benign(s) && status <= 0
    ensures Benign(Complete(s, id, status))
  {
    var s1 := Record(s, id, status);
    assert Benign(s1);
    hide Sift, IdsOf;
    SpawnBenign(Dequeue(s1), IdsOf(Sift(s1, s1.queue, true)));
  }

  lemma {:induction false} GoodStepBenign(s: State, id: Id)
    requires Inv(s) && Benign(s) && id in s.active
    ensures Enabled(s, GoodStep(s, id)) && Benign(Apply(s, GoodStep(s, id)))
  {
    assert id in s.threads;
    var a := GoodStep(s, id);
    if a.CompleteStep? {
      CompleteBenign(s, id, a.status);
    }
    hide Inv, SkippedByDependency;
  }

  lemma {:induction false} StepsTaken(s: State)
    requires Inv(s)
    ensures |s.finished| + |Decided(s)| <= 2 * |s.tasks|
  {
    IdSetSize(s.tasks);
    DistinctSize(s.finished, IdSet(s.tasks));
    SubsetSize(Decided(s), IdSet(s.tasks));
  }

  lemma {:induction false} GoodStepCounts(s: State, id: Id)
    requires Inv(s) && Benign(s) && id in s.active && Enabled(s, GoodStep(s, id))
    ensures var s' := Apply(s, GoodStep(s, id)); |s'.finished| + |Decided(s')| == |s.finished| + |Decided(s)| + 1
  {
    var a := GoodStep(s, id);
    if a.BeginStep? {
      BeginCounts(s, id, ConditionsHold);
    } else {
      CompleteCounts(s, id, a.status);
    }
    hide Decided, Inv, Conserved;
  }

  /** Good steps lead to a state of rest. */
  lemma {:induction false} ComesToRest(s: State) returns (run: seq<Step>)
    requires Inv(s) && Benign(s)
    ensures IsRun(s, run) && Quiescent(After(s, run)) && Benign(After(s, run))
    decreases 2 * |s.tasks| - |s.finished| - |Decided(s)|
  {
    hide Inv, Benign, Decided, Apply, Enabled, GoodStep;
    StepsTaken(s);
    if id :| id in s.active {
      var a := GoodStep(s, id);
      GoodStepBenign(s, id);
      GoodStepCounts(s, id);
      StepKeeps(s, a);
      StepsTaken(Apply(s, a));
      var rest := ComesToRest(Apply(s, a));
      run := [a] + rest;
      assert run[0] == a && run[1..] == rest;
    } else {
      run := [];
    }
  }

  /** A workflow can complete exactly when it is acyclic. */
  lemma {:induction false} CanCompleteIffAcyclic(tasks: seq<Task>)
    requires WellPosed(tasks)
    ensures (exists run :: IsRun(Launched(tasks), run) && COMPLETED in After(Launched(tasks), run).published) <==> !Cyclic(Edges(tasks))
  {
    if run :| IsRun(Launched(tasks), run) && COMPLETED in After(Launched(tasks), run).published {
      CompletedMeansAcyclic(tasks, run);
    }
    if !Cyclic(Edges(tasks)) {
      LaunchKeeps(tasks);
      LaunchBenign(tasks);
      var run := ComesToRest(Launched(tasks));
      CompletedIffAcyclic(tasks, run);
    }
    hide Launched, IsRun, After, Cyclic, WellPosed;
  }

  lemma {:induction false} LaunchBenign(tasks: seq<Task>)
    ensures Benign(Launched(tasks))
  {
    var s := Publish(Staged(tasks, Accepted), ACTIVE);
    LaunchFetches(tasks);
    assert Benign(Dequeue(s));
    SpawnBenign(Dequeue(s), IdsOf(Sift(s, s.queue, true)));
  }

  // Which failures are reported.

  /** FAILED has been published exactly when some task that may not fail has failed
      without being the last of all to finish. */
  ghost predicate FailureReported(s: State) {
    FAILED in s.published <==> exists i :: 0 <= i < |s.finished| && i + 1 != |s.tasks| && Forbidden(s, s.finished[i])
  }

  ghost predicate Forbidden(s: State, id: Id) {
    id in s.failed && id !in s.canFail
  }

  lemma {:induction false} RecordForbids(s: State, id: Id, status: int)
    requires Conserved(s) && id in s.active
    ensures var s1 := Record(s, id, status);
      && s1.finished == s.finished + [id] && (Forbidden(s1, id) <==> status > 0 && id !in s.canFail)
      && forall i :: 0 <= i < |s.finished| ==> (Forbidden(s1, s.finished[i]) <==> Forbidden(s, s.finished[i]))
  {
    FailedIsFinished(s, id);
    forall i | 0 <= i < |s.finished| ensures s.finished[i] != id {
      assert s.finished[i] in s.finished;
    }
  }

  lemma {:induction false} CompleteReports(s: State, id: Id, status: int)
    requires Conserved(s) && FailureReported(s) && id in s.active
    ensures FailureReported(Complete(s, id, status))
  {
    RecordForbids(s, id, status);
    var s1, s' := Record(s, id, status), Complete(s, id, status);
    hide Conserved, Sift, IdsOf;
    var n := |s.finished|;
    assert s'.finished == s1.finished && s'.failed == s1.failed && s'.canFail == s1.canFail && s'.tasks == s.tasks;
    assert forall x :: Forbidden(s', x) <==> Forbidden(s1, x);
    assert s1.finished[n] == id;
    assert forall i :: 0 <= i < n ==> s1.finished[i] == s.finished[i];
    assert FAILED in s'.published <==> FAILED in s.published || ReportsFailure(s, id, status);
  }

  lemma {:induction false} BeginReports(s: State, id: Id, o: Outcome)
    requires FailureReported(s) && Enabled(s, BeginStep(id, o))
    ensures FailureReported(Begin(s, id, o))
  {
    var s' := Begin(s, id, o);
    assert forall x :: Forbidden(s', x) <==> Forbidden(s, x);
  }

  lemma {:induction false} StepsReport(s: State, run: seq<Step>)
    requires Inv(s) && FailureReported(s) && IsRun(s, run)
    ensures FailureReported(After(s, run))
    decreases |run|
  {
    if run != [] {
      StepKeeps(s, run[0]);
      if run[0].BeginStep? {
        BeginReports(s, run[0].id, run[0].outcome);
      } else {
        CompleteReports(s, run[0].id, run[0].status);
      }
      StepsReport(Apply(s, run[0]), run[1..]);
    }
  }

  lemma {:induction false} FailureReportedIff(tasks: seq<Task>, run: seq<Step>)
    requires WellPosed(tasks) && IsRun(Launched(tasks), run)
    ensures FailureReported(After(Launched(tasks), run))
  {
    LaunchKeeps(tasks);
    StepsReport(Launched(tasks), run);
  }

  // What FAILED does not mean.

  const FIRST := Task("a", [])
  const SECOND := Task("b", [])
  const CHILD := Task("c", [Dependency("a", false, false)])
  const THREE: seq<Task> := [FIRST, SECOND, CHILD]

  lemma {:induction false} ThreePosed()
    ensures WellPosed(THREE) && "a" !in MayFailSet(THREE)
  {
    assert FIRST in THREE && SECOND in THREE && CHILD in THREE;
    assert CHILD.dependsOn[..0] == [] && CountNaming(CHILD.dependsOn, "a") == 1;
    assert !FirstEntry(CHILD.dependsOn, "a").canFail;
  }

  lemma {:induction false} ThreeSifted(s: State)
    requires s.finished == [] && s.failed == []
    ensures Sift(s, THREE, true) == [FIRST, SECOND] && Sift(s, THREE, false) == [CHILD]
  {
    var d := Dependency("a", false, false);
    assert d in CHILD.dependsOn && !Settled(s, d);
    assert Ready(s, FIRST) && Ready(s, SECOND) && !Ready(s, CHILD);
    hide Ready, Settled;
    var none: seq<Task> := [];
    assert THREE == [FIRST] + ([SECOND] + ([CHILD] + none));
    SiftCons(s, CHILD, none, true);
    SiftCons(s, CHILD, none, false);
    SiftCons(s, SECOND, [CHILD] + none, true);
    SiftCons(s, SECOND, [CHILD] + none, false);
    SiftCons(s, FIRST, [SECOND] + ([CHILD] + none), true);
    SiftCons(s, FIRST, [SECOND] + ([CHILD] + none), false);
    assert Sift(s, none, true) == none && Sift(s, none, false) == none;
    hide Sift;
  }

  /** What a launch comes to when the tasks have been sifted. */
  lemma {:induction false} LaunchedFields(tasks: seq<Task>, now: seq<Task>, later: seq<Task>)
    requires var s := Staged(tasks, Accepted); Sift(s, tasks, true) == now && Sift(s, tasks, false) == later
    ensures var s := Launched(tasks);
      && s.tasks == tasks && s.queue == later && s.threads == IdsOf(now) && s.canFail == MayFailSet(tasks)
      && s.finished == [] && s.failed == [] && s.skipped == [] && s.published == [ACTIVE]
      && s.active == map id | id in IdsOf(now) :: Spawned
  {
    var q := Publish(Dequeue(Staged(tasks, Accepted)), ACTIVE);
    assert Launched(tasks) == Spawn(q, IdsOf(now));
    hide Sift, MayFailSet, IdsOf, Launched;
    SpawnFirst(q, IdsOf(now));
    hide Spawn;
  }

  lemma {:induction false} SpawnFirst(s: State, ids: seq<Id>)
    requires s.threads == [] && s.active == map[]
    ensures Spawn(s, ids) == s.(threads := ids, active := map id | id in ids :: Spawned)
  {
    assert [] + ids == ids;
  }

  lemma {:induction false} ThreeLaunched()
    ensures var s := Launched(THREE);
      && s.tasks == THREE && s.queue == [CHILD] && s.threads == ["a", "b"] && s.finished == [] && s.failed == []
      && s.active == map["a" := Spawned, "b" := Spawned] && "a" !in s.canFail && s.published == [ACTIVE] && s.skipped == []
  {
    ThreePosed();
    ThreeSifted(Staged(THREE, Accepted));
    LaunchedFields(THREE, [FIRST, SECOND], [CHILD]);
    assert IdsOf([FIRST, SECOND]) == ["a", "b"];
    hide Sift, MayFailSet, Launched, Staged, IdsOf, WellPosed;
  }

  /** The child of a failed task may start: a task that may not fail fails, FAILED is
      published, and the completion of another task starts the child. */
  lemma {:induction false} ChildOfFailureStarts()
    ensures var run := [BeginStep("a", ConditionsHold), CompleteStep("a", 1), BeginStep("b", ConditionsHold), CompleteStep("b", 0)];
      && WellPosed(THREE) && IsRun(Launched(THREE), run)
      && var s := After(Launched(THREE), run);
         "a" in s.failed && "a" !in s.canFail && FAILED in s.published && "c" in s.threads
  {
    ThreePosed();
    ThreeLaunched();
    var s0 := Launched(THREE);
    hide Launched, MayFailSet;
    var run := [BeginStep("a", ConditionsHold), CompleteStep("a", 1), BeginStep("b", ConditionsHold), CompleteStep("b", 0)];
    var s1 := Apply(s0, run[0]);
    var s2 := Apply(s1, run[1]);
    var s3 := Apply(s2, run[2]);
    assert TaskById(THREE, "a") == FIRST && TaskById(THREE, "b") == SECOND;
    var s4 := Apply(s3, run[3]);
    FourSteps(s0, run, s1, s2, s3, s4);
  }

  lemma {:induction false} OneLaunched()
    ensures var s := Launched([FIRST]);
      && WellPosed([FIRST]) && s.tasks == [FIRST] && s.queue == [] && s.threads == ["a"] && s.finished == []
      && s.active == map["a" := Spawned] && "a" !in s.canFail && s.published == [ACTIVE] && s.skipped == []
  {
    var s := Staged([FIRST], Accepted);
    var none: seq<Task> := [];
    assert Children([FIRST], "a") == [];
    assert [FIRST] == [FIRST] + none && Sift(s, none, true) == none && Sift(s, none, false) == none;
    SiftCons(s, FIRST, none, true);
    SiftCons(s, FIRST, none, false);
    LaunchedFields([FIRST], [FIRST], none);
    assert IdsOf([FIRST]) == ["a"];
    hide Sift, Launched, Staged, IdsOf, Children;
  }

  /** A run whose last task fails reports COMPLETED, and no failure. */
  lemma {:induction false} LastFailureCompletes()
    ensures var run := [BeginStep("a", ConditionsHold), CompleteStep("a", 1)];
      && WellPosed([FIRST]) && IsRun(Launched([FIRST]), run)
      && var s := After(Launched([FIRST]), run);
         "a" in s.failed && "a" !in s.canFail && COMPLETED in s.published && FAILED !in s.published
  {
    OneLaunched();
    var s0 := Launched([FIRST]);
    hide Launched;
    var run := [BeginStep("a", ConditionsHold), CompleteStep("a", 1)];
    var s1 := Apply(s0, run[0]);
    var s2 := Apply(s1, run[1]);
    assert run[1..][1..] == [];
    assert IsRun(s1, run[1..]) && After(s1, run[1..]) == s2;
  }

  lemma {:induction false} FourSteps(s0: State, run: seq<Step>, s1: State, s2: State, s3: State, s4: State)
    requires |run| == 4 && Enabled(s0, run[0]) && s1 == Apply(s0, run[0]) && Enabled(s1, run[1]) && s2 == Apply(s1, run[1])
    requires Enabled(s2, run[2]) && s3 == Apply(s2, run[2]) && Enabled(s3, run[3]) && s4 == Apply(s3, run[3])
    ensures IsRun(s0, run) && After(s0, run) == s4
  {
    hide Enabled, Apply;
    assert run[1..][1..] == run[2..] && run[2..][1..] == run[3..] && run[3..][1..] == [];
    assert IsRun(s3, run[3..]) && After(s3, run[3..]) == s4;
    assert IsRun(s2, run[2..]) && After(s2, run[2..]) == s4;
    assert IsRun(s1, run[1..]) && After(s1, run[1..]) == s4;
  }

  // Skipping.

  /** Along dependencies that cannot be skipped, a skipped task carries its fate to
      every finished task downstream: skipped without ever having been active. */
  lemma {:induction false} SkipCarriesOver(s: State, w: seq<Id>)
    requires Inv(s) && Walk(BindingEdges(s.tasks), w) && |w| > 1
    requires w[0] in s.finished && w[|w| - 1] in s.skipped
    ensures w[0] in s.skipped && !WasActive(s, w[0])
    decreases |w|
  {
    assert (w[0], w[1]) in BindingEdges(s.tasks) && (w[0], w[1]) in Edges(s.tasks);
    var i :| 0 <= i < |s.threads| && s.threads[i] == w[0];
    assert w[1] in s.finished;
    if |w| > 2 {
      SkipCarriesOver(s, w[1..]);
    }
    assert Withheld(s, w[0]);
  }

  lemma {:induction false} SkipClosure(tasks: seq<Task>, run: seq<Step>, w: seq<Id>)
    requires WellPosed(tasks) && IsRun(Launched(tasks), run)
    requires Walk(BindingEdges(tasks), w) && |w| > 1
    requires w[0] in After(Launched(tasks), run).finished && w[|w| - 1] in After(Launched(tasks), run).skipped
    ensures var s := After(Launched(tasks), run); w[0] in s.skipped && !WasActive(s, w[0])
  {
    RunKeeps(tasks, run);
    SkipCarriesOver(After(Launched(tasks), run), w);
  }

  // Rejection.

  /** A launch starts threads exactly when the tasks are accepted and the arguments
      valid. Otherwise no task ever starts: FAILED is published for each of the two
      refusals, and ACTIVE after it when only the tasks were refused. */
  lemma {:induction false} RejectedStartsNothing(tasks: seq<Task>, paramsValid: bool, run: seq<Step>)
    requires UniqueIds(tasks) && IsRun(Launch(tasks, Validate(tasks), paramsValid), run)
    ensures var s0 := Launch(tasks, Validate(tasks), paramsValid);
      s0.threads != [] <==> Validate(tasks) == Accepted && paramsValid
    ensures var s := After(Launch(tasks, Validate(tasks), paramsValid), run);
      Validate(tasks) != Accepted || !paramsValid ==>
        && run == [] && s.threads == [] && s.finished == [] && (Validate(tasks) != Accepted ==> s.queue == [])
        && s.published == (if Validate(tasks) == Accepted then [FAILED] else if paramsValid then [FAILED, ACTIVE] else [FAILED, FAILED])
  {
    if Validate(tasks) == Accepted {
      AcceptedStarts(tasks);
    }
    hide Validate, Sift, IdsOf;
  }

  lemma {:induction false} AcceptedStarts(tasks: seq<Task>)
    requires UniqueIds(tasks) && Validate(tasks) == Accepted
    ensures Launched(tasks).threads != []
  {
    InitialIdsAre(tasks);
    assert InitialIds(tasks)[0] in InitialIds(tasks);
    var t :| t in tasks && t.id == InitialIds(tasks)[0] && t.dependsOn == [];
    var s := Staged(tasks, Accepted);
    SiftMembers(s, tasks, true);
    assert Ready(s, t);
    IdsOfMembers(Sift(s, tasks, true));
    hide Sift, IdsOf, Validate;
    assert t.id in IdsOf(Sift(s, s.queue, true));
  }
}
