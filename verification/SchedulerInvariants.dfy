// What every step of a run keeps.
module SchedulerInvariants {
  import opened Relations
  import opened Tasks
  import opened DependencyGraph
  import opened Events
  import opened Scheduler

  /** The tasks whose thread has not been started, in task order. */
  function Unstarted(ts: seq<Task>, threads: seq<Id>): seq<Task> {
    if ts == [] then []
    else (if ts[0].id in threads then [] else [ts[0]]) + Unstarted(ts[1..], threads)
  }

  /** Tasks as `_set_tasks` lets them through. */
  ghost predicate WellPosed(tasks: seq<Task>) {
    UniqueIds(tasks) && DependenciesExist(tasks) && tasks != []
  }

  /** Every task is in exactly one place: queued, running, dead or finished. */
  ghost predicate Placed(s: State) {
    && Distinct(s.threads) && Distinct(s.finished)
    && s.queue == Unstarted(s.tasks, s.threads)
    && (forall id :: id in s.threads <==> id in s.active || id in s.dead || id in s.finished)
    && (forall id :: id in s.threads ==> id in IdSet(s.tasks))
    && (forall id :: id in s.active ==> id !in s.dead && id !in s.finished)
    && (forall id :: id in s.dead ==> id !in s.finished)
  }

  /** Results, executors and clean-ups agree with what has finished. */
  ghost predicate Accounted(s: State) {
    && multiset(s.finished) == multiset(s.succeeded) + multiset(s.failed) + multiset(s.skipped)
    && s.executors == (set id | id in IdSet(s.tasks) && id !in s.finished)
    && s.cleaned == s.finished
  }

  ghost predicate Conserved(s: State) {
    Placed(s) && Accounted(s)
  }

  /** Whoever is started has seen its parents finish, and they were started before it. */
  ghost predicate OrderedBy(E: set<(Id, Id)>, threads: seq<Id>, finished: seq<Id>) {
    forall i, p :: 0 <= i < |threads| && (threads[i], p) in E ==> p in finished && p in threads[..i]
  }

  ghost predicate Ordered(s: State) {
    OrderedBy(Edges(s.tasks), s.threads, s.finished)
  }

  ghost predicate WasActive(s: State, id: Id) {
    OfTask(TASK_ACTIVE, id) in s.published
  }

  /** What a skipped parent that cannot be skipped does to its child: it never
      runs and can only end up skipped. */
  ghost predicate Withheld(s: State, c: Id) {
    && !WasActive(s, c)
    && (c in s.finished ==> c in s.skipped)
    && (c in s.active ==> s.active[c] == Spawned || s.active[c] == Resolved(-1))
  }

  ghost predicate SkipsInherited(s: State) {
    && (forall id :: WasActive(s, id) ==> id in s.threads && (id in s.active ==> s.active[id] != Spawned))
    && (forall c, p :: (c, p) in BindingEdges(s.tasks) && p in s.skipped ==> Withheld(s, c))
  }

  /** COMPLETED has been published once if everything finished, and never otherwise. */
  ghost predicate CompletedOnce(s: State) {
    multiset(s.published)[COMPLETED] == if |s.finished| == |s.tasks| then 1 else 0
  }

  ghost predicate Inv(s: State) {
    WellPosed(s.tasks) && Conserved(s) && Ordered(s) && SkipsInherited(s) && CompletedOnce(s)
  }

  lemma {:induction false} SiftMembers(s: State, q: seq<Task>, ready: bool)
    requires UniqueIds(q)
    ensures forall t :: t in Sift(s, q, ready) <==> t in q && Ready(s, t) == ready
    ensures UniqueIds(Sift(s, q, ready))
  {
    if q != [] {
      SiftMembers(s, q[1..], ready);
      assert q == [q[0]] + q[1..];
      assert forall t :: t in q[1..] ==> t.id != q[0].id;
    }
  }

  lemma {:induction false} SiftCons(s: State, t: Task, rest: seq<Task>, ready: bool)
    ensures Sift(s, [t] + rest, ready) == (if Ready(s, t) == ready then [t] else []) + Sift(s, rest, ready)
  {
    assert ([t] + rest)[1..] == rest;
  }

  /** A fetch goes through the queue from front to back. */
  lemma {:induction false} SiftConcat(s: State, a: seq<Task>, b: seq<Task>, ready: bool)
    ensures Sift(s, a + b, ready) == Sift(s, a, ready) + Sift(s, b, ready)
  {
    if a == [] {
      assert a + b == b;
    } else {
      var t, rest := a[0], a[1..];
      SiftConcat(s, rest, b, ready);
      SiftCons(s, t, rest, ready);
      SiftCons(s, t, rest + b, ready);
      assert a == [t] + rest && a + b == [t] + (rest + b);
      hide Sift, Ready;
    }
  }

  /** Of two ready tasks the one earlier in the queue is started first. */
  lemma {:induction false} FetchInOrder(s: State, i: nat, j: nat) returns (k: nat, l: nat)
    requires i < j < |s.queue| && Ready(s, s.queue[i]) && Ready(s, s.queue[j])
    ensures |s.threads| <= k < l < |Fetch(s).threads|
    ensures Fetch(s).threads[k] == s.queue[i].id && Fetch(s).threads[l] == s.queue[j].id
  {
    var q := s.queue;
    var a, b, c := q[..i], q[i + 1..j], q[j + 1..];
    var t, u := q[i], q[j];
    assert q == a + ([t] + (b + ([u] + c)));
    SiftConcat(s, a, [t] + (b + ([u] + c)), true);
    SiftConcat(s, [t], b + ([u] + c), true);
    SiftConcat(s, b, [u] + c, true);
    SiftConcat(s, [u], c, true);
    assert [t][1..] == [] && [u][1..] == [];
    assert Sift(s, [t], true) == [t] && Sift(s, [u], true) == [u];
    hide Sift, Ready;
    k := |s.threads| + |Sift(s, a, true)|;
    l := k + 1 + |Sift(s, b, true)|;
    var now := Sift(s, q, true);
    assert now[k - |s.threads|] == t && now[l - |s.threads|] == u;
  }

  lemma {:induction false} IdsOfMembers(ts: seq<Task>)
    ensures forall id :: id in IdsOf(ts) <==> exists t :: t in ts && t.id == id
    ensures UniqueIds(ts) ==> Distinct(IdsOf(ts))
  {
    if ts != [] {
      IdsOfMembers(ts[1..]);
      assert ts == [ts[0]] + ts[1..];
    }
  }

  lemma {:induction false} UnstartedMembers(ts: seq<Task>, threads: seq<Id>)
    requires UniqueIds(ts)
    ensures forall t :: t in Unstarted(ts, threads) <==> t in ts && t.id !in threads
    ensures UniqueIds(Unstarted(ts, threads))
  {
    if ts != [] {
      UnstartedMembers(ts[1..], threads);
      assert ts == [ts[0]] + ts[1..];
    }
  }

  lemma {:induction false} SiftUnstarted(s: State, ts: seq<Task>, threads: seq<Id>, more: seq<Id>)
    requires forall t :: t in ts && t.id !in threads ==> (t.id in more <==> Ready(s, t))
    ensures Sift(s, Unstarted(ts, threads), false) == Unstarted(ts, threads + more)
  {
    if ts != [] {
      SiftUnstarted(s, ts[1..], threads, more);
      var rest := Unstarted(ts[1..], threads);
      assert ts[0] in ts && ([ts[0]] + rest)[1..] == rest && [] + rest == rest;
    }
  }

  // Fetching.

  lemma {:induction false} FetchPicksReady(s: State)
    requires UniqueIds(s.tasks) && s.queue == Unstarted(s.tasks, s.threads)
    ensures var ids := IdsOf(Sift(s, s.queue, true));
      && Distinct(ids)
      && (forall id :: id in ids ==> id !in s.threads && id in IdSet(s.tasks))
      && (forall t :: t in s.tasks && t.id in ids ==> Ready(s, t))
      && Fetch(s).queue == Unstarted(s.tasks, s.threads + ids)
    ensures forall t :: t in Fetch(s).queue ==> !Ready(s, t)
  {
    var ready := Sift(s, s.queue, true);
    var ids := IdsOf(ready);
    UnstartedMembers(s.tasks, s.threads);
    SiftMembers(s, s.queue, true);
    SiftMembers(s, s.queue, false);
    IdsOfMembers(ready);
    forall t | t in s.tasks && t.id !in s.threads ensures t.id in ids <==> Ready(s, t) {
      forall u | u in s.tasks && u.id == t.id ensures u == t { TaskByIdUnique(s.tasks, t); TaskByIdUnique(s.tasks, u); }
    }
    SiftUnstarted(s, s.tasks, s.threads, ids);
  }

  lemma {:induction false} FetchConserves(s: State)
    requires UniqueIds(s.tasks) && Conserved(s)
    ensures Conserved(Fetch(s))
  {
    FetchPicksReady(s);
    DistinctConcat(s.threads, IdsOf(Sift(s, s.queue, true)));
  }

  lemma {:induction false} FetchOrders(s: State)
    requires UniqueIds(s.tasks) && Conserved(s) && Ordered(s)
    ensures Ordered(Fetch(s))
  {
    FetchPicksReady(s);
    var ids := IdsOf(Sift(s, s.queue, true));
    forall id, p | id in ids && (id, p) in Edges(s.tasks) ensures p in s.finished {
      var t, d :| t in s.tasks && d in t.dependsOn && t.id == id && d.id == p;
      assert Ready(s, t) && Settled(s, d);
      FailedIsFinished(s, p);
    }
    OrderExtends(Edges(s.tasks), s.threads, ids, s.finished);
  }

  lemma {:induction false} OrderExtends(E: set<(Id, Id)>, threads: seq<Id>, more: seq<Id>, finished: seq<Id>)
    requires OrderedBy(E, threads, finished)
    requires forall id, p :: id in more && (id, p) in E ==> p in finished
    requires forall p :: p in finished ==> p in threads
    ensures OrderedBy(E, threads + more, finished)
  {
    var all := threads + more;
    forall i, p | 0 <= i < |all| && (all[i], p) in E ensures p in finished && p in all[..i] {
      if i < |threads| {
        assert all[..i] == threads[..i];
      } else {
        assert all[i] in more;
        assert threads <= all[..i];
      }
    }
  }

  lemma {:induction false} FailedIsFinished(s: State, id: Id)
    requires Conserved(s)
    ensures id in s.failed || id in s.succeeded || id in s.skipped <==> id in s.finished
  {
    assert multiset(s.finished)[id] == multiset(s.succeeded)[id] + multiset(s.failed)[id] + multiset(s.skipped)[id];
  }

  lemma {:induction false} SpawnInherits(s: State, ids: seq<Id>)
    requires SkipsInherited(s) && forall id :: id in ids ==> id !in s.threads
    ensures SkipsInherited(Spawn(s, ids))
  {
  }

  lemma {:induction false} FetchInherits(s: State)
    requires UniqueIds(s.tasks) && Conserved(s) && SkipsInherited(s)
    ensures SkipsInherited(Fetch(s))
  {
    FetchPicksReady(s);
    assert SkipsInherited(Dequeue(s));
    hide Sift, IdsOf, Unstarted, Ready, Conserved, SkipsInherited;
    SpawnInherits(Dequeue(s), IdsOf(Sift(s, s.queue, true)));
  }

  lemma {:induction false} FetchKeeps(s: State)
    requires Inv(s)
    ensures Inv(Fetch(s))
    ensures forall t :: t in Fetch(s).queue ==> !Ready(Fetch(s), t)
  {
    FetchPicksReady(s);
    FetchConserves(s);
    FetchOrders(s);
    FetchInherits(s);
  }

  // The launch.

  lemma {:induction false} NothingStarted(ts: seq<Task>)
    ensures Unstarted(ts, []) == ts
  {
    if ts != [] {
      NothingStarted(ts[1..]);
    }
  }

  lemma {:induction false} StagedHolds(tasks: seq<Task>)
    requires WellPosed(tasks)
    ensures Conserved(Staged(tasks, Accepted))
  {
    NothingStarted(tasks);
    assert (set id | id in IdSet(tasks) && id !in []) == IdSet(tasks);
  }

  lemma {:induction false} LaunchKeeps(tasks: seq<Task>)
    requires WellPosed(tasks)
    ensures Inv(Launched(tasks)) && Launched(tasks).tasks == tasks
    ensures forall t :: t in Launched(tasks).queue ==> !Ready(Launched(tasks), t)
  {
    StagedHolds(tasks);
    var s := Publish(Staged(tasks, Accepted), ACTIVE);
    assert CompletedOnce(s);
    FetchKeeps(s);
    LaunchFetches(tasks);
  }

  lemma {:induction false} LaunchFetches(tasks: seq<Task>)
    ensures Launched(tasks) == Fetch(Publish(Staged(tasks, Accepted), ACTIVE))
  {
    var a, b := Staged(tasks, Accepted), Publish(Staged(tasks, Accepted), ACTIVE);
    SiftSame(a, b, tasks, true);
    SiftSame(a, b, tasks, false);
  }

  lemma {:induction false} SiftSame(s: State, s': State, q: seq<Task>, ready: bool)
    requires s.canFail == s'.canFail && s.failed == s'.failed && s.finished == s'.finished
    ensures Sift(s, q, ready) == Sift(s', q, ready)
  {
    if q != [] {
      SiftSame(s, s', q[1..], ready);
      assert Ready(s, q[0]) == Ready(s', q[0]) by {
        assert forall d :: Settled(s, d) == Settled(s', d);
      }
    }
  }

  // Deciding.

  lemma {:induction false} SkippedByDependencyIff(s: State, t: Task)
    requires UniqueIds(s.tasks) && t in s.tasks
    ensures SkippedByDependency(s, t) <==> exists p :: (t.id, p) in BindingEdges(s.tasks) && p in s.skipped
  {
    if p :| (t.id, p) in BindingEdges(s.tasks) && p in s.skipped {
      var u, d :| u in s.tasks && d in u.dependsOn && !d.canSkip && u.id == t.id && d.id == p;
      TaskByIdUnique(s.tasks, t);
      TaskByIdUnique(s.tasks, u);
    }
    if SkippedByDependency(s, t) {
      var d :| d in t.dependsOn && d.id in s.skipped && !d.canSkip;
      assert (t.id, d.id) in BindingEdges(s.tasks);
    }
  }

  lemma {:induction false} BeginConserves(s: State, id: Id, o: Outcome)
    requires Conserved(s) && Enabled(s, BeginStep(id, o))
    ensures Conserved(Begin(s, id, o))
  {
  }

  lemma {:induction false} BeginInherits(s: State, id: Id, o: Outcome)
    requires UniqueIds(s.tasks) && Conserved(s) && SkipsInherited(s) && Enabled(s, BeginStep(id, o))
    ensures SkipsInherited(Begin(s, id, o))
  {
    SkippedByDependencyIff(s, TaskById(s.tasks, id));
    var s' := Begin(s, id, o);
    forall c, p | (c, p) in BindingEdges(s.tasks) && p in s.skipped ensures Withheld(s', c) {
      assert Withheld(s, c);
    }
  }

  lemma {:induction false} BeginKeeps(s: State, id: Id, o: Outcome)
    requires Inv(s) && Enabled(s, BeginStep(id, o))
    ensures Inv(Begin(s, id, o)) && Begin(s, id, o).tasks == s.tasks && Begin(s, id, o).canFail == s.canFail
  {
    BeginConserves(s, id, o);
    BeginInherits(s, id, o);
  }

  // Finishing.

  lemma {:induction false} RecordPlaces(s: State, id: Id, status: int)
    requires Placed(s) && id in s.active && id in IdSet(s.tasks)
    ensures Placed(Record(s, id, status))
  {
    DistinctConcat(s.finished, [id]);
  }

  lemma {:induction false} RecordAccounts(s: State, id: Id, status: int)
    requires Accounted(s)
    ensures Accounted(Record(s, id, status))
  {
  }

  lemma {:induction false} RecordConserves(s: State, id: Id, status: int)
    requires Conserved(s) && id in s.active && id in IdSet(s.tasks)
    ensures Conserved(Record(s, id, status))
  {
    RecordPlaces(s, id, status);
    RecordAccounts(s, id, status);
    hide Placed, Accounted;
  }

  lemma {:induction false} RecordInherits(s: State, id: Id, status: int)
    requires Conserved(s) && Ordered(s) && SkipsInherited(s) && Enabled(s, CompleteStep(id, status))
    ensures SkipsInherited(Record(s, id, status))
  {
    assert id in s.threads && id !in s.finished;
    forall c | (c, id) in BindingEdges(s.tasks) ensures c !in s.threads && c !in s.active && c !in s.finished {
      assert (c, id) in Edges(s.tasks);
    }
    hide Conserved, Ordered, BindingEdges;
  }

  lemma {:induction false} RecordOrders(s: State, id: Id, status: int)
    requires Ordered(s)
    ensures Ordered(Record(s, id, status))
  {
  }

  /** Not every task is finished while one is still running. */
  lemma {:induction false} RunningIsUnfinished(s: State, id: Id)
    requires UniqueIds(s.tasks) && Conserved(s) && id in s.active && id in IdSet(s.tasks)
    ensures |s.finished| < |s.tasks|
  {
    DistinctConcat(s.finished, [id]);
    forall i | 0 <= i < |s.finished + [id]| ensures (s.finished + [id])[i] in IdSet(s.tasks) {
      assert (s.finished + [id])[i] in s.finished + [id];
    }
    DistinctSize(s.finished + [id], IdSet(s.tasks));
    IdSetSize(s.tasks);
  }

  lemma {:induction false} IdSetSize(tasks: seq<Task>)
    ensures |IdSet(tasks)| <= |tasks|
  {
    if tasks != [] {
      var n := |tasks| - 1;
      IdSetSize(tasks[..n]);
      assert tasks == tasks[..n] + [tasks[n]];
      assert IdSet(tasks) == IdSet(tasks[..n]) + {tasks[n].id};
    }
  }

  lemma {:induction false} RecordKeeps(s: State, id: Id, status: int)
    requires Inv(s) && Enabled(s, CompleteStep(id, status))
    ensures var s1 := Record(s, id, status);
      && Conserved(s1) && Ordered(s1) && SkipsInherited(s1)
      && multiset(s1.published)[COMPLETED] == 0
      && |s1.finished| <= |s1.tasks|
  {
    RunningIsUnfinished(s, id);
    RecordConserves(s, id, status);
    RecordInherits(s, id, status);
    RecordOrders(s, id, status);
    RecordIsQuiet(s, id, status);
    hide Conserved, Ordered, SkipsInherited, Enabled, WellPosed, CompletedOnce;
  }

  lemma {:induction false} RecordIsQuiet(s: State, id: Id, status: int)
    requires CompletedOnce(s) && |s.finished| < |s.tasks|
    ensures multiset(Record(s, id, status).published)[COMPLETED] == 0
  {
  }

  lemma {:induction false} LastCompletionKeeps(s: State)
    requires WellPosed(s.tasks) && Conserved(s) && Ordered(s) && SkipsInherited(s)
    requires multiset(s.published)[COMPLETED] == 0 && |s.finished| == |s.tasks|
    ensures Inv(Publish(s, COMPLETED)) && s.queue == []
  {
    PublishKeepsRest(s, COMPLETED);
    EverythingFinished(s);
  }

  lemma {:induction false} FailingCompletionKeeps(s: State)
    requires WellPosed(s.tasks) && Conserved(s) && Ordered(s) && SkipsInherited(s)
    requires multiset(s.published)[COMPLETED] == 0 && |s.finished| != |s.tasks|
    ensures Inv(Publish(s, FAILED))
  {
    PublishKeepsRest(s, FAILED);
  }

  lemma {:induction false} CompleteKeeps(s: State, id: Id, status: int)
    requires Inv(s) && Enabled(s, CompleteStep(id, status))
    ensures var s' := Complete(s, id, status);
      && Inv(s') && s'.tasks == s.tasks && s'.canFail == s.canFail
      && (!ReportsFailure(s, id, status) ==> forall t :: t in s'.queue ==> !Ready(s', t))
  {
    hide Conserved, Ordered, SkipsInherited, WellPosed, Sift;
    RecordKeeps(s, id, status);
    var s1 := Record(s, id, status);
    if |s1.tasks| == |s1.finished| {
      LastCompletionKeeps(s1);
    } else if ReportsFailure(s, id, status) {
      FailingCompletionKeeps(s1);
    } else {
      FetchKeeps(s1);
    }
  }

  lemma {:induction false} PublishKeepsRest(s: State, e: Event)
    requires Conserved(s) && Ordered(s) && SkipsInherited(s) && e.OfPipeline?
    ensures Conserved(Publish(s, e)) && Ordered(Publish(s, e)) && SkipsInherited(Publish(s, e))
  {
    forall id ensures WasActive(Publish(s, e), id) <==> WasActive(s, id) {}
    forall c ensures Withheld(Publish(s, e), c) <==> Withheld(s, c) {}
  }

  /** Counting finished tasks is enough to know that all of them are finished. */
  lemma {:induction false} EverythingFinished(s: State)
    requires UniqueIds(s.tasks) && Conserved(s) && |s.finished| == |s.tasks|
    ensures (set id | id in s.finished) == IdSet(s.tasks)
    ensures s.queue == [] && s.active == map[] && s.dead == {}
  {
    UnstartedMembers(s.tasks, s.threads);
    if x :| x in IdSet(s.tasks) && x !in s.finished {
      DistinctConcat(s.finished, [x]);
      DistinctSize(s.finished + [x], IdSet(s.tasks));
      IdSetSize(s.tasks);
    }
    forall x | x in IdSet(s.tasks) ensures x in s.threads && x !in s.active && x !in s.dead {}
    assert forall x :: x in s.active || x in s.dead ==> x in IdSet(s.tasks);
    EmptyOrInhabited(s.queue);
  }
}
