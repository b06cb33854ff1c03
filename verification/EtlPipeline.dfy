// The chain of job tasks that the API adds to an ETL pipeline template.
module EtlPipeline {
  import opened Relations
  import opened Tasks
  import opened DependencyGraph
  import opened Scheduler
  import opened SchedulerInvariants
  import opened Runs

  const GEN: Id := "gen-inbound-manifests"
  const REDUCE: Id := "inbound-status-reduce"

  function Digit(d: nat): char
    requires d < 10
  {
    "0123456789"[d]
  }

  function Decimal(n: nat): string {
    if n < 10 then [Digit(n)] else Decimal(n / 10) + [Digit(n % 10)]
  }

  function JobId(i: nat): Id {
    "etl_job_" + Decimal(i)
  }

  lemma {:induction false} DigitInjective(c: nat, d: nat)
    requires c < 10 && d < 10 && Digit(c) == Digit(d)
    ensures c == d
  {
  }

  lemma {:induction false} DecimalLast(n: nat)
    ensures Decimal(n) == (if n < 10 then [] else Decimal(n / 10)) + [Digit(n % 10)]
    ensures |Decimal(n)| == 1 <==> n < 10
  {
    DecimalNonEmpty(n / 10);
    hide Digit;
  }

  lemma {:induction false} DecimalInjective(m: nat, n: nat)
    ensures Decimal(m) == Decimal(n) ==> m == n
  {
    DecimalLast(m);
    DecimalLast(n);
    if Decimal(m) == Decimal(n) {
      var front, front' := if m < 10 then [] else Decimal(m / 10), if n < 10 then [] else Decimal(n / 10);
      hide Decimal, Digit;
      assert (front + [Digit(m % 10)])[|front|] == Digit(m % 10) && (front' + [Digit(n % 10)])[|front'|] == Digit(n % 10);
      assert front == (front + [Digit(m % 10)])[..|front|] == (front' + [Digit(n % 10)])[..|front'|] == front';
      DigitInjective(m % 10, n % 10);
      if m >= 10 {
        DecimalInjective(m / 10, n / 10);
      }
    }
  }

  lemma {:induction false} DecimalNonEmpty(n: nat)
    ensures |Decimal(n)| > 0
  {
  }

  /** The number a string of decimal digits stands for. */
  function ValueOf(s: string): int {
    if s == "" then 0 else 10 * ValueOf(s[..|s| - 1]) + (s[|s| - 1] as int - '0' as int)
  }

  /** Decimal notation stands for its number, and has no leading zero. */
  lemma {:induction false} DecimalMeans(n: nat)
    ensures ValueOf(Decimal(n)) == n && (forall c :: c in Decimal(n) ==> '0' <= c <= '9')
    ensures |Decimal(n)| > 0 && (n > 0 ==> Decimal(n)[0] != '0')
  {
    assert forall d :: 0 <= d < 10 ==> Digit(d) as int == '0' as int + d;
    hide Digit;
    if n >= 10 {
      DecimalMeans(n / 10);
      var front := Decimal(n / 10);
      assert (front + [Digit(n % 10)])[..|front|] == front;
    } else {
      assert [Digit(n)][..0] == "" && Digit(n % 10) == Digit(n);
    }
  }

  lemma {:induction false} JobIdInjective(i: nat, j: nat)
    ensures JobId(i) == JobId(j) ==> i == j
    ensures JobId(i) != REDUCE && JobId(i) != GEN
  {
    DecimalInjective(i, j);
    assert JobId(i)[8..] == Decimal(i) && JobId(j)[8..] == Decimal(j);
    assert JobId(i)[0] == 'e';
  }

  /** What job `i` depends on. */
  function Before(i: nat): Id {
    if i <= 1 then GEN else JobId(i - 1)
  }

  function Job(i: nat): Task {
    Task(JobId(i), [Dependency(Before(i), false, false)])
  }

  function Jobs(n: nat): seq<Task> {
    if n == 0 then [] else Jobs(n - 1) + [Job(n)]
  }

  /** The entries appended to the reduce task. */
  function JobEntries(n: nat): seq<Dependency> {
    if n == 0 then [] else JobEntries(n - 1) + [Dependency(JobId(n), true, false)]
  }

  /** `tasks` with `extra` appended to the dependencies of the first reduce task. */
  function Extended(tasks: seq<Task>, extra: seq<Dependency>): seq<Task> {
    if tasks == [] then []
    else if tasks[0].id == REDUCE then [tasks[0].(dependsOn := tasks[0].dependsOn + extra)] + tasks[1..]
    else [tasks[0]] + Extended(tasks[1..], extra)
  }

  function Generated(template: seq<Task>, n: nat): seq<Task> {
    Extended(Jobs(n) + template, JobEntries(n))
  }

  lemma {:induction false} ExtendedAt(tasks: seq<Task>, extra: seq<Dependency>, k: nat)
    requires k < |tasks| && tasks[k].id == REDUCE && forall i :: 0 <= i < k ==> tasks[i].id != REDUCE
    ensures Extended(tasks, extra) == tasks[k := tasks[k].(dependsOn := tasks[k].dependsOn + extra)]
  {
    if k > 0 {
      ExtendedAt(tasks[1..], extra, k - 1);
    }
  }

  /** The job loop: each job depends on the one before it, the first on the manifests. */
  method ChainJobs(n: nat) returns (tasks: seq<Task>)
    ensures tasks == Jobs(n)
  {
    var lastTaskId := GEN;
    tasks := [];
    for i := 1 to n + 1
      invariant tasks == Jobs(i - 1) && lastTaskId == Before(i)
    {
      var taskId := JobId(i);
      tasks := tasks + [Task(taskId, [Dependency(lastTaskId, false, false)])];
      lastTaskId := taskId;
    }
  }

  /** The position of the first reduce task. */
  method FindReduce(tasks: seq<Task>) returns (k: nat)
    ensures k <= |tasks| && forall i :: 0 <= i < k ==> tasks[i].id != REDUCE
    ensures k < |tasks| ==> tasks[k].id == REDUCE
  {
    k := 0;
    while k < |tasks| && tasks[k].id != REDUCE
      invariant 0 <= k <= |tasks| && forall i :: 0 <= i < k ==> tasks[i].id != REDUCE
    {
      k := k + 1;
    }
  }

  /** The loop that makes the reduce task depend on every job. */
  method ExtendReduce(all: seq<Task>, k: nat, jobTasks: seq<Task>) returns (tasks: seq<Task>)
    requires k < |all| && jobTasks == Jobs(|jobTasks|)
    ensures tasks == all[k := all[k].(dependsOn := all[k].dependsOn + JobEntries(|jobTasks|))]
  {
    JobsAre(|jobTasks|);
    tasks := all;
    assert all[k].dependsOn + JobEntries(0) == all[k].dependsOn;
    for j := 0 to |jobTasks|
      invariant |tasks| == |all| && tasks == all[k := all[k].(dependsOn := all[k].dependsOn + JobEntries(j))]
    {
      var extended := tasks[k].dependsOn + [Dependency(jobTasks[j].id, true, false)];
      assert extended == all[k].dependsOn + JobEntries(j + 1);
      tasks := tasks[k := tasks[k].(dependsOn := extended)];
    }
  }

  /** The construction; it fails when there is no reduce task to extend. */
  method GenerateTasks(template: seq<Task>, n: nat) returns (ok: bool, tasks: seq<Task>)
    ensures ok <==> REDUCE in IdSet(template)
    ensures ok ==> tasks == Generated(template, n)
  {
    var jobTasks := ChainJobs(n);
    tasks := jobTasks + template;
    ReduceIsInTemplate(template, n);
    var k := FindReduce(tasks);
    if k == |tasks| {
      assert forall t :: t in tasks ==> t.id != REDUCE;
      return false, [];
    }
    assert tasks[k] in tasks;
    ExtendedAt(tasks, JobEntries(n), k);
    JobsAre(n);
    tasks := ExtendReduce(tasks, k, jobTasks);
    return true, tasks;
  }

  lemma {:induction false} ReduceIsInTemplate(template: seq<Task>, n: nat)
    ensures REDUCE in IdSet(template) <==> exists t :: t in Jobs(n) + template && t.id == REDUCE
  {
    JobsAre(n);
    forall t | t in Jobs(n) ensures t.id != REDUCE {
      var i :| 0 <= i < n && Jobs(n)[i] == t;
      JobIdInjective(i + 1, i + 1);
    }
    forall t | t in template ensures t in Jobs(n) + template {}
  }

  lemma {:induction false} JobsAre(n: nat)
    ensures |Jobs(n)| == n && forall i :: 0 <= i < n ==> Jobs(n)[i] == Job(i + 1)
  {
    hide Job;
    if n > 0 {
      JobsAre(n - 1);
    }
  }

  lemma {:induction false} EntriesAre(n: nat)
    ensures |JobEntries(n)| == n && forall i :: 0 <= i < n ==> JobEntries(n)[i] == Dependency(JobId(i + 1), true, false)
  {
    hide JobId;
    if n > 0 {
      EntriesAre(n - 1);
    }
  }

  // The generated graph.

  /** A template the construction is meant for. None of its tasks carries the id of a
      generated job, it has the two tasks the chain hangs on, it is acyclic, and generating
      the manifests does not depend on reducing the statuses. */
  ghost predicate Suitable(template: seq<Task>, n: nat) {
    && UniqueIds(template) && DependenciesExist(template)
    && GEN in IdSet(template) && REDUCE in IdSet(template)
    && (forall i :: 1 <= i <= n ==> JobId(i) !in IdSet(template))
    && !Cyclic(Edges(template)) && !Reaches(Edges(template), GEN, REDUCE)
  }

  ghost predicate IsJob(id: Id, n: nat) {
    exists i :: 1 <= i <= n && id == JobId(i)
  }

  /** Job `i` and what it depends on. */
  ghost predicate ChainPair(c: Id, p: Id, n: nat) {
    exists i :: 1 <= i <= n && c == JobId(i) && p == Before(i)
  }

  ghost function Reducer(template: seq<Task>, n: nat): Task
    requires REDUCE in IdSet(template)
  {
    var r := TaskById(template, REDUCE);
    r.(dependsOn := r.dependsOn + JobEntries(n))
  }

  lemma {:induction false} ExtendedInPlace(a: seq<Task>, b: seq<Task>, extra: seq<Dependency>, m: nat)
    requires m < |b| && b[m].id == REDUCE
    requires (forall i :: 0 <= i < |a| ==> a[i].id != REDUCE) && forall i :: 0 <= i < m ==> b[i].id != REDUCE
    ensures Extended(a + b, extra) == (a + b)[|a| + m := b[m].(dependsOn := b[m].dependsOn + extra)]
  {
    var all := a + b;
    hide Extended;
    assert all[|a| + m] == b[m];
    forall i | 0 <= i < |a| + m ensures all[i].id != REDUCE {
      if i >= |a| { assert all[i] == b[i - |a|]; }
    }
    ExtendedAt(all, extra, |a| + m);
  }

  lemma {:induction false} NoJobReduces(n: nat)
    ensures |Jobs(n)| == n && forall i :: 0 <= i < n ==> Jobs(n)[i].id != REDUCE
  {
    JobsAre(n);
    forall i | 0 <= i < n ensures Jobs(n)[i].id != REDUCE {
      JobIdInjective(i + 1, i + 1);
    }
  }

  /** The reduce task stays where it is, and everything else is untouched. */
  lemma {:induction false} GeneratedIs(template: seq<Task>, n: nat) returns (m: nat)
    requires Suitable(template, n)
    ensures m < |template| && template[m] == TaskById(template, REDUCE)
    ensures |Jobs(n)| == n && Generated(template, n) == (Jobs(n) + template)[n + m := Reducer(template, n)]
  {
    var r := TaskById(template, REDUCE);
    m :| 0 <= m < |template| && template[m] == r;
    OneReduce(template, m);
    NoJobReduces(n);
    hide Suitable, UniqueIds, Jobs, JobEntries, IdSet, Extended;
    ExtendedInPlace(Jobs(n), template, JobEntries(n), m);
  }

  lemma {:induction false} AllDistinct(template: seq<Task>, n: nat, i: nat, j: nat)
    requires Suitable(template, n) && i < j < |Jobs(n) + template|
    ensures (Jobs(n) + template)[i].id != (Jobs(n) + template)[j].id
  {
    JobsAre(n);
    JobIdInjective(i + 1, j + 1);
    if i < n <= j {
      assert template[j - n].id in IdSet(template);
    }
  }

  lemma {:induction false} GeneratedUnique(template: seq<Task>, n: nat)
    requires Suitable(template, n)
    ensures UniqueIds(Generated(template, n))
  {
    var m := GeneratedIs(template, n);
    var g := Generated(template, n);
    forall i, j | 0 <= i < j < |g| ensures g[i].id != g[j].id {
      AllDistinct(template, n, i, j);
    }
  }

  lemma {:induction false} OneReduce(template: seq<Task>, m: nat)
    requires UniqueIds(template) && m < |template| && template[m].id == REDUCE
    ensures forall l :: 0 <= l < |template| && l != m ==> template[l].id != REDUCE
  {
  }

  lemma {:induction false} ReplacedMembers(all: seq<Task>, k: nat, r: Task, g: seq<Task>, t: Task)
    requires k < |all| && all[k].id == REDUCE && (forall i :: 0 <= i < |all| && i != k ==> all[i].id != REDUCE) && g == all[k := r]
    ensures t in g <==> t == r || (t in all && t.id != REDUCE)
  {
    assert g[k] == r;
    if i :| 0 <= i < |g| && g[i] == t && i != k {
      assert all[i] == t;
    }
    if i :| 0 <= i < |all| && all[i] == t && i != k {
      assert g[i] == t;
    }
  }

  lemma {:induction false} NoOtherReduce(template: seq<Task>, n: nat, m: nat)
    requires Suitable(template, n) && m < |template| && template[m].id == REDUCE && |Jobs(n)| == n
    ensures var all := Jobs(n) + template;
      all[n + m].id == REDUCE && forall i :: 0 <= i < |all| && i != n + m ==> all[i].id != REDUCE
  {
    var all := Jobs(n) + template;
    forall i | 0 <= i < |all| && i != n + m ensures all[i].id != all[n + m].id {
      AllDistinct(template, n, if i < n + m then i else n + m, if i < n + m then n + m else i);
    }
    hide Suitable, Jobs;
  }

  lemma {:induction false} GeneratedMembers(template: seq<Task>, n: nat, t: Task)
    requires Suitable(template, n)
    ensures t in Generated(template, n) <==> t == Reducer(template, n) || (t in Jobs(n) + template && t.id != REDUCE)
  {
    var m := GeneratedIs(template, n);
    NoOtherReduce(template, n, m);
    var all, g, r := Jobs(n) + template, Generated(template, n), Reducer(template, n);
    assert |all| == n + |template|;
    hide Generated, Suitable, Reducer, Jobs, IdSet, UniqueIds;
    ReplacedMembers(all, n + m, r, g, t);
  }

  /** Every generated task is a job, a template task other than the reduce task, or the extended reduce task. */
  lemma {:induction false} GeneratedOnly(template: seq<Task>, n: nat, t: Task)
    requires Suitable(template, n) && t in Generated(template, n)
    ensures t == Reducer(template, n) || (t in template && t.id != REDUCE) || exists i :: 1 <= i <= n && t == Job(i)
  {
    GeneratedMembers(template, n, t);
    JobsAre(n);
    hide Generated, Suitable, Reducer, Jobs, Job;
    if t in Jobs(n) {
      var i :| 0 <= i < n && Jobs(n)[i] == t;
      assert t == Job(i + 1);
    }
  }

  lemma {:induction false} GeneratedAll(template: seq<Task>, n: nat)
    requires Suitable(template, n)
    ensures Reducer(template, n) in Generated(template, n)
    ensures forall i :: 1 <= i <= n ==> Job(i) in Generated(template, n)
    ensures forall t :: t in template && t.id != REDUCE ==> t in Generated(template, n)
  {
    JobsAre(n);
    GeneratedMembers(template, n, Reducer(template, n));
    forall i | 1 <= i <= n ensures Job(i) in Generated(template, n) {
      assert Jobs(n)[i - 1] == Job(i);
      JobIdInjective(i, i);
      GeneratedMembers(template, n, Job(i));
    }
    forall t | t in template && t.id != REDUCE ensures t in Generated(template, n) {
      GeneratedMembers(template, n, t);
    }
    hide Generated, Suitable, Reducer, Jobs, Job;
  }

  /** The reduce task keeps its own entries, and after them waits for every job, whose failure it allows. */
  lemma {:induction false} ReduceWaitsForJobs(template: seq<Task>, n: nat) returns (t: Task, entries: seq<Dependency>)
    requires Suitable(template, n)
    ensures t in Generated(template, n) && t.id == REDUCE && t.dependsOn == TaskById(template, REDUCE).dependsOn + entries
    ensures |entries| == n && forall i :: 0 <= i < n ==> entries[i] == Dependency(JobId(i + 1), true, false)
  {
    GeneratedAll(template, n);
    EntriesAre(n);
    t, entries := Reducer(template, n), JobEntries(n);
    hide Generated, Suitable, JobEntries, JobId;
  }

  // The tasks as the engine receives them. They are stored one by one and read back
  // in no particular order.

  /** The generated tasks in some order. */
  ghost predicate Delivered(g: seq<Task>, template: seq<Task>, n: nat) {
    multiset(g) == multiset(Generated(template, n))
  }

  /** What the delivered tasks are, order aside. */
  ghost predicate Composed(g: seq<Task>, template: seq<Task>, n: nat) {
    && Suitable(template, n) && UniqueIds(g)
    && (forall t :: t in g ==> Part(template, n, t))
    && Reducer(template, n) in g && (forall i :: 1 <= i <= n ==> Job(i) in g)
    && (forall t :: t in template && t.id != REDUCE ==> t in g)
  }

  ghost predicate Part(template: seq<Task>, n: nat, t: Task)
    requires REDUCE in IdSet(template)
  {
    t == Reducer(template, n) || (t in template && t.id != REDUCE) || exists i :: 1 <= i <= n && t == Job(i)
  }

  lemma {:induction false} DeliveredMembers(g: seq<Task>, template: seq<Task>, n: nat)
    requires Delivered(g, template, n)
    ensures forall t :: t in g <==> t in Generated(template, n)
    ensures |g| == |Generated(template, n)| && IdSet(g) == IdSet(Generated(template, n))
  {
    var h := Generated(template, n);
    hide Generated;
    forall t ensures t in g <==> t in h {
      assert t in multiset(g) <==> t in multiset(h);
    }
    assert |multiset(g)| == |multiset(h)|;
    assert IdSet(g) == IdSet(h);
  }

  lemma {:induction false} DeliveredIsComposed(g: seq<Task>, template: seq<Task>, n: nat)
    requires Suitable(template, n) && Delivered(g, template, n)
    ensures Composed(g, template, n)
  {
    DeliveredMembers(g, template, n);
    GeneratedUnique(template, n);
    GeneratedAll(template, n);
    forall t | t in Generated(template, n) ensures Part(template, n, t) {
      GeneratedOnly(template, n, t);
    }
    hide Suitable, Generated, Delivered, Reducer, Job, Part, UniqueIds, IdSet;
    UniqueIdsSize(Generated(template, n));
    SizeUniqueIds(g);
  }

  /** As many ids as tasks means that no id is repeated. */
  lemma {:induction false} SizeUniqueIds(tasks: seq<Task>)
    requires |IdSet(tasks)| == |tasks|
    ensures UniqueIds(tasks)
  {
    if tasks != [] {
      var n := |tasks| - 1;
      var front, last := tasks[..n], tasks[n];
      assert tasks == front + [last];
      assert IdSet(tasks) == IdSet(front) + {last.id};
      IdSetSize(front);
      assert last.id !in IdSet(front);
      hide IdSet;
      SizeUniqueIds(front);
      LastIsNew(front, last);
    }
  }

  lemma {:induction false} LastIsNew(front: seq<Task>, last: Task)
    requires UniqueIds(front) && last.id !in IdSet(front)
    ensures UniqueIds(front + [last])
  {
    assert forall i :: 0 <= i < |front| ==> front[i] in front;
  }

  lemma {:induction false} ComposedIds(g: seq<Task>, template: seq<Task>, n: nat)
    requires Composed(g, template, n)
    ensures IdSet(template) <= IdSet(g)
    ensures forall i :: 1 <= i <= n ==> JobId(i) in IdSet(g)
  {
    forall id | id in IdSet(template) ensures id in IdSet(g) {
      var t := TaskById(template, id);
      assert t.id == REDUCE || t in g;
      assert Reducer(template, n).id == REDUCE;
    }
    forall i | 1 <= i <= n ensures JobId(i) in IdSet(g) {
      assert Job(i).id == JobId(i);
    }
  }

  /** The edges are the template's, the chain's and those from the reduce task to the jobs. */
  lemma {:induction false} ComposedEdge(g: seq<Task>, template: seq<Task>, n: nat, c: Id, p: Id)
    requires Composed(g, template, n) && (c, p) in Edges(g)
    ensures (c, p) in Edges(template) || (c == REDUCE && IsJob(p, n)) || ChainPair(c, p, n)
  {
    var t, d :| t in g && d in t.dependsOn && (c, p) == (t.id, d.id);
    assert Part(template, n, t);
    if t == Reducer(template, n) {
      EntriesAre(n);
      var r := TaskById(template, REDUCE);
      if d !in r.dependsOn {
        assert d in JobEntries(n);
        var i :| 0 <= i < n && JobEntries(n)[i] == d;
        assert p == JobId(i + 1);
      }
    } else if t !in template {
      var i :| 1 <= i <= n && t == Job(i);
      assert c == JobId(i) && p == Before(i);
    }
  }

  /** Whatever the order, ids stay unique and every entry names another existing task. */
  lemma {:induction false} GeneratedWellPosed(g: seq<Task>, template: seq<Task>, n: nat)
    requires Suitable(template, n) && Delivered(g, template, n)
    ensures WellPosed(g)
  {
    DeliveredIsComposed(g, template, n);
    ComposedWellPosed(g, template, n);
  }

  lemma {:induction false} ComposedWellPosed(g: seq<Task>, template: seq<Task>, n: nat)
    requires Composed(g, template, n)
    ensures WellPosed(g)
  {
    ComposedIds(g, template, n);
    forall t, d | t in g && d in t.dependsOn ensures d.id != t.id && d.id in IdSet(g) {
      assert (t.id, d.id) in Edges(g);
      ComposedEdge(g, template, n, t.id, d.id);
      EdgeSound(template, n, t.id, d.id);
    }
  }

  lemma {:induction false} EdgeSound(template: seq<Task>, n: nat, c: Id, p: Id)
    requires Suitable(template, n)
    requires (c, p) in Edges(template) || (c == REDUCE && IsJob(p, n)) || ChainPair(c, p, n)
    ensures c != p && (p in IdSet(template) || IsJob(p, n))
  {
    if i :| 1 <= i <= n && p == JobId(i) {
      JobIdInjective(i, i);
    }
    if i :| 1 <= i <= n && c == JobId(i) && p == Before(i) {
      JobIdInjective(i, i - 1);
      if i > 1 { assert p == JobId(i - 1); }
    }
  }

  // Acyclicity.

  /** `G` has the template's edges, the chain's and those from the reduce task to the jobs. */
  ghost predicate Shaped(E: set<(Id, Id)>, G: set<(Id, Id)>, n: nat) {
    forall c, p :: (c, p) in G ==> (c, p) in E || (c == REDUCE && IsJob(p, n)) || ChainPair(c, p, n)
  }

  ghost predicate JobFree(E: set<(Id, Id)>, n: nat) {
    forall c, p :: (c, p) in E ==> !IsJob(c, n) && !IsJob(p, n)
  }

  lemma {:induction false} ComposedShaped(g: seq<Task>, template: seq<Task>, n: nat)
    requires Composed(g, template, n)
    ensures Shaped(Edges(template), Edges(g), n) && JobFree(Edges(template), n)
  {
    var E := Edges(template);
    forall c, p | (c, p) in Edges(g) ensures (c, p) in E || (c == REDUCE && IsJob(p, n)) || ChainPair(c, p, n) {
      ComposedEdge(g, template, n, c, p);
    }
    forall c, p | (c, p) in E ensures c in IdSet(template) && p in IdSet(template) {
      TemplateEdge(template, c, p);
    }
    hide Edges, UniqueIds, DependenciesExist, Cyclic, Reaches, JobId;
  }

  lemma {:induction false} TemplateEdge(template: seq<Task>, c: Id, p: Id)
    requires DependenciesExist(template)
    ensures (c, p) in Edges(template) ==> c in IdSet(template) && p in IdSet(template)
  {
  }

  lemma {:induction false} StaysInTemplate(E: set<(Id, Id)>, G: set<(Id, Id)>, n: nat, S: set<Id>, c: Id)
    requires Shaped(E, G, n) && StaysIn(G, S, c) && c in S && forall id :: id in S ==> !IsJob(id, n)
    ensures StaysIn(E, S, c)
  {
    hide JobId, Before;
    var p :| p in S && (c, p) in G;
    assert ChainPair(c, p, n) ==> IsJob(c, n);
    assert (c, p) in E;
  }

  lemma {:induction false} NoJobsTrapped(E: set<(Id, Id)>, G: set<(Id, Id)>, n: nat, S: set<Id>)
    requires Shaped(E, G, n) && Trapped(G, S) && forall id :: id in S ==> !IsJob(id, n)
    ensures Trapped(E, S)
  {
    forall c | c in S ensures StaysIn(E, S, c) {
      assert StaysIn(G, S, c);
      StaysInTemplate(E, G, n, S, c);
    }
    hide JobId, Before, Shaped;
  }

  /** In a shaped graph a job leads to what it depends on and to nothing else. */
  lemma {:induction false} OnlyBefore(E: set<(Id, Id)>, G: set<(Id, Id)>, n: nat, i: nat, p: Id)
    requires Shaped(E, G, n) && JobFree(E, n) && 1 <= i <= n && (JobId(i), p) in G
    ensures p == Before(i)
  {
    JobIdInjective(i, i);
    hide JobId, Before;
    assert IsJob(JobId(i), n);
    assert ChainPair(JobId(i), p, n);
    var j :| 1 <= j <= n && JobId(i) == JobId(j) && p == Before(j);
    JobIdInjective(i, j);
  }

  /** A trapped set with a job in it contains every earlier job, and the manifests. */
  lemma {:induction false} JobPullsManifests(E: set<(Id, Id)>, G: set<(Id, Id)>, n: nat, S: set<Id>, i: nat)
    requires Shaped(E, G, n) && JobFree(E, n) && Trapped(G, S) && 1 <= i <= n && JobId(i) in S
    ensures GEN in S
  {
    assert StaysIn(G, S, JobId(i));
    hide JobId, Shaped, JobFree, Trapped;
    var p :| p in S && (JobId(i), p) in G;
    OnlyBefore(E, G, n, i, p);
    if i > 1 {
      JobPullsManifests(E, G, n, S, i - 1);
    }
  }

  lemma {:induction false} ReachedIsNoJob(E: set<(Id, Id)>, n: nat, c: Id)
    requires JobFree(E, n) && Reaches(E, GEN, c)
    ensures !IsJob(c, n)
  {
    forall i: nat ensures JobId(i) != GEN {
      JobIdInjective(i, i);
    }
    hide JobId;
    var w :| WalkBetween(E, w, GEN, c);
    if |w| > 1 {
      assert (w[|w| - 2], w[|w| - 1]) in E;
    }
  }

  /** What the manifests depend on, within a trapped set, is trapped in the template. */
  lemma {:induction false} ManifestsTrapped(E: set<(Id, Id)>, G: set<(Id, Id)>, n: nat, S: set<Id>)
    requires Shaped(E, G, n) && JobFree(E, n) && !Reaches(E, GEN, REDUCE) && Trapped(G, S) && GEN in S
    ensures Trapped(E, set c | c in S && Reaches(E, GEN, c))
  {
    hide JobFree, JobId, Before, Reaches;
    var T := set c | c in S && Reaches(E, GEN, c);
    ReachesItself(E, GEN);
    assert GEN in T;
    forall c | c in T ensures StaysIn(E, T, c) {
      assert StaysIn(G, S, c);
      var p :| p in S && (c, p) in G;
      ReachedIsNoJob(E, n, c);
      assert ChainPair(c, p, n) ==> IsJob(c, n);
      assert (c, p) in E;
      ReachesFurther(E, GEN, c, p);
      assert p in T;
    }
  }

  lemma {:induction false} TrappedSpreads(E: set<(Id, Id)>, G: set<(Id, Id)>, n: nat, S: set<Id>)
    requires Shaped(E, G, n) && JobFree(E, n) && !Reaches(E, GEN, REDUCE) && Trapped(G, S)
    ensures Cyclic(E)
  {
    hide Shaped, JobFree, Reaches, Trapped, JobId, Cyclic;
    if id :| id in S && IsJob(id, n) {
      var i :| 1 <= i <= n && id == JobId(i);
      JobPullsManifests(E, G, n, S, i);
      ManifestsTrapped(E, G, n, S);
      TrappedHasClosedWalk(E, set c | c in S && Reaches(E, GEN, c));
    } else {
      NoJobsTrapped(E, G, n, S);
      TrappedHasClosedWalk(E, S);
    }
  }

  /** The generated pipeline is acyclic, whatever the number of jobs. */
  lemma {:induction false} GeneratedAcyclic(g: seq<Task>, template: seq<Task>, n: nat)
    requires Suitable(template, n) && Delivered(g, template, n)
    ensures !Cyclic(Edges(g))
  {
    var E, G := Edges(template), Edges(g);
    DeliveredIsComposed(g, template, n);
    ComposedShaped(g, template, n);
    CyclicIffTrapped(G);
    hide Edges, Delivered, Composed, Shaped, JobFree, Reaches, Trapped, JobId;
    if S :| Trapped(G, S) {
      TrappedSpreads(E, G, n, S);
    }
  }

  // Runs of the generated pipeline.

  lemma {:induction false} ChainEdge(g: seq<Task>, template: seq<Task>, n: nat, i: nat)
    requires Composed(g, template, n) && 1 <= i <= n
    ensures (JobId(i), Before(i)) in BindingEdges(g) && (REDUCE, JobId(i)) in BindingEdges(g)
    ensures (JobId(i), Before(i)) in Edges(g) && (REDUCE, JobId(i)) in Edges(g)
  {
    assert Job(i) in g;
    assert Dependency(Before(i), false, false) in Job(i).dependsOn;
    EntriesAre(n);
    assert JobEntries(n)[i - 1] in JobEntries(n);
    var d := Dependency(JobId(i), true, false);
    assert d in Reducer(template, n).dependsOn && Reducer(template, n).id == REDUCE;
  }

  lemma {:induction false} EarlierJobsFirst(E: set<(Id, Id)>, threads: seq<Id>, finished: seq<Id>, i: nat, j: nat)
    requires OrderedBy(E, threads, finished) && 1 <= i < j && JobId(j) in threads
    requires forall k :: i < k <= j ==> (JobId(k), Before(k)) in E
    ensures JobId(i) in threads && JobId(i) in finished && IndexIn(threads, JobId(i)) < IndexIn(threads, JobId(j))
    decreases j
  {
    ParentStarted(E, threads, finished, JobId(j), Before(j));
    if i < j - 1 {
      EarlierJobsFirst(E, threads, finished, i, j - 1);
    }
  }

  /** The jobs run strictly in order: when a job has been started, every earlier one
      had been started before it and is finished. */
  lemma {:induction false} JobsRunInOrder(g: seq<Task>, template: seq<Task>, n: nat, run: seq<Step>, i: nat, j: nat)
    requires Suitable(template, n) && Delivered(g, template, n) && 1 <= i < j <= n
    requires IsRun(Launched(g), run) && JobId(j) in After(Launched(g), run).threads
    ensures var s := After(Launched(g), run);
      JobId(i) in s.finished && JobId(i) in s.threads && IndexIn(s.threads, JobId(i)) < IndexIn(s.threads, JobId(j))
  {
    DeliveredIsComposed(g, template, n);
    ComposedWellPosed(g, template, n);
    forall k | i < k <= j ensures (JobId(k), Before(k)) in Edges(g) {
      ChainEdge(g, template, n, k);
    }
    RunKeeps(g, run);
    var s := After(Launched(g), run);
    hide Composed, Suitable, Delivered, Launched, IsRun, After, JobId, Edges;
    EarlierJobsFirst(Edges(g), s.threads, s.finished, i, j);
  }

  function ChainDown(j: nat, i: nat): seq<Id>
    requires i <= j
    decreases j - i
  {
    if j == i then [JobId(i)] else [JobId(j)] + ChainDown(j - 1, i)
  }

  lemma {:induction false} ChainIsWalk(E: set<(Id, Id)>, n: nat, j: nat, i: nat)
    requires 1 <= i <= j <= n && forall k :: 1 <= k <= n ==> (JobId(k), Before(k)) in E
    ensures var w := ChainDown(j, i);
      Walk(E, w) && |w| == j - i + 1 && w[0] == JobId(j) && w[|w| - 1] == JobId(i)
    decreases j - i
  {
    hide JobId;
    if i < j {
      ChainIsWalk(E, n, j - 1, i);
      var v := ChainDown(j - 1, i);
      assert (JobId(j), Before(j)) in E && v[0] == Before(j);
      hide Before, ChainDown;
      WalkGrows(E, JobId(j), v);
    }
  }

  lemma {:induction false} WalkGrows(E: set<(Id, Id)>, c: Id, w: seq<Id>)
    requires Walk(E, w) && (c, w[0]) in E
    ensures Walk(E, [c] + w)
  {
    var v := [c] + w;
    assert forall i :: 0 <= i < |w| ==> v[i + 1] == w[i];
    forall i | 0 <= i < |v| - 1 ensures (v[i], v[i + 1]) in E {
      assert i > 0 ==> (w[i - 1], w[i]) in E;
    }
  }

  /** Once a job is skipped, every later job and the reduce task end skipped, never having run. */
  lemma {:induction false} SkippedJobEndsChain(g: seq<Task>, template: seq<Task>, n: nat, run: seq<Step>, i: nat, id: Id)
    requires Suitable(template, n) && Delivered(g, template, n) && 1 <= i <= n && IsRun(Launched(g), run)
    requires JobId(i) in After(Launched(g), run).skipped && id in After(Launched(g), run).finished
    requires id == REDUCE || exists j :: i < j <= n && id == JobId(j)
    ensures var s := After(Launched(g), run); id in s.skipped && !WasActive(s, id)
  {
    DeliveredIsComposed(g, template, n);
    ComposedWellPosed(g, template, n);
    var w := WayToJob(g, template, n, i, id);
    hide Delivered, Composed, Suitable, JobId, Launched, After, IsRun, WellPosed, BindingEdges;
    SkipClosure(g, run, w);
  }

  lemma {:induction false} WayDown(E: set<(Id, Id)>, n: nat, i: nat, id: Id, u: Id) returns (w: seq<Id>)
    requires 1 <= i <= n && forall k :: 1 <= k <= n ==> (JobId(k), Before(k)) in E && (u, JobId(k)) in E
    requires id == u || exists j :: i < j <= n && id == JobId(j)
    ensures Walk(E, w) && |w| > 1 && w[0] == id && w[|w| - 1] == JobId(i)
  {
    hide JobId, Before;
    if j :| i < j <= n && id == JobId(j) {
      ChainIsWalk(E, n, j, i);
      w := ChainDown(j, i);
    } else {
      w := [u, JobId(i)];
    }
  }

  /** Job `i` is waited for by every later job and by the reduce task. */
  lemma {:induction false} WayToJob(g: seq<Task>, template: seq<Task>, n: nat, i: nat, id: Id) returns (w: seq<Id>)
    requires Composed(g, template, n) && 1 <= i <= n
    requires id == REDUCE || exists j :: i < j <= n && id == JobId(j)
    ensures Walk(BindingEdges(g), w) && |w| > 1 && w[0] == id && w[|w| - 1] == JobId(i)
  {
    forall k | 1 <= k <= n ensures (JobId(k), Before(k)) in BindingEdges(g) && (REDUCE, JobId(k)) in BindingEdges(g) {
      ChainEdge(g, template, n, k);
    }
    w := WayDown(BindingEdges(g), n, i, id, REDUCE);
    hide Composed, BindingEdges, JobId, Before;
  }

  // Permission to fail.

  lemma {:induction false} FirstEntryIs(entries: seq<Dependency>, p: Id)
    requires CountNaming(entries, p) > 0
    ensures FirstEntry(entries, p) in entries && FirstEntry(entries, p).id == p
  {
    var rest := entries[..|entries| - 1];
    if CountNaming(rest, p) > 0 {
      FirstEntryIs(rest, p);
    }
  }

  /** Of the jobs, only the last may fail without failing the pipeline. */
  lemma {:induction false} OnlyLastJobMayFail(g: seq<Task>, template: seq<Task>, n: nat, i: nat)
    requires Suitable(template, n) && Delivered(g, template, n) && 1 <= i <= n
    ensures JobId(i) in MayFailSet(g) <==> i == n
  {
    DeliveredIsComposed(g, template, n);
    ComposedIds(g, template, n);
    if i < n {
      NextJobForbids(g, template, n, i);
    } else {
      LastJobAllowed(g, template, n);
    }
    hide Delivered, Composed, Suitable, JobId, MayFail;
  }

  lemma {:induction false} NextJobForbids(g: seq<Task>, template: seq<Task>, n: nat, i: nat)
    requires Composed(g, template, n) && 1 <= i < n
    ensures !MayFail(g, JobId(i))
  {
    var t, p := Job(i + 1), JobId(i);
    assert t in g && t.dependsOn[0].id == p;
    CountPositive(t.dependsOn, p);
    FirstEntryIs(t.dependsOn, p);
    assert !FirstEntry(t.dependsOn, p).canFail;
  }

  lemma {:induction false} LastJobAllowed(g: seq<Task>, template: seq<Task>, n: nat)
    requires Composed(g, template, n) && n >= 1
    ensures MayFail(g, JobId(n))
  {
    var p := JobId(n);
    ReducerNamesJob(template, n, n);
    ChildrenMembers(g, p, REDUCE);
    assert REDUCE in Children(g, p);
    forall t | t in g && CountNaming(t.dependsOn, p) > 0 ensures FirstEntry(t.dependsOn, p).canFail {
      assert Part(template, n, t);
      LastJobNamedByReducer(template, n, t);
    }
    hide Composed, Suitable, JobId, Reducer, Job, Part;
  }

  lemma {:induction false} ReducerNamesJob(template: seq<Task>, n: nat, i: nat)
    requires Suitable(template, n) && 1 <= i <= n
    ensures CountNaming(Reducer(template, n).dependsOn, JobId(i)) > 0
    ensures FirstEntry(Reducer(template, n).dependsOn, JobId(i)).canFail
  {
    var entries := Reducer(template, n).dependsOn;
    EntriesAre(n);
    assert JobEntries(n)[i - 1] in entries;
    CountPositive(entries, JobId(i));
    FirstEntryIs(entries, JobId(i));
    var d := FirstEntry(entries, JobId(i));
    assert forall e :: e in TaskById(template, REDUCE).dependsOn ==> e.id in IdSet(template);
    assert d in JobEntries(n);
  }

  lemma {:induction false} TemplateNamesNoJob(template: seq<Task>, n: nat, t: Task, i: nat)
    requires Suitable(template, n) && 1 <= i <= n
    ensures t in template ==> CountNaming(t.dependsOn, JobId(i)) == 0
  {
    CountPositive(t.dependsOn, JobId(i));
  }

  lemma {:induction false} LastJobNamedByReducer(template: seq<Task>, n: nat, t: Task)
    requires Suitable(template, n) && n >= 1 && Part(template, n, t) && CountNaming(t.dependsOn, JobId(n)) > 0
    ensures FirstEntry(t.dependsOn, JobId(n)).canFail
  {
    TemplateNamesNoJob(template, n, t, n);
    forall i | 1 <= i <= n ensures t != Job(i) {
      JobIdInjective(i - 1, n);
      CountPositive(Job(i).dependsOn, JobId(n));
    }
    hide Suitable, JobId, Job, Reducer;
    assert t == Reducer(template, n);
    ReducerNamesJob(template, n, n);
  }
}
