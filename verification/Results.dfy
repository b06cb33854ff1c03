// What becomes of each task of a run, explained by what its conditions and its executor came to.
module Results {
  import opened Relations
  import opened Tasks
  import opened Events
  import opened Scheduler
  import opened SchedulerInvariants
  import opened Runs

  /** A dependency that cannot be skipped has been. */
  ghost predicate Bound(s: State, id: Id) {
    exists p :: p in s.skipped && (id, p) in BindingEdges(s.tasks)
  }

  datatype Ruling = Skip | Fail | Die | Run

  /** A bound task is skipped whatever its conditions come to; failed conditions skip,
      a condition error fails, and a comparison or staging error ends the thread. */
  ghost function Ruled(s: State, id: Id, o: Outcome): Ruling {
    if Bound(s, id) then Skip
    else match o
    case ConditionsFail => Skip
    case ConditionError => Fail
    case Escapes => Die
    case ConditionsHold => Run
  }

  /** Only a task that is run leaves its result to its executor. */
  predicate Allows(ruling: Ruling, status: int) {
    match ruling
    case Skip => status == -1
    case Fail => status == 1
    case Die => false
    case Run => true
  }

  /** A thread after its decision. */
  ghost predicate DecidedAs(s: State, id: Id, ruling: Ruling) {
    && id in s.threads && (id in s.dead <==> ruling == Die) && (WasActive(s, id) <==> ruling == Run)
    && (id in s.active ==> if ruling == Run then s.active[id] == Executing else s.active[id].Resolved? && Allows(ruling, s.active[id].status))
  }

  /** Where a result is recorded. */
  ghost predicate EndedAs(s: State, id: Id, status: int) {
    && id in s.finished
    && (id in s.succeeded <==> status == 0) && (id in s.skipped <==> status < 0) && (id in s.failed <==> status > 0)
  }

  /** What the steps taken so far say about the state. */
  ghost predicate History(s: State, done: seq<Step>) {
    Begins(s, done) && OneOutcome(done) && Ends(s, done) && Agrees(s, done) && Covers(s, done)
  }

  ghost predicate Begins(s: State, done: seq<Step>) {
    forall id, o :: BeginStep(id, o) in done ==> DecidedAs(s, id, Ruled(s, id, o))
  }

  ghost predicate OneOutcome(done: seq<Step>) {
    forall id, o, o' :: BeginStep(id, o) in done && BeginStep(id, o') in done ==> o == o'
  }

  ghost predicate Ends(s: State, done: seq<Step>) {
    forall id, status :: CompleteStep(id, status) in done ==> EndedAs(s, id, status)
  }

  /** Results are such as the decisions allow. */
  ghost predicate Agrees(s: State, done: seq<Step>) {
    forall id, o, status :: BeginStep(id, o) in done && CompleteStep(id, status) in done ==> Allows(Ruled(s, id, o), status)
  }

  /** No decision and no end is missing from the steps. */
  ghost predicate Covers(s: State, done: seq<Step>) {
    && (forall id :: id in s.threads && (id in s.active ==> s.active[id] != Spawned) ==> HasBegun(done, id))
    && (forall id :: id in s.finished ==> HasEnded(done, id))
  }

  ghost predicate HasBegun(done: seq<Step>, id: Id) {
    exists o :: BeginStep(id, o) in done
  }

  ghost predicate HasEnded(done: seq<Step>, id: Id) {
    exists status :: CompleteStep(id, status) in done
  }

  lemma {:induction false} MoreBegun(done: seq<Step>, a: Step)
    ensures forall id :: HasBegun(done, id) ==> HasBegun(done + [a], id)
    ensures forall id :: HasEnded(done, id) ==> HasEnded(done + [a], id)
    ensures if a.BeginStep? then HasBegun(done + [a], a.id) else HasEnded(done + [a], a.id)
  {
    assert a in done + [a];
    forall id | HasBegun(done, id) ensures HasBegun(done + [a], id) {
      var o :| BeginStep(id, o) in done;
      assert BeginStep(id, o) in done + [a];
    }
    forall id | HasEnded(done, id) ensures HasEnded(done + [a], id) {
      var status :| CompleteStep(id, status) in done;
      assert CompleteStep(id, status) in done + [a];
    }
  }

  // A decision.

  lemma {:induction false} BeginDecides(s: State, id: Id, o: Outcome)
    requires Inv(s) && Enabled(s, BeginStep(id, o))
    ensures DecidedAs(Begin(s, id, o), id, Ruled(s, id, o))
  {
    SkippedByDependencyIff(s, TaskById(s.tasks, id));
    assert id in s.threads && id !in s.dead && !WasActive(s, id);
    hide Inv, SkippedByDependency;
  }

  /** A decision changes nothing for anybody else, and nobody's being bound. */
  lemma {:induction false} BeginSpares(s: State, id: Id, o: Outcome, c: Id)
    requires Enabled(s, BeginStep(id, o))
    ensures var s' := Begin(s, id, o);
      && s'.threads == s.threads && s'.finished == s.finished && s'.tasks == s.tasks
      && s'.succeeded == s.succeeded && s'.skipped == s.skipped && s'.failed == s.failed
      && (c != id ==> (c in s'.active <==> c in s.active) && (c in s.active ==> s'.active[c] == s.active[c]))
      && (c != id ==> (c in s'.dead <==> c in s.dead) && (WasActive(s', c) <==> WasActive(s, c)))
  {
    hide SkippedByDependency;
  }

  lemma {:induction false} AppendedStep(done: seq<Step>, a: Step)
    ensures forall b :: b in done + [a] <==> b in done || b == a
  {
  }

  lemma {:induction false} NotBegun(s: State, done: seq<Step>, id: Id)
    requires Begins(s, done) && Ends(s, done) && id in s.active && s.active[id] == Spawned && id !in s.finished
    ensures forall o :: BeginStep(id, o) !in done
    ensures forall status :: CompleteStep(id, status) !in done
  {
    assert forall o :: BeginStep(id, o) in done ==> DecidedAs(s, id, Ruled(s, id, o));
    assert forall status :: CompleteStep(id, status) in done ==> EndedAs(s, id, status);
    hide Ruled;
  }

  lemma {:induction false} BeginBegins(s: State, done: seq<Step>, id: Id, o: Outcome)
    requires Inv(s) && Enabled(s, BeginStep(id, o)) && Begins(s, done) && forall r :: BeginStep(id, r) !in done
    ensures Begins(Begin(s, id, o), done + [BeginStep(id, o)])
  {
    var a, s' := BeginStep(id, o), Begin(s, id, o);
    BeginDecides(s, id, o);
    BeginRules(s, id, o);
    AppendedStep(done, a);
    hide Inv, Begin, Ruled, Allows;
    forall c, r | BeginStep(c, r) in done + [a] ensures DecidedAs(s', c, Ruled(s', c, r)) {
      if BeginStep(c, r) in done {
        assert DecidedAs(s, c, Ruled(s, c, r));
        BeginSpares(s, id, o, c);
      }
    }
  }

  lemma {:induction false} BeginRules(s: State, id: Id, o: Outcome)
    requires Enabled(s, BeginStep(id, o))
    ensures forall c, r :: Ruled(Begin(s, id, o), c, r) == Ruled(s, c, r)
  {
    BeginSpares(s, id, o, id);
    var s' := Begin(s, id, o);
    hide Begin, Enabled;
    assert forall c :: Bound(s', c) <==> Bound(s, c);
    hide Bound;
  }

  lemma {:induction false} BeginEnds(s: State, done: seq<Step>, id: Id, o: Outcome)
    requires Enabled(s, BeginStep(id, o)) && Ends(s, done)
    ensures Ends(Begin(s, id, o), done + [BeginStep(id, o)])
  {
    AppendedStep(done, BeginStep(id, o));
    BeginSpares(s, id, o, id);
    hide Begin, Enabled;
  }

  lemma {:induction false} BeginAgrees(s: State, done: seq<Step>, id: Id, o: Outcome)
    requires Enabled(s, BeginStep(id, o)) && Agrees(s, done) && OneOutcome(done)
    requires forall r :: BeginStep(id, r) !in done
    requires forall status :: CompleteStep(id, status) !in done
    ensures Agrees(Begin(s, id, o), done + [BeginStep(id, o)]) && OneOutcome(done + [BeginStep(id, o)])
  {
    AppendedStep(done, BeginStep(id, o));
    BeginRules(s, id, o);
    hide Begin, Enabled, Ruled, Allows;
  }

  lemma {:induction false} BeginHistory(s: State, done: seq<Step>, id: Id, o: Outcome)
    requires Inv(s) && Enabled(s, BeginStep(id, o)) && History(s, done)
    ensures History(Begin(s, id, o), done + [BeginStep(id, o)])
  {
    assert id !in s.finished;
    hide Inv, Begin, Begins, Ends, Agrees, OneOutcome, Covers;
    NotBegun(s, done, id);
    BeginBegins(s, done, id, o);
    BeginEnds(s, done, id, o);
    BeginAgrees(s, done, id, o);
    BeginComplete(s, done, id, o);
  }

  lemma {:induction false} BeginComplete(s: State, done: seq<Step>, id: Id, o: Outcome)
    requires Covers(s, done) && Enabled(s, BeginStep(id, o))
    ensures Covers(Begin(s, id, o), done + [BeginStep(id, o)])
  {
    var s' := Begin(s, id, o);
    MoreBegun(done, BeginStep(id, o));
    hide HasBegun, HasEnded, Begin;
    BeginSpares(s, id, o, id);
    forall c | c in s'.threads && (c in s'.active ==> s'.active[c] != Spawned) ensures HasBegun(done + [BeginStep(id, o)], c) {
      BeginSpares(s, id, o, c);
    }
  }

  // A completion.

  /** Whoever is decided sees no further dependency finish, so nobody becomes bound by a completion. */
  lemma {:induction false} RecordBinds(s: State, id: Id, status: int, c: Id)
    requires Inv(s) && Enabled(s, CompleteStep(id, status)) && c in s.threads
    ensures Bound(Record(s, id, status), c) <==> Bound(s, c)
  {
    assert id !in s.finished;
    var i :| 0 <= i < |s.threads| && s.threads[i] == c;
    assert (c, id) in Edges(s.tasks) ==> id in s.finished;
    assert (c, id) in BindingEdges(s.tasks) ==> (c, id) in Edges(s.tasks);
    hide Inv;
  }

  lemma {:induction false} RecordEnds(s: State, id: Id, status: int)
    requires Conserved(s) && Enabled(s, CompleteStep(id, status))
    ensures EndedAs(Record(s, id, status), id, status)
    ensures forall c, st :: c != id && EndedAs(s, c, st) ==> EndedAs(Record(s, id, status), c, st)
  {
    FailedIsFinished(s, id);
    hide Conserved;
  }

  lemma {:induction false} RecordSpares(s: State, id: Id, status: int)
    requires Inv(s) && Enabled(s, CompleteStep(id, status))
    ensures var s' := Record(s, id, status);
      && id in s.threads && id !in s.finished && s.active[id] != Spawned
      && s'.threads == s.threads && s'.finished == s.finished + [id] && s'.active == s.active - {id} && s'.dead == s.dead
      && forall c :: WasActive(s', c) <==> WasActive(s, c)
  {
    hide Ordered, SkipsInherited, CompletedOnce;
  }

  lemma {:induction false} RecordRules(s: State, done: seq<Step>, id: Id, status: int)
    requires Inv(s) && Enabled(s, CompleteStep(id, status)) && Begins(s, done)
    ensures forall c, r :: BeginStep(c, r) in done ==> Ruled(Record(s, id, status), c, r) == Ruled(s, c, r)
  {
    forall c, r | BeginStep(c, r) in done ensures Ruled(Record(s, id, status), c, r) == Ruled(s, c, r) {
      assert DecidedAs(s, c, Ruled(s, c, r));
      RecordBinds(s, id, status, c);
    }
  }

  lemma {:induction false} RecordBegins(s: State, done: seq<Step>, id: Id, status: int)
    requires Inv(s) && Enabled(s, CompleteStep(id, status)) && Begins(s, done)
    ensures Begins(Record(s, id, status), done + [CompleteStep(id, status)])
  {
    AppendedStep(done, CompleteStep(id, status));
    RecordRules(s, done, id, status);
    RecordSpares(s, id, status);
    assert forall c, r :: BeginStep(c, r) in done ==> DecidedAs(s, c, Ruled(s, c, r));
    hide Inv, Record, Ruled, WasActive, Enabled, Allows;
  }

  lemma {:induction false} RecordAgrees(s: State, done: seq<Step>, id: Id, status: int)
    requires Inv(s) && Enabled(s, CompleteStep(id, status)) && Begins(s, done) && Ends(s, done) && Agrees(s, done)
    ensures Agrees(Record(s, id, status), done + [CompleteStep(id, status)])
  {
    AppendedStep(done, CompleteStep(id, status));
    RecordRules(s, done, id, status);
    assert id !in s.finished;
    assert forall o :: BeginStep(id, o) in done ==> DecidedAs(s, id, Ruled(s, id, o));
    hide Inv, Record, Ruled, WasActive;
  }

  lemma {:induction false} RecordsEnds(s: State, done: seq<Step>, id: Id, status: int)
    requires Inv(s) && Enabled(s, CompleteStep(id, status)) && Ends(s, done)
    ensures Ends(Record(s, id, status), done + [CompleteStep(id, status)])
  {
    AppendedStep(done, CompleteStep(id, status));
    RecordEnds(s, id, status);
    assert id !in s.finished;
    assert forall st :: CompleteStep(id, st) in done ==> EndedAs(s, id, st);
    hide Inv, Record, Enabled;
    forall c, st | CompleteStep(c, st) in done ensures c != id && EndedAs(s, c, st) {}
    hide EndedAs;
  }

  lemma {:induction false} RecordComplete(s: State, done: seq<Step>, id: Id, status: int)
    requires Inv(s) && Enabled(s, CompleteStep(id, status)) && Covers(s, done)
    ensures Covers(Record(s, id, status), done + [CompleteStep(id, status)])
  {
    MoreBegun(done, CompleteStep(id, status));
    RecordSpares(s, id, status);
    hide Inv, Record, Enabled, HasBegun, HasEnded, WasActive;
    assert HasBegun(done, id);
  }

  lemma {:induction false} RecordHistory(s: State, done: seq<Step>, id: Id, status: int)
    requires Inv(s) && Enabled(s, CompleteStep(id, status)) && History(s, done)
    ensures History(Record(s, id, status), done + [CompleteStep(id, status)])
  {
    hide Inv, Enabled, Record, Begins, Ends, Agrees, Covers;
    RecordBegins(s, done, id, status);
    RecordsEnds(s, done, id, status);
    RecordAgrees(s, done, id, status);
    RecordComplete(s, done, id, status);
    AppendedStep(done, CompleteStep(id, status));
  }

  /** Fetching and reporting a pipeline event change nothing that has been decided. */
  lemma {:induction false} LaterHistory(s: State, s': State, done: seq<Step>, ids: seq<Id>)
    requires History(s, done) && s'.tasks == s.tasks && s'.threads == s.threads + ids && forall id :: id in ids ==> id !in s.threads
    requires s'.dead == s.dead && s'.finished == s.finished
    requires s'.succeeded == s.succeeded && s'.skipped == s.skipped && s'.failed == s.failed
    requires forall c :: c in s'.active <==> c in s.active || c in ids
    requires forall c :: c in s'.active ==> s'.active[c] == if c in ids then Spawned else s.active[c]
    requires forall c :: WasActive(s', c) <==> WasActive(s, c)
    ensures History(s', done)
  {
    assert forall c, o :: Ruled(s', c, o) == Ruled(s, c, o);
    assert forall c, o :: BeginStep(c, o) in done ==> DecidedAs(s, c, Ruled(s, c, o));
    hide Bound, Ruled, HasBegun, HasEnded, WasActive, Allows;
  }

  lemma {:induction false} SpawnHistory(s: State, done: seq<Step>, ids: seq<Id>)
    requires History(s, done) && forall id :: id in ids ==> id !in s.threads
    ensures History(Spawn(Dequeue(s), ids), done)
  {
    hide History, Sift;
    LaterHistory(s, Spawn(Dequeue(s), ids), done, ids);
  }

  lemma {:induction false} PublishHistory(s: State, done: seq<Step>, e: Event)
    requires History(s, done) && e.OfPipeline?
    ensures History(Publish(s, e), done)
  {
    hide History;
    assert s.threads + [] == s.threads;
    LaterHistory(s, Publish(s, e), done, []);
  }

  lemma {:induction false} CompleteHistory(s: State, done: seq<Step>, id: Id, status: int)
    requires Inv(s) && Enabled(s, CompleteStep(id, status)) && History(s, done)
    ensures History(Complete(s, id, status), done + [CompleteStep(id, status)])
  {
    var s1 := Record(s, id, status);
    RecordHistory(s, done, id, status);
    RecordKeeps(s, id, status);
    hide Inv, History, Record, Enabled;
    if |s1.tasks| == |s1.finished| {
      PublishHistory(s1, done + [CompleteStep(id, status)], COMPLETED);
    } else if ReportsFailure(s, id, status) {
      PublishHistory(s1, done + [CompleteStep(id, status)], FAILED);
    } else {
      FetchHistory(s1, done + [CompleteStep(id, status)]);
    }
    hide Fetch;
  }

  lemma {:induction false} FetchHistory(s: State, done: seq<Step>)
    requires UniqueIds(s.tasks) && Conserved(s) && History(s, done)
    ensures History(Fetch(s), done)
  {
    FetchPicksReady(s);
    hide Conserved, History, Sift, IdsOf;
    SpawnHistory(s, done, IdsOf(Sift(s, s.queue, true)));
  }

  // Runs.

  lemma {:induction false} StepExplains(s: State, done: seq<Step>, a: Step)
    requires Inv(s) && Enabled(s, a) && History(s, done)
    ensures History(Apply(s, a), done + [a])
  {
    hide Inv, History;
    match a
    case BeginStep(id, o) => BeginHistory(s, done, id, o);
    case CompleteStep(id, status) => CompleteHistory(s, done, id, status);
  }

  lemma {:induction false} StepsExplain(s: State, done: seq<Step>, run: seq<Step>)
    requires Inv(s) && IsRun(s, run) && History(s, done)
    ensures History(After(s, run), done + run)
    decreases |run|
  {
    hide Inv, History;
    if run == [] {
      assert done + run == done;
    } else {
      var a := run[0];
      assert Enabled(s, a);
      hide Apply, Enabled;
      StepKeeps(s, a);
      StepExplains(s, done, a);
      StepsExplain(Apply(s, a), done + [a], run[1..]);
      assert done + [a] + run[1..] == done + run;
    }
  }

  lemma {:induction false} RunExplained(tasks: seq<Task>, run: seq<Step>)
    requires WellPosed(tasks) && IsRun(Launched(tasks), run)
    ensures History(After(Launched(tasks), run), run)
  {
    LaunchKeeps(tasks);
    LaunchHistory(tasks);
    hide Launched, Inv, History, IsRun, After;
    StepsExplain(Launched(tasks), [], run);
    assert [] + run == run;
  }

  lemma {:induction false} LaunchHistory(tasks: seq<Task>)
    ensures History(Launched(tasks), [])
  {
    hide Sift, IdsOf;
  }

  /** Over every run: a task whose thread has decided died exactly by an escaping
      exception, was active exactly when its conditions held and nothing bound it, and
      once finished is skipped, failed or succeeded for exactly these reasons. */
  lemma {:induction false} ResultsExplained(tasks: seq<Task>, run: seq<Step>, id: Id, o: Outcome)
    requires WellPosed(tasks) && IsRun(Launched(tasks), run) && BeginStep(id, o) in run
    ensures var s := After(Launched(tasks), run);
            var bound := exists p :: p in s.skipped && (id, p) in BindingEdges(tasks);
      && (id in s.dead <==> !bound && o == Escapes)
      && (WasActive(s, id) <==> !bound && o == ConditionsHold)
      && (id in s.finished ==>
            && (id in s.skipped <==> bound || o == ConditionsFail || (o == ConditionsHold && exists st :: st < 0 && CompleteStep(id, st) in run))
            && (id in s.failed <==> !bound && (o == ConditionError || (o == ConditionsHold && exists st :: st > 0 && CompleteStep(id, st) in run)))
            && (id in s.succeeded <==> !bound && o == ConditionsHold && CompleteStep(id, 0) in run))
  {
    RunExplained(tasks, run);
    RunKeeps(tasks, run);
    hide Launched, Inv, IsRun, After, WellPosed;
    StateExplained(After(Launched(tasks), run), run, id, o);
  }

  lemma {:induction false} StateExplained(s: State, run: seq<Step>, id: Id, o: Outcome)
    requires History(s, run) && BeginStep(id, o) in run
    ensures DecidedAs(s, id, Ruled(s, id, o))
    ensures id in s.finished ==>
      && (id in s.skipped <==> Bound(s, id) || o == ConditionsFail || (o == ConditionsHold && exists st :: st < 0 && CompleteStep(id, st) in run))
      && (id in s.failed <==> !Bound(s, id) && (o == ConditionError || (o == ConditionsHold && exists st :: st > 0 && CompleteStep(id, st) in run)))
      && (id in s.succeeded <==> !Bound(s, id) && o == ConditionsHold && CompleteStep(id, 0) in run)
  {
    if id in s.finished {
      assert HasEnded(run, id);
      var status :| CompleteStep(id, status) in run;
      assert EndedAs(s, id, status) && Allows(Ruled(s, id, o), status);
      assert forall st :: CompleteStep(id, st) in run ==> EndedAs(s, id, st);
      hide History, Bound;
    }
  }

  /** A finished task has decided, in one way, and completed. */
  lemma {:induction false} FinishedHasDecided(tasks: seq<Task>, run: seq<Step>, id: Id)
    requires WellPosed(tasks) && IsRun(Launched(tasks), run) && id in After(Launched(tasks), run).finished
    ensures exists o :: BeginStep(id, o) in run && forall o' :: BeginStep(id, o') in run ==> o' == o
    ensures exists status :: CompleteStep(id, status) in run
  {
    RunExplained(tasks, run);
    RunKeeps(tasks, run);
    var s := After(Launched(tasks), run);
    hide Launched, IsRun, After, WellPosed;
    assert id in s.threads && id !in s.active;
    assert HasBegun(run, id) && HasEnded(run, id);
    var o :| BeginStep(id, o) in run;
    assert forall o' :: BeginStep(id, o') in run ==> o' == o;
  }

  // What is published about tasks.

  ghost function Count(s: State, kind: Kind, id: Id): nat {
    multiset(s.published)[OfTask(kind, id)]
  }

  /** Each result is published once, as what it is, and nobody becomes active twice. */
  ghost predicate Told(s: State) {
    forall id ::
      && Count(s, TASK_COMPLETED, id) == (if id in s.succeeded then 1 else 0)
      && Count(s, TASK_SKIPPED, id) == (if id in s.skipped then 1 else 0)
      && Count(s, TASK_FAILED, id) == (if id in s.failed then 1 else 0)
      && Count(s, TASK_ACTIVE, id) <= 1
  }

  lemma {:induction false} BeginTells(s: State, id: Id, o: Outcome)
    requires Inv(s) && Enabled(s, BeginStep(id, o)) && Told(s)
    ensures Told(Begin(s, id, o))
  {
    assert !WasActive(s, id) && Count(s, TASK_ACTIVE, id) == 0;
    var s' := Begin(s, id, o);
    assert s'.published == s.published || s'.published == s.published + [OfTask(TASK_ACTIVE, id)];
    BeginSpares(s, id, o, id);
    hide Inv, Begin, Enabled;
  }

  lemma {:induction false} RecordTells(s: State, id: Id, status: int)
    requires Conserved(s) && id in s.active && Told(s)
    ensures Told(Record(s, id, status))
  {
    FailedIsFinished(s, id);
    assert id !in s.finished;
    hide Conserved;
  }

  lemma {:induction false} TellsMore(s: State, s': State, e: Event)
    requires Told(s) && s'.succeeded == s.succeeded && s'.skipped == s.skipped && s'.failed == s.failed
    requires e.OfPipeline? && (s'.published == s.published || s'.published == s.published + [e])
    ensures Told(s')
  {
    assert forall kind, id :: Count(s', kind, id) == Count(s, kind, id);
    hide Count;
  }

  lemma {:induction false} CompletionAdds(s: State, id: Id, status: int) returns (e: Event)
    ensures var s1, s' := Record(s, id, status), Complete(s, id, status);
      && s'.succeeded == s1.succeeded && s'.skipped == s1.skipped && s'.failed == s1.failed
      && e.OfPipeline? && (s'.published == s1.published || s'.published == s1.published + [e])
  {
    e := if |Record(s, id, status).tasks| == |Record(s, id, status).finished| then COMPLETED else FAILED;
    hide Record, Sift, IdsOf;
  }

  lemma {:induction false} CompleteTells(s: State, id: Id, status: int)
    requires Inv(s) && Enabled(s, CompleteStep(id, status)) && Told(s)
    ensures Told(Complete(s, id, status))
  {
    RecordTells(s, id, status);
    var e := CompletionAdds(s, id, status);
    hide Inv, Enabled, Record, Complete, Told;
    TellsMore(Record(s, id, status), Complete(s, id, status), e);
  }

  lemma {:induction false} StepsTell(s: State, run: seq<Step>)
    requires Inv(s) && IsRun(s, run) && Told(s)
    ensures Told(After(s, run))
    decreases |run|
  {
    hide Inv, Told;
    if run != [] {
      var a := run[0];
      StepKeeps(s, a);
      match a {
        case BeginStep(id, o) => BeginTells(s, id, o);
        case CompleteStep(id, status) => CompleteTells(s, id, status);
      }
      StepsTell(Apply(s, a), run[1..]);
    }
  }

  /** Over every run, each result is published once and as what it was recorded as. */
  lemma {:induction false} ResultsTold(tasks: seq<Task>, run: seq<Step>)
    requires WellPosed(tasks) && IsRun(Launched(tasks), run)
    ensures Told(After(Launched(tasks), run))
  {
    LaunchKeeps(tasks);
    LaunchTells(tasks);
    hide Inv, IsRun, After, WellPosed, Launched, Told;
    StepsTell(Launched(tasks), run);
  }

  lemma {:induction false} LaunchTells(tasks: seq<Task>)
    ensures Told(Launched(tasks))
  {
    var s := Launched(tasks);
    assert s.published == [ACTIVE] && s.succeeded == [] && s.skipped == [] && s.failed == [];
    hide Launched;
  }
}
