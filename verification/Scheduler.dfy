// One run of a workflow as a transition system: the atomic steps its threads take.
module Scheduler {
  import opened Relations
  import opened Tasks
  import opened DependencyGraph
  import opened Events

  /** What the thread of a started task is doing: about to decide, running its
      executor, or holding a result that was decided without running it. */
  datatype Phase = Spawned | Executing | Resolved(status: int)

  /** `threads` is the start order, `active` the threads still running, `dead` the
      tasks whose thread ended by an escaping exception. `published` starts when
      the subscribers have been added; `cleaned` records executor clean-ups. */
  datatype State = State(
    tasks: seq<Task>, canFail: set<Id>, queue: seq<Task>,
    threads: seq<Id>, active: map<Id, Phase>, dead: set<Id>,
    finished: seq<Id>, succeeded: seq<Id>, failed: seq<Id>, skipped: seq<Id>,
    executors: set<Id>, cleaned: seq<Id>, published: seq<Event>)

  /** Before anything has happened. */
  const NO_RUN := State([], {}, [], [], map[], {}, [], [], [], [], {}, [], [])

  // Fetching.

  predicate Settled(s: State, d: Dependency) {
    (d.id in s.canFail && d.id in s.failed) || d.id in s.finished
  }

  predicate Ready(s: State, t: Task) {
    forall d :: d in t.dependsOn ==> Settled(s, d)
  }

  /** The tasks of `q` whose readiness is `ready`, in queue order. */
  function Sift(s: State, q: seq<Task>, ready: bool): seq<Task> {
    if q == [] then []
    else (if Ready(s, q[0]) == ready then [q[0]] else []) + Sift(s, q[1..], ready)
  }

  function IdsOf(ts: seq<Task>): (ids: seq<Id>)
    ensures |ids| == |ts|
    ensures forall i :: 0 <= i < |ts| ==> ids[i] == ts[i].id
  {
    if ts == [] then [] else [ts[0].id] + IdsOf(ts[1..])
  }

  function Dequeue(s: State): State {
    s.(queue := Sift(s, s.queue, false))
  }

  /** `ready_tasks +=`: the hook starts each thread and appends it to `threads`. */
  function Spawn(s: State, ids: seq<Id>): State {
    s.(threads := s.threads + ids, active := map id | id in s.active.Keys + (set i | i in ids) :: if id in ids then Spawned else s.active[id])
  }

  function Fetch(s: State): State {
    Spawn(Dequeue(s), IdsOf(Sift(s, s.queue, true)))
  }

  // Starting a task.

  /** What the conditions and the staging of inputs come to. `Escapes` stands for
      a comparison TypeError or a staging error: neither is caught. */
  datatype Outcome = ConditionsHold | ConditionsFail | ConditionError | Escapes

  predicate SkippedByDependency(s: State, t: Task) {
    exists d :: d in t.dependsOn && d.id in s.skipped && !d.canSkip
  }

  function Begin(s: State, id: Id, o: Outcome): State
    requires id in IdSet(s.tasks)
  {
    if SkippedByDependency(s, TaskById(s.tasks, id)) then s.(active := s.active[id := Resolved(-1)])
    else match o
      case ConditionsFail => s.(active := s.active[id := Resolved(-1)])
      case ConditionError => s.(active := s.active[id := Resolved(1)])
      case Escapes => s.(active := s.active - {id}, dead := s.dead + {id})
      case ConditionsHold => s.(active := s.active[id := Executing], published := s.published + [OfTask(TASK_ACTIVE, id)])
  }

  // Finishing a task.

  /** The terminal callback for a task result, the clean-up of its executor, and the end of its thread. */
  function Record(s: State, id: Id, status: int): State {
    var s1 := s.(active := s.active - {id}, finished := s.finished + [id],
                 executors := s.executors - {id}, cleaned := s.cleaned + [id]);
    if status == 0 then s1.(succeeded := s.succeeded + [id], published := s.published + [OfTask(TASK_COMPLETED, id)])
    else if status < 0 then s1.(skipped := s.skipped + [id], published := s.published + [OfTask(TASK_SKIPPED, id)])
    else s1.(failed := s.failed + [id], published := s.published + [OfTask(TASK_FAILED, id)])
  }

  function Publish(s: State, e: Event): State {
    s.(published := s.published + [e])
  }

  /** The completion reports the pipeline as failed: the completion count is tested first. */
  predicate ReportsFailure(s: State, id: Id, status: int) {
    |s.tasks| != |s.finished| + 1 && status > 0 && id !in s.canFail
  }

  function Complete(s: State, id: Id, status: int): State {
    var s1 := Record(s, id, status);
    if |s1.tasks| == |s1.finished| then Publish(s1, COMPLETED)
    else if ReportsFailure(s, id, status) then Publish(s1, FAILED)
    else Fetch(s1)
  }

  // Starting the run.

  /** The state after staging: the tasks are queued when they were accepted, and
      not even stored when their dependencies are invalid. */
  ghost function Staged(tasks: seq<Task>, verdict: Validation): State {
    var stored := verdict != InvalidDependencies;
    State(if stored then tasks else [], if stored then MayFailSet(tasks) else {}, if verdict == Accepted then tasks else [],
          [], map[], {}, [], [], [], [], IdSet(tasks), [], if verdict == Accepted then [] else [FAILED])
  }

  ghost function Launch(tasks: seq<Task>, verdict: Validation, paramsValid: bool): State {
    var s := Staged(tasks, verdict);
    if !paramsValid then Publish(s, FAILED)
    else Spawn(Publish(Dequeue(s), ACTIVE), IdsOf(Sift(s, s.queue, true)))
  }

  /** A launch on a state that runs no hooks: the ready tasks leave the queue, but no thread is started. */
  ghost function LaunchBlind(tasks: seq<Task>, verdict: Validation, paramsValid: bool): State {
    var s := Staged(tasks, verdict);
    if !paramsValid then Publish(s, FAILED) else Publish(Dequeue(s), ACTIVE)
  }

  /** A run whose tasks were queued and whose arguments were accepted. */
  ghost function Launched(tasks: seq<Task>): State {
    Launch(tasks, Accepted, true)
  }

  // Runs.

  datatype Step = BeginStep(id: Id, outcome: Outcome) | CompleteStep(id: Id, status: int)

  /** A thread can decide once, and can complete with any result its executor
      returns or with the one it already holds. */
  predicate Enabled(s: State, a: Step) {
    && a.id in s.active && a.id in IdSet(s.tasks)
    && match a
       case BeginStep(id, _) => s.active[id].Spawned?
       case CompleteStep(id, status) => s.active[id] == Executing || s.active[id] == Resolved(status)
  }

  function Apply(s: State, a: Step): State
    requires Enabled(s, a)
  {
    match a
    case BeginStep(id, o) => Begin(s, id, o)
    case CompleteStep(id, status) => Complete(s, id, status)
  }

  ghost predicate IsRun(s: State, run: seq<Step>)
    decreases |run|
  {
    run == [] || (Enabled(s, run[0]) && IsRun(Apply(s, run[0]), run[1..]))
  }

  ghost function After(s: State, run: seq<Step>): State
    requires IsRun(s, run)
    decreases |run|
  {
    if run == [] then s else After(Apply(s, run[0]), run[1..])
  }

  /** No thread is running. */
  predicate Quiescent(s: State) {
    s.active == map[]
  }
}
