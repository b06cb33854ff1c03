# A verified model of the workflow engine's core

The engine runs pipelines: directed graphs of tasks, executed by threads that start one another
as dependencies finish. This project models the engine's run-time core in Dafny and proves what
it keeps over every run: any interleaving of threads, any conditions, any task results, threads
that die by an escaping exception included. Around it stand the pieces it depends on: the graph
validator, the server with its worker pool and duplicate-submission policies, the reactive state
cell whose hook starts the threads, the once-only event exchange, the condition evaluator, the
idempotency key, the generator of ETL job chains and the directive printer and parser.

## How it is organised

Code that changes state in place is a class or a method with loops, tied by its `ensures` to a
specification on values; the theorems are about the specification.

| file | what it holds |
|---|---|
| `Relations`, `Tasks`, `Events`, `Text`, `Wrappers` | walks, cycles, tasks, events, split and joined strings |
| `GraphValidator` | the edge-marking search, its exact answer, and what the answer says about cycles |
| `DependencyGraph` | the inversion of `depends_on`, `can_fail`, and the validation verdict |
| `Scheduler` | one run as a transition system |
| `SchedulerInvariants`, `Runs`, `Results` | what every step keeps; theorems about whole runs; what becomes of each task and why |
| `WorkflowExecutor` | the executor's methods, each tied to a step of the transition system |
| `JoinLoop` | the server's loop over the list of threads that grows meanwhile |
| `EventExchange`, `Notifications` | the exchange under any use; a run composed with it |
| `WorkerPool`, `Server`, `Submissions` | pool, registry, and all submissions interleaved |
| `ReactiveState` | the state cell and its hooks, on mutable lists |
| `EtlPipeline`, `EtlValidation` | the generated job chain in any order, and what the validator makes of it |
| `Conditions`, `IdempotencyKey`, `Directives` | the smaller pieces |

## Where the code differs from what one might expect

- `has_cycle` is no cycle test. Of an initial task it follows the first child only, and from
  there every child. It answers True exactly when two different entries it follows lead to one
  task and share their parent or the task has children (`HasCycle`, `MeetIffHasJoin`). So it
  refuses acyclic graphs with joins and misses cycles (`JoinReportedAsCycle`, `CycleMissed`). The
  run is safe all the same: nothing on or downstream of a cycle ever starts, and COMPLETED proves
  the graph acyclic (`CycleNeverStarts`, `CompletedMeansAcyclic`); a workflow that gets past it
  can complete if and only if it is acyclic (`CanCompleteIffAcyclic`).
- The tasks of an ETL pipeline are stored under random keys and read back in no particular order
  (src/api/src/backend/models.py:441,
  src/api/src/backend/helpers/PipelineDispatchRequestBuilder.py:25). In every order the pipeline
  is acyclic. With two or more jobs it is nevertheless refused as cyclic exactly when the first
  job comes first of the tasks that wait for the manifests and some task waits for the reduce
  task, given that the manifests wait for nothing and that the template's own tasks, in that
  order, are accepted (`GeneratedAcyclic`, `RefusedIff`). `OrderDecides` shows one pipeline that
  is refused in one order and accepted in another.
- The completion count is tested before failure, so a run whose last task to finish fails
  reports COMPLETED (`LastFailureCompletes`). `FailureReportedIff` gives the exact condition for
  FAILED.
- After FAILED the other threads go on and may start children of the failed task
  (`ChildOfFailureStarts`): unless the last completion reported FAILED, the tasks started are
  exactly those whose dependencies have finished, failed ones among them
  (`StartedIffDependenciesFinished`). Subscribers do not hear of it, because the exchange was
  reset (`HearsOneTerminal`).
- When only its tasks are refused, a submission still publishes ACTIVE after FAILED; when its
  arguments are refused too, or only they, it does not (`RejectedStartsNothing`). Nobody hears
  that ACTIVE (`RejectionHeardOnce`).
- A submission with TERMINATE takes its key over exactly when every active holder has been staged
  or runs no hooks. Otherwise `terminate` raises, because its hook logs with a logger that is not
  there yet: the holder stays active, the newcomer's worker is lost to the pool
  (`TerminateTakesOver`, `TakeoverFails`), and the holder's state never runs a hook again, so that
  nothing it is given to run ever starts a thread (`BlindRunsNothing`).
- A hook that raises leaves `_called_externally` False, and every later access bypasses lock and
  hooks: threads appended afterwards are stored and never started (`ExtendUnhooked`).
- Directives without brackets mean together what they mean alone exactly when all their
  characters are allowed, or none means anything (`TogetherIffAllowed`): one other character
  loses all of them (`BadCharacterLosesAll`).

## Assumptions

- Task ids are unique within a pipeline (src/api/src/backend/models.py:411-416) and contain no
  ':' (src/engine/src/owe_python_sdk/schema.py:165).
- One completion, from the result callback through `ready_tasks +=`, is one atomic step. Two
  fetches racing inside it could take the same task, because `_remove_from_queue` does nothing
  on an empty queue.
- Each access to the reactive state from outside its hooks is atomic: `_called_externally` is one
  flag shared by all threads.
- `_register_worker` and `check_in` are atomic.
- A task executor is an arbitrary result; staging inputs either succeeds or raises.
- The hook of `terminate` raises only where it logs; what it publishes and stops afterwards raises
  nothing.
- The graph validator handed to a run is a new one, with no edges marked.

## Model

| member | source | states |
|---|---|---|
| GraphValidator.EdgeNameInjective | src/engine/src/core/workflows/GraphValidator.py:20-25 | the strings kept in `traversed_edges` tell edges apart, because ids contain no ':' |
| GraphValidator.Validator.Traverse | src/engine/src/core/workflows/GraphValidator.py:20-35 | the recursion ends on every finite graph, cyclic ones included; True means two different walks meet in an edge, False that everything below the edge was met exactly once |
| GraphValidator.Validator.HasCycle | src/engine/src/core/workflows/GraphValidator.py:6-18 | the answer is True if and only if two different walks, each starting with an initial task's first child, end in the same edge |
| GraphValidator.CycleReported | src/engine/src/core/workflows/GraphValidator.py:10-18 | a cycle through any vertex the search reaches is always reported |
| GraphValidator.MeetIffHasJoin | src/engine/src/core/workflows/GraphValidator.py:6-35 | for initial tasks as the engine finds them, True means precisely that two different followed entries lead to one task and share their parent or the task has children; followed are the first entry of an initial task and every entry of a task reachable from an initial task's first child |
| GraphValidator.MeetIffJoin | src/engine/src/core/workflows/GraphValidator.py:6-35 | the same in terms of the walks of the search |
| GraphValidator.ForestAccepted | src/engine/src/core/workflows/GraphValidator.py:6-35 | a graph in which no task is listed twice as a child is never reported |
| GraphValidator.JoinReportedAsCycle | src/engine/src/core/workflows/GraphValidator.py:22-23 | an acyclic graph with a join that is reported as cyclic |
| GraphValidator.CycleMissed | src/engine/src/core/workflows/GraphValidator.py:11-12 | a cyclic graph that is accepted, because only first children of initial tasks are followed |
| DependencyGraph.ChildMultiplicity | src/engine/src/core/workflows/WorkflowExecutor.py:508-513 | child c occurs under parent p exactly as often as c's entries name p |
| DependencyGraph.ChildrenConcat | src/engine/src/core/workflows/WorkflowExecutor.py:511-513 | children are listed in the order of the tasks |
| DependencyGraph.EntriesConserved | src/engine/src/core/workflows/WorkflowExecutor.py:510-513 | the children listed in the graph are together as many as the dependency entries |
| DependencyGraph.MayFailByChildren | src/engine/src/core/workflows/WorkflowExecutor.py:515-536 | a task may fail if and only if it has children and the first entry naming it in each child allows failure |
| DependencyGraph.FirstEntryIsFirst | src/engine/src/core/workflows/WorkflowExecutor.py:529 | of several entries naming a parent the first one counts |
| DependencyGraph.GraphWellFormed | src/engine/src/core/workflows/WorkflowExecutor.py:510-544 | the graph and the initial tasks meet what the validator relies on, and the graph's edges are exactly the reversed dependencies |
| DependencyGraph.InitialIdsAre | src/engine/src/core/workflows/WorkflowExecutor.py:469-477 | the initial tasks are exactly the tasks without dependencies, each listed once |
| DependencyGraph.VerdictMeans | src/engine/src/core/workflows/WorkflowExecutor.py:481-549 | the dependencies are invalid if and only if some entry names its own task or no task; initial tasks are missing if and only if, otherwise, every task has a dependency; a cycle is reported if and only if, otherwise, followed entries join |
| WorkflowExecutor.WorkflowExecutor.constructor | src/engine/src/core/workflows/WorkflowExecutor.py:105-120 | the initial state is empty |
| WorkflowExecutor.WorkflowExecutor.CountInvalidDependencies | src/engine/src/core/workflows/WorkflowExecutor.py:481-504 | the count is zero if and only if every entry names an existing task other than its own |
| WorkflowExecutor.WorkflowExecutor.BuildGraph | src/engine/src/core/workflows/WorkflowExecutor.py:508-513 | the two loops build the inverse graph, duplicates and order included |
| WorkflowExecutor.WorkflowExecutor.AddChildren | src/engine/src/core/workflows/WorkflowExecutor.py:512-513 | one task's entries extend the lists of the parents they name and no others |
| WorkflowExecutor.WorkflowExecutor.ResolveCanFail | src/engine/src/core/workflows/WorkflowExecutor.py:519-536 | the flags set are exactly those of the tasks that may fail |
| WorkflowExecutor.WorkflowExecutor.ParentMayFail | src/engine/src/core/workflows/WorkflowExecutor.py:521-536 | the combination of the children's flags, False without children |
| WorkflowExecutor.WorkflowExecutor.SetTasks | src/engine/src/core/workflows/WorkflowExecutor.py:479-552 | the verdict in every case, graph and flags unless the dependencies are invalid, and the queue filled only when nothing was raised |
| WorkflowExecutor.WorkflowExecutor.Start | src/engine/src/core/workflows/WorkflowExecutor.py:145-220 | the state a run starts from, for accepted and rejected tasks and arguments |
| WorkflowExecutor.WorkflowExecutor.TaskIsReady | src/engine/src/core/workflows/WorkflowExecutor.py:653-669 | ready if and only if every dependency is known and finished, or failed and allowed to fail; the exception exactly when an unknown one is met before an unsettled one |
| WorkflowExecutor.WorkflowExecutor.RemoveFromQueue | src/engine/src/core/workflows/WorkflowExecutor.py:675-677 | the first occurrence leaves the queue, nothing happens to an empty one |
| WorkflowExecutor.WorkflowExecutor.CollectReady | src/engine/src/core/workflows/WorkflowExecutor.py:637-641 | the ready tasks in queue order, judged before any is removed |
| WorkflowExecutor.WorkflowExecutor.FetchReadyTasks | src/engine/src/core/workflows/WorkflowExecutor.py:635-651 | the queue becomes the order-preserving filter of the tasks that are not ready, and one thread is made for each of the others, in order |
| WorkflowExecutor.WorkflowExecutor.StartThreads | src/engine/src/core/workflows/WorkflowExecutor.py:814-821 | each thread is started and appended, in order |
| WorkflowExecutor.WorkflowExecutor.Decide | src/engine/src/core/workflows/WorkflowExecutor.py:300-347 | skip, fail, die or execute, as the skipped dependencies and the conditions decide; TASK_ACTIVE only when executing |
| WorkflowExecutor.WorkflowExecutor.OnTaskCompleted | src/engine/src/core/workflows/WorkflowExecutor.py:431-442 | publishes, then records in finished and succeeded only |
| WorkflowExecutor.WorkflowExecutor.OnTaskSkipped | src/engine/src/core/workflows/WorkflowExecutor.py:444-454 | publishes, then records in finished and skipped only |
| WorkflowExecutor.WorkflowExecutor.OnTaskFailed | src/engine/src/core/workflows/WorkflowExecutor.py:456-466 | publishes, then records in finished and failed only |
| WorkflowExecutor.WorkflowExecutor.DeregisterExecutor | src/engine/src/core/workflows/WorkflowExecutor.py:687-698 | the executor is cleaned up and removed |
| WorkflowExecutor.WorkflowExecutor.RecordResult | src/engine/src/core/workflows/WorkflowExecutor.py:369-387 | the callback that the status selects, then the executor's clean-up and removal |
| WorkflowExecutor.WorkflowExecutor.OnTaskTerminalState | src/engine/src/core/workflows/WorkflowExecutor.py:367-399 | the executor lookup never misses, and record, clean-up, reports and fetch are those of the completion step |
| WorkflowExecutor.WorkflowExecutor.Finish | src/engine/src/core/workflows/WorkflowExecutor.py:361-365 | one completion with its new threads is the completion step and keeps every invariant |
| SchedulerInvariants.FetchPicksReady | src/engine/src/core/workflows/WorkflowExecutor.py:635-651 | a fetch takes distinct, unstarted, ready tasks and leaves only tasks that are not ready |
| SchedulerInvariants.FetchInOrder | src/engine/src/core/workflows/WorkflowExecutor.py:639-651 | of two ready tasks the one earlier in the queue is started first |
| SchedulerInvariants.LaunchKeeps | src/engine/src/core/workflows/WorkflowExecutor.py:166-176 | the invariants hold when the first threads have been started, and no queued task is ready |
| SchedulerInvariants.BeginKeeps | src/engine/src/core/workflows/WorkflowExecutor.py:300-359 | whatever a thread decides, or if it dies, every invariant is kept |
| SchedulerInvariants.CompleteKeeps | src/engine/src/core/workflows/WorkflowExecutor.py:367-399 | whatever the result, every invariant is kept; after a completion that did not report FAILED no queued task is ready |
| Runs.RunKeeps | src/engine/src/core/workflows/WorkflowExecutor.py:300-399 | the invariants hold in every reachable state, and the tasks and flags never change |
| Runs.TasksConserved | src/engine/src/core/workflows/WorkflowExecutor.py:431-466 | queue, running, dead and finished are disjoint and together the tasks; finished is the disjoint union of succeeded, failed and skipped; executors are held exactly for unfinished tasks and each is cleaned up once |
| Runs.StartsAfterDependencies | src/engine/src/core/workflows/WorkflowExecutor.py:635-669 | in every reachable state a started task's dependencies are finished and were started before it: the start order is topological |
| Runs.CycleNeverStarts | src/engine/src/core/workflows/WorkflowExecutor.py:635-669 | no task on or downstream of a cycle ever leaves the queue |
| Runs.CompletedMeansAcyclic | src/engine/src/core/workflows/WorkflowExecutor.py:389-392 | a COMPLETED run proves the graph acyclic, whatever the validator said |
| Runs.NoDeadlock | src/engine/src/core/workflows/WorkflowExecutor.py:653-669 | in an acyclic workflow with no ready task left in the queue, a non-empty queue implies a running or dead thread |
| Runs.QueueMakesProgress | src/engine/src/core/workflows/WorkflowExecutor.py:389-399 | after the launch and after every completion that did not report FAILED no queued task is ready, and a non-empty queue has a running task to wait for |
| Runs.RunsAreBounded | src/engine/src/core/workflows/WorkflowExecutor.py:300-365 | each task decides at most once and completes at most once, so a run has at most two steps for each task |
| Runs.CompletedIffAcyclic | src/engine/src/core/workflows/WorkflowExecutor.py:389-399 | a run at rest without FAILED and without dead threads has reported COMPLETED if and only if the graph is acyclic |
| Runs.RunCompletes | src/engine/src/core/workflows/WorkflowExecutor.py:367-399 | an acyclic run at rest without FAILED and without dead threads made exactly one completion for each task, finished everything and published COMPLETED once |
| Runs.CanCompleteIffAcyclic | src/engine/src/core/workflows/WorkflowExecutor.py:300-399 | a workflow has a run that reports COMPLETED if and only if it is acyclic |
| Runs.FailureReportedIff | src/engine/src/core/workflows/WorkflowExecutor.py:389-396 | FAILED has been published if and only if some task that may not fail failed without being the last of all to finish |
| Runs.SkipClosure | src/engine/src/core/workflows/WorkflowExecutor.py:300-337 | a finished task from which a skipped one is reached by dependencies with `can_skip` False is itself skipped, was never executed and published no TASK_ACTIVE |
| Runs.StartedIffDependenciesFinished | src/engine/src/core/workflows/WorkflowExecutor.py:389-399 | unless the last completion reported FAILED, a task has been started if and only if all its dependencies have finished, failed ones included |
| Runs.ChildOfFailureStarts | src/engine/src/core/workflows/WorkflowExecutor.py:394-399 | a run in which a task that may not fail fails, FAILED is published, and its child starts all the same |
| Runs.LastFailureCompletes | src/engine/src/core/workflows/WorkflowExecutor.py:390-396 | a run whose last task fails, with COMPLETED published and FAILED not |
| Runs.RejectedStartsNothing | src/engine/src/core/workflows/WorkflowExecutor.py:162-220 | a launch starts threads if and only if validation accepts the tasks and the arguments are valid; otherwise no task ever starts, and what is published is stated event by event |
| Results.ResultsExplained | src/engine/src/core/workflows/WorkflowExecutor.py:300-359 | over every run, a thread dies if and only if an exception escapes and nothing binds the task; a task is active if and only if its conditions hold and nothing binds it; a finished one is skipped if and only if it is bound, its conditions failed or its executor returned a negative status, failed if and only if, unbound, its conditions erred or its executor returned a positive one, and succeeded otherwise |
| Results.FinishedHasDecided | src/engine/src/core/workflows/WorkflowExecutor.py:300-365 | a finished task has decided, with one outcome, and completed |
| Results.ResultsTold | src/engine/src/core/workflows/WorkflowExecutor.py:431-466 | over every run, each result is published once and as what it was recorded as, and no task becomes active twice |
| JoinLoop.JoinLoopComplete | src/engine/src/core/Server.py:155-161 | when the loop over the growing list ends, no thread is running and none can appear |
| JoinLoop.JoinLoopProgresses | src/engine/src/core/Server.py:160-161 | before that the loop is never stuck: the thread it waits for has ended or can move |
| JoinLoop.SchedulesAreBounded | src/engine/src/core/Server.py:155-161 | threads and joins together make at most three moves for each task, so the loop ends |
| EventExchange.EventExchange.constructor | src/engine/src/owe_python_sdk/events/EventExchange.py:11-18 | no subscribers and no handled events |
| EventExchange.EventExchange.AddSubscriber | src/engine/src/owe_python_sdk/events/EventExchange.py:35-41 | a new subscriber goes last, a known one keeps its place |
| EventExchange.EventExchange.Publish | src/engine/src/owe_python_sdk/events/EventExchange.py:43-63 | the nested loops with their early return, and the reset that the last event decides |
| EventExchange.EventExchange.Reset | src/engine/src/owe_python_sdk/events/EventExchange.py:69-74 | subscribers and handled events are gone |
| EventExchange.DeliveredAtMostOnce | src/engine/src/owe_python_sdk/events/EventExchange.py:43-74 | under any configuration and use, between two resets a subscriber is handed each once-only kind of event at most once |
| EventExchange.PublicationReachesAll | src/engine/src/owe_python_sdk/events/EventExchange.py:43-59 | an event that is not once-only, or that nobody has handled, reaches everyone registered for it exactly once in registration order |
| EventExchange.PublicationStops | src/engine/src/owe_python_sdk/events/EventExchange.py:46-51 | the first subscriber that already had a once-only event ends the publication: those before it get the event, nobody gets a later one, nothing is reset |
| EventExchange.PublishesInTurn | src/engine/src/owe_python_sdk/events/EventExchange.py:43-63 | several events at once reach the subscribers event by event, and the last one alone decides the reset |
| EventExchange.HeardAfterReset | src/engine/src/owe_python_sdk/events/EventExchange.py:62-74 | after a resetting publication nothing counts as handled, and whoever subscribes then, under an old key too, is handed the next event it registered for |
| Notifications.ReceivesUntilTerminal | src/engine/src/core/workflows/WorkflowExecutor.py:92-99 | under the executor's configuration a subscriber receives exactly the published events it registered for, up to and including the first terminal one |
| Notifications.HearsOneTerminal | src/engine/src/core/workflows/WorkflowExecutor.py:389-429 | over any run a subscriber hears at most one terminal event and nothing after it, however often FAILED is published |
| Notifications.RejectionHeardOnce | src/engine/src/core/workflows/WorkflowExecutor.py:157-179 | of a rejected submission a subscriber to failures hears FAILED and nothing else |
| Notifications.OutcomeReported | src/engine/src/core/workflows/WorkflowExecutor.py:389-399 | an acyclic run at rest without dead threads has published an outcome, and nothing follows COMPLETED |
| Notifications.OutcomeHeard | src/engine/src/core/workflows/WorkflowExecutor.py:401-425 | the last thing heard is FAILED if any failure was reported and COMPLETED otherwise |
| WorkerPool.WorkerPool.constructor | src/engine/src/core/workers/WorkerPool.py:9-29 | the starting workers, numbered in order, all pooled and without key |
| WorkerPool.WorkerPool.CheckOut | src/engine/src/core/workers/WorkerPool.py:31-60 | the right end of the deque, else a new worker within the limit, else `NoAvailableWorkers` |
| WorkerPool.WorkerPool.CheckIn | src/engine/src/core/workers/WorkerPool.py:62-70 | back to the left end; above the limit removed again, and `WorkerLimitExceed` |
| WorkerPool.WorkerPool.RemoveCheckedOut | src/engine/src/core/workers/WorkerPool.py:63-64 | the first occurrence is removed, if there is one |
| WorkerPool.PutBackMeans | src/engine/src/core/workers/WorkerPool.py:62-70 | a check-in succeeds if and only if there is room once the worker is no longer counted as out, and takes one occurrence of it from the checked-out ones |
| WorkerPool.FirstInFirstOut | src/engine/src/core/workers/WorkerPool.py:31-70 | for any sequence of calls, whoever was handed out followed by whoever waits is the initial line followed by whoever joined it |
| WorkerPool.ReissuedInTurn | src/engine/src/core/workers/WorkerPool.py:38-66 | a worker checked in is handed out again after exactly the workers that were pooled then |
| WorkerPool.UseBounded | src/engine/src/core/workers/WorkerPool.py:44-70 | one use that respects the protocol keeps pool and checked-out disjoint, duplicate-free and within the limit |
| WorkerPool.PoolStaysBounded | src/engine/src/core/workers/WorkerPool.py:31-73 | so does any sequence; `WorkerLimitExceed` is never raised, and a check-out is refused if and only if all workers are out |
| Server.Server.GetActiveWorkers | src/engine/src/core/Server.py:299-300 | the active workers holding the key, in order |
| Server.HoldersConcat | src/engine/src/core/Server.py:300 | holders of a key are listed in the order in which they became active |
| Server.Server.DeregisterWorker | src/engine/src/core/Server.py:294-297 | key and can_start are taken away, and the worker leaves the active list and nobody else does |
| WorkerPool.Worker.Terminate | src/engine/src/core/workflows/WorkflowExecutor.py:705-709 | raises if and only if hooks run and there is no logger yet, and leaves the worker without hooks then |
| Server.Server.TerminateWorker | src/engine/src/core/Server.py:281 | the same on the registry: raises for a worker that is neither staged nor without hooks, and changes nothing else |
| Server.Server.EvictAll | src/engine/src/core/Server.py:280-282 | the holders are terminated and deregistered in turn up to the first whose termination raises |
| Server.Server.SetKey | src/engine/src/core/Server.py:265 | only this worker's key changes |
| Server.Server.Activate | src/engine/src/core/Server.py:289-290 | the worker can start and is active, last in the list |
| Server.Server.RegisterWorker | src/engine/src/core/Server.py:260-292 | the registry after registration under each policy, the key set first, and whether it raised midway |
| Submissions.EnrolOk | src/engine/src/core/Server.py:265-292 | what registration does to everybody: it raises if and only if the policy is TERMINATE and some active holder cannot be terminated, the worker becomes active if and only if it does not raise and DENY meets no holder, nobody else gains anything, and every other active worker that is not a holder met by TERMINATE keeps its place, its key and its permission to start |
| Submissions.EvictsInTurn | src/engine/src/core/Server.py:280-282 | holders before the first that cannot be terminated are deregistered, it and those after it stay active, and it alone loses its hooks |
| Submissions.OthersUndisturbed | src/engine/src/core/Server.py:260-300 | no step of another submission, short of a TERMINATE for its key, touches a started submission, its worker or its key |
| Submissions.StartedStaysUndisturbed | src/engine/src/core/Server.py:260-300 | over every run, a started submission stays active under its key until it is deregistered, raises, or a TERMINATE for that key arrives |
| Submissions.StartsThreadsIff | src/engine/src/core/Server.py:157-158 | a started submission has threads if and only if its worker is active and runs hooks, the tasks are accepted and the arguments valid, and then it is the launched run |
| Submissions.ProtocolHolds | src/engine/src/core/Server.py:136-192 | in every reachable state, registrations that raise midway included, active workers are distinct, keyed and checked out, pooled workers are not active, have no key and cannot start, and the workers out are as many as the submissions in progress and those that ended by exception |
| Submissions.PoolServes | src/engine/src/core/Server.py:136-192 | over all interleavings `WorkerLimitExceed` is never raised and a submission is refused if and only if all workers are out |
| Submissions.AtMostOneHolder | src/engine/src/core/Server.py:271-290 | a key submitted only with DENY or TERMINATE has at most one active holder |
| Submissions.TerminateTakesOver | src/engine/src/core/Server.py:279-290 | a TERMINATE submission becomes the sole active holder of its key, whoever it displaced being without key and unable to start, if and only if every active holder can be terminated; otherwise it ends by exception and its worker stays out |
| Submissions.StoppableOnceStarted | src/engine/src/core/workflows/WorkflowExecutor.py:825-836 | an active worker can be terminated once its submission has started, and while it is only registered if and only if it runs no hooks |
| Submissions.TakeoverFails | src/engine/src/core/Server.py:279-282 | two submissions for one key after which the first still holds it, without hooks, and the worker of the second is lost |
| Submissions.DeregisteredQuiescent | src/engine/src/core/Server.py:155-192 | when a worker whose run nobody terminated is deregistered, to be checked in, no thread of the run is running and none can appear |
| Submissions.BlindRunsNothing | src/engine/src/core/state/ReactiveState.py:24-35 | a worker whose termination has raised once never starts a thread again, whatever it is given to run |
| ReactiveState.ReactiveState.StartThread | src/engine/src/core/workflows/WorkflowExecutor.py:816-817 | starting a started thread raises |
| ReactiveState.ReactiveState.OnChangeReadyTaskHook | src/engine/src/core/workflows/WorkflowExecutor.py:814-821 | each ready thread is started once in order and appended and the list replaced by an empty one; on a thread already started, exactly those before it were |
| ReactiveState.ReactiveState.StartEach | src/engine/src/core/workflows/WorkflowExecutor.py:816-818 | the loop starts and appends the threads in order, up to the first that has been started already |
| ReactiveState.ReactiveState.OnChangeStateHook | src/engine/src/core/workflows/WorkflowExecutor.py:832-836 | raises if and only if a termination is to be logged and there is no context with a logger |
| ReactiveState.ReactiveState.RunHooks | src/engine/src/core/state/ReactiveState.py:81-86 | which hooks run for an attribute, during a termination too, exactly when one raises, and the flag it leaves False |
| ReactiveState.ReactiveState.Terminate | src/engine/src/core/workflows/WorkflowExecutor.py:705-709 | the flag is set; it raises if and only if hooks run and there is no logger, and then hooks never run again |
| ReactiveState.ReactiveState.GetExternal | src/engine/src/core/state/ReactiveState.py:53-70 | the value stored before the hooks ran, the error for an unknown attribute, and the lock released in every case |
| ReactiveState.ReactiveState.SetReadyTasks | src/engine/src/core/state/ReactiveState.py:37-48 | the list is stored, its threads started, and the lock released in every case |
| ReactiveState.ReactiveState.GetReadyTasks | src/engine/src/core/state/ReactiveState.py:53-70 | the get half of `ready_tasks +=` hands over the old empty list and starts nothing |
| ReactiveState.ReactiveState.ExtendReadyTasks | src/engine/src/core/workflows/WorkflowExecutor.py:365 | `ready_tasks += ts` starts each thread of ts once in order, appends exactly ts to the threads, leaves the stored list empty and the lock free, and cannot touch the initial lists |
| ReactiveState.ReactiveState.ExtendUnhooked | src/engine/src/core/state/ReactiveState.py:24-35 | after a hook has raised the threads are stored and none is started |
| ReactiveState.ReactiveState.DeepCopy | src/engine/src/core/state/ReactiveState.py:88-93 | equal contents in new lists, none shared |
| ReactiveState.ReactiveState.SetInitialState | src/engine/src/core/state/ReactiveState.py:91-93 | the state has the initial contents and shares no list with them |
| ReactiveState.ReactiveState.Reset | src/engine/src/core/state/ReactiveState.py:88-89 | the initial contents are restored in new lists |
| ReactiveState.ReactiveState.RunThenReset | src/engine/src/core/state/ReactiveState.py:37-93 | a whole run of batches starts every thread once in order, and the reset restores initial contents that the run cannot have changed |
| Conditions.ResolveAll | src/engine/src/core/expressions/ConditionalExpressionEvaluator.py:51-55 | all operands are resolved, or the first that cannot be ends it |
| Conditions.Evaluate | src/engine/src/core/expressions/ConditionalExpressionEvaluator.py:33-64 | the recursive evaluation has the value or error of the specification |
| Conditions.EvaluateEach | src/engine/src/core/expressions/ConditionalExpressionEvaluator.py:66-69 | every operand is evaluated before any is looked at, and the first error ends it |
| Conditions.EvaluateAll | src/engine/src/core/expressions/ConditionalExpressionEvaluator.py:26-31 | evaluating a list of conditions is evaluating their conjunction |
| Conditions.ComparisonMeans | src/engine/src/core/expressions/ConditionalExpressionEvaluator.py:51-56 | the six comparisons of the values the operands stand for: numbers by size, strings and byte strings by the first position that differs, equality for all, and a type error if and only if an ordering meets different types or None |
| Conditions.MembershipMeans | src/engine/src/core/expressions/ConditionalExpressionEvaluator.py:58-64 | a membership holds if and only if the needle's value is among the haystack's |
| Conditions.UnresolvedIsError | src/engine/src/core/expressions/ConditionalExpressionEvaluator.py:48-64 | a leaf is an evaluation error if and only if one of its operands stands for nothing |
| Conditions.NotMeans | src/engine/src/core/expressions/ConditionalExpressionEvaluator.py:43-44 | `not` negates a value and passes an error on |
| Conditions.FailsAsFirstLeaf | src/engine/src/core/expressions/ConditionalExpressionEvaluator.py:33-82 | evaluation is eager: it fails if and only if some leaf anywhere fails, with the leftmost failing leaf's error |
| Conditions.ConnectiveMeans | src/engine/src/core/expressions/ConditionalExpressionEvaluator.py:71-82 | what each connective means for operands that evaluate, xor being "mixed", and that it has a value only if they all do |
| Conditions.OrderIrrelevant | src/engine/src/core/expressions/ConditionalExpressionEvaluator.py:66-82 | permuting the operands changes neither the value nor whether there is one |
| Conditions.PushingPreserves | src/engine/src/core/expressions/ConditionalExpressionEvaluator.py:43-82 | pushing negations inward through all six connectives preserves value and error of every nested expression |
| Conditions.PushedToLeaves | src/engine/src/core/expressions/ConditionalExpressionEvaluator.py:43-47 | and leaves negations on leaves only |
| IdempotencyKey.ResolveKey | src/engine/src/core/Server.py:309-351 | the accumulating loop gives the '.'-join of the parts after the leading empty ones, the fallback for a missing part, ValueError for a malformed constraint |
| IdempotencyKey.KeyJoinsValues | src/engine/src/core/Server.py:323-347 | when every constraint has a value in the request, the key is those values joined by dots, the empty ones in front left out |
| IdempotencyKey.OtherKeys | src/engine/src/core/Server.py:315-351 | a fixed key is the key; no constraints, or an absent value before any malformed constraint, give the pipeline id; a malformed constraint before any absent value raises |
| IdempotencyKey.DispatchedKey | src/api/src/backend/helpers/PipelineDispatchRequestBuilder.py:93-97 | the dispatcher's constraints give the request's group id, tenant argument and pipeline id joined by dots |
| IdempotencyKey.KeysTellSubmissionsApart | src/engine/src/core/Server.py:309-347 | two dispatched requests share a key if and only if group, tenant and pipeline agree, dots in the tenant notwithstanding |
| IdempotencyKey.KeyIsNotAFallback | src/engine/src/core/Server.py:315-351 | the key of a dispatched request is nobody's pipeline-id fallback |
| EtlPipeline.ChainJobs | src/api/src/backend/views/ETLPipelines.py:215-257 | each job depends on the one before it, the first on the manifests |
| EtlPipeline.ExtendReduce | src/api/src/backend/views/ETLPipelines.py:270-273 | the reduce task gets one entry for each job that allows failure, after its own entries |
| EtlPipeline.GenerateTasks | src/api/src/backend/views/ETLPipelines.py:214-282 | the generated tasks, or failure if and only if there is no reduce task |
| EtlPipeline.DecimalMeans | src/api/src/backend/views/ETLPipelines.py:252 | the number in a job's id is its index in decimal notation |
| EtlPipeline.ReduceWaitsForJobs | src/api/src/backend/views/ETLPipelines.py:270-273 | the reduce task keeps its entries and after them waits for every job in order, whose failure it allows |
| EtlPipeline.GeneratedWellPosed | src/api/src/backend/views/ETLPipelines.py:241-282 | in whatever order the tasks arrive, ids are unique and every entry names another existing task |
| EtlPipeline.GeneratedAcyclic | src/api/src/backend/views/ETLPipelines.py:214-282 | for every number of jobs and every order the generated graph is acyclic |
| EtlPipeline.JobsRunInOrder | src/api/src/backend/views/ETLPipelines.py:246-256 | in every run, in whatever order the tasks arrive, a started job finds all earlier jobs started before it and finished |
| EtlPipeline.SkippedJobEndsChain | src/api/src/backend/views/ETLPipelines.py:220-239 | when a job is skipped every later job and the reduce task, once finished, are skipped and were never active, in every order of arrival |
| EtlPipeline.OnlyLastJobMayFail | src/api/src/backend/views/ETLPipelines.py:250-273 | of the jobs exactly the last resolves to `can_fail`, in every order of arrival |
| EtlValidation.RefusedIff | src/engine/src/core/workflows/WorkflowExecutor.py:540-545 | with two jobs or more, the pipeline is refused as cyclic if and only if the first job comes first of the tasks naming the manifests and a template task names the reduce task, and accepted otherwise; with one job it is accepted whenever that condition fails |
| EtlValidation.OrderDecides | src/engine/src/core/workflows/GraphValidator.py:11-12 | one pipeline refused in one order and accepted in another, acyclic in both |
| EtlValidation.SingleParentsAccepted | src/engine/src/core/workflows/WorkflowExecutor.py:479-552 | a workflow with an initial task in which no task has two dependency entries is accepted |
| Directives.DirectiveSetIsFirst | src/api/src/backend/utils/parse_directives.py:5-14 | what is found is the leftmost match of the pattern, and nothing is found only when nothing matches |
| Directives.MatchIsGreedy | src/api/src/backend/conf/constants.py:45 | a match is the whole run of allowed characters |
| Directives.AllowedCodes | src/api/src/backend/conf/constants.py:45 | the ASCII characters the pattern admits, by their codes |
| Text.SplitJoined | src/api/src/backend/utils/parse_directives.py:17 | splitting undoes joining for pieces without the delimiter |
| Text.JoinSplit | src/api/src/backend/utils/parse_directives.py:17 | joining undoes splitting, and no piece contains the delimiter |
| Directives.LastPieceWins | src/api/src/backend/utils/parse_directives.py:19-28 | a key is present if and only if some piece gives it, with the value of the last piece that does |
| Directives.EntryMeans | src/api/src/backend/utils/parse_directives.py:24-28 | a name that spells a supported key in any letter case gives that key, without value or with what stands between the first and the second ':' |
| Directives.UnknownMeansNothing | src/api/src/backend/utils/parse_directives.py:26 | a piece gives nothing when what comes before its first ':' spells no supported key |
| Directives.NeverEmpty | src/api/src/backend/utils/parse_directives.py:30-33 | the result is None if and only if there is no match or no piece gives anything, and never an empty map |
| Directives.ParseDirectives | src/api/src/backend/utils/parse_directives.py:5-33 | the loop fills the map the pieces describe, and an empty map becomes None |
| Directives.ParsePrinted | src/api/src/backend/helpers/PipelineDispatchRequestBuilder.py:109-118 | a printed list of directives parses to the directives parsed one by one, later ones winning; the list may be all empty and directives may contain the delimiter |
| Directives.BadCharacterLosesAll | src/api/src/backend/conf/constants.py:45 | one disallowed character, brackets apart, in one directive and the parser finds none of them |
| Directives.TogetherIffAllowed | src/api/src/backend/utils/parse_directives.py:5-33 | without brackets, directives printed together parse to the merge of the directives parsed alone if and only if all characters are allowed or the merge is empty |
| Directives.RoundTrip | src/api/src/backend/utils/parse_directives.py:5-33 | a nonempty map of supported keys survives printing and parsing in any order, with repetitions, the keys spelt in any mixture of letter cases |

## Left out

- Task executors (Kubernetes, Kaniko, Singularity, HTTP, Tapis jobs and actors): foreign calls; a result is an arbitrary status.
- File system work, loggers, input staging and template mapping: I/O; staging is "succeeds or raises".
- RabbitMQ connection, acknowledgements and retry delays: network plumbing.
- What the termination hook does after logging (it publishes, marks tasks and stops executors) and the `interruptable` decorator: they race with the run's threads. `terminate` is modelled up to its log line and the server's deregistration, so a terminated run is not followed to its end.
- The steps inside one completion or one state access: kept atomic, as assumed above.
- Message texts of errors, events and log lines: they do not influence the run.
- Handlers that raise in `publish`: the exchange logs and goes on, so a delivery is the call of the handler.
- Lists of subscribers: `add_subscribers` compares the type with `List`, which never holds, so one handler at a time is subscribed.
- Numbers in conditions: booleans, integers and floats compare as exact numbers, without NaN; operands that are lists or maps are not modelled.
- Idempotency parts that are not strings: `str()` of other values is the caller's.
- Conditions and inputs of the generated ETL jobs: the graph is modelled, not what the jobs read.
- EtlValidation.RefusedIff: for a single job that comes first with something after the reduce task, and for templates that are refused themselves, the verdict is only given by `GraphValidator.MeetIffHasJoin` on the whole graph.
- Directives.TogetherIffAllowed: a directive with a bracket can open or close the pattern early; only bracket-free lists are covered.
- ReactiveState.ReactiveState.RunThenReset: the map holds lists and flags; the engine's other values are not in it.
- Submissions.DeregisteredQuiescent: staging, from `start` to the first threads, is one step.
- `Worker` ids: a new worker's id is a parameter assumed different from all others, as a random UUID is.
- src/shared/GraphValidator.py: a stub that always answers False.
- Django models, views, migrations, authentication, schemas, `TemplateMapper`, repositories and the streams server: thin wrappers, or easy members only.
