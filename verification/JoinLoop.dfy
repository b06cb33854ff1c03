// The server's join loop, which walks a list of threads that grows while it is walked.
module JoinLoop {
  import opened Relations
  import opened Tasks
  import opened DependencyGraph
  import opened Events
  import opened Scheduler
  import opened SchedulerInvariants
  import opened Runs

  /** A thread of the run takes a step, or the server's `join` on the next listed thread returns. */
  datatype Move = Work(step: Step) | Join

  /** `joined` is how far the loop has come. A join returns only when its thread has ended. */
  datatype Progress = Progress(run: State, joined: nat)

  predicate CanMove(g: Progress, m: Move) {
    match m
    case Work(a) => Enabled(g.run, a)
    case Join => g.joined < |g.run.threads| && g.run.threads[g.joined] !in g.run.active
  }

  function Moved(g: Progress, m: Move): Progress
    requires CanMove(g, m)
  {
    match m
    case Work(a) => g.(run := Apply(g.run, a))
    case Join => g.(joined := g.joined + 1)
  }

  ghost predicate IsSchedule(g: Progress, ms: seq<Move>)
    decreases |ms|
  {
    ms == [] || (CanMove(g, ms[0]) && IsSchedule(Moved(g, ms[0]), ms[1..]))
  }

  ghost function Outcome(g: Progress, ms: seq<Move>): Progress
    requires IsSchedule(g, ms)
    decreases |ms|
  {
    if ms == [] then g else Outcome(Moved(g, ms[0]), ms[1..])
  }

  /** Every thread the loop has passed has ended. */
  ghost predicate PassedEnded(g: Progress) {
    && Inv(g.run) && g.joined <= |g.run.threads|
    && forall i :: 0 <= i < g.joined ==> g.run.threads[i] !in g.run.active
  }

  /** A thread that has ended in `s` has ended in `s'`, whose list continues that of `s`. */
  ghost predicate EndedStay(s: State, s': State) {
    && s.threads <= s'.threads
    && forall id :: id in s.threads && id !in s.active ==> id !in s'.active
  }

  lemma {:induction false} SpawnKeepsEnded(s: State, ids: seq<Id>)
    requires forall id :: id in ids ==> id !in s.threads
    ensures EndedStay(s, Spawn(s, ids))
  {
  }

  lemma {:induction false} FetchKeepsEnded(s: State)
    requires UniqueIds(s.tasks) && Conserved(s)
    ensures EndedStay(s, Fetch(s))
  {
    FetchPicksReady(s);
    hide Conserved, Sift, Ready, Unstarted;
    SpawnKeepsEnded(Dequeue(s), IdsOf(Sift(s, s.queue, true)));
  }

  lemma {:induction false} BeginKeepsEnded(s: State, id: Id, o: Scheduler.Outcome)
    requires Enabled(s, BeginStep(id, o))
    ensures EndedStay(s, Begin(s, id, o))
  {
    hide SkippedByDependency;
  }

  lemma {:induction false} CompleteKeepsEnded(s: State, id: Id, status: int)
    requires Inv(s) && Enabled(s, CompleteStep(id, status))
    ensures EndedStay(s, Complete(s, id, status))
  {
    RecordKeeps(s, id, status);
    var s1 := Record(s, id, status);
    FetchKeepsEnded(s1);
    assert EndedStay(s, s1);
    CompletesInto(s, id, status);
    hide Inv, Conserved, SkipsInherited, Ordered, Fetch, Record, Enabled, Complete;
  }

  lemma {:induction false} CompletesInto(s: State, id: Id, status: int)
    ensures var s1, s2 := Record(s, id, status), Complete(s, id, status);
      s2 == Fetch(s1) || (s2.threads == s1.threads && s2.active == s1.active)
  {
    hide Record, Fetch;
  }

  /** The list only grows at its end, and a thread that has ended does not come back. */
  lemma {:induction false} ListGrows(s: State, a: Step)
    requires Inv(s) && Enabled(s, a)
    ensures EndedStay(s, Apply(s, a))
  {
    hide Inv, EndedStay;
    if a.BeginStep? {
      BeginKeepsEnded(s, a.id, a.outcome);
    } else {
      CompleteKeepsEnded(s, a.id, a.status);
    }
  }

  lemma {:induction false} MoveKeeps(g: Progress, m: Move)
    requires PassedEnded(g) && CanMove(g, m)
    ensures PassedEnded(Moved(g, m))
  {
    if m.Work? {
      StepKeeps(g.run, m.step);
      ListGrows(g.run, m.step);
      hide Inv, Apply, Enabled;
      forall i | 0 <= i < g.joined ensures Moved(g, m).run.threads[i] !in Moved(g, m).run.active {
        assert g.run.threads[i] in g.run.threads;
      }
    }
  }

  lemma {:induction false} ScheduleKeeps(g: Progress, ms: seq<Move>)
    requires PassedEnded(g) && IsSchedule(g, ms)
    ensures PassedEnded(Outcome(g, ms)) && Outcome(g, ms).run.tasks == g.run.tasks
    decreases |ms|
  {
    if ms != [] {
      MoveKeeps(g, ms[0]);
      if ms[0].Work? {
        StepKeeps(g.run, ms[0].step);
      }
      ScheduleKeeps(Moved(g, ms[0]), ms[1..]);
    }
  }

  /** When the loop has come to the end of the list, nothing is running and nothing can be started. */
  lemma {:induction false} JoinLoopComplete(tasks: seq<Task>, ms: seq<Move>)
    requires WellPosed(tasks) && IsSchedule(Progress(Launched(tasks), 0), ms)
    requires var g := Outcome(Progress(Launched(tasks), 0), ms); g.joined == |g.run.threads|
    ensures var g := Outcome(Progress(Launched(tasks), 0), ms);
      Quiescent(g.run) && forall m :: !CanMove(g, m)
  {
    LaunchKeeps(tasks);
    ScheduleKeeps(Progress(Launched(tasks), 0), ms);
    var g := Outcome(Progress(Launched(tasks), 0), ms);
    AllPassedQuiescent(g);
  }

  lemma {:induction false} AllPassedQuiescent(g: Progress)
    requires PassedEnded(g) && g.joined == |g.run.threads|
    ensures Quiescent(g.run) && forall m :: !CanMove(g, m)
  {
    assert forall id :: id in g.run.threads ==> id !in g.run.active;
  }

  /** Until then the loop is never stuck: the thread it waits for can always move. */
  lemma {:induction false} JoinLoopProgresses(tasks: seq<Task>, ms: seq<Move>)
    requires WellPosed(tasks) && IsSchedule(Progress(Launched(tasks), 0), ms)
    requires var g := Outcome(Progress(Launched(tasks), 0), ms); g.joined < |g.run.threads|
    ensures exists m :: CanMove(Outcome(Progress(Launched(tasks), 0), ms), m)
  {
    LaunchKeeps(tasks);
    ScheduleKeeps(Progress(Launched(tasks), 0), ms);
    WaitedForMoves(Outcome(Progress(Launched(tasks), 0), ms));
  }

  lemma {:induction false} WaitedForMoves(g: Progress)
    requires PassedEnded(g) && g.joined < |g.run.threads|
    ensures exists m :: CanMove(g, m)
  {
    var id := g.run.threads[g.joined];
    assert id in g.run.threads;
    if id !in g.run.active {
      assert CanMove(g, Join);
    } else {
      var a := match g.run.active[id] {
        case Spawned => BeginStep(id, ConditionsHold)
        case Executing => CompleteStep(id, 0)
        case Resolved(status) => CompleteStep(id, status)
      };
      assert CanMove(g, Work(a));
    }
  }

  // A schedule contains a run, so it is as bounded as one.

  function Steps(ms: seq<Move>): seq<Step> {
    if ms == [] then [] else (if ms[0].Work? then [ms[0].step] else []) + Steps(ms[1..])
  }

  lemma {:induction false} ScheduleContainsRun(g: Progress, ms: seq<Move>)
    requires IsSchedule(g, ms)
    ensures IsRun(g.run, Steps(ms)) && After(g.run, Steps(ms)) == Outcome(g, ms).run
    ensures |ms| == |Steps(ms)| + (Outcome(g, ms).joined - g.joined)
    decreases |ms|
  {
    if ms != [] {
      ScheduleContainsRun(Moved(g, ms[0]), ms[1..]);
      var rest := Steps(ms[1..]);
      assert [] + rest == rest;
      if ms[0].Work? {
        assert ([ms[0].step] + rest)[1..] == rest;
      }
    }
  }

  /** The loop ends: the threads and the joins together make at most three moves for each task. */
  lemma {:induction false} SchedulesAreBounded(tasks: seq<Task>, ms: seq<Move>)
    requires WellPosed(tasks) && IsSchedule(Progress(Launched(tasks), 0), ms)
    ensures |ms| <= 3 * |tasks|
  {
    LaunchKeeps(tasks);
    ScheduleKeeps(Progress(Launched(tasks), 0), ms);
    ScheduleContainsRun(Progress(Launched(tasks), 0), ms);
    RunsAreBounded(tasks, Steps(ms));
    ThreadsAreFew(Outcome(Progress(Launched(tasks), 0), ms).run);
  }

  lemma {:induction false} ThreadsAreFew(s: State)
    requires Inv(s)
    ensures |s.threads| <= |s.tasks|
  {
    DistinctSize(s.threads, IdSet(s.tasks));
    IdSetSize(s.tasks);
  }

  // The loop for any submission, started or refused.

  /** The loop is on a run that was launched, or there is nothing to join. */
  ghost predicate Sound(g: Progress) {
    PassedEnded(g) || (g.run.threads == [] && g.run.active == map[] && g.joined == 0)
  }

  lemma {:induction false} SoundMoves(g: Progress, m: Move)
    requires Sound(g) && CanMove(g, m)
    ensures Sound(Moved(g, m))
  {
    if PassedEnded(g) {
      MoveKeeps(g, m);
    }
    hide PassedEnded, Apply;
  }

  lemma {:induction false} SoundEnds(g: Progress)
    requires Sound(g) && g.joined == |g.run.threads|
    ensures Quiescent(g.run) && forall m :: !CanMove(g, m)
  {
    if PassedEnded(g) {
      AllPassedQuiescent(g);
    }
    hide PassedEnded;
  }

  lemma {:induction false} NoRunSound()
    ensures Sound(Progress(NO_RUN, 0))
  {
  }

  lemma {:induction false} LaunchSound(tasks: seq<Task>, paramsValid: bool)
    requires UniqueIds(tasks)
    ensures Sound(Progress(Launch(tasks, Validate(tasks), paramsValid), 0))
    ensures Sound(Progress(LaunchBlind(tasks, Validate(tasks), paramsValid), 0))
  {
    if Validate(tasks) == Accepted && paramsValid {
      assert InitialIds(tasks) != [] ==> tasks != [];
      LaunchKeeps(tasks);
    }
    hide Inv, Validate;
  }
}
