// A run composed with the exchange its executor publishes to.
module Notifications {
  import opened Tasks
  import opened DependencyGraph
  import opened Events
  import opened EventExchange
  import S = Scheduler
  import SchedulerInvariants
  import Runs
  import opened Relations

  predicate Terminal(k: Kind) {
    k == PIPELINE_COMPLETED || k == PIPELINE_FAILED || k == PIPELINE_TERMINATED
  }

  /** The configuration the executor gives its exchange: the three terminal kinds are both once-only and resetting. */
  const EXECUTOR_CONFIG := Config([PIPELINE_COMPLETED, PIPELINE_FAILED, PIPELINE_TERMINATED],
                                  [PIPELINE_COMPLETED, PIPELINE_FAILED, PIPELINE_TERMINATED])

  /** The executor publishes its events one at a time. */
  function PublishEach(x: Exchange, es: seq<Event>): Exchange
    decreases |es|
  {
    if es == [] then x else PublishEach(Published(EXECUTOR_CONFIG, x, [es[0]]), es[1..])
  }

  /** The events a subscriber registered under `key` is handed, in order. */
  function Received(ds: seq<Delivery>, key: Key): seq<Event> {
    if ds == [] then [] else Received(ds[..|ds| - 1], key) + if ds[|ds| - 1].key == key then [ds[|ds| - 1].event] else []
  }

  /** The events up to the first terminal one, that one included. */
  function UntilTerminal(es: seq<Event>): seq<Event> {
    if es == [] then [] else if Terminal(es[0].kind) then [es[0]] else [es[0]] + UntilTerminal(es[1..])
  }

  function OfKinds(es: seq<Event>, kinds: seq<Kind>): seq<Event> {
    if es == [] then [] else (if es[0].kind in kinds then [es[0]] else []) + OfKinds(es[1..], kinds)
  }

  /** An exchange whose subscribers have been added and have not been told of a terminal event. */
  ghost predicate Open(x: Exchange) {
    OnceOnly(EXECUTOR_CONFIG, x) && forall k, d :: (k, d) in x.handled ==> !Terminal(d)
  }

  lemma {:induction false} ReceivedAppend(a: seq<Delivery>, b: seq<Delivery>, key: Key)
    ensures Received(a + b, key) == Received(a, key) + Received(b, key)
  {
    if b == [] {
      assert a + b == a;
    } else {
      var n := |b| - 1;
      assert (a + b)[..|a + b| - 1] == a + b[..n];
      ReceivedAppend(a, b[..n], key);
    }
  }

  lemma {:induction false} OwedTo(subs: seq<Subscription>, e: Event, epoch: nat, s: Subscription)
    requires KeysDiffer(subs)
    ensures (forall t :: t in subs ==> t.key != s.key) ==> Received(Owed(subs, e, epoch), s.key) == []
    ensures s in subs ==> Received(Owed(subs, e, epoch), s.key) == if e.kind in s.events then [e] else []
  {
    if subs != [] {
      var first := if e.kind in subs[0].events then [Delivery(subs[0].key, e, epoch)] else [];
      ReceivedAppend(first, Owed(subs[1..], e, epoch), s.key);
      OwedTo(subs[1..], e, epoch, s);
      assert forall t :: t in subs[1..] ==> t in subs;
      if s in subs && s == subs[0] {
        forall t | t in subs[1..] ensures t.key != s.key {
          var j :| 0 <= j < |subs[1..]| && subs[1..][j] == t;
          assert subs[j + 1] == t;
        }
      } else if s in subs {
        var j :| 0 <= j < |subs| && subs[j] == s;
        assert subs[1..][j - 1] == s;
      }
    }
  }

  lemma {:induction false} UnheardEvent(x: Exchange, e: Event)
    requires x.subscribers == []
    ensures var y := Published(EXECUTOR_CONFIG, x, [e]); y.subscribers == [] && y.delivered == x.delivered
  {
    assert [e][1..] == [];
    assert PublishedFrom(EXECUTOR_CONFIG, x, [e], e) == PublishedFrom(EXECUTOR_CONFIG, x, [], e);
  }

  lemma {:induction false} NobodyLeft(x: Exchange, es: seq<Event>)
    requires x.subscribers == []
    ensures PublishEach(x, es).delivered == x.delivered
    decreases |es|
  {
    if es != [] {
      UnheardEvent(x, es[0]);
      NobodyLeft(Published(EXECUTOR_CONFIG, x, [es[0]]), es[1..]);
    }
  }

  lemma {:induction false} HeardEvent(x: Exchange, e: Event, s: Subscription)
    requires Open(x) && s in x.subscribers
    ensures var y := Published(EXECUTOR_CONFIG, x, [e]);
      && Received(y.delivered, s.key) == Received(x.delivered, s.key) + (if e.kind in s.events then [e] else [])
      && (if Terminal(e.kind) then y.subscribers == [] else Open(y) && y.subscribers == x.subscribers)
  {
    PublicationReachesAll(EXECUTOR_CONFIG, x, e);
    PublishKeepsOnce(EXECUTOR_CONFIG, x, [e], e);
    assert Published(EXECUTOR_CONFIG, x, [e]) == PublishedFrom(EXECUTOR_CONFIG, x, [e], e);
    hide Published, PublishedFrom, OnceOnly, Owed, Received;
    ReceivedAppend(x.delivered, Owed(x.subscribers, e, x.epoch), s.key);
    OpenKeys(x);
    OwedTo(x.subscribers, e, x.epoch, s);
  }

  lemma {:induction false} OpenKeys(x: Exchange)
    requires Open(x)
    ensures KeysDiffer(x.subscribers)
  {
  }

  /** Each subscriber receives exactly the published events it registered for, up to
      and including the first terminal one, and nothing after that. */
  lemma {:induction false} ReceivesUntilTerminal(x: Exchange, es: seq<Event>, s: Subscription)
    requires Open(x) && s in x.subscribers
    ensures Received(PublishEach(x, es).delivered, s.key)
         == Received(x.delivered, s.key) + OfKinds(UntilTerminal(es), s.events)
    decreases |es|
  {
    if es != [] {
      var e := es[0];
      HeardEvent(x, e, s);
      hide Published, Open, Received;
      var y := Published(EXECUTOR_CONFIG, x, [e]);
      if Terminal(e.kind) {
        NobodyLeft(y, es[1..]);
        assert [e][1..] == [];
      } else {
        ReceivesUntilTerminal(y, es[1..], s);
        var rest := UntilTerminal(es[1..]);
        assert ([e] + rest)[1..] == rest;
      }
    }
  }

  /** At most the last event is a terminal one. */
  ghost predicate EndsAtTerminal(es: seq<Event>) {
    forall i :: 0 <= i < |es| - 1 ==> !Terminal(es[i].kind)
  }

  lemma {:induction false} PrefixEndsAtTerminal(es: seq<Event>, kinds: seq<Kind>)
    ensures EndsAtTerminal(OfKinds(UntilTerminal(es), kinds))
  {
    if es != [] && !Terminal(es[0].kind) {
      PrefixEndsAtTerminal(es[1..], kinds);
      var rest := UntilTerminal(es[1..]);
      assert ([es[0]] + rest)[1..] == rest;
    }
  }

  lemma {:induction false} FirstTerminalArrives(es: seq<Event>, kinds: seq<Kind>, i: nat)
    requires i < |es| && Terminal(es[i].kind) && es[i].kind in kinds && forall j :: 0 <= j < i ==> !Terminal(es[j].kind)
    ensures var r := OfKinds(UntilTerminal(es), kinds); |r| > 0 && r[|r| - 1] == es[i]
  {
    if i > 0 {
      FirstTerminalArrives(es[1..], kinds, i - 1);
      var rest := UntilTerminal(es[1..]);
      assert ([es[0]] + rest)[1..] == rest;
    } else {
      assert [es[0]][1..] == [];
    }
  }

  /** What a subscriber added during staging hears of a run. */
  ghost function Heard(x: Exchange, s: S.State, sub: Subscription): seq<Event> {
    Received(PublishEach(x, s.published).delivered, sub.key)
  }

  /** Over any run, whatever fails and however often FAILED is published, a subscriber
      hears at most one terminal event and nothing after it. */
  lemma {:induction false} HearsOneTerminal(tasks: seq<Task>, run: seq<S.Step>, x: Exchange, sub: Subscription)
    requires SchedulerInvariants.WellPosed(tasks) && S.IsRun(S.Launched(tasks), run)
    requires Open(x) && sub in x.subscribers && x.delivered == []
    ensures var heard := Heard(x, S.After(S.Launched(tasks), run), sub);
      && heard == OfKinds(UntilTerminal(S.After(S.Launched(tasks), run).published), sub.events)
      && EndsAtTerminal(heard)
  {
    var es := S.After(S.Launched(tasks), run).published;
    ReceivesUntilTerminal(x, es, sub);
    PrefixEndsAtTerminal(es, sub.events);
  }

  /** After a rejected submission a subscriber hears FAILED once, and no ACTIVE that follows it. */
  lemma {:induction false} RejectionHeardOnce(tasks: seq<Task>, paramsValid: bool, x: Exchange, sub: Subscription)
    requires UniqueIds(tasks) && (Validate(tasks) != Accepted || !paramsValid)
    requires Open(x) && sub in x.subscribers && x.delivered == [] && PIPELINE_FAILED in sub.events
    ensures Heard(x, S.Launch(tasks, Validate(tasks), paramsValid), sub) == [FAILED]
  {
    Runs.RejectedStartsNothing(tasks, paramsValid, []);
    var es := S.Launch(tasks, Validate(tasks), paramsValid).published;
    hide Validate, S.Launch;
    assert es[0] == FAILED;
    ReceivesUntilTerminal(x, es, sub);
    assert [FAILED][1..] == [];
  }

  // Which terminal event it is.

  /** COMPLETED can only be the last event, and the only other terminal event is FAILED. */
  ghost predicate CompletedIsLast(es: seq<Event>) {
    && (forall i :: 0 <= i < |es| && es[i] == COMPLETED ==> i == |es| - 1)
    && (forall e :: e in es && Terminal(e.kind) ==> e == COMPLETED || e == FAILED)
  }

  /** Nothing runs after COMPLETED. */
  ghost predicate LastWord(s: S.State) {
    CompletedIsLast(s.published) && (COMPLETED in s.published ==> s.active == map[])
  }

  lemma {:induction false} StillCompletedIsLast(es: seq<Event>, more: seq<Event>)
    requires CompletedIsLast(es) && COMPLETED !in es && CompletedIsLast(more)
    ensures CompletedIsLast(es + more)
  {
    assert forall i :: 0 <= i < |es| ==> es[i] in es;
  }

  lemma {:induction false} BeginLastWord(s: S.State, id: Id, o: S.Outcome)
    requires LastWord(s) && S.Enabled(s, S.BeginStep(id, o))
    ensures LastWord(S.Begin(s, id, o))
  {
    StillCompletedIsLast(s.published, [OfTask(TASK_ACTIVE, id)]);
    hide S.SkippedByDependency, CompletedIsLast;
  }

  lemma {:induction false} CompleteLastWord(s: S.State, id: Id, status: int)
    requires SchedulerInvariants.Inv(s) && LastWord(s) && S.Enabled(s, S.CompleteStep(id, status))
    ensures LastWord(S.Complete(s, id, status))
  {
    SchedulerInvariants.RecordKeeps(s, id, status);
    var s1 := S.Record(s, id, status);
    if |s1.tasks| == |s1.finished| {
      SchedulerInvariants.EverythingFinished(s1);
    }
    RecordLastWord(s, id, status);
    StillCompletedIsLast(s1.published, [COMPLETED]);
    StillCompletedIsLast(s1.published, [FAILED]);
    hide CompletedIsLast, SchedulerInvariants.Inv, SchedulerInvariants.Conserved, SchedulerInvariants.Ordered,
      SchedulerInvariants.SkipsInherited, S.Record, S.Sift, S.IdsOf;
  }

  lemma {:induction false} RecordLastWord(s: S.State, id: Id, status: int)
    requires LastWord(s) && id in s.active
    ensures CompletedIsLast(S.Record(s, id, status).published) && COMPLETED !in S.Record(s, id, status).published
  {
    var e := OfTask(if status == 0 then TASK_COMPLETED else if status < 0 then TASK_SKIPPED else TASK_FAILED, id);
    StillCompletedIsLast(s.published, [e]);
  }

  lemma {:induction false} RunLastWord(s: S.State, run: seq<S.Step>)
    requires SchedulerInvariants.Inv(s) && LastWord(s) && S.IsRun(s, run)
    ensures LastWord(S.After(s, run))
    decreases |run|
  {
    if run != [] {
      if run[0].BeginStep? {
        BeginLastWord(s, run[0].id, run[0].outcome);
      } else {
        CompleteLastWord(s, run[0].id, run[0].status);
      }
      Runs.StepKeeps(s, run[0]);
      RunLastWord(S.Apply(s, run[0]), run[1..]);
    }
  }

  lemma {:induction false} FirstTerminal(es: seq<Event>, i: nat) returns (k: nat)
    requires i < |es| && Terminal(es[i].kind)
    ensures k <= i && Terminal(es[k].kind) && forall j :: 0 <= j < k ==> !Terminal(es[j].kind)
  {
    k := 0;
    while !Terminal(es[k].kind)
      invariant k <= i && forall j :: 0 <= j < k ==> !Terminal(es[j].kind)
      decreases i - k
    {
      k := k + 1;
    }
  }

  lemma {:induction false} OutcomeArrives(es: seq<Event>, kinds: seq<Kind>)
    requires CompletedIsLast(es) && (FAILED in es || COMPLETED in es)
    requires PIPELINE_COMPLETED in kinds && PIPELINE_FAILED in kinds
    ensures var r := OfKinds(UntilTerminal(es), kinds);
      |r| > 0 && r[|r| - 1] == if FAILED in es then FAILED else COMPLETED
  {
    var outcome := if FAILED in es then FAILED else COMPLETED;
    var i :| 0 <= i < |es| && es[i] == outcome;
    var k := FirstTerminal(es, i);
    assert es[k] in es;
    FirstTerminalArrives(es, kinds, k);
  }

  lemma {:induction false} LaunchLastWord(tasks: seq<Task>)
    ensures LastWord(S.Launched(tasks))
  {
    assert S.Launched(tasks).published == [ACTIVE];
    hide S.Launched;
  }

  /** An acyclic run without dead threads does not come to rest unreported. */
  lemma {:induction false} OutcomeReported(tasks: seq<Task>, run: seq<S.Step>)
    requires SchedulerInvariants.WellPosed(tasks) && S.IsRun(S.Launched(tasks), run) && !Cyclic(Edges(tasks))
    requires var s := S.After(S.Launched(tasks), run); S.Quiescent(s) && s.dead == {}
    ensures var es := S.After(S.Launched(tasks), run).published;
      CompletedIsLast(es) && (FAILED in es || COMPLETED in es)
  {
    LaunchLastWord(tasks);
    SchedulerInvariants.LaunchKeeps(tasks);
    hide CompletedIsLast, S.Launched, S.IsRun, S.After, SchedulerInvariants.Inv, Cyclic;
    RunLastWord(S.Launched(tasks), run);
    if FAILED !in S.After(S.Launched(tasks), run).published {
      Runs.CompletedIffAcyclic(tasks, run);
    }
  }

  /** When an acyclic run without dead threads comes to rest, a subscriber to both
      outcomes has heard exactly one, as the last thing it heard: FAILED if any
      failure was reported, COMPLETED otherwise. */
  lemma {:induction false} OutcomeHeard(tasks: seq<Task>, run: seq<S.Step>, x: Exchange, sub: Subscription)
    requires SchedulerInvariants.WellPosed(tasks) && S.IsRun(S.Launched(tasks), run) && !Cyclic(Edges(tasks))
    requires var s := S.After(S.Launched(tasks), run); S.Quiescent(s) && s.dead == {}
    requires Open(x) && sub in x.subscribers && x.delivered == []
    requires PIPELINE_COMPLETED in sub.events && PIPELINE_FAILED in sub.events
    ensures var s := S.After(S.Launched(tasks), run);
            var heard := Heard(x, s, sub);
      && |heard| > 0 && heard[|heard| - 1] == (if FAILED in s.published then FAILED else COMPLETED)
      && EndsAtTerminal(heard)
  {
    hide S.IsRun, S.After, S.Launched, Heard, Cyclic, Open, EndsAtTerminal, SchedulerInvariants.WellPosed, CompletedIsLast;
    HearsOneTerminal(tasks, run, x, sub);
    OutcomeReported(tasks, run);
    OutcomeArrives(S.After(S.Launched(tasks), run).published, sub.events);
  }
}
