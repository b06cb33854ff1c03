// The state cell whose accesses run hooks, and the hook that starts threads.
module ReactiveState {
  import opened Relations

  class Thread {
    var started: bool

    constructor ()
      ensures !started
    {
      started := false;
    }
  }

  class ThreadList {
    var items: seq<Thread>

    constructor (items: seq<Thread>)
      ensures this.items == items
    {
      this.items := items;
    }
  }

  /** A context gets its logger in the course of staging. */
  datatype Value = ListRef(list: ThreadList) | Flag(on: bool) | NoContext | Context(logger: bool)

  datatype HookFn = OnChangeState | OnChangeReadyTask

  datatype Hook = Hook(fn: HookFn, attrs: seq<string>)

  /** The hooks the executor registers, in order. */
  const EXECUTOR_HOOKS: seq<Hook> := [Hook(OnChangeState, []), Hook(OnChangeReadyTask, ["ready_tasks"])]

  datatype Access = Got(value: Value) | AttributeError | HookRaised

  class ReactiveState {
    var hooks: seq<Hook>
    var initialState: map<string, Value>
    var state: map<string, Value>
    var locked: bool
    var calledExternally: bool
    /** The threads started so far, in order. */
    ghost var starts: seq<Thread>

    /** The executor's state: the two lists exist and are different objects. */
    ghost predicate Shape()
      reads this
    {
      && hooks == EXECUTOR_HOOKS
      && "ready_tasks" in state && state["ready_tasks"].ListRef?
      && "threads" in state && state["threads"].ListRef?
      && state["ready_tasks"].list != state["threads"].list
      && "terminating" in state && state["terminating"].Flag? && "terminated" in state && state["terminated"].Flag?
      && "ctx" in state && (state["ctx"].NoContext? || state["ctx"].Context?)
    }

    /** The hook on every access gets through: the run is not being terminated, or there is a logger to say so. */
    ghost predicate HookPasses()
      reads this
      requires Shape()
    {
      !state["terminating"].on || state["terminated"].on || (state["ctx"].Context? && state["ctx"].logger)
    }

    /** No access is in progress. */
    ghost predicate Valid()
      reads this
    {
      Shape() && !locked
    }

    ghost function ReadyTasks(): ThreadList
      reads this
      requires Shape()
    {
      state["ready_tasks"].list
    }

    ghost function Threads(): ThreadList
      reads this
      requires Shape()
    {
      state["threads"].list
    }

    // Hooks.

    /** `t.start()` raises when the thread has been started before. */
    method StartThread(t: Thread) returns (ok: bool)
      modifies t, this`starts
      ensures ok <==> !old(t.started)
      ensures t.started
      ensures starts == if ok then old(starts) + [t] else old(starts)
    {
      ok := !t.started;
      if ok {
        t.started := true;
        starts := starts + [t];
      }
    }

    /** The hook on `ready_tasks`: it starts the threads one by one and replaces the list by an empty one. */
    method OnChangeReadyTaskHook() returns (ok: bool, ghost n: nat)
      requires Shape()
      modifies this`state, this`starts, Threads(), set t | t in ReadyTasks().items
      ensures Shape() && Threads() == old(Threads())
      ensures ok <==> old(Startable(ReadyTasks().items))
      ensures ok ==> StartedAll(old(ReadyTasks().items), old(Threads().items), old(starts))
      ensures ok ==> fresh(ReadyTasks()) && ReadyTasks().items == [] && state == old(state)["ready_tasks" := state["ready_tasks"]]
      ensures !ok ==> state == old(state) && n < |old(ReadyTasks().items)|
      ensures !ok ==> StartedAll(old(ReadyTasks().items)[..n], old(Threads().items), old(starts))
      ensures !ok ==> (old(ReadyTasks().items[n].started) || old(ReadyTasks().items)[n] in old(ReadyTasks().items)[..n])
    {
      ok, n := StartEach(state["ready_tasks"].list, state["threads"].list);
      if ok {
        var empty := new ThreadList([]);
        state := state["ready_tasks" := ListRef(empty)];
      }
    }

    /** The loop of that hook. */
    method StartEach(ready: ThreadList, threads: ThreadList) returns (ok: bool, ghost n: nat)
      requires ready != threads
      modifies this`starts, threads, set t | t in ready.items
      ensures ok <==> old(Startable(ready.items))
      ensures n <= |ready.items| && (ok <==> n == |ready.items|)
      ensures threads.items == old(threads.items) + ready.items[..n] && starts == old(starts) + ready.items[..n]
      ensures forall t :: t in ready.items[..n] ==> t.started
      ensures !ok ==> (old(ready.items[n].started) || ready.items[n] in ready.items[..n])
    {
      ghost var rs := ready.items;
      n := 0;
      var i := 0;
      while i < |ready.items|
        invariant 0 <= i <= |rs| && ready.items == rs && n == i
        invariant threads.items == old(threads.items) + rs[..i] && starts == old(starts) + rs[..i]
        invariant forall k :: 0 <= k < i ==> rs[k].started && !old(rs[k].started) && rs[k] !in rs[..k]
        invariant forall k :: i <= k < |rs| ==> (rs[k].started <==> old(rs[k].started) || rs[k] in rs[..i])
      {
        assert rs[..i + 1] == rs[..i] + [rs[i]];
        var t := ready.items[i];
        assert t.started <==> old(t.started) || t in rs[..i];
        ok := StartThread(t);
        if !ok {
          return;
        }
        threads.items := threads.items + [t];
        i, n := i + 1, n + 1;
      }
      assert rs[..|rs|] == rs;
      return true, n;
    }

    /** The threads `ts` have been started once each, in order, and appended to the list. */
    ghost predicate StartedAll(ts: seq<Thread>, before: seq<Thread>, begun: seq<Thread>)
      reads this, if Shape() then {Threads()} else {}, set t | t in ts
      requires Shape()
    {
      Threads().items == before + ts && starts == begun + ts && forall t :: t in ts ==> t.started
    }

    /** The hook on every access: it logs a termination, which raises without a context or its logger. */
    method OnChangeStateHook() returns (ok: bool)
      requires Shape()
      ensures ok <==> HookPasses()
    {
      if !state["terminating"].on || state["terminated"].on {
        return true;
      }
      match state["ctx"]
      case NoContext => return false;
      case Context(logger) => return logger;
    }

    /** Runs the hooks for an attribute. A hook that raises leaves `_called_externally` False. */
    method RunHooks(name: string) returns (ok: bool, ghost n: nat)
      requires Shape()
      modifies this`state, this`starts, this`calledExternally, Threads(), set t | t in ReadyTasks().items
      ensures Shape() && Threads() == old(Threads()) && calledExternally == ok
      ensures ok <==> old(HookPasses()) && (name == "ready_tasks" ==> old(Startable(ReadyTasks().items)))
      ensures name != "ready_tasks" || !old(HookPasses()) ==>
        state == old(state) && starts == old(starts) && unchanged(Threads()) && forall t :: t in old(ReadyTasks().items) ==> unchanged(t)
      ensures name == "ready_tasks" && ok ==> StartedAll(old(ReadyTasks().items), old(Threads().items), old(starts))
      ensures name == "ready_tasks" && ok ==>
        fresh(ReadyTasks()) && ReadyTasks().items == [] && state == old(state)["ready_tasks" := state["ready_tasks"]]
      ensures !ok && old(HookPasses()) ==> state == old(state) && n < |old(ReadyTasks().items)|
      ensures !ok && old(HookPasses()) ==> StartedAll(old(ReadyTasks().items)[..n], old(Threads().items), old(starts))
      ensures !ok && old(HookPasses()) ==> (old(ReadyTasks().items[n].started) || old(ReadyTasks().items)[n] in old(ReadyTasks().items)[..n])
    {
      calledExternally, n := false, 0;
      // The two registered hooks, in order.
      assert |hooks| == 2;
      if name in hooks[0].attrs || hooks[0].attrs == [] {
        ok := OnChangeStateHook();
        if !ok {
          return;
        }
      }
      if name in hooks[1].attrs || hooks[1].attrs == [] {
        ok, n := OnChangeReadyTaskHook();
        if !ok {
          return;
        }
      }
      calledExternally := true;
      return true, n;
    }

    // Accesses from outside the hooks.

    method GetExternal(name: string) returns (r: Access)
      requires Valid()
      modifies this`state, this`starts, this`calledExternally, this`locked, Threads(), set t | t in ReadyTasks().items
      ensures Valid() && Threads() == old(Threads())
      ensures r == AttributeError <==> name !in old(state)
      ensures r.Got? <==> name in old(state) && old(HookPasses()) && (name == "ready_tasks" ==> old(Startable(ReadyTasks().items)))
      ensures r.Got? ==> r.value == old(state)[name]
      ensures calledExternally == if r == AttributeError then old(calledExternally) else r.Got?
      ensures name != "ready_tasks" || !old(HookPasses()) ==> state == old(state) && starts == old(starts) && unchanged(Threads())
      ensures name == "ready_tasks" && r.Got? ==> StartedAll(old(ReadyTasks().items), old(Threads().items), old(starts))
      ensures name == "ready_tasks" && r.Got? ==>
        fresh(ReadyTasks()) && ReadyTasks().items == [] && state == old(state)["ready_tasks" := state["ready_tasks"]]
    {
      locked := true;
      if name !in state {
        locked := false;
        return AttributeError;
      }
      var value := state[name];
      var ok, _ := RunHooks(name);
      locked := false;
      return if ok then Got(value) else HookRaised;
    }

    /** A list is stored under `ready_tasks`, and the hook starts what is in it. */
    method SetReadyTasks(list: ThreadList) returns (ok: bool, ghost n: nat)
      requires Valid() && list != Threads()
      modifies this`state, this`starts, this`calledExternally, this`locked, Threads(), set t | t in list.items
      ensures Valid() && Threads() == old(Threads()) && calledExternally == ok
      ensures ok <==> old(HookPasses()) && old(Startable(list.items))
      ensures ok ==> StartedAll(old(list.items), old(Threads().items), old(starts))
      ensures ok ==> ReadyTasks().items == [] && fresh(ReadyTasks()) && state == old(state)["ready_tasks" := state["ready_tasks"]]
      ensures !old(HookPasses()) ==> state == old(state)["ready_tasks" := ListRef(list)] && starts == old(starts) && unchanged(Threads())
      ensures !ok && old(HookPasses()) ==> n < |old(list.items)| && StartedAll(old(list.items)[..n], old(Threads().items), old(starts))
      ensures !ok && old(HookPasses()) ==> (old(list.items[n].started) || old(list.items)[n] in old(list.items)[..n])
    {
      locked := true;
      state := state["ready_tasks" := ListRef(list)];
      ok, n := RunHooks("ready_tasks");
      locked := false;
    }

    /** `terminate`: on a state that runs hooks it raises unless there is a logger, and
        then leaves the state without hooks; on one that does not it just sets the flag. */
    method Terminate() returns (ok: bool)
      requires Valid()
      modifies this`state, this`starts, this`calledExternally, this`locked, Threads(), set t | t in ReadyTasks().items
      ensures Valid() && state == old(state)["terminating" := Flag(true)] && starts == old(starts) && unchanged(Threads())
      ensures ok <==> !old(calledExternally) || old(state)["terminated"].on || old(state)["ctx"] == Context(true)
      ensures calledExternally <==> old(calledExternally) && ok
    {
      if !calledExternally {
        state := state["terminating" := Flag(true)];
        return true;
      }
      locked := true;
      state := state["terminating" := Flag(true)];
      var passed, _ := RunHooks("terminating");
      locked := false;
      return passed;
    }

    /** The get half of `ready_tasks +=`: it hands over the stored list, which the hook has just replaced. */
    method GetReadyTasks() returns (list: ThreadList)
      requires Valid() && HookPasses() && calledExternally && ReadyTasks().items == []
      modifies this`state, this`starts, this`calledExternally, this`locked, Threads()
      ensures Valid() && calledExternally && Threads() == old(Threads()) && Threads().items == old(Threads().items)
      ensures list == old(ReadyTasks()) && list.items == [] && starts == old(starts)
      ensures fresh(ReadyTasks()) && state == old(state)["ready_tasks" := state["ready_tasks"]]
    {
      var r := GetExternal("ready_tasks");
      list := r.value.list;
    }

    /** No list of the initial state is also a list of the current state. */
    ghost predicate Separate()
      reads this
    {
      forall k, j :: k in initialState && j in state && initialState[k].ListRef? && state[j].ListRef? ==>
        initialState[k].list != state[j].list
    }

    /** `ready_tasks += ts`: a get with hooks, an extension in place, and a set with hooks.
        The lists of the initial state are out of its reach. */
    method ExtendReadyTasks(ts: seq<Thread>) returns (ok: bool, ghost n: nat)
      requires Separate() && Valid() && HookPasses() && calledExternally && ReadyTasks().items == []
      modifies this`state, this`starts, this`calledExternally, this`locked, Threads(), ReadyTasks(), set t | t in ts
      ensures Valid() && Threads() == old(Threads()) && calledExternally == ok
      ensures ok <==> old(Startable(ts))
      ensures ok ==> StartedAll(ts, old(Threads().items), old(starts)) && ReadyTasks().items == []
      ensures ok ==> state == old(state)["ready_tasks" := state["ready_tasks"]] && fresh(ReadyTasks())
      ensures !ok ==> n < |ts| && StartedAll(ts[..n], old(Threads().items), old(starts)) && (old(ts[n].started) || ts[n] in ts[..n])
      ensures ok ==> Separate()
      ensures forall k :: k in initialState && initialState[k].ListRef? ==> initialState[k].list.items == old(initialState[k].list.items)
    {
      var list := GetReadyTasks();
      list.items := list.items + ts;
      assert list.items == ts;
      ok, n := SetReadyTasks(list);
    }

    /** Once a hook has raised, `_called_externally` stays False and accesses bypass
        lock and hooks: the threads are stored and none is started. */
    method ExtendUnhooked(ts: seq<Thread>)
      requires Shape() && !calledExternally
      modifies this`state, ReadyTasks()
      ensures Shape() && state == old(state) && !calledExternally
      ensures ReadyTasks().items == old(ReadyTasks().items) + ts && starts == old(starts)
    {
      var list := state["ready_tasks"].list;
      list.items := list.items + ts;
      state := state["ready_tasks" := ListRef(list)];
    }

    // Copying the initial state.

    /** `copy.deepcopy` of a state whose lists are not shared: new lists, same contents. */
    method DeepCopy(m: map<string, Value>) returns (c: map<string, Value>)
      ensures c.Keys == m.Keys && forall k :: k in m ==> IsCopy(m[k], c[k])
      ensures forall k :: k in c && c[k].ListRef? ==> fresh(c[k].list)
      ensures forall k, j :: k in c && j in c && k != j && c[k].ListRef? && c[j].ListRef? ==> c[k].list != c[j].list
    {
      c := map[];
      var keys := m.Keys;
      while keys != {}
        invariant keys <= m.Keys && c.Keys == m.Keys - keys
        invariant forall k :: k in c ==> IsCopy(m[k], c[k])
        invariant forall k :: k in c && c[k].ListRef? ==> fresh(c[k].list)
        invariant forall k, j :: k in c && j in c && k != j && c[k].ListRef? && c[j].ListRef? ==> c[k].list != c[j].list
        decreases keys
      {
        var k :| k in keys;
        keys := keys - {k};
        match m[k]
        case Flag(on) => c := c[k := Flag(on)];
        case NoContext => c := c[k := NoContext];
        case Context(logger) => c := c[k := Context(logger)];
        case ListRef(list) =>
          var copy := new ThreadList(list.items);
          c := c[k := ListRef(copy)];
      }
    }

    method SetInitialState(initial: map<string, Value>)
      modifies this`initialState, this`state
      ensures initialState == initial && Restored() && Separate()
      ensures forall k :: k in state && state[k].ListRef? ==> fresh(state[k].list)
    {
      initialState := initial;
      state := DeepCopy(initial);
    }

    /** Reset restores the initial contents in new lists, so a later run cannot reach the initial ones either. */
    method Reset()
      modifies this`state
      ensures Restored() && Separate()
      ensures forall k :: k in state && state[k].ListRef? ==> fresh(state[k].list)
    {
      state := DeepCopy(initialState);
    }

    /** A whole run, batch after batch, and the reset after it: every thread has been
        started once, in order, the server's list has received exactly those threads,
        and the state is back to contents that the run could not have changed. */
    method RunThenReset(batches: seq<seq<Thread>>) returns (served: ThreadList)
      requires Valid() && HookPasses() && Separate() && calledExternally && ReadyTasks().items == [] && Startable(Flat(batches))
      modifies this, Threads(), ReadyTasks(), set t | t in Flat(batches)
      ensures served == old(Threads()) && served.items == old(Threads().items) + Flat(batches)
      ensures starts == old(starts) + Flat(batches)
      ensures initialState == old(initialState) && Restored() && Separate()
      ensures forall k :: k in initialState && initialState[k].ListRef? ==> initialState[k].list.items == old(initialState[k].list.items)
    {
      served := state["threads"].list;
      FlatApart(batches);
      ghost var before, begun := served.items, starts;
      for i := 0 to |batches|
        invariant Valid() && HookPasses() && Separate() && calledExternally && ReadyTasks().items == []
        invariant Threads() == served && (ReadyTasks() == old(ReadyTasks()) || fresh(ReadyTasks()))
        invariant served.items == before + Flat(batches[..i]) && starts == begun + Flat(batches[..i])
        invariant initialState == old(initialState)
        invariant forall k :: k in initialState && initialState[k].ListRef? ==> initialState[k].list.items == old(initialState[k].list.items)
        invariant forall k, m :: i <= k < |batches| && 0 <= m < |batches[k]| ==> !batches[k][m].started
      {
        FlatSplit(batches, i);
        assert batches[..i + 1][..i] == batches[..i];
        var ok, _ := ExtendReadyTasks(batches[i]);
        assert ok && Flat(batches[..i + 1]) == Flat(batches[..i]) + batches[i];
      }
      assert batches[..|batches|] == batches;
      Reset();
    }

    ghost predicate Restored()
      reads this, set k | k in initialState && initialState[k].ListRef? :: initialState[k].list
      reads set k | k in state && state[k].ListRef? :: state[k].list
    {
      state.Keys == initialState.Keys && forall k :: k in state ==> IsCopy(initialState[k], state[k])
    }
  }

  ghost predicate IsCopy(v: Value, w: Value)
    reads if v.ListRef? then {v.list} else {}, if w.ListRef? then {w.list} else {}
  {
    match v
    case ListRef(list) => w.ListRef? && w.list.items == list.items
    case _ => w == v
  }

  function Flat(batches: seq<seq<Thread>>): seq<Thread> {
    if batches == [] then [] else Flat(batches[..|batches| - 1]) + batches[|batches| - 1]
  }

  /** In a duplicate-free concatenation, batch `i` is duplicate-free and new. */
  lemma {:induction false} FlatSplit(batches: seq<seq<Thread>>, i: nat)
    requires i < |batches| && Distinct(Flat(batches))
    ensures Distinct(batches[i]) && Distinct(Flat(batches[..i]))
    ensures forall t :: t in batches[i] ==> t in Flat(batches) && t !in Flat(batches[..i])
  {
    var n := |batches| - 1;
    var a, b := Flat(batches[..n]), batches[n];
    assert forall k :: 0 <= k < |a| ==> (a + b)[k] == a[k];
    assert forall k :: 0 <= k < |b| ==> (a + b)[|a| + k] == b[k];
    if i < n {
      FlatSplit(batches[..n], i);
      assert batches[..n][..i] == batches[..i];
    }
  }

  /** Different batches share no thread, and every thread of a batch is in the whole. */
  lemma {:induction false} FlatApart(batches: seq<seq<Thread>>)
    requires Distinct(Flat(batches))
    ensures forall i, k, m, l :: 0 <= i < k < |batches| && 0 <= m < |batches[i]| && 0 <= l < |batches[k]| ==>
      batches[i][m] != batches[k][l]
    ensures forall k, m :: 0 <= k < |batches| && 0 <= m < |batches[k]| ==> batches[k][m] in Flat(batches)
  {
    forall i, k, m, l | 0 <= i < k < |batches| && 0 <= m < |batches[i]| && 0 <= l < |batches[k]|
      ensures batches[i][m] != batches[k][l]
    {
      FlatSplit(batches, k);
      FlatSplit(batches[..k], i);
      assert batches[k][l] in batches[k] && batches[..k][i][m] in batches[..k][i];
    }
    forall k, m | 0 <= k < |batches| && 0 <= m < |batches[k]| ensures batches[k][m] in Flat(batches) {
      FlatSplit(batches, k);
      assert batches[k][m] in batches[k];
    }
  }

  ghost predicate Startable(ts: seq<Thread>)
    reads set t | t in ts
  {
    Distinct(ts) && forall t :: t in ts ==> !t.started
  }
}
