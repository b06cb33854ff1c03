// The server's registry of active workers and its duplicate-submission policies.
module Server {
  import opened Relations
  import opened WorkerPool
  import opened Wrappers

  datatype Policy = ALLOW | DENY | TERMINATE | DEFER

  /** The active workers in order, and the fields of all workers. */
  datatype Registry<W> = Registry(active: seq<W>, key: map<W, Option<string>>, canStart: set<W>, staged: set<W>, blind: set<W>)

  predicate Holds<W(==)>(r: Registry<W>, w: W, k: string) {
    w in r.key && r.key[w] == Some(k)
  }

  /** The active workers of `ws` that hold `k`. */
  function HoldersIn<W(==)>(r: Registry<W>, ws: seq<W>, k: string): seq<W> {
    if ws == [] then [] else HoldersIn(r, ws[..|ws| - 1], k) + if Holds(r, ws[|ws| - 1], k) then [ws[|ws| - 1]] else []
  }

  function Except<W(==)>(ws: seq<W>, w: W): seq<W> {
    if ws == [] then [] else Except(ws[..|ws| - 1], w) + if ws[|ws| - 1] != w then [ws[|ws| - 1]] else []
  }

  /** `_deregister_worker`, which resets the worker's state: it has no context any more. */
  function Dropped<W(==)>(r: Registry<W>, w: W): Registry<W> {
    Registry(Except(r.active, w), r.key[w := None], r.canStart - {w}, r.staged - {w}, r.blind)
  }

  /** `terminate` gets through: the worker has something to log with, or runs no hook. */
  predicate Stoppable<W(==)>(r: Registry<W>, w: W) {
    w in r.staged || w in r.blind
  }

  /** The holders terminated and deregistered in turn; False means that a `terminate` raised. */
  function Evicted<W(==)>(r: Registry<W>, ws: seq<W>): (Registry<W>, bool) {
    if ws == [] then (r, true)
    else
      var w := ws[|ws| - 1];
      match Evicted(r, ws[..|ws| - 1])
      case (q, false) => (q, false)
      case (q, true) => if Stoppable(q, w) then (Dropped(q, w), true) else (q.(blind := q.blind + {w}), false)
  }

  /** `_register_worker`: the key is set first, then the policy decides. False means that it raised. */
  function Enrolled<W(==)>(r: Registry<W>, w: W, k: string, policy: Policy): (Registry<W>, bool) {
    var r1 := r.(key := r.key[w := Some(k)]);
    var holders := HoldersIn(r1, r1.active, k);
    if policy == DENY && |holders| > 0 then (r1, true)
    else
      var (r2, ok) := if policy == TERMINATE then Evicted(r1, holders) else (r1, true);
      if ok then (r2.(canStart := r2.canStart + {w}, active := r2.active + [w]), true) else (r2, false)
  }

  lemma {:induction false} EvictionStops<W>(r: Registry<W>, ws: seq<W>, n: nat)
    requires n <= |ws| && !Evicted(r, ws[..n]).1
    ensures Evicted(r, ws) == Evicted(r, ws[..n])
    decreases |ws|
  {
    if n < |ws| {
      assert ws[..|ws| - 1][..n] == ws[..n];
      EvictionStops(r, ws[..|ws| - 1], n);
    } else {
      assert ws[..n] == ws;
    }
  }

  class Server {
    var activeWorkers: seq<Worker>
    /** All workers there are. */
    ghost var known: set<Worker>

    ghost predicate Valid()
      reads this
    {
      && (forall w :: w in activeWorkers ==> w in known)
      && (forall v, w :: v in known && w in known && v.id == w.id ==> v == w)
    }

    ghost function Abs(): Registry<Worker>
      reads this, known
    {
      Registry(activeWorkers, map w | w in known :: w.key, set w | w in known && w.canStart,
               set w | w in known && w.staged, set w | w in known && w.blind)
    }

    method GetActiveWorkers(key: string) returns (ws: seq<Worker>)
      requires Valid()
      ensures ws == HoldersIn(Abs(), Abs().active, key)
    {
      ws := [];
      for i := 0 to |activeWorkers|
        invariant ws == HoldersIn(Abs(), activeWorkers[..i], key)
      {
        assert activeWorkers[..i + 1][..i] == activeWorkers[..i];
        assert activeWorkers[i] in activeWorkers;
        if activeWorkers[i].key == Some(key) {
          ws := ws + [activeWorkers[i]];
        }
      }
      assert activeWorkers[..|activeWorkers|] == activeWorkers;
    }

    method DeregisterWorker(worker: Worker)
      requires Valid() && worker in known
      modifies this`activeWorkers, worker`key, worker`canStart, worker`staged
      ensures Valid() && Abs() == Dropped(old(Abs()), worker)
    {
      worker.key := None;
      var rest := [];
      for i := 0 to |activeWorkers|
        invariant rest == Except(activeWorkers[..i], worker)
        invariant forall w :: w in rest ==> w in activeWorkers
      {
        assert activeWorkers[..i + 1][..i] == activeWorkers[..i];
        assert activeWorkers[i] in activeWorkers;
        if activeWorkers[i].id != worker.id {
          rest := rest + [activeWorkers[i]];
        }
      }
      assert activeWorkers[..|activeWorkers|] == activeWorkers;
      activeWorkers := rest;
      worker.canStart, worker.staged := false, false;
    }

    method TerminateWorker(worker: Worker) returns (ok: bool)
      requires Valid() && worker in known
      modifies worker`blind
      ensures Valid() && (ok <==> Stoppable(old(Abs()), worker))
      ensures Abs() == if ok then old(Abs()) else old(Abs()).(blind := old(Abs()).blind + {worker})
    {
      ok := worker.Terminate();
    }

    /** The loop that terminates and deregisters the holders of a key. */
    method EvictAll(holders: seq<Worker>) returns (ok: bool)
      requires Valid() && forall w :: w in holders ==> w in known
      modifies this`activeWorkers, known
      ensures Valid() && (Abs(), ok) == Evicted(old(Abs()), holders)
    {
      ghost var r := Abs();
      hide Abs, Valid, Dropped, Stoppable;
      for i := 0 to |holders|
        invariant Valid() && (Abs(), true) == Evicted(r, holders[..i])
      {
        assert holders[..i + 1][..i] == holders[..i] && holders[i] in holders;
        ok := TerminateWorker(holders[i]);
        if !ok {
          EvictionStops(r, holders, i + 1);
          return;
        }
        DeregisterWorker(holders[i]);
      }
      assert holders[..|holders|] == holders;
      return true;
    }

    method SetKey(worker: Worker, key: string)
      requires Valid() && worker in known
      modifies worker`key
      ensures Valid() && Abs() == old(Abs()).(key := old(Abs()).key[worker := Some(key)])
    {
      worker.key := Some(key);
    }

    method Activate(worker: Worker)
      requires Valid() && worker in known
      modifies this`activeWorkers, worker`canStart
      ensures Valid() && Abs() == old(Abs()).(canStart := old(Abs()).canStart + {worker}, active := old(Abs()).active + [worker])
    {
      worker.canStart := true;
      activeWorkers := activeWorkers + [worker];
    }

    method RegisterWorker(worker: Worker, key: string, policy: Policy) returns (ok: bool)
      requires Valid() && worker in known
      modifies this`activeWorkers, known
      ensures Valid() && (Abs(), ok) == Enrolled(old(Abs()), worker, key, policy)
    {
      SetKey(worker, key);
      var holders := GetActiveWorkers(key);
      HoldersAreKnown(holders, key);
      hide Abs, Valid;
      if policy == DENY && |holders| > 0 {
        return true;
      } else if policy == TERMINATE {
        ok := EvictAll(holders);
        if !ok {
          return;
        }
      }
      Activate(worker);
      return true;
    }

    lemma {:induction false} HoldersAreKnown(holders: seq<Worker>, key: string)
      requires Valid() && holders == HoldersIn(Abs(), Abs().active, key)
      ensures forall w :: w in holders ==> w in known
    {
      HoldersAreMembers(Abs(), Abs().active, key);
    }
  }

  lemma {:induction false} HoldersAreMembers<W>(r: Registry<W>, ws: seq<W>, k: string)
    ensures forall w :: w in HoldersIn(r, ws, k) <==> w in ws && Holds(r, w, k)
  {
    if ws != [] {
      var n := |ws| - 1;
      HoldersAreMembers(r, ws[..n], k);
      assert ws == ws[..n] + [ws[n]];
    }
  }

  /** Holders are listed in the order in which they became active. */
  lemma {:induction false} HoldersConcat<W>(r: Registry<W>, a: seq<W>, b: seq<W>, k: string)
    ensures HoldersIn(r, a + b, k) == HoldersIn(r, a, k) + HoldersIn(r, b, k)
  {
    if b == [] {
      assert a + b == a;
    } else {
      var n := |b| - 1;
      HoldersConcat(r, a, b[..n], k);
      assert (a + b)[..|a + b| - 1] == a + b[..n];
    }
  }

  lemma {:induction false} ExceptMembers<W>(ws: seq<W>, w: W)
    ensures forall v :: v in Except(ws, w) <==> v in ws && v != w
    ensures Distinct(ws) ==> Distinct(Except(ws, w))
  {
    if ws != [] {
      var n := |ws| - 1;
      ExceptMembers(ws[..n], w);
      assert ws == ws[..n] + [ws[n]];
      assert Distinct(ws) ==> Distinct(ws[..n]) && ws[n] !in ws[..n];
    }
  }
}
