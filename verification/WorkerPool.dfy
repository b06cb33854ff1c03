// The pool of workers: a bounded first-in first-out line.
module WorkerPool {
  import opened Relations
  import opened Wrappers

  /** `pool` is the deque, `out` the checked-out workers. */
  datatype Pool<W> = Pool(pool: seq<W>, out: seq<W>, max: nat)

  datatype CheckOutResult<W> = CheckedOut(worker: W) | NoAvailableWorkers

  function Removed<W(==)>(s: seq<W>, w: W): seq<W> {
    if s == [] then [] else if s[0] == w then s[1..] else [s[0]] + Removed(s[1..], w)
  }

  /** Check-out pops the right end, or creates `spare` while the limit allows it. */
  function TakeOut<W>(p: Pool<W>, spare: W): (Pool<W>, CheckOutResult<W>) {
    if |p.pool| > 0 then
      var w := p.pool[|p.pool| - 1];
      (p.(pool := p.pool[..|p.pool| - 1], out := p.out + [w]), CheckedOut(w))
    else if |p.out| + |p.pool| < p.max then (p.(out := p.out + [spare]), CheckedOut(spare))
    else (p, NoAvailableWorkers)
  }

  /** Check-in pushes on the left end; False means that `WorkerLimitExceed` was raised. */
  function PutBack<W(==)>(p: Pool<W>, w: W): (Pool<W>, bool) {
    var out := Removed(p.out, w);
    if |out| + |p.pool| + 1 > p.max then (p.(out := out), false)
    else (p.(pool := [w] + p.pool, out := out), true)
  }

  lemma {:induction false} RemovedAt<W>(s: seq<W>, w: W, i: nat)
    requires i < |s| && s[i] == w && w !in s[..i]
    ensures Removed(s, w) == s[..i] + s[i + 1..]
  {
    if i > 0 {
      assert s[0] in s[..i];
      assert forall u :: u in s[1..][..i - 1] ==> u in s[..i];
      RemovedAt(s[1..], w, i - 1);
    }
  }

  lemma {:induction false} RemovedAbsent<W>(s: seq<W>, w: W)
    requires w !in s
    ensures Removed(s, w) == s
  {
    if s != [] {
      RemovedAbsent(s[1..], w);
    }
  }

  lemma {:induction false} RemovedPresent<W>(s: seq<W>, w: W)
    requires w in s
    ensures |Removed(s, w)| == |s| - 1
    ensures forall u :: u in Removed(s, w) ==> u in s
    ensures forall u :: u in s && u != w ==> u in Removed(s, w)
    ensures Distinct(s) ==> Distinct(Removed(s, w)) && w !in Removed(s, w)
  {
    if s[0] != w {
      RemovedPresent(s[1..], w);
      assert s == [s[0]] + s[1..];
      assert Distinct(s) ==> Distinct(s[1..]) && s[0] !in s[1..];
    } else {
      assert s == [s[0]] + s[1..];
    }
  }

  /** The part of a worker that the pool and the server touch. `staged` says that its
      run has a context with a logger, `blind` that its state runs no hooks any more. */
  class Worker {
    const id: nat
    var key: Option<string>
    var canStart: bool
    var staged: bool
    var blind: bool

    constructor (id: nat)
      ensures this.id == id && key == None && !canStart && !staged && !blind
    {
      this.id, key, canStart, staged, blind := id, None, false, false, false;
    }

    /** Sets `terminating` on the state. Its hook logs first, and raises when there is
        no logger yet; a hook that has raised once is never run again. */
    method Terminate() returns (ok: bool)
      modifies this`blind
      ensures ok <==> staged || old(blind)
      ensures blind <==> old(blind) || !staged
    {
      if blind || staged {
        return true;
      }
      blind := true;
      return false;
    }
  }

  /** A worker as it is created. */
  predicate Fresh(w: Worker)
    reads w
  {
    w.key == None && !w.canStart && !w.staged && !w.blind
  }

  class WorkerPool {
    var pool: seq<Worker>
    var checkedOut: seq<Worker>
    const maxWorkers: nat

    ghost function Abs(): Pool<Worker>
      reads this
    {
      Pool(pool, checkedOut, maxWorkers)
    }

    constructor (startingWorkerCount: nat, maxWorkers: nat)
      ensures checkedOut == [] && this.maxWorkers == maxWorkers && |pool| == startingWorkerCount
      ensures forall i :: 0 <= i < |pool| ==> fresh(pool[i]) && pool[i].id == i && Fresh(pool[i])
      ensures Distinct(pool)
    {
      this.maxWorkers, pool, checkedOut := maxWorkers, [], [];
      new;
      for i := 0 to startingWorkerCount
        invariant |pool| == i && checkedOut == []
        invariant forall k :: 0 <= k < i ==> fresh(pool[k]) && pool[k].id == k && Fresh(pool[k])
      {
        var w := new Worker(i);
        pool := pool + [w];
      }
    }

    method CheckOut(uuid: nat) returns (r: CheckOutResult<Worker>)
      modifies this
      ensures r.CheckedOut? ==> (Abs(), r) == TakeOut(old(Abs()), r.worker)
      ensures r.CheckedOut? && old(pool) == [] ==>
        fresh(r.worker) && r.worker.id == uuid && Fresh(r.worker)
      ensures r.NoAvailableWorkers? <==> old(pool) == [] && |old(checkedOut)| >= maxWorkers
      ensures r.NoAvailableWorkers? ==> Abs() == old(Abs())
    {
      if |pool| > 0 {
        var worker := pool[|pool| - 1];
        pool := pool[..|pool| - 1];
        checkedOut := checkedOut + [worker];
        return CheckedOut(worker);
      }
      var totalWorkers := |checkedOut| + |pool|;
      if totalWorkers < maxWorkers {
        var worker := new Worker(uuid);
        checkedOut := checkedOut + [worker];
        return CheckedOut(worker);
      }
      return NoAvailableWorkers;
    }

    method CheckIn(worker: Worker) returns (ok: bool)
      modifies this
      ensures (Abs(), ok) == PutBack(old(Abs()), worker)
    {
      RemoveCheckedOut(worker);
      pool := [worker] + pool;
      if Count() > maxWorkers {
        pool := pool[1..];
        return false;
      }
      return true;
    }

    /** `list.remove` of the first occurrence, if there is one. */
    method RemoveCheckedOut(worker: Worker)
      modifies this`checkedOut
      ensures checkedOut == Removed(old(checkedOut), worker)
    {
      var i := 0;
      while i < |checkedOut| && checkedOut[i] != worker
        invariant 0 <= i <= |checkedOut| && worker !in checkedOut[..i]
      {
        assert checkedOut[..i + 1] == checkedOut[..i] + [checkedOut[i]];
        i := i + 1;
      }
      if i < |checkedOut| {
        RemovedAt(checkedOut, worker, i);
        checkedOut := checkedOut[..i] + checkedOut[i + 1..];
      } else {
        assert checkedOut[..i] == checkedOut;
        RemovedAbsent(checkedOut, worker);
      }
    }

    function Count(): nat
      reads this
    {
      |checkedOut| + |pool|
    }
  }

  /** A check-in succeeds when there is room once the worker is no longer counted as out. */
  lemma {:induction false} PutBackMeans<W>(p: Pool<W>, w: W)
    ensures var room := |p.pool| + |p.out| + (if w in p.out then 0 else 1) <= p.max;
      var (q, ok) := PutBack(p, w);
      && (ok <==> room) && q.pool == (if room then [w] + p.pool else p.pool)
      && multiset(q.out) == multiset(p.out) - multiset{w}
  {
    if w in p.out {
      RemovedOnce(p.out, w);
    } else {
      RemovedAbsent(p.out, w);
    }
  }

  lemma {:induction false} RemovedOnce<W>(s: seq<W>, w: W)
    requires w in s
    ensures multiset(Removed(s, w)) == multiset(s) - multiset{w} && |Removed(s, w)| == |s| - 1
  {
    assert s == [s[0]] + s[1..];
    if s[0] != w {
      RemovedOnce(s[1..], w);
    }
  }

  // Any sequence of check-outs and check-ins.

  datatype Use<W> = Out(spare: W) | In(w: W)

  function After<W(==)>(p: Pool<W>, u: Use<W>): Pool<W> {
    match u
    case Out(spare) => TakeOut(p, spare).0
    case In(w) => PutBack(p, w).0
  }

  /** The worker handed out by `u`, if any. */
  function IssuedBy<W>(p: Pool<W>, u: Use<W>): seq<W> {
    match u
    case Out(spare) => (match TakeOut(p, spare).1 case CheckedOut(w) => [w] case NoAvailableWorkers => [])
    case In(_) => []
  }

  /** The worker that joins the line by `u`: one checked in, or one created because the line was empty. */
  function JoinedBy<W(==)>(p: Pool<W>, u: Use<W>): seq<W> {
    match u
    case Out(spare) => if p.pool == [] && |p.out| < p.max then [spare] else []
    case In(w) => if PutBack(p, w).1 then [w] else []
  }

  function Used<W(==)>(p: Pool<W>, us: seq<Use<W>>): Pool<W> {
    if us == [] then p else After(Used(p, us[..|us| - 1]), us[|us| - 1])
  }

  function Issued<W(==)>(p: Pool<W>, us: seq<Use<W>>): seq<W> {
    if us == [] then [] else Issued(p, us[..|us| - 1]) + IssuedBy(Used(p, us[..|us| - 1]), us[|us| - 1])
  }

  function Joined<W(==)>(p: Pool<W>, us: seq<Use<W>>): seq<W> {
    if us == [] then [] else Joined(p, us[..|us| - 1]) + JoinedBy(Used(p, us[..|us| - 1]), us[|us| - 1])
  }

  /** The pool seen as a line: who is handed out next comes first. */
  function Line<W>(s: seq<W>): seq<W> {
    if s == [] then [] else [s[|s| - 1]] + Line(s[..|s| - 1])
  }

  lemma {:induction false} LinePush<W>(s: seq<W>, w: W)
    ensures Line([w] + s) == Line(s) + [w]
  {
    if s == [] {
      assert [w] + s == [w] && [w][..0] == [];
    } else {
      var n := |s| - 1;
      assert ([w] + s)[..n + 1] == [w] + s[..n] && ([w] + s)[n + 1] == s[n];
      LinePush(s[..n], w);
      assert Line([w] + s) == [s[n]] + Line([w] + s[..n]);
    }
  }

  lemma {:induction false} FirstInFirstOutOnce<W>(p: Pool<W>, u: Use<W>)
    ensures IssuedBy(p, u) + Line(After(p, u).pool) == Line(p.pool) + JoinedBy(p, u)
  {
    if u.In? {
      LinePush(p.pool, u.w);
    }
  }

  /** First in, first out: whoever was handed out, followed by whoever still waits,
      is the initial line followed by whoever joined it. */
  lemma {:induction false} FirstInFirstOut<W>(p: Pool<W>, us: seq<Use<W>>)
    ensures Issued(p, us) + Line(Used(p, us).pool) == Line(p.pool) + Joined(p, us)
  {
    if us != [] {
      var n := |us| - 1;
      FirstInFirstOut(p, us[..n]);
      var q := Used(p, us[..n]);
      FirstInFirstOutOnce(q, us[n]);
      Regroup(Issued(p, us[..n]), IssuedBy(q, us[n]), Line(After(q, us[n]).pool), Line(q.pool), JoinedBy(q, us[n]),
              Line(p.pool), Joined(p, us[..n]));
    }
  }

  lemma {:induction false} Regroup<W>(issued: seq<W>, now: seq<W>, line': seq<W>, line: seq<W>, joined: seq<W>, start: seq<W>, before: seq<W>)
    requires issued + line == start + before && now + line' == line + joined
    ensures (issued + now) + line' == start + (before + joined)
  {
    assert (issued + now) + line' == issued + (now + line') == (issued + line) + joined == start + (before + joined);
  }

  /** A worker checked in behind `k` waiting workers is handed out after all of them:
      the next `k` workers handed out are those, and then it is its turn. */
  lemma {:induction false} ReissuedInTurn<W>(p: Pool<W>, w: W, us: seq<Use<W>>)
    requires PutBack(p, w).1 && |Issued(PutBack(p, w).0, us)| > |Line(p.pool)|
    ensures var issued := Issued(PutBack(p, w).0, us);
      issued[..|Line(p.pool)|] == Line(p.pool) && issued[|Line(p.pool)|] == w
  {
    var q := PutBack(p, w).0;
    LinePush(p.pool, w);
    FirstInFirstOut(q, us);
    var line, issued := Line(p.pool), Issued(q, us);
    var all := issued + Line(Used(q, us).pool);
    assert all == (line + [w]) + Joined(q, us);
    assert issued[..|line|] == all[..|line|] && issued[|line|] == all[|line|];
  }

  /** The protocol: a new worker is new, and only checked-out workers are checked in. */
  predicate Allowed<W(==)>(p: Pool<W>, u: Use<W>) {
    match u
    case Out(spare) => spare !in p.pool && spare !in p.out
    case In(w) => w in p.out
  }

  /** A check-out is refused exactly when every worker is out, and a check-in never exceeds the limit. */
  predicate Served<W(==)>(p: Pool<W>, u: Use<W>) {
    match u
    case Out(spare) => TakeOut(p, spare).1.NoAvailableWorkers? <==> |p.out| == p.max
    case In(w) => PutBack(p, w).1
  }

  ghost predicate Bounded<W>(p: Pool<W>) {
    Distinct(p.pool) && Distinct(p.out) && (forall w :: w in p.pool ==> w !in p.out) && |p.pool| + |p.out| <= p.max
  }

  lemma {:induction false} UseBounded<W>(p: Pool<W>, u: Use<W>)
    requires Bounded(p) && Allowed(p, u)
    ensures Bounded(After(p, u)) && Served(p, u) && After(p, u).max == p.max
  {
    if u.In? {
      RemovedPresent(p.out, u.w);
      DistinctConcat([u.w], p.pool);
    } else if p.pool != [] {
      var n := |p.pool| - 1;
      assert p.pool == p.pool[..n] + [p.pool[n]];
      DistinctConcat(p.out, [p.pool[n]]);
    } else {
      DistinctConcat(p.out, [u.spare]);
    }
  }

  ghost predicate Respects<W>(p: Pool<W>, us: seq<Use<W>>) {
    us == [] || (Respects(p, us[..|us| - 1]) && Allowed(Used(p, us[..|us| - 1]), us[|us| - 1]))
  }

  /** Whatever respects the protocol keeps the pool within its limit and free of
      duplicates, never exceeds the worker limit, and is refused a worker exactly
      when all of them are out. */
  lemma {:induction false} PoolStaysBounded<W>(p: Pool<W>, us: seq<Use<W>>)
    requires Bounded(p) && Respects(p, us)
    ensures Bounded(Used(p, us)) && Used(p, us).max == p.max
    ensures us != [] ==> Served(Used(p, us[..|us| - 1]), us[|us| - 1])
  {
    if us != [] {
      PoolStaysBounded(p, us[..|us| - 1]);
      UseBounded(Used(p, us[..|us| - 1]), us[|us| - 1]);
    }
  }
}
