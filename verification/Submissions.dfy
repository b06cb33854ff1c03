// All submissions to the server together: check-out, registration, start, the join
// loop over the run, deregistration and check-in, interleaved in any order.
module Submissions {
  import opened Relations
  import opened Tasks
  import opened DependencyGraph
  import opened Wrappers
  import P = WorkerPool
  import J = JoinLoop
  import S = Scheduler
  import Runs
  import opened Server

  /** How far a submission has come, and with which worker. A started one carries its
      run and how far the join loop has come. `Failed` is an exception after check-out:
      its worker is never handed back. */
  datatype Phase<W> =
    | Holding(worker: W) | Registered(worker: W) | Started(worker: W, progress: J.Progress) | Deregistered(worker: W) | Failed(worker: W)
    | Returned | Refused

  predicate Keeps<W>(ph: Phase<W>) {
    !ph.Returned? && !ph.Refused?
  }

  datatype State<W> = State(pool: P.Pool<W>, reg: Registry<W>, subs: map<nat, Phase<W>>)

  datatype Step<W> =
    | Arrive(sub: nat, spare: W)
    | Register(sub: nat, key: string, policy: Policy)
    | Start(sub: nat, tasks: seq<Task>, paramsValid: bool)
    | Work(sub: nat, move: J.Move)
    | Deregister(sub: nat)
    | Return(sub: nat)
    | Raise(sub: nat)

  /** The worker is still this submission's own: no other submission has terminated its run. */
  predicate Undisturbed<W(==)>(s: State<W>, ph: Phase<W>) {
    ph.Started? && ph.worker in s.reg.active
  }

  ghost predicate Enabled<W>(s: State<W>, a: Step<W>) {
    match a
    case Arrive(sub, spare) => sub !in s.subs && spare !in s.reg.key
    case Register(sub, _, _) => sub in s.subs && s.subs[sub].Holding?
    case Start(sub, tasks, _) => sub in s.subs && s.subs[sub].Registered? && UniqueIds(tasks)
    case Work(sub, m) => sub in s.subs && Undisturbed(s, s.subs[sub]) && J.CanMove(s.subs[sub].progress, m)
    case Deregister(sub) =>
      && sub in s.subs && s.subs[sub].Started?
      && (Undisturbed(s, s.subs[sub]) ==> s.subs[sub].progress.joined == |s.subs[sub].progress.run.threads|)
    case Return(sub) => sub in s.subs && s.subs[sub].Deregistered?
    case Raise(sub) => sub in s.subs && (s.subs[sub].Holding? || s.subs[sub].Registered? || s.subs[sub].Started?)
  }

  /** What the worker has to run: nothing unless it can start, and no threads when its state runs no hooks. */
  ghost function Begun<W>(r: Registry<W>, w: W, tasks: seq<Task>, paramsValid: bool): J.Progress {
    var v := Validate(tasks);
    J.Progress(if w !in r.canStart then S.NO_RUN
               else if w in r.blind then S.LaunchBlind(tasks, v, paramsValid)
               else S.Launch(tasks, v, paramsValid), 0)
  }

  /** The registry once the worker has been given its run: staging takes can_start away
      and sets the context and its logger. */
  ghost function Staging<W>(r: Registry<W>, w: W): Registry<W> {
    r.(canStart := r.canStart - {w}, staged := if w in r.canStart then r.staged + {w} else r.staged)
  }

  ghost function Apply<W>(s: State<W>, a: Step<W>): State<W>
    requires Enabled(s, a)
  {
    match a
    case Arrive(sub, spare) =>
      var (pool, r) := P.TakeOut(s.pool, spare);
      (match r
       case NoAvailableWorkers => s.(subs := s.subs[sub := Refused])
       case CheckedOut(w) =>
         // A new worker comes without a key.
         State(pool, s.reg.(key := if w in s.reg.key then s.reg.key else s.reg.key[w := None]), s.subs[sub := Holding(w)]))
    case Register(sub, key, policy) =>
      var w := s.subs[sub].worker;
      var (reg, ok) := Enrolled(s.reg, w, key, policy);
      s.(reg := reg, subs := s.subs[sub := if ok then Registered(w) else Failed(w)])
    case Start(sub, tasks, paramsValid) =>
      // The worker runs if it can.
      var w := s.subs[sub].worker;
      s.(reg := Staging(s.reg, w), subs := s.subs[sub := Started(w, Begun(s.reg, w, tasks, paramsValid))])
    case Work(sub, m) =>
      s.(subs := s.subs[sub := s.subs[sub].(progress := J.Moved(s.subs[sub].progress, m))])
    case Deregister(sub) =>
      var w := s.subs[sub].worker;
      s.(reg := Dropped(s.reg, w), subs := s.subs[sub := Deregistered(w)])
    case Return(sub) =>
      var w := s.subs[sub].worker;
      s.(pool := P.PutBack(s.pool, w).0, subs := s.subs[sub := Returned])
    case Raise(sub) =>
      s.(subs := s.subs[sub := Failed(s.subs[sub].worker)])
  }

  ghost predicate IsRun<W>(s: State<W>, run: seq<Step<W>>)
    decreases |run|
  {
    run == [] || (Enabled(s, run[0]) && IsRun(Apply(s, run[0]), run[1..]))
  }

  ghost function After<W>(s: State<W>, run: seq<Step<W>>): State<W>
    requires IsRun(s, run)
    decreases |run|
  {
    if run == [] then s else After(Apply(s, run[0]), run[1..])
  }

  /** A server that has just been started: every worker pooled, none keyed. */
  ghost predicate Initial<W>(s: State<W>) {
    && Distinct(s.pool.pool) && s.pool.out == [] && |s.pool.pool| <= s.pool.max
    && s.reg.active == [] && s.reg.canStart == {} && s.reg.staged == {} && s.reg.blind == {} && s.subs == map[]
    && s.reg.key.Keys == (set w | w in s.pool.pool) && forall w :: w in s.reg.key ==> s.reg.key[w] == None
  }

  // What every step keeps.

  ghost predicate Idle<W>(r: Registry<W>, w: W) {
    w !in r.active && w in r.key && r.key[w] == None && w !in r.canStart && w !in r.staged
  }

  /** Active workers are distinct and keyed, and nobody can start who is not active. */
  ghost predicate RegistryOk<W>(r: Registry<W>) {
    && Distinct(r.active)
    && (forall w :: w in r.active ==> w in r.key && r.key[w].Some?)
    && (forall w :: w in r.canStart ==> w in r.active)
    && (forall w :: w in r.staged ==> w in r.key)
  }

  ghost function Tenants<W>(s: State<W>): set<nat> {
    set i | i in s.subs && Keeps(s.subs[i])
  }

  /** The checked-out workers are those that a submission keeps, each kept by one. */
  ghost predicate Tenancy<W>(s: State<W>) {
    && (forall i :: i in s.subs && Keeps(s.subs[i]) ==> s.subs[i].worker in s.pool.out)
    && (forall i, j :: i in s.subs && j in s.subs && i != j && Keeps(s.subs[i]) && Keeps(s.subs[j]) ==>
          s.subs[i].worker != s.subs[j].worker)
    && |Tenants(s)| == |s.pool.out|
  }

  /** What a phase says about its worker: an active one can start and is not staged
      while it is registered, and is staged from its start on. */
  ghost predicate PhaseOk<W>(r: Registry<W>, ph: Phase<W>) {
    match ph
    case Holding(w) => Idle(r, w)
    case Registered(w) => w !in r.staged && (w in r.active ==> w in r.canStart)
    case Started(w, g) => w !in r.canStart && (w in r.active ==> w in r.staged) && J.Sound(g)
    case Deregistered(w) => Idle(r, w)
    case _ => true
  }

  ghost predicate PhasesOk<W>(s: State<W>) {
    forall i :: i in s.subs ==> PhaseOk(s.reg, s.subs[i])
  }

  ghost predicate Inv<W>(s: State<W>) {
    && P.Bounded(s.pool) && RegistryOk(s.reg) && Tenancy(s) && PhasesOk(s)
    && (forall w :: w in s.pool.pool ==> Idle(s.reg, w))
    && (forall w :: w in s.pool.out ==> w in s.reg.key)
    && (forall w :: w in s.reg.active ==> w in s.pool.out)
  }

  /** A registry changes for other workers at most by dropping them. */
  ghost predicate OthersKept<W(!new)>(r: Registry<W>, r': Registry<W>, w: W) {
    && r'.key.Keys == r.key.Keys && r.blind <= r'.blind
    && (forall v :: v in r'.active && v != w ==> v in r.active && v in r.key && v in r'.key && r'.key[v] == r.key[v])
    && (forall v :: v != w && v in r'.canStart ==> v in r.canStart)
    && (forall v :: v != w && v in r'.staged ==> v in r.staged)
    && (forall v :: v != w && v in r'.active ==> (v in r.canStart ==> v in r'.canStart) && (v in r.staged ==> v in r'.staged))
    && (forall v :: v != w && Idle(r, v) ==> Idle(r', v))
  }

  lemma {:induction false} DropOk<W(!new)>(r: Registry<W>, w: W)
    requires RegistryOk(r) && w in r.key
    ensures var r' := Dropped(r, w);
      && RegistryOk(r') && Idle(r', w) && OthersKept(r, r', w)
      && (forall v :: v in r'.active <==> v in r.active && v != w)
      && (forall v :: v != w && v in r.key ==> v in r'.key && r'.key[v] == r.key[v])
      && (forall v :: v != w ==> (Stoppable(r', v) <==> Stoppable(r, v)))
  {
    ExceptMembers(r.active, w);
    assert forall v :: v in Dropped(r, w).active ==> v in r.active && v != w;
  }

  /** What eviction leaves of a registry. */
  ghost predicate EvictedOk<W(!new)>(r: Registry<W>, ws: seq<W>, r': Registry<W>, ok: bool) {
    && RegistryOk(r') && r'.key.Keys == r.key.Keys && r.blind <= r'.blind
    && (forall v :: v in r'.active ==> v in r.active && r'.key[v] == r.key[v])
    && (forall v :: v in r.key && v !in ws ==> r'.key[v] == r.key[v] && (v in r'.active <==> v in r.active))
    && (forall v :: v in r'.canStart ==> v in r.canStart) && (forall v :: v in r'.staged ==> v in r.staged)
    && (forall v :: v in r'.active ==> (v in r.canStart ==> v in r'.canStart) && (v in r.staged ==> v in r'.staged))
    && (forall v :: Idle(r, v) ==> Idle(r', v))
    && (ok ==> forall v :: v in ws ==> Idle(r', v))
    && (forall v :: v !in ws ==> (Stoppable(r', v) <==> Stoppable(r, v)) && (v in r'.blind ==> v in r.blind))
  }

  lemma {:induction false} EvictionOk<W(!new)>(r: Registry<W>, ws: seq<W>)
    requires RegistryOk(r) && Distinct(ws) && forall w :: w in ws ==> w in r.key
    ensures EvictedOk(r, ws, Evicted(r, ws).0, Evicted(r, ws).1)
    ensures Evicted(r, ws).1 <==> forall w :: w in ws ==> Stoppable(r, w)
  {
    if ws != [] {
      var n := |ws| - 1;
      assert ws == ws[..n] + [ws[n]];
      EvictionOk(r, ws[..n]);
      var (q, ok) := Evicted(r, ws[..n]);
      assert ws[n] !in ws[..n];
      EvictionGoesOn(r, ws[..n], q, ok, ws[n]);
      hide EvictedOk, Stoppable, RegistryOk, Dropped;
    }
  }

  lemma {:induction false} EvictionGoesOn<W(!new)>(r: Registry<W>, ws: seq<W>, q: Registry<W>, ok: bool, w: W)
    requires EvictedOk(r, ws, q, ok) && w !in ws && w in r.key
    ensures Stoppable(q, w) <==> Stoppable(r, w)
    ensures !ok ==> EvictedOk(r, ws + [w], q, false)
    ensures ok && Stoppable(q, w) ==> EvictedOk(r, ws + [w], Dropped(q, w), true)
    ensures ok && !Stoppable(q, w) ==> EvictedOk(r, ws + [w], q.(blind := q.blind + {w}), false)
  {
    DropOk(q, w);
    hide Dropped;
  }

  /** Eviction goes through the workers in turn and ends at the first that cannot be
      terminated: those before it are idle, it and those after it stay as they were,
      except that it runs no hooks any more. */
  lemma {:induction false} EvictsInTurn<W(!new)>(r: Registry<W>, ws: seq<W>, i: nat)
    requires RegistryOk(r) && Distinct(ws) && (forall w :: w in ws ==> w in r.active) && i < |ws|
    requires !Stoppable(r, ws[i]) && forall j :: 0 <= j < i ==> Stoppable(r, ws[j])
    ensures var (r', ok) := Evicted(r, ws);
      && !ok && r'.blind == r.blind + {ws[i]}
      && (forall j :: 0 <= j < i ==> Idle(r', ws[j]))
      && (forall j :: i <= j < |ws| ==> ws[j] in r'.active && ws[j] in r'.key && r'.key[ws[j]] == r.key[ws[j]])
      && (forall j :: i <= j < |ws| ==> (ws[j] in r'.canStart <==> ws[j] in r.canStart))
  {
    var before := ws[..i];
    BeforeAndAfter(ws, i);
    EvictionOk(r, before);
    EvictsFully(r, before);
    var q := Evicted(r, before).0;
    EvictionEnds(r, ws, i, q);
    hide Evicted, RegistryOk, Stoppable;
    forall j | 0 <= j < i ensures Idle(q, ws[j]) {
      assert ws[j] in before;
    }
    hide Idle;
  }

  lemma {:induction false} BeforeAndAfter<T>(s: seq<T>, i: nat)
    requires Distinct(s) && i < |s|
    ensures Distinct(s[..i]) && (forall x :: x in s[..i] ==> x in s) && (forall j :: 0 <= j < i ==> s[j] in s[..i])
    ensures forall j :: i <= j < |s| ==> s[j] !in s[..i]
  {
    forall j | 0 <= j < i ensures s[j] in s[..i] {
      assert s[..i][j] == s[j];
    }
  }

  lemma {:induction false} EvictionEnds<W(!new)>(r: Registry<W>, ws: seq<W>, i: nat, q: Registry<W>)
    requires i < |ws| && Evicted(r, ws[..i]) == (q, true) && !Stoppable(q, ws[i])
    ensures Evicted(r, ws) == (q.(blind := q.blind + {ws[i]}), false)
  {
    assert ws[..i + 1][..i] == ws[..i];
    assert !Evicted(r, ws[..i + 1]).1;
    EvictionStops(r, ws, i + 1);
  }

  lemma {:induction false} EvictsFully<W>(r: Registry<W>, ws: seq<W>)
    requires Evicted(r, ws).1
    ensures Evicted(r, ws).0.blind == r.blind
  {
    if ws != [] {
      EvictsFully(r, ws[..|ws| - 1]);
    }
  }

  /** The registry on which the policy decides. */
  ghost function Keyed<W>(r: Registry<W>, w: W, k: string): Registry<W> {
    r.(key := r.key[w := Some(k)])
  }

  /** An active worker holds the key. */
  ghost predicate Held<W(!new)>(r: Registry<W>, k: string) {
    exists v :: v in r.active && Holds(r, v, k)
  }

  /** Every active holder of the key can be terminated. */
  ghost predicate AllStoppable<W(!new)>(r: Registry<W>, k: string) {
    forall v :: v in r.active && Holds(r, v, k) ==> Stoppable(r, v)
  }

  lemma {:induction false} HoldersDistinct<W(!new)>(r: Registry<W>, ws: seq<W>, k: string)
    requires Distinct(ws)
    ensures Distinct(HoldersIn(r, ws, k))
  {
    if ws != [] {
      var n := |ws| - 1;
      HoldersDistinct(r, ws[..n], k);
      HoldersAreMembers(r, ws[..n], k);
      assert ws == ws[..n] + [ws[n]] && ws[n] !in ws[..n];
    }
  }

  lemma {:induction false} HoldersKeyed<W(!new)>(r: Registry<W>, w: W, k: string) returns (holders: seq<W>)
    requires RegistryOk(r) && Idle(r, w)
    ensures RegistryOk(Keyed(r, w, k)) && holders == HoldersIn(Keyed(r, w, k), r.active, k) && Distinct(holders)
    ensures forall v :: v in holders <==> v in r.active && Holds(r, v, k)
    ensures w !in holders && forall v :: v in holders ==> v in Keyed(r, w, k).key
  {
    holders := HoldersIn(Keyed(r, w, k), r.active, k);
    HoldersAreMembers(Keyed(r, w, k), r.active, k);
    HoldersDistinct(Keyed(r, w, k), r.active, k);
  }

  /** What an enrolment by an idle worker does, in terms of who is active, keyed, staged and idle afterwards. */
  ghost predicate EnrolledOk<W(!new)>(r: Registry<W>, w: W, k: string, policy: Policy, r': Registry<W>, ok: bool) {
    && RegistryOk(r') && OthersKept(r, r', w) && Holds(r', w, k) && w !in r'.staged && (w in r'.active <==> w in r'.canStart)
    && (ok <==> policy != TERMINATE || AllStoppable(r, k))
    && (w in r'.active <==> ok && (policy == DENY ==> !Held(r, k)))
    && ((policy == TERMINATE || policy == DENY) && w in r'.active ==> forall v :: v in r'.active && Holds(r', v, k) ==> v == w)
    && (policy == TERMINATE && ok ==> forall v :: v in r.active && Holds(r, v, k) ==> Idle(r', v))
    && (policy != TERMINATE ==>
          && r'.active == (if w in r'.active then r.active + [w] else r.active)
          && r'.canStart == (if w in r'.active then r.canStart + {w} else r.canStart) && r'.staged == r.staged && r'.blind == r.blind)
    && (forall v :: v != w && v in r.active && !(policy == TERMINATE && Holds(r, v, k)) ==> Untouched(r, r', v))
  }

  /** An active worker keeps its place, its key and what it may do. */
  ghost predicate Untouched<W(!new)>(r: Registry<W>, r': Registry<W>, v: W) {
    && v in r'.active && v in r.key && v in r'.key && r'.key[v] == r.key[v]
    && (v in r'.canStart <==> v in r.canStart) && (v in r'.staged <==> v in r.staged) && (v in r'.blind <==> v in r.blind)
  }

  lemma {:induction false} EnrolOk<W(!new)>(r: Registry<W>, w: W, k: string, policy: Policy)
    requires RegistryOk(r) && Idle(r, w)
    ensures EnrolledOk(r, w, k, policy, Enrolled(r, w, k, policy).0, Enrolled(r, w, k, policy).1)
  {
    var r1 := Keyed(r, w, k);
    var holders := HoldersKeyed(r, w, k);
    EmptyOrInhabited(holders);
    EvictionOk(r1, holders);
    var (r2, ok) := Evicted(r1, holders);
    if policy == TERMINATE {
      EvictedEnrols(r, w, k, holders, r2, ok);
    } else {
      KeyedEnrols(r, w, k, policy);
    }
    hide Evicted, EvictedOk, HoldersIn, EnrolledOk, RegistryOk, Idle;
  }

  lemma {:induction false} EvictedEnrols<W(!new)>(r: Registry<W>, w: W, k: string, holders: seq<W>, r2: Registry<W>, ok: bool)
    requires RegistryOk(r) && Idle(r, w) && EvictedOk(Keyed(r, w, k), holders, r2, ok) && w !in holders
    requires forall v :: v in holders <==> v in r.active && Holds(r, v, k)
    requires ok <==> forall v :: v in holders ==> Stoppable(Keyed(r, w, k), v)
    ensures EnrolledOk(r, w, k, TERMINATE,
      if ok then r2.(canStart := r2.canStart + {w}, active := r2.active + [w]) else r2, ok)
  {
    DistinctConcat(r2.active, [w]);
    var r' := if ok then r2.(canStart := r2.canStart + {w}, active := r2.active + [w]) else r2;
    assert ok <==> AllStoppable(r, k);
    assert RegistryOk(r');
    assert OthersKept(r, r', w) by {
      forall v | v != w && Idle(r, v) ensures Idle(r', v) {
        assert Idle(Keyed(r, w, k), v);
      }
    }
  }

  lemma {:induction false} KeyedEnrols<W(!new)>(r: Registry<W>, w: W, k: string, policy: Policy)
    requires RegistryOk(r) && Idle(r, w) && policy != TERMINATE
    ensures var r1 := Keyed(r, w, k);
      EnrolledOk(r, w, k, policy,
        if policy == DENY && Held(r, k) then r1 else r1.(canStart := r1.canStart + {w}, active := r1.active + [w]), true)
  {
    DistinctConcat(r.active, [w]);
  }

  lemma {:induction false} TakeOutMoves<W(!new)>(p: P.Pool<W>, spare: W)
    requires P.Bounded(p) && spare !in p.pool && spare !in p.out
    ensures var (q, result) := P.TakeOut(p, spare);
      && P.Bounded(q) && (result.NoAvailableWorkers? ==> q == p)
      && (result.CheckedOut? ==>
            && (result.worker in p.pool || result.worker == spare) && result.worker !in p.out
            && q.out == p.out + [result.worker] && forall v :: v in q.pool ==> v in p.pool)
  {
    P.UseBounded(p, P.Out(spare));
  }

  lemma {:induction false} TenancyGrows<W(!new)>(s: State<W>, s': State<W>, sub: nat, w: W)
    requires Tenancy(s) && sub !in s.subs && w !in s.pool.out
    requires s'.pool.out == s.pool.out + [w] && s'.subs == s.subs[sub := Holding(w)]
    ensures Tenancy(s')
  {
    assert Tenants(s') == Tenants(s) + {sub};
  }

  lemma {:induction false} IdleStays<W(!new)>(r: Registry<W>, w: W)
    requires RegistryOk(r) && (w in r.key ==> Idle(r, w))
    ensures var r' := r.(key := if w in r.key then r.key else r.key[w := None]);
      RegistryOk(r') && Idle(r', w) && forall v :: Idle(r, v) ==> Idle(r', v)
  {
  }

  /** A phase outlives a change that keeps its worker. */
  lemma {:induction false} PhaseStays<W(!new)>(r: Registry<W>, r': Registry<W>, w: W, ph: Phase<W>)
    requires OthersKept(r, r', w) && PhaseOk(r, ph) && (Keeps(ph) ==> ph.worker != w)
    ensures PhaseOk(r', ph)
  {
  }

  /** Submission `sub` goes on to another phase, and its worker's entry in the registry changes. */
  lemma {:induction false} PhaseMoves<W(!new)>(s: State<W>, s': State<W>, sub: nat, w: W, ph: Phase<W>)
    requires Tenancy(s) && PhasesOk(s) && OthersKept(s.reg, s'.reg, w)
    requires sub in s.subs && Keeps(s.subs[sub]) && s.subs[sub].worker == w
    requires s'.subs == s.subs[sub := ph] && s'.pool == s.pool && Keeps(ph) && ph.worker == w && PhaseOk(s'.reg, ph)
    ensures Tenancy(s') && PhasesOk(s')
  {
    assert Tenants(s') == Tenants(s);
    hide OthersKept, PhaseOk;
    forall i | i in s'.subs ensures PhaseOk(s'.reg, s'.subs[i]) {
      if i != sub { PhaseStays(s.reg, s'.reg, w, s.subs[i]); }
    }
  }

  lemma {:induction false} ArriveKeeps<W(!new)>(s: State<W>, sub: nat, spare: W)
    requires Inv(s) && Enabled(s, Arrive(sub, spare))
    ensures Inv(Apply(s, Arrive(sub, spare)))
  {
    var s' := Apply(s, Arrive(sub, spare));
    assert spare !in s.pool.pool && spare !in s.pool.out;
    TakeOutMoves(s.pool, spare);
    var (pool, result) := P.TakeOut(s.pool, spare);
    match result
    case NoAvailableWorkers =>
      assert Tenants(s') == Tenants(s);
      hide PhaseOk;
    case CheckedOut(w) =>
      TenancyGrows(s, s', sub, w);
      IdleStays(s.reg, w);
      ArrivalPhases(s, s', sub, w);
      hide P.TakeOut, P.Bounded, Tenancy, RegistryOk, Idle, PhasesOk;
  }

  lemma {:induction false} ArrivalPhases<W(!new)>(s: State<W>, s': State<W>, sub: nat, w: W)
    requires PhasesOk(s) && s'.subs == s.subs[sub := Holding(w)]
    requires Idle(s'.reg, w) && forall v :: Idle(s.reg, v) ==> Idle(s'.reg, v)
    requires s'.reg == s.reg.(key := s'.reg.key)
    ensures PhasesOk(s')
  {
    hide Idle, J.Sound;
    forall i | i in s'.subs ensures PhaseOk(s'.reg, s'.subs[i]) {
      assert i != sub ==> PhaseOk(s.reg, s.subs[i]);
    }
  }

  lemma {:induction false} RegisterKeeps<W(!new)>(s: State<W>, sub: nat, k: string, policy: Policy)
    requires Inv(s) && Enabled(s, Register(sub, k, policy))
    ensures Inv(Apply(s, Register(sub, k, policy)))
  {
    var s' := Apply(s, Register(sub, k, policy));
    var w := s.subs[sub].worker;
    assert PhaseOk(s.reg, s.subs[sub]);
    EnrolOk(s.reg, w, k, policy);
    hide Enrolled, Tenancy, PhasesOk;
    PhaseMoves(s, s', sub, w, s'.subs[sub]);
    OthersKeepInv(s, s', sub, w);
  }

  /** The rest of the invariant, when the worker of submission `sub` changes. */
  lemma {:induction false} OthersKeepInv<W(!new)>(s: State<W>, s': State<W>, sub: nat, w: W)
    requires Inv(s) && OthersKept(s.reg, s'.reg, w) && s'.pool == s.pool
    requires sub in s.subs && Keeps(s.subs[sub]) && s.subs[sub].worker == w
    requires RegistryOk(s'.reg) && Tenancy(s') && PhasesOk(s')
    ensures Inv(s')
  {
    assert w in s.pool.out && w !in s.pool.pool;
    hide Tenancy, PhasesOk, RegistryOk;
  }

  lemma {:induction false} BegunSound<W(!new)>(r: Registry<W>, w: W, tasks: seq<Task>, paramsValid: bool)
    requires UniqueIds(tasks)
    ensures J.Sound(Begun(r, w, tasks, paramsValid))
  {
    hide Validate, S.Launch, S.LaunchBlind, J.Sound, UniqueIds;
    J.LaunchSound(tasks, paramsValid);
    J.NoRunSound();
  }

  lemma {:induction false} StagingOk<W(!new)>(r: Registry<W>, w: W, g: J.Progress)
    requires RegistryOk(r) && PhaseOk(r, Registered(w)) && w in r.key && J.Sound(g)
    ensures RegistryOk(Staging(r, w)) && OthersKept(r, Staging(r, w), w) && PhaseOk(Staging(r, w), Started(w, g))
  {
    hide J.Sound;
  }

  lemma {:induction false} StartKeeps<W(!new)>(s: State<W>, sub: nat, tasks: seq<Task>, paramsValid: bool)
    requires Inv(s) && Enabled(s, Start(sub, tasks, paramsValid))
    ensures Inv(Apply(s, Start(sub, tasks, paramsValid)))
  {
    var s' := Apply(s, Start(sub, tasks, paramsValid));
    var w := s.subs[sub].worker;
    assert PhaseOk(s.reg, s.subs[sub]) && w in s.pool.out && w in s.reg.key;
    BegunSound(s.reg, w, tasks, paramsValid);
    StagingOk(s.reg, w, Begun(s.reg, w, tasks, paramsValid));
    hide Begun, Tenancy, PhasesOk, PhaseOk, OthersKept, RegistryOk, Idle, UniqueIds, P.Bounded, J.Sound;
    assert s'.reg == Staging(s.reg, w);
    PhaseMoves(s, s', sub, w, s'.subs[sub]);
    OthersKeepInv(s, s', sub, w);
  }

  lemma {:induction false} WorkKeeps<W(!new)>(s: State<W>, sub: nat, m: J.Move)
    requires Inv(s) && Enabled(s, Work(sub, m))
    ensures Inv(Apply(s, Work(sub, m)))
  {
    var s' := Apply(s, Work(sub, m));
    var w := s.subs[sub].worker;
    assert PhaseOk(s.reg, s.subs[sub]);
    J.SoundMoves(s.subs[sub].progress, m);
    hide J.Sound, J.CanMove, J.Moved, Tenancy, PhasesOk;
    assert OthersKept(s.reg, s'.reg, w);
    PhaseMoves(s, s', sub, w, s'.subs[sub]);
    OthersKeepInv(s, s', sub, w);
  }

  lemma {:induction false} DeregisterKeeps<W(!new)>(s: State<W>, sub: nat)
    requires Inv(s) && Enabled(s, Deregister(sub))
    ensures Inv(Apply(s, Deregister(sub)))
  {
    var s' := Apply(s, Deregister(sub));
    var w := s.subs[sub].worker;
    assert w in s.pool.out && w in s.reg.key;
    DropOk(s.reg, w);
    hide Dropped, Tenancy, PhasesOk;
    PhaseMoves(s, s', sub, w, s'.subs[sub]);
    OthersKeepInv(s, s', sub, w);
  }

  lemma {:induction false} PutBackMoves<W(!new)>(p: P.Pool<W>, w: W)
    requires P.Bounded(p) && w in p.out
    ensures var (q, ok) := P.PutBack(p, w);
      && ok && P.Bounded(q) && q.pool == [w] + p.pool && |q.out| == |p.out| - 1
      && (forall v :: v in q.out <==> v in p.out && v != w)
  {
    P.UseBounded(p, P.In(w));
    P.RemovedPresent(p.out, w);
  }

  lemma {:induction false} ReturnKeeps<W(!new)>(s: State<W>, sub: nat)
    requires Inv(s) && Enabled(s, Return(sub))
    ensures Inv(Apply(s, Return(sub))) && P.PutBack(s.pool, s.subs[sub].worker).1
  {
    var s' := Apply(s, Return(sub));
    assert PhaseOk(s.reg, s.subs[sub]);
    PutBackMoves(s.pool, s.subs[sub].worker);
    assert PhaseOk(s.reg, Returned);
    hide PhaseOk, RegistryOk, P.PutBack, P.Bounded, Idle;
    TenancyShrinks(s, s', sub);
    hide Tenancy;
  }

  lemma {:induction false} TenancyShrinks<W(!new)>(s: State<W>, s': State<W>, sub: nat)
    requires Tenancy(s) && sub in s.subs && Keeps(s.subs[sub]) && s'.subs == s.subs[sub := Returned]
    requires |s'.pool.out| == |s.pool.out| - 1
    requires forall v :: v in s'.pool.out <==> v in s.pool.out && v != s.subs[sub].worker
    ensures Tenancy(s')
  {
    assert Tenants(s') == Tenants(s) - {sub};
  }

  lemma {:induction false} RaiseKeeps<W(!new)>(s: State<W>, sub: nat)
    requires Inv(s) && Enabled(s, Raise(sub))
    ensures Inv(Apply(s, Raise(sub)))
  {
    var s' := Apply(s, Raise(sub));
    assert OthersKept(s.reg, s'.reg, s.subs[sub].worker);
    hide Tenancy, PhasesOk;
    PhaseMoves(s, s', sub, s.subs[sub].worker, s'.subs[sub]);
  }

  lemma {:induction false} StepKeeps<W(!new)>(s: State<W>, a: Step<W>)
    requires Inv(s) && Enabled(s, a)
    ensures Inv(Apply(s, a))
  {
    hide Inv;
    match a
    case Arrive(sub, spare) => ArriveKeeps(s, sub, spare);
    case Register(sub, k, policy) => RegisterKeeps(s, sub, k, policy);
    case Start(sub, tasks, paramsValid) => StartKeeps(s, sub, tasks, paramsValid);
    case Work(sub, m) => WorkKeeps(s, sub, m);
    case Deregister(sub) => DeregisterKeeps(s, sub);
    case Return(sub) => ReturnKeeps(s, sub);
    case Raise(sub) => RaiseKeeps(s, sub);
  }

  lemma {:induction false} RunKeeps<W(!new)>(s: State<W>, run: seq<Step<W>>)
    requires Inv(s) && IsRun(s, run)
    ensures Inv(After(s, run))
    decreases |run|
  {
    if run != [] {
      StepKeeps(s, run[0]);
      RunKeeps(Apply(s, run[0]), run[1..]);
    }
  }

  lemma {:induction false} InitialOk<W(!new)>(s: State<W>)
    requires Initial(s)
    ensures Inv(s)
  {
    assert Tenants(s) == {};
  }

  // What a submission does to the others.

  /** Whatever another submission does short of a TERMINATE for its key, a worker whose
      submission has started stays active under that key. */
  lemma {:induction false} OthersUndisturbed<W(!new)>(s: State<W>, a: Step<W>, sub: nat)
    requires Inv(s) && Enabled(s, a) && sub in s.subs && Undisturbed(s, s.subs[sub]) && a.sub != sub
    requires !(a.Register? && a.policy == TERMINATE && Holds(s.reg, s.subs[sub].worker, a.key))
    ensures var s', v := Apply(s, a), s.subs[sub].worker;
      sub in s'.subs && s'.subs[sub] == s.subs[sub] && Undisturbed(s', s'.subs[sub])
      && v in s.reg.key && v in s'.reg.key && s'.reg.key[v] == s.reg.key[v]
  {
    var v := s.subs[sub].worker;
    assert Keeps(s.subs[sub]) && v in s.pool.out;
    if !a.Arrive? && a.sub in s.subs {
      assert PhaseOk(s.reg, s.subs[a.sub]);
    }
    match a
    case Register(other, k, policy) =>
      var w := s.subs[other].worker;
      EnrolOk(s.reg, w, k, policy);
      hide Enrolled, PhasesOk, RegistryOk;
      assert Untouched(s.reg, Enrolled(s.reg, w, k, policy).0, v);
    case Deregister(other) =>
      DropOk(s.reg, s.subs[other].worker);
      hide Dropped;
    case _ =>
  }

  /** Only the run's own work, and of the others nothing that would evict a holder of `k`. */
  predicate Spares<W>(run: seq<Step<W>>, sub: nat, k: string) {
    forall i :: 0 <= i < |run| ==>
      (if run[i].sub == sub then run[i].Work? else !(run[i].Register? && run[i].policy == TERMINATE && run[i].key == k))
  }

  /** Only a TERMINATE for its own key disturbs a submission that has started: its worker
      stays active, with that key and with the run it was given. */
  lemma {:induction false} StartedStaysUndisturbed<W(!new)>(s0: State<W>, before: seq<Step<W>>, run: seq<Step<W>>, sub: nat, k: string)
    requires Initial(s0) && IsRun(s0, before) && IsRun(After(s0, before), run)
    requires var s := After(s0, before);
      sub in s.subs && Undisturbed(s, s.subs[sub]) && Holds(s.reg, s.subs[sub].worker, k) && Spares(run, sub, k)
    ensures var s, s' := After(s0, before), After(After(s0, before), run);
      && sub in s'.subs && Undisturbed(s', s'.subs[sub]) && s'.subs[sub].worker == s.subs[sub].worker
      && Holds(s'.reg, s.subs[sub].worker, k)
  {
    InitialOk(s0);
    RunKeeps(s0, before);
    hide Initial, Inv, After, IsRun;
    RunSpares(After(s0, before), run, sub, k);
  }

  lemma {:induction false} RunSpares<W(!new)>(s: State<W>, run: seq<Step<W>>, sub: nat, k: string)
    requires Inv(s) && IsRun(s, run) && Spares(run, sub, k)
    requires sub in s.subs && Undisturbed(s, s.subs[sub]) && Holds(s.reg, s.subs[sub].worker, k)
    ensures var s' := After(s, run);
      && sub in s'.subs && Undisturbed(s', s'.subs[sub]) && s'.subs[sub].worker == s.subs[sub].worker
      && Holds(s'.reg, s.subs[sub].worker, k)
    decreases |run|
  {
    if run != [] {
      var a := run[0];
      StepKeeps(s, a);
      StepSpares(s, a, sub, k);
      assert Spares(run[1..], sub, k);
      hide Inv, Apply, Enabled;
      RunSpares(Apply(s, a), run[1..], sub, k);
    }
  }

  lemma {:induction false} StepSpares<W(!new)>(s: State<W>, a: Step<W>, sub: nat, k: string)
    requires Inv(s) && Enabled(s, a)
    requires if a.sub == sub then a.Work? else !(a.Register? && a.policy == TERMINATE && a.key == k)
    requires sub in s.subs && Undisturbed(s, s.subs[sub]) && Holds(s.reg, s.subs[sub].worker, k)
    ensures var s' := Apply(s, a);
      && sub in s'.subs && Undisturbed(s', s'.subs[sub]) && s'.subs[sub].worker == s.subs[sub].worker
      && Holds(s'.reg, s.subs[sub].worker, k)
  {
    hide Inv;
    if a.sub != sub {
      OthersUndisturbed(s, a, sub);
      hide Apply, Enabled;
    } else {
      hide J.Moved, J.CanMove;
    }
  }

  /** A worker is given threads exactly when it can start, its state runs hooks, the
      tasks are accepted and the arguments valid. */
  lemma {:induction false} StartsThreadsIff<W(!new)>(s0: State<W>, run: seq<Step<W>>, sub: nat, tasks: seq<Task>, paramsValid: bool)
    requires Initial(s0) && IsRun(s0, run) && Enabled(After(s0, run), Start(sub, tasks, paramsValid))
    ensures var s := After(s0, run);
            var w := s.subs[sub].worker;
            var g := Apply(s, Start(sub, tasks, paramsValid)).subs[sub].progress;
      && g.joined == 0
      && (g.run.threads != [] <==> w in s.reg.active && w !in s.reg.blind && Validate(tasks) == Accepted && paramsValid)
      && (g.run.threads != [] ==> g.run == S.Launched(tasks))
  {
    InitialOk(s0);
    RunKeeps(s0, run);
    var s := After(s0, run);
    assert PhaseOk(s.reg, s.subs[sub]);
    Runs.RejectedStartsNothing(tasks, paramsValid, []);
    hide Initial, IsRun, After, Validate;
  }

  // The protocol's promises.

  /** Active workers are distinct, checked out and keyed; a pooled worker is not
      active, has no key and cannot start; the pool keeps its limit; and the workers
      that are out are as many as the submissions in progress and the failed ones. */
  lemma {:induction false} ProtocolHolds<W(!new)>(s0: State<W>, run: seq<Step<W>>)
    requires Initial(s0) && IsRun(s0, run)
    ensures var s := After(s0, run);
      && RegistryOk(s.reg) && (forall w :: w in s.reg.active ==> w in s.pool.out)
      && (forall w :: w in s.pool.pool ==> Idle(s.reg, w))
      && P.Bounded(s.pool) && |s.pool.out| == |Tenants(s)|
  {
    InitialOk(s0);
    RunKeeps(s0, run);
  }

  /** `WorkerLimitExceed` is never raised, and a submission is refused a worker exactly when all of them are out. */
  lemma {:induction false} PoolServes<W(!new)>(s0: State<W>, run: seq<Step<W>>, a: Step<W>)
    requires Initial(s0) && IsRun(s0, run) && Enabled(After(s0, run), a)
    ensures var s := After(s0, run);
      && (a.Return? ==> P.PutBack(s.pool, s.subs[a.sub].worker).1)
      && (a.Arrive? ==> (Apply(s, a).subs[a.sub].Refused? <==> |s.pool.out| == s.pool.max))
  {
    InitialOk(s0);
    RunKeeps(s0, run);
    var s := After(s0, run);
    match a
    case Return(sub) => ReturnKeeps(s, sub);
    case Arrive(sub, spare) =>
      assert spare !in s.pool.pool && spare !in s.pool.out;
      P.UseBounded(s.pool, P.Out(spare));
    case _ =>
  }

  ghost predicate OneHolder<W>(r: Registry<W>, k: string) {
    forall v, w :: v in r.active && w in r.active && Holds(r, v, k) && Holds(r, w, k) ==> v == w
  }

  /** Every submission for `k` in the run uses DENY or TERMINATE. */
  predicate Disciplined<W>(run: seq<Step<W>>, k: string) {
    forall i :: 0 <= i < |run| && run[i].Register? && run[i].key == k ==> run[i].policy == DENY || run[i].policy == TERMINATE
  }

  lemma {:induction false} DropOneHolder<W(!new)>(r: Registry<W>, w: W, k: string)
    requires OneHolder(r, k) && RegistryOk(r) && w in r.key
    ensures OneHolder(Dropped(r, w), k)
  {
    DropOk(r, w);
  }

  lemma {:induction false} EnrolOneHolder<W(!new)>(r: Registry<W>, w: W, k': string, policy: Policy, k: string)
    requires RegistryOk(r) && Idle(r, w) && OneHolder(r, k) && (k' == k ==> policy == DENY || policy == TERMINATE)
    ensures OneHolder(Enrolled(r, w, k', policy).0, k)
  {
    EnrolOk(r, w, k', policy);
    hide Enrolled;
  }

  lemma {:induction false} StepOneHolder<W(!new)>(s: State<W>, a: Step<W>, k: string)
    requires Inv(s) && Enabled(s, a) && OneHolder(s.reg, k)
    requires a.Register? && a.key == k ==> a.policy == DENY || a.policy == TERMINATE
    ensures OneHolder(Apply(s, a).reg, k)
  {
    assert forall i :: i in s.subs ==> PhaseOk(s.reg, s.subs[i]);
    match a
    case Register(sub, k', policy) => EnrolOneHolder(s.reg, s.subs[sub].worker, k', policy, k);
    case Deregister(sub) => DropOneHolder(s.reg, s.subs[sub].worker, k);
    case Arrive(sub, spare) => assert forall w :: w in s.reg.active ==> w in s.reg.key;
    case _ =>
  }

  lemma {:induction false} RunOneHolder<W(!new)>(s: State<W>, run: seq<Step<W>>, k: string)
    requires Inv(s) && IsRun(s, run) && OneHolder(s.reg, k) && Disciplined(run, k)
    ensures OneHolder(After(s, run).reg, k)
    decreases |run|
  {
    if run != [] {
      StepKeeps(s, run[0]);
      StepOneHolder(s, run[0], k);
      RunOneHolder(Apply(s, run[0]), run[1..], k);
    }
  }

  /** A key submitted only with DENY or TERMINATE has at most one active holder. */
  lemma {:induction false} AtMostOneHolder<W(!new)>(s0: State<W>, run: seq<Step<W>>, k: string)
    requires Initial(s0) && IsRun(s0, run) && Disciplined(run, k)
    ensures OneHolder(After(s0, run).reg, k)
  {
    InitialOk(s0);
    RunOneHolder(s0, run, k);
  }

  /** A TERMINATE submission takes its key over exactly when every active holder of it
      can be terminated. Then it is the sole active holder, and whoever it displaced
      has lost the key and cannot start; otherwise it ends by exception and its worker
      stays out. */
  lemma {:induction false} TerminateTakesOver<W(!new)>(s0: State<W>, run: seq<Step<W>>, sub: nat, k: string)
    requires Initial(s0) && IsRun(s0, run) && Enabled(After(s0, run), Register(sub, k, TERMINATE))
    ensures var s, s' := After(s0, run), Apply(After(s0, run), Register(sub, k, TERMINATE));
            var w := s.subs[sub].worker;
      && (AllStoppable(s.reg, k) ==>
            && s'.subs[sub] == Registered(w) && w in s'.reg.active && Holds(s'.reg, w, k)
            && (forall v :: v in s'.reg.active && Holds(s'.reg, v, k) ==> v == w)
            && (forall v :: v in s.reg.active && Holds(s.reg, v, k) ==> Idle(s'.reg, v)))
      && (!AllStoppable(s.reg, k) ==> s'.subs[sub] == Failed(w) && w !in s'.reg.active && w in s'.pool.out)
  {
    InitialOk(s0);
    RunKeeps(s0, run);
    var s := After(s0, run);
    assert PhaseOk(s.reg, s.subs[sub]) && s.subs[sub].worker in s.pool.out;
    hide IsRun, After, Initial, Enrolled;
    EnrolOk(s.reg, s.subs[sub].worker, k, TERMINATE);
  }

  /** A server with two pooled workers. */
  const TWO_WORKERS: State<nat> := State(P.Pool([0, 1], [], 2), Registry([], map[0 := None, 1 := None], {}, {}, {}), map[])

  /** Two submissions for one key, the second with TERMINATE while the first is registered and not started. */
  function TooEarly(k: string): seq<Step<nat>> {
    [Arrive(0, 2), Register(0, k, ALLOW), Arrive(1, 2), Register(1, k, TERMINATE)]
  }

  lemma {:induction false} FourSteps<W(!new)>(s0: State<W>, run: seq<Step<W>>, s1: State<W>, s2: State<W>, s3: State<W>, s4: State<W>)
    requires |run| == 4 && Enabled(s0, run[0]) && s1 == Apply(s0, run[0]) && Enabled(s1, run[1]) && s2 == Apply(s1, run[1])
    requires Enabled(s2, run[2]) && s3 == Apply(s2, run[2]) && Enabled(s3, run[3]) && s4 == Apply(s3, run[3])
    ensures IsRun(s0, run) && After(s0, run) == s4
  {
    hide Enabled, Apply;
    assert run[1..][1..] == run[2..] && run[2..][1..] == run[3..] && run[3..][1..] == [];
    assert IsRun(s3, run[3..]) && After(s3, run[3..]) == s4;
    assert IsRun(s2, run[2..]) && After(s2, run[2..]) == s4;
    assert IsRun(s1, run[1..]) && After(s1, run[1..]) == s4;
  }

  lemma {:induction false} FirstTwo(k: string)
    ensures var s1 := State(P.Pool([0], [1], 2), TWO_WORKERS.reg, map[0 := Holding(1)]);
      && Enabled(TWO_WORKERS, Arrive(0, 2)) && Apply(TWO_WORKERS, Arrive(0, 2)) == s1 && Enabled(s1, Register(0, k, ALLOW))
      && Apply(s1, Register(0, k, ALLOW)) == OneRegistered(k)
  {
  }

  /** The first submission is registered and not started. */
  function OneRegistered(k: string): State<nat> {
    State(P.Pool([0], [1], 2), Registry([1], map[0 := None, 1 := Some(k)], {1}, {}, {}), map[0 := Registered(1)])
  }

  /** What is left when the second has failed to terminate it. */
  function LeftBehind(k: string): State<nat> {
    State(P.Pool([], [1, 0], 2), Registry([1], map[0 := Some(k), 1 := Some(k)], {1}, {}, {1}), map[0 := Registered(1), 1 := Failed(0)])
  }

  lemma {:induction false} EvictionFails(k: string)
    ensures var r: Registry<nat> := Registry([1], map[0 := Some(k), 1 := Some(k)], {1}, {}, {});
      HoldersIn(r, r.active, k) == [1] && Evicted(r, [1]) == (r.(blind := {1}), false)
  {
    var r: Registry<nat> := Registry([1], map[0 := Some(k), 1 := Some(k)], {1}, {}, {});
    var none: seq<nat> := [];
    assert [1][..0] == none && HoldersIn(r, none, k) == none && Evicted(r, none) == (r, true);
    assert !Stoppable(r, 1) && r.blind + {1} == {1};
  }

  lemma {:induction false} EnrolmentFails(k: string)
    ensures Enrolled(OneRegistered(k).reg, 0, k, TERMINATE) == (LeftBehind(k).reg, false)
  {
    var r := OneRegistered(k).reg;
    assert r.key[0 := Some(k)] == map[0 := Some(k), 1 := Some(k)];
    var r1 := r.(key := r.key[0 := Some(k)]);
    assert r1 == Registry([1], map[0 := Some(k), 1 := Some(k)], {1}, {}, {});
    EvictionFails(k);
    hide Evicted, HoldersIn;
  }

  lemma {:induction false} LastTwo(k: string)
    ensures var s3 := OneRegistered(k).(pool := P.Pool([], [1, 0], 2), subs := map[0 := Registered(1), 1 := Holding(0)]);
      && Enabled(OneRegistered(k), Arrive(1, 2)) && Apply(OneRegistered(k), Arrive(1, 2)) == s3
      && Enabled(s3, Register(1, k, TERMINATE)) && Apply(s3, Register(1, k, TERMINATE)) == LeftBehind(k)
  {
    EnrolmentFails(k);
    hide Enrolled;
  }

  lemma {:induction false} InitialTwo()
    ensures Initial(TWO_WORKERS)
  {
  }

  /** A takeover that fails: the holder is left active and blind, and the newcomer's worker is lost. */
  lemma {:induction false} TakeoverFails(k: string)
    ensures Initial(TWO_WORKERS) && IsRun(TWO_WORKERS, TooEarly(k)) && After(TWO_WORKERS, TooEarly(k)) == LeftBehind(k)
  {
    FirstTwo(k);
    LastTwo(k);
    hide Initial;
    InitialTwo();
    var s1 := Apply(TWO_WORKERS, Arrive(0, 2));
    var s3 := Apply(OneRegistered(k), Arrive(1, 2));
    hide Apply, Enabled, OneRegistered, LeftBehind;
    FourSteps(TWO_WORKERS, TooEarly(k), s1, OneRegistered(k), s3, LeftBehind(k));
  }

  /** Who can be terminated: an active worker whose submission has started can, one
      that is registered and not started yet can only when its state runs no hooks. */
  lemma {:induction false} StoppableOnceStarted<W(!new)>(s0: State<W>, run: seq<Step<W>>, sub: nat)
    requires Initial(s0) && IsRun(s0, run) && sub in After(s0, run).subs
    ensures var s := After(s0, run);
      && (Undisturbed(s, s.subs[sub]) ==> Stoppable(s.reg, s.subs[sub].worker))
      && (s.subs[sub].Registered? ==> (Stoppable(s.reg, s.subs[sub].worker) <==> s.subs[sub].worker in s.reg.blind))
  {
    InitialOk(s0);
    RunKeeps(s0, run);
    var s := After(s0, run);
    assert PhaseOk(s.reg, s.subs[sub]);
  }

  /** When a worker whose run nobody has terminated is deregistered, which is what
      comes before handing it back, no thread of the run is running and none can appear. */
  lemma {:induction false} DeregisteredQuiescent<W(!new)>(s0: State<W>, run: seq<Step<W>>, sub: nat)
    requires Initial(s0) && IsRun(s0, run) && Enabled(After(s0, run), Deregister(sub))
    requires Undisturbed(After(s0, run), After(s0, run).subs[sub])
    ensures var g := After(s0, run).subs[sub].progress;
      S.Quiescent(g.run) && forall m :: !J.CanMove(g, m)
  {
    InitialOk(s0);
    RunKeeps(s0, run);
    var s := After(s0, run);
    assert PhaseOk(s.reg, s.subs[sub]);
    J.SoundEnds(s.subs[sub].progress);
  }

  lemma {:induction false} BlindStays<W(!new)>(s: State<W>, run: seq<Step<W>>)
    requires Inv(s) && IsRun(s, run)
    ensures s.reg.blind <= After(s, run).reg.blind
    decreases |run|
  {
    if run != [] {
      StepKeeps(s, run[0]);
      BlindStep(s, run[0]);
      BlindStays(Apply(s, run[0]), run[1..]);
    }
  }

  lemma {:induction false} BlindStep<W(!new)>(s: State<W>, a: Step<W>)
    requires Inv(s) && Enabled(s, a)
    ensures s.reg.blind <= Apply(s, a).reg.blind
  {
    if a.Register? {
      assert PhaseOk(s.reg, s.subs[a.sub]);
      EnrolOk(s.reg, s.subs[a.sub].worker, a.key, a.policy);
      hide Enrolled, Inv;
    }
  }

  /** A worker on which `terminate` has raised never starts a thread again, whatever
      happens in between and whatever it is given to run. */
  lemma {:induction false} BlindRunsNothing<W(!new)>(s0: State<W>, before: seq<Step<W>>, run: seq<Step<W>>, sub: nat, tasks: seq<Task>, paramsValid: bool)
    requires Initial(s0) && IsRun(s0, before) && IsRun(After(s0, before), run)
    requires Enabled(After(After(s0, before), run), Start(sub, tasks, paramsValid))
    requires After(After(s0, before), run).subs[sub].worker in After(s0, before).reg.blind
    ensures Apply(After(After(s0, before), run), Start(sub, tasks, paramsValid)).subs[sub].progress.run.threads == []
  {
    InitialOk(s0);
    RunKeeps(s0, before);
    hide Initial, IsRun, After, Inv, Validate, S.Launch, S.Staged, UniqueIds;
    BlindStays(After(s0, before), run);
  }
}
