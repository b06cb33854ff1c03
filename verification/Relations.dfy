// Walks and cycles in a finite relation.
module Relations {
  ghost predicate Distinct<T>(s: seq<T>) {
    forall i, j :: 0 <= i < j < |s| ==> s[i] != s[j]
  }

  lemma {:induction false} EmptyOrInhabited<T>(s: seq<T>)
    ensures s == [] || exists x :: x in s
  {
    assert s == [] || s[0] in s;
  }

  lemma {:induction false} DistinctConcat<T>(a: seq<T>, b: seq<T>)
    requires Distinct(a) && Distinct(b) && forall x :: x in b ==> x !in a
    ensures Distinct(a + b)
  {
    var c := a + b;
    forall i, j | 0 <= i < j < |c| ensures c[i] != c[j] {
      if i < |a| <= j { assert c[j] == b[j - |a|] && c[i] in a; }
    }
  }

  ghost predicate Walk<V>(E: set<(V, V)>, w: seq<V>) {
    |w| > 0 && forall i :: 0 <= i < |w| - 1 ==> (w[i], w[i + 1]) in E
  }

  ghost predicate WalkBetween<V>(E: set<(V, V)>, w: seq<V>, from: V, to: V) {
    Walk(E, w) && w[0] == from && w[|w| - 1] == to
  }

  ghost predicate Reaches<V(!new)>(E: set<(V, V)>, from: V, to: V) {
    exists w :: WalkBetween(E, w, from, to)
  }

  lemma {:induction false} ReachesItself<V(!new)>(E: set<(V, V)>, from: V)
    ensures Reaches(E, from, from)
  {
    assert WalkBetween(E, [from], from, from);
  }

  lemma {:induction false} ReachesFurther<V(!new)>(E: set<(V, V)>, from: V, c: V, p: V)
    requires Reaches(E, from, c) && (c, p) in E
    ensures Reaches(E, from, p)
  {
    var w :| WalkBetween(E, w, from, c);
    assert WalkBetween(E, w + [p], from, p);
  }

  lemma {:induction false} WalkLeaves<V(!new)>(E: set<(V, V)>, w: seq<V>, from: V, to: V)
    requires WalkBetween(E, w, from, to) && from != to
    ensures exists p :: (from, p) in E
  {
    assert (w[0], w[1]) in E;
  }

  /** Without an edge out of it, a vertex reaches nothing else. */
  lemma {:induction false} NoWayOut<V(!new)>(E: set<(V, V)>, from: V, to: V)
    requires from != to && forall c, p :: (c, p) in E ==> c != from
    ensures !Reaches(E, from, to)
  {
    if w :| WalkBetween(E, w, from, to) {
      WalkLeaves(E, w, from, to);
    }
  }

  ghost predicate ClosedWalk<V>(E: set<(V, V)>, w: seq<V>) {
    |w| > 1 && Walk(E, w) && w[0] == w[|w| - 1]
  }

  ghost predicate Cyclic<V(!new)>(E: set<(V, V)>) {
    exists w :: ClosedWalk(E, w)
  }

  /** Some member of `S` is the target of an edge out of `c`. */
  ghost predicate StaysIn<V(!new)>(E: set<(V, V)>, S: set<V>, c: V) {
    exists p :: p in S && (c, p) in E
  }

  /** A nonempty set none of whose members can leave it. */
  ghost predicate Trapped<V(!new)>(E: set<(V, V)>, S: set<V>) {
    S != {} && forall c :: c in S ==> StaysIn(E, S, c)
  }

  lemma {:induction false} DistinctSize<T>(s: seq<T>, S: set<T>)
    requires Distinct(s) && forall i :: 0 <= i < |s| ==> s[i] in S
    ensures |s| <= |S|
  {
    if s != [] {
      var n := |s| - 1;
      DistinctSize(s[..n], S - {s[n]});
    }
  }

  lemma {:induction false} WalkInside<V(!new)>(E: set<(V, V)>, S: set<V>, n: nat) returns (w: seq<V>)
    requires Trapped(E, S)
    ensures Walk(E, w) && |w| == n + 1
    ensures forall i :: 0 <= i < |w| ==> w[i] in S
  {
    if n == 0 {
      var c :| c in S;
      w := [c];
    } else {
      var v := WalkInside(E, S, n - 1);
      assert StaysIn(E, S, v[n - 1]);
      var p :| p in S && (v[n - 1], p) in E;
      w := v + [p];
    }
  }

  /** The vertices of a closed walk wait for each other. */
  lemma {:induction false} ClosedWalkTraps<V(!new)>(E: set<(V, V)>, w: seq<V>)
    requires ClosedWalk(E, w)
    ensures Trapped(E, set i | 0 <= i < |w| :: w[i])
  {
    var S := set i | 0 <= i < |w| :: w[i];
    assert w[0] in S;
    forall c | c in S
      ensures StaysIn(E, S, c)
    {
      var i :| 0 <= i < |w| && w[i] == c;
      var k := if i == |w| - 1 then 0 else i;
      assert (w[k], w[k + 1]) in E && w[k + 1] in S;
    }
  }

  /** Following edges inside a trapped set must repeat a vertex. */
  lemma {:induction false} TrappedHasClosedWalk<V(!new)>(E: set<(V, V)>, S: set<V>)
    requires Trapped(E, S)
    ensures Cyclic(E)
  {
    var w := WalkInside(E, S, |S|);
    if Distinct(w) {
      DistinctSize(w, S);
    }
    var i, j :| 0 <= i < j < |w| && w[i] == w[j];
    assert ClosedWalk(E, w[i..j + 1]);
  }

  /** A finite relation has a closed walk exactly when some set of vertices traps its members. */
  lemma {:induction false} CyclicIffTrapped<V(!new)>(E: set<(V, V)>)
    ensures Cyclic(E) <==> exists S :: Trapped(E, S)
  {
    if Cyclic(E) {
      var w :| ClosedWalk(E, w);
      ClosedWalkTraps(E, w);
    }
    if S :| Trapped(E, S) {
      TrappedHasClosedWalk(E, S);
    }
  }

  /** Ranks that grow along every edge rule out closed walks. */
  lemma {:induction false} RankedNotCyclic<V(!new)>(E: set<(V, V)>, rank: map<V, int>)
    requires forall a, b :: (a, b) in E ==> a in rank && b in rank && rank[a] < rank[b]
    ensures !Cyclic(E)
  {
    if w :| ClosedWalk(E, w) {
      RankGrows(E, rank, w);
    }
  }

  lemma {:induction false} RankGrows<V(!new)>(E: set<(V, V)>, rank: map<V, int>, w: seq<V>)
    requires forall a, b :: (a, b) in E ==> a in rank && b in rank && rank[a] < rank[b]
    requires |w| > 1 && Walk(E, w)
    ensures w[0] in rank && w[|w| - 1] in rank && rank[w[0]] < rank[w[|w| - 1]]
  {
    var n := |w| - 1;
    assert (w[n - 1], w[n]) in E;
    if n > 1 {
      RankGrows(E, rank, w[..n]);
    }
  }
}
