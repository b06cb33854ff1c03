// The evaluator of conditional expressions.
module Conditions {
  /** Booleans, integers and floats compare as numbers. */
  datatype Value = NoneValue | Num(n: real) | Str(s: string) | Bytes(b: seq<nat>)

  datatype Operand = Literal(value: Value) | Reference(ref: string) | Unrecognised

  datatype Comparator = EQ | NE | GT | LT | GE | LE

  datatype Connective = AND | OR | XOR | NAND | NOR | XNOR

  datatype Condition =
    | Compare(op: Comparator, left: Operand, right: Operand)
    | In(needle: Operand, haystack: seq<Operand>)
    | Not(operand: Condition)
    | Logical(connective: Connective, operands: seq<Condition>)

  /** `EvalError` is the evaluator's own error for an operand that cannot be resolved;
      `TypeMismatch` the TypeError of an ordering between different types. */
  datatype Outcome = Val(b: bool) | EvalError | TypeMismatch

  type Env = map<string, Value>

  datatype Resolved = Known(value: Value) | Unresolvable

  function Resolve(env: Env, o: Operand): Resolved {
    match o
    case Literal(v) => Known(v)
    case Reference(r) => if r in env then Known(env[r]) else Unresolvable
    case Unrecognised => Known(NoneValue)
  }

  function LexLess(a: seq<int>, b: seq<int>): bool {
    if b == [] then false else if a == [] then true
    else a[0] < b[0] || (a[0] == b[0] && LexLess(a[1..], b[1..]))
  }

  function Codes(s: string): seq<int> {
    seq(|s|, i requires 0 <= i < |s| => s[i] as int)
  }

  predicate Ordered(a: Value, b: Value) {
    (a.Num? && b.Num?) || (a.Str? && b.Str?) || (a.Bytes? && b.Bytes?)
  }

  predicate Less(a: Value, b: Value)
    requires Ordered(a, b)
  {
    match a
    case Num(n) => n < b.n
    case Str(s) => LexLess(Codes(s), Codes(b.s))
    case Bytes(s) => LexLess(s, b.b)
  }

  function Compared(op: Comparator, a: Value, b: Value): Outcome {
    if op == EQ then Val(a == b)
    else if op == NE then Val(a != b)
    else if !Ordered(a, b) then TypeMismatch
    else if op == GT then Val(Less(b, a))
    else if op == LT then Val(Less(a, b))
    else if op == GE then Val(!Less(a, b))
    else Val(!Less(b, a))
  }

  predicate Resolvable(env: Env, os: seq<Operand>) {
    forall i :: 0 <= i < |os| ==> Resolve(env, os[i]).Known?
  }

  /** The value of a condition without subconditions. */
  function LeafValue(env: Env, c: Condition): Outcome
    requires c.Compare? || c.In?
  {
    match c
    case Compare(op, l, r) =>
      if Resolve(env, l).Known? && Resolve(env, r).Known? then Compared(op, Resolve(env, l).value, Resolve(env, r).value) else EvalError
    case In(needle, haystack) =>
      if Resolvable(env, [needle] + haystack)
      then Val(exists i :: 0 <= i < |haystack| && Resolve(env, haystack[i]) == Resolve(env, needle)) else EvalError
  }

  function Negated(o: Outcome): Outcome {
    if o.Val? then Val(!o.b) else o
  }

  predicate All(bs: seq<bool>) {
    forall i :: 0 <= i < |bs| ==> bs[i]
  }

  predicate None(bs: seq<bool>) {
    forall i :: 0 <= i < |bs| ==> !bs[i]
  }

  function Connected(c: Connective, bs: seq<bool>): bool {
    match c
    case AND => All(bs)
    case OR => !None(bs)
    case XOR => !All(bs) && !None(bs)
    case NAND => !All(bs)
    case NOR => None(bs)
    case XNOR => All(bs) || None(bs)
  }

  /** The list of evaluations, or the first error met while building it. */
  datatype Evaluations = Values(bs: seq<bool>) | Broken(error: Outcome)

  function Eval(env: Env, c: Condition): Outcome
    decreases c, 1
  {
    match c
    case Not(d) => Negated(Eval(env, d))
    case Logical(k, cs) =>
      (match EvalEach(env, cs) case Values(bs) => Val(Connected(k, bs)) case Broken(e) => e)
    case _ => LeafValue(env, c)
  }

  function EvalEach(env: Env, cs: seq<Condition>): Evaluations
    decreases cs, 0
  {
    if cs == [] then Values([])
    else
      match EvalEach(env, cs[..|cs| - 1])
      case Broken(e) => Broken(e)
      case Values(bs) =>
        match Eval(env, cs[|cs| - 1])
        case Val(b) => Values(bs + [b])
        case e => Broken(e)
  }

  // The evaluator's methods.

  method ResolveAll(env: Env, os: seq<Operand>) returns (ok: bool, vs: seq<Value>)
    ensures ok <==> Resolvable(env, os)
    ensures ok ==> |vs| == |os| && forall i :: 0 <= i < |os| ==> Resolve(env, os[i]) == Known(vs[i])
  {
    vs := [];
    for i := 0 to |os|
      invariant |vs| == i && forall k :: 0 <= k < i ==> Resolve(env, os[k]) == Known(vs[k])
    {
      var r := Resolve(env, os[i]);
      if r.Unresolvable? {
        return false, vs;
      }
      vs := vs + [r.value];
    }
    return true, vs;
  }

  method Evaluate(env: Env, c: Condition) returns (o: Outcome)
    ensures o == Eval(env, c)
    decreases c, 1
  {
    match c
    case Compare(op, l, r) =>
      assert Resolvable(env, [l, r]) <==> Resolve(env, [l, r][0]).Known? && Resolve(env, [l, r][1]).Known?;
      var ok, vs := ResolveAll(env, [l, r]);
      if !ok { return EvalError; }
      assert Resolve(env, [l, r][0]) == Known(vs[0]) && Resolve(env, [l, r][1]) == Known(vs[1]);
      return Compared(op, vs[0], vs[1]);
    case In(needle, haystack) =>
      var ok, vs := ResolveAll(env, [needle] + haystack);
      if !ok { return EvalError; }
      assert Resolve(env, ([needle] + haystack)[0]) == Known(vs[0]);
      var found := vs[0] in vs[1..];
      assert forall i :: 0 <= i < |haystack| ==> Resolve(env, haystack[i]) == Known(vs[1..][i]) by {
        forall i | 0 <= i < |haystack| ensures Resolve(env, haystack[i]) == Known(vs[1..][i]) {
          assert ([needle] + haystack)[i + 1] == haystack[i];
        }
      }
      return Val(found);
    case Not(d) =>
      o := Evaluate(env, d);
      return Negated(o);
    case Logical(k, cs) =>
      var r := EvaluateEach(env, cs);
      match r {
        case Values(bs) => return Val(Connected(k, bs));
        case Broken(e) => return e;
      }
  }

  /** The loop of `_logical` and of `evaluate_all`: every operand is evaluated before any is looked at. */
  method EvaluateEach(env: Env, cs: seq<Condition>) returns (r: Evaluations)
    ensures r == EvalEach(env, cs)
    decreases cs, 0
  {
    var bs := [];
    for i := 0 to |cs|
      invariant EvalEach(env, cs[..i]) == Values(bs)
    {
      assert cs[..i + 1][..i] == cs[..i];
      var o := Evaluate(env, cs[i]);
      match o {
        case Val(b) => bs := bs + [b];
        case _ =>
          BrokenStays(env, cs, i + 1);
          return Broken(o);
      }
    }
    assert cs[..|cs|] == cs;
    return Values(bs);
  }

  lemma {:induction false} BrokenStays(env: Env, cs: seq<Condition>, n: nat)
    requires n <= |cs| && EvalEach(env, cs[..n]).Broken?
    ensures EvalEach(env, cs) == EvalEach(env, cs[..n])
    decreases |cs|
  {
    if n < |cs| {
      assert cs[..|cs| - 1][..n] == cs[..n];
      BrokenStays(env, cs[..|cs| - 1], n);
    } else {
      assert cs[..n] == cs;
    }
  }

  method EvaluateAll(env: Env, cs: seq<Condition>) returns (o: Outcome)
    ensures o == Eval(env, Logical(AND, cs))
  {
    var r := EvaluateEach(env, cs);
    match r {
      case Values(bs) => return Val(All(bs));
      case Broken(e) => return e;
    }
  }

  // Errors: evaluation is eager.

  /** The leaves of a condition, from left to right. */
  function Leaves(c: Condition): seq<Condition>
    decreases c, 1
  {
    match c
    case Not(d) => Leaves(d)
    case Logical(_, cs) => LeavesEach(cs)
    case _ => [c]
  }

  function LeavesEach(cs: seq<Condition>): seq<Condition>
    decreases cs, 0
  {
    if cs == [] then [] else LeavesEach(cs[..|cs| - 1]) + Leaves(cs[|cs| - 1])
  }

  predicate IsLeaf(c: Condition) {
    c.Compare? || c.In?
  }

  /** The error of the first leaf that has one, if any leaf has. */
  function FirstError(env: Env, ls: seq<Condition>): (r: Evaluations)
    requires forall i :: 0 <= i < |ls| ==> IsLeaf(ls[i])
  {
    if ls == [] then Values([])
    else
      assert IsLeaf(ls[0]);
      if !LeafValue(env, ls[0]).Val? then Broken(LeafValue(env, ls[0])) else FirstError(env, ls[1..])
  }

  ghost predicate AllLeaves(ls: seq<Condition>) {
    forall i :: 0 <= i < |ls| ==> IsLeaf(ls[i])
  }

  lemma {:induction false} LeavesAreLeaves(c: Condition)
    ensures AllLeaves(Leaves(c))
    decreases c, 1
  {
    match c
    case Not(d) => LeavesAreLeaves(d);
    case Logical(_, cs) => LeavesEachAreLeaves(cs);
    case _ =>
  }

  lemma {:induction false} LeavesEachAreLeaves(cs: seq<Condition>)
    ensures AllLeaves(LeavesEach(cs))
    decreases cs, 0
  {
    if cs != [] {
      LeavesEachAreLeaves(cs[..|cs| - 1]);
      LeavesAreLeaves(cs[|cs| - 1]);
    }
  }

  lemma {:induction false} FirstErrorAppend(env: Env, a: seq<Condition>, b: seq<Condition>)
    requires AllLeaves(a) && AllLeaves(b) && AllLeaves(a + b)
    ensures FirstError(env, a + b) == if FirstError(env, a).Broken? then FirstError(env, a) else FirstError(env, b)
  {
    if a == [] {
      assert a + b == b;
    } else {
      assert (a + b)[1..] == a[1..] + b && IsLeaf(a[0]) && (a + b)[0] == a[0];
      FirstErrorAppend(env, a[1..], b);
    }
  }

  /** Whatever the structure, evaluation fails exactly when some leaf does, and with
      the error of the leftmost failing leaf. */
  lemma {:induction false} FailsAsFirstLeaf(env: Env, c: Condition)
    ensures AllLeaves(Leaves(c))
    ensures match FirstError(env, Leaves(c)) case Values(_) => Eval(env, c).Val? case Broken(e) => Eval(env, c) == e && !e.Val?
    decreases c, 1
  {
    LeavesAreLeaves(c);
    match c
    case Not(d) => FailsAsFirstLeaf(env, d);
    case Logical(_, cs) => EachFailsAsFirstLeaf(env, cs);
    case _ => assert [c][1..] == [];
  }

  lemma {:induction false} EachFailsAsFirstLeaf(env: Env, cs: seq<Condition>)
    ensures AllLeaves(LeavesEach(cs))
    ensures match FirstError(env, LeavesEach(cs))
      case Values(_) => EvalEach(env, cs).Values?
      case Broken(e) => EvalEach(env, cs) == Broken(e) && !e.Val?
    decreases cs, 0
  {
    LeavesEachAreLeaves(cs);
    if cs != [] {
      var n := |cs| - 1;
      EachFailsAsFirstLeaf(env, cs[..n]);
      FailsAsFirstLeaf(env, cs[n]);
      FirstErrorAppend(env, LeavesEach(cs[..n]), Leaves(cs[n]));
    }
  }

  // Meaning of the leaves.

  /** The value an operand stands for. A reference to nothing stands for no value. */
  ghost predicate Denotes(env: Env, o: Operand, v: Value) {
    match o
    case Literal(u) => v == u
    case Reference(r) => r in env && v == env[r]
    case Unrecognised => v == NoneValue
  }

  /** Order by the first position that differs, a proper prefix coming first. */
  ghost predicate Before(a: seq<int>, b: seq<int>) {
    exists i: nat :: Decides(a, b, i)
  }

  ghost predicate Decides(a: seq<int>, b: seq<int>, i: nat) {
    i <= |a| && i < |b| && a[..i] == b[..i] && (i == |a| || a[i] < b[i])
  }

  ghost predicate BeforeString(a: string, b: string) {
    exists i: nat :: DecidesString(a, b, i)
  }

  ghost predicate DecidesString(a: string, b: string, i: nat) {
    i <= |a| && i < |b| && a[..i] == b[..i] && (i == |a| || a[i] < b[i])
  }

  ghost predicate Smaller(a: Value, b: Value) {
    || (a.Num? && b.Num? && a.n < b.n)
    || (a.Str? && b.Str? && BeforeString(a.s, b.s))
    || (a.Bytes? && b.Bytes? && Before(a.b, b.b))
  }

  lemma {:induction false} LexLessMeans(a: seq<int>, b: seq<int>)
    ensures LexLess(a, b) <==> Before(a, b)
  {
    if a == [] {
      assert b != [] ==> Decides(a, b, 0);
    } else if b != [] {
      LexLessMeans(a[1..], b[1..]);
      if a[0] < b[0] {
        assert Decides(a, b, 0);
      } else if a[0] == b[0] {
        if i: nat :| Decides(a[1..], b[1..], i) {
          assert a[..i + 1] == [a[0]] + a[1..][..i] && b[..i + 1] == [b[0]] + b[1..][..i];
          assert Decides(a, b, i + 1);
        }
      }
      if i: nat :| Decides(a, b, i) {
        DecidesLater(a, b, i);
      }
    }
  }

  lemma {:induction false} DecidesLater(a: seq<int>, b: seq<int>, i: nat)
    requires a != [] && Decides(a, b, i)
    ensures a[0] < b[0] || (a[0] == b[0] && Before(a[1..], b[1..]))
  {
    if i > 0 {
      assert a[..i][0] == b[..i][0];
      assert a[1..][..i - 1] == a[..i][1..] && b[1..][..i - 1] == b[..i][1..];
      assert Decides(a[1..], b[1..], i - 1);
    }
  }

  /** Two different texts come one before the other, and not the other way round. */
  lemma {:induction false} LexTotal(a: seq<int>, b: seq<int>)
    ensures !LexLess(a, b) <==> LexLess(b, a) || a == b
  {
    if a != [] && b != [] {
      LexTotal(a[1..], b[1..]);
      assert a == [a[0]] + a[1..] && b == [b[0]] + b[1..];
    }
  }

  lemma {:induction false} CodesMean(a: string, b: string)
    ensures Before(Codes(a), Codes(b)) <==> BeforeString(a, b)
    ensures Codes(a) == Codes(b) <==> a == b
  {
    forall i: nat ensures Decides(Codes(a), Codes(b), i) <==> DecidesString(a, b, i) {
      if i <= |a| && i < |b| {
        CodesPrefix(a, b, i);
      }
    }
    if |a| == |b| {
      CodesPrefix(a, b, |a|);
      assert a[..|a|] == a && b[..|a|] == b && Codes(a)[..|a|] == Codes(a) && Codes(b)[..|a|] == Codes(b);
    }
  }

  lemma {:induction false} CodesPrefix(a: string, b: string, i: nat)
    requires i <= |a| && i <= |b|
    ensures Codes(a)[..i] == Codes(b)[..i] <==> a[..i] == b[..i]
  {
    if Codes(a)[..i] == Codes(b)[..i] {
      forall k | 0 <= k < i ensures a[k] == b[k] {
        assert Codes(a)[..i][k] == a[k] as int && Codes(b)[..i][k] == b[k] as int;
      }
    }
    if a[..i] == b[..i] {
      forall k | 0 <= k < i ensures Codes(a)[k] == Codes(b)[k] {
        assert a[..i][k] == b[..i][k];
      }
    }
  }

  lemma {:induction false} LessMeans(a: Value, b: Value)
    requires Ordered(a, b)
    ensures Less(a, b) <==> Smaller(a, b)
    ensures !Less(a, b) <==> Smaller(b, a) || a == b
  {
    if a.Str? {
      CodesMean(a.s, b.s);
      CodesMean(b.s, a.s);
      LexLessMeans(Codes(a.s), Codes(b.s));
      LexLessMeans(Codes(b.s), Codes(a.s));
      LexTotal(Codes(a.s), Codes(b.s));
    } else if a.Bytes? {
      LexLessMeans(a.b, b.b);
      LexLessMeans(b.b, a.b);
      LexTotal(a.b, b.b);
    }
  }

  /** What the six comparisons mean for operands that stand for `a` and `b`: an ordering
      needs two numbers, two strings or two byte strings. */
  lemma {:induction false} ComparisonMeans(env: Env, op: Comparator, l: Operand, r: Operand, a: Value, b: Value)
    requires Denotes(env, l, a) && Denotes(env, r, b)
    ensures var comparable := (a.Num? && b.Num?) || (a.Str? && b.Str?) || (a.Bytes? && b.Bytes?);
      Eval(env, Compare(op, l, r)) == match op
        case EQ => Val(a == b)
        case NE => Val(a != b)
        case GT => if comparable then Val(Smaller(b, a)) else TypeMismatch
        case LT => if comparable then Val(Smaller(a, b)) else TypeMismatch
        case GE => if comparable then Val(Smaller(b, a) || a == b) else TypeMismatch
        case LE => if comparable then Val(Smaller(a, b) || a == b) else TypeMismatch
  {
    if Ordered(a, b) {
      LessMeans(a, b);
      LessMeans(b, a);
    }
    hide Less, Smaller;
  }

  /** A membership holds when some operand of the haystack stands for the needle's value. */
  lemma {:induction false} MembershipMeans(env: Env, needle: Operand, haystack: seq<Operand>, v: Value, vs: seq<Value>)
    requires Denotes(env, needle, v) && |vs| == |haystack| && forall i :: 0 <= i < |vs| ==> Denotes(env, haystack[i], vs[i])
    ensures Eval(env, In(needle, haystack)) == Val(v in vs)
  {
    var all := [needle] + haystack;
    forall i | 0 <= i < |all| ensures Resolve(env, all[i]) == Known(if i == 0 then v else vs[i - 1]) {
      assert i > 0 ==> all[i] == haystack[i - 1] && Denotes(env, haystack[i - 1], vs[i - 1]);
    }
    assert forall i :: 0 <= i < |haystack| ==> Resolve(env, haystack[i]) == Known(vs[i]);
  }

  /** A leaf is an evaluation error exactly when one of its operands stands for nothing. */
  lemma {:induction false} UnresolvedIsError(env: Env, c: Condition)
    requires IsLeaf(c)
    ensures Eval(env, c) == EvalError <==> exists o :: o in OperandsOf(c) && forall v :: !Denotes(env, o, v)
  {
    forall o ensures Resolve(env, o).Unresolvable? <==> forall v :: !Denotes(env, o, v) {
      assert Resolve(env, o).Known? ==> Denotes(env, o, Resolve(env, o).value);
    }
    var os := OperandsOf(c);
    if c.Compare? {
      assert c.left in os && c.right in os;
    } else {
      assert !Resolvable(env, os) ==> exists o :: o in os && Resolve(env, o).Unresolvable?;
      assert forall o :: o in os ==> exists i :: 0 <= i < |os| && os[i] == o;
    }
  }

  function OperandsOf(c: Condition): seq<Operand>
    requires IsLeaf(c)
  {
    match c
    case Compare(_, l, r) => [l, r]
    case In(needle, haystack) => [needle] + haystack
  }

  /** Negation, of the value or of the error. */
  lemma {:induction false} NotMeans(env: Env, c: Condition)
    ensures match Eval(env, c) case Val(b) => Eval(env, Not(c)) == Val(!b) case e => Eval(env, Not(c)) == e
  {
  }

  // Meaning of the connectives.

  lemma {:induction false} EachAt(env: Env, cs: seq<Condition>)
    ensures EvalEach(env, cs).Values? <==> forall i :: 0 <= i < |cs| ==> Eval(env, cs[i]).Val?
    ensures EvalEach(env, cs).Values? ==>
      |EvalEach(env, cs).bs| == |cs| && forall i :: 0 <= i < |cs| ==> Eval(env, cs[i]) == Val(EvalEach(env, cs).bs[i])
  {
    if cs != [] {
      var n := |cs| - 1;
      EachAt(env, cs[..n]);
      forall i | 0 <= i < n ensures cs[..n][i] == cs[i] {}
      hide Eval;
    }
  }

  ghost predicate AllTrue(env: Env, cs: seq<Condition>) {
    forall c :: c in cs ==> Eval(env, c) == Val(true)
  }

  ghost predicate AllFalse(env: Env, cs: seq<Condition>) {
    forall c :: c in cs ==> Eval(env, c) == Val(false)
  }

  ghost predicate AllEvaluate(env: Env, cs: seq<Condition>) {
    forall c :: c in cs ==> Eval(env, c).Val?
  }

  /** A connective over operands that all evaluate depends only on whether all of
      them hold and whether none does; xor is "mixed". */
  lemma {:induction false} ConnectiveMeans(env: Env, k: Connective, cs: seq<Condition>)
    ensures Eval(env, Logical(k, cs)).Val? <==> AllEvaluate(env, cs)
    ensures AllEvaluate(env, cs) ==> Eval(env, Logical(k, cs)) == Val(match k
      case AND => AllTrue(env, cs)
      case OR => !AllFalse(env, cs)
      case XOR => !AllTrue(env, cs) && !AllFalse(env, cs)
      case NAND => !AllTrue(env, cs)
      case NOR => AllFalse(env, cs)
      case XNOR => AllTrue(env, cs) || AllFalse(env, cs))
  {
    EachAt(env, cs);
    NotAValue(env, cs);
    if AllEvaluate(env, cs) {
      var bs := EvalEach(env, cs).bs;
      assert All(bs) <==> AllTrue(env, cs);
      assert None(bs) <==> AllFalse(env, cs);
    }
  }

  lemma {:induction false} NotAValue(env: Env, cs: seq<Condition>)
    ensures EvalEach(env, cs).Broken? ==> !EvalEach(env, cs).error.Val?
  {
    EachFailsAsFirstLeaf(env, cs);
  }

  /** The order of the operands matters neither to the value nor to whether there is one. */
  lemma {:induction false} OrderIrrelevant(env: Env, k: Connective, cs: seq<Condition>, ds: seq<Condition>)
    requires multiset(cs) == multiset(ds)
    ensures Eval(env, Logical(k, cs)).Val? <==> Eval(env, Logical(k, ds)).Val?
    ensures Eval(env, Logical(k, cs)).Val? ==> Eval(env, Logical(k, cs)) == Eval(env, Logical(k, ds))
  {
    ConnectiveMeans(env, k, cs);
    ConnectiveMeans(env, k, ds);
    forall c ensures c in cs <==> c in ds {
      assert c in multiset(cs) <==> c in multiset(ds);
    }
  }

  // Negation.

  /** The connective that takes the place of `k` (or of its negation), and whether its operands are negated. */
  function Dual(k: Connective, negate: bool): (Connective, bool) {
    match k
    case AND => (if negate then OR else AND, negate)
    case OR => (if negate then AND else OR, negate)
    case NAND => (if negate then AND else OR, !negate)
    case NOR => (if negate then OR else AND, !negate)
    case XOR => (if negate then XNOR else XOR, false)
    case XNOR => (if negate then XOR else XNOR, false)
  }

  /** `c` (or its negation) with every negation pushed down to the leaves. */
  function Pushed(c: Condition, negate: bool): Condition
    decreases c, 1
  {
    match c
    case Not(d) => Pushed(d, !negate)
    case Logical(k, cs) => Logical(Dual(k, negate).0, PushedEach(cs, Dual(k, negate).1))
    case _ => if negate then Not(c) else c
  }

  function PushedEach(cs: seq<Condition>, negate: bool): (ds: seq<Condition>)
    ensures |ds| == |cs|
    decreases cs, 0
  {
    if cs == [] then [] else PushedEach(cs[..|cs| - 1], negate) + [Pushed(cs[|cs| - 1], negate)]
  }

  ghost predicate NegatedAtLeaves(c: Condition)
    decreases c, 1
  {
    match c
    case Not(d) => IsLeaf(d)
    case Logical(k, cs) => k != NAND && k != NOR && NegatedAtLeavesEach(cs)
    case _ => true
  }

  ghost predicate NegatedAtLeavesEach(cs: seq<Condition>)
    decreases cs, 0
  {
    cs == [] || (NegatedAtLeavesEach(cs[..|cs| - 1]) && NegatedAtLeaves(cs[|cs| - 1]))
  }

  function Flipped(bs: seq<bool>): seq<bool> {
    seq(|bs|, i requires 0 <= i < |bs| => !bs[i])
  }

  function Flip(r: Evaluations, negate: bool): Evaluations {
    if negate && r.Values? then Values(Flipped(r.bs)) else r
  }

  lemma {:induction false} DualConnects(k: Connective, negate: bool, bs: seq<bool>)
    ensures var (k', n) := Dual(k, negate);
      Connected(k', if n then Flipped(bs) else bs) == (if negate then !Connected(k, bs) else Connected(k, bs))
  {
    var fs := Flipped(bs);
    assert forall i :: 0 <= i < |bs| ==> fs[i] == !bs[i];
    assert All(fs) <==> None(bs);
    assert None(fs) <==> All(bs);
  }

  /** Pushing negations inward leaves them only on leaves. */
  lemma {:induction false} PushedToLeaves(c: Condition, negate: bool)
    ensures NegatedAtLeaves(Pushed(c, negate))
    decreases c, 1
  {
    match c
    case Not(d) => PushedToLeaves(d, !negate);
    case Logical(k, cs) => PushedEachToLeaves(cs, Dual(k, negate).1);
    case _ =>
  }

  lemma {:induction false} PushedEachToLeaves(cs: seq<Condition>, negate: bool)
    ensures NegatedAtLeavesEach(PushedEach(cs, negate))
    decreases cs, 0
  {
    if cs != [] {
      var n := |cs| - 1;
      PushedEachToLeaves(cs[..n], negate);
      PushedToLeaves(cs[n], negate);
      var front, last := PushedEach(cs[..n], negate), Pushed(cs[n], negate);
      assert PushedEach(cs, negate) == front + [last] && (front + [last])[..|front|] == front;
    }
  }

  lemma {:induction false} LogicalPushed(env: Env, k: Connective, cs: seq<Condition>, negate: bool)
    requires EvalEach(env, PushedEach(cs, Dual(k, negate).1)) == Flip(EvalEach(env, cs), Dual(k, negate).1)
    ensures Eval(env, Pushed(Logical(k, cs), negate)) ==
      (if negate then Negated(Eval(env, Logical(k, cs))) else Eval(env, Logical(k, cs)))
  {
    NotAValue(env, cs);
    var r := EvalEach(env, cs);
    if r.Values? {
      DualConnects(k, negate, r.bs);
    }
    hide Connected, Flipped, Dual, PushedEach;
  }

  /** Pushing negations inward changes neither the value nor the error of any condition. */
  lemma {:induction false} PushingPreserves(env: Env, c: Condition, negate: bool)
    ensures Eval(env, Pushed(c, negate)) == (if negate then Negated(Eval(env, c)) else Eval(env, c))
    decreases c, 1
  {
    match c
    case Not(d) => PushingPreserves(env, d, !negate);
    case Logical(k, cs) =>
      PushingEachPreserves(env, cs, Dual(k, negate).1);
      LogicalPushed(env, k, cs, negate);
    case _ =>
  }

  lemma {:induction false} EvalSnoc(env: Env, cs: seq<Condition>, c: Condition)
    ensures EvalEach(env, cs + [c]) ==
      match EvalEach(env, cs)
      case Broken(e) => Broken(e)
      case Values(bs) => (match Eval(env, c) case Val(b) => Values(bs + [b]) case e => Broken(e))
  {
    assert (cs + [c])[..|cs|] == cs;
  }

  lemma {:induction false} FlipSnoc(bs: seq<bool>, b: bool)
    ensures Flipped(bs + [b]) == Flipped(bs) + [!b]
  {
  }

  lemma {:induction false} PushedSnoc(cs: seq<Condition>, c: Condition, negate: bool)
    ensures PushedEach(cs + [c], negate) == PushedEach(cs, negate) + [Pushed(c, negate)]
  {
    assert (cs + [c])[..|cs|] == cs;
  }

  lemma {:induction false} PushingEachPreserves(env: Env, cs: seq<Condition>, negate: bool)
    ensures EvalEach(env, PushedEach(cs, negate)) == Flip(EvalEach(env, cs), negate)
    decreases cs, 0
  {
    if cs != [] {
      var front, last := cs[..|cs| - 1], cs[|cs| - 1];
      PushingEachPreserves(env, front, negate);
      PushingPreserves(env, last, negate);
      assert cs == front + [last];
      PushedSnoc(front, last, negate);
      EvalSnoc(env, front, last);
      EvalSnoc(env, PushedEach(front, negate), Pushed(last, negate));
      if EvalEach(env, front).Values? && Eval(env, last).Val? {
        FlipSnoc(EvalEach(env, front).bs, Eval(env, last).b);
      }
      hide Eval, EvalEach, Pushed, PushedEach, Flipped;
    }
  }
}
