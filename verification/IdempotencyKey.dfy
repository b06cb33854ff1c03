// The key under which a submission is registered.
module IdempotencyKey {
  import opened Text
  import opened Wrappers

  /** What key resolution reads of a request: attributes of its parts, and its args with their values. */
  datatype Request = Request(fields: map<(string, string), string>, args: map<string, Option<string>>, pipelineId: string)

  /** The `idempotency_key` of the request's meta object. */
  datatype KeySpec = Fixed(key: string) | Constraints(constraints: seq<string>)

  /** `ValueError` is raised by a constraint that is not of the form `obj.prop`; nothing catches it. */
  datatype KeyResult = Key(key: string) | ValueError

  /** The value a constraint refers to, None when there is none. */
  function Lookup(r: Request, obj: string, prop: string): Option<string> {
    if obj == "args" then (if prop in r.args then r.args[prop] else None)
    else if (obj, prop) in r.fields then Some(r.fields[(obj, prop)]) else None
  }

  datatype Parts = Found(parts: seq<string>) | Missing | Malformed

  /** The values of the constraints, or what is wrong with the first bad one. */
  function PartsOf(r: Request, cs: seq<string>): (ps: Parts)
    ensures ps.Found? ==> |ps.parts| == |cs|
  {
    if cs == [] then Found([])
    else
      match PartsOf(r, cs[..|cs| - 1])
      case Found(ps) =>
        var split := Split(cs[|cs| - 1], '.');
        if |split| != 2 then Malformed
        else (match Lookup(r, split[0], split[1]) case None => Missing case Some(v) => Found(ps + [v]))
      case bad => bad
  }

  function DropLeadingEmpty(parts: seq<string>): seq<string> {
    if parts != [] && parts[0] == "" then DropLeadingEmpty(parts[1..]) else parts
  }

  function KeyOf(r: Request, spec: KeySpec): KeyResult {
    match spec
    case Fixed(k) => Key(k)
    case Constraints(cs) =>
      if cs == [] then Key(r.pipelineId)
      else match PartsOf(r, cs)
      case Found(parts) => Key(Join(DropLeadingEmpty(parts), '.'))
      case Missing => Key(r.pipelineId)
      case Malformed => ValueError
  }

  lemma {:induction false} DropSnoc(parts: seq<string>, p: string)
    ensures DropLeadingEmpty(parts + [p]) ==
      if DropLeadingEmpty(parts) == [] then (if p == "" then [] else [p]) else DropLeadingEmpty(parts) + [p]
  {
    if parts == [] {
      assert [] + [p] == [p] && [p][1..] == [];
    } else {
      assert (parts + [p])[1..] == parts[1..] + [p];
      if parts[0] == "" {
        DropSnoc(parts[1..], p);
      }
    }
  }

  lemma {:induction false} JoinEmpty(parts: seq<string>)
    requires parts != [] ==> parts[0] != ""
    ensures Join(parts, '.') == "" <==> parts == []
  {
    if |parts| > 1 {
      JoinEmpty(parts[..|parts| - 1]);
    }
  }

  lemma {:induction false} DropStartsFull(parts: seq<string>)
    ensures DropLeadingEmpty(parts) != [] ==> DropLeadingEmpty(parts)[0] != ""
  {
    if parts != [] && parts[0] == "" {
      DropStartsFull(parts[1..]);
    }
  }

  lemma {:induction false} BadStays(r: Request, cs: seq<string>, n: nat)
    requires n <= |cs| && !PartsOf(r, cs[..n]).Found?
    ensures PartsOf(r, cs) == PartsOf(r, cs[..n])
    decreases |cs|
  {
    if n < |cs| {
      assert cs[..|cs| - 1][..n] == cs[..n];
      BadStays(r, cs[..|cs| - 1], n);
    } else {
      assert cs[..n] == cs;
    }
  }

  /** One more part in the key. */
  lemma {:induction false} JoinNext(parts: seq<string>, p: string)
    ensures var key := Join(DropLeadingEmpty(parts), '.');
      Join(DropLeadingEmpty(parts + [p]), '.') == if key == "" then p else key + "." + p
  {
    DropSnoc(parts, p);
    DropStartsFull(parts);
    JoinEmpty(DropLeadingEmpty(parts));
    var kept := DropLeadingEmpty(parts);
    hide DropLeadingEmpty;
    if kept != [] {
      assert (kept + [p])[..|kept|] == kept;
    }
  }

  /** One more constraint. */
  lemma {:induction false} PartsNext(r: Request, cs: seq<string>, i: nat)
    requires i < |cs| && PartsOf(r, cs[..i]).Found?
    ensures var ps, split := PartsOf(r, cs[..i]).parts, Split(cs[i], '.');
      PartsOf(r, cs[..i + 1]) ==
        if |split| != 2 then Malformed
        else match Lookup(r, split[0], split[1]) case None => Missing case Some(v) => Found(ps + [v])
  {
    assert cs[..i + 1][..i] == cs[..i];
  }

  /** The accumulating loop of `_resolve_idempotency_key`. */
  method ResolveKey(r: Request, spec: KeySpec) returns (k: KeyResult)
    ensures k == KeyOf(r, spec)
  {
    match spec
    case Fixed(key) => return Key(key);
    case Constraints(cs) =>
      if |cs| == 0 {
        return Key(r.pipelineId);
      }
      var key := "";
      var delimiter := if |cs| > 1 then "." else "";
      ghost var parts: seq<string> := [];
      assert PartsOf(r, cs[..0]) == Found(parts) && key == Join(DropLeadingEmpty(parts), '.');
      hide PartsOf, Split, Lookup, Join, DropLeadingEmpty;
      for i := 0 to |cs|
        invariant PartsOf(r, cs[..i]) == Found(parts)
        invariant key == Join(DropLeadingEmpty(parts), '.') && (i == 0 ==> key == "")
      {
        PartsNext(r, cs, i);
        var split := Split(cs[i], '.');
        if |split| != 2 {
          BadStays(r, cs, i + 1);
          return ValueError;
        }
        var part := Lookup(r, split[0], split[1]);
        if part == None {
          BadStays(r, cs, i + 1);
          return Key(r.pipelineId);
        }
        JoinNext(parts, part.value);
        parts := parts + [part.value];
        if key == "" {
          key := part.value;
        } else {
          key := key + delimiter + part.value;
        }
      }
      assert cs[..|cs|] == cs;
      return Key(key);
  }

  // What the key is, from the request itself.

  /** The constraint `c` is of the form obj.prop. */
  ghost predicate Refers(c: string, obj: string, prop: string) {
    '.' !in obj && '.' !in prop && c == obj + ['.'] + prop
  }

  /** The request has the value `v` there: args have values, everything else has properties. */
  ghost predicate Has(r: Request, obj: string, prop: string, v: string) {
    if obj == "args" then prop in r.args && r.args[prop] == Some(v)
    else (obj, prop) in r.fields && r.fields[(obj, prop)] == v
  }

  ghost predicate Yields(r: Request, c: string, v: string) {
    exists obj: string, prop: string :: Refers(c, obj, prop) && Has(r, obj, prop, v)
  }

  ghost predicate Present(r: Request, c: string) {
    exists v :: Yields(r, c, v)
  }

  ghost predicate Absent(r: Request, c: string) {
    exists obj: string, prop: string :: Refers(c, obj, prop) && forall v :: !Has(r, obj, prop, v)
  }

  ghost predicate Formless(c: string) {
    forall obj: string, prop: string :: !Refers(c, obj, prop)
  }

  lemma {:induction false} RefersSplits(c: string, obj: string, prop: string)
    ensures Refers(c, obj, prop) <==> Split(c, '.') == [obj, prop]
  {
    if Refers(c, obj, prop) {
      SplitWhole(obj, '.');
      SplitWhole(prop, '.');
      SplitConcat(obj, '.', prop);
    }
    if Split(c, '.') == [obj, prop] {
      JoinSplit(c, '.');
      assert obj in Split(c, '.') && prop in Split(c, '.');
      assert [obj, prop][..1] == [obj];
    }
  }

  lemma {:induction false} HasLookup(r: Request, obj: string, prop: string, v: string)
    ensures Has(r, obj, prop, v) <==> Lookup(r, obj, prop) == Some(v)
  {
  }

  lemma {:induction false} LastPart(r: Request, cs: seq<string>, c: string)
    requires PartsOf(r, cs).Found?
    ensures forall v :: Yields(r, c, v) ==> PartsOf(r, cs + [c]) == Found(PartsOf(r, cs).parts + [v])
    ensures Absent(r, c) ==> PartsOf(r, cs + [c]) == Missing
    ensures Formless(c) ==> PartsOf(r, cs + [c]) == Malformed
  {
    assert (cs + [c])[..|cs|] == cs;
    var split := Split(c, '.');
    hide PartsOf, Split, Lookup, Refers, Has;
    PartsStep(r, cs, c);
    forall obj, prop ensures Refers(c, obj, prop) <==> split == [obj, prop] {
      RefersSplits(c, obj, prop);
    }
    forall obj, prop, v ensures Has(r, obj, prop, v) <==> Lookup(r, obj, prop) == Some(v) {
      HasLookup(r, obj, prop, v);
    }
    if |split| == 2 {
      assert split == [split[0], split[1]];
      assert Refers(c, split[0], split[1]);
    }
  }

  lemma {:induction false} PartsStep(r: Request, cs: seq<string>, c: string)
    requires PartsOf(r, cs).Found?
    ensures var ps, split := PartsOf(r, cs).parts, Split(c, '.');
      PartsOf(r, cs + [c]) ==
        if |split| != 2 then Malformed
        else match Lookup(r, split[0], split[1]) case None => Missing case Some(v) => Found(ps + [v])
  {
    assert (cs + [c])[..|cs|] == cs;
    hide Split, Lookup;
  }

  lemma {:induction false} PartsFound(r: Request, cs: seq<string>, vs: seq<string>)
    requires |vs| == |cs| && forall i :: 0 <= i < |cs| ==> Yields(r, cs[i], vs[i])
    ensures PartsOf(r, cs) == Found(vs)
  {
    if cs == [] {
      assert vs == [];
    } else {
      var n := |cs| - 1;
      assert cs == cs[..n] + [cs[n]] && vs == vs[..n] + [vs[n]];
      PartsFound(r, cs[..n], vs[..n]);
      LastPart(r, cs[..n], cs[n]);
      assert Yields(r, cs[n], vs[n]);
      hide PartsOf, Yields;
    }
  }

  lemma {:induction false} DropsEmpty(parts: seq<string>, k: nat)
    requires k <= |parts| && (forall i :: 0 <= i < k ==> parts[i] == "") && (k < |parts| ==> parts[k] != "")
    ensures DropLeadingEmpty(parts) == parts[k..]
  {
    if k > 0 {
      DropsEmpty(parts[1..], k - 1);
      assert parts[1..][k - 1..] == parts[k..];
    } else {
      assert parts[0..] == parts;
    }
  }

  /** When every constraint yields a value, the key is the values joined by dots, the
      empty ones in front left out. */
  lemma {:induction false} KeyJoinsValues(r: Request, cs: seq<string>, vs: seq<string>, k: nat)
    requires cs != [] && |vs| == |cs| && forall i :: 0 <= i < |cs| ==> Yields(r, cs[i], vs[i])
    requires k <= |vs| && (forall i :: 0 <= i < k ==> vs[i] == "") && (k < |vs| ==> vs[k] != "")
    ensures KeyOf(r, Constraints(cs)) == Key(Join(vs[k..], '.'))
  {
    PartsFound(r, cs, vs);
    DropsEmpty(vs, k);
    hide PartsOf, DropLeadingEmpty, Join;
  }

  /** A fixed key is the key. Without constraints, or with an absent value before any
      malformed constraint, it is the pipeline id; a malformed constraint before any
      absent value raises. */
  lemma {:induction false} OtherKeys(r: Request, k: string, cs: seq<string>, i: nat)
    requires i < |cs| && forall j :: 0 <= j < i ==> Present(r, cs[j])
    ensures KeyOf(r, Fixed(k)) == Key(k) && KeyOf(r, Constraints([])) == Key(r.pipelineId)
    ensures Absent(r, cs[i]) ==> KeyOf(r, Constraints(cs)) == Key(r.pipelineId)
    ensures Formless(cs[i]) ==> KeyOf(r, Constraints(cs)) == ValueError
  {
    assert forall j :: 0 <= j < i ==> cs[..i][j] == cs[j];
    var vs := ValuesOf(r, cs[..i]);
    PartsFound(r, cs[..i], vs);
    LastPart(r, cs[..i], cs[i]);
    assert cs[..i + 1] == cs[..i] + [cs[i]];
    hide PartsOf, Yields, Absent, Formless;
    if Absent(r, cs[i]) || Formless(cs[i]) {
      BadStays(r, cs, i + 1);
    }
  }

  lemma {:induction false} ValuesOf(r: Request, cs: seq<string>) returns (vs: seq<string>)
    requires forall j :: 0 <= j < |cs| ==> Present(r, cs[j])
    ensures |vs| == |cs| && forall j :: 0 <= j < |cs| ==> Yields(r, cs[j], vs[j])
  {
    vs := [];
    while |vs| < |cs|
      invariant |vs| <= |cs| && forall j :: 0 <= j < |vs| ==> Yields(r, cs[j], vs[j])
      decreases |cs| - |vs|
    {
      var v :| Yields(r, cs[|vs|], v);
      vs := vs + [v];
    }
  }

  // The key of the dispatcher.

  function Path(obj: string, prop: string): string {
    obj + ['.'] + prop
  }

  const DISPATCHER := [Path("group", "id"), Path("args", "tapis_tenant_id"), Path("pipeline", "id")]

  /** An id as the schema admits it, as far as dots are concerned. */
  predicate ValidId(id: string) {
    id != "" && '.' !in id
  }

  /** A request from the dispatcher for a group, a tenant and a pipeline. */
  ghost predicate Dispatched(r: Request, group: string, tenant: string, pipeline: string) {
    && ValidId(group) && ValidId(pipeline)
    && ("group", "id") in r.fields && r.fields[("group", "id")] == group
    && "tapis_tenant_id" in r.args && r.args["tapis_tenant_id"] == Some(tenant)
    && ("pipeline", "id") in r.fields && r.fields[("pipeline", "id")] == pipeline && r.pipelineId == pipeline
  }

  lemma {:induction false} JoinThree(a: string, b: string, c: string)
    ensures Join([a, b, c], '.') == a + "." + b + "." + c
  {
    assert [a, b, c][..2] == [a, b] && [a, b][..1] == [a];
    assert Join([a, b], '.') == Join([a], '.') + "." + b;
  }

  lemma {:induction false} PlainNames()
    ensures '.' !in "group" && '.' !in "id" && '.' !in "args" && '.' !in "tapis_tenant_id" && '.' !in "pipeline"
    ensures "group" != "args" && "pipeline" != "args"
  {
    assert "group"[0] == 'g' && "pipeline"[0] == 'p' && "args"[0] == 'a';
  }

  lemma {:induction false} PathYields(r: Request, obj: string, prop: string, v: string)
    requires '.' !in obj && '.' !in prop && Has(r, obj, prop, v)
    ensures Yields(r, Path(obj, prop), v)
  {
    assert Refers(Path(obj, prop), obj, prop);
  }

  /** The key of a dispatched request, from its fields and arguments. */
  lemma {:induction false} DispatchedKey(r: Request, group: string, tenant: string, pipeline: string)
    requires Dispatched(r, group, tenant, pipeline)
    ensures KeyOf(r, Constraints(DISPATCHER)) == Key(group + "." + tenant + "." + pipeline)
  {
    PlainNames();
    var vs := [group, tenant, pipeline];
    assert Has(r, "group", "id", group) && Has(r, "args", "tapis_tenant_id", tenant) && Has(r, "pipeline", "id", pipeline);
    hide Has, Yields, Path, KeyOf, Join;
    PathYields(r, "group", "id", group);
    PathYields(r, "args", "tapis_tenant_id", tenant);
    PathYields(r, "pipeline", "id", pipeline);
    KeyJoinsValues(r, DISPATCHER, vs, 0);
    assert vs[0..] == vs;
    JoinThree(group, tenant, pipeline);
  }

  /** Two dispatched requests share a key exactly when they are for the same group,
      tenant and pipeline, dots in the tenant notwithstanding. */
  lemma {:induction false} KeysTellSubmissionsApart(r: Request, g: string, t: string, p: string, r': Request, g': string, t': string, p': string)
    requires Dispatched(r, g, t, p) && Dispatched(r', g', t', p')
    ensures KeyOf(r, Constraints(DISPATCHER)) == KeyOf(r', Constraints(DISPATCHER)) <==> g == g' && t == t' && p == p'
  {
    DispatchedKey(r, g, t, p);
    DispatchedKey(r', g', t', p');
    if g + "." + t + "." + p == g' + "." + t' + "." + p' {
      assert "." == ['.'];
      LastDelimiter(g + "." + t, p, g' + "." + t', p', '.');
      FirstDelimiter(g, t, g', t', '.');
    }
  }

  /** The key of a dispatched request is never the pipeline-id fallback of any request. */
  lemma {:induction false} KeyIsNotAFallback(r: Request, g: string, t: string, p: string, fallback: string)
    requires Dispatched(r, g, t, p) && ValidId(fallback)
    ensures KeyOf(r, Constraints(DISPATCHER)) != Key(fallback)
  {
    DispatchedKey(r, g, t, p);
    assert (g + "." + t + "." + p)[|g|] == '.';
  }
}
