// Evaluation of parsed paths over unstructured values (pkg/collector/pathexpr.go):
// the breadth-first frontier loop against a depth-first recursive meaning.
module PathEval {
  import opened Sequences
  import opened Text
  import opened PathSyntax

  // An unstructured value. A scalar carries its source form; how it is rendered
  // is the evaluator's concern.
  datatype Value =
    | Null
    | Scalar(text: string)
    | List(items: seq<Value>)
    | Map(fields: map<string, Value>)

  // The values of a map in ascending key order: the canonical enumeration.
  ghost function ValuesAt(m: map<string, Value>, keys: seq<string>): (vs: seq<Value>)
    requires forall k | k in keys :: k in m
    ensures |vs| == |keys| && forall i | 0 <= i < |vs| :: vs[i] == m[keys[i]]
  {
    seq(|keys|, i requires 0 <= i < |keys| => m[keys[i]])
  }

  ghost function Canonical(m: map<string, Value>): seq<Value>
  {
    var keys := Ascending(m.Keys);
    assert forall k | k in keys :: k in Members(keys);
    ValuesAt(m, keys)
  }

  // What one segment selects from one value, maps taken in key order.
  ghost function Children(v: Value, s: Segment): seq<Value>
  {
    match s
    case Field(name) =>
      if v.Map? && name in v.fields && v.fields[name] != Null then [v.fields[name]] else []
    case Index(n) =>
      if v.List? && 0 <= n < |v.items| then [v.items[n]] else []
    case Wildcard =>
      if v.List? then v.items else if v.Map? then Canonical(v.fields) else []
  }

  // The depth-first meaning of a path.
  ghost function Eval(v: Value, path: seq<Segment>): seq<Value>
    decreases |path|, 0
  {
    if path == [] then [v] else EvalAll(Children(v, path[0]), path[1..])
  }

  ghost function EvalAll(vs: seq<Value>, path: seq<Segment>): seq<Value>
    decreases |path|, |vs| + 1
  {
    if vs == [] then [] else Eval(vs[0], path) + EvalAll(vs[1..], path)
  }

  // The segment does not enumerate a map with more than one entry.
  predicate Calm(v: Value, s: Segment)
  {
    !(s.Wildcard? && v.Map? && |v.fields| > 1)
  }

  // No wildcard of the path meets a map with more than one entry.
  ghost predicate Ordered(v: Value, path: seq<Segment>)
    decreases |path|
  {
    path == [] ||
    (Calm(v, path[0]) && forall c | c in Children(v, path[0]) :: Ordered(c, path[1..]))
  }

  // A result the loop may return: the depth-first values up to order, and in
  // that very order when no map of several entries is enumerated.
  ghost predicate MayEvaluate(v: Value, path: seq<Segment>, out: seq<Value>)
  {
    && multiset(out) == multiset(Eval(v, path))
    && (Ordered(v, path) ==> out == Eval(v, path))
  }

  // ------------------------------------------------------ algebra of meaning

  lemma {:induction false} EvalAllAppend(a: seq<Value>, b: seq<Value>, path: seq<Segment>)
    ensures EvalAll(a + b, path) == EvalAll(a, path) + EvalAll(b, path)
    decreases |a|
  {
    if a == [] {
      assert a + b == b;
    } else {
      assert (a + b)[1..] == a[1..] + b;
      EvalAllAppend(a[1..], b, path);
    }
  }

  lemma {:induction false} EvalAllNothing(vs: seq<Value>)
    ensures EvalAll(vs, []) == vs
  {
    if vs != [] {
      EvalAllNothing(vs[1..]);
      assert vs == [vs[0]] + vs[1..];
    }
  }

  // Meaning depends on the frontier only up to order.
  lemma {:induction false} EvalAllPermutes(a: seq<Value>, b: seq<Value>, path: seq<Segment>)
    requires multiset(a) == multiset(b)
    ensures multiset(EvalAll(a, path)) == multiset(EvalAll(b, path))
    decreases |a|
  {
    assert |multiset(a)| == |multiset(b)|;
    if a != [] {
      var l, r := SplitAtHead(a, b);
      EvalAllPermutes(a[1..], l + r, path);
      EvalAllAppend(l, r, path);
      EvalAllAppend(l, [a[0]] + r, path);
      assert EvalAll([a[0]] + r, path) == Eval(a[0], path) + EvalAll(r, path);
    }
  }

  // Evaluating a path is evaluating its tail on every result of its head.
  lemma EvalCompose(v: Value, p: seq<Segment>, q: seq<Segment>)
    ensures Eval(v, p + q) == EvalAll(Eval(v, p), q)
    decreases |p|, 0
  {
    if p == [] {
      assert p + q == q;
      assert Eval(v, p) == [v];
      assert EvalAll([v], q) == Eval(v, q) + EvalAll([], q);
    } else {
      assert (p + q)[1..] == p[1..] + q;
      EvalAllCompose(Children(v, p[0]), p[1..], q);
    }
  }

  lemma {:induction false} EvalAllCompose(vs: seq<Value>, p: seq<Segment>, q: seq<Segment>)
    ensures EvalAll(vs, p + q) == EvalAll(EvalAll(vs, p), q)
    decreases |p|, |vs| + 1
  {
    if vs != [] {
      EvalCompose(vs[0], p, q);
      EvalAllCompose(vs[1..], p, q);
      EvalAllAppend(Eval(vs[0], p), EvalAll(vs[1..], p), q);
    }
  }

  // Without wildcards a path selects at most one value, whatever the order.
  lemma {:induction false} SinglePath(v: Value, path: seq<Segment>)
    requires forall k | 0 <= k < |path| :: !path[k].Wildcard?
    ensures |Eval(v, path)| <= 1 && Ordered(v, path)
    decreases |path|
  {
    if path != [] {
      var cs := Children(v, path[0]);
      if cs != [] {
        SinglePath(cs[0], path[1..]);
        assert cs[1..] == [];
        assert EvalAll(cs, path[1..]) == Eval(cs[0], path[1..]) + [];
      }
    }
  }

  // -------------------------------------------------- what a path reaches

  // An index counts from the front of a list.
  lemma IndexSelects(before: seq<Value>, x: Value, after: seq<Value>)
    ensures Eval(List(before + [x] + after), [Index(|before|)]) == [x]
  {
    var items := before + [x] + after;
    assert items[|before|] == x;
    assert Children(List(items), Index(|before|)) == [x];
    OneSegment(List(items), Index(|before|));
  }

  lemma IndexMisses(v: Value, n: int)
    requires n < 0 || !v.List? || |v.items| <= n
    ensures Eval(v, [Index(n)]) == []
  {
    OneSegment(v, Index(n));
  }

  // A field finds what a map holds under its name, unless that is nil.
  lemma FieldSelects(v: Value, name: string)
    ensures v.Map? && name in v.fields && v.fields[name] != Null ==> Eval(v, [Field(name)]) == [v.fields[name]]
    ensures !v.Map? || name !in v.fields || v.fields[name] == Null ==> Eval(v, [Field(name)]) == []
  {
    OneSegment(v, Field(name));
  }

  // A wildcard gives the items of a list in order, each value of a map once, and
  // nothing of anything else.
  lemma WildcardSelects(v: Value)
    ensures v.List? ==> Eval(v, [Wildcard]) == v.items
    ensures v.Map? ==> exists keys ::
      && Lists(keys, v.fields.Keys) && |Eval(v, [Wildcard])| == |keys|
      && forall i | 0 <= i < |keys| :: keys[i] in v.fields && Eval(v, [Wildcard])[i] == v.fields[keys[i]]
    ensures v.Null? || v.Scalar? ==> Eval(v, [Wildcard]) == []
  {
    OneSegment(v, Wildcard);
    if v.Map? {
      var keys := Ascending(v.fields.Keys);
      ListsMembers(keys, v.fields.Keys);
      assert Lists(keys, v.fields.Keys) && Eval(v, [Wildcard]) == ValuesAt(v.fields, keys);
    }
  }

  lemma OneSegment(v: Value, s: Segment)
    ensures Eval(v, [s]) == Children(v, s)
  {
    assert [s][1..] == [];
    EvalAllNothing(Children(v, s));
  }

  // Following the names and positions of a path from a value.
  ghost predicate Reaches(v: Value, path: seq<Segment>, x: Value)
    decreases |path|
  {
    if path == [] then x == v
    else
      match path[0]
      case Field(name) =>
        v.Map? && name in v.fields && v.fields[name] != Null && Reaches(v.fields[name], path[1..], x)
      case Index(n) =>
        v.List? && 0 <= n < |v.items| && Reaches(v.items[n], path[1..], x)
      case Wildcard =>
        || (v.List? && exists i | 0 <= i < |v.items| :: Reaches(v.items[i], path[1..], x))
        || (v.Map? && exists k | k in v.fields :: Reaches(v.fields[k], path[1..], x))
  }

  // A path yields exactly what it reaches.
  lemma {:induction false} EvalReaches(v: Value, path: seq<Segment>, x: Value)
    ensures x in Eval(v, path) <==> Reaches(v, path, x)
    decreases |path|
  {
    if path != [] {
      var cs, rest := Children(v, path[0]), path[1..];
      EvalAllHas(cs, rest, x);
      forall i | 0 <= i < |cs| ensures x in Eval(cs[i], rest) <==> Reaches(cs[i], rest, x) {
        EvalReaches(cs[i], rest, x);
      }
      if path[0].Wildcard? && v.Map? { WildcardOfMap(v.fields, rest, x); }
    }
  }

  lemma WildcardOfMap(m: map<string, Value>, rest: seq<Segment>, x: Value)
    ensures (exists i | 0 <= i < |Canonical(m)| :: Reaches(Canonical(m)[i], rest, x))
      <==> exists k | k in m :: Reaches(m[k], rest, x)
  {
    var keys := Ascending(m.Keys);
    ListsMembers(keys, m.Keys);
    if exists k | k in m :: Reaches(m[k], rest, x) {
      var k :| k in m && Reaches(m[k], rest, x);
      var i :| 0 <= i < |keys| && keys[i] == k;
      assert Canonical(m)[i] == m[k];
    }
    if exists i | 0 <= i < |Canonical(m)| :: Reaches(Canonical(m)[i], rest, x) {
      var i :| 0 <= i < |Canonical(m)| && Reaches(Canonical(m)[i], rest, x);
      assert keys[i] in m && Canonical(m)[i] == m[keys[i]];
    }
  }

  lemma {:induction false} EvalAllHas(vs: seq<Value>, path: seq<Segment>, x: Value)
    ensures x in EvalAll(vs, path) <==> exists i | 0 <= i < |vs| :: x in Eval(vs[i], path)
    decreases |vs|
  {
    if vs != [] {
      EvalAllHas(vs[1..], path, x);
      if x in EvalAll(vs[1..], path) {
        var i :| 0 <= i < |vs[1..]| && x in Eval(vs[1..][i], path);
        assert vs[i + 1] == vs[1..][i];
      }
      forall i | 0 < i < |vs| ensures vs[i] == vs[1..][i - 1] {}
    }
  }

  // Without wildcards it yields x, and nothing else, exactly if it reaches x.
  lemma PlainPathReaches(v: Value, path: seq<Segment>, x: Value)
    requires forall k | 0 <= k < |path| :: !path[k].Wildcard?
    ensures Eval(v, path) == [x] <==> Reaches(v, path, x)
  {
    SinglePath(v, path);
    EvalReaches(v, path, x);
    if x in Eval(v, path) { assert Eval(v, path) == [Eval(v, path)[0]]; }
  }

  // ------------------------------------------------------------ the frontier

  ghost function ChildrenBy(s: Segment): Value -> seq<Value>
  {
    v => Children(v, s)
  }

  function CalmBy(s: Segment): Value -> bool
  {
    v => Calm(v, s)
  }

  ghost function StepAll(vs: seq<Value>, s: Segment): seq<Value>
  {
    FlatMap(ChildrenBy(s), vs)
  }

  lemma {:induction false} EvalAllStep(vs: seq<Value>, path: seq<Segment>)
    requires path != []
    ensures EvalAll(vs, path) == EvalAll(StepAll(vs, path[0]), path[1..])
    decreases |vs|
  {
    if vs != [] {
      EvalAllStep(vs[1..], path);
      EvalAllAppend(Children(vs[0], path[0]), StepAll(vs[1..], path[0]), path[1..]);
    }
  }

  lemma {:induction false} OrderedStep(vs: seq<Value>, path: seq<Segment>)
    requires path != [] && forall v | v in vs :: Ordered(v, path)
    ensures forall c | c in StepAll(vs, path[0]) :: Ordered(c, path[1..])
    decreases |vs|
  {
    if vs != [] {
      OrderedStep(vs[1..], path);
      assert Ordered(vs[0], path);
    }
  }

  // The order in which a `range` statement visits a map is unspecified.
  method RangeValues(m: map<string, Value>) returns (out: seq<Value>)
    ensures multiset(out) == multiset(Canonical(m))
    ensures |m| <= 1 ==> out == Canonical(m)
  {
    out := [];
    var todo := m.Keys;
    ghost var done: seq<string> := [];
    while todo != {}
      invariant todo <= m.Keys
      invariant Lists(done, m.Keys - todo)
      invariant forall k | k in done :: k in m
      invariant out == ValuesAt(m, done)
      decreases todo
    {
      var k :| k in todo;
      ListsAdd(done, m.Keys - todo, k);
      assert m.Keys - (todo - {k}) == m.Keys - todo + {k};
      done := done + [k];
      out := out + [m[k]];
      todo := todo - {k};
    }
    ghost var keys := Ascending(m.Keys);
    ListsMultiset(done, m.Keys);
    ListsMultiset(keys, m.Keys);
    ValuesPermute(m, done, keys);
    if |m| <= 1 {
      ListsSize(done, m.Keys);
      ListsSize(keys, m.Keys);
      SmallPermutation(out, Canonical(m));
    }
  }

  lemma SmallPermutation<T>(a: seq<T>, b: seq<T>)
    requires multiset(a) == multiset(b) && |a| <= 1
    ensures a == b
  {
    assert |multiset(a)| == |multiset(b)|;
    if |a| == 1 {
      assert a == [a[0]] && b == [b[0]];
      assert a[0] in multiset(b);
    }
  }

  lemma ValuesAppend(m: map<string, Value>, a: seq<string>, b: seq<string>)
    requires forall k | k in a + b :: k in m
    ensures (forall k | k in a :: k in m) && (forall k | k in b :: k in m)
    ensures ValuesAt(m, a + b) == ValuesAt(m, a) + ValuesAt(m, b)
  {
    forall k | k in a || k in b ensures k in m { assert k in a + b; }
  }

  lemma {:induction false} ValuesPermute(m: map<string, Value>, a: seq<string>, b: seq<string>)
    requires multiset(a) == multiset(b) && forall k | k in a :: k in m
    ensures forall k | k in b :: k in m
    ensures multiset(ValuesAt(m, a)) == multiset(ValuesAt(m, b))
    decreases |a|
  {
    assert |multiset(a)| == |multiset(b)|;
    forall k | k in b ensures k in m { assert k in multiset(b); }
    if a != [] {
      var l, r := SplitAtHead(a, b);
      ValuesPermute(m, a[1..], l + r);
      ValuesAppend(m, [a[0]], a[1..]);
      ValuesAppend(m, l, r);
      ValuesAppend(m, l, [a[0]] + r);
      ValuesAppend(m, [a[0]], r);
      assert a == [a[0]] + a[1..];
      var one, rest := ValuesAt(m, [a[0]]), ValuesAt(m, a[1..]);
      assert ValuesAt(m, a) == one + rest;
      assert ValuesAt(m, b) == ValuesAt(m, l) + (one + ValuesAt(m, r));
      assert multiset(rest) == multiset(ValuesAt(m, l) + ValuesAt(m, r));
    }
  }

  method ApplySegment(cur: Value, s: Segment) returns (out: seq<Value>)
    ensures multiset(out) == multiset(Children(cur, s))
    ensures Calm(cur, s) ==> out == Children(cur, s)
  {
    match s {
      case Field(name) =>
        if cur.Map? && name in cur.fields && !cur.fields[name].Null? {
          return [cur.fields[name]];
        }
        return [];
      case Index(n) =>
        if cur.List? && n >= 0 && n < |cur.items| {
          return [cur.items[n]];
        }
        return [];
      case Wildcard =>
        if cur.List? {
          return cur.items;
        }
        if cur.Map? {
          out := RangeValues(cur.fields);
          return;
        }
        return [];
    }
  }

  // The frontier still has to go through `rest`, and doing so gives the meaning
  // of the whole path.
  ghost predicate OnCourse(input: Value, path: seq<Segment>, frontier: seq<Value>, rest: seq<Segment>)
  {
    && multiset(EvalAll(frontier, rest)) == multiset(Eval(input, path))
    && (Ordered(input, path) ==> EvalAll(frontier, rest) == Eval(input, path))
    && (Ordered(input, path) ==> forall v | v in frontier :: Ordered(v, rest))
  }

  lemma Departs(input: Value, path: seq<Segment>)
    ensures OnCourse(input, path, [input], path)
  {
    assert EvalAll([input], path) == Eval(input, path) + EvalAll([], path);
  }

  lemma StaysOnCourse(input: Value, path: seq<Segment>, frontier: seq<Value>, rest: seq<Segment>, next: seq<Value>)
    requires rest != [] && OnCourse(input, path, frontier, rest)
    requires Gathers(ChildrenBy(rest[0]), CalmBy(rest[0]), frontier, next)
    ensures OnCourse(input, path, next, rest[1..])
  {
    EvalAllStep(frontier, rest);
    EvalAllPermutes(next, StepAll(frontier, rest[0]), rest[1..]);
    if Ordered(input, path) {
      assert forall v | v in frontier :: Ordered(v, rest) && Calm(v, rest[0]);
      OrderedStep(frontier, rest);
    }
  }

  lemma Arrives(input: Value, path: seq<Segment>, frontier: seq<Value>, rest: seq<Segment>)
    requires OnCourse(input, path, frontier, rest) && (rest == [] || frontier == [])
    ensures MayEvaluate(input, path, frontier)
  {
    if rest == [] { EvalAllNothing(frontier); }
  }

  // `rel` says of a value what one segment may select from it, and stands for
  // that in the loop, which needs nothing else of it.
  ghost predicate Gauges(rel: (Value, seq<Value>) -> bool, s: Segment)
  {
    forall v, out {:trigger Holds(rel, v, out)} ::
      Holds(rel, v, out) <==> multiset(out) == multiset(Children(v, s)) && (Calm(v, s) ==> out == Children(v, s))
  }

  // The inner loop of `evaluate`: the frontier advances by one segment.
  method AdvanceAll(frontier: seq<Value>, s: Segment, ghost rel: (Value, seq<Value>) -> bool)
    returns (next: seq<Value>, ghost parts: seq<seq<Value>>)
    requires Gauges(rel, s)
    ensures |parts| == |frontier| && Related(rel, frontier, parts) && next == Flatten(parts)
  {
    next, parts := [], [];
    for j := 0 to |frontier|
      invariant |parts| == j && Related(rel, frontier, parts)
      invariant next == Flatten(parts)
    {
      var found := ApplySegment(frontier[j], s);
      assert Holds(rel, frontier[j], found);
      RelatedNext(rel, frontier, parts, found);
      FlattenSnoc(parts, found);
      parts := parts + [found];
      next := next + found;
    }
  }

  method StepFrontier(frontier: seq<Value>, s: Segment) returns (next: seq<Value>)
    ensures Gathers(ChildrenBy(s), CalmBy(s), frontier, next)
  {
    ghost var rel := GathersEach(ChildrenBy(s), CalmBy(s));
    ghost var parts;
    next, parts := AdvanceAll(frontier, s, rel);
    GathersAll(ChildrenBy(s), CalmBy(s), frontier, parts);
  }

  // `evaluate`: the frontier is rebuilt once per segment, and the loop stops
  // early when nothing is left.
  method Evaluate(input: Value, path: seq<Segment>) returns (out: seq<Value>)
    ensures MayEvaluate(input, path, out)
  {
    var frontier := [input];
    Departs(input, path);
    var k := 0;
    assert path[k..] == path;
    while k < |path|
      invariant 0 <= k <= |path|
      invariant OnCourse(input, path, frontier, path[k..])
    {
      var next := StepFrontier(frontier, path[k]);
      StaysOnCourse(input, path, frontier, path[k..], next);
      assert path[k..][1..] == path[k + 1..];
      frontier := next;
      k := k + 1;
      if |frontier| == 0 {
        Arrives(input, path, frontier, path[k..]);
        return [];
      }
    }
    Arrives(input, path, frontier, path[k..]);
    return frontier;
  }
}
