// Sequences in general: listings of sets, element-wise relations, flattening.
module Sequences {
  // ---------------------------------------------------------------- listings

  predicate Distinct<T(==)>(s: seq<T>)
  {
    forall i, j | 0 <= i < j < |s| :: s[i] != s[j]
  }

  lemma Uncons<T>(s: seq<T>)
    requires s != []
    ensures s == [s[0]] + s[1..]
    ensures multiset(s[1..]) == multiset(s) - multiset{s[0]}
  {
    assert s == [s[0]] + s[1..];
  }

  // Finds in `b`, a permutation of `a`, the place of the head of `a`.
  lemma SplitAtHead<T>(a: seq<T>, b: seq<T>) returns (l: seq<T>, r: seq<T>)
    requires a != [] && multiset(a) == multiset(b)
    ensures b == l + ([a[0]] + r)
    ensures multiset(a[1..]) == multiset(l + r)
  {
    assert a[0] in multiset(b);
    var i :| 0 <= i < |b| && b[i] == a[0];
    l, r := b[..i], b[i + 1..];
    assert b == l + ([a[0]] + r);
    Uncons(a);
  }

  function Members<T>(ks: seq<T>): set<T>
  {
    set k | k in ks
  }

  // A listing of a set in the unspecified order of a `range` over a Go map.
  ghost predicate Lists<T>(ks: seq<T>, s: set<T>)
  {
    Distinct(ks) && Members(ks) == s
  }

  lemma {:induction false} ListsSize<T>(ks: seq<T>, s: set<T>)
    requires Lists(ks, s)
    ensures |ks| == |s|
  {
    if ks == [] {
    } else {
      var rest := ks[1..];
      assert ks == [ks[0]] + rest;
      assert Members(rest) == s - {ks[0]};
      ListsSize(rest, s - {ks[0]});
    }
  }

  lemma ListsPermutation<T>(a: seq<T>, b: seq<T>)
    requires Distinct(a) && multiset(a) == multiset(b)
    ensures Distinct(b) && Members(a) == Members(b)
  {
    DistinctIffSingle(a);
    DistinctIffSingle(b);
    forall k ensures k in a <==> k in b {
      assert k in a <==> k in multiset(a);
      assert k in b <==> k in multiset(b);
    }
  }

  lemma {:induction false} DistinctIffSingle<T>(a: seq<T>)
    ensures Distinct(a) <==> forall x :: multiset(a)[x] <= 1
  {
    if a != [] {
      Uncons(a);
      DistinctIffSingle(a[1..]);
      var m, n := multiset(a), multiset(a[1..]);
      assert m == n + multiset{a[0]};
      assert a[0] in a[1..] <==> n[a[0]] >= 1;
      assert Distinct(a) <==> Distinct(a[1..]) && a[0] !in a[1..];
      assert forall x :: m[x] == n[x] + (if x == a[0] then 1 else 0);
      assert m[a[0]] == n[a[0]] + 1;
    }
  }

  lemma {:induction false} ListsMultiset<T>(ks: seq<T>, s: set<T>)
    requires Lists(ks, s)
    ensures multiset(ks) == multiset(s)
  {
    if ks == [] {
    } else {
      var rest := ks[1..];
      assert ks == [ks[0]] + rest;
      assert Members(rest) == s - {ks[0]};
      ListsMultiset(rest, s - {ks[0]});
    }
  }

  lemma ListsAdd<T>(keys: seq<T>, s: set<T>, k: T)
    requires Lists(keys, s) && k !in s
    ensures Lists(keys + [k], s + {k})
  {
    assert k !in Members(keys);
    assert Members(keys + [k]) == Members(keys) + {k};
  }

  lemma ListsMembers<T>(keys: seq<T>, s: set<T>)
    requires Lists(keys, s)
    ensures forall i | 0 <= i < |keys| :: keys[i] in s
    ensures forall k | k in s :: k in keys
  {
    assert forall i | 0 <= i < |keys| :: keys[i] in Members(keys);
  }

  // ----------------------------------------------------- element-wise relations

  // Every element of `ys` is related to the element of `xs` at its place.
  ghost predicate Related<A(!new), B(!new)>(rel: (A, B) -> bool, xs: seq<A>, ys: seq<B>)
  {
    |ys| <= |xs| && forall i | 0 <= i < |ys| :: rel(xs[i], ys[i])
  }

  predicate Holds<A, B>(rel: (A, B) -> bool, x: A, y: B)
  {
    rel(x, y)
  }

  lemma RelatedNext<A(!new), B(!new)>(rel: (A, B) -> bool, xs: seq<A>, ys: seq<B>, y: B)
    requires Related(rel, xs, ys) && |ys| < |xs| && rel(xs[|ys|], y)
    ensures Related(rel, xs, ys + [y])
  {
  }

  lemma RelatedExists<A(!new), B(!new)>(rel: (A, B) -> bool, xs: seq<A>) returns (ys: seq<B>)
    requires forall x | x in xs :: exists y :: rel(x, y)
    ensures |ys| == |xs| && Related(rel, xs, ys)
  {
    ys := [];
    while |ys| < |xs|
      invariant Related(rel, xs, ys)
      decreases |xs| - |ys|
    {
      assert xs[|ys|] in xs;
      var y :| rel(xs[|ys|], y);
      RelatedNext(rel, xs, ys, y);
      ys := ys + [y];
    }
  }

  // When the relation has one answer at most, permuted lists have permuted answers.
  lemma {:induction false} RelatedPermutes<A(!new), B(!new)>(
    rel: (A, B) -> bool, xs: seq<A>, ys: seq<A>, us: seq<B>, vs: seq<B>)
    requires |us| == |xs| && Related(rel, xs, us) && |vs| == |ys| && Related(rel, ys, vs)
    requires multiset(xs) == multiset(ys)
    requires forall x, u, v | x in xs && rel(x, u) && rel(x, v) :: u == v
    ensures multiset(us) == multiset(vs)
  {
    assert |multiset(xs)| == |multiset(ys)|;
    if xs != [] {
      var l, r := SplitAtHead(xs, ys);
      var n := |l|;
      var rest := vs[..n] + vs[n + 1..];
      assert rel(xs[0], us[0]) && rel(ys[n], vs[n]) && ys[n] == xs[0];
      forall i | 0 <= i < |rest| ensures rel((l + r)[i], rest[i]) {
        assert rel(ys[if i < n then i else i + 1], vs[if i < n then i else i + 1]);
      }
      forall i | 0 <= i < |us| - 1 ensures rel(xs[1..][i], us[1..][i]) { assert rel(xs[i + 1], us[i + 1]); }
      RelatedPermutes(rel, xs[1..], l + r, us[1..], rest);
      assert us == [us[0]] + us[1..] && vs == vs[..n] + ([vs[n]] + vs[n + 1..]);
    }
  }

  lemma RelatedUpdate<A(!new), B(!new)>(rel: (A, B) -> bool, xs: seq<A>, ys: seq<B>, i: nat, y: B)
    requires Related(rel, xs, ys) && i < |ys| && rel(xs[i], y)
    ensures Related(rel, xs, ys[i := y])
  {
  }

  // --------------------------------------------------------------- flattening

  function Flatten<T>(parts: seq<seq<T>>): seq<T>
  {
    if parts == [] then [] else parts[0] + Flatten(parts[1..])
  }

  lemma {:induction false} FlattenSnoc<T>(parts: seq<seq<T>>, part: seq<T>)
    ensures Flatten(parts + [part]) == Flatten(parts) + part
  {
    if parts == [] {
      assert (parts + [part])[1..] == [];
    } else {
      assert (parts + [part])[1..] == parts[1..] + [part];
      FlattenSnoc(parts[1..], part);
    }
  }

  lemma {:induction false} FlattenHas<T>(parts: seq<seq<T>>, i: nat, x: T)
    requires i < |parts| && x in parts[i]
    ensures x in Flatten(parts)
  {
    if i > 0 { FlattenHas(parts[1..], i - 1, x); }
  }

  lemma {:induction false} FlattenMember<T>(parts: seq<seq<T>>, x: T)
    requires x in Flatten(parts)
    ensures exists i | 0 <= i < |parts| :: x in parts[i]
  {
    if parts != [] && x !in parts[0] {
      FlattenMember(parts[1..], x);
      var i :| 0 <= i < |parts[1..]| && x in parts[1..][i];
      assert x in parts[i + 1];
    }
  }

  ghost function FlatMap<A(!new), B(!new)>(f: A -> seq<B>, xs: seq<A>): seq<B>
  {
    if xs == [] then [] else f(xs[0]) + FlatMap(f, xs[1..])
  }

  // `ys` is gathered from `xs` up to order, and in order where all is calm.
  ghost predicate Gathers<A(!new), B(!new)>(f: A -> seq<B>, calm: A -> bool, xs: seq<A>, ys: seq<B>)
  {
    && multiset(ys) == multiset(FlatMap(f, xs))
    && ((forall x | x in xs :: calm(x)) ==> ys == FlatMap(f, xs))
  }

  // A list gathered from one element: its own up to order, in order if calm.
  ghost function GathersEach<A(!new), B(!new)>(f: A -> seq<B>, calm: A -> bool): (A, seq<B>) -> bool
  {
    (x: A, ys: seq<B>) => multiset(ys) == multiset(f(x)) && (calm(x) ==> ys == f(x))
  }

  lemma {:induction false} GathersAll<A(!new), B(!new)>(f: A -> seq<B>, calm: A -> bool, xs: seq<A>, parts: seq<seq<B>>)
    requires |parts| == |xs| && Related(GathersEach(f, calm), xs, parts)
    ensures Gathers(f, calm, xs, Flatten(parts))
  {
    if xs != [] {
      forall i | 0 <= i < |parts| - 1 ensures GathersEach(f, calm)(xs[1..][i], parts[1..][i]) {
        assert GathersEach(f, calm)(xs[i + 1], parts[i + 1]);
      }
      GathersAll(f, calm, xs[1..], parts[1..]);
      assert GathersEach(f, calm)(xs[0], parts[0]);
      assert xs == [xs[0]] + xs[1..];
    }
  }

  // Where the i-th part starts in the whole.
  function Offset<T>(parts: seq<seq<T>>, i: nat): nat
    requires i <= |parts|
  {
    |Flatten(parts[..i])|
  }

  lemma {:induction false} FlattenAt<T>(parts: seq<seq<T>>, i: nat, k: nat)
    requires i < |parts| && k < |parts[i]|
    ensures Offset(parts, i) + k < |Flatten(parts)|
    ensures Flatten(parts)[Offset(parts, i) + k] == parts[i][k]
  {
    if i > 0 {
      FlattenAt(parts[1..], i - 1, k);
      assert parts[..i][1..] == parts[1..][..i - 1];
    }
  }

  lemma {:induction false} OffsetFits<T>(parts: seq<seq<T>>, i: nat)
    requires i < |parts|
    ensures Offset(parts, i) + |parts[i]| <= |Flatten(parts)|
  {
    if i > 0 {
      OffsetFits(parts[1..], i - 1);
      assert parts[..i][1..] == parts[1..][..i - 1];
    }
  }

  // The elements of `xs` are related to those of `ys` from a place on.
  ghost predicate RelatedFrom<A(!new), B(!new)>(rel: (A, B) -> bool, xs: seq<A>, ys: seq<B>, start: nat)
  {
    start + |xs| <= |ys| && forall k | 0 <= k < |xs| :: rel(xs[k], ys[start + k])
  }

  lemma RelatedBlock<A(!new), B(!new)>(rel: (A, B) -> bool, parts: seq<seq<A>>, ys: seq<B>, i: nat)
    requires i < |parts| && |ys| == |Flatten(parts)| && Related(rel, Flatten(parts), ys)
    ensures RelatedFrom(rel, parts[i], ys, Offset(parts, i))
  {
    OffsetFits(parts, i);
    forall k | 0 <= k < |parts[i]| ensures rel(parts[i][k], ys[Offset(parts, i) + k]) {
      FlattenAt(parts, i, k);
    }
  }
}
