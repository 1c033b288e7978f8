// The registry of watched resources: four indexes over one declaration list
// (pkg/config/config.go).
module Registries {
  import opened Wrappers
  import opened Text
  import opened Resources

  datatype LookupError =
    | NothingWatched
    | NotRecognised(ref: string)
    | AmbiguousReference(ref: string, names: seq<string>)

  datatype Duplicate = DuplicateName | DuplicateGVR | DuplicateGVK

  datatype RegistryError =
    | BadResource(index: nat, error: ResourceError)
    | Duplicated(index: nat, what: Duplicate)

  const BUILTIN_SOURCES := {"anchor", "item", "ownerController", "topController"}

  // ------------------------------------------ lookups as scans of the list

  function FindName(rs: seq<ResourceInfo>, name: string): Option<ResourceInfo>
  {
    if rs == [] then None else if rs[0].name == name then Some(rs[0]) else FindName(rs[1..], name)
  }

  predicate HasGVK(r: ResourceInfo)
  {
    r.version != "" && r.kind != ""
  }

  predicate HasGVR(r: ResourceInfo)
  {
    r.resource != ""
  }

  function FindGVK(rs: seq<ResourceInfo>, gvk: GroupVersionKind): Option<ResourceInfo>
  {
    if rs == [] then None
    else if HasGVK(rs[0]) && rs[0].GVK() == gvk then Some(rs[0])
    else FindGVK(rs[1..], gvk)
  }

  // The resources declared with a kind, in declaration order.
  function OfKind(rs: seq<ResourceInfo>, kind: string): seq<ResourceInfo>
  {
    if rs == [] then []
    else (if rs[0].kind == kind then [rs[0]] else []) + OfKind(rs[1..], kind)
  }

  function NamesOf(rs: seq<ResourceInfo>): (names: seq<string>)
    ensures |names| == |rs| && forall i | 0 <= i < |rs| :: names[i] == rs[i].name
  {
    seq(|rs|, i requires 0 <= i < |rs| => rs[i].name)
  }

  // Name match, else the unique match on kind, else an error.
  function Lookup(rs: seq<ResourceInfo>, ref: string): Result<ResourceInfo, LookupError>
  {
    if rs == [] then Failure(NothingWatched)
    else
      match FindName(rs, ref)
      case Some(info) => Success(info)
      case None =>
        var ks := OfKind(rs, ref);
        if |ks| == 0 then Failure(NotRecognised(ref))
        else if |ks| == 1 then Success(ks[0])
        else Failure(AmbiguousReference(ref, SortStrings(NamesOf(ks))))
  }

  lemma {:induction false} FindNameMeans(rs: seq<ResourceInfo>, name: string)
    ensures match FindName(rs, name)
            case Some(r) => r in rs && r.name == name
            case None => forall i | 0 <= i < |rs| :: rs[i].name != name
  {
    if rs != [] { FindNameMeans(rs[1..], name); }
  }

  lemma {:induction false} FindGVKMeans(rs: seq<ResourceInfo>, gvk: GroupVersionKind)
    ensures match FindGVK(rs, gvk)
            case Some(r) => r in rs && HasGVK(r) && r.GVK() == gvk
            case None => forall i | 0 <= i < |rs| :: HasGVK(rs[i]) ==> rs[i].GVK() != gvk
  {
    if rs != [] { FindGVKMeans(rs[1..], gvk); }
  }

  lemma {:induction false} OfKindMeans(rs: seq<ResourceInfo>, kind: string)
    ensures forall r :: r in OfKind(rs, kind) <==> r in rs && r.kind == kind
  {
    if rs != [] {
      OfKindMeans(rs[1..], kind);
      assert rs == [rs[0]] + rs[1..];
    }
  }

  // ------------------------------------------------------------- the indexes

  // Two declarations that may not stand together.
  predicate Clash(a: ResourceInfo, b: ResourceInfo)
  {
    || a.name == b.name
    || (HasGVR(a) && HasGVR(b) && a.GVR() == b.GVR())
    || (HasGVK(a) && HasGVK(b) && a.GVK() == b.GVK())
  }

  ghost predicate WellDeclared(rs: seq<ResourceInfo>)
  {
    forall i, j | 0 <= i < j < |rs| :: !Clash(rs[i], rs[j])
  }

  lemma SameEntry(rs: seq<ResourceInfo>, i: nat, j: nat)
    requires WellDeclared(rs) && i < |rs| && j < |rs| && Clash(rs[i], rs[j])
    ensures i == j
  {
    assert Clash(rs[j], rs[i]);
  }

  // The maps that reading the declarations in order leaves behind.
  function NameIndex(rs: seq<ResourceInfo>): map<string, ResourceInfo>
  {
    if rs == [] then map[]
    else
      var last := rs[|rs| - 1];
      NameIndex(rs[..|rs| - 1])[last.name := last]
  }

  function GVKIndex(rs: seq<ResourceInfo>): map<GroupVersionKind, ResourceInfo>
  {
    if rs == [] then map[]
    else
      var last, init := rs[|rs| - 1], GVKIndex(rs[..|rs| - 1]);
      if HasGVK(last) then init[last.GVK() := last] else init
  }

  function GVRIndex(rs: seq<ResourceInfo>): map<GroupVersionResource, ResourceInfo>
  {
    if rs == [] then map[]
    else
      var last, init := rs[|rs| - 1], GVRIndex(rs[..|rs| - 1]);
      if HasGVR(last) then init[last.GVR() := last] else init
  }

  function Stored(kindToNames: map<string, seq<string>>, kind: string): seq<string>
  {
    if kind in kindToNames then kindToNames[kind] else []
  }

  function AddKind(kindToNames: map<string, seq<string>>, r: ResourceInfo): map<string, seq<string>>
  {
    kindToNames[r.kind := Stored(kindToNames, r.kind) + [r.name]]
  }

  // Lookups reorder the stored lists, so they agree up to order.
  ghost predicate KindIndex(rs: seq<ResourceInfo>, kindToNames: map<string, seq<string>>)
  {
    forall k {:trigger Stored(kindToNames, k)} ::
      multiset(Stored(kindToNames, k)) == multiset(NamesOf(OfKind(rs, k)))
  }

  // What the indexes say, entry by entry: each key holds one of the resources
  // that carry it, and every resource is held under some key of its own.
  lemma {:induction false} IndexedByName(rs: seq<ResourceInfo>, n: string)
    ensures n in NameIndex(rs) <==> exists i | 0 <= i < |rs| :: rs[i].name == n
    ensures n in NameIndex(rs) ==> exists i | 0 <= i < |rs| :: rs[i] == NameIndex(rs)[n] && rs[i].name == n
  {
    if rs != [] {
      var init, last := rs[..|rs| - 1], |rs| - 1;
      IndexedByName(init, n);
      assert forall i | 0 <= i < last :: init[i] == rs[i];
      if n in NameIndex(init) {
        var i :| 0 <= i < |init| && init[i] == NameIndex(init)[n] && init[i].name == n;
        assert rs[i].name == n;
      }
      assert rs[last].name == n ==> rs[last] == NameIndex(rs)[n];
    }
  }

  lemma {:induction false} IndexedByGVK(rs: seq<ResourceInfo>, k: GroupVersionKind)
    ensures k in GVKIndex(rs) <==> exists i | 0 <= i < |rs| :: HasGVK(rs[i]) && rs[i].GVK() == k
    ensures k in GVKIndex(rs) ==>
      exists i | 0 <= i < |rs| :: rs[i] == GVKIndex(rs)[k] && HasGVK(rs[i]) && rs[i].GVK() == k
  {
    if rs != [] {
      var init, last := rs[..|rs| - 1], |rs| - 1;
      IndexedByGVK(init, k);
      assert forall i | 0 <= i < last :: init[i] == rs[i];
      if k in GVKIndex(init) {
        var i :| 0 <= i < |init| && init[i] == GVKIndex(init)[k] && HasGVK(init[i]) && init[i].GVK() == k;
        assert HasGVK(rs[i]) && rs[i].GVK() == k;
      }
      assert HasGVK(rs[last]) && rs[last].GVK() == k ==> rs[last] == GVKIndex(rs)[k];
    }
  }

  lemma {:induction false} IndexedByGVR(rs: seq<ResourceInfo>, k: GroupVersionResource)
    ensures k in GVRIndex(rs) <==> exists i | 0 <= i < |rs| :: HasGVR(rs[i]) && rs[i].GVR() == k
    ensures k in GVRIndex(rs) ==>
      exists i | 0 <= i < |rs| :: rs[i] == GVRIndex(rs)[k] && HasGVR(rs[i]) && rs[i].GVR() == k
  {
    if rs != [] {
      var init, last := rs[..|rs| - 1], |rs| - 1;
      IndexedByGVR(init, k);
      assert forall i | 0 <= i < last :: init[i] == rs[i];
      if k in GVRIndex(init) {
        var i :| 0 <= i < |init| && init[i] == GVRIndex(init)[k] && HasGVR(init[i]) && init[i].GVR() == k;
        assert HasGVR(rs[i]) && rs[i].GVR() == k;
      }
      assert HasGVR(rs[last]) && rs[last].GVR() == k ==> rs[last] == GVRIndex(rs)[k];
    }
  }

  // With no clashes an index lookup is the scan of the list.
  lemma NameIndexScans(rs: seq<ResourceInfo>, n: string)
    requires WellDeclared(rs)
    ensures FindName(rs, n) == if n in NameIndex(rs) then Some(NameIndex(rs)[n]) else None
  {
    IndexedByName(rs, n);
    FindNameMeans(rs, n);
    if n in NameIndex(rs) {
      var i :| 0 <= i < |rs| && rs[i] == NameIndex(rs)[n] && rs[i].name == n;
      var j :| 0 <= j < |rs| && rs[j] == FindName(rs, n).value;
      SameEntry(rs, i, j);
    }
  }

  lemma GVKIndexScans(rs: seq<ResourceInfo>, k: GroupVersionKind)
    requires WellDeclared(rs)
    ensures FindGVK(rs, k) == if k in GVKIndex(rs) then Some(GVKIndex(rs)[k]) else None
  {
    IndexedByGVK(rs, k);
    FindGVKMeans(rs, k);
    if k in GVKIndex(rs) {
      var i :| 0 <= i < |rs| && rs[i] == GVKIndex(rs)[k] && HasGVK(rs[i]) && rs[i].GVK() == k;
      var j :| 0 <= j < |rs| && rs[j] == FindGVK(rs, k).value;
      SameEntry(rs, i, j);
    }
  }

  lemma KindCount(rs: seq<ResourceInfo>, kindToNames: map<string, seq<string>>, kind: string)
    requires KindIndex(rs, kindToNames)
    ensures |Stored(kindToNames, kind)| == |OfKind(rs, kind)|
  {
    assert |multiset(Stored(kindToNames, kind))| == |multiset(NamesOf(OfKind(rs, kind)))|;
  }

  lemma KindIndexScans(rs: seq<ResourceInfo>, kindToNames: map<string, seq<string>>, kind: string)
    requires WellDeclared(rs) && KindIndex(rs, kindToNames)
    ensures var names, ks := Stored(kindToNames, kind), OfKind(rs, kind);
      && |names| == |ks|
      && (|ks| == 1 ==> names[0] in NameIndex(rs) && NameIndex(rs)[names[0]] == ks[0])
      && SortStrings(names) == SortStrings(NamesOf(ks))
  {
    var names, ks := Stored(kindToNames, kind), OfKind(rs, kind);
    assert multiset(names) == multiset(NamesOf(ks));
    KindCount(rs, kindToNames, kind);
    SortForgetsOrder(names, NamesOf(ks));
    if |ks| == 1 {
      assert names == [names[0]] && NamesOf(ks) == [ks[0].name];
      assert names[0] in multiset(NamesOf(ks));
      OfKindMeans(rs, kind);
      assert ks[0] in ks;
      FindNameIs(rs, ks[0]);
      NameIndexScans(rs, names[0]);
    }
  }

  lemma FindNameIs(rs: seq<ResourceInfo>, r: ResourceInfo)
    requires WellDeclared(rs) && r in rs
    ensures FindName(rs, r.name) == Some(r)
  {
    FindNameMeans(rs, r.name);
    var i :| 0 <= i < |rs| && rs[i] == r;
    assert FindName(rs, r.name).Some?;
    var j :| 0 <= j < |rs| && rs[j] == FindName(rs, r.name).value;
    SameEntry(rs, i, j);
  }

  lemma SortedKindIndex(rs: seq<ResourceInfo>, kindToNames: map<string, seq<string>>, kind: string)
    requires KindIndex(rs, kindToNames)
    ensures KindIndex(rs, kindToNames[kind := SortStrings(Stored(kindToNames, kind))])
  {
    var m := kindToNames[kind := SortStrings(Stored(kindToNames, kind))];
    forall k ensures multiset(Stored(m, k)) == multiset(NamesOf(OfKind(rs, k))) {
      assert multiset(Stored(m, k)) == multiset(Stored(kindToNames, k));
    }
  }

  lemma {:induction false} OfKindSnoc(rs: seq<ResourceInfo>, r: ResourceInfo, kind: string)
    ensures OfKind(rs + [r], kind) == OfKind(rs, kind) + if r.kind == kind then [r] else []
  {
    if rs == [] {
      assert rs + [r] == [r] && [r][1..] == [];
    } else {
      var all, rest, own := rs + [r], rs[1..], if r.kind == kind then [r] else [];
      assert all[0] == rs[0] && all[1..] == rest + [r];
      OfKindSnoc(rest, r, kind);
      var head := if rs[0].kind == kind then [rs[0]] else [];
      assert OfKind(all, kind) == head + (OfKind(rest, kind) + own) == head + OfKind(rest, kind) + own;
    }
  }

  lemma StoredAfterAdd(rs: seq<ResourceInfo>, kindToNames: map<string, seq<string>>, r: ResourceInfo, k: string)
    requires multiset(Stored(kindToNames, k)) == multiset(NamesOf(OfKind(rs, k)))
    ensures multiset(Stored(AddKind(kindToNames, r), k)) == multiset(NamesOf(OfKind(rs + [r], k)))
  {
    OfKindSnoc(rs, r, k);
    if k == r.kind {
      assert NamesOf(OfKind(rs, k) + [r]) == NamesOf(OfKind(rs, k)) + [r.name];
    } else {
      assert OfKind(rs, k) + [] == OfKind(rs, k);
    }
  }

  // What one more declaration does to every index.
  lemma IndexesAdd(rs: seq<ResourceInfo>, kindToNames: map<string, seq<string>>, r: ResourceInfo)
    requires KindIndex(rs, kindToNames)
    ensures KindIndex(rs + [r], AddKind(kindToNames, r))
    ensures NameIndex(rs + [r]) == NameIndex(rs)[r.name := r]
    ensures GVKIndex(rs + [r]) == if HasGVK(r) then GVKIndex(rs)[r.GVK() := r] else GVKIndex(rs)
    ensures GVRIndex(rs + [r]) == if HasGVR(r) then GVRIndex(rs)[r.GVR() := r] else GVRIndex(rs)
  {
    assert (rs + [r])[..|rs|] == rs;
    forall k ensures multiset(Stored(AddKind(kindToNames, r), k)) == multiset(NamesOf(OfKind(rs + [r], k))) {
      assert multiset(Stored(kindToNames, k)) == multiset(NamesOf(OfKind(rs, k)));
      StoredAfterAdd(rs, kindToNames, r, k);
    }
  }

  // What a declaration shares with one made before it.
  ghost predicate ClashesBy(rs: seq<ResourceInfo>, info: ResourceInfo, what: Duplicate)
  {
    match what
    case DuplicateName => exists r | r in rs :: r.name == info.name
    case DuplicateGVR =>
      && info.resource != ""
      && exists r | r in rs :: r.group == info.group && r.version == info.version && r.resource == info.resource
    case DuplicateGVK =>
      && info.version != "" && info.kind != ""
      && exists r | r in rs :: r.group == info.group && r.version == info.version && r.kind == info.kind
  }

  ghost predicate Clashes(rs: seq<ResourceInfo>, info: ResourceInfo)
  {
    exists i | 0 <= i < |rs| :: Clash(rs[i], info)
  }

  lemma ClashesIndexed(rs: seq<ResourceInfo>, info: ResourceInfo)
    ensures ClashesBy(rs, info, DuplicateName) <==> info.name in NameIndex(rs)
    ensures ClashesBy(rs, info, DuplicateGVR) <==> HasGVR(info) && info.GVR() in GVRIndex(rs)
    ensures ClashesBy(rs, info, DuplicateGVK) <==> HasGVK(info) && info.GVK() in GVKIndex(rs)
  {
    IndexedByName(rs, info.name);
    IndexedByGVR(rs, info.GVR());
    IndexedByGVK(rs, info.GVK());
  }

  lemma ClashesSomehow(rs: seq<ResourceInfo>, info: ResourceInfo)
    ensures Clashes(rs, info) <==>
      ClashesBy(rs, info, DuplicateName) || ClashesBy(rs, info, DuplicateGVR) || ClashesBy(rs, info, DuplicateGVK)
  {
    if Clashes(rs, info) {
      var i :| 0 <= i < |rs| && Clash(rs[i], info);
    }
    if ClashesBy(rs, info, DuplicateName) {
      var r :| r in rs && r.name == info.name;
      ClashesWith(rs, info, r);
    }
    if ClashesBy(rs, info, DuplicateGVR) {
      var r :| r in rs && r.group == info.group && r.version == info.version && r.resource == info.resource;
      ClashesWith(rs, info, r);
    }
    if ClashesBy(rs, info, DuplicateGVK) {
      var r :| r in rs && r.group == info.group && r.version == info.version && r.kind == info.kind;
      ClashesWith(rs, info, r);
    }
  }

  lemma ClashesWith(rs: seq<ResourceInfo>, info: ResourceInfo, r: ResourceInfo)
    requires r in rs && Clash(r, info)
    ensures Clashes(rs, info)
  {
    var i :| 0 <= i < |rs| && rs[i] == r;
    assert Clash(rs[i], info);
  }

  lemma WellDeclaredSnoc(rs: seq<ResourceInfo>, info: ResourceInfo)
    requires WellDeclared(rs) && !Clashes(rs, info)
    ensures WellDeclared(rs + [info])
  {
    var all := rs + [info];
    forall i, j | 0 <= i < j < |all| ensures !Clash(all[i], all[j]) {
      if j < |rs| { assert !Clash(rs[i], rs[j]); }
    }
  }

  // --------------------------------------------------------------- references

  // A resolved reference is a watched resource that carries it as name or kind.
  lemma LookupIsWatched(rs: seq<ResourceInfo>, ref: string)
    requires Lookup(rs, ref).Success?
    ensures var info := Lookup(rs, ref).value;
      info in rs && (ref == info.name || ref == info.kind)
  {
    FindNameMeans(rs, ref);
    OfKindMeans(rs, ref);
    var ks := OfKind(rs, ref);
    if FindName(rs, ref).None? { assert ks[0] in ks; }
  }

  lemma LookupByName(rs: seq<ResourceInfo>, r: ResourceInfo)
    requires WellDeclared(rs) && r in rs
    ensures Lookup(rs, r.name) == Success(r)
  {
    FindNameIs(rs, r);
  }

  ghost predicate OnlyOfKind(rs: seq<ResourceInfo>, kind: string, r: ResourceInfo)
  {
    exists i | 0 <= i < |rs| :: rs[i] == r && r.kind == kind && forall j | 0 <= j < |rs| && j != i :: rs[j].kind != kind
  }

  lemma {:induction false} OfKindSingle(rs: seq<ResourceInfo>, kind: string, r: ResourceInfo)
    ensures OfKind(rs, kind) == [r] <==> OnlyOfKind(rs, kind, r)
    ensures OfKind(rs, kind) == [] <==> forall i | 0 <= i < |rs| :: rs[i].kind != kind
  {
    if rs != [] {
      var rest := rs[1..];
      OfKindSingle(rest, kind, r);
      assert forall i | 0 < i < |rs| :: rs[i] == rest[i - 1];
      if rs[0].kind == kind {
        OfKindHead(rs, kind, r);
      } else {
        OfKindTail(rs, kind, r);
      }
    }
  }

  lemma OfKindHead(rs: seq<ResourceInfo>, kind: string, r: ResourceInfo)
    requires rs != [] && rs[0].kind == kind
    requires OfKind(rs[1..], kind) == [] <==> forall i | 0 <= i < |rs[1..]| :: rs[1..][i].kind != kind
    ensures OfKind(rs, kind) == [r] <==> OnlyOfKind(rs, kind, r)
  {
    var rest := OfKind(rs[1..], kind);
    assert OfKind(rs, kind) == [rs[0]] + rest;
    if OfKind(rs, kind) == [r] {
      assert rest == OfKind(rs, kind)[1..] == [] && ([rs[0]] + rest)[0] == r;
      forall j | 0 < j < |rs| ensures rs[j].kind != kind { assert rs[j] == rs[1..][j - 1]; }
    }
    if OnlyOfKind(rs, kind, r) {
      forall j | 0 <= j < |rs[1..]| ensures rs[1..][j].kind != kind { assert rs[1..][j] == rs[j + 1]; }
    }
  }

  lemma OfKindTail(rs: seq<ResourceInfo>, kind: string, r: ResourceInfo)
    requires rs != [] && rs[0].kind != kind
    requires OfKind(rs[1..], kind) == [r] <==> OnlyOfKind(rs[1..], kind, r)
    ensures OfKind(rs, kind) == [r] <==> OnlyOfKind(rs, kind, r)
  {
    var rest := rs[1..];
    assert OfKind(rs, kind) == [] + OfKind(rest, kind) == OfKind(rest, kind);
    if OnlyOfKind(rs, kind, r) {
      var i :| 0 <= i < |rs| && rs[i] == r && r.kind == kind
        && forall j | 0 <= j < |rs| && j != i :: rs[j].kind != kind;
      forall j | 0 <= j < |rest| && j != i - 1 ensures rest[j].kind != kind { assert rest[j] == rs[j + 1]; }
      assert rest[i - 1] == r;
    }
    if OnlyOfKind(rest, kind, r) {
      var i :| 0 <= i < |rest| && rest[i] == r && r.kind == kind
        && forall j | 0 <= j < |rest| && j != i :: rest[j].kind != kind;
      forall j | 0 < j < |rs| && j != i + 1 ensures rs[j].kind != kind { assert rs[j] == rest[j - 1]; }
      assert rs[i + 1] == r;
    }
  }

  // A reference stands for the declaration of that name, or without one for the
  // only declaration of that kind.
  lemma LookupMeans(rs: seq<ResourceInfo>, ref: string, r: ResourceInfo)
    requires WellDeclared(rs)
    ensures Lookup(rs, ref) == Success(r) <==>
      r in rs && (r.name == ref || ((forall x | x in rs :: x.name != ref) && OnlyOfKind(rs, ref, r)))
  {
    FindNameMeans(rs, ref);
    if r in rs && r.name == ref { FindNameIs(rs, r); }
    if |OfKind(rs, ref)| == 1 {
      assert OfKind(rs, ref) == [OfKind(rs, ref)[0]];
      OfKindSingle(rs, ref, OfKind(rs, ref)[0]);
    }
    OfKindSingle(rs, ref, r);
    assert OfKind(rs, ref) == [r] ==> |OfKind(rs, ref)| == 1 && OfKind(rs, ref)[0] == r;
  }

  // And otherwise for nothing: no declarations, none by that name or kind, or
  // several of that kind, which are listed by name.
  lemma LookupFails(rs: seq<ResourceInfo>, ref: string)
    requires Lookup(rs, ref).Failure?
    ensures match Lookup(rs, ref).error
            case NothingWatched => rs == []
            case NotRecognised(s) => s == ref && rs != [] && forall r | r in rs :: r.name != ref && r.kind != ref
            case AmbiguousReference(s, names) =>
              && s == ref && |names| >= 2 && Sorted(names)
              && (forall r | r in rs :: r.name != ref)
              && (forall n :: n in names <==> exists r | r in rs :: r.kind == ref && r.name == n)
  {
    if rs != [] {
      FindNameMeans(rs, ref);
      OfKindSingle(rs, ref, rs[0]);
      if Lookup(rs, ref).error.AmbiguousReference? { KindNames(rs, ref); }
    }
  }

  lemma KindNames(rs: seq<ResourceInfo>, kind: string)
    ensures var names := SortStrings(NamesOf(OfKind(rs, kind)));
      && |names| == |OfKind(rs, kind)|
      && forall n :: n in names <==> exists r | r in rs :: r.kind == kind && r.name == n
  {
    var ks := OfKind(rs, kind);
    var all, names := NamesOf(ks), SortStrings(NamesOf(ks));
    OfKindMeans(rs, kind);
    assert |multiset(names)| == |multiset(all)|;
    forall n ensures n in names <==> exists r | r in rs :: r.kind == kind && r.name == n {
      assert n in names <==> n in multiset(all);
      if n in all {
        var i :| 0 <= i < |ks| && all[i] == n;
        assert ks[i] in ks;
      }
      if r :| r in rs && r.kind == kind && r.name == n {
        var i :| 0 <= i < |ks| && ks[i] == r;
        assert all[i] == n;
      }
    }
  }

  lemma FindGVKIs(rs: seq<ResourceInfo>, gvk: GroupVersionKind, r: ResourceInfo)
    requires WellDeclared(rs)
    ensures FindGVK(rs, gvk) == Some(r) <==>
      && r in rs && r.version != "" && r.kind != ""
      && r.group == gvk.group && r.version == gvk.version && r.kind == gvk.kind
  {
    FindGVKMeans(rs, gvk);
    if r in rs && HasGVK(r) && r.GVK() == gvk {
      var i :| 0 <= i < |rs| && rs[i] == r;
      var j :| 0 <= j < |rs| && rs[j] == FindGVK(rs, gvk).value;
      SameEntry(rs, i, j);
    }
  }

  // The references that resolve: every name, and every kind with one resource.
  lemma Resolvable(rs: seq<ResourceInfo>, s: string)
    ensures Lookup(rs, s).Success? <==> exists j | 0 <= j < |rs| :: Names(rs, rs[j], s)
  {
    FindNameMeans(rs, s);
    OfKindMeans(rs, s);
    var ks := OfKind(rs, s);
    if |ks| == 1 {
      assert ks[0] in ks;
      var j :| 0 <= j < |rs| && rs[j] == ks[0];
      assert Names(rs, rs[j], s);
    }
    if FindName(rs, s).Some? {
      var j :| 0 <= j < |rs| && rs[j] == FindName(rs, s).value;
      assert Names(rs, rs[j], s);
    }
  }

  // --------------------------------------------------------------- the class

  class Registry {
    var resources: seq<ResourceInfo>
    var byName: map<string, ResourceInfo>
    var byGVK: map<GroupVersionKind, ResourceInfo>
    var byGVR: map<GroupVersionResource, ResourceInfo>
    var kindToNames: map<string, seq<string>>

    // The representation invariant: every index agrees with the declarations.
    ghost predicate Valid()
      reads this
    {
      && WellDeclared(resources)
      && byName == NameIndex(resources)
      && byGVK == GVKIndex(resources)
      && byGVR == GVRIndex(resources)
      && KindIndex(resources, kindToNames)
    }

    constructor ()
      ensures Valid() && resources == []
    {
      resources, byName, byGVK, byGVR, kindToNames := [], map[], map[], map[], map[];
    }

    // `ResourceFor`. An ambiguous lookup sorts the stored name list in place,
    // yet every answer is a function of the declarations alone.
    method ResourceFor(ref: string) returns (r: Result<ResourceInfo, LookupError>)
      requires Valid()
      modifies this`kindToNames
      ensures Valid()
      ensures r == Lookup(resources, ref)
    {
      if |resources| == 0 {
        return Failure(NothingWatched);
      }
      NameIndexScans(resources, ref);
      if ref in byName {
        return Success(byName[ref]);
      }
      var names := Stored(kindToNames, ref);
      KindIndexScans(resources, kindToNames, ref);
      if |names| == 0 {
        return Failure(NotRecognised(ref));
      }
      if |names| == 1 {
        return Success(byName[names[0]]);
      }
      SortedKindIndex(resources, kindToNames, ref);
      names := SortStrings(names);
      kindToNames := kindToNames[ref := names];
      return Failure(AmbiguousReference(ref, names));
    }

    // The body of the loop of `buildRegistry`. A duplicate may leave an index
    // half updated; the caller then discards the registry.
    method Add(info: ResourceInfo) returns (duplicate: Option<Duplicate>)
      requires Valid()
      modifies this
      ensures duplicate.None? ==> Valid() && resources == old(resources) + [info]
      ensures duplicate.Some? <==> Clashes(old(resources), info)
      ensures duplicate.Some? ==> ClashesBy(old(resources), info, duplicate.value)
    {
      ghost var before := resources;
      ClashesIndexed(before, info);
      ClashesSomehow(before, info);
      if info.name in byName {
        return Some(DuplicateName);
      }
      if HasGVR(info) {
        if info.GVR() in byGVR {
          return Some(DuplicateGVR);
        }
        byGVR := byGVR[info.GVR() := info];
      }
      if HasGVK(info) {
        if info.GVK() in byGVK {
          return Some(DuplicateGVK);
        }
        byGVK := byGVK[info.GVK() := info];
      }
      IndexesAdd(before, kindToNames, info);
      WellDeclaredSnoc(before, info);
      resources := resources + [info];
      byName := byName[info.name := info];
      kindToNames := AddKind(kindToNames, info);
      return None;
    }

    function ResourceForGVK(gvk: GroupVersionKind): (r: Option<ResourceInfo>)
      requires Valid()
      reads this
      ensures r == FindGVK(resources, gvk)
    {
      GVKIndexScans(resources, gvk);
      if gvk in byGVK then Some(byGVK[gvk]) else None
    }

    // `SourceNames`: the built-in sources, every name, and every kind that a
    // single resource declares.
    method SourceNames() returns (out: set<string>)
      requires Valid()
      ensures forall s :: s in out <==>
        || s == "anchor" || s == "item" || s == "ownerController" || s == "topController"
        || Lookup(resources, s).Success?
    {
      out := BUILTIN_SOURCES;
      for i := 0 to |resources|
        invariant NamesTo(resources, i, out)
      {
        var res := resources[i];
        KindCount(resources, kindToNames, res.kind);
        NamesNext(resources, i, out);
        out := out + {res.name};
        if |Stored(kindToNames, res.kind)| == 1 {
          out := out + {res.kind};
        } else {
          assert out + {} == out;
        }
      }
      NamesAll(resources, out);
    }
  }

  predicate Names(rs: seq<ResourceInfo>, r: ResourceInfo, s: string)
  {
    s == r.name || (s == r.kind && |OfKind(rs, s)| == 1)
  }

  // The built-in sources and what the first `i` declarations name.
  ghost predicate NamesTo(rs: seq<ResourceInfo>, i: nat, out: set<string>)
    requires i <= |rs|
  {
    forall s :: s in out <==> s in BUILTIN_SOURCES || exists j | 0 <= j < i :: Names(rs, rs[j], s)
  }

  lemma NamesNext(rs: seq<ResourceInfo>, i: nat, out: set<string>)
    requires i < |rs| && NamesTo(rs, i, out)
    ensures NamesTo(rs, i + 1, out + {rs[i].name} + if |OfKind(rs, rs[i].kind)| == 1 then {rs[i].kind} else {})
  {
    var next := out + {rs[i].name} + if |OfKind(rs, rs[i].kind)| == 1 then {rs[i].kind} else {};
    forall s ensures s in next <==> s in out || Names(rs, rs[i], s) {}
  }

  lemma NamesAll(rs: seq<ResourceInfo>, out: set<string>)
    requires NamesTo(rs, |rs|, out)
    ensures forall s :: s in out <==> s in BUILTIN_SOURCES || Lookup(rs, s).Success?
  {
    forall s ensures s in out <==> s in BUILTIN_SOURCES || Lookup(rs, s).Success? {
      Resolvable(rs, s);
    }
  }

  // -------------------------------------------------------------- building it

  ghost predicate Normalizes(watch: seq<WatchResource>, placeholders: bool, rs: seq<ResourceInfo>)
  {
    && |rs| == |watch|
    && forall i | 0 <= i < |watch| :: NormalizeResource(watch[i], placeholders) == Success(rs[i])
  }

  // The list the entries normalise to, with no name, GVR or GVK twice.
  ghost predicate Declares(watch: seq<WatchResource>, placeholders: bool, rs: seq<ResourceInfo>)
  {
    Normalizes(watch, placeholders, rs) && WellDeclared(rs)
  }

  ghost predicate Declarable(watch: seq<WatchResource>, placeholders: bool)
  {
    exists rs :: Declares(watch, placeholders, rs)
  }

  lemma DeclaresUnique(watch: seq<WatchResource>, placeholders: bool, a: seq<ResourceInfo>, b: seq<ResourceInfo>)
    requires Declares(watch, placeholders, a) && Declares(watch, placeholders, b)
    ensures a == b
  {
    forall i | 0 <= i < |a| ensures a[i] == b[i] {
      assert NormalizeResource(watch[i], placeholders) == Success(b[i]);
    }
  }

  lemma NormalizesOneMore(watch: seq<WatchResource>, placeholders: bool, i: nat, rs: seq<ResourceInfo>,
                          info: ResourceInfo)
    requires i < |watch| && Normalizes(watch[..i], placeholders, rs)
    requires NormalizeResource(watch[i], placeholders) == Success(info)
    ensures Normalizes(watch[..i + 1], placeholders, rs + [info])
  {
    forall j | 0 <= j < i ensures NormalizeResource(watch[j], placeholders) == Success(rs[j]) {
      assert watch[..i][j] == watch[j];
    }
  }

  lemma RejectsAt(watch: seq<WatchResource>, placeholders: bool, i: nat)
    requires i < |watch| && NormalizeResource(watch[i], placeholders).Failure?
    ensures !Declarable(watch, placeholders)
  {
    forall rs ensures !Declares(watch, placeholders, rs) {
      if |rs| == |watch| { assert NormalizeResource(watch[i], placeholders) != Success(rs[i]); }
    }
  }

  lemma ClashesAt(watch: seq<WatchResource>, placeholders: bool, i: nat, before: seq<ResourceInfo>, info: ResourceInfo)
    requires i < |watch| && Declares(watch[..i], placeholders, before)
    requires NormalizeResource(watch[i], placeholders) == Success(info)
    requires Clashes(before, info)
    ensures !Declarable(watch, placeholders)
  {
    var j :| 0 <= j < |before| && Clash(before[j], info);
    assert watch[..i][j] == watch[j];
    forall rs | |rs| == |watch| ensures !Declares(watch, placeholders, rs) {
      if (forall k | 0 <= k < |watch| :: NormalizeResource(watch[k], placeholders) == Success(rs[k])) {
        assert rs[i] == info && rs[j] == before[j];
      }
    }
  }

  // The first entry that cannot stand after those before it, and why.
  ghost predicate Offends(watch: seq<WatchResource>, placeholders: bool, e: RegistryError)
  {
    && e.index < |watch|
    && exists before ::
         && Declares(watch[..e.index], placeholders, before)
         && Refuses(before, NormalizeResource(watch[e.index], placeholders), e)
  }

  ghost predicate Refuses(before: seq<ResourceInfo>, normalized: Result<ResourceInfo, ResourceError>, e: RegistryError)
  {
    match e
    case BadResource(_, error) => normalized == Failure(error)
    case Duplicated(_, what) => normalized.Success? && ClashesBy(before, normalized.value, what)
  }

  // `buildRegistry`: one pass over watch.resources that keeps every index in
  // step with the declarations read so far.
  method BuildRegistry(watch: seq<WatchResource>, placeholders: bool) returns (r: Result<Registry, RegistryError>)
    ensures r.Success? ==> fresh(r.value) && r.value.Valid() && Declares(watch, placeholders, r.value.resources)
    ensures r.Failure? ==> !Declarable(watch, placeholders) && Offends(watch, placeholders, r.error)
  {
    var reg := new Registry();
    for i := 0 to |watch|
      invariant fresh(reg) && reg.Valid()
      invariant Declares(watch[..i], placeholders, reg.resources)
    {
      var normalized := NormalizeResource(watch[i], placeholders);
      if normalized.Failure? {
        RejectsAt(watch, placeholders, i);
        return Failure(BadResource(i, normalized.error));
      }
      var info := normalized.value;
      ghost var before := reg.resources;
      var duplicate := reg.Add(info);
      if duplicate.Some? {
        ClashesAt(watch, placeholders, i, before, info);
        return Failure(Duplicated(i, duplicate.value));
      }
      NormalizesOneMore(watch, placeholders, i, before, info);
    }
    assert watch[..|watch|] == watch;
    return Success(reg);
  }
}
