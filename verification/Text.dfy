// Strings as the exporter treats them: byte-wise ordering and sorting, white
// space, decimal numbers, and the character classes of its validation patterns.
// For valid UTF-8 the byte order used by `sort.Strings` is the code-point order.
module Text {
  import opened Wrappers
  import opened Sequences

  // ---------------------------------------------------------------- ordering

  predicate LexLe(a: string, b: string)
  {
    a == "" || (b != "" && (a[0] < b[0] || (a[0] == b[0] && LexLe(a[1..], b[1..]))))
  }

  predicate LexLt(a: string, b: string)
  {
    LexLe(a, b) && a != b
  }

  lemma {:induction false} LexTotal(a: string, b: string)
    ensures LexLe(a, b) || LexLe(b, a)
    ensures LexLe(a, a)
  {
    if a != "" {
      LexTotal(a[1..], if b == "" then "" else b[1..]);
    }
  }

  lemma {:induction false} LexAntisymmetric(a: string, b: string)
    requires LexLe(a, b) && LexLe(b, a)
    ensures a == b
  {
    if a != "" {
      LexAntisymmetric(a[1..], b[1..]);
      assert a == [a[0]] + a[1..] == [b[0]] + b[1..] == b;
    }
  }

  lemma {:induction false} LexTransitive(a: string, b: string, c: string)
    requires LexLe(a, b) && LexLe(b, c)
    ensures LexLe(a, c)
  {
    if a != "" && a[0] == b[0] == c[0] {
      LexTransitive(a[1..], b[1..], c[1..]);
    }
  }

  // The byte order: a prefix comes first, else the first difference decides.
  lemma {:induction false} LexMeans(a: string, b: string)
    ensures LexLe(a, b) <==> a <= b || exists i | 0 <= i < |a| && i < |b| :: a[..i] == b[..i] && a[i] < b[i]
  {
    if a != "" && b != "" && a[0] == b[0] {
      LexMeans(a[1..], b[1..]);
      assert a <= b <==> a[1..] <= b[1..] by { HeadAndPrefix(a, b); }
      if i :| 0 <= i < |a| && i < |b| && a[..i] == b[..i] && a[i] < b[i] {
        assert a[1..][..i - 1] == a[..i][1..] == b[..i][1..] == b[1..][..i - 1];
        assert a[1..][i - 1] < b[1..][i - 1];
      }
      if i :| 0 <= i < |a[1..]| && i < |b[1..]| && a[1..][..i] == b[1..][..i] && a[1..][i] < b[1..][i] {
        assert a[..i + 1] == [a[0]] + a[1..][..i] == b[..i + 1];
        assert a[i + 1] < b[i + 1];
      }
    } else if a != "" && b != "" && a[0] < b[0] {
      assert a[..0] == b[..0] && a[0] < b[0];
    } else if a != "" && b != "" {
      forall i | 0 < i < |a| && i < |b| ensures a[..i] != b[..i] { assert a[..i][0] == a[0] && b[..i][0] == b[0]; }
    }
  }

  lemma HeadAndPrefix(a: string, b: string)
    requires a != "" && b != "" && a[0] == b[0]
    ensures a <= b <==> a[1..] <= b[1..]
  {
    if a[1..] <= b[1..] {
      assert |a| <= |b|;
      forall i | 0 <= i < |a| ensures a[i] == b[i] {
        if i > 0 { assert a[i] == a[1..][i - 1] && b[i] == b[1..][i - 1]; }
      }
    }
  }

  ghost predicate Sorted(s: seq<string>)
  {
    forall i, j | 0 <= i < j < |s| :: LexLe(s[i], s[j])
  }

  ghost predicate StrictlySorted(s: seq<string>)
  {
    forall i, j | 0 <= i < j < |s| :: LexLt(s[i], s[j])
  }

  lemma PrependSorted(x: string, s: seq<string>)
    requires Sorted(s) && forall j | 0 <= j < |s| :: LexLe(x, s[j])
    ensures Sorted([x] + s)
  {
  }

  lemma BelowAll(x: string, s: seq<string>)
    requires Sorted(s) && s != [] && LexLe(x, s[0])
    ensures forall j | 0 <= j < |s| :: LexLe(x, s[j])
  {
    forall j | 0 <= j < |s| ensures LexLe(x, s[j]) {
      if j > 0 { LexTransitive(x, s[0], s[j]); }
    }
  }

  lemma HeadStaysFirst(x: string, s: seq<string>, rest: seq<string>)
    requires Sorted(s) && s != [] && !LexLe(x, s[0])
    requires multiset(rest) == multiset(s[1..]) + multiset{x}
    ensures forall j | 0 <= j < |rest| :: LexLe(s[0], rest[j])
    ensures multiset([s[0]] + rest) == multiset(s) + multiset{x}
  {
    LexTotal(x, s[0]);
    forall j | 0 <= j < |rest| ensures LexLe(s[0], rest[j]) {
      assert rest[j] in multiset(rest);
      assert rest[j] == x || rest[j] in s[1..];
    }
    assert s == [s[0]] + s[1..];
  }

  function Insert(x: string, s: seq<string>): (r: seq<string>)
    requires Sorted(s)
    ensures Sorted(r)
    ensures multiset(r) == multiset(s) + multiset{x}
  {
    if s == [] then [x]
    else if LexLe(x, s[0]) then
      BelowAll(x, s);
      PrependSorted(x, s);
      [x] + s
    else
      var rest := Insert(x, s[1..]);
      HeadStaysFirst(x, s, rest);
      PrependSorted(s[0], rest);
      [s[0]] + rest
  }

  // What `sort.Strings` leaves in the slice it is given.
  function SortStrings(s: seq<string>): (r: seq<string>)
    ensures Sorted(r)
    ensures multiset(r) == multiset(s)
  {
    if s == [] then []
    else
      assert s == [s[0]] + s[1..];
      Insert(s[0], SortStrings(s[1..]))
  }

  // A sorted arrangement is unique, so sorting forgets the order it started from.
  lemma {:induction false} SortedUnique(a: seq<string>, b: seq<string>)
    requires Sorted(a) && Sorted(b) && multiset(a) == multiset(b)
    ensures a == b
  {
    assert |multiset(a)| == |multiset(b)|;
    if a != [] {
      assert a[0] in multiset(b) && b[0] in multiset(a);
      HeadIsLeast(a, b[0]);
      HeadIsLeast(b, a[0]);
      LexAntisymmetric(a[0], b[0]);
      Uncons(a);
      Uncons(b);
      SortedUnique(a[1..], b[1..]);
    }
  }

  lemma HeadIsLeast(s: seq<string>, x: string)
    requires Sorted(s) && x in s
    ensures LexLe(s[0], x)
  {
    LexTotal(s[0], s[0]);
  }

  lemma SortForgetsOrder(a: seq<string>, b: seq<string>)
    requires multiset(a) == multiset(b)
    ensures SortStrings(a) == SortStrings(b)
  {
    SortedUnique(SortStrings(a), SortStrings(b));
  }

  lemma {:induction false} LeastExists(s: set<string>) returns (m: string)
    requires s != {}
    ensures m in s && forall k | k in s :: LexLe(m, k)
  {
    var x :| x in s;
    LexTotal(x, x);
    if s == {x} {
      m := x;
    } else {
      var y := LeastExists(s - {x});
      LexTotal(x, y);
      m := if LexLe(x, y) then x else y;
      forall k | k in s ensures LexLe(m, k) {
        if k != x { LexTransitive(m, y, k); }
      }
    }
  }

  lemma PrependListing(m: string, rest: seq<string>, s: set<string>)
    requires m in s && forall k | k in s :: LexLe(m, k)
    requires Lists(rest, s - {m}) && StrictlySorted(rest)
    ensures Lists([m] + rest, s) && StrictlySorted([m] + rest)
  {
    forall j | 0 <= j < |rest| ensures LexLt(m, rest[j]) {
      assert rest[j] in s - {m} by { assert rest[j] in Members(rest); }
    }
    assert Members([m] + rest) == {m} + Members(rest);
  }

  // The members of a set in ascending order.
  ghost function Ascending(s: set<string>): (r: seq<string>)
    ensures Lists(r, s) && StrictlySorted(r)
    ensures |r| == |s|
  {
    if s == {} then []
    else
      assert exists m :: m in s && forall k | k in s :: LexLe(m, k) by { var m := LeastExists(s); }
      var m :| m in s && forall k | k in s :: LexLe(m, k);
      var rest := Ascending(s - {m});
      PrependListing(m, rest, s);
      [m] + rest
  }

  lemma AscendingUnique(r: seq<string>, s: set<string>)
    requires Lists(r, s) && Sorted(r)
    ensures r == Ascending(s)
  {
    ListsMultiset(r, s);
    ListsMultiset(Ascending(s), s);
    SortedUnique(r, Ascending(s));
  }

  // ------------------------------------------------- listings of string sets

  lemma MembersNext(keys: seq<string>, i: nat)
    requires i < |keys|
    ensures Members(keys[..i + 1]) == Members(keys[..i]) + {keys[i]}
    ensures StrictlySorted(keys) ==> forall k | k in Members(keys[..i]) :: LexLt(k, keys[i])
  {
    assert keys[..i + 1] == keys[..i] + [keys[i]];
  }

  // Whatever comes before a listed string is listed before it.
  lemma ListedBefore(names: seq<string>, s: set<string>, i: nat, x: string) returns (j: nat)
    requires Lists(names, s) && StrictlySorted(names) && i < |names| && x in s && LexLt(x, names[i])
    ensures j < i && names[j] == x
  {
    ListsMembers(names, s);
    j :| j < |names| && names[j] == x;
    if j > i { LexAntisymmetric(names[i], names[j]); }
  }

  lemma SortedListing(keys: seq<string>, s: set<string>)
    requires Lists(keys, s)
    ensures SortStrings(keys) == Ascending(s)
  {
    ListsPermutation(keys, SortStrings(keys));
    AscendingUnique(SortStrings(keys), s);
  }

  // A `range` statement over the keys of a map, in an unspecified order.
  method RangeSet(s: set<string>) returns (keys: seq<string>)
    ensures Lists(keys, s)
  {
    keys := [];
    var todo := s;
    while todo != {}
      invariant todo <= s
      invariant Lists(keys, s - todo)
      decreases todo
    {
      var k :| k in todo;
      ListsAdd(keys, s - todo, k);
      assert s - (todo - {k}) == s - todo + {k};
      keys := keys + [k];
      todo := todo - {k};
    }
    assert s - {} == s;
  }

  // ------------------------------------------------------------- white space

  predicate IsSpace(c: char)
  {
    c == ' ' || '\t' <= c <= '\r'
  }

  predicate AllSpace(s: string)
  {
    forall i | 0 <= i < |s| :: IsSpace(s[i])
  }

  function TrimLeft(s: string): string
  {
    if s != "" && IsSpace(s[0]) then TrimLeft(s[1..]) else s
  }

  function TrimRight(s: string): string
  {
    if s != "" && IsSpace(s[|s| - 1]) then TrimRight(s[..|s| - 1]) else s
  }

  // `strings.TrimSpace` on ASCII text.
  function TrimSpace(s: string): string
  {
    TrimRight(TrimLeft(s))
  }

  // Text that trimming leaves alone.
  predicate Tight(s: string)
  {
    s == "" || (!IsSpace(s[0]) && !IsSpace(s[|s| - 1]))
  }

  lemma {:induction false} TrimLeftSkips(w: string, s: string)
    requires AllSpace(w) && (s == "" || !IsSpace(s[0]))
    ensures TrimLeft(w + s) == s
  {
    if w == "" {
      assert w + s == s;
    } else {
      assert (w + s)[1..] == w[1..] + s;
      TrimLeftSkips(w[1..], s);
    }
  }

  lemma {:induction false} TrimRightSkips(s: string, w: string)
    requires AllSpace(w) && (s == "" || !IsSpace(s[|s| - 1]))
    ensures TrimRight(s + w) == s
  {
    if w == "" {
      assert s + w == s;
    } else {
      assert (s + w)[..|s + w| - 1] == s + w[..|w| - 1];
      TrimRightSkips(s, w[..|w| - 1]);
    }
  }

  lemma TrimSpaceStrips(before: string, s: string, after: string)
    requires AllSpace(before) && AllSpace(after) && Tight(s) && s != ""
    ensures TrimSpace(before + s + after) == s
  {
    assert before + s + after == before + (s + after);
    TrimLeftSkips(before, s + after);
    TrimRightSkips(s, after);
  }

  lemma Visible(s: string)
    requires s != "" && !IsSpace(s[0])
    ensures TrimSpace(s) != ""
  {
    HeadStays(s);
  }

  lemma {:induction false} HeadStays(s: string)
    requires s != "" && !IsSpace(s[0])
    ensures TrimRight(s) != ""
  {
    if IsSpace(s[|s| - 1]) { HeadStays(s[..|s| - 1]); }
  }

  // Nothing is left of a text exactly if it is all white space.
  lemma TrimBlank(s: string)
    ensures TrimSpace(s) == "" <==> forall i | 0 <= i < |s| :: s[i] == ' ' || 9 <= s[i] as int <= 13
  {
    if AllSpace(s) {
      assert s + "" == s;
      TrimLeftSkips(s, "");
    } else {
      TrimLeftBlank(s);
      HeadStays(TrimLeft(s));
    }
  }

  lemma {:induction false} TrimLeftBlank(s: string)
    requires !AllSpace(s)
    ensures TrimLeft(s) != "" && !IsSpace(TrimLeft(s)[0])
  {
    if IsSpace(s[0]) {
      assert !AllSpace(s[1..]) by {
        var i :| 0 <= i < |s| && !IsSpace(s[i]);
        assert s[1..][i - 1] == s[i];
      }
      TrimLeftBlank(s[1..]);
    }
  }

  // ------------------------------------------------------- character classes

  predicate IsDigit(c: char)
  {
    '0' <= c <= '9'
  }

  predicate IsLower(c: char)
  {
    'a' <= c <= 'z'
  }

  predicate IsUpper(c: char)
  {
    'A' <= c <= 'Z'
  }

  predicate IsLetter(c: char)
  {
    IsLower(c) || IsUpper(c)
  }

  // ----------------------------------------------------------------- numbers

  predicate AllDigits(s: string)
  {
    forall i | 0 <= i < |s| :: IsDigit(s[i])
  }

  // The value of a run of decimal digits.
  function DigitsValue(s: string): nat
    requires AllDigits(s)
  {
    if s == "" then 0
    else 10 * DigitsValue(s[..|s| - 1]) + (s[|s| - 1] as int - '0' as int)
  }

  function Decimal(n: nat): (s: string)
    ensures s != "" && AllDigits(s)
    ensures DigitsValue(s) == n
  {
    var last := ['0' + (n % 10) as char];
    if n < 10 then last
    else
      var init := Decimal(n / 10);
      assert (init + last)[..|init + last| - 1] == init;
      init + last
  }

  function Itoa(n: int): string
  {
    if n < 0 then "-" + Decimal(-n) else Decimal(n)
  }

  const MIN_INT := -0x8000_0000_0000_0000
  const MAX_INT := 0x7fff_ffff_ffff_ffff

  predicate IsGoInt(n: int)
  {
    MIN_INT <= n <= MAX_INT
  }

  function DigitRun(s: string): (n: nat)
    ensures n <= |s| && AllDigits(s[..n])
    ensures n < |s| ==> !IsDigit(s[n])
  {
    if s == "" || !IsDigit(s[0]) then 0
    else
      var n := DigitRun(s[1..]);
      assert s[..n + 1] == [s[0]] + s[1..][..n];
      n + 1
  }

  // `fmt.Sscanf(s, "%d", &n)` on text without leading white space: an optional
  // sign, the longest run of digits, whatever follows ignored. No digits and a
  // value outside the 64-bit range are errors.
  function ScanDecimal(s: string): (r: Option<int>)
    ensures r.Some? ==> IsGoInt(r.value)
  {
    var signed := s != "" && (s[0] == '-' || s[0] == '+');
    var rest := if signed then s[1..] else s;
    var n := DigitRun(rest);
    if n == 0 then None
    else
      var magnitude: int := DigitsValue(rest[..n]);
      var v: int := if signed && s[0] == '-' then -magnitude else magnitude;
      if IsGoInt(v) then Some(v) else None
  }

  // A sign or none, digits up to `b` and no further, and their value.
  predicate NumberAt(s: string, b: nat, n: int)
    requires b <= |s|
  {
    var a := if s != "" && (s[0] == '-' || s[0] == '+') then 1 else 0;
    && a < b && (forall i | a <= i < b :: '0' <= s[i] <= '9') && (b < |s| ==> !('0' <= s[b] <= '9'))
    && -9223372036854775808 <= n <= 9223372036854775807
    && assert AllDigits(s[a..b]);
       var magnitude: int := DigitsValue(s[a..b]);
       n == if s[0] == '-' then -magnitude else magnitude
  }

  lemma DecimalMeans(s: string, n: int)
    ensures ScanDecimal(s) == Some(n) <==> exists b: nat :: b <= |s| && NumberAt(s, b, n)
  {
    var a := if s != "" && (s[0] == '-' || s[0] == '+') then 1 else 0;
    var rest := s[a..];
    var run := DigitRun(rest);
    assert s[a..a + run] == rest[..run];
    assert forall i | a <= i < |s| :: s[i] == rest[i - a];
    forall b: nat, m | b <= |s| && NumberAt(s, b, m) ensures b == a + run {
      assert b < a + run ==> IsDigit(rest[..run][b - a]);
    }
    forall i | a <= i < a + run ensures IsDigit(s[i]) { assert IsDigit(rest[..run][i - a]); }
    if ScanDecimal(s) == Some(n) { assert NumberAt(s, a + run, n); }
  }

  // Decimal: what a run of digits and its parts are worth.
  lemma {:induction false} DigitsAppend(a: string, b: string)
    requires AllDigits(a) && AllDigits(b)
    ensures DigitsValue(a + b) == DigitsValue(a) * TenTo(|b|) + DigitsValue(b)
    decreases |b|
  {
    if b == "" {
      assert a + b == a;
    } else {
      var init, last := b[..|b| - 1], b[|b| - 1];
      assert (a + b)[..|a + b| - 1] == a + init;
      DigitsAppend(a, init);
      TenTimes(DigitsValue(a), TenTo(|init|));
    }
  }

  function TenTo(n: nat): nat
  {
    if n == 0 then 1 else 10 * TenTo(n - 1)
  }

  lemma TenTimes(x: nat, y: nat)
    ensures 10 * (x * y) == x * (10 * y)
  {
  }

  lemma {:induction false} DigitRunAll(s: string)
    requires AllDigits(s)
    ensures DigitRun(s) == |s|
  {
    if s != "" { DigitRunAll(s[1..]); }
  }

  lemma ScanDigits(s: string)
    requires s != "" && AllDigits(s)
    ensures ScanDecimal(s) == if IsGoInt(DigitsValue(s)) then Some(DigitsValue(s)) else None
  {
    DigitRunAll(s);
    assert s[..|s|] == s;
  }

  lemma ScanItoa(n: int)
    requires IsGoInt(n)
    ensures ScanDecimal(Itoa(n)) == Some(n)
  {
    var d := Decimal(if n < 0 then -n else n);
    ScanDigits(d);
    if n < 0 {
      assert Itoa(n)[1..] == d;
      DigitRunAll(d);
      assert d[..|d|] == d;
    }
  }
}
