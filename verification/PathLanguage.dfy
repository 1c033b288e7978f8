// What the scanner accepts, stated without a cursor: the exact language, the
// documented grammar inside it, and the printed normal form.
module PathLanguage {
  import opened Wrappers
  import opened Text
  import opened PathSyntax

  // --------------------------------------------------- the accepted language

  datatype Token = Ident(name: string) | Sub(raw: string) | Dot

  function TokenText(t: Token): string
  {
    match t
    case Ident(name) => name
    case Sub(raw) => "[" + raw + "]"
    case Dot => "."
  }

  predicate IsIdent(s: string)
  {
    s != "" && IsIdentStart(s[0]) && forall k | 0 <= k < |s| :: IsIdentPart(s[k])
  }

  predicate TokenOk(t: Token)
  {
    match t
    case Ident(name) => IsIdent(name)
    case Sub(raw) => ']' !in raw && ParseSubscript(TrimSpace(raw)).Some?
    case Dot => true
  }

  // Identifiers are maximal and dots do not repeat; anything else may touch.
  predicate MayFollow(a: Token, b: Token)
  {
    !(a.Dot? && b.Dot?) && !(a.Ident? && b.Ident?)
  }

  ghost predicate TokensOk(ts: seq<Token>)
  {
    && (forall k | 0 <= k < |ts| :: TokenOk(ts[k]))
    && (forall k | 0 < k < |ts| :: MayFollow(ts[k - 1], ts[k]))
  }

  ghost predicate StartsStep(ts: seq<Token>)
  {
    ts != [] && !ts[0].Dot?
  }

  function TextOf(ts: seq<Token>): string
  {
    if ts == [] then "" else TokenText(ts[0]) + TextOf(ts[1..])
  }

  function Meaning(ts: seq<Token>): seq<Segment>
    requires forall k | 0 <= k < |ts| :: TokenOk(ts[k])
  {
    if ts == [] then [] else OwnMeaning(ts[0]) + Meaning(ts[1..])
  }

  function OwnMeaning(t: Token): seq<Segment>
    requires TokenOk(t)
  {
    match t
    case Dot => []
    case Ident(name) => [Field(name)]
    case Sub(raw) => [ParseSubscript(TrimSpace(raw)).value]
  }

  lemma SliceAt(p: string, i: nat, part: string, k: nat)
    requires i + |part| <= |p| && p[i..i + |part|] == part && k < |part|
    ensures p[i + k] == part[k]
  {
    assert p[i..i + |part|][k] == p[i + k];
  }

  lemma ClosingBracket(p: string, i: nat, raw: string)
    requires i + |raw| + 2 <= |p| && p[i..i + |raw| + 2] == "[" + raw + "]" && ']' !in raw
    ensures p[i] == '[' && IndexFrom(p, ']', i) == i + |raw| + 1
    ensures p[i + 1..i + |raw| + 1] == raw
  {
    var shown := "[" + raw + "]";
    forall k | 0 <= k < |shown| ensures p[i + k] == shown[k] { SliceAt(p, i, shown, k); }
    forall k | i <= k <= i + |raw| ensures p[k] != ']' { SliceAt(p, i, shown, k - i); }
    SliceAt(p, i, shown, |raw| + 1);
    assert p[i + 1..i + |raw| + 1] == shown[1..|raw| + 1];
  }

  lemma WholeIdent(p: string, i: nat, name: string)
    requires i + |name| <= |p| && p[i..i + |name|] == name
    requires forall k | 0 <= k < |name| :: IsIdentPart(name[k])
    requires i + |name| < |p| ==> !IsIdentPart(p[i + |name|])
    ensures IdentEnd(p, i) == i + |name|
  {
    forall k | i <= k < i + |name| ensures IsIdentPart(p[k]) { SliceAt(p, i, name, k - i); }
  }

  lemma StepSub(p: string, i: nat, needStep: bool, raw: string)
    requires i + |raw| + 2 <= |p| && p[i..i + |raw| + 2] == "[" + raw + "]" && TokenOk(Sub(raw))
    ensures Step(p, i, needStep) == Took(OwnMeaning(Sub(raw)), i + |raw| + 2, false)
  {
    ClosingBracket(p, i, raw);
  }

  lemma StepIdent(p: string, i: nat, needStep: bool, name: string)
    requires i + |name| <= |p| && p[i..i + |name|] == name && IsIdent(name)
    requires i + |name| < |p| ==> !IsIdentPart(p[i + |name|])
    ensures Step(p, i, needStep) == Took([Field(name)], i + |name|, false)
  {
    SliceAt(p, i, name, 0);
    WholeIdent(p, i, name);
  }

  lemma FirstChar(ts: seq<Token>)
    requires ts != [] && TokenOk(ts[0])
    ensures TextOf(ts) != ""
    ensures ts[0].Dot? <==> TextOf(ts)[0] == '.'
    ensures ts[0].Sub? <==> TextOf(ts)[0] == '['
    ensures ts[0].Ident? <==> IsIdentStart(TextOf(ts)[0])
  {
  }

  lemma TailOk(ts: seq<Token>)
    requires TokensOk(ts) && ts != []
    ensures TokensOk(ts[1..])
  {
    var rest := ts[1..];
    forall k | 0 < k < |rest| ensures MayFollow(rest[k - 1], rest[k]) {
      assert rest[k - 1] == ts[k] && rest[k] == ts[k + 1];
    }
  }

  lemma TokensCons(t: Token, rest: seq<Token>)
    requires TokenOk(t) && TokensOk(rest) && (rest != [] ==> MayFollow(t, rest[0]))
    ensures TokensOk([t] + rest)
    ensures Meaning([t] + rest) == OwnMeaning(t) + Meaning(rest)
    ensures TextOf([t] + rest) == TokenText(t) + TextOf(rest)
  {
    var ts := [t] + rest;
    assert ts[1..] == rest;
    forall k | 0 < k < |ts| ensures MayFollow(ts[k - 1], ts[k]) {
      if k > 1 { assert ts[k - 1] == rest[k - 2] && ts[k] == rest[k - 1]; }
    }
  }

  lemma FirstTokenAt(p: string, i: nat, ts: seq<Token>) returns (j: nat)
    requires i <= |p| && p[i..] == TextOf(ts) && ts != []
    ensures j == i + |TokenText(ts[0])| <= |p|
    ensures p[i..j] == TokenText(ts[0]) && p[j..] == TextOf(ts[1..])
  {
    var first := TokenText(ts[0]);
    j := i + |first|;
    assert p[i..j] == p[i..][..|first|];
    assert p[j..] == p[i..][|first|..];
  }

  lemma NextIsNotIdent(p: string, j: nat, rest: seq<Token>)
    requires j < |p| && p[j..] == TextOf(rest) && TokensOk(rest) && (rest != [] ==> !rest[0].Ident?)
    ensures !IsIdentPart(p[j])
  {
    FirstChar(rest);
    assert p[j] == p[j..][0];
  }

  // One step of the scanner consumes exactly one token.
  lemma StepFirst(p: string, i: nat, needStep: bool, ts: seq<Token>) returns (j: nat)
    requires i < |p| && p[i..] == TextOf(ts) && TokensOk(ts) && ts != []
    requires needStep ==> !ts[0].Dot?
    ensures i < j <= |p| && p[j..] == TextOf(ts[1..])
    ensures Step(p, i, needStep) == Took(OwnMeaning(ts[0]), j, ts[0].Dot?)
  {
    j := FirstTokenAt(p, i, ts);
    match ts[0] {
      case Dot =>
        SliceAt(p, i, ".", 0);
      case Sub(raw) =>
        StepSub(p, i, needStep, raw);
      case Ident(name) =>
        if j < |p| {
          TailOk(ts);
          if |ts| > 1 { assert MayFollow(ts[0], ts[1]); }
          NextIsNotIdent(p, j, ts[1..]);
        }
        StepIdent(p, i, needStep, name);
    }
  }

  // Completeness: the text of a token list scans to the meaning of the list.
  lemma {:induction false} ScanTokens(p: string, i: nat, needStep: bool, ts: seq<Token>)
    requires i <= |p| && p[i..] == TextOf(ts) && TokensOk(ts)
    requires needStep && ts != [] ==> !ts[0].Dot?
    ensures Scan(p, i, needStep) == Success(Meaning(ts))
    decreases |ts|
  {
    if ts == [] {
      assert i == |p|;
    } else {
      FirstChar(ts);
      var j := StepFirst(p, i, needStep, ts);
      TailOk(ts);
      if |ts| > 1 { assert MayFollow(ts[0], ts[1]); }
      ScanTokens(p, j, ts[0].Dot?, ts[1..]);
    }
  }

  lemma TokenScanned(p: string, i: nat, needStep: bool) returns (t: Token, j: nat)
    requires i < |p| && Step(p, i, needStep).Took?
    ensures i < j <= |p| && TokenText(t) == p[i..j] && TokenOk(t)
    ensures Step(p, i, needStep) == Took(OwnMeaning(t), j, t.Dot?)
    ensures needStep ==> !t.Dot?
    ensures t.Ident? && j < |p| ==> !IsIdentPart(p[j])
  {
    if p[i] == '.' {
      t, j := Dot, i + 1;
    } else if p[i] == '[' {
      var end := IndexFrom(p, ']', i);
      SubText(p, i, end);
      t, j := Sub(p[i + 1..end]), end + 1;
    } else {
      j := IdentEnd(p, i);
      IdentText(p, i, j);
      t := Ident(p[i..j]);
    }
  }

  lemma JoinSlices(p: string, i: nat, j: nat)
    requires i <= j <= |p|
    ensures p[i..j] + p[j..] == p[i..]
  {
  }

  lemma SubText(p: string, i: nat, end: nat)
    requires i < end < |p| && p[i] == '[' && p[end] == ']'
    requires forall k | i <= k < end :: p[k] != ']'
    ensures "[" + p[i + 1..end] + "]" == p[i..end + 1] && ']' !in p[i + 1..end]
  {
  }

  lemma IdentText(p: string, i: nat, j: nat)
    requires i < j <= |p| && IsIdentStart(p[i])
    requires forall k | i <= k < j :: IsIdentPart(p[k])
    ensures IsIdent(p[i..j])
  {
  }

  // Soundness: whatever scans splits into tokens with that meaning.
  lemma {:induction false} SplitScanned(p: string, i: nat, needStep: bool) returns (ts: seq<Token>)
    requires i <= |p| && Scan(p, i, needStep).Success?
    ensures TokensOk(ts) && TextOf(ts) == p[i..]
    ensures needStep && ts != [] ==> !ts[0].Dot?
    ensures Scan(p, i, needStep) == Success(Meaning(ts))
    decreases |p| - i
  {
    if i == |p| {
      ts := [];
    } else {
      var t, j := TokenScanned(p, i, needStep);
      var rest := SplitScanned(p, j, t.Dot?);
      if rest != [] {
        FirstChar(rest);
        assert p[j] == p[j..][0];
      }
      TokensCons(t, rest);
      ts := [t] + rest;
      JoinSlices(p, i, j);
    }
  }

  // The exact accepted language: the body splits into identifiers, valid
  // subscripts and dots, starting with a field or subscript, and the segments
  // are those of the split.
  lemma AcceptedLanguage(expr: string, segments: seq<Segment>)
    ensures Parse(expr) == Success(segments) <==>
      exists ts :: TokensOk(ts) && StartsStep(ts) && TextOf(ts) == Body(expr) && Meaning(ts) == segments
  {
    var p := Body(expr);
    assert p[0..] == p;
    if Parse(expr) == Success(segments) {
      var ts := SplitScanned(p, 0, true);
      assert ts != [];
      assert StartsStep(ts);
    }
    forall ts | TokensOk(ts) && StartsStep(ts) && TextOf(ts) == p && Meaning(ts) == segments
      ensures Parse(expr) == Success(segments)
    {
      FirstChar(ts);
      ScanTokens(p, 0, true, ts);
    }
  }

  // ------------------------------------------------------------ what is wrong

  // Whatever fails to scan splits into tokens up to the place where it fails.
  lemma {:induction false} SplitStopped(p: string, i: nat, needStep: bool) returns (ts: seq<Token>, k: nat)
    requires i <= |p| && Scan(p, i, needStep).Failure?
    ensures i <= k < |p| && TokensOk(ts) && TextOf(ts) == p[i..k]
    ensures needStep && ts != [] ==> !ts[0].Dot?
    ensures Step(p, k, if ts == [] then needStep else ts[|ts| - 1].Dot?) == Stopped(Scan(p, i, needStep).error)
    decreases |p| - i
  {
    if Step(p, i, needStep).Stopped? {
      ts, k := [], i;
    } else {
      var t, j := TokenScanned(p, i, needStep);
      var rest, end := SplitStopped(p, j, t.Dot?);
      ts, k := [t] + rest, end;
      OneMoreToken(p, i, j, end, t, rest);
      assert rest != [] ==> ts[|ts| - 1] == rest[|rest| - 1];
    }
  }

  lemma OneMoreToken(p: string, i: nat, j: nat, k: nat, t: Token, rest: seq<Token>)
    requires i < j <= k <= |p| && TokenText(t) == p[i..j] && TextOf(rest) == p[j..k]
    requires TokenOk(t) && TokensOk(rest) && (t.Dot? && rest != [] ==> !rest[0].Dot?)
    requires t.Ident? && j < |p| ==> !IsIdentPart(p[j])
    ensures TokensOk([t] + rest) && TextOf([t] + rest) == p[i..k]
  {
    if rest != [] {
      NextToken(p, j, k, rest);
      assert MayFollow(t, rest[0]);
    }
    TokensCons(t, rest);
    JoinParts(p, i, j, k);
  }

  lemma JoinParts(p: string, i: nat, j: nat, k: nat)
    requires i <= j <= k <= |p|
    ensures p[i..j] + p[j..k] == p[i..k]
  {
  }

  lemma NextToken(p: string, j: nat, k: nat, rest: seq<Token>)
    requires j <= k <= |p| && TextOf(rest) == p[j..k] && TokensOk(rest) && rest != []
    ensures j < |p| && (rest[0].Ident? ==> IsIdentPart(p[j]))
  {
    FirstChar(rest);
    assert p[j] == p[j..k][0];
  }

  // What stands at position `k` when the text before it splits into these tokens.
  ghost predicate FaultAt(p: string, ts: seq<Token>, k: nat, e: ParseError)
    requires k < |p|
  {
    || (e == UnexpectedDot(k) && p[k] == '.' && (ts == [] || ts[|ts| - 1].Dot?))
    || (e == UnterminatedSubscript(k) && p[k] == '[' && ']' !in p[k..])
    || (p[k] == '[' && exists end :: k < end < |p| && BadSubscript(p, k, end, e))
    || (e == UnexpectedChar(k) && p[k] != '.' && p[k] != '[' && p[k] != '_'
        && !('a' <= p[k] <= 'z') && !('A' <= p[k] <= 'Z'))
  }

  predicate BadSubscript(p: string, k: nat, end: nat, e: ParseError)
    requires k < end < |p|
  {
    && p[end] == ']' && ']' !in p[k..end]
    && var token := TrimSpace(p[k + 1..end]); e == InvalidSubscript(token) && ParseSubscript(token).None?
  }

  // An error names the first fault: an empty body, or at the end of a prefix that
  // splits a dot too many, a subscript that does not end or means nothing, or a
  // character that starts nothing.
  lemma ErrorMeans(expr: string)
    requires Parse(expr).Failure?
    ensures
      || (Parse(expr).error == EmptyPath && Body(expr) == "")
      || exists ts, k | 0 <= k < |Body(expr)| ::
           TokensOk(ts) && TextOf(ts) == Body(expr)[..k] && FaultAt(Body(expr), ts, k, Parse(expr).error)
  {
    var p := Body(expr);
    if p != "" {
      if Scan(p, 0, true).Success? {
        var tokens := SplitScanned(p, 0, true);
        assert p[0..] == p;
        MeansSomething(tokens);
      } else {
        var ts, k := SplitStopped(p, 0, true);
        assert p[0..k] == p[..k];
        StopIsFault(p, ts, k, Scan(p, 0, true).error);
      }
    }
  }

  lemma StopIsFault(p: string, ts: seq<Token>, k: nat, e: ParseError)
    requires k < |p| && Step(p, k, if ts == [] then true else ts[|ts| - 1].Dot?) == Stopped(e)
    ensures FaultAt(p, ts, k, e)
  {
    if p[k] == '[' {
      var end := IndexFrom(p, ']', k);
      if end < |p| {
        assert BadSubscript(p, k, end, e);
      }
    }
  }

  lemma MeansSomething(ts: seq<Token>)
    requires TokensOk(ts) && ts != [] && !ts[0].Dot?
    ensures Meaning(ts) != []
  {
  }

  // A subscript is a star, quoted text, or a decimal number within the width of
  // an int, with or without a sign, whatever follows it.
  lemma SubscriptMeans(token: string, s: Segment)
    ensures ParseSubscript(token) == Some(s) <==>
      match s
      case Wildcard => token == "*"
      case Field(name) => exists quote :: (quote == '"' || quote == '\'') && token == [quote] + name + [quote]
      case Index(n) => exists b: nat :: b <= |token| && NumberAt(token, b, n)
  {
    match s {
      case Wildcard =>
      case Field(name) =>
        if quote :| (quote == '"' || quote == '\'') && token == [quote] + name + [quote] { QuotedParses(quote, name); }
        if ParseSubscript(token) == Some(s) { assert token == [token[0]] + name + [token[0]]; }
      case Index(n) =>
        DecimalMeans(token, n);
    }
  }

  // The text of a token list parses to its meaning.
  lemma TokensParse(ts: seq<Token>)
    requires TokensOk(ts) && StartsStep(ts)
    ensures Parse(TextOf(ts)) == Success(Meaning(ts))
  {
    BodyOfTokens(ts);
    AcceptedLanguage(TextOf(ts), Meaning(ts));
  }

  // The language is unambiguous: no text has two splits.
  lemma {:induction false} SplitUnique(a: seq<Token>, b: seq<Token>)
    requires TokensOk(a) && TokensOk(b) && TextOf(a) == TextOf(b)
    ensures a == b
    decreases |a|
  {
    if a == [] {
      if b != [] { FirstChar(b); }
    } else {
      FirstChar(a);
      if b == [] { assert false; }
      FirstChar(b);
      var p := TextOf(a);
      assert p == p[0..];
      FirstTokenEnd(a);
      FirstTokenEnd(b);
      assert a[0] == b[0];
      TailOk(a);
      TailOk(b);
      assert TextOf(a[1..]) == p[|TokenText(a[0])|..] == TextOf(b[1..]);
      SplitUnique(a[1..], b[1..]);
      assert a == [a[0]] + a[1..] && b == [b[0]] + b[1..];
    }
  }

  // The text alone determines the first token.
  lemma FirstTokenEnd(ts: seq<Token>)
    requires TokensOk(ts) && ts != []
    ensures var p, end := TextOf(ts), IndexFrom(TextOf(ts), ']', 0);
      && (ts[0].Sub? ==> 0 < end < |p| && ts[0].raw == p[1..end])
      && (ts[0].Ident? ==> ts[0].name == p[..IdentEnd(p, 0)])
  {
    var p, first, rest := TextOf(ts), TokenText(ts[0]), ts[1..];
    assert p[0..|first|] == first;
    match ts[0] {
      case Dot =>
      case Sub(raw) => ClosingBracket(p, 0, raw);
      case Ident(name) =>
        if rest != [] {
          assert MayFollow(ts[0], ts[1]);
          FirstChar(rest);
          assert p[|name|] == TextOf(rest)[0];
        }
        WholeIdent(p, 0, name);
    }
  }

  // ----------------------------------------------------------- normal form

  // The shape of every segment the parser can produce.
  predicate Printable(s: Segment)
  {
    match s
    case Field(name) => ']' !in name
    case Index(n) => -9223372036854775808 <= n <= 9223372036854775807
    case Wildcard => true
  }

  function Subscript(s: Segment): string
  {
    match s
    case Field(name) => "\"" + name + "\""
    case Index(n) => Itoa(n)
    case Wildcard => "*"
  }

  function PrintTokens(segments: seq<Segment>): (ts: seq<Token>)
    ensures |ts| == |segments| && forall k | 0 <= k < |ts| :: ts[k] == Sub(Subscript(segments[k]))
  {
    seq(|segments|, i requires 0 <= i < |segments| => Sub(Subscript(segments[i])))
  }

  // `["name"]`, `[n]`, `[*]`, side by side.
  function Print(segments: seq<Segment>): string
  {
    TextOf(PrintTokens(segments))
  }

  lemma QuotedParses(quote: char, name: string)
    requires IsQuote(quote)
    ensures ParseSubscript([quote] + name + [quote]) == Some(Field(name))
  {
    var token := [quote] + name + [quote];
    assert token[1..|token| - 1] == name;
  }

  lemma ItoaShape(n: int)
    ensures |Itoa(n)| > 0 && forall k | 0 <= k < |Itoa(n)| :: Itoa(n)[k] == '-' || IsDigit(Itoa(n)[k])
  {
  }

  lemma NumberParses(n: int)
    requires IsGoInt(n)
    ensures ParseSubscript(Itoa(n)) == Some(Index(n))
    ensures ']' !in Itoa(n) && Tight(Itoa(n))
  {
    ScanItoa(n);
    ItoaShape(n);
  }

  lemma SubscriptParses(s: Segment)
    requires Printable(s)
    ensures ']' !in Subscript(s) && Tight(Subscript(s))
    ensures ParseSubscript(Subscript(s)) == Some(s)
  {
    match s {
      case Field(name) => QuotedParses('"', name);
      case Index(n) => NumberParses(n);
      case Wildcard =>
    }
  }

  lemma TightTrims(s: string)
    requires Tight(s)
    ensures TrimSpace(s) == s
  {
    if s != "" {
      assert "" + s + "" == s;
      TrimSpaceStrips("", s, "");
    }
  }

  lemma {:induction false} MeaningOfSubscripts(ts: seq<Token>, segments: seq<Segment>)
    requires |ts| == |segments|
    requires forall k | 0 <= k < |ts| :: ts[k] == Sub(Subscript(segments[k])) && Printable(segments[k])
    ensures TokensOk(ts) && Meaning(ts) == segments
  {
    forall k | 0 <= k < |ts| ensures TokenOk(ts[k]) {
      SubscriptParses(segments[k]);
      TightTrims(Subscript(segments[k]));
    }
    if ts != [] {
      MeaningOfSubscripts(ts[1..], segments[1..]);
      SubscriptParses(segments[0]);
      TightTrims(Subscript(segments[0]));
      assert segments == [segments[0]] + segments[1..];
    }
  }

  lemma TrimKeepsOut(c: char, s: string)
    requires c !in s
    ensures c !in TrimSpace(s)
  {
    TrimLeftKeepsOut(c, s);
    TrimRightKeepsOut(c, TrimLeft(s));
  }

  lemma {:induction false} TrimLeftKeepsOut(c: char, s: string)
    requires c !in s
    ensures c !in TrimLeft(s)
  {
    if s != "" { TrimLeftKeepsOut(c, s[1..]); }
  }

  lemma {:induction false} TrimRightKeepsOut(c: char, s: string)
    requires c !in s
    ensures c !in TrimRight(s)
  {
    if s != "" { TrimRightKeepsOut(c, s[..|s| - 1]); }
  }

  lemma {:induction false} MeaningPrintable(ts: seq<Token>)
    requires forall k | 0 <= k < |ts| :: TokenOk(ts[k])
    ensures forall k | 0 <= k < |Meaning(ts)| :: Printable(Meaning(ts)[k])
  {
    if ts != [] {
      MeaningPrintable(ts[1..]);
      match ts[0] {
        case Dot =>
        case Ident(name) =>
        case Sub(raw) => TrimKeepsOut(']', raw);
      }
    }
  }

  lemma ParsedIsPrintable(expr: string)
    requires Parse(expr).Success?
    ensures Parse(expr).value != []
    ensures forall k | 0 <= k < |Parse(expr).value| :: Printable(Parse(expr).value[k])
  {
    var segments := Parse(expr).value;
    AcceptedLanguage(expr, segments);
    var ts :| TokensOk(ts) && StartsStep(ts) && TextOf(ts) == Body(expr) && Meaning(ts) == segments;
    MeaningPrintable(ts);
  }

  // A segment list is recovered from its print exactly when it is non-empty,
  // its indices fit an int and no field name holds a `]`.
  lemma PrintRoundTrip(segments: seq<Segment>)
    ensures Parse(Print(segments)) == Success(segments) <==>
      segments != [] && forall k | 0 <= k < |segments| :: Printable(segments[k])
  {
    var ts := PrintTokens(segments);
    if segments != [] && forall k | 0 <= k < |segments| :: Printable(segments[k]) {
      MeaningOfSubscripts(ts, segments);
      FirstChar(ts);
      BodyOfTokens(ts);
      AcceptedLanguage(Print(segments), segments);
    }
    if Parse(Print(segments)) == Success(segments) {
      ParsedIsPrintable(Print(segments));
    }
  }

  // Printing any accepted expression and parsing again changes nothing.
  lemma NormalForm(expr: string)
    requires Parse(expr).Success?
    ensures Parse(Print(Parse(expr).value)) == Parse(expr)
  {
    ParsedIsPrintable(expr);
    PrintRoundTrip(Parse(expr).value);
  }

  // ------------------------------------------------- the documented grammar

  // One step of a documented path: a field, or a subscript holding digits, a
  // star or quoted text.
  datatype DocStep =
    | DocField(name: string)
    | DocIndex(digits: string)
    | DocWildcard
    | DocQuoted(quote: char, text: string)

  predicate DocStepOk(s: DocStep)
  {
    match s
    case DocField(name) => IsDocName(name)
    case DocIndex(digits) => digits != "" && AllDigits(digits)
    case DocWildcard => true
    case DocQuoted(quote, _) => quote == '"' || quote == '\''
  }

  // The documented pattern of a field: `[A-Za-z_][A-Za-z0-9_-]*`.
  predicate IsDocName(s: string)
  {
    && s != "" && !('0' <= s[0] <= '9') && s[0] != '-'
    && forall i | 0 <= i < |s| ::
         'a' <= s[i] <= 'z' || 'A' <= s[i] <= 'Z' || '0' <= s[i] <= '9' || s[i] == '_' || s[i] == '-'
  }

  lemma IdentIsDocumented(s: string)
    ensures IsIdent(s) <==> IsDocName(s)
  {
  }

  function DocRaw(s: DocStep): string
    requires !s.DocField?
  {
    match s
    case DocIndex(digits) => digits
    case DocWildcard => "*"
    case DocQuoted(quote, text) => [quote] + text + [quote]
  }

  // Fields after the first step are preceded by a dot.
  function DocTokens(steps: seq<DocStep>, first: bool): seq<Token>
  {
    if steps == [] then []
    else
      (match steps[0]
       case DocField(name) => if first then [Ident(name)] else [Dot, Ident(name)]
       case _ => [Sub(DocRaw(steps[0]))])
      + DocTokens(steps[1..], false)
  }

  function DocText(steps: seq<DocStep>): string
  {
    TextOf(DocTokens(steps, true))
  }

  function DocSegment(s: DocStep): Segment
    requires DocStepOk(s)
  {
    match s
    case DocField(name) => Field(name)
    case DocIndex(digits) => Index(DigitsValue(digits))
    case DocWildcard => Wildcard
    case DocQuoted(_, text) => Field(text)
  }

  function DocMeaning(steps: seq<DocStep>): seq<Segment>
    requires forall k | 0 <= k < |steps| :: DocStepOk(steps[k])
  {
    if steps == [] then [] else [DocSegment(steps[0])] + DocMeaning(steps[1..])
  }

  // Beyond the documented grammar: an index must fit an int and quoted text
  // must not hold a `]`, quoted or not.
  predicate StepSupported(s: DocStep)
  {
    match s
    case DocIndex(digits) => AllDigits(digits) && DigitsValue(digits) <= 9223372036854775807
    case DocQuoted(_, text) => ']' !in text
    case _ => true
  }

  lemma DocRawParses(s: DocStep)
    requires DocStepOk(s) && StepSupported(s) && !s.DocField?
    ensures TokenOk(Sub(DocRaw(s)))
    ensures ParseSubscript(TrimSpace(DocRaw(s))) == Some(DocSegment(s))
  {
    var raw := DocRaw(s);
    TightTrims(raw);
    match s {
      case DocIndex(digits) =>
        assert raw[0] in raw && raw[|raw| - 1] in raw;
        ScanDigits(digits);
      case DocWildcard =>
      case DocQuoted(quote, text) =>
        QuotedParses(quote, text);
    }
  }

  lemma {:induction false} DocTokensMean(steps: seq<DocStep>, first: bool)
    requires forall k | 0 <= k < |steps| :: DocStepOk(steps[k]) && StepSupported(steps[k])
    ensures var ts := DocTokens(steps, first);
      && TokensOk(ts) && Meaning(ts) == DocMeaning(steps)
      && (steps == [] <==> ts == [])
      && (first && steps != [] ==> !ts[0].Dot?)
      && (!first && steps != [] ==> !ts[0].Ident?)
  {
    if steps != [] {
      var ts, rest := DocTokens(steps, first), DocTokens(steps[1..], false);
      DocTokensMean(steps[1..], false);
      if steps[0].DocField? {
        var own := Ident(steps[0].name);
        TokensCons(own, rest);
        if !first {
          TokensCons(Dot, [own] + rest);
          assert ts == [Dot] + ([own] + rest);
        }
      } else {
        DocRawParses(steps[0]);
        TokensCons(Sub(DocRaw(steps[0])), rest);
      }
    }
  }

  // The accepted decorations: white space, braces, `.`, `$.` or both.
  function Decorate(before: string, braces: bool, inner: string, root: string, s: string, innerEnd: string,
                    after: string): string
  {
    if braces then before + "{" + (inner + (root + s) + innerEnd) + "}" + after
    else before + (root + s) + after
  }

  predicate IsRoot(root: string)
  {
    root == "" || root == "." || root == "$." || root == ".$."
  }

  predicate PlainPath(s: string)
  {
    s != "" && Tight(s) && s[0] != '.' && s[0] != '$' && s[0] != '{'
  }

  lemma CoreIsTight(root: string, s: string)
    requires IsRoot(root) && PlainPath(s)
    ensures root + s != "" && Tight(root + s) && (root + s)[0] != '{'
  {
    var core := root + s;
    assert core[|core| - 1] == s[|s| - 1];
    assert root == "" ==> core == s;
  }

  lemma Unwrapped(before: string, content: string, after: string)
    requires AllSpace(before) && AllSpace(after)
    ensures var p := TrimSpace(before + "{" + content + "}" + after);
      "{" <= p && p[|p| - 1] == '}' && p[1..|p| - 1] == content
  {
    var p := "{" + content + "}";
    assert before + "{" + content + "}" + after == before + p + after;
    TrimSpaceStrips(before, p, after);
  }

  // Decorating a plain path changes nothing of what is scanned.
  lemma DecorationIsInvisible(before: string, braces: bool, inner: string, root: string, s: string, innerEnd: string,
                              after: string)
    requires AllSpace(before) && AllSpace(inner) && AllSpace(innerEnd) && AllSpace(after)
    requires IsRoot(root) && PlainPath(s)
    ensures Body(Decorate(before, braces, inner, root, s, innerEnd, after)) == s
  {
    var core := root + s;
    CoreIsTight(root, s);
    if braces {
      Unwrapped(before, inner + core + innerEnd, after);
      TrimSpaceStrips(inner, core, innerEnd);
    } else {
      TrimSpaceStrips(before, core, after);
    }
    RootStrips(root, s);
  }

  lemma RootStrips(root: string, s: string)
    requires IsRoot(root) && PlainPath(s)
    ensures TrimPrefix(TrimPrefix(root + s, "."), "$.") == s
  {
    var core := root + s;
    if root == "" {
      assert core == s;
    } else if root == "." {
      assert core[1..] == s;
    } else if root == "$." {
      assert core[0] == '$';
      assert core[2..] == s;
      assert "$." <= core;
    } else {
      assert core[1..] == "$." + s;
      assert core[1..][2..] == s;
      assert "$." <= core[1..];
    }
  }

  lemma {:induction false} TextIsTight(ts: seq<Token>)
    requires TokensOk(ts)
    ensures Tight(TextOf(ts))
  {
    if ts != [] {
      FirstChar(ts);
      TailOk(ts);
      TextIsTight(ts[1..]);
      var first, rest := TokenText(ts[0]), TextOf(ts[1..]);
      if rest == "" {
        assert TextOf(ts) == first;
      } else {
        assert TextOf(ts)[|TextOf(ts)| - 1] == rest[|rest| - 1];
      }
    }
  }

  lemma BodyOfTokens(ts: seq<Token>)
    requires TokensOk(ts) && StartsStep(ts)
    ensures PlainPath(TextOf(ts)) && Body(TextOf(ts)) == TextOf(ts)
  {
    FirstChar(ts);
    TextIsTight(ts);
    PlainBody(TextOf(ts));
  }

  lemma PlainBody(s: string)
    requires PlainPath(s)
    ensures Body(s) == s
  {
    TightTrims(s);
  }

  // Every documented path, in any accepted decoration, parses to its own
  // segments exactly when its indices fit an int and its quoted text holds no `]`.
  lemma DocumentedGrammar(steps: seq<DocStep>, before: string, braces: bool, inner: string, root: string,
                          innerEnd: string, after: string)
    requires steps != [] && forall k | 0 <= k < |steps| :: DocStepOk(steps[k])
    requires AllSpace(before) && AllSpace(inner) && AllSpace(innerEnd) && AllSpace(after) && IsRoot(root)
    ensures Parse(Decorate(before, braces, inner, root, DocText(steps), innerEnd, after))
            == Success(DocMeaning(steps))
      <==> forall k | 0 <= k < |steps| :: StepSupported(steps[k])
  {
    var expr := Decorate(before, braces, inner, root, DocText(steps), innerEnd, after);
    if forall k | 0 <= k < |steps| :: StepSupported(steps[k]) {
      var ts := DocTokens(steps, true);
      DocTokensMean(steps, true);
      BodyOfTokens(ts);
      DecorationIsInvisible(before, braces, inner, root, DocText(steps), innerEnd, after);
      AcceptedLanguage(expr, DocMeaning(steps));
    }
    if Parse(expr) == Success(DocMeaning(steps)) {
      ParsedIsPrintable(expr);
      forall k | 0 <= k < |steps| ensures StepSupported(steps[k]) {
        DocMeaningAt(steps, k);
        assert Printable(DocMeaning(steps)[k]);
      }
    }
  }

  lemma {:induction false} DocMeaningAt(steps: seq<DocStep>, k: nat)
    requires k < |steps| && forall j | 0 <= j < |steps| :: DocStepOk(steps[j])
    ensures |DocMeaning(steps)| == |steps| && DocMeaning(steps)[k] == DocSegment(steps[k])
  {
    if |steps| > 1 {
      DocMeaningAt(steps[1..], if k > 0 then k - 1 else 0);
    }
  }

  // The grammar's own text need not be supported: `["a]b"]` is documented, but
  // a subscript ends at the first `]`.
  lemma BracketInQuotes()
    ensures var steps := [DocQuoted('"', "a]b")];
      DocStepOk(steps[0]) && DocText(steps) == "[\"a]b\"]" && Parse(DocText(steps)).Failure?
  {
    BracketText();
    BracketFails();
  }

  lemma BracketText()
    ensures DocText([DocQuoted('"', "a]b")]) == "[\"a]b\"]"
  {
    var steps := [DocQuoted('"', "a]b")];
    var ts := [Sub("\"a]b\"")];
    assert DocRaw(steps[0]) == "\"a]b\"";
    assert steps[1..] == [];
    assert DocTokens(steps, true) == ts;
    assert ts[1..] == [];
  }

  // A subscript that does not parse up to its first `]` fails the path.
  lemma BadSubscriptFails(raw: string, rest: string)
    requires ']' !in raw && ParseSubscript(TrimSpace(raw)).None? && PlainPath("[" + raw + "]" + rest)
    ensures Parse("[" + raw + "]" + rest).Failure?
  {
    var p := "[" + raw + "]" + rest;
    PlainBody(p);
    BadStep(p, raw, rest);
    assert Scan(p, 0, true).Failure?;
  }

  lemma BadStep(p: string, raw: string, rest: string)
    requires p == "[" + raw + "]" + rest && ']' !in raw && ParseSubscript(TrimSpace(raw)).None?
    ensures Step(p, 0, true).Stopped?
  {
    assert p[0..|raw| + 2] == "[" + raw + "]";
    ClosingBracket(p, 0, raw);
  }

  lemma BracketFails()
    ensures Parse("[\"a]b\"]").Failure?
  {
    var raw := "\"a";
    TightTrims(raw);
    assert DigitRun(raw) == 0;
    assert ParseSubscript(raw) == None;
    assert "[" + raw + "]" + "b\"]" == "[\"a]b\"]";
    BadSubscriptFails(raw, "b\"]");
  }
}
