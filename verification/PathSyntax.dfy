// The path-expression scanner of pkg/collector/pathexpr.go.
module PathSyntax {
  import opened Wrappers
  import opened Text

  datatype Segment = Field(name: string) | Index(n: int) | Wildcard

  datatype ParseError =
    | EmptyPath
    | UnexpectedDot(pos: nat)
    | UnterminatedSubscript(pos: nat)
    | InvalidSubscript(token: string)
    | UnexpectedChar(pos: nat)

  type Parsed = Result<seq<Segment>, ParseError>

  predicate IsIdentStart(c: char)
  {
    c == '_' || IsLetter(c)
  }

  predicate IsIdentPart(c: char)
  {
    c == '_' || c == '-' || IsLetter(c) || IsDigit(c)
  }

  function TrimPrefix(s: string, prefix: string): string
  {
    if prefix <= s then s[|prefix|..] else s
  }

  // The text that is scanned: trimmed, unwrapped from `{...}`, and without a
  // leading `.` and then a leading `$.`.
  function Body(expr: string): string
  {
    var p := TrimSpace(expr);
    var q := if "{" <= p && p[|p| - 1] == '}' then TrimSpace(p[1..|p| - 1]) else p;
    TrimPrefix(TrimPrefix(q, "."), "$.")
  }

  // The first position at or after `i` that holds `c`, or the length.
  function IndexFrom(p: string, c: char, i: nat): (e: nat)
    requires i <= |p|
    ensures i <= e <= |p|
    ensures forall k | i <= k < e :: p[k] != c
    ensures e < |p| ==> p[e] == c
    decreases |p| - i
  {
    if i == |p| || p[i] == c then i else IndexFrom(p, c, i + 1)
  }

  // The end of the run of identifier characters that starts at `i`.
  function IdentEnd(p: string, i: nat): (e: nat)
    requires i <= |p|
    ensures i <= e <= |p|
    ensures forall k | i <= k < e :: IsIdentPart(p[k])
    ensures e < |p| ==> !IsIdentPart(p[e])
    decreases |p| - i
  {
    if i < |p| && IsIdentPart(p[i]) then IdentEnd(p, i + 1) else i
  }

  predicate IsQuote(c: char)
  {
    c == '"' || c == '\''
  }

  function ParseSubscript(token: string): Option<Segment>
  {
    if token == "*" then Some(Wildcard)
    else if |token| >= 2 && IsQuote(token[0]) && token[|token| - 1] == token[0] then
      Some(Field(token[1..|token| - 1]))
    else
      match ScanDecimal(token)
      case Some(n) => Some(Index(n))
      case None => None
  }

  function Prepend(segments: seq<Segment>, rest: Parsed): (r: Parsed)
    ensures segments == [] ==> r == rest
  {
    match rest
    case Success(more) =>
      assert [] + more == more;
      Success(segments + more)
    case Failure(_) => rest
  }

  datatype StepResult =
    | Took(segments: seq<Segment>, next: nat, needStep: bool)
    | Stopped(error: ParseError)

  // What is read at position `i` when a field or subscript is (`needStep`) or
  // is not required: a dot, a bracketed subscript, or a maximal identifier.
  function Step(p: string, i: nat, needStep: bool): (r: StepResult)
    requires i < |p|
    ensures r.Took? ==> i < r.next <= |p|
  {
    if p[i] == '.' then
      if needStep then Stopped(UnexpectedDot(i)) else Took([], i + 1, true)
    else if p[i] == '[' then
      var end := IndexFrom(p, ']', i);
      if end == |p| then Stopped(UnterminatedSubscript(i))
      else
        var token := TrimSpace(p[i + 1..end]);
        match ParseSubscript(token)
        case None => Stopped(InvalidSubscript(token))
        case Some(segment) => Took([segment], end + 1, false)
    else if IsIdentStart(p[i]) then
      var end := IdentEnd(p, i);
      Took([Field(p[i..end])], end, false)
    else Stopped(UnexpectedChar(i))
  }

  function Scan(p: string, i: nat, needStep: bool): Parsed
    requires i <= |p|
    decreases |p| - i
  {
    if i == |p| then Success([])
    else
      match Step(p, i, needStep)
      case Stopped(error) => Failure(error)
      case Took(segments, next, need) => Prepend(segments, Scan(p, next, need))
  }

  function Parse(expr: string): Parsed
  {
    var p := Body(expr);
    if p == "" then Failure(EmptyPath)
    else
      var r := Scan(p, 0, true);
      if r.Success? && r.value == [] then Failure(EmptyPath) else r
  }

  method StripWrapper(expr: string) returns (p: string)
    ensures p == Body(expr)
  {
    p := TrimSpace(expr);
    if "{" <= p && p[|p| - 1] == '}' {
      p := TrimSpace(p[1..|p| - 1]);
    }
    p := TrimPrefix(p, ".");
    p := TrimPrefix(p, "$.");
  }

  // `parsePath`: one pass with a cursor, a flag and a growing segment list.
  method ParsePath(expr: string) returns (r: Parsed)
    ensures r == Parse(expr)
  {
    var p := StripWrapper(expr);
    if p == "" {
      return Failure(EmptyPath);
    }
    ghost var whole := Scan(p, 0, true);
    var segments: seq<Segment> := [];
    var i := 0;
    var expectFieldOrSubscript := true;
    while i < |p|
      invariant 0 <= i <= |p|
      invariant Resumes(whole, segments, p, i, expectFieldOrSubscript)
    {
      Continue(whole, segments, p, i, expectFieldOrSubscript);
      ghost var step := Step(p, i, expectFieldOrSubscript);
      var ch := p[i];
      if ch == '.' {
        if expectFieldOrSubscript {
          return Failure(UnexpectedDot(i));
        }
        expectFieldOrSubscript := true;
        i := i + 1;
        assert segments + [] == segments;
      } else if ch == '[' {
        expectFieldOrSubscript := false;
        var end := IndexFrom(p, ']', i);
        if end == |p| {
          return Failure(UnterminatedSubscript(i));
        }
        var token := TrimSpace(p[i + 1..end]);
        var segment := ParseSubscript(token);
        if segment.None? {
          return Failure(InvalidSubscript(token));
        }
        segments := segments + [segment.value];
        i := end + 1;
        assert step == Took([segment.value], i, false);
      } else if IsIdentStart(ch) {
        expectFieldOrSubscript := false;
        var start := i;
        while i < |p| && IsIdentPart(p[i])
          invariant start <= i <= |p|
          invariant IdentEnd(p, start) == IdentEnd(p, i)
        {
          i := i + 1;
        }
        segments := segments + [Field(p[start..i])];
        assert step == Took([Field(p[start..i])], i, false);
      } else {
        return Failure(UnexpectedChar(i));
      }
    }
    if |segments| == 0 {
      return Failure(EmptyPath);
    }
    assert segments + [] == segments;
    return Success(segments);
  }

  // The whole scan is what was collected followed by the scan from `i` on.
  ghost predicate Resumes(whole: Parsed, segments: seq<Segment>, p: string, i: nat, needStep: bool)
    requires i <= |p|
  {
    whole == Prepend(segments, Scan(p, i, needStep))
  }

  lemma Continue(whole: Parsed, segments: seq<Segment>, p: string, i: nat, needStep: bool)
    requires i < |p| && Resumes(whole, segments, p, i, needStep)
    ensures match Step(p, i, needStep)
            case Stopped(error) => whole == Failure(error)
            case Took(more, next, need) => Resumes(whole, segments + more, p, next, need)
  {
    match Step(p, i, needStep) {
      case Stopped(_) =>
      case Took(more, next, need) => PrependTwice(segments, more, Scan(p, next, need));
    }
  }

  lemma PrependTwice(a: seq<Segment>, b: seq<Segment>, rest: Parsed)
    ensures Prepend(a, Prepend(b, rest)) == Prepend(a + b, rest)
  {
    if rest.Success? {
      assert a + (b + rest.value) == a + b + rest.value;
    }
  }
}
