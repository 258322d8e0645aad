/**
 * The URI-template compiler (`UriPattern.uriTemplateToRegex`).
 *
 * A template such as `/fruit/{version: v[12]}/{name}/eat` is read into a
 * sequence of tokens: literal runs (percent-decoded), slashes, and
 * placeholders `{name}` or `{name : regex}` whose name and regex are trimmed.
 * Everything the compiled pattern exposes (its regex text, literal count,
 * group names, name-blind shape) is a pure function of the tokens left after
 * one leading and one trailing slash are dropped; only `path` is rendered
 * from the template as written.
 */
module UriTemplate {
  import opened Wrappers
  import opened Ascii
  import PercentCoding

  datatype Token = Lit(text: string) | Slash | Var(name: string, regex: Option<string>)

  /** Why a template is refused (the `IllegalArgumentException` of the source). */
  datatype TemplateError = UnclosedPlaceholder | InvalidGroupName(name: string)

  /** The regex a placeholder without an inline regex stands for. */
  const DEFAULT_GROUP: string := "[^/]+?"

  /** What every pattern ends with, so that sub-paths still match. */
  const SUFFIX: string := "(/.*)?"

  // ----- scanning -------------------------------------------------------------

  predicate IsLetter(c: char) {
    'a' <= c <= 'z' || 'A' <= c <= 'Z'
  }

  /** A name `java.util.regex` accepts for a named group: a letter, then letters and digits. */
  predicate ValidGroupName(n: string) {
    && |n| > 0
    && IsLetter(n[0])
    && forall i :: 0 <= i < |n| ==> IsLetter(n[i]) || IsDigit(n[i])
  }

  /** The first position at or after `from` holding `c`. */
  function IndexOf(s: string, c: char, from: nat): (r: Option<nat>)
    ensures r.Some? ==> from <= r.value < |s|
    decreases |s| - from
  {
    if from >= |s| then None else if s[from] == c then Some(from) else IndexOf(s, c, from + 1)
  }

  /** `IndexOf` finds the first `c` at or after `from`, and `None` means there is none. */
  lemma {:induction false} IndexOfSpec(s: string, c: char, from: nat)
    ensures var r := IndexOf(s, c, from);
            && (r.Some? ==> s[r.value] == c && forall k :: from <= k < r.value ==> s[k] != c)
            && (r.None? ==> forall k :: from <= k < |s| ==> s[k] != c)
    decreases |s| - from
  {
    if from < |s| && s[from] != c {
      IndexOfSpec(s, c, from + 1);
    }
  }

  predicate EndsLiteral(c: char) {
    c == '/' || c == '{'
  }

  /** The length of the literal run `s` starts with: everything before the first `/` or `{`. */
  function LiteralRun(s: string): (n: nat)
    ensures n <= |s|
  {
    if |s| == 0 || EndsLiteral(s[0]) then 0 else 1 + LiteralRun(s[1..])
  }

  /** The run holds no `/` or `{`, and stops at one or at the end. */
  lemma {:induction false} LiteralRunSpec(s: string)
    ensures var n := LiteralRun(s);
            && (forall k :: 0 <= k < n ==> !EndsLiteral(s[k]))
            && (n < |s| ==> EndsLiteral(s[n]))
  {
    if |s| > 0 && !EndsLiteral(s[0]) {
      LiteralRunSpec(s[1..]);
    }
  }

  /** The inside of `{…}`: a name, optionally followed by `:` and a regex, each trimmed. */
  function ParsePlaceholder(body: string): Result<Token, TemplateError> {
    var colon := IndexOf(body, ':', 0);
    var name := Trim(if colon.Some? then body[..colon.value] else body);
    if !ValidGroupName(name) then Failure(InvalidGroupName(name))
    else Success(Var(name, if colon.Some? then Some(Trim(body[colon.value + 1..])) else None))
  }

  /** A placeholder parses to a variable with a valid group name, carrying a regex exactly when it has a `:`. */
  lemma ParsePlaceholderSpec(body: string)
    ensures var r := ParsePlaceholder(body);
            r.Success? ==> r.value.Var? && ValidGroupName(r.value.name)
                           && (r.value.regex.Some? <==> exists k :: 0 <= k < |body| && body[k] == ':')
  {
    IndexOfSpec(body, ':', 0);
  }

  /** Reads a template, as written, into tokens. */
  function Tokenize(t: string): Result<seq<Token>, TemplateError>
    decreases |t|
  {
    if |t| == 0 then Success([])
    else if t[0] == '/' then
      var rest :- Tokenize(t[1..]);
      Success([Slash] + rest)
    else if t[0] == '{' then
      match IndexOf(t, '}', 1)
      case None => Failure(UnclosedPlaceholder)
      case Some(j) =>
        var v :- ParsePlaceholder(t[1..j]);
        var rest :- Tokenize(t[j + 1..]);
        Success([v] + rest)
    else
      var n := LiteralRun(t);
      var rest :- Tokenize(t[n..]);
      Success([Lit(PercentCoding.Decode(t[..n]))] + rest)
  }

  /** Drops one leading and then one trailing slash. */
  function StripSlashes(ts: seq<Token>): (r: seq<Token>)
    ensures |r| <= |ts|
  {
    var a := if |ts| > 0 && ts[0] == Slash then ts[1..] else ts;
    if |a| > 0 && a[|a| - 1] == Slash then a[..|a| - 1] else a
  }

  // ----- the compiled pattern --------------------------------------------------

  /** A compiled template; `template` holds the tokens of the template as written. */
  datatype UriPattern = UriPattern(template: seq<Token>) {

    /** The tokens the regex is built from: without the outer slashes. */
    function Tokens(): seq<Token> {
      StripSlashes(template)
    }
  }

  /** `uriTemplateToRegex(template)`. */
  function UriTemplateToRegex(t: string): Result<UriPattern, TemplateError> {
    var ts :- Tokenize(t);
    Success(UriPattern(ts))
  }

  // ----- regex text ---------------------------------------------------------------

  function GroupRegex(regex: Option<string>): string {
    regex.GetOr(DEFAULT_GROUP)
  }

  /**
   * The regex text for `ts`: a literal run as `\Q…\E`, a slash bare, the first
   * placeholder of a name as the named group `(?<name>regex)`, and a later one
   * of the same name as the back-reference `\k<name>`, so that all occurrences
   * must match the same text.
   */
  function RegexBody(ts: seq<Token>, seen: set<string>): string
    decreases |ts|
  {
    if |ts| == 0 then "" else TokenRegex(ts[0], seen) + RegexBody(ts[1..], Opened(ts[0], seen))
  }

  /** The regex text of one token, given the names of the groups already opened. */
  function TokenRegex(t: Token, seen: set<string>): string {
    match t
    case Lit(s) => "\\Q" + s + "\\E"
    case Slash => "/"
    case Var(n, re) =>
      if n in seen then "\\k<" + n + ">" else "(?<" + n + ">" + GroupRegex(re) + ")"
  }

  /** The names of the groups opened once `t` has been compiled. */
  function Opened(t: Token, seen: set<string>): set<string> {
    if t.Var? then seen + {t.name} else seen
  }

  /** `pattern()`: the regex text, ending in the optional sub-path group. */
  function Pattern(p: UriPattern): (r: string)
    ensures |r| >= |SUFFIX| && r[|r| - |SUFFIX|..] == SUFFIX
  {
    RegexBody(p.Tokens(), {}) + SUFFIX
  }

  // ----- literal count -----------------------------------------------------------

  /** Literal characters of `ts`: decoded literal text plus one per slash. */
  function LiteralCount(ts: seq<Token>): nat
    decreases |ts|
  {
    if |ts| == 0 then 0
    else match ts[0]
      case Lit(s) => |s| + LiteralCount(ts[1..])
      case Slash => 1 + LiteralCount(ts[1..])
      case Var(_, _) => LiteralCount(ts[1..])
  }

  /** `numberOfLiterals`, the specificity score of a route. */
  function NumberOfLiterals(p: UriPattern): nat {
    LiteralCount(p.Tokens())
  }

  // ----- group names ---------------------------------------------------------------

  function Names(ts: seq<Token>): (r: set<string>)
    ensures forall n :: n in r <==> exists i :: 0 <= i < |ts| && ts[i].Var? && ts[i].name == n
    decreases |ts|
  {
    if |ts| == 0 then {}
    else
      var rest := Names(ts[1..]);
      assert forall i :: 1 <= i < |ts| ==> ts[i] == ts[1..][i - 1];
      if ts[0].Var? then {ts[0].name} + rest else rest
  }

  /** `namedGroups()`: each placeholder name once, however often it occurs. */
  function NamedGroups(p: UriPattern): set<string> {
    Names(p.Tokens())
  }

  // ----- path ------------------------------------------------------------------------

  /** Writes tokens back as template text. */
  function Unparse(ts: seq<Token>): string
    decreases |ts|
  {
    if |ts| == 0 then "" else TokenText(ts[0]) + Unparse(ts[1..])
  }

  /** One token as template text. */
  function TokenText(t: Token): string {
    match t
    case Lit(s) => s
    case Slash => "/"
    case Var(n, None) => "{" + n + "}"
    case Var(n, Some(re)) => "{" + n + ":" + re + "}"
  }

  /** Forgets every placeholder's inline regex. */
  function EraseRegex(ts: seq<Token>): (r: seq<Token>)
    ensures |r| == |ts|
    ensures forall i :: 0 <= i < |ts| ==>
              r[i] == (if ts[i].Var? then Var(ts[i].name, None) else ts[i])
  {
    seq(|ts|, i requires 0 <= i < |ts| => if ts[i].Var? then Var(ts[i].name, None) else ts[i])
  }

  /**
   * `path`: the tokens of the template as written (outer slashes kept, literals
   * already percent-decoded), each placeholder reduced to a bare `{name}`.
   */
  function Path(p: UriPattern): string {
    Unparse(EraseRegex(p.template))
  }

  // ----- name-blind equality --------------------------------------------------------

  /** A token with its name erased: a group is known by its regex, a back-reference by the group it repeats. */
  datatype ShapeToken = SLit(text: string) | SSlash | SGroup(regex: string) | SBackRef(group: nat)

  function Position(s: seq<string>, x: string): (i: nat)
    requires x in s
    ensures i < |s| && s[i] == x
    ensures forall k :: 0 <= k < i ==> s[k] != x
  {
    if s[0] == x then 0 else 1 + Position(s[1..], x)
  }

  /** The shape of `ts`, given the names of the groups already opened, in order. */
  function ShapeFrom(ts: seq<Token>, seen: seq<string>): seq<ShapeToken>
    decreases |ts|
  {
    if |ts| == 0 then []
    else match ts[0]
      case Lit(s) => [SLit(s)] + ShapeFrom(ts[1..], seen)
      case Slash => [SSlash] + ShapeFrom(ts[1..], seen)
      case Var(n, re) =>
        if n in seen then [SBackRef(Position(seen, n))] + ShapeFrom(ts[1..], seen)
        else [SGroup(GroupRegex(re))] + ShapeFrom(ts[1..], seen + [n])
  }

  function Shape(ts: seq<Token>): seq<ShapeToken> {
    ShapeFrom(ts, [])
  }

  /** `equalModuloVariableNames(other)`: the same pattern once group names are erased. */
  function EqualModuloVariableNames(p: UriPattern, q: UriPattern): bool {
    Shape(p.Tokens()) == Shape(q.Tokens())
  }

  // ----- reading templates piece by piece ------------------------------------------

  /** Puts `t` in front of a successful result; a failure passes through. */
  function Prepend(t: Token, r: Result<seq<Token>, TemplateError>): Result<seq<Token>, TemplateError> {
    match r
    case Success(ts) => Success([t] + ts)
    case Failure(e) => Failure(e)
  }

  /** Puts a parsed placeholder in front of a result; either failure passes through, the placeholder's first. */
  function PrependParsed(v: Result<Token, TemplateError>, r: Result<seq<Token>, TemplateError>): Result<seq<Token>, TemplateError> {
    if v.Failure? then Failure(v.error) else Prepend(v.value, r)
  }

  lemma {:induction false} LiteralRunConcat(s: string, rest: string)
    requires forall k :: 0 <= k < |s| ==> !EndsLiteral(s[k])
    requires |rest| == 0 || EndsLiteral(rest[0])
    ensures LiteralRun(s + rest) == |s|
  {
    if |s| > 0 {
      assert (s + rest)[1..] == s[1..] + rest;
      LiteralRunConcat(s[1..], rest);
    }
  }

  /** A template that starts with a slash reads as a `Slash` token, then the rest. */
  lemma TokenizeSlash(rest: string)
    ensures Tokenize("/" + rest) == Prepend(Slash, Tokenize(rest))
  {
    assert ("/" + rest)[1..] == rest;
  }

  /** A maximal literal run reads as one `Lit` token holding its decoded text. */
  lemma TokenizeLit(s: string, rest: string)
    requires |s| > 0
    requires forall k :: 0 <= k < |s| ==> !EndsLiteral(s[k])
    requires |rest| == 0 || EndsLiteral(rest[0])
    ensures Tokenize(s + rest) == Prepend(Lit(PercentCoding.Decode(s)), Tokenize(rest))
  {
    LiteralRunConcat(s, rest);
    var t := s + rest;
    assert t[..|s|] == s && t[|s|..] == rest;
    assert !EndsLiteral(t[0]);
  }

  /** A closed placeholder reads as the token its inside parses to. */
  lemma TokenizeVar(body: string, rest: string)
    requires forall k :: 0 <= k < |body| ==> body[k] != '}'
    ensures Tokenize("{" + body + "}" + rest) == PrependParsed(ParsePlaceholder(body), Tokenize(rest))
  {
    var t := "{" + body + "}" + rest;
    assert t[|body| + 1] == '}';
    assert forall k :: 1 <= k < |body| + 1 ==> t[k] == body[k - 1];
    IndexOfFirst(t, '}', 1, |body| + 1);
    assert t[1..|body| + 1] == body;
    assert t[|body| + 2..] == rest;
  }

  predicate AllTrimmable(s: string) {
    forall k :: 0 <= k < |s| ==> IsTrimmable(s[k])
  }

  /** Trimming removes exactly the padding around a word that has no padding of its own. */
  lemma TrimExact(a: string, x: string, b: string)
    requires AllTrimmable(a) && AllTrimmable(b)
    requires |x| > 0 && !IsTrimmable(x[0]) && !IsTrimmable(x[|x| - 1])
    ensures Trim(a + x + b) == x
  {
    var s := a + x + b;
    var r := Trim(s);
    var i := TrimOffset(s);
    TrimSpec(s);
    assert s[|a|] == x[0];
    assert s[|a| + |x| - 1] == x[|x| - 1];
    assert i == |a|;
    assert i + |r| == |a| + |x|;
    assert s[|a|..|a| + |x|] == x;
  }

  predicate NoColon(s: string) {
    forall k :: 0 <= k < |s| ==> s[k] != ':'
  }

  /** `{ name }`: a placeholder without an inline regex. */
  lemma ParsePlain(a: string, name: string, b: string)
    requires AllTrimmable(a) && AllTrimmable(b) && ValidGroupName(name)
    requires NoColon(a + name + b)
    ensures ParsePlaceholder(a + name + b) == Success(Var(name, None))
  {
    IndexOfSpec(a + name + b, ':', 0);
    TrimExact(a, name, b);
  }

  /** `{ name : regex }`: a placeholder with an inline regex. */
  lemma ParseInline(a: string, name: string, b: string, c: string, re: string, d: string)
    requires AllTrimmable(a) && AllTrimmable(b) && AllTrimmable(c) && AllTrimmable(d)
    requires ValidGroupName(name) && NoColon(a + name + b)
    requires |re| > 0 && !IsTrimmable(re[0]) && !IsTrimmable(re[|re| - 1])
    ensures ParsePlaceholder(a + name + b + ":" + c + re + d) == Success(Var(name, Some(re)))
  {
    var head := a + name + b;
    var body := head + ":" + c + re + d;
    assert body[|head|] == ':';
    assert forall k :: 0 <= k < |head| ==> body[k] == head[k];
    IndexOfFirst(body, ':', 0, |head|);
    assert body[..|head|] == head;
    assert body[|head| + 1..] == c + re + d;
    TrimExact(a, name, b);
    TrimExact(c, re, d);
  }

  /**
   * Percent-encoding in a literal is optional: a plain literal and any
   * percent-encoding of it compile to the same single token.
   */
  lemma EncodingIsOptional(s: string, escape: set<char>)
    requires PlainLiteral(s)
    requires forall c :: c in escape ==> c as int < 256
    ensures Tokenize(PercentCoding.Encode(s, escape)) == Tokenize(s) == Success([Lit(s)])
  {
    var e := PercentCoding.Encode(s, escape);
    PercentCoding.EncodeIntroducesOnlyEscapes(s, escape, '/');
    PercentCoding.EncodeIntroducesOnlyEscapes(s, escape, '{');
    PercentCoding.DecodeEncode(s, escape);
    PercentCoding.DecodeWithoutPercent(s);
    assert Tokenize("") == Success([]);
    assert e + "" == e && s + "" == s;
    TokenizeLit(e, "");
    TokenizeLit(s, "");
    assert [Lit(s)] + [] == [Lit(s)];
  }

  /** One step of reading: `t` is a literal run that needs no decoding, then `rest`. */
  lemma LitStep(t: string, s: string, rest: string, ts: seq<Token>, r: seq<Token>)
    requires t == s + rest && |s| > 0 && r == [Lit(s)] + ts
    requires forall k :: 0 <= k < |s| ==> !EndsLiteral(s[k]) && s[k] != '%'
    requires |rest| == 0 || EndsLiteral(rest[0])
    requires Tokenize(rest) == Success(ts)
    ensures Tokenize(t) == Success(r)
  {
    PercentCoding.DecodeWithoutPercent(s);
    TokenizeLit(s, rest);
  }

  /** One step of reading: `t` is a slash, then `rest`. */
  lemma SlashStep(t: string, rest: string, ts: seq<Token>, r: seq<Token>)
    requires t == "/" + rest && r == [Slash] + ts
    requires Tokenize(rest) == Success(ts)
    ensures Tokenize(t) == Success(r)
  {
    TokenizeSlash(rest);
  }

  /** One step of reading: `t` is the literal run `s`, percent-decoded, then `rest`. */
  lemma EncodedLitStep(t: string, s: string, rest: string, ts: seq<Token>, r: seq<Token>)
    requires t == s + rest && r == [Lit(PercentCoding.Decode(s))] + ts
    requires |s| > 0 && forall k :: 0 <= k < |s| ==> !EndsLiteral(s[k])
    requires |rest| == 0 || EndsLiteral(rest[0])
    requires Tokenize(rest) == Success(ts)
    ensures Tokenize(t) == Success(r)
  {
    TokenizeLit(s, rest);
  }

  /** One step of reading: `t` is a placeholder with inside `body`, then `rest`. */
  lemma VarStep(t: string, body: string, rest: string, v: Token, ts: seq<Token>, r: seq<Token>)
    requires t == "{" + body + "}" + rest && r == [v] + ts
    requires forall k :: 0 <= k < |body| ==> body[k] != '}'
    requires ParsePlaceholder(body) == Success(v)
    requires Tokenize(rest) == Success(ts)
    ensures Tokenize(t) == Success(r)
  {
    TokenizeVar(body, rest);
  }

  // ----- reading templates in parts ------------------------------------------------

  /** `IndexOf` finds the first occurrence, so any first occurrence is what it finds. */
  lemma IndexOfFirst(s: string, c: char, from: nat, j: nat)
    requires from <= j < |s| && s[j] == c
    requires forall k :: from <= k < j ==> s[k] != c
    ensures IndexOf(s, c, from) == Some(j)
  {
    IndexOfSpec(s, c, from);
  }

  /** `LiteralRun` is determined by where the first `/` or `{` stands. */
  lemma LiteralRunAt(s: string, n: nat)
    requires n <= |s|
    requires forall k :: 0 <= k < n ==> !EndsLiteral(s[k])
    requires n == |s| || EndsLiteral(s[n])
    ensures LiteralRun(s) == n
  {
    LiteralRunSpec(s);
  }

  /**
   * Reading distributes over concatenation at a token boundary: when `b`
   * is empty or starts a slash or a placeholder, `a + b` reads as the
   * tokens of `a` followed by the tokens of `b`.
   */
  lemma {:induction false} TokenizeConcat(a: string, b: string, x: seq<Token>, y: seq<Token>)
    requires Tokenize(a) == Success(x) && Tokenize(b) == Success(y)
    requires |b| == 0 || EndsLiteral(b[0])
    ensures Tokenize(a + b) == Success(x + y)
    decreases |a|, 1
  {
    if |a| == 0 {
      assert x == [];
      assert a + b == b;
      assert x + y == y;
    } else if a[0] == '/' {
      var a' := a[1..];
      assert a == "/" + a';
      TokenizeSlash(a');
      ConcatSlash(a, b, a', Tokenize(a').value, x, y);
    } else if a[0] == '{' {
      var body, a' := VarShape(a);
      ConcatVar(a, b, body, a', ParsePlaceholder(body).value, Tokenize(a').value, x, y);
    } else {
      var s, a' := LitShape(a);
      ConcatLit(a, b, s, a', Tokenize(a').value, x, y);
    }
  }

  lemma AppendAssoc<T>(a: seq<T>, b: seq<T>, c: seq<T>)
    ensures (a + b) + c == a + (b + c)
  {
  }

  /** Appending a piece that starts at a token boundary keeps the boundary. */
  lemma BoundaryConcat(a: string, b: string)
    requires |a| == 0 || EndsLiteral(a[0])
    requires |b| == 0 || EndsLiteral(b[0])
    ensures |a + b| == 0 || EndsLiteral((a + b)[0])
  {
    if |a| == 0 {
      assert a + b == b;
    }
  }

  lemma {:induction false} ConcatSlash(a: string, b: string, a': string, rest: seq<Token>, x: seq<Token>, y: seq<Token>)
    requires a == "/" + a' && Tokenize(a') == Success(rest) && x == [Slash] + rest
    requires Tokenize(b) == Success(y)
    requires |b| == 0 || EndsLiteral(b[0])
    ensures Tokenize(a + b) == Success(x + y)
    decreases |a|, 0
  {
    TokenizeConcat(a', b, rest, y);
    AppendAssoc("/", a', b);
    AppendAssoc([Slash], rest, y);
    SlashStep(a + b, a' + b, rest + y, x + y);
  }

  lemma {:induction false} ConcatVar(a: string, b: string, body: string, a': string, v: Token, rest: seq<Token>, x: seq<Token>, y: seq<Token>)
    requires a == "{" + body + "}" + a' && NoClose(body)
    requires ParsePlaceholder(body) == Success(v) && Tokenize(a') == Success(rest) && x == [v] + rest
    requires Tokenize(b) == Success(y)
    requires |b| == 0 || EndsLiteral(b[0])
    ensures Tokenize(a + b) == Success(x + y)
    decreases |a|, 0
  {
    TokenizeConcat(a', b, rest, y);
    AppendAssoc("{" + body + "}", a', b);
    AppendAssoc([v], rest, y);
    VarStep(a + b, body, a' + b, v, rest + y, x + y);
  }

  lemma {:induction false} ConcatLit(a: string, b: string, s: string, a': string, rest: seq<Token>, x: seq<Token>, y: seq<Token>)
    requires a == s + a' && |s| > 0 && forall k :: 0 <= k < |s| ==> !EndsLiteral(s[k])
    requires |a'| == 0 || EndsLiteral(a'[0])
    requires Tokenize(a') == Success(rest) && x == [Lit(PercentCoding.Decode(s))] + rest
    requires Tokenize(b) == Success(y)
    requires |b| == 0 || EndsLiteral(b[0])
    ensures Tokenize(a + b) == Success(x + y)
    decreases |a|, 0
  {
    TokenizeConcat(a', b, rest, y);
    AppendAssoc(s, a', b);
    AppendAssoc([Lit(PercentCoding.Decode(s))], rest, y);
    BoundaryConcat(a', b);
    EncodedLitStep(a + b, s, a' + b, rest + y, x + y);
  }

  /** No `}` anywhere in `s`. */
  predicate NoClose(s: string) {
    forall k :: 0 <= k < |s| ==> s[k] != '}'
  }

  lemma NoCloseConcat(a: string, b: string)
    requires NoClose(a) && NoClose(b)
    ensures NoClose(a + b)
  {
    assert forall k :: |a| <= k < |a + b| ==> (a + b)[k] == b[k - |a|];
  }

  /** A template that reads and starts with `{` is a placeholder, then the rest. */
  lemma VarShape(a: string) returns (body: string, a': string)
    requires |a| > 0 && a[0] == '{' && Tokenize(a).Success?
    ensures a == "{" + body + "}" + a' && NoClose(body)
    ensures ParsePlaceholder(body).Success? && Tokenize(a').Success?
    ensures Tokenize(a).value == [ParsePlaceholder(body).value] + Tokenize(a').value
  {
    var j := IndexOf(a, '}', 1).value;
    IndexOfSpec(a, '}', 1);
    body := a[1..j];
    a' := a[j + 1..];
    assert forall k :: 0 <= k < |body| ==> body[k] == a[k + 1];
    assert a == "{" + body + "}" + a';
  }

  /** A template that reads and starts inside a literal is that literal run, then the rest. */
  lemma LitShape(a: string) returns (s: string, a': string)
    requires |a| > 0 && !EndsLiteral(a[0]) && Tokenize(a).Success?
    ensures a == s + a' && |s| > 0
    ensures forall k :: 0 <= k < |s| ==> !EndsLiteral(s[k])
    ensures |a'| == 0 || EndsLiteral(a'[0])
    ensures Tokenize(a').Success?
    ensures Tokenize(a).value == [Lit(PercentCoding.Decode(s))] + Tokenize(a').value
  {
    var n := LiteralRun(a);
    LiteralRunSpec(a);
    s := a[..n];
    a' := a[n..];
    assert a == s + a';
  }

  /** A template that does not end in `/` does not read as tokens ending in `Slash`. */
  lemma {:induction false} TokenizeLast(t: string, ts: seq<Token>)
    requires Tokenize(t) == Success(ts)
    requires |t| > 0 && t[|t| - 1] != '/'
    ensures |ts| > 0 && ts[|ts| - 1] != Slash
    decreases |t|, 1
  {
    if t[0] == '/' {
      TokenizeLastSlash(t, ts);
    } else if t[0] == '{' {
      TokenizeLastVar(t, ts);
    } else {
      TokenizeLastLit(t, ts);
    }
  }

  lemma {:induction false} TokenizeLastSlash(t: string, ts: seq<Token>)
    requires Tokenize(t) == Success(ts)
    requires |t| > 0 && t[|t| - 1] != '/' && t[0] == '/'
    ensures |ts| > 0 && ts[|ts| - 1] != Slash
    decreases |t|, 0
  {
    var rest := Tokenize(t[1..]).value;
    TokenizeLast(t[1..], rest);
    assert ts == [Slash] + rest;
  }

  lemma {:induction false} TokenizeLastVar(t: string, ts: seq<Token>)
    requires Tokenize(t) == Success(ts)
    requires |t| > 0 && t[|t| - 1] != '/' && t[0] == '{'
    ensures |ts| > 0 && ts[|ts| - 1] != Slash
    decreases |t|, 0
  {
    var j := IndexOf(t, '}', 1).value;
    var rest := Tokenize(t[j + 1..]).value;
    if j + 1 < |t| {
      TokenizeLast(t[j + 1..], rest);
    }
  }

  lemma {:induction false} TokenizeLastLit(t: string, ts: seq<Token>)
    requires Tokenize(t) == Success(ts)
    requires |t| > 0 && t[|t| - 1] != '/' && t[0] != '/' && t[0] != '{'
    ensures |ts| > 0 && ts[|ts| - 1] != Slash
    decreases |t|, 0
  {
    var n := LiteralRun(t);
    var rest := Tokenize(t[n..]).value;
    if n < |t| {
      TokenizeLast(t[n..], rest);
    }
  }

  /** A template that does not start with `/` does not read as tokens starting with `Slash`. */
  lemma TokenizeFirst(t: string, ts: seq<Token>)
    requires Tokenize(t) == Success(ts)
    requires |t| > 0 && t[0] != '/'
    ensures |ts| > 0 && ts[0] != Slash
  {
    if t[0] == '{' {
      IndexOfSpec(t, '}', 1);
    }
  }

  lemma TokenizeLoneSlash()
    ensures Tokenize("/") == Success([Slash])
  {
    assert Tokenize("") == Success([]);
    SlashStep("/", "", [], [Slash]);
  }

  /** Removing one slash at each end of `[Slash] + ts + [Slash]` leaves `ts`. */
  lemma StripBothEnds(ts: seq<Token>)
    requires |ts| > 0 && ts[0] != Slash && ts[|ts| - 1] != Slash
    ensures StripSlashes(ts) == ts
    ensures StripSlashes([Slash] + ts) == ts
    ensures StripSlashes(ts + [Slash]) == ts
    ensures StripSlashes([Slash] + ts + [Slash]) == ts
  {
    assert ([Slash] + ts)[1..] == ts;
    assert ([Slash] + ts + [Slash])[1..] == ts + [Slash];
    assert (ts + [Slash])[..|ts|] == ts;
  }

  /**
   * One leading and one trailing slash make no difference: `t`, `/t`, `t/`
   * and `/t/` compile to the same pattern.
   */
  lemma SlashesIgnored(t: string, ts: seq<Token>)
    requires Tokenize(t) == Success(ts)
    requires |t| > 0 && t[0] != '/' && t[|t| - 1] != '/'
    ensures UriPattern(ts).Tokens() == ts
    ensures Tokenize("/" + t) == Success([Slash] + ts) && UriPattern([Slash] + ts).Tokens() == ts
    ensures Tokenize(t + "/") == Success(ts + [Slash]) && UriPattern(ts + [Slash]).Tokens() == ts
    ensures Tokenize("/" + t + "/") == Success([Slash] + ts + [Slash])
            && UriPattern([Slash] + ts + [Slash]).Tokens() == ts
  {
    TokenizeFirst(t, ts);
    TokenizeLast(t, ts);
    StripBothEnds(ts);
    assert Tokenize("/" + t) == Success([Slash] + ts) by {
      TokenizeSlash(t);
    }
    assert Tokenize(t + "/") == Success(ts + [Slash]) by {
      TokenizeLoneSlash();
      TokenizeConcat(t, "/", ts, [Slash]);
    }
    assert Tokenize("/" + t + "/") == Success([Slash] + ts + [Slash]) by {
      TokenizeLoneSlash();
      TokenizeConcat("/" + t, "/", [Slash] + ts, [Slash]);
    }
  }

  // ----- compiling in parts ----------------------------------------------------------

  /** The regex text of `a + b` is that of `a`, then that of `b` given the names `a` opened. */
  lemma {:induction false} RegexBodyConcat(a: seq<Token>, b: seq<Token>, seen: set<string>)
    ensures RegexBody(a + b, seen) == RegexBody(a, seen) + RegexBody(b, seen + Names(a))
    decreases |a|
  {
    if |a| == 0 {
      assert a + b == b;
      assert seen + Names(a) == seen;
    } else {
      assert (a + b)[0] == a[0];
      assert (a + b)[1..] == a[1..] + b;
      var seen' := Opened(a[0], seen);
      RegexBodyConcat(a[1..], b, seen');
      assert seen' + Names(a[1..]) == seen + Names(a);
      var h := TokenRegex(a[0], seen);
      var x := RegexBody(a[1..], seen');
      var y := RegexBody(b, seen + Names(a));
      assert h + (x + y) == (h + x) + y;
    }
  }

  /** Literal characters add up over concatenation. */
  lemma {:induction false} LiteralCountConcat(a: seq<Token>, b: seq<Token>)
    ensures LiteralCount(a + b) == LiteralCount(a) + LiteralCount(b)
    decreases |a|
  {
    if |a| == 0 {
      assert a + b == b;
    } else {
      assert (a + b)[0] == a[0];
      assert (a + b)[1..] == a[1..] + b;
      LiteralCountConcat(a[1..], b);
    }
  }

  lemma UnparseCons(ts: seq<Token>)
    requires |ts| > 0
    ensures Unparse(ts) == TokenText(ts[0]) + Unparse(ts[1..])
  {
  }

  /** Writing tokens out distributes over concatenation. */
  lemma {:induction false} UnparseConcat(a: seq<Token>, b: seq<Token>)
    ensures Unparse(a + b) == Unparse(a) + Unparse(b)
    decreases |a|
  {
    if |a| == 0 {
      assert a + b == b;
    } else {
      var ab := a + b;
      assert ab[0] == a[0] && ab[1..] == a[1..] + b;
      UnparseConcat(a[1..], b);
      UnparseCons(ab);
      UnparseCons(a);
      AppendAssoc(TokenText(a[0]), Unparse(a[1..]), Unparse(b));
    }
  }

  // ----- writing templates back ----------------------------------------------------

  /** Literal text that reads back as itself: non-empty, no `/`, `{` or `%`. */
  predicate PlainLiteral(s: string) {
    |s| > 0 && forall k :: 0 <= k < |s| ==> !EndsLiteral(s[k]) && s[k] != '%'
  }

  /** An inline regex that survives being written inside `{…}`: no `}` and nothing to trim. */
  predicate PlainRegex(re: string) {
    && |re| > 0 && !IsTrimmable(re[0]) && !IsTrimmable(re[|re| - 1])
    && forall k :: 0 <= k < |re| ==> re[k] != '}'
  }

  predicate WellFormedToken(t: Token) {
    match t
    case Lit(s) => PlainLiteral(s)
    case Slash => true
    case Var(n, re) => ValidGroupName(n) && (re.Some? ==> PlainRegex(re.value))
  }

  /** Tokens a template can spell: each token writable, and no two literal runs side by side. */
  predicate WellFormed(ts: seq<Token>) {
    && (forall i :: 0 <= i < |ts| ==> WellFormedToken(ts[i]))
    && (forall i :: 0 <= i < |ts| - 1 ==> !(ts[i].Lit? && ts[i + 1].Lit?))
  }

  /** Written-out tokens that do not start with a literal start with `/` or `{`. */
  lemma UnparseStart(ts: seq<Token>)
    requires |ts| > 0 && !ts[0].Lit?
    ensures |Unparse(ts)| > 0 && EndsLiteral(Unparse(ts)[0])
  {
  }

  lemma ValidNamePlain(n: string)
    requires ValidGroupName(n)
    ensures NoColon(n) && !IsTrimmable(n[0]) && !IsTrimmable(n[|n| - 1])
    ensures forall k :: 0 <= k < |n| ==> n[k] != '}'
  {
  }

  /** Writing well-formed tokens out and reading them back gives the same tokens. */
  lemma {:induction false} UnparseTokenize(ts: seq<Token>)
    requires WellFormed(ts)
    ensures Tokenize(Unparse(ts)) == Success(ts)
    decreases |ts|
  {
    if |ts| == 0 {
      assert Unparse(ts) == "";
    } else {
      var rest := ts[1..];
      assert WellFormed(rest) by {
        assert forall i :: 0 <= i < |rest| ==> rest[i] == ts[i + 1];
      }
      UnparseTokenize(rest);
      assert ts == [ts[0]] + rest;
      if ts[0].Slash? {
        SlashStep(Unparse(ts), Unparse(rest), rest, ts);
      } else if ts[0].Lit? {
        UnparseLit(ts);
      } else {
        UnparseVar(ts);
      }
    }
  }

  lemma UnparseLit(ts: seq<Token>)
    requires WellFormed(ts) && |ts| > 0 && ts[0].Lit?
    requires Tokenize(Unparse(ts[1..])) == Success(ts[1..])
    ensures Tokenize(Unparse(ts)) == Success(ts)
  {
    var rest := ts[1..];
    if |rest| > 0 {
      assert !rest[0].Lit?;
      UnparseStart(rest);
    }
    assert ts == [ts[0]] + rest;
    LitStep(Unparse(ts), ts[0].text, Unparse(rest), rest, ts);
  }

  lemma UnparseVar(ts: seq<Token>)
    requires WellFormed(ts) && |ts| > 0 && ts[0].Var?
    requires Tokenize(Unparse(ts[1..])) == Success(ts[1..])
    ensures Tokenize(Unparse(ts)) == Success(ts)
  {
    var t, rest := ts[0], ts[1..];
    assert WellFormedToken(t);
    if t.regex.None? {
      UnparsePlainVar(t.name, rest, ts);
    } else {
      UnparseInlineVar(t.name, t.regex.value, rest, ts);
    }
  }

  lemma UnparsePlainVar(n: string, rest: seq<Token>, ts: seq<Token>)
    requires ValidGroupName(n) && |ts| > 0 && ts[0] == Var(n, None) && ts[1..] == rest
    requires Tokenize(Unparse(rest)) == Success(rest)
    ensures Tokenize(Unparse(ts)) == Success(ts)
  {
    ValidNamePlain(n);
    assert "" + n + "" == n;
    ParsePlain("", n, "");
    VarStep(Unparse(ts), n, Unparse(rest), ts[0], rest, ts);
  }

  lemma UnparseInlineVar(n: string, re: string, rest: seq<Token>, ts: seq<Token>)
    requires ValidGroupName(n) && PlainRegex(re) && |ts| > 0 && ts[0] == Var(n, Some(re)) && ts[1..] == rest
    requires Tokenize(Unparse(rest)) == Success(rest)
    ensures Tokenize(Unparse(ts)) == Success(ts)
  {
    var body := n + ":" + re;
    InlineBody(n, re);
    InlineVarText(n, re, rest, ts);
    VarStep(Unparse(ts), body, Unparse(rest), ts[0], rest, ts);
  }

  lemma InlineVarText(n: string, re: string, rest: seq<Token>, ts: seq<Token>)
    requires |ts| > 0 && ts[0] == Var(n, Some(re)) && ts[1..] == rest
    ensures Unparse(ts) == "{" + (n + ":" + re) + "}" + Unparse(rest)
  {
    assert TokenText(ts[0]) == "{" + n + ":" + re + "}";
  }

  /** `name:regex` written without padding parses back, and holds no `}`. */
  lemma InlineBody(n: string, re: string)
    requires ValidGroupName(n) && PlainRegex(re)
    ensures ParsePlaceholder(n + ":" + re) == Success(Var(n, Some(re)))
    ensures forall k :: 0 <= k < |n + ":" + re| ==> (n + ":" + re)[k] != '}'
  {
    ValidNamePlain(n);
    var body := n + ":" + re;
    assert "" + n + "" + ":" + "" + re + "" == body;
    ParseInline("", n, "", "", re, "");
    assert forall k :: 0 <= k < |n| ==> body[k] == n[k];
    assert forall k :: |n| < k < |body| ==> body[k] == re[k - |n| - 1];
  }

  /**
   * `path` reads back as the template with its inline regexes dropped, so the
   * path of a well-formed template is itself a template for the same tokens.
   */
  lemma PathTokenize(p: UriPattern)
    requires WellFormed(p.template)
    ensures Tokenize(Path(p)) == Success(EraseRegex(p.template))
  {
    var ts := EraseRegex(p.template);
    assert WellFormed(ts) by {
      assert forall i :: 0 <= i < |ts| ==> WellFormedToken(ts[i]) by {
        forall i | 0 <= i < |ts|
          ensures WellFormedToken(ts[i])
        {
          assert WellFormedToken(p.template[i]);
        }
      }
    }
    UnparseTokenize(ts);
  }

  /** A template without inline regexes is its own path. */
  lemma PathWithoutRegex(p: UriPattern)
    requires forall i :: 0 <= i < |p.template| && p.template[i].Var? ==> p.template[i].regex.None?
    ensures Path(p) == Unparse(p.template)
  {
    assert EraseRegex(p.template) == p.template;
  }

  // ----- renaming placeholders --------------------------------------------------------

  /** No two names are renamed to the same name. */
  predicate Injective(rho: map<string, string>) {
    forall x, y :: x in rho && y in rho && rho[x] == rho[y] ==> x == y
  }

  function RenameToken(t: Token, rho: map<string, string>): Token {
    if t.Var? && t.name in rho then Var(rho[t.name], t.regex) else t
  }

  /** The template with every placeholder named in `rho` renamed, its regex kept. */
  function Rename(ts: seq<Token>, rho: map<string, string>): (r: seq<Token>)
    ensures |r| == |ts|
  {
    seq(|ts|, i requires 0 <= i < |ts| => RenameToken(ts[i], rho))
  }

  function RenameAll(names: seq<string>, rho: map<string, string>): (r: seq<string>)
    requires forall i :: 0 <= i < |names| ==> names[i] in rho
    ensures |r| == |names|
  {
    seq(|names|, i requires 0 <= i < |names| => rho[names[i]])
  }

  /** Renaming injectively keeps a name's position among the names. */
  lemma PositionRename(names: seq<string>, n: string, rho: map<string, string>)
    requires Injective(rho) && n in names
    requires forall i :: 0 <= i < |names| ==> names[i] in rho
    ensures rho[n] in RenameAll(names, rho)
    ensures Position(RenameAll(names, rho), rho[n]) == Position(names, n)
  {
    var r := RenameAll(names, rho);
    var p := Position(names, n);
    assert r[p] == rho[n];
    var q := Position(r, rho[n]);
    assert names[q] == n;
  }

  /** Renaming injectively keeps the shape: groups are told apart by position, not by name. */
  lemma {:induction false} ShapeRename(ts: seq<Token>, seen: seq<string>, rho: map<string, string>)
    requires Injective(rho)
    requires forall i :: 0 <= i < |ts| && ts[i].Var? ==> ts[i].name in rho
    requires forall i :: 0 <= i < |seen| ==> seen[i] in rho
    ensures ShapeFrom(Rename(ts, rho), RenameAll(seen, rho)) == ShapeFrom(ts, seen)
    decreases |ts|
  {
    if |ts| > 0 {
      var r := Rename(ts, rho);
      assert r[1..] == Rename(ts[1..], rho);
      var sr := RenameAll(seen, rho);
      match ts[0]
      case Lit(_) =>
        ShapeRename(ts[1..], seen, rho);
      case Slash =>
        ShapeRename(ts[1..], seen, rho);
      case Var(n, re) =>
        assert r[0] == Var(rho[n], re);
        if n in seen {
          PositionRename(seen, n, rho);
          ShapeRename(ts[1..], seen, rho);
        } else {
          assert rho[n] !in sr;
          assert RenameAll(seen + [n], rho) == sr + [rho[n]];
          ShapeRename(ts[1..], seen + [n], rho);
        }
    }
  }

  lemma RenameSlice(ts: seq<Token>, rho: map<string, string>, i: nat, j: nat)
    requires i <= j <= |ts|
    ensures Rename(ts[i..j], rho) == Rename(ts, rho)[i..j]
  {
  }

  /** Outer slashes are stripped alike before and after renaming. */
  lemma RenameStrip(ts: seq<Token>, rho: map<string, string>)
    ensures StripSlashes(Rename(ts, rho)) == Rename(StripSlashes(ts), rho)
  {
    var r := Rename(ts, rho);
    var a := if |ts| > 0 && ts[0] == Slash then ts[1..] else ts;
    var ra := if |r| > 0 && r[0] == Slash then r[1..] else r;
    RenameSlice(ts, rho, 0, |ts|);
    RenameSlice(ts, rho, if |ts| > 0 && ts[0] == Slash then 1 else 0, |ts|);
    assert ts[0..|ts|] == ts;
    assert ra == Rename(a, rho);
    RenameSlice(a, rho, 0, if |a| > 0 && a[|a| - 1] == Slash then |a| - 1 else |a|);
    assert a[0..|a|] == a;
  }

  /**
   * `equalModuloVariableNames` holds between a template and any injective
   * renaming of its placeholders: the names themselves never matter.
   */
  lemma RenamedEqual(p: UriPattern, rho: map<string, string>)
    requires Injective(rho)
    requires forall i :: 0 <= i < |p.template| && p.template[i].Var? ==> p.template[i].name in rho
    ensures EqualModuloVariableNames(p, UriPattern(Rename(p.template, rho)))
  {
    var ts := p.Tokens();
    RenameStrip(p.template, rho);
    assert forall i :: 0 <= i < |ts| && ts[i].Var? ==> ts[i].name in rho by {
      var a := if |p.template| > 0 && p.template[0] == Slash then p.template[1..] else p.template;
      assert forall i :: 0 <= i < |a| ==> a[i] in p.template;
      assert forall i :: 0 <= i < |ts| ==> ts[i] in a;
    }
    ShapeRename(ts, [], rho);
    assert RenameAll([], rho) == [];
  }

  // ----- what name-blind equality preserves ---------------------------------------

  /** Literal characters a shape stands for. */
  function ShapeLiterals(ss: seq<ShapeToken>): nat
    decreases |ss|
  {
    if |ss| == 0 then 0
    else (match ss[0] case SLit(s) => |s| case SSlash => 1 case _ => 0) + ShapeLiterals(ss[1..])
  }

  lemma {:induction false} LiteralCountShape(ts: seq<Token>, seen: seq<string>)
    ensures LiteralCount(ts) == ShapeLiterals(ShapeFrom(ts, seen))
    decreases |ts|
  {
    if |ts| > 0 {
      match ts[0]
      case Lit(_) => LiteralCountShape(ts[1..], seen);
      case Slash => LiteralCountShape(ts[1..], seen);
      case Var(n, _) =>
        if n in seen {
          LiteralCountShape(ts[1..], seen);
        } else {
          LiteralCountShape(ts[1..], seen + [n]);
        }
    }
  }

  /** Templates equal modulo names have the same number of literal characters. */
  lemma EqualModuloSameLiterals(p: UriPattern, q: UriPattern)
    requires EqualModuloVariableNames(p, q)
    ensures NumberOfLiterals(p) == NumberOfLiterals(q)
  {
    LiteralCountShape(p.Tokens(), []);
    LiteralCountShape(q.Tokens(), []);
  }

  // ----- templates spelled with padding ----------------------------------------------

  /**
   * A piece of template text: a literal run, a slash, `{ name }` or
   * `{ name : regex }`, each placeholder part surrounded by its padding.
   */
  datatype Piece =
    | PLit(text: string)
    | PSlash
    | PVar(lead: string, name: string, trail: string)
    | PInline(lead: string, name: string, trail: string, gap: string, re: string, end: string)

  function PieceText(p: Piece): string {
    match p
    case PLit(s) => s
    case PSlash => "/"
    case PVar(a, n, b) => "{" + a + n + b + "}"
    case PInline(a, n, b, c, re, d) => "{" + a + n + b + ":" + c + re + d + "}"
  }

  function Spell(ps: seq<Piece>): string
    decreases |ps|
  {
    if |ps| == 0 then "" else PieceText(ps[0]) + Spell(ps[1..])
  }

  /** The token a piece stands for: padding gone, literal kept, regex kept. */
  function PieceToken(p: Piece): Token {
    match p
    case PLit(s) => Lit(s)
    case PSlash => Slash
    case PVar(_, n, _) => Var(n, None)
    case PInline(_, n, _, _, re, _) => Var(n, Some(re))
  }

  function PieceTokens(ps: seq<Piece>): (r: seq<Token>)
    ensures |r| == |ps|
    decreases |ps|
  {
    if |ps| == 0 then [] else [PieceToken(ps[0])] + PieceTokens(ps[1..])
  }

  /** Each piece gives the token in its own position. */
  lemma {:induction false} PieceTokensEach(ps: seq<Piece>)
    ensures forall i :: 0 <= i < |ps| ==> PieceTokens(ps)[i] == PieceToken(ps[i])
    decreases |ps|
  {
    if |ps| > 0 {
      PieceTokensEach(ps[1..]);
      forall i | 1 <= i < |ps|
        ensures PieceTokens(ps)[i] == PieceToken(ps[i])
      {
        assert PieceTokens(ps)[i] == PieceTokens(ps[1..])[i - 1];
        assert ps[1..][i - 1] == ps[i];
      }
    }
  }

  predicate PieceOk(p: Piece) {
    match p
    case PLit(s) => PlainLiteral(s)
    case PSlash => true
    case PVar(a, n, b) => AllTrimmable(a) && AllTrimmable(b) && ValidGroupName(n)
    case PInline(a, n, b, c, re, d) =>
      AllTrimmable(a) && AllTrimmable(b) && AllTrimmable(c) && AllTrimmable(d)
      && ValidGroupName(n) && PlainRegex(re)
  }

  predicate PiecesOk(ps: seq<Piece>) {
    && (forall i :: 0 <= i < |ps| ==> PieceOk(ps[i]))
    && (forall i :: 0 <= i < |ps| - 1 ==> !(ps[i].PLit? && ps[i + 1].PLit?))
  }

  /**
   * Padding inside placeholders is dropped: a template spelled from valid
   * pieces reads as the pieces' tokens, whatever whitespace surrounds the
   * names, the colon and the regexes.
   */
  lemma {:induction false} SpellTokenize(ps: seq<Piece>)
    requires PiecesOk(ps)
    ensures Tokenize(Spell(ps)) == Success(PieceTokens(ps))
    decreases |ps|
  {
    if |ps| > 0 {
      var rest := ps[1..];
      assert PiecesOk(rest) by {
        assert forall i :: 0 <= i < |rest| ==> rest[i] == ps[i + 1];
      }
      SpellTokenize(rest);
      assert PieceOk(ps[0]);
      if ps[0].PSlash? {
        SlashStep(Spell(ps), Spell(rest), PieceTokens(rest), PieceTokens(ps));
      } else if ps[0].PLit? {
        if |rest| > 0 {
          assert !rest[0].PLit?;
        }
        LitStep(Spell(ps), ps[0].text, Spell(rest), PieceTokens(rest), PieceTokens(ps));
      } else if ps[0].PVar? {
        SpellVar(ps[0], Spell(rest), PieceTokens(rest));
      } else {
        SpellInline(ps[0], Spell(rest), PieceTokens(rest));
      }
    }
  }

  /** Padding and a valid name hold neither `:` nor `}`. */
  lemma PaddedName(a: string, n: string, b: string)
    requires AllTrimmable(a) && AllTrimmable(b) && ValidGroupName(n)
    ensures NoColon(a + n + b)
    ensures forall k :: 0 <= k < |a + n + b| ==> (a + n + b)[k] != '}'
  {
    var h := a + n + b;
    assert forall k :: 0 <= k < |a| ==> h[k] == a[k];
    assert forall k :: |a| <= k < |a| + |n| ==> h[k] == n[k - |a|];
    assert forall k :: |a| + |n| <= k < |h| ==> h[k] == b[k - |a| - |n|];
  }

  lemma SpellVar(p: Piece, u: string, ts: seq<Token>)
    requires p.PVar? && PieceOk(p)
    requires Tokenize(u) == Success(ts)
    ensures Tokenize(PieceText(p) + u) == Success([PieceToken(p)] + ts)
  {
    var body := p.lead + p.name + p.trail;
    PaddedName(p.lead, p.name, p.trail);
    ParsePlain(p.lead, p.name, p.trail);
    VarStep(PieceText(p) + u, body, u, PieceToken(p), ts, [PieceToken(p)] + ts);
  }

  lemma SpellInline(p: Piece, u: string, ts: seq<Token>)
    requires p.PInline? && PieceOk(p)
    requires Tokenize(u) == Success(ts)
    ensures Tokenize(PieceText(p) + u) == Success([PieceToken(p)] + ts)
  {
    var body := InlinePieceBody(p);
    VarStep(PieceText(p) + u, body, u, PieceToken(p), ts, [PieceToken(p)] + ts);
  }

  /** The text between the braces of an inline-regex placeholder, and what it parses to. */
  lemma InlinePieceBody(p: Piece) returns (body: string)
    requires p.PInline? && PieceOk(p)
    ensures PieceText(p) == "{" + body + "}" && NoClose(body)
    ensures ParsePlaceholder(body) == Success(PieceToken(p))
  {
    var head := p.lead + p.name + p.trail;
    body := head + ":" + p.gap + p.re + p.end;
    PaddedName(p.lead, p.name, p.trail);
    ParseInline(p.lead, p.name, p.trail, p.gap, p.re, p.end);
    TrimmableNoClose(p.gap);
    TrimmableNoClose(p.end);
    NoCloseConcat(head, ":");
    NoCloseConcat(head + ":", p.gap);
    NoCloseConcat(head + ":" + p.gap, p.re);
    NoCloseConcat(head + ":" + p.gap + p.re, p.end);
  }

  lemma TrimmableNoClose(s: string)
    requires AllTrimmable(s)
    ensures NoClose(s)
  {
  }

  // ----- what reading and compiling promise -------------------------------------------

  predicate NoOpen(t: string) {
    forall k :: 0 <= k < |t| ==> t[k] != '{'
  }

  /** Every placeholder among `ts` carries a name `java.util.regex` accepts for a group. */
  predicate NamesValid(ts: seq<Token>) {
    forall i :: 0 <= i < |ts| && ts[i].Var? ==> ValidGroupName(ts[i].name)
  }

  lemma NamesValidCons(x: Token, rest: seq<Token>)
    requires x.Var? ==> ValidGroupName(x.name)
    requires NamesValid(rest)
    ensures NamesValid([x] + rest)
  {
    assert forall i :: 1 <= i < |rest| + 1 ==> ([x] + rest)[i] == rest[i - 1];
  }

  /**
   * Reading a template can only fail at a `{`: text without one always reads.
   * Every placeholder that is read carries a valid group name.
   */
  lemma {:induction false} TokenizeMeaning(t: string)
    ensures NoOpen(t) ==> Tokenize(t).Success?
    ensures Tokenize(t).Success? ==> NamesValid(Tokenize(t).value)
    decreases |t|
  {
    if |t| > 0 {
      if t[0] == '/' {
        TokenizeMeaning(t[1..]);
        assert NoOpen(t) ==> NoOpen(t[1..]);
        if Tokenize(t).Success? {
          NamesValidCons(Slash, Tokenize(t[1..]).value);
        }
      } else if t[0] == '{' {
        if Tokenize(t).Success? {
          var j := IndexOf(t, '}', 1).value;
          ParsePlaceholderSpec(t[1..j]);
          TokenizeMeaning(t[j + 1..]);
          NamesValidCons(ParsePlaceholder(t[1..j]).value, Tokenize(t[j + 1..]).value);
        }
      } else {
        var n := LiteralRun(t);
        TokenizeMeaning(t[n..]);
        assert NoOpen(t) ==> NoOpen(t[n..]);
        if Tokenize(t).Success? {
          NamesValidCons(Lit(PercentCoding.Decode(t[..n])), Tokenize(t[n..]).value);
        }
      }
    }
  }

  /**
   * `uriTemplateToRegex` accepts every well-formed template and keeps its
   * tokens, and refuses a `{` that is never closed.
   */
  lemma CompileMeaning(ts: seq<Token>, s: string)
    requires WellFormed(ts)
    ensures UriTemplateToRegex(Unparse(ts)) == Success(UriPattern(ts))
    ensures NoClose(s) ==> UriTemplateToRegex("{" + s) == Failure(UnclosedPlaceholder)
  {
    UnparseTokenize(ts);
    if NoClose(s) {
      var t := "{" + s;
      IndexOfSpec(t, '}', 1);
      assert forall k :: 1 <= k < |t| ==> t[k] == s[k - 1];
      assert IndexOf(t, '}', 1).None?;
    }
  }

  lemma {:induction false} LiteralCountWithin(ts: seq<Token>)
    ensures LiteralCount(ts) <= |Unparse(ts)|
    ensures (forall i :: 0 <= i < |ts| ==> !ts[i].Var?) ==> LiteralCount(ts) == |Unparse(ts)|
    decreases |ts|
  {
    if |ts| > 0 {
      LiteralCountWithin(ts[1..]);
      assert (forall i :: 0 <= i < |ts| ==> !ts[i].Var?) ==> forall i :: 0 <= i < |ts[1..]| ==> !ts[1..][i].Var?;
    }
  }

  lemma {:induction false} LiteralCountErase(ts: seq<Token>)
    ensures LiteralCount(EraseRegex(ts)) == LiteralCount(ts)
    decreases |ts|
  {
    if |ts| > 0 {
      assert EraseRegex(ts)[1..] == EraseRegex(ts[1..]);
      LiteralCountErase(ts[1..]);
    }
  }

  lemma LiteralCountStrip(ts: seq<Token>)
    ensures LiteralCount(StripSlashes(ts)) <= LiteralCount(ts)
  {
    var a := if |ts| > 0 && ts[0] == Slash then ts[1..] else ts;
    if |ts| > 0 && ts[0] == Slash {
      assert ts == [Slash] + a;
      LiteralCountConcat([Slash], a);
    }
    if |a| > 0 && a[|a| - 1] == Slash {
      assert a == a[..|a| - 1] + [Slash];
      LiteralCountConcat(a[..|a| - 1], [Slash]);
    }
  }

  /**
   * `numberOfLiterals` counts characters of the path outside placeholders: it
   * never exceeds the path's length, and equals it for a template with no
   * placeholder and no outer slash.
   */
  lemma LiteralsWithinPath(p: UriPattern)
    ensures NumberOfLiterals(p) <= |Path(p)|
    ensures (forall i :: 0 <= i < |p.template| ==> !p.template[i].Var?) && p.Tokens() == p.template ==>
              NumberOfLiterals(p) == |Path(p)|
  {
    var ts := p.template;
    LiteralCountStrip(ts);
    LiteralCountErase(ts);
    LiteralCountWithin(EraseRegex(ts));
    if forall i :: 0 <= i < |ts| ==> !ts[i].Var? {
      assert EraseRegex(ts) == ts;
    }
  }

  /**
   * `namedGroups` sees every placeholder of the template as written: the
   * outer slashes carry no name, and inline regexes do not change the names.
   */
  lemma NamedGroupsOfTemplate(p: UriPattern)
    ensures NamedGroups(p) == Names(p.template)
    ensures NamedGroups(p) == Names(EraseRegex(p.template))
  {
    var ts := p.template;
    var lo := if |ts| > 0 && ts[0] == Slash then 1 else 0;
    var a := ts[lo..];
    var hi := if |a| > 0 && a[|a| - 1] == Slash then |ts| - 1 else |ts|;
    assert p.Tokens() == ts[lo..hi];
    forall n ensures n in Names(ts[lo..hi]) <==> n in Names(ts) {
      if n in Names(ts) {
        var i :| 0 <= i < |ts| && ts[i].Var? && ts[i].name == n;
        assert ts[lo..hi][i - lo] == ts[i];
      }
    }
    forall n ensures n in Names(EraseRegex(ts)) <==> n in Names(ts) {
      if n in Names(ts) {
        var i :| 0 <= i < |ts| && ts[i].Var? && ts[i].name == n;
        assert EraseRegex(ts)[i].name == n;
      }
    }
  }

  /**
   * Erasing inline regexes keeps every name and every literal character, and
   * erasing twice is erasing once.
   */
  lemma EraseRegexKeepsTemplate(ts: seq<Token>)
    ensures EraseRegex(EraseRegex(ts)) == EraseRegex(ts)
    ensures Names(EraseRegex(ts)) == Names(ts)
    ensures LiteralCount(EraseRegex(ts)) == LiteralCount(ts)
    ensures forall i :: 0 <= i < |ts| ==> (EraseRegex(ts)[i].Var? <==> ts[i].Var?)
  {
    NamedGroupsOfTemplate(UriPattern(ts));
    var p := UriPattern(ts);
    assert Names(EraseRegex(ts)) == Names(ts) by {
      assert NamedGroups(p) == Names(ts) && NamedGroups(p) == Names(EraseRegex(ts));
    }
    LiteralCountErase(ts);
  }

  /**
   * The `path` of a well-formed template is a template whose own `path` is
   * itself: rendering the path is idempotent.
   */
  lemma PathIdempotent(p: UriPattern)
    requires WellFormed(p.template)
    ensures Tokenize(Path(p)).Success?
    ensures Path(UriPattern(Tokenize(Path(p)).value)) == Path(p)
  {
    PathTokenize(p);
    var ts := EraseRegex(p.template);
    assert EraseRegex(ts) == ts;
  }

  /** Groups a shape opens. */
  function GroupCount(ss: seq<ShapeToken>): nat
    decreases |ss|
  {
    if |ss| == 0 then 0 else (if ss[0].SGroup? then 1 else 0) + GroupCount(ss[1..])
  }

  function SeenSet(seen: seq<string>): set<string> {
    set x | x in seen
  }

  lemma GroupCountCons(x: ShapeToken, ss: seq<ShapeToken>)
    ensures GroupCount([x] + ss) == (if x.SGroup? then 1 else 0) + GroupCount(ss)
  {
    assert ([x] + ss)[1..] == ss;
  }

  /** A shape opens one group per name not opened before. */
  lemma {:induction false} GroupCountNames(ts: seq<Token>, seen: seq<string>)
    ensures GroupCount(ShapeFrom(ts, seen)) == |Names(ts) - SeenSet(seen)|
    decreases |ts|
  {
    if |ts| == 0 {
      assert Names(ts) == {};
    } else if !ts[0].Var? {
      GroupCountNames(ts[1..], seen);
      GroupCountCons(ShapeFrom(ts, seen)[0], ShapeFrom(ts[1..], seen));
    } else if ts[0].name in seen {
      GroupCountNames(ts[1..], seen);
      GroupCountBackRef(ts, seen);
    } else {
      GroupCountNames(ts[1..], seen + [ts[0].name]);
      GroupCountNewGroup(ts, seen);
    }
  }

  /** A placeholder whose name is already open adds a back-reference and no group. */
  lemma GroupCountBackRef(ts: seq<Token>, seen: seq<string>)
    requires |ts| > 0 && ts[0].Var? && ts[0].name in seen
    requires GroupCount(ShapeFrom(ts[1..], seen)) == |Names(ts[1..]) - SeenSet(seen)|
    ensures GroupCount(ShapeFrom(ts, seen)) == |Names(ts) - SeenSet(seen)|
  {
    GroupCountCons(ShapeFrom(ts, seen)[0], ShapeFrom(ts[1..], seen));
    assert Names(ts) == {ts[0].name} + Names(ts[1..]);
    SeenNameDrops(ts[0].name, Names(ts[1..]), SeenSet(seen));
  }

  /** A placeholder with a new name opens one group and joins the names seen. */
  lemma GroupCountNewGroup(ts: seq<Token>, seen: seq<string>)
    requires |ts| > 0 && ts[0].Var? && ts[0].name !in seen
    requires GroupCount(ShapeFrom(ts[1..], seen + [ts[0].name]))
             == |Names(ts[1..]) - SeenSet(seen + [ts[0].name])|
    ensures GroupCount(ShapeFrom(ts, seen)) == |Names(ts) - SeenSet(seen)|
  {
    var n := ts[0].name;
    GroupCountCons(ShapeFrom(ts, seen)[0], ShapeFrom(ts[1..], seen + [n]));
    assert SeenSet(seen + [n]) == SeenSet(seen) + {n};
    assert Names(ts) == {n} + Names(ts[1..]);
    NewNameCounts(n, Names(ts[1..]), SeenSet(seen));
  }

  lemma SeenNameDrops(n: string, rest: set<string>, seen: set<string>)
    requires n in seen
    ensures ({n} + rest) - seen == rest - seen
  {
  }

  lemma NewNameCounts(n: string, rest: set<string>, seen: set<string>)
    requires n !in seen
    ensures |({n} + rest) - seen| == 1 + |rest - (seen + {n})|
  {
    var y := rest - (seen + {n});
    assert ({n} + rest) - seen == {n} + y;
    assert n !in y;
  }

  /** Templates equal modulo variable names declare the same number of groups. */
  lemma EqualModuloSameGroupCount(p: UriPattern, q: UriPattern)
    requires EqualModuloVariableNames(p, q)
    ensures |NamedGroups(p)| == |NamedGroups(q)|
  {
    GroupCountNames(p.Tokens(), []);
    GroupCountNames(q.Tokens(), []);
    assert SeenSet([]) == {};
    assert NamedGroups(p) - {} == NamedGroups(p);
    assert NamedGroups(q) - {} == NamedGroups(q);
  }
}
