/**
 * Matching a request path against a compiled template (`UriPattern.matcher`),
 * for templates whose placeholders all use the default group `[^/]+?`.
 *
 * The compiled regex is matched against the whole decoded path: the tokens in
 * order, then the optional `(/.*)?`. A first placeholder of a name is lazy,
 * trying the shortest capture first and backtracking to longer ones; a later
 * placeholder of the same name is a back-reference and must match the very
 * text the first one captured.
 */
module PathMatching {
  import opened Wrappers
  import opened UriTemplate
  import PercentCoding

  type Env = map<string, string>

  /** The result of matching one path: whether it matched, and the captured values. */
  datatype PathMatch = PathMatch(prefixMatches: bool, params: Env)

  /** Every placeholder uses the default group (no inline regex). */
  predicate DefaultOnly(ts: seq<Token>) {
    forall i :: 0 <= i < |ts| && ts[i].Var? ==> ts[i].regex.None?
  }

  /** The characters `.` does not match in a `java.util.regex` pattern. */
  predicate IsLineTerminator(c: char) {
    c == '\n' || c == '\r' || c == '\U{0085}' || c == '\U{2028}' || c == '\U{2029}'
  }

  /** What the trailing `(/.*)?` accepts: nothing, or a slash and then one line. */
  predicate SubPathOk(s: string) {
    |s| == 0 || (s[0] == '/' && forall i :: 1 <= i < |s| ==> !IsLineTerminator(s[i]))
  }

  predicate NoSlash(s: string) {
    forall i :: 0 <= i < |s| ==> s[i] != '/'
  }

  /** What the default group `[^/]+?` can capture. */
  predicate IsCapture(v: string) {
    |v| > 0 && NoSlash(v)
  }

  /** `e` keeps every binding of `env`. */
  predicate Extends(e: Env, env: Env) {
    forall m :: m in env ==> m in e && e[m] == env[m]
  }

  /**
   * Matches `ts`, then `(/.*)?`, against all of `s`; `env` holds the values
   * already captured. Yields the captures of the first successful match in
   * the regex engine's order of preference.
   */
  function Match(ts: seq<Token>, s: string, env: Env): Option<Env>
    decreases |ts|, |s| + 1
  {
    if |ts| == 0 then (if SubPathOk(s) then Some(env) else None)
    else match ts[0]
      case Lit(l) => if l <= s then Match(ts[1..], s[|l|..], env) else None
      case Slash => if 0 < |s| && s[0] == '/' then Match(ts[1..], s[1..], env) else None
      case Var(n, _) =>
        if n in env then
          (if env[n] <= s then Match(ts[1..], s[|env[n]|..], env) else None)
        else TryLengths(n, ts[1..], s, 1, env)
  }

  /**
   * The lazy group for `n`: captures `s[..k]`, `s[..k+1]`, … in turn, never
   * across a slash, and keeps the first capture after which `rest` matches.
   */
  function TryLengths(n: string, rest: seq<Token>, s: string, k: nat, env: Env): Option<Env>
    requires 1 <= k
    decreases |rest| + 1, |s| - k + 1
  {
    if k > |s| || s[k - 1] == '/' then None
    else match Match(rest, s[k..], env[n := s[..k]])
      case Some(e) => Some(e)
      case None => TryLengths(n, rest, s, k + 1, env)
  }

  /** The path the regex sees: percent-decoded, without one leading slash. */
  function RelativePath(uri: string): string {
    var path := PercentCoding.Decode(uri);
    if |path| > 0 && path[0] == '/' then path[1..] else path
  }

  /** The text the template stands for once each placeholder is replaced by its value in `sigma`. */
  function Fill(ts: seq<Token>, sigma: Env): string
    decreases |ts|
  {
    if |ts| == 0 then ""
    else match ts[0]
      case Lit(l) => l + Fill(ts[1..], sigma)
      case Slash => "/" + Fill(ts[1..], sigma)
      case Var(n, _) => (if n in sigma then sigma[n] else "") + Fill(ts[1..], sigma)
  }

  // ----- soundness ---------------------------------------------------------------

  /** What a successful match promises about the captures it returns. */
  predicate Sound(ts: seq<Token>, s: string, env: Env, e: Env) {
    && Extends(e, env)
    && Names(ts) <= e.Keys
    && e.Keys <= env.Keys + Names(ts)
    && (forall m :: m in e && m !in env ==> IsCapture(e[m]))
    && Fill(ts, e) <= s
    && SubPathOk(s[|Fill(ts, e)|..])
  }

  /** Soundness carries over from the tail to a template one token longer that captures nothing new. */
  lemma SoundCons(ts: seq<Token>, s: string, env: Env, e: Env, m: nat)
    requires |ts| > 0 && m <= |s|
    requires !ts[0].Var? || ts[0].name in env
    requires Sound(ts[1..], s[m..], env, e)
    requires Fill(ts, e) == s[..m] + Fill(ts[1..], e)
    ensures Sound(ts, s, env, e)
  {
    NamesCons(ts);
    PrefixJoin(s, m, Fill(ts[1..], e));
  }

  lemma NamesCons(ts: seq<Token>)
    requires |ts| > 0
    ensures Names(ts) == (if ts[0].Var? then {ts[0].name} else {}) + Names(ts[1..])
  {
  }

  /** A prefix of the path after its first `m` characters, put back behind them. */
  lemma PrefixJoin(s: string, m: nat, f: string)
    requires m <= |s| && f <= s[m..]
    ensures s[..m] + f <= s
    ensures s[m..][|f|..] == s[m + |f|..]
  {
    assert s[..m + |f|] == s[..m] + s[m..][..|f|];
  }

  /**
   * A match is genuine: the captures extend `env` with one non-empty,
   * slash-free value per new name, and filling the template with them spells
   * a prefix of the path whose remainder `(/.*)?` accepts.
   */
  lemma {:induction false} MatchSound(ts: seq<Token>, s: string, env: Env)
    requires Match(ts, s, env).Some?
    ensures Sound(ts, s, env, Match(ts, s, env).value)
    decreases |ts|, |s| + 1, 1
  {
    if |ts| > 0 {
      match ts[0]
      case Lit(l) => MatchSoundFixed(ts, s, env, |l|);
      case Slash => MatchSoundFixed(ts, s, env, 1);
      case Var(n, _) =>
        if n in env {
          MatchSoundFixed(ts, s, env, |env[n]|);
        } else {
          TryLengthsSound(n, ts[1..], s, 1, env);
          SoundVarNew(ts, s, env, Match(ts, s, env).value);
        }
    }
  }

  /**
   * A first token that consumes a fixed `m` characters (a literal, a slash, a
   * back-reference): soundness of the rest carries over.
   */
  lemma {:induction false} MatchSoundFixed(ts: seq<Token>, s: string, env: Env, m: nat)
    requires |ts| > 0 && Match(ts, s, env).Some?
    requires ts[0].Lit? ==> m == |ts[0].text|
    requires ts[0].Slash? ==> m == 1
    requires ts[0].Var? ==> ts[0].name in env && m == |env[ts[0].name]|
    ensures Sound(ts, s, env, Match(ts, s, env).value)
    decreases |ts|, |s| + 1, 0
  {
    var e := Match(ts, s, env).value;
    assert m <= |s| && Match(ts, s, env) == Match(ts[1..], s[m..], env);
    MatchSound(ts[1..], s[m..], env);
    assert Fill(ts, e) == s[..m] + Fill(ts[1..], e) by {
      match ts[0]
      case Lit(l) => assert s[..m] == l;
      case Slash => assert s[..m] == "/";
      case Var(n, _) => assert s[..m] == env[n] == e[n];
    }
    SoundCons(ts, s, env, e, m);
  }

  /** What the lazy group for a new name `n` promises about the captures `e` it returns. */
  predicate CaptureSound(n: string, rest: seq<Token>, s: string, env: Env, e: Env) {
    && Extends(e, env) && n in e && IsCapture(e[n])
    && Names(rest) <= e.Keys && e.Keys <= env.Keys + {n} + Names(rest)
    && (forall m :: m in e && m !in env ==> IsCapture(e[m]))
    && e[n] + Fill(rest, e) <= s
    && SubPathOk(s[|e[n]| + |Fill(rest, e)|..])
  }

  /** A template starting with a new name's placeholder is sound when the lazy group is. */
  lemma SoundVarNew(ts: seq<Token>, s: string, env: Env, e: Env)
    requires |ts| > 0 && ts[0].Var? && ts[0].name !in env
    requires CaptureSound(ts[0].name, ts[1..], s, env, e)
    ensures Sound(ts, s, env, e)
  {
    var n := ts[0].name;
    assert Fill(ts, e) == e[n] + Fill(ts[1..], e);
    assert Names(ts) == {n} + Names(ts[1..]);
  }

  lemma {:induction false} TryLengthsSound(n: string, rest: seq<Token>, s: string, k: nat, env: Env)
    requires 1 <= k <= |s| + 1 && n !in env
    requires NoSlash(s[..k - 1])
    requires TryLengths(n, rest, s, k, env).Some?
    ensures CaptureSound(n, rest, s, env, TryLengths(n, rest, s, k, env).value)
    decreases |rest| + 1, |s| - k + 1
  {
    assert NoSlash(s[..k]) by {
      assert forall i :: 0 <= i < k - 1 ==> s[..k][i] == s[..k - 1][i];
    }
    match Match(rest, s[k..], env[n := s[..k]])
    case Some(e) =>
      MatchSound(rest, s[k..], env[n := s[..k]]);
      CaptureFromSound(n, rest, s, k, env, e);
    case None =>
      TryLengthsSound(n, rest, s, k + 1, env);
  }

  /** Capturing `s[..k]` for `n` and then matching the rest soundly is a sound capture. */
  lemma CaptureFromSound(n: string, rest: seq<Token>, s: string, k: nat, env: Env, e: Env)
    requires 1 <= k <= |s| && n !in env && NoSlash(s[..k])
    requires Sound(rest, s[k..], env[n := s[..k]], e)
    ensures CaptureSound(n, rest, s, env, e)
  {
    assert e[n] == s[..k];
    var f := Fill(rest, e);
    assert s[k..][|f|..] == s[k + |f|..];
    assert s[..k] + f <= s by {
      assert s[..k + |f|] == s[..k] + s[k..][..|f|];
    }
  }

  // ----- completeness ------------------------------------------------------------

  /**
   * The search misses nothing: whenever some choice of captures spells a
   * prefix of the path whose remainder `(/.*)?` accepts, the match succeeds.
   */
  lemma {:induction false} MatchComplete(ts: seq<Token>, s: string, env: Env, sigma: Env)
    requires Extends(sigma, env)
    requires Names(ts) <= sigma.Keys
    requires forall m :: m in Names(ts) && m !in env ==> IsCapture(sigma[m])
    requires Fill(ts, sigma) <= s && SubPathOk(s[|Fill(ts, sigma)|..])
    ensures Match(ts, s, env).Some?
    decreases |ts|
  {
    if |ts| > 0 {
      var rest := ts[1..];
      var f := Fill(rest, sigma);
      match ts[0]
      case Lit(l) =>
        PrefixSplit(l, f, s);
        MatchComplete(rest, s[|l|..], env, sigma);
      case Slash =>
        PrefixSplit("/", f, s);
        MatchComplete(rest, s[1..], env, sigma);
      case Var(n, _) =>
        var v := sigma[n];
        PrefixSplit(v, f, s);
        if n in env {
          MatchComplete(rest, s[|v|..], env, sigma);
        } else {
          MatchComplete(rest, s[|v|..], env[n := v], sigma);
          TryLengthsFinds(n, rest, s, 1, |v|, env);
        }
    }
  }

  /** Splitting a prefix `a + b` of `s` into its two parts. */
  lemma PrefixSplit(a: string, b: string, s: string)
    requires a + b <= s
    ensures a <= s && s[..|a|] == a
    ensures b <= s[|a|..]
    ensures s[|a|..][|b|..] == s[|a + b|..]
  {
    assert s[..|a|] == (a + b)[..|a|];
    assert s[|a|..][..|b|] == (a + b)[|a|..];
  }

  /** The lazy group reaches every capture length up to one that works. */
  lemma {:induction false} TryLengthsFinds(n: string, rest: seq<Token>, s: string, k: nat, j: nat, env: Env)
    requires 1 <= k <= j <= |s|
    requires NoSlash(s[..j])
    requires Match(rest, s[j..], env[n := s[..j]]).Some?
    ensures TryLengths(n, rest, s, k, env).Some?
    decreases j - k
  {
    assert s[k - 1] == s[..j][k - 1];
    if Match(rest, s[k..], env[n := s[..k]]).None? {
      TryLengthsFinds(n, rest, s, k + 1, j, env);
    }
  }

  /**
   * The lazy group keeps the shortest capture that works: if every length
   * from `k` up to `j` fails and `j` succeeds, the group's result is `j`'s.
   */
  lemma {:induction false} TryLengthsShortest(n: string, rest: seq<Token>, s: string, k: nat, j: nat, env: Env)
    requires 1 <= k <= j <= |s|
    requires NoSlash(s[..j])
    requires forall i :: k <= i < j ==> Match(rest, s[i..], env[n := s[..i]]).None?
    requires Match(rest, s[j..], env[n := s[..j]]).Some?
    ensures TryLengths(n, rest, s, k, env) == Match(rest, s[j..], env[n := s[..j]])
    decreases j - k
  {
    assert s[k - 1] == s[..j][k - 1];
    if k < j {
      TryLengthsShortest(n, rest, s, k + 1, j, env);
    }
  }

  /** The lazy group fails when no capture length up to the next slash lets `rest` match. */
  lemma {:induction false} TryLengthsFails(n: string, rest: seq<Token>, s: string, k: nat, env: Env)
    requires 1 <= k && k - 1 <= |s| && NoSlash(s[..k - 1])
    requires forall i :: k <= i <= |s| && NoSlash(s[..i]) ==> Match(rest, s[i..], env[n := s[..i]]).None?
    ensures TryLengths(n, rest, s, k, env).None?
    decreases |s| - k + 1
  {
    if k <= |s| && s[k - 1] != '/' {
      assert NoSlash(s[..k]) by {
        assert forall i :: 0 <= i < k - 1 ==> s[..k][i] == s[..k - 1][i];
      }
      TryLengthsFails(n, rest, s, k + 1, env);
    }
  }

  // ----- the matcher ---------------------------------------------------------------

  /**
   * `uriPattern.matcher(uri)`: whether the path matches the compiled regex,
   * and the value each named group captured.
   */
  function Matcher(p: UriPattern, uri: string): (r: PathMatch)
    requires DefaultOnly(p.Tokens())
    ensures r.prefixMatches ==>
              && r.params.Keys == NamedGroups(p)
              && (forall m :: m in r.params ==> IsCapture(r.params[m]))
              && Fill(p.Tokens(), r.params) <= RelativePath(uri)
              && SubPathOk(RelativePath(uri)[|Fill(p.Tokens(), r.params)|..])
    ensures !r.prefixMatches ==> r.params == map[]
  {
    var s := RelativePath(uri);
    match Match(p.Tokens(), s, map[])
    case Some(e) =>
      MatchSound(p.Tokens(), s, map[]);
      PathMatch(true, e)
    case None => PathMatch(false, map[])
  }

  /**
   * The converse: any values for the named groups that spell a prefix of
   * the path, the rest being `(/.*)?`, make the path match.
   */
  lemma MatcherComplete(p: UriPattern, uri: string, sigma: Env)
    requires DefaultOnly(p.Tokens())
    requires NamedGroups(p) <= sigma.Keys
    requires forall m :: m in NamedGroups(p) ==> IsCapture(sigma[m])
    requires Fill(p.Tokens(), sigma) <= RelativePath(uri)
    requires SubPathOk(RelativePath(uri)[|Fill(p.Tokens(), sigma)|..])
    ensures Matcher(p, uri).prefixMatches
  {
    MatchComplete(p.Tokens(), RelativePath(uri), map[], sigma);
  }

  /** `numberOfLiterals` is the length of the text the template spells with every placeholder empty. */
  lemma {:induction false} LiteralCountFill(ts: seq<Token>)
    ensures LiteralCount(ts) == |Fill(ts, map[])|
    decreases |ts|
  {
    if |ts| > 0 {
      LiteralCountFill(ts[1..]);
    }
  }

  /**
   * Substituting captures into the template and percent-encoding the
   * result gives a path the template matches.
   */
  lemma EncodedFillMatches(p: UriPattern, sigma: Env, escape: set<char>)
    requires DefaultOnly(p.Tokens())
    requires NamedGroups(p) <= sigma.Keys
    requires forall m :: m in NamedGroups(p) ==> IsCapture(sigma[m])
    requires forall c :: c in escape ==> c as int < 256
    ensures Matcher(p, "/" + PercentCoding.Encode(Fill(p.Tokens(), sigma), escape)).prefixMatches
  {
    var f := Fill(p.Tokens(), sigma);
    var x := PercentCoding.Encode(f, escape);
    PercentCoding.DecodeEncode(f, escape);
    assert ("/" + x)[1..] == x;
    assert RelativePath("/" + x) == f;
    assert f[|f|..] == "";
    MatcherComplete(p, "/" + x, sigma);
  }

  // ----- matching step by step ------------------------------------------------------

  /** A literal token consumes exactly its own text. */
  lemma MatchLit(l: string, rest: seq<Token>, s: string, env: Env)
    ensures Match([Lit(l)] + rest, l + s, env) == Match(rest, s, env)
  {
    assert ([Lit(l)] + rest)[1..] == rest;
    assert (l + s)[|l|..] == s;
  }

  /** A slash token consumes exactly one `/`. */
  lemma MatchSlash(rest: seq<Token>, s: string, env: Env)
    ensures Match([Slash] + rest, "/" + s, env) == Match(rest, s, env)
  {
    assert ([Slash] + rest)[1..] == rest;
    assert ("/" + s)[1..] == s;
  }

  /** A slash token fails on text that does not start with `/`. */
  lemma MatchSlashFails(rest: seq<Token>, s: string, env: Env)
    requires |s| == 0 || s[0] != '/'
    ensures Match([Slash] + rest, s, env) == None
  {
  }

  /** A literal token fails on text that does not start with it. */
  lemma MatchLitFails(l: string, rest: seq<Token>, s: string, env: Env)
    requires !(l <= s)
    ensures Match([Lit(l)] + rest, s, env) == None
  {
  }

  /** A repeated name consumes exactly the text its first occurrence captured. */
  lemma MatchBackRef(n: string, re: Option<string>, rest: seq<Token>, s: string, env: Env)
    requires n in env
    ensures Match([Var(n, re)] + rest, env[n] + s, env) == Match(rest, s, env)
  {
    assert ([Var(n, re)] + rest)[1..] == rest;
    assert (env[n] + s)[|env[n]|..] == s;
  }

  /** A repeated name fails where the text does not start with its captured value. */
  lemma MatchBackRefFails(n: string, re: Option<string>, rest: seq<Token>, s: string, env: Env)
    requires n in env && !(env[n] <= s)
    ensures Match([Var(n, re)] + rest, s, env) == None
  {
  }

  /** A first occurrence of a name is the lazy group. */
  lemma MatchGroup(n: string, re: Option<string>, rest: seq<Token>, s: string, env: Env)
    requires n !in env
    ensures Match([Var(n, re)] + rest, s, env) == TryLengths(n, rest, s, 1, env)
  {
    assert ([Var(n, re)] + rest)[1..] == rest;
  }

  /** The path of a URI with a leading slash and no escapes is the rest of it. */
  lemma RelativePathPlain(x: string)
    requires forall i :: 0 <= i < |x| ==> x[i] != '%'
    ensures RelativePath("/" + x) == x
  {
    PercentCoding.DecodeWithoutPercent("/" + x);
    assert ("/" + x)[1..] == x;
  }

  /** A URI without a leading slash and without escapes is its own path. */
  lemma RelativePathUnchanged(x: string)
    requires forall i :: 0 <= i < |x| ==> x[i] != '%'
    requires |x| == 0 || x[0] != '/'
    ensures RelativePath(x) == x
  {
    PercentCoding.DecodeWithoutPercent(x);
  }
}
