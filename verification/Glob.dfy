/**
  The glob compiler: the text it emits, read as an ECMA-262 pattern, against the language the
  globs are documented to denote.
 */
module Glob {
  // ---- what a glob means ------------------------------------------------------------------------

  datatype Token =
    | Lit(c: char)
    | Star // `*`: a run without `/`
    | AnyRun // `**`: a run without line terminators
    | Dirs // `**/`: nothing, or such a run ending in `/`

  /** Characters of the glob a token takes up. */
  function Width(t: Token): nat {
    match t
    case Lit(_) => 1
    case Star => 1
    case AnyRun => 2
    case Dirs => 3
  }

  function NextToken(glob: string): (t: Token)
    requires glob != ""
    ensures Width(t) <= |glob|
  {
    if glob[0] != '*' then Lit(glob[0])
    else if !(|glob| > 1 && glob[1] == '*') then Star
    else if |glob| > 2 && glob[2] == '/' then Dirs
    else AnyRun
  }

  function Tokens(glob: string): seq<Token> {
    if glob == "" then []
    else
      var t := NextToken(glob);
      [t] + Tokens(glob[Width(t)..])
  }

  predicate IsLineTerminator(c: char) {
    c == '\n' || c == '\r' || c == '\U{2028}' || c == '\U{2029}'
  }

  predicate NoSlash(s: string) {
    forall k | 0 <= k < |s| :: s[k] != '/'
  }

  predicate OneLine(s: string) {
    forall k | 0 <= k < |s| :: !IsLineTerminator(s[k])
  }

  /** `run` is something the token stands for. */
  predicate Stands(t: Token, run: string) {
    match t
    case Lit(c) => run == [c]
    case Star => NoSlash(run)
    case AnyRun => OneLine(run)
    case Dirs => run == "" || (run[|run| - 1] == '/' && OneLine(run))
  }

  /** `path` splits into runs the tokens stand for, in order. */
  predicate Denotes(ts: seq<Token>, path: string) {
    if ts == [] then path == ""
    else exists n | 0 <= n <= |path| :: Stands(ts[0], path[..n]) && Denotes(ts[1..], path[n..])
  }

  // ---- patterns, after sections 22.2.1 and 22.2.2 of ECMA-262 -------------------------------------

  datatype Node =
    | Empty
    | Start // ^
    | End // $
    | Dot
    | NotSlash // [^/]
    | Char(c: char)
    | Many(body: Node) // greedy *
    | Maybe(body: Node) // greedy ?
    | Cat(first: Node, rest: Node)

  const SYNTAX_CHARACTERS := "^$\\.*+?()[]{}|"

  datatype Parsed = Fail | Parsed(node: Node, rest: string)

  /** Alternative: terms up to the end or a closing parenthesis. */
  function ParseAlternative(text: string): (p: Parsed)
    ensures p.Parsed? ==> |p.rest| <= |text|
    decreases |text|, 2
  {
    if text == "" || text[0] == ')' then Parsed(Empty, text)
    else
      var t := ParseTerm(text);
      if t.Fail? then Fail
      else
        var more := ParseAlternative(t.rest);
        if more.Fail? then Fail else Parsed(Cat(t.node, more.node), more.rest)
  }

  /** Term: an assertion, or an atom with an optional greedy quantifier. */
  function ParseTerm(text: string): (p: Parsed)
    requires text != ""
    ensures p.Parsed? ==> |p.rest| < |text|
    decreases |text|, 1
  {
    if text[0] == '^' then Parsed(Start, text[1..])
    else if text[0] == '$' then Parsed(End, text[1..])
    else
      var atom := ParseAtom(text);
      if atom.Fail? || atom.rest == "" || atom.rest[0] !in "*?" then atom
      else if |atom.rest| > 1 && atom.rest[1] == '?' then Fail // lazy quantifiers are never emitted
      else if atom.rest[0] == '*' then Parsed(Many(atom.node), atom.rest[1..])
      else Parsed(Maybe(atom.node), atom.rest[1..])
  }

  function ParseAtom(text: string): (p: Parsed)
    requires text != ""
    ensures p.Parsed? ==> |p.rest| < |text|
    decreases |text|, 0
  {
    if text[0] == '.' then Parsed(Dot, text[1..])
    else if text[0] == '\\' then
      if |text| > 1 && text[1] in SYNTAX_CHARACTERS then Parsed(Char(text[1]), text[2..]) else Fail
    else if "[^/]" <= text then Parsed(NotSlash, text[4..])
    else if "(?:" <= text then
      var body := ParseAlternative(text[3..]);
      if body.Fail? || body.rest == "" then Fail else Parsed(body.node, body.rest[1..])
    else if text[0] in SYNTAX_CHARACTERS then Fail
    else Parsed(Char(text[0]), text[1..])
  }

  /** `n` matches the span of `s` from `i` to `j`; iterations of `*` must consume something. */
  predicate Matches(n: Node, s: string, i: nat, j: nat)
    requires i <= j <= |s|
    decreases n, j - i
  {
    match n
    case Empty => i == j
    case Start => i == j == 0
    case End => i == j == |s|
    case Dot => j == i + 1 && !IsLineTerminator(s[i])
    case NotSlash => j == i + 1 && s[i] != '/'
    case Char(c) => j == i + 1 && s[i] == c
    case Many(body) => i == j || exists k | i < k <= j :: Matches(body, s, i, k) && Matches(n, s, k, j)
    case Maybe(body) => i == j || Matches(body, s, i, j)
    case Cat(first, rest) => exists k | i <= k <= j :: Matches(first, s, i, k) && Matches(rest, s, k, j)
  }

  /** `new RegExp(pattern).test(s)` for a pattern that parses: some span matches. */
  predicate Test(pattern: string, s: string) {
    var p := ParseAlternative(pattern);
    && p.Parsed? && p.rest == ""
    && exists i, j | 0 <= i <= j <= |s| :: Matches(p.node, s, i, j)
  }

  // ---- the compiler -----------------------------------------------------------------------------

  function EmitOne(t: Token): string {
    match t
    case Lit(c) => if c in "\\^$.|?+()[]{}" then ['\\', c] else [c]
    case Star => "[^/]*"
    case AnyRun => ".*"
    case Dirs => "(?:.*/)?"
  }

  function Emit(ts: seq<Token>): string {
    if ts == [] then "" else EmitOne(ts[0]) + Emit(ts[1..])
  }

  function Pattern(glob: string): string {
    "^" + Emit(Tokens(glob)) + "$"
  }

  lemma TokensStep(glob: string)
    requires glob != ""
    ensures var t := NextToken(glob);
            Width(t) <= |glob| && Tokens(glob) == [t] + Tokens(glob[Width(t)..])
            && Emit(Tokens(glob)) == EmitOne(t) + Emit(Tokens(glob[Width(t)..]))
  {
    var t := NextToken(glob);
    assert ([t] + Tokens(glob[Width(t)..]))[1..] == Tokens(glob[Width(t)..]);
  }

  /** Appending the next token's text keeps the rest of the glob's text in place. */
  lemma EmitStep(before: string, glob: string, i: nat)
    requires i < |glob|
    ensures var t := NextToken(glob[i..]);
            && i + Width(t) <= |glob|
            && before + Emit(Tokens(glob[i..])) == before + EmitOne(t) + Emit(Tokens(glob[i + Width(t)..]))
  {
    TokensStep(glob[i..]);
    var t := NextToken(glob[i..]);
    assert glob[i..][Width(t)..] == glob[i + Width(t)..];
  }

  /** The text for the token at `i`, and the position after it. */
  method EmitAt(glob: string, i: nat) returns (text: string, next: nat)
    requires i < |glob|
    ensures text == EmitOne(NextToken(glob[i..])) && next == i + Width(NextToken(glob[i..])) <= |glob|
  {
    var c := glob[i];
    next := i + 1;
    if c == '*' {
      if next < |glob| && glob[next] == '*' {
        next := next + 1;
        if next < |glob| && glob[next] == '/' {
          next := next + 1;
          text := "(?:.*/)?";
        } else {
          text := ".*";
        }
      } else {
        text := "[^/]*";
      }
    } else if c in "\\^$.|?+()[]{}" {
      text := ['\\', c];
    } else {
      text := [c];
    }
  }

  method GlobToRegExp(glob: string) returns (pattern: string)
    ensures pattern == Pattern(glob)
  {
    var re, i := "", 0;
    while i < |glob|
      invariant 0 <= i <= |glob|
      invariant re + Emit(Tokens(glob[i..])) == Emit(Tokens(glob))
    {
      EmitStep(re, glob, i);
      ghost var t := NextToken(glob[i..]);
      var text, next := EmitAt(glob, i);
      assert glob[next..] == glob[i + Width(t)..] && text == EmitOne(t);
      re, i := re + text, next;
    }
    pattern := "^" + re + "$";
  }

  // ---- the emitted text parses to the intended pattern ----------------------------------------------

  function TermOf(t: Token): Node {
    match t
    case Lit(c) => Char(c)
    case Star => Many(NotSlash)
    case AnyRun => Many(Dot)
    case Dirs => Maybe(Cat(Many(Dot), Cat(Char('/'), Empty)))
  }

  function TermsOf(ts: seq<Token>): Node {
    if ts == [] then Cat(End, Empty) else Cat(TermOf(ts[0]), TermsOf(ts[1..]))
  }

  predicate NoLiteralStar(ts: seq<Token>) {
    forall i | 0 <= i < |ts| :: ts[i] != Lit('*')
  }

  lemma {:induction false} TokensHaveNoLiteralStar(glob: string)
    ensures NoLiteralStar(Tokens(glob))
  {
    if glob == "" {
    } else {
      TokensStep(glob);
      TokensHaveNoLiteralStar(glob[Width(NextToken(glob))..]);
    }
  }

  /** What follows a term is never read as its quantifier. */
  predicate NoQuantifier(text: string) {
    text != "" ==> text[0] !in "*?"
  }

  lemma AnyRunParses(more: string)
    requires NoQuantifier(more)
    ensures ParseTerm(".*" + more) == Parsed(Many(Dot), more)
  {
    var text := ".*" + more;
    assert text[1..] == "*" + more && ("*" + more)[1..] == more;
  }

  /** `/)?` closes the group and makes it optional. */
  lemma GroupTailParses(more: string)
    ensures ParseAlternative("/)?" + more) == Parsed(Cat(Char('/'), Empty), ")?" + more)
    ensures (")?" + more)[1..] == "?" + more
  {
    var inner, close := "/)?" + more, ")?" + more;
    assert inner[1..] == close;
    assert ParseTerm(inner) == Parsed(Char('/'), close);
    assert ParseAlternative(close) == Parsed(Empty, close);
  }

  lemma DirsParses(more: string)
    requires NoQuantifier(more)
    ensures ParseTerm("(?:.*/)?" + more) == Parsed(TermOf(Dirs), more)
  {
    var text, inner := "(?:.*/)?" + more, "/)?" + more;
    var body := ".*" + inner;
    assert text[3..] == body;
    AnyRunParses(inner);
    GroupTailParses(more);
    assert ParseAlternative(body) == Parsed(Cat(Many(Dot), Cat(Char('/'), Empty)), ")?" + more);
    assert ParseAtom(text) == Parsed(Cat(Many(Dot), Cat(Char('/'), Empty)), "?" + more) by {
      assert "(?:" <= text;
    }
    assert ("?" + more)[1..] == more;
  }

  lemma TermParses(t: Token, more: string)
    requires t != Lit('*') && NoQuantifier(more)
    ensures ParseTerm(EmitOne(t) + more) == Parsed(TermOf(t), more)
  {
    var text := EmitOne(t) + more;
    match t
    case Lit(c) =>
      if c in "\\^$.|?+()[]{}" {
        assert text[2..] == more;
      } else {
        assert text[1..] == more;
      }
    case Star =>
      assert text[4..] == "*" + more && ("*" + more)[1..] == more;
    case AnyRun => AnyRunParses(more);
    case Dirs => DirsParses(more);
  }

  /** A term before more terms. */
  lemma TermThenParses(t: Token, more: string, rest: Node)
    requires t != Lit('*') && NoQuantifier(more) && ParseAlternative(more) == Parsed(rest, "")
    ensures ParseAlternative(EmitOne(t) + more) == Parsed(Cat(TermOf(t), rest), "")
    ensures NoQuantifier(EmitOne(t) + more)
  {
    TermParses(t, more);
    assert EmitOne(t)[0] !in ")*?";
    assert (EmitOne(t) + more)[0] == EmitOne(t)[0];
  }

  lemma {:induction false} EmittedParses(ts: seq<Token>)
    requires NoLiteralStar(ts)
    ensures ParseAlternative(Emit(ts) + "$") == Parsed(TermsOf(ts), "")
    ensures NoQuantifier(Emit(ts) + "$")
  {
    if ts == [] {
      assert Emit(ts) + "$" == "$" && "$"[1..] == "";
    } else {
      var more := Emit(ts[1..]) + "$";
      EmittedParses(ts[1..]);
      TermThenParses(ts[0], more, TermsOf(ts[1..]));
      assert Emit(ts) + "$" == EmitOne(ts[0]) + more;
    }
  }

  // ---- the pattern matches the language -----------------------------------------------------------

  lemma {:induction false} DotRun(s: string, i: nat, j: nat)
    requires i <= j <= |s|
    ensures Matches(Many(Dot), s, i, j) <==> OneLine(s[i..j])
    decreases j - i
  {
    if i == j {
    } else {
      DotRun(s, i + 1, j);
      assert s[i..j] == [s[i]] + s[i + 1..j];
      assert Matches(Many(Dot), s, i, j) <==> !IsLineTerminator(s[i]) && Matches(Many(Dot), s, i + 1, j);
    }
  }

  lemma {:induction false} NotSlashRun(s: string, i: nat, j: nat)
    requires i <= j <= |s|
    ensures Matches(Many(NotSlash), s, i, j) <==> NoSlash(s[i..j])
    decreases j - i
  {
    if i == j {
    } else {
      NotSlashRun(s, i + 1, j);
      assert s[i..j] == [s[i]] + s[i + 1..j];
      assert Matches(Many(NotSlash), s, i, j) <==> s[i] != '/' && Matches(Many(NotSlash), s, i + 1, j);
    }
  }

  /** `first` then `rest`, when `first` can only end at `k`. */
  lemma CatAt(first: Node, rest: Node, s: string, i: nat, k: nat, j: nat)
    requires i <= k <= j <= |s|
    requires forall m | i <= m <= j && m != k :: !(Matches(first, s, i, m) && Matches(rest, s, m, j))
    ensures Matches(Cat(first, rest), s, i, j) <==> Matches(first, s, i, k) && Matches(rest, s, k, j)
  {
  }

  lemma OneLineAppend(run: string, c: char)
    ensures OneLine(run + [c]) <==> OneLine(run) && !IsLineTerminator(c)
  {
    assert (run + [c])[|run|] == c;
    assert forall k | 0 <= k < |run| :: run[k] == (run + [c])[k];
    if OneLine(run + [c]) {
      forall k | 0 <= k < |run|
        ensures !IsLineTerminator(run[k])
      {
        assert !IsLineTerminator((run + [c])[k]);
      }
    }
  }

  lemma DirsRun(s: string, i: nat, j: nat)
    requires i <= j <= |s|
    ensures Matches(TermOf(Dirs), s, i, j) <==> Stands(Dirs, s[i..j])
  {
    var slash := Cat(Char('/'), Empty);
    forall k | i <= k <= j
      ensures Matches(slash, s, k, j) <==> k + 1 == j && s[k] == '/'
    {
      if k < j {
        CatAt(Char('/'), Empty, s, k, k + 1, j);
      }
    }
    if i < j {
      DotRun(s, i, j - 1);
      var run := s[i..j];
      assert run == s[i..j - 1] + [s[j - 1]];
      OneLineAppend(s[i..j - 1], s[j - 1]);
      CatAt(Many(Dot), slash, s, i, j - 1, j);
      assert Matches(Cat(Many(Dot), slash), s, i, j) <==> OneLine(s[i..j - 1]) && s[j - 1] == '/';
    }
  }

  lemma TermMatchesRun(t: Token, s: string, i: nat, j: nat)
    requires i <= j <= |s|
    ensures Matches(TermOf(t), s, i, j) <==> Stands(t, s[i..j])
  {
    match t
    case Lit(_) =>
    case Star => NotSlashRun(s, i, j);
    case AnyRun => DotRun(s, i, j);
    case Dirs => DirsRun(s, i, j);
  }

  lemma DenotesBySpan(ts: seq<Token>, s: string, i: nat)
    requires ts != [] && i <= |s|
    ensures Denotes(ts, s[i..]) <==> exists k | i <= k <= |s| :: Stands(ts[0], s[i..k]) && Denotes(ts[1..], s[k..])
  {
    var path := s[i..];
    assert forall n | 0 <= n <= |path| :: path[..n] == s[i..i + n] && path[n..] == s[i + n..];
    if k :| i <= k <= |s| && Stands(ts[0], s[i..k]) && Denotes(ts[1..], s[k..]) {
      assert path[..k - i] == s[i..k] && path[k - i..] == s[k..];
    }
  }

  lemma {:induction false} TermsMatchLanguage(ts: seq<Token>, s: string, i: nat, j: nat)
    requires i <= j <= |s|
    ensures Matches(TermsOf(ts), s, i, j) <==> j == |s| && Denotes(ts, s[i..])
    decreases |ts|
  {
    if ts == [] {
      CatAt(End, Empty, s, i, i, j);
    } else {
      DenotesBySpan(ts, s, i);
      forall k | i <= k <= j
        ensures Matches(TermOf(ts[0]), s, i, k) <==> Stands(ts[0], s[i..k])
        ensures Matches(TermsOf(ts[1..]), s, k, j) <==> j == |s| && Denotes(ts[1..], s[k..])
      {
        TermMatchesRun(ts[0], s, i, k);
        TermsMatchLanguage(ts[1..], s, k, j);
      }
    }
  }

  /** The compiled pattern is well formed and accepts exactly the glob's language. */
  lemma CompiledGlobIsExact(glob: string, path: string)
    ensures Test(Pattern(glob), path) <==> Denotes(Tokens(glob), path)
  {
    var ts := Tokens(glob);
    TokensHaveNoLiteralStar(glob);
    EmittedParses(ts);
    var text := Emit(ts) + "$";
    assert Pattern(glob) == "^" + text && Pattern(glob)[1..] == text;
    var whole := Cat(Start, TermsOf(ts));
    assert ParseAlternative(Pattern(glob)) == Parsed(whole, "");
    forall i, j | 0 <= i <= j <= |path|
      ensures Matches(whole, path, i, j) <==> i == 0 && j == |path| && Denotes(ts, path)
    {
      CatAt(Start, TermsOf(ts), path, i, i, j);
      if i == 0 {
        TermsMatchLanguage(ts, path, 0, j);
        assert path[0..] == path;
      }
    }
    assert 0 <= 0 <= |path| <= |path|;
    assert Matches(whole, path, 0, |path|) <==> Denotes(ts, path);
  }

  predicate GlobMatch(glob: string, path: string) {
    Test(Pattern(glob), path)
  }

  // ---- the language, by the glob's own text --------------------------------------------------------

  /** No line ends in it; what `.` runs over. */
  predicate Unbroken(s: string) {
    forall c | c in s :: c !in "\n\r\U{2028}\U{2029}"
  }

  lemma MatchStep(glob: string, path: string)
    requires glob != ""
    ensures var t := NextToken(glob);
            GlobMatch(glob, path)
            <==> exists n | 0 <= n <= |path| :: Stands(t, path[..n]) && GlobMatch(glob[Width(t)..], path[n..])
  {
    var rest := glob[Width(NextToken(glob))..];
    CompiledGlobIsExact(glob, path);
    TokensStep(glob);
    forall n | 0 <= n <= |path|
      ensures GlobMatch(rest, path[n..]) <==> Denotes(Tokens(glob)[1..], path[n..])
    {
      CompiledGlobIsExact(rest, path[n..]);
      assert Tokens(glob)[1..] == Tokens(rest);
    }
  }

  /** The empty glob accepts the empty path only. */
  lemma EmptyGlob(path: string)
    ensures GlobMatch("", path) <==> path == ""
  {
    CompiledGlobIsExact("", path);
  }

  /** A character other than `*` stands for itself. */
  lemma LiteralThen(c: char, g: string, path: string)
    requires c != '*'
    ensures GlobMatch([c] + g, path) <==> path != "" && path[0] == c && GlobMatch(g, path[1..])
  {
    MatchStep([c] + g, path);
    assert ([c] + g)[1..] == g;
    if path != "" {
      assert path[..1] == [path[0]];
    }
  }

  /** A single `*` stands for any run without a slash. */
  lemma StarThen(g: string, path: string)
    requires g == "" || g[0] != '*'
    ensures GlobMatch("*" + g, path)
       <==> exists n | 0 <= n <= |path| :: '/' !in path[..n] && GlobMatch(g, path[n..])
  {
    MatchStep("*" + g, path);
    assert ("*" + g)[1..] == g;
    forall n | 0 <= n <= |path|
      ensures NoSlash(path[..n]) <==> '/' !in path[..n]
    {
    }
  }

  lemma UnbrokenIsOneLine(s: string)
    ensures Unbroken(s) <==> OneLine(s)
  {
    forall k | 0 <= k < |s|
      ensures IsLineTerminator(s[k]) <==> s[k] in "\n\r\U{2028}\U{2029}"
    {
    }
  }

  /** `**` that is not followed by a slash stands for any run on one line. */
  lemma DoubleStarThen(g: string, path: string)
    requires g == "" || g[0] != '/'
    ensures GlobMatch("**" + g, path)
       <==> exists n | 0 <= n <= |path| :: Unbroken(path[..n]) && GlobMatch(g, path[n..])
  {
    MatchStep("**" + g, path);
    assert ("**" + g)[2..] == g;
    forall n | 0 <= n <= |path|
      ensures OneLine(path[..n]) <==> Unbroken(path[..n])
    {
      UnbrokenIsOneLine(path[..n]);
    }
  }

  lemma DirsRunEnds(path: string, n: nat)
    requires n <= |path|
    ensures Stands(Dirs, path[..n]) <==> n == 0 || (path[n - 1] == '/' && Unbroken(path[..n - 1]))
  {
    if n > 0 {
      assert path[..n] == path[..n - 1] + [path[n - 1]];
      OneLineAppend(path[..n - 1], path[n - 1]);
      UnbrokenIsOneLine(path[..n - 1]);
    }
  }

  /** Directories that the leading stars skip, up to and with the slash at `k`. */
  predicate SkipsTo(g: string, path: string, k: nat) {
    k < |path| && path[k] == '/' && Unbroken(path[..k]) && GlobMatch(g, path[k + 1..])
  }

  /** `**` and a slash skip any number of directories, or none. */
  lemma DirsThen(g: string, path: string)
    ensures GlobMatch("**/" + g, path) <==> GlobMatch(g, path) || exists k: nat :: SkipsTo(g, path, k)
  {
    MatchStep("**/" + g, path);
    assert ("**/" + g)[3..] == g;
    forall n: nat | n <= |path|
      ensures Stands(Dirs, path[..n]) <==> n == 0 || (path[n - 1] == '/' && Unbroken(path[..n - 1]))
    {
      DirsRunEnds(path, n);
    }
    assert path[0..] == path;
    if GlobMatch("**/" + g, path) {
      var n :| 0 <= n <= |path| && Stands(Dirs, path[..n]) && GlobMatch(g, path[n..]);
      if n > 0 {
        assert SkipsTo(g, path, n - 1);
      }
    }
    if GlobMatch(g, path) {
      assert Stands(Dirs, path[..0]) && GlobMatch(g, path[0..]);
    }
    if k: nat :| SkipsTo(g, path, k) {
      assert Stands(Dirs, path[..k + 1]) && GlobMatch(g, path[k + 1..]);
    }
  }

  lemma {:induction false} LiteralDenotesItself(glob: string, path: string)
    requires '*' !in glob
    ensures Denotes(Tokens(glob), path) <==> path == glob
  {
    if glob == "" {
    } else {
      assert glob == [glob[0]] + glob[1..];
      if path != "" {
        assert path == path[..1] + path[1..] && path[..1] == [path[0]];
        LiteralDenotesItself(glob[1..], path[1..]);
      }
    }
  }

  /** Every metacharacter is escaped: a glob without `*` matches itself and nothing else. */
  lemma StarFreeGlobMatchesOnlyItself(glob: string, path: string)
    requires '*' !in glob
    ensures GlobMatch(glob, path) <==> path == glob
  {
    CompiledGlobIsExact(glob, path);
    LiteralDenotesItself(glob, path);
  }
}
