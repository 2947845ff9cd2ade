/** One comment per head: found by a hidden marker, then updated or created. */
module Publisher {
  import opened Basics
  import opened Text

  /** `<!-- ai-review:{repo}#{pr}@{head_sha} -->`, at its placeholders. */
  const DEFAULT_MARKER := "<!-- ai-review:" + ("{repo}" + ("#" + ("{pr}" + ("@" + ("{head_sha}" + " -->")))))

  /** Comments the listing call returns; later ones are not seen. */
  const PAGE_SIZE := 100

  /** What a replacement text stands for, after section 22.1.3.19.1 of ECMA-262, without captures. */
  function Substituted(value: string, before: string, matched: string, after: string): string {
    if value == "" then ""
    else if |value| == 1 || value[0] != '$' then [value[0]] + Substituted(value[1..], before, matched, after)
    else if value[1] == '$' then "$" + Substituted(value[2..], before, matched, after)
    else if value[1] == '&' then matched + Substituted(value[2..], before, matched, after)
    else if value[1] == '`' then before + Substituted(value[2..], before, matched, after)
    else if value[1] == '\'' then after + Substituted(value[2..], before, matched, after)
    else [value[0]] + Substituted(value[1..], before, matched, after)
  }

  /** `replaceAll` on what is left of a text whose beginning has been `read`. */
  function Replaced(read: string, s: string, pattern: string, value: string): string
    requires pattern != ""
    decreases |s|
  {
    if s == "" then ""
    else if pattern <= s then
      Substituted(value, read, pattern, s[|pattern|..]) + Replaced(read + pattern, s[|pattern|..], pattern, value)
    else [s[0]] + Replaced(read + [s[0]], s[1..], pattern, value)
  }

  function Digit(n: nat): char
    requires n < 10
  {
    "0123456789"[n]
  }

  function Decimal(n: nat): string {
    if n < 10 then [Digit(n)] else Decimal(n / 10) + [Digit(n % 10)]
  }

  function CommentMarker(template: string, repo: string, pr: nat, sha: string): string {
    var named := Replaced("", template, "{repo}", repo);
    var numbered := Replaced("", named, "{pr}", Decimal(pr));
    Replaced("", numbered, "{head_sha}", sha)
  }

  /** A replacement pattern opens here. */
  predicate PatternAt(s: string, k: nat) {
    k + 1 < |s| && s[k] == '$' && s[k + 1] in "$&`'"
  }

  predicate NoPattern(s: string) {
    forall k: nat | k < |s| :: !PatternAt(s, k)
  }

  /** Free of whitespace, `<`, template braces and replacement patterns; a `$` that opens none is no obstacle. */
  predicate Plain(id: string) {
    NoPattern(id) && forall k | 0 <= k < |id| :: id[k] !in " \t\n\r<{}"
  }

  // ---- what a replacement text stands for ---------------------------------------------------------

  lemma {:induction false} NoPatternIsCopied(value: string, before: string, matched: string, after: string)
    requires NoPattern(value)
    ensures Substituted(value, before, matched, after) == value
  {
    if value == "" {
    } else {
      assert forall k: nat :: PatternAt(value[1..], k) ==> PatternAt(value, k + 1);
      assert !PatternAt(value, 0);
      NoPatternIsCopied(value[1..], before, matched, after);
      assert value == [value[0]] + value[1..];
    }
  }

  function Dollars(n: nat): (s: string)
    ensures |s| == n && forall k | 0 <= k < n :: s[k] == '$'
  {
    seq(n, _ => '$')
  }

  /** `x` leaves `y` at `i`, where `y` has a dollar. */
  predicate Leaves(x: string, y: string, i: nat) {
    i < |x| && i < |y| && x[..i] == y[..i] && y[i] == '$' && x[i] != '$'
  }

  /** A brace at `i` opens `m`. */
  predicate Opens(x: string, i: nat, m: string) {
    i < |x| && x[i] == '{' ==> m <= x[i..]
  }

  lemma LeavesLater(c: char, x: string, y: string, i: nat, m: string)
    requires Leaves(x, y, i)
    ensures Leaves([c] + x, [c] + y, i + 1) && (Opens(x, i, m) ==> Opens([c] + x, i + 1, m))
  {
    assert ([c] + x)[..i + 1] == [c] + x[..i] && ([c] + y)[..i + 1] == [c] + y[..i];
    assert ([c] + x)[i + 1..] == x[i..];
  }

  /** Begins with neither a dollar nor a brace. */
  predicate StartsPlainly(s: string) {
    s != "" && s[0] !in "${"
  }

  /** A pattern other than two dollars expands to a text that begins with none. */
  lemma PatternExpands(value: string, before: string, m: string, after: string)
    requires PatternAt(value, 0) && value[1] != '$'
    requires StartsPlainly(before) && StartsPlainly(after) && m != "" && m[0] == '{'
    ensures var x := Substituted(value, before, m, after); x != "" && x[0] != '$' && Opens(x, 0, m)
  {
    var rest := Substituted(value[2..], before, m, after);
    var stand := if value[1] == '&' then m else if value[1] == '`' then before else after;
    assert Substituted(value, before, m, after) == stand + rest;
  }

  /** Behind dollars, a text leaves itself at once if it begins with none, or with what a pattern stands for. */
  lemma LeavesAtOnce(n: nat, value: string, before: string, m: string, after: string, tail: string)
    requires StartsPlainly(before) && StartsPlainly(after) && StartsPlainly(tail) && m != "" && m[0] == '{'
    requires if value == "" || value[0] != '$' then n > 0 else PatternAt(value, 0) && value[1] != '$'
    ensures var x := Substituted(value, before, m, after) + tail;
            Leaves(x, Dollars(n) + value, 0) && ('{' !in value ==> Opens(x, 0, m))
  {
    var expanded := Substituted(value, before, m, after);
    assert (Dollars(n) + value)[0] == '$';
    if PatternAt(value, 0) {
      PatternExpands(value, before, m, after);
      assert expanded <= expanded + tail;
    } else if value != "" {
      assert expanded[0] == value[0];
    }
  }

  /** A doubled dollar loses one, and so leaves itself where the rest, a dollar behind, does. */
  lemma DollarsLag(n: nat, value: string, before: string, m: string, after: string, tail: string, i: nat)
    requires |value| > 1 && value[0] == value[1] == '$'
    requires var x := Substituted(value[2..], before, m, after) + tail;
             Leaves(x, Dollars(n + 1) + value[2..], i) && ('{' !in value ==> Opens(x, i, m))
    ensures var x := Substituted(value, before, m, after) + tail;
            Leaves(x, Dollars(n) + value, i + 1) && ('{' !in value ==> Opens(x, i + 1, m))
  {
    var x, y := Substituted(value[2..], before, m, after) + tail, Dollars(n + 1) + value[2..];
    LeavesLater('$', x, y, i, m);
    assert Substituted(value, before, m, after) + tail == ['$'] + x;
    assert Dollars(n) + value == ['$'] + y;
  }

  /** A character that opens no pattern is copied. */
  lemma Copied(value: string, before: string, m: string, after: string)
    requires value != "" && !PatternAt(value, 0)
    ensures Substituted(value, before, m, after) == [value[0]] + Substituted(value[1..], before, m, after)
  {
  }

  lemma FirstOfSum(s: string, t: string)
    requires s != ""
    ensures s + t == [s[0]] + (s[1..] + t)
  {
  }

  lemma DollarsFirst(n: nat, value: string)
    requires value != "" && (n == 0 || value[0] == '$')
    ensures Dollars(n) + value == [value[0]] + (Dollars(n) + value[1..])
  {
  }

  /** A copied character leaves the text to differ where the rest does. */
  lemma OneCopied(n: nat, value: string, before: string, m: string, after: string, tail: string, i: nat)
    requires value != "" && !PatternAt(value, 0) && (n == 0 || value[0] == '$')
    requires var x := Substituted(value[1..], before, m, after) + tail;
             Leaves(x, Dollars(n) + value[1..], i) && ('{' !in value ==> Opens(x, i, m))
    ensures var x := Substituted(value, before, m, after) + tail;
            Leaves(x, Dollars(n) + value, i + 1) && ('{' !in value ==> Opens(x, i + 1, m))
  {
    Copied(value, before, m, after);
    FirstOfSum(Substituted(value, before, m, after), tail);
    DollarsFirst(n, value);
    LeavesLater(value[0], Substituted(value[1..], before, m, after) + tail, Dollars(n) + value[1..], i, m);
  }

  lemma NoPatternLater(value: string)
    requires value != "" && !PatternAt(value, 0) && NoPattern(value[1..])
    ensures NoPattern(value)
  {
    assert forall k: nat | k > 0 :: PatternAt(value, k) ==> PatternAt(value[1..], k - 1);
  }

  /** A text with a replacement pattern, or behind dollars of its own, never expands to itself. */
  lemma {:induction false} PatternShows(n: nat, value: string, before: string, m: string, after: string, tail: string)
    returns (i: nat)
    requires n > 0 || !NoPattern(value)
    requires StartsPlainly(before) && StartsPlainly(after) && StartsPlainly(tail) && m != "" && m[0] == '{'
    ensures var x := Substituted(value, before, m, after) + tail;
            Leaves(x, Dollars(n) + value, i) && ('{' !in value ==> Opens(x, i, m))
    decreases |value|
  {
    if PatternAt(value, 0) && value[1] == '$' {
      i := PatternShows(n + 1, value[2..], before, m, after, tail);
      DollarsLag(n, value, before, m, after, tail, i);
      i := i + 1;
    } else if value != "" && !PatternAt(value, 0) && (n == 0 || value[0] == '$') {
      if NoPattern(value[1..]) {
        NoPatternLater(value);
      }
      i := PatternShows(n, value[1..], before, m, after, tail);
      OneCopied(n, value, before, m, after, tail, i);
      i := i + 1;
    } else {
      LeavesAtOnce(n, value, before, m, after, tail);
      i := 0;
    }
  }

  // ---- the expanded marker ----------------------------------------------------------------------

  /** Text without a brace is copied as it is. */
  lemma {:induction false} CopiesPlain(read: string, a: string, b: string, pattern: string, value: string)
    requires pattern != "" && pattern[0] == '{' && '{' !in a
    ensures Replaced(read, a + b, pattern, value) == a + Replaced(read + a, b, pattern, value)
    decreases |a|
  {
    if a == "" {
      assert a + b == b && read + a == read;
    } else {
      assert a + b == [a[0]] + (a[1..] + b);
      assert (a + b)[0] != pattern[0];
      CopiesPlain(read + [a[0]], a[1..], b, pattern, value);
      assert a == [a[0]] + a[1..];
      assert read + [a[0]] + a[1..] == read + a;
    }
  }

  predicate IsPlaceholder(p: string) {
    |p| >= 2 && p[0] == '{' && '{' !in p[1..]
  }

  /** The placeholder looked for is replaced. */
  lemma Hit(read: string, before: string, p: string, after: string, value: string)
    requires '{' !in before && IsPlaceholder(p)
    ensures Replaced(read, before + (p + after), p, value)
         == before + (Substituted(value, read + before, p, after) + Replaced(read + before + p, after, p, value))
  {
    CopiesPlain(read, before, p + after, p, value);
    assert (p + after)[|p|..] == after;
  }

  /** Another placeholder is left for its own pass. */
  lemma Miss(read: string, before: string, other: string, after: string, p: string, value: string)
    requires '{' !in before && IsPlaceholder(p) && IsPlaceholder(other) && p[1] != other[1]
    ensures Replaced(read, before + (other + after), p, value)
         == before + (other + Replaced(read + before + other, after, p, value))
  {
    CopiesPlain(read, before, other + after, p, value);
    var s := other + after;
    assert s[1] == other[1] && s[1..] == other[1..] + after;
    CopiesPlain(read + before + [s[0]], other[1..], after, p, value);
    assert other == [other[0]] + other[1..];
    assert read + before + [s[0]] + other[1..] == read + before + other;
  }

  lemma NoneLeft(read: string, s: string, p: string, value: string)
    requires '{' !in s && IsPlaceholder(p)
    ensures Replaced(read, s, p, value) == s
  {
    CopiesPlain(read, s, "", p, value);
    assert s + "" == s;
  }

  lemma DigitIsPlain(n: nat)
    requires n < 10
    ensures '0' <= Digit(n) <= '9'
  {
  }

  lemma {:induction false} DecimalIsDigits(n: nat)
    ensures forall k | 0 <= k < |Decimal(n)| :: '0' <= Decimal(n)[k] <= '9'
  {
    DigitIsPlain(n % 10);
    if n < 10 {
    } else {
      DecimalIsDigits(n / 10);
    }
  }

  /** The number a text of digits stands for. */
  function ValueOf(digits: string): int {
    if digits == "" then 0 else 10 * ValueOf(digits[..|digits| - 1]) + (digits[|digits| - 1] as int - '0' as int)
  }

  lemma DigitValue(n: nat)
    requires n < 10
    ensures Digit(n) as int == '0' as int + n
  {
  }

  /** A number is printed in decimal, so two pull requests never share a marker. */
  lemma {:induction false} DecimalReadsBack(n: nat)
    ensures ValueOf(Decimal(n)) == n
  {
    DigitValue(n % 10);
    if n < 10 {
      assert Decimal(n)[..0] == "";
    } else {
      DecimalReadsBack(n / 10);
      assert Decimal(n)[..|Decimal(n)| - 1] == Decimal(n / 10);
    }
  }

  lemma DecimalIsPlain(n: nat)
    ensures Plain(Decimal(n)) && '{' !in Decimal(n)
  {
    DecimalIsDigits(n);
  }

  lemma PlainHasNoBrace(id: string)
    requires Plain(id)
    ensures '{' !in id && NoPattern(id)
  {
  }

  function Marker(repo: string, pr: nat, sha: string): string {
    "<!-- ai-review:" + (repo + "#" + Decimal(pr) + "@") + sha + " -->"
  }

  /** The first pass, over a template with three placeholders. */
  lemma FirstPass(a: string, p: string, b: string, q: string, c: string, r: string, d: string, x: string)
    requires IsPlaceholder(p) && IsPlaceholder(q) && IsPlaceholder(r) && p[1] != q[1] && p[1] != r[1]
    requires '{' !in a && '{' !in b && '{' !in c && '{' !in d
    ensures Replaced("", a + (p + (b + (q + (c + (r + d))))), p, x)
         == a + (Substituted(x, a, p, b + (q + (c + (r + d)))) + (b + (q + (c + (r + d)))))
  {
    Hit("", a, p, b + (q + (c + (r + d))), x);
    assert "" + a == a;
    Miss(a + p, b, q, c + (r + d), p, x);
    Miss(a + p + b + q, c, r, d, p, x);
    NoneLeft(a + p + b + q + c + r, d, p, x);
  }

  /** The pass for a placeholder with a plain value, when one other placeholder follows. */
  lemma MiddlePass(a: string, q: string, c: string, r: string, d: string, y: string)
    requires IsPlaceholder(q) && IsPlaceholder(r) && q[1] != r[1]
    requires '{' !in a && '{' !in c && '{' !in d && NoPattern(y)
    ensures Replaced("", a + (q + (c + (r + d))), q, y) == a + (y + (c + (r + d)))
  {
    Hit("", a, q, c + (r + d), y);
    assert "" + a == a;
    NoPatternIsCopied(y, a, q, c + (r + d));
    Miss(a + q, c, r, d, q, y);
    NoneLeft(a + q + c + r, d, q, y);
  }

  lemma LastPass(a: string, r: string, d: string, z: string)
    requires IsPlaceholder(r) && '{' !in a && '{' !in d
    ensures Replaced("", a + (r + d), r, z) == a + (Substituted(z, a, r, d) + d)
  {
    Hit("", a, r, d, z);
    assert "" + a == a;
    NoneLeft(a + r, d, r, z);
  }

  /** Two plain placeholders replaced one pass each; the third stands for what its text expands to. */
  lemma ThreePasses(
    a: string, p: string, b: string, q: string, c: string, r: string, d: string, x: string, y: string, z: string
  )
    requires IsPlaceholder(p) && IsPlaceholder(q) && IsPlaceholder(r)
    requires p[1] != q[1] && p[1] != r[1] && q[1] != r[1]
    requires '{' !in a && '{' !in b && '{' !in c && '{' !in d && '{' !in x && '{' !in y
    requires NoPattern(x) && NoPattern(y)
    ensures Replaced("", Replaced("", Replaced("", a + (p + (b + (q + (c + (r + d))))), p, x), q, y), r, z)
         == a + x + b + y + c + (Substituted(z, a + x + b + y + c, r, d) + d)
  {
    var tail := b + (q + (c + (r + d)));
    FirstPass(a, p, b, q, c, r, d, x);
    NoPatternIsCopied(x, a, p, tail);
    assert a + (x + tail) == (a + x + b) + (q + (c + (r + d)));
    MiddlePass(a + x + b, q, c, r, d, y);
    assert (a + x + b) + (y + (c + (r + d))) == (a + x + b + y + c) + (r + d);
    LastPass(a + x + b + y + c, r, d, z);
  }

  /** `text` goes along with `c` and then has no dollar, and no brace but one that opens `m`. */
  predicate Strays(text: string, c: string, m: string) {
    c <= text && |c| < |text| && text[|c|] != '$' && (text[|c|] == '{' ==> m <= text[|c|..])
  }

  /** The pass for another placeholder than `m` changes nothing there. */
  lemma PassStrays(text: string, c: string, m: string, p: string, value: string)
    requires Strays(text, c, m) && '{' !in c && IsPlaceholder(m) && IsPlaceholder(p) && m[1] != p[1]
    ensures Strays(Replaced("", text, p, value), c, m)
  {
    var x := text[|c|..];
    assert text == c + x;
    CopiesPlain("", c, x, p, value);
    var y := Replaced("" + c, x, p, value);
    if x[0] == '{' {
      assert x == "" + (m + x[|m|..]);
      Miss("" + c, "", m, x[|m|..], p, value);
      assert m <= y;
    }
    assert y[0] == x[0];
    assert (c + y)[|c|..] == y;
  }

  /** A pattern in the first value shows in the text all three passes leave. */
  lemma FirstValueShows(
    a: string, p: string, b: string, q: string, c: string, r: string, d: string, x: string, y: string, z: string,
    rest: string
  )
    requires IsPlaceholder(p) && IsPlaceholder(q) && IsPlaceholder(r)
    requires p[1] != q[1] && p[1] != r[1] && q[1] != r[1]
    requires '{' !in a && '{' !in b && '{' !in c && '{' !in d && '{' !in x
    requires StartsPlainly(a) && StartsPlainly(b) && !NoPattern(x)
    ensures Replaced("", Replaced("", Replaced("", a + (p + (b + (q + (c + (r + d))))), p, x), q, y), r, z)
         != a + (x + rest)
  {
    var tail := b + (q + (c + (r + d)));
    FirstPass(a, p, b, q, c, r, d, x);
    var i := PatternShows(0, x, a, p, tail, tail);
    var named := Substituted(x, a, p, tail) + tail;
    assert Dollars(0) + x == x;
    var common := a + x[..i];
    assert a + named == common + named[i..];
    assert Strays(a + named, common, p) by {
      assert (a + named)[|common|..] == named[i..];
    }
    PassStrays(a + named, common, p, q, y);
    PassStrays(Replaced("", a + named, q, y), common, p, r, z);
    assert (a + (x + rest))[|common|] == x[i] == '$';
  }

  lemma Regroup(a: string, x: string, b: string, y: string, c: string, z: string, d: string)
    ensures a + x + b + y + c + (z + d) == a + (x + b + y + c) + z + d
    ensures a + (x + b + y + c) + z + d == a + (x + (b + y + c + z + d))
  {
  }

  /** A pattern in the last value shows. */
  lemma LastValueShows(before: string, m: string, d: string, z: string)
    requires StartsPlainly(before) && StartsPlainly(d) && m != "" && m[0] == '{'
    ensures before + (Substituted(z, before, m, d) + d) == before + (z + d) <==> NoPattern(z)
  {
    if NoPattern(z) {
      NoPatternIsCopied(z, before, m, d);
    } else {
      var i := PatternShows(0, z, before, m, d, d);
      var x, y := before + (Substituted(z, before, m, d) + d), before + (z + d);
      assert Dollars(0) + z == z;
      assert x[|before| + i] == (Substituted(z, before, m, d) + d)[i] && y[|before| + i] == z[i];
    }
  }

  /**
    The three replacements replace each placeholder once and nothing else if and only if neither
    value holds one of the patterns that replacing reads in it.
   */
  lemma MarkerExpands(repo: string, pr: nat, sha: string)
    requires '{' !in repo
    ensures CommentMarker(DEFAULT_MARKER, repo, pr, sha) == Marker(repo, pr, sha)
       <==> NoPattern(repo) && NoPattern(sha)
  {
    var a, b, c, d, y := "<!-- ai-review:", "#", "@", " -->", Decimal(pr);
    Regroup(a, repo, b, y, c, sha, d);
    DecimalIsPlain(pr);
    if !NoPattern(repo) {
      FirstValueShows(a, "{repo}", b, "{pr}", c, "{head_sha}", d, repo, y, sha, b + y + c + sha + d);
    } else {
      ThreePasses(a, "{repo}", b, "{pr}", c, "{head_sha}", d, repo, y, sha);
      LastValueShows(a + repo + b + y + c, "{head_sha}", d, sha);
    }
  }

  lemma {:induction false} CopiesUpToDollar(head: string, rest: string, before: string, matched: string, after: string)
    requires '$' !in head
    ensures Substituted(head + rest, before, matched, after) == head + Substituted(rest, before, matched, after)
  {
    if head == "" {
      assert head + rest == rest;
    } else {
      assert (head + rest)[1..] == head[1..] + rest;
      CopiesUpToDollar(head[1..], rest, before, matched, after);
      assert head == [head[0]] + head[1..];
    }
  }

  lemma {:induction false} SameSubstitutesReplaceAlike(
    read: string, s: string, pattern: string, value: string, other: string
  )
    requires pattern != ""
    requires forall before, after ::
               Substituted(value, before, pattern, after) == Substituted(other, before, pattern, after)
    ensures Replaced(read, s, pattern, value) == Replaced(read, s, pattern, other)
    decreases |s|
  {
    if s == "" {
    } else if pattern <= s {
      SameSubstitutesReplaceAlike(read + pattern, s[|pattern|..], pattern, value, other);
    } else {
      SameSubstitutesReplaceAlike(read + [s[0]], s[1..], pattern, value, other);
    }
  }

  /** Two different heads can expand to one marker: the last dollar of one is read as the other's. */
  lemma DollarsCollide(template: string, repo: string, pr: nat, head: string)
    requires '$' !in head
    ensures CommentMarker(template, repo, pr, head + "$$") == CommentMarker(template, repo, pr, head + "$")
  {
    forall before, after
      ensures Substituted(head + "$$", before, "{head_sha}", after)
           == Substituted(head + "$", before, "{head_sha}", after)
    {
      CopiesUpToDollar(head, "$$", before, "{head_sha}", after);
      CopiesUpToDollar(head, "$", before, "{head_sha}", after);
      assert "$$"[2..] == "" && "$"[1..] == "";
    }
    var numbered := Replaced("", Replaced("", template, "{repo}", repo), "{pr}", Decimal(pr));
    SameSubstitutesReplaceAlike("", numbered, "{head_sha}", head + "$$", head + "$");
  }

  // ---- one head's marker in another's comment --------------------------------------------------------

  function FinalBody(body: string, marker: string): string {
    if Contains(body, marker) then body else body + "\n\n" + marker
  }

  /** The shape every marker of one pull request has: `middle` differs by head only. */
  function Wrapped(middle: string): string {
    "<!-- ai-review:" + middle + " -->"
  }

  predicate Quiet(middle: string) {
    forall k | 0 <= k < |middle| :: middle[k] !in " \t\n\r<"
  }

  /** A marker opens with the only `<` it has, and has no line break. */
  lemma WrappedShape(middle: string)
    requires Quiet(middle)
    ensures var m := Wrapped(middle);
            && |m| == |middle| + 19 && m[0] == '<'
            && (forall k | 0 < k < |m| :: m[k] != '<')
            && (forall k | 0 <= k < |m| :: m[k] != '\n')
            && m[15..|m| - 4] == middle && m[|m| - 4] == ' ' && (forall k | 15 <= k < |m| - 4 :: m[k] != ' ')
  {
    var m := Wrapped(middle);
    assert m[15..|m| - 4] == middle;
    assert forall k | 15 <= k < |m| - 4 :: m[k] == middle[k - 15];
  }

  lemma WrappedPrefix(a: string, b: string)
    requires Quiet(a) && Quiet(b) && |Wrapped(a)| <= |Wrapped(b)|
    requires Wrapped(b)[..|Wrapped(a)|] == Wrapped(a)
    ensures a == b
  {
    WrappedShape(a);
    WrappedShape(b);
    var m, n := Wrapped(a), Wrapped(b);
    assert n[|m| - 4] == m[|m| - 4] == ' ';
    assert !(|m| < |n|);
    assert m == n;
  }

  /** A text that opens with `<` and has no line break occurs before the break, or opens what follows it. */
  lemma OccursBeforeOrOpens(body: string, m: string, n: string)
    requires m != "" && m[0] == '<' && '\n' !in m && forall k | 0 < k < |n| :: n[k] != '<'
    requires Contains(body + "\n\n" + n, m)
    ensures Contains(body, m) || m <= n
  {
    var s := body + "\n\n" + n;
    var k: nat :| k <= |s| && OccursAt(s, m, k);
    OccurrenceAvoids(s, m, k, |body|);
    OccurrenceAvoids(s, m, k, |body| + 1);
    if k + |m| <= |body| {
      assert s[k..k + |m|] == body[k..k + |m|];
      assert OccursAt(body, m, k);
    } else {
      SharedCharacter(s, m, k, k);
      assert n[k - |body| - 2] == '<';
      assert n[..|m|] == s[k..k + |m|];
    }
  }

  /** An occurrence of one marker in a body finished with another lies within one of the two. */
  lemma OccurrenceSides(body: string, a: string, b: string)
    requires Quiet(a) && Quiet(b) && Contains(body + "\n\n" + Wrapped(b), Wrapped(a))
    ensures Contains(body, Wrapped(a)) || a == b
  {
    WrappedShape(a);
    WrappedShape(b);
    OccursBeforeOrOpens(body, Wrapped(a), Wrapped(b));
    if !Contains(body, Wrapped(a)) {
      WrappedPrefix(a, b);
    }
  }

  function Middle(repo: string, pr: nat, sha: string): string {
    (repo + "#" + Decimal(pr) + "@") + sha
  }

  lemma MiddleIsQuiet(repo: string, pr: nat, sha: string)
    requires Plain(repo) && Plain(sha)
    ensures Quiet(Middle(repo, pr, sha)) && Wrapped(Middle(repo, pr, sha)) == Marker(repo, pr, sha)
  {
    DecimalIsPlain(pr);
    var prefix := repo + "#" + Decimal(pr) + "@";
    assert Quiet(repo) && Quiet(Decimal(pr)) && Quiet(sha) && Quiet("#") && Quiet("@");
    assert Quiet(repo + "#");
    assert Quiet(repo + "#" + Decimal(pr));
    assert Quiet(prefix);
    assert Wrapped(prefix + sha) == "<!-- ai-review:" + prefix + sha + " -->";
  }

  /** One head's marker occurs in another head's finished comment only if the heads are equal. */
  lemma MarkerNamesItsHead(repo: string, pr: nat, head: string, other: string, body: string)
    requires Plain(repo) && Plain(head) && Plain(other)
    requires other != head ==> !Contains(body, Marker(repo, pr, other))
    ensures Contains(FinalBody(body, Marker(repo, pr, head)), Marker(repo, pr, other)) <==> other == head
  {
    MiddleIsQuiet(repo, pr, head);
    MiddleIsQuiet(repo, pr, other);
    var m := Marker(repo, pr, head);
    var final := FinalBody(body, m);
    var prefix := repo + "#" + Decimal(pr) + "@";
    assert (prefix + other)[|prefix|..] == other && (prefix + head)[|prefix|..] == head;
    if other == head {
      if final != body {
        assert OccursAt(final, m, |body| + 2);
      }
    } else if Contains(final, Marker(repo, pr, other)) {
      OccurrenceSides(body, Middle(repo, pr, other), Middle(repo, pr, head));
      assert false;
    }
  }

  // ---- upserting ---------------------------------------------------------------------------------------

  datatype Comment = Comment(id: nat, body: string)

  predicate Carries(comments: seq<Comment>, i: nat, marker: string) {
    i < |comments| && Contains(comments[i].body, marker)
  }

  predicate AtMostOne(comments: seq<Comment>, marker: string) {
    forall i, j | 0 <= i < j < |comments| :: !(Carries(comments, i, marker) && Carries(comments, j, marker))
  }

  /** The first listed comment carrying the marker. */
  predicate IsMine(comments: seq<Comment>, marker: string, mine: Option<nat>) {
    match mine
    case None => forall k | 0 <= k < |comments| && k < PAGE_SIZE :: !Carries(comments, k, marker)
    case Some(i) => i < |comments| && i < PAGE_SIZE && Carries(comments, i, marker) && forall k | 0 <= k < i ::
        !Carries(comments, k, marker)
  }

  function Upserted(comments: seq<Comment>, mine: Option<nat>, id: nat, body: string): seq<Comment>
    requires mine.Some? ==> mine.value < |comments|
  {
    match mine
    case Some(i) => comments[i := Comment(comments[i].id, body)]
    case None => comments + [Comment(id, body)]
  }

  /** What is posted begins with the body and carries the marker. */
  lemma FinalBodyCarries(body: string, marker: string)
    ensures body <= FinalBody(body, marker) && Contains(FinalBody(body, marker), marker)
    ensures Contains(body, marker) ==> FinalBody(body, marker) == body
  {
    if !Contains(body, marker) {
      assert OccursAt(FinalBody(body, marker), marker, |body| + 2);
    }
  }

  class Conversation {
    var comments: seq<Comment>
    var nextId: nat
    const markerTemplate: string

    constructor (markerTemplate: Option<string>)
      ensures comments == []
      ensures this.markerTemplate == if markerTemplate.Some? then markerTemplate.value else DEFAULT_MARKER
    {
      comments, nextId := [], 0;
      this.markerTemplate := if markerTemplate.Some? then markerTemplate.value else DEFAULT_MARKER;
    }

    /** Find our comment by its marker and edit it, or create one. */
    method UpsertReviewComment(
      repo: string, pr: nat, sha: string, body: string
    ) returns (id: nat, ghost mine: Option<nat>)
      modifies this
      ensures var marker := CommentMarker(markerTemplate, repo, pr, sha);
              && IsMine(old(comments), marker, mine)
              && comments == Upserted(old(comments), mine, old(nextId), FinalBody(body, marker))
              && id == if mine.Some? then comments[mine.value].id else old(nextId)
      ensures var marker, k := CommentMarker(markerTemplate, repo, pr, sha),
                  if mine.Some? then mine.value else |old(comments)|;
              && k < |comments| && body <= comments[k].body && Contains(comments[k].body, marker)
              && (Contains(body, marker) ==> comments[k].body == body)
              && (forall i | 0 <= i < |old(comments)| && i != k :: comments[i] == old(comments)[i])
              && |comments| == if mine.Some? then |old(comments)| else |old(comments)| + 1
    {
      FinalBodyCarries(body, CommentMarker(markerTemplate, repo, pr, sha));
      var marker := CommentMarker(markerTemplate, repo, pr, sha);
      var finalBody := if Contains(body, marker) then body else body + "\n\n" + marker;
      var listed := comments[..Min(PAGE_SIZE, |comments|)];
      for i := 0 to |listed|
        invariant forall k | 0 <= k < i :: !Carries(comments, k, marker)
      {
        if Contains(listed[i].body, marker) {
          mine := Some(i);
          id := comments[i].id;
          comments := comments[i := Comment(id, finalBody)];
          return;
        }
      }
      mine := None;
      id := nextId;
      comments := comments + [Comment(id, finalBody)];
      nextId := nextId + 1;
    }
  }

  /** The body was written for `head`: it carries no other head's marker. */
  ghost predicate WrittenFor(repo: string, pr: nat, head: string, body: string) {
    forall other | Plain(other) && other != head :: !Contains(body, Marker(repo, pr, other))
  }

  ghost predicate OnePerHead(repo: string, pr: nat, comments: seq<Comment>) {
    forall head | Plain(head) :: AtMostOne(comments, Marker(repo, pr, head))
  }

  /** No comment beyond the listed page carries the marker. */
  ghost predicate MarkerListed(comments: seq<Comment>, marker: string) {
    forall i: nat | Carries(comments, i, marker) :: i < PAGE_SIZE
  }

  /** Writing one comment keeps at most one carrier if it carries nothing or nobody else did. */
  lemma WritingKeepsOne(before: seq<Comment>, after: seq<Comment>, written: nat, marker: string)
    requires written <= |before| && |after| == Max(|before|, written + 1) && AtMostOne(before, marker)
    requires forall k | 0 <= k < |before| && k != written :: after[k] == before[k]
    requires Carries(after, written, marker) ==>
              forall k | 0 <= k < |before| && k != written :: !Carries(before, k, marker)
    ensures AtMostOne(after, marker)
  {
    forall i, j | 0 <= i < j < |after|
      ensures !(Carries(after, i, marker) && Carries(after, j, marker))
    {
      if i != written && j != written {
        assert !(Carries(before, i, marker) && Carries(before, j, marker));
      } else {
        var k := if i == written then j else i;
        assert Carries(after, k, marker) <==> Carries(before, k, marker);
      }
    }
  }

  /**
    An upsert keeps one comment per head exactly when this head's comment, if there is one, is
    on the listed page; beyond it a second comment is created.
   */
  lemma UpsertKeepsOneExactly(
    repo: string, pr: nat, head: string, body: string, comments: seq<Comment>, mine: Option<nat>, id: nat
  )
    requires Plain(repo) && Plain(head) && WrittenFor(repo, pr, head, body) && OnePerHead(repo, pr, comments)
    requires IsMine(comments, Marker(repo, pr, head), mine)
    ensures OnePerHead(repo, pr, Upserted(comments, mine, id, FinalBody(body, Marker(repo, pr, head))))
       <==> MarkerListed(comments, Marker(repo, pr, head))
  {
    var marker := Marker(repo, pr, head);
    var after := Upserted(comments, mine, id, FinalBody(body, marker));
    MarkerNamesItsHead(repo, pr, head, head, body);
    if MarkerListed(comments, marker) {
      forall other | Plain(other)
        ensures AtMostOne(after, Marker(repo, pr, other))
      {
        MarkerNamesItsHead(repo, pr, head, other, body);
        assert AtMostOne(comments, Marker(repo, pr, other));
        WritingKeepsOne(comments, after, if mine.Some? then mine.value else |comments|, Marker(repo, pr, other));
      }
    } else {
      var i: nat :| Carries(comments, i, marker) && i >= PAGE_SIZE;
      assert AtMostOne(comments, marker);
      if mine.None? {
        assert Carries(after, i, marker) && Carries(after, |comments|, marker);
      }
      assert !AtMostOne(after, marker);
    }
  }

  /** What happens to a conversation: our upserts, retries included, and other people's comments. */
  datatype Step = Upsert(head: string, body: string) | Remark(body: string)

  ghost predicate StepsTo(repo: string, pr: nat, before: seq<Comment>, step: Step, after: seq<Comment>) {
    match step
    case Upsert(head, body) =>
      var marker := CommentMarker(DEFAULT_MARKER, repo, pr, head);
      && Plain(head) && WrittenFor(repo, pr, head, body)
      && exists mine, id | IsMine(before, marker, mine) :: after == Upserted(before, mine, id, FinalBody(body, marker))
    case Remark(body) =>
      && (forall head | Plain(head) :: !Contains(body, Marker(repo, pr, head)))
      && exists id :: after == before + [Comment(id, body)]
  }

  ghost predicate IsRun(repo: string, pr: nat, states: seq<seq<Comment>>, steps: seq<Step>) {
    && |states| == |steps| + 1 && states[0] == []
    && forall i | 0 <= i < |steps| :: StepsTo(repo, pr, states[i], steps[i], states[i + 1])
  }

  /** An upsert keeps one comment per head exactly when its marker is listed; anything else always does. */
  lemma StepKeepsOneExactly(repo: string, pr: nat, before: seq<Comment>, step: Step, after: seq<Comment>)
    requires Plain(repo) && StepsTo(repo, pr, before, step, after) && OnePerHead(repo, pr, before)
    ensures OnePerHead(repo, pr, after) <==> step.Remark? || MarkerListed(before, Marker(repo, pr, step.head))
  {
    match step
    case Upsert(head, body) =>
      PlainHasNoBrace(repo);
      PlainHasNoBrace(head);
      MarkerExpands(repo, pr, head);
      var mine, id :| IsMine(before, Marker(repo, pr, head), mine)
                      && after == Upserted(before, mine, id, FinalBody(body, Marker(repo, pr, head)));
      UpsertKeepsOneExactly(repo, pr, head, body, before, mine, id);
    case Remark(body) =>
      forall head | Plain(head)
        ensures AtMostOne(after, Marker(repo, pr, head))
      {
        assert AtMostOne(before, Marker(repo, pr, head));
        WritingKeepsOne(before, after, |before|, Marker(repo, pr, head));
      }
  }

  /** Each of the first `n` upserts finds its head's comment, if there is one, on the listed page. */
  ghost predicate AllListed(repo: string, pr: nat, states: seq<seq<Comment>>, steps: seq<Step>, n: nat)
    requires n <= |steps| < |states|
  {
    forall i | 0 <= i < n && steps[i].Upsert? :: MarkerListed(states[i], Marker(repo, pr, steps[i].head))
  }

  ghost predicate AlwaysOnePerHead(repo: string, pr: nat, states: seq<seq<Comment>>, n: nat)
    requires n < |states|
  {
    forall i | 0 <= i <= n :: OnePerHead(repo, pr, states[i])
  }

  /**
    Over any run, retries included: each head has at most one comment carrying its marker all
    along if and only if every upsert finds its head's comment on the listed page.
   */
  lemma {:induction false} OneCommentPerHead(repo: string, pr: nat, states: seq<seq<Comment>>, steps: seq<Step>, n: nat)
    requires Plain(repo) && IsRun(repo, pr, states, steps) && n <= |steps|
    ensures AlwaysOnePerHead(repo, pr, states, n) <==> AllListed(repo, pr, states, steps, n)
  {
    if n == 0 {
    } else {
      OneCommentPerHead(repo, pr, states, steps, n - 1);
      if OnePerHead(repo, pr, states[n - 1]) {
        StepKeepsOneExactly(repo, pr, states[n - 1], steps[n - 1], states[n]);
      }
    }
  }

  // ---- when a head's comment stays on the listed page -------------------------------------------------------

  predicate UpsertOf(steps: seq<Step>, i: nat, head: string) {
    i < |steps| && steps[i].Upsert? && steps[i].head == head
  }

  predicate FirstUpsert(steps: seq<Step>, i: nat, head: string) {
    UpsertOf(steps, i, head) && forall k | 0 <= k < i :: !UpsertOf(steps, k, head)
  }

  lemma {:induction false} EarlierFirst(steps: seq<Step>, j: nat, head: string) returns (i: nat)
    requires UpsertOf(steps, j, head)
    ensures i <= j && FirstUpsert(steps, i, head)
  {
    if k: nat :| k < j && UpsertOf(steps, k, head) {
      i := EarlierFirst(steps, k, head);
    } else {
      i := j;
    }
  }

  /** No comment carries the markers of two heads, nor one of a head not yet upserted. */
  ghost predicate OwnMarkersOnly(repo: string, pr: nat, comments: seq<Comment>, steps: seq<Step>, n: nat) {
    forall k, head | Plain(head) && Carries(comments, k, Marker(repo, pr, head)) ::
      && (exists i | 0 <= i < n :: UpsertOf(steps, i, head))
      && forall other | Plain(other) && Carries(comments, k, Marker(repo, pr, other)) :: other == head
  }

  /** Which comment a step writes, and whose marker it then carries. */
  ghost predicate Writes(repo: string, pr: nat, before: seq<Comment>, step: Step, after: seq<Comment>, written: nat) {
    && written <= |before| && |after| == Max(|before|, written + 1)
    && (forall k | 0 <= k < |before| && k != written :: after[k] == before[k])
    && (forall head | Plain(head) :: Carries(after, written, Marker(repo, pr, head)) <==>
        step.Upsert? && head == step.head)
    && (written < |before| ==>
        step.Upsert? && Plain(step.head) && Carries(before, written, Marker(repo, pr, step.head)))
  }

  lemma StepWrites(repo: string, pr: nat, before: seq<Comment>, step: Step, after: seq<Comment>) returns (written: nat)
    requires Plain(repo) && StepsTo(repo, pr, before, step, after)
    ensures Writes(repo, pr, before, step, after, written)
  {
    written := |before|;
    if step.Upsert? {
      var head, body := step.head, step.body;
      PlainHasNoBrace(repo);
      PlainHasNoBrace(head);
      MarkerExpands(repo, pr, head);
      var mine: Option<nat>, id :| IsMine(before, Marker(repo, pr, head), mine)
                                   && after == Upserted(before, mine, id, FinalBody(body, Marker(repo, pr, head)));
      if mine.Some? {
        written := mine.value;
      }
      forall other | Plain(other)
        ensures Carries(after, written, Marker(repo, pr, other)) <==> other == head
      {
        MarkerNamesItsHead(repo, pr, head, other, body);
      }
    }
  }

  /** A step's comment carries at most the marker of its own head, and every marker stays where it is. */
  lemma StepKeepsMarkers(
    repo: string, pr: nat, before: seq<Comment>, steps: seq<Step>, n: nat, after: seq<Comment>, written: nat
  )
    requires n < |steps| && Writes(repo, pr, before, steps[n], after, written)
    requires OwnMarkersOnly(repo, pr, before, steps, n)
    ensures OwnMarkersOnly(repo, pr, after, steps, n + 1)
  {
    forall k, head | Plain(head) && Carries(after, k, Marker(repo, pr, head))
      ensures exists i | 0 <= i < n + 1 :: UpsertOf(steps, i, head)
      ensures forall other | Plain(other) && Carries(after, k, Marker(repo, pr, other)) :: other == head
    {
      if k == written {
        assert UpsertOf(steps, n, head);
      } else {
        assert Carries(before, k, Marker(repo, pr, head));
        var i :| 0 <= i < n && UpsertOf(steps, i, head);
        forall other | Plain(other) && Carries(after, k, Marker(repo, pr, other))
          ensures other == head
        {
          assert Carries(before, k, Marker(repo, pr, other));
        }
      }
    }
  }

  lemma MarkerStays(
    repo: string, pr: nat, before: seq<Comment>, steps: seq<Step>, n: nat, after: seq<Comment>, written: nat, k: nat,
    head: string
  )
    requires n < |steps| && Writes(repo, pr, before, steps[n], after, written)
    requires OwnMarkersOnly(repo, pr, before, steps, n)
    requires Plain(head) && Carries(before, k, Marker(repo, pr, head))
    ensures Carries(after, k, Marker(repo, pr, head))
  {
  }

  lemma {:induction false} MarkersOfRun(repo: string, pr: nat, states: seq<seq<Comment>>, steps: seq<Step>, n: nat)
    requires Plain(repo) && IsRun(repo, pr, states, steps) && n <= |steps|
    ensures OwnMarkersOnly(repo, pr, states[n], steps, n)
  {
    if n == 0 {
    } else {
      MarkersOfRun(repo, pr, states, steps, n - 1);
      var written := StepWrites(repo, pr, states[n - 1], steps[n - 1], states[n]);
      StepKeepsMarkers(repo, pr, states[n - 1], steps, n - 1, states[n], written);
    }
  }

  lemma FirstUpsertAppends(
    repo: string, pr: nat, before: seq<Comment>, steps: seq<Step>, i: nat, head: string, after: seq<Comment>,
    written: nat
  )
    requires FirstUpsert(steps, i, head) && Plain(head)
    requires OwnMarkersOnly(repo, pr, before, steps, i) && Writes(repo, pr, before, steps[i], after, written)
    ensures Carries(after, |before|, Marker(repo, pr, head))
  {
    assert written == |before|;
  }

  /** From its first upsert on, a head's comment stays where that upsert put it. */
  lemma {:induction false} CommentStays(
    repo: string, pr: nat, states: seq<seq<Comment>>, steps: seq<Step>, i: nat, head: string, n: nat
  )
    requires Plain(repo) && Plain(head) && IsRun(repo, pr, states, steps) && i < n <= |steps|
    requires FirstUpsert(steps, i, head)
    ensures Carries(states[n], |states[i]|, Marker(repo, pr, head))
  {
    var m := n - 1;
    MarkersOfRun(repo, pr, states, steps, m);
    var written := StepWrites(repo, pr, states[m], steps[m], states[n]);
    if m == i {
      FirstUpsertAppends(repo, pr, states[m], steps, m, head, states[n], written);
    } else {
      CommentStays(repo, pr, states, steps, i, head, m);
      MarkerStays(repo, pr, states[m], steps, m, states[n], written, |states[i]|, head);
    }
  }

  /** Every head upserted again was first upserted into fewer comments than a page lists. */
  ghost predicate RepeatedHeadsAreEarly(states: seq<seq<Comment>>, steps: seq<Step>, n: nat)
    requires n <= |steps| < |states|
  {
    forall i, j, head | 0 <= i < j < n && FirstUpsert(steps, i, head) && UpsertOf(steps, j, head) ::
        |states[i]| < PAGE_SIZE
  }

  /** With one comment per head so far, an upsert finds its marker listed exactly when the first upsert was early. */
  lemma ListedExactly(repo: string, pr: nat, states: seq<seq<Comment>>, steps: seq<Step>, i: nat, j: nat, head: string)
    requires Plain(repo) && IsRun(repo, pr, states, steps) && i <= j < |steps|
    requires FirstUpsert(steps, i, head) && UpsertOf(steps, j, head) && OnePerHead(repo, pr, states[j])
    ensures MarkerListed(states[j], Marker(repo, pr, head)) <==> i == j || |states[i]| < PAGE_SIZE
  {
    var marker := Marker(repo, pr, head);
    assert StepsTo(repo, pr, states[j], steps[j], states[j + 1]);
    if i == j {
      MarkersOfRun(repo, pr, states, steps, j);
    } else {
      CommentStays(repo, pr, states, steps, i, head, j);
      assert AtMostOne(states[j], marker);
      assert forall k: nat | Carries(states[j], k, marker) :: k == |states[i]|;
    }
  }

  lemma OneMoreRepeat(states: seq<seq<Comment>>, steps: seq<Step>, n: nat, i: nat, head: string)
    requires n < |steps| < |states| && i <= n && FirstUpsert(steps, i, head) && UpsertOf(steps, n, head)
    ensures RepeatedHeadsAreEarly(states, steps, n + 1)
       <==> RepeatedHeadsAreEarly(states, steps, n) && (i == n || |states[i]| < PAGE_SIZE)
  {
  }

  lemma OneMoreRemark(states: seq<seq<Comment>>, steps: seq<Step>, n: nat)
    requires n < |steps| < |states| && steps[n].Remark?
    ensures RepeatedHeadsAreEarly(states, steps, n + 1) <==> RepeatedHeadsAreEarly(states, steps, n)
  {
  }

  lemma OneMoreListed(repo: string, pr: nat, states: seq<seq<Comment>>, steps: seq<Step>, n: nat)
    requires n < |steps| < |states|
    ensures AllListed(repo, pr, states, steps, n + 1)
       <==> && AllListed(repo, pr, states, steps, n)
            && (steps[n].Upsert? ==> MarkerListed(states[n], Marker(repo, pr, steps[n].head)))
  {
  }

  /** An upsert that finds its marker listed is its head's first or comes after an early one. */
  lemma OneMoreUpsert(repo: string, pr: nat, states: seq<seq<Comment>>, steps: seq<Step>, n: nat, head: string)
    requires Plain(repo) && IsRun(repo, pr, states, steps) && UpsertOf(steps, n, head)
    requires AllListed(repo, pr, states, steps, n) <==> RepeatedHeadsAreEarly(states, steps, n)
    ensures AllListed(repo, pr, states, steps, n + 1) <==> RepeatedHeadsAreEarly(states, steps, n + 1)
  {
    var i := EarlierFirst(steps, n, head);
    OneMoreListed(repo, pr, states, steps, n);
    OneMoreRepeat(states, steps, n, i, head);
    if AllListed(repo, pr, states, steps, n) {
      OneCommentPerHead(repo, pr, states, steps, n);
      assert OnePerHead(repo, pr, states[n]);
      ListedExactly(repo, pr, states, steps, i, n, head);
    }
  }

  lemma {:induction false} ListedWhenEarly(repo: string, pr: nat, states: seq<seq<Comment>>, steps: seq<Step>, n: nat)
    requires Plain(repo) && IsRun(repo, pr, states, steps) && n <= |steps|
    ensures AllListed(repo, pr, states, steps, n) <==> RepeatedHeadsAreEarly(states, steps, n)
  {
    if n == 0 {
    } else {
      ListedWhenEarly(repo, pr, states, steps, n - 1);
      if steps[n - 1].Upsert? {
        OneMoreUpsert(repo, pr, states, steps, n - 1, steps[n - 1].head);
      } else {
        OneMoreRemark(states, steps, n - 1);
        OneMoreListed(repo, pr, states, steps, n - 1);
      }
    }
  }

  /**
    What a caller can check: a run keeps one comment per head all along if and only if every
    head upserted more than once was first upserted into fewer comments than a page lists.
   */
  lemma OneCommentPerEarlyHead(repo: string, pr: nat, states: seq<seq<Comment>>, steps: seq<Step>, n: nat)
    requires Plain(repo) && IsRun(repo, pr, states, steps) && n <= |steps|
    ensures AlwaysOnePerHead(repo, pr, states, n) <==> RepeatedHeadsAreEarly(states, steps, n)
  {
    OneCommentPerHead(repo, pr, states, steps, n);
    ListedWhenEarly(repo, pr, states, steps, n);
  }

  // ---- a conversation longer than a page ----------------------------------------------------------------------

  /** `n` empty remarks. */
  function Blank(n: nat): (comments: seq<Comment>)
    ensures |comments| == n && forall k | 0 <= k < n :: comments[k].body == ""
  {
    if n == 0 then [] else Blank(n - 1) + [Comment(n, "")]
  }

  lemma BlankCarriesNothing(repo: string, pr: nat, head: string)
    requires Plain(repo) && Plain(head)
    ensures !Contains("", Marker(repo, pr, head))
  {
    MiddleIsQuiet(repo, pr, head);
    WrappedShape(Middle(repo, pr, head));
  }

  /** A step that adds a comment and finds none of its head's on the page. */
  lemma Appends(repo: string, pr: nat, before: seq<Comment>, head: string)
    requires Plain(repo) && Plain(head) && IsMine(before, Marker(repo, pr, head), None)
    ensures StepsTo(repo, pr, before, Upsert(head, ""), before + [Comment(0, FinalBody("", Marker(repo, pr, head)))])
  {
    var after := before + [Comment(0, FinalBody("", Marker(repo, pr, head)))];
    PlainHasNoBrace(repo);
    PlainHasNoBrace(head);
    MarkerExpands(repo, pr, head);
    forall other | Plain(other)
      ensures !Contains("", Marker(repo, pr, other))
    {
      BlankCarriesNothing(repo, pr, other);
    }
    assert after == Upserted(before, None, 0, FinalBody("", Marker(repo, pr, head)));
  }

  lemma Remarks(repo: string, pr: nat, before: seq<Comment>, id: nat)
    requires Plain(repo)
    ensures StepsTo(repo, pr, before, Remark(""), before + [Comment(id, "")])
  {
    forall head | Plain(head)
      ensures !Contains("", Marker(repo, pr, head))
    {
      BlankCarriesNothing(repo, pr, head);
    }
  }

  lemma BlankGrows(repo: string, pr: nat, n: nat)
    requires Plain(repo)
    ensures StepsTo(repo, pr, Blank(n), Remark(""), Blank(n + 1))
  {
    Remarks(repo, pr, Blank(n), n + 1);
  }

  function LateSteps(head: string): (steps: seq<Step>)
    ensures |steps| == PAGE_SIZE + 2 && forall k | 0 <= k < PAGE_SIZE :: steps[k] == Remark("")
    ensures steps[PAGE_SIZE] == steps[PAGE_SIZE + 1] == Upsert(head, "")
  {
    seq(PAGE_SIZE, k => Remark("")) + [Upsert(head, ""), Upsert(head, "")]
  }

  function LateStates(comment: Comment): (states: seq<seq<Comment>>)
    ensures |states| == PAGE_SIZE + 3 && forall k | 0 <= k <= PAGE_SIZE :: states[k] == Blank(k)
    ensures states[PAGE_SIZE + 1] == Blank(PAGE_SIZE) + [comment]
    ensures states[PAGE_SIZE + 2] == Blank(PAGE_SIZE) + [comment] + [comment]
  {
    var blank := Blank(PAGE_SIZE);
    seq(PAGE_SIZE + 1, k requires 0 <= k <= PAGE_SIZE => Blank(k)) + [blank + [comment], blank + [comment] + [comment]]
  }

  lemma LateRun(repo: string, pr: nat, head: string)
    requires Plain(repo) && Plain(head)
    ensures IsRun(repo, pr, LateStates(Comment(0, FinalBody("", Marker(repo, pr, head)))), LateSteps(head))
  {
    var n := PAGE_SIZE;
    var comment := Comment(0, FinalBody("", Marker(repo, pr, head)));
    var states, steps, blank := LateStates(comment), LateSteps(head), Blank(n);
    BlankCarriesNothing(repo, pr, head);
    Appends(repo, pr, blank, head);
    Appends(repo, pr, blank + [comment], head);
    forall i | 0 <= i < |steps|
      ensures StepsTo(repo, pr, states[i], steps[i], states[i + 1])
    {
      if i < n {
        BlankGrows(repo, pr, i);
      } else {
        assert steps[i] == Upsert(head, "") && states[i + 1] == states[i] + [comment];
      }
    }
  }

  /** A hundred remarks, and then the same head upserted twice: it ends up with two comments. */
  lemma LateHeadIsDoubled(repo: string, pr: nat, head: string) returns (states: seq<seq<Comment>>, steps: seq<Step>)
    requires Plain(repo) && Plain(head)
    ensures IsRun(repo, pr, states, steps) && steps == LateSteps(head)
    ensures !AlwaysOnePerHead(repo, pr, states, |steps|)
  {
    states, steps := LateStates(Comment(0, FinalBody("", Marker(repo, pr, head)))), LateSteps(head);
    LateRun(repo, pr, head);
    assert FirstUpsert(steps, PAGE_SIZE, head) && UpsertOf(steps, PAGE_SIZE + 1, head);
    assert !RepeatedHeadsAreEarly(states, steps, |steps|);
    OneCommentPerEarlyHead(repo, pr, states, steps, |steps|);
  }
}
