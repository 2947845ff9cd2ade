/** Text helpers: letter case, lines split at line feeds, and occurrences of one text in another. */
module Text {
  function LowerChar(c: char): char {
    if 'A' <= c <= 'Z' then c - 'A' + 'a' else c
  }

  function Lower(s: string): (l: string)
    ensures |l| == |s| && forall k | 0 <= k < |s| :: l[k] == LowerChar(s[k])
  {
    seq(|s|, k requires 0 <= k < |s| => LowerChar(s[k]))
  }

  /** Each capital letter becomes the small one at its place in the alphabet; nothing else changes. */
  lemma LowerIsAlphabetic(c: char)
    ensures 'A' <= c <= 'Z' ==> 'a' <= LowerChar(c) <= 'z' && LowerChar(c) as int - 'a' as int == c as int - 'A' as int
    ensures !('A' <= c <= 'Z') ==> LowerChar(c) == c
  {
  }

  function Lines(s: string): (lines: seq<string>)
    ensures lines != []
  {
    if s == "" then [""]
    else
      var n := |s| - 1;
      var before := Lines(s[..n]);
      if s[n] == '\n' then before + [""]
      else before[..|before| - 1] + [before[|before| - 1] + [s[n]]]
  }

  function Join(lines: seq<string>): string {
    if lines == [] then ""
    else if |lines| == 1 then lines[0]
    else Join(lines[..|lines| - 1]) + "\n" + lines[|lines| - 1]
  }

  lemma JoinAppend(lines: seq<string>, line: string)
    ensures lines != [] ==> Join(lines + [line]) == Join(lines) + "\n" + line
    ensures Join([line]) == line
  {
    assert (lines + [line])[..|lines|] == lines;
    assert [] + [line] == [line];
  }

  /** Joining what was split restores the text. */
  lemma {:induction false} JoinLines(s: string)
    ensures Join(Lines(s)) == s
  {
    if s == "" {
    } else {
      var n := |s| - 1;
      var before := Lines(s[..n]);
      var init, last := before[..|before| - 1], before[|before| - 1];
      JoinLines(s[..n]);
      assert before == init + [last];
      JoinAppend(before, "");
      JoinAppend(init, last);
      JoinAppend(init, last + [s[n]]);
      assert s == s[..n] + [s[n]];
      if s[n] != '\n' && init != [] {
        assert Join(init) + "\n" + (last + [s[n]]) == Join(init) + "\n" + last + [s[n]];
      }
    }
  }

  lemma {:induction false} LineHasNoBreak(s: string, i: nat)
    requires i < |Lines(s)|
    ensures '\n' !in Lines(s)[i]
  {
    if s == "" {
    } else {
      var n := |s| - 1;
      var before := Lines(s[..n]);
      if i < |before| {
        LineHasNoBreak(s[..n], i);
      }
    }
  }

  lemma {:induction false} LinesOfLine(line: string)
    requires '\n' !in line
    ensures Lines(line) == [line]
  {
    if line == "" {
    } else {
      var n := |line| - 1;
      LinesOfLine(line[..n]);
      assert line[n] != '\n' && line == line[..n] + [line[n]];
    }
  }

  /** One more character, added to the last of the lines. */
  lemma LinesLast(a: seq<string>, b: seq<string>, c: char)
    requires b != []
    ensures a + b + [""] == a + (b + [""])
    ensures (a + b)[..|a + b| - 1] + [(a + b)[|a + b| - 1] + [c]] == a + (b[..|b| - 1] + [b[|b| - 1] + [c]])
  {
  }

  /** Splitting distributes over a line break. */
  lemma {:induction false} LinesAppend(a: string, b: string)
    ensures Lines(a + "\n" + b) == Lines(a) + Lines(b)
  {
    var s := a + "\n" + b;
    if b == "" {
      assert s[..|s| - 1] == a;
    } else {
      var n := |b| - 1;
      LinesAppend(a, b[..n]);
      assert s[..|s| - 1] == a + "\n" + b[..n];
      LinesLast(Lines(a), Lines(b[..n]), b[n]);
    }
  }

  predicate OccursAt(s: string, part: string, k: nat) {
    k + |part| <= |s| && s[k..k + |part|] == part
  }

  predicate Contains(s: string, part: string) {
    exists k: nat | k <= |s| :: OccursAt(s, part, k)
  }

  lemma SharedCharacter(s: string, part: string, k: nat, p: nat)
    requires OccursAt(s, part, k) && k <= p < k + |part|
    ensures s[p] == part[p - k]
  {
    assert s[p] == s[k..k + |part|][p - k];
  }

  /** An occurrence does not span a character the part lacks. */
  lemma OccurrenceAvoids(s: string, part: string, k: nat, p: nat)
    requires OccursAt(s, part, k) && p < |s| && s[p] !in part
    ensures !(k <= p < k + |part|)
  {
    if k <= p < k + |part| {
      SharedCharacter(s, part, k, p);
      assert false;
    }
  }
}
