/** Splitting a unified diff into file sections and keeping whole sections within a budget. */
module DiffBudget {
  import opened Basics
  import opened Text
  import Glob

  datatype Section = Section(path: string, text: string)

  datatype CappedPatch = CappedPatch(patch: string, omittedFiles: seq<string>, omittedChars: nat, truncated: bool)

  const HEADER_PREFIX := "diff --git a/"

  predicate SeparatorAt(rest: string, k: nat) {
    k + 3 < |rest| && rest[k..k + 3] == " b/"
  }

  /** The greatest position up to `n` of a separator with something after it. */
  function LastSeparator(rest: string, n: nat): (k: Option<nat>)
    ensures k.Some? ==>
              k.value <= n && SeparatorAt(rest, k.value) && forall m | k.value < m <= n :: !SeparatorAt(rest, m)
    ensures k.None? ==> forall m | 0 <= m <= n :: !SeparatorAt(rest, m)
  {
    if SeparatorAt(rest, n) then Some(n)
    else if n == 0 then None
    else LastSeparator(rest, n - 1)
  }

  /** The post-image path of a file header line. */
  function HeaderPath(line: string): Option<string> {
    if !(HEADER_PREFIX <= line) then None
    else
      var rest := line[|HEADER_PREFIX|..];
      if !Glob.OneLine(rest) then None
      else
        match LastSeparator(rest, |rest|)
        case None => None
        case Some(k) => Some(rest[k + 3..])
  }

  /** `line` reads as a header with old path `a` and new path `b`. */
  predicate ReadsAs(line: string, a: string, b: string) {
    line == HEADER_PREFIX + (a + " b/" + b) && b != "" && Glob.OneLine(a + " b/" + b)
  }

  lemma ReadingHasSeparator(line: string, a: string, b: string)
    requires ReadsAs(line, a, b)
    ensures HeaderPath(line).Some? && |HeaderPath(line).value| <= |b| && b == line[|line| - |b|..]
  {
    var rest := line[|HEADER_PREFIX|..];
    assert rest == a + " b/" + b;
    assert rest[|a|..|a| + 3] == " b/";
    assert SeparatorAt(rest, |a|);
  }

  /** Among all readings of a line as a header, the one with the shortest new path is taken. */
  lemma HeaderIsShortestReading(line: string, path: string)
    ensures HeaderPath(line) == Some(path)
       <==> (exists a :: ReadsAs(line, a, path)) && forall a, b | ReadsAs(line, a, b) :: |path| <= |b|
  {
    forall a, b | ReadsAs(line, a, b)
      ensures HeaderPath(line).Some? && |HeaderPath(line).value| <= |b| && b == line[|line| - |b|..]
    {
      ReadingHasSeparator(line, a, b);
    }
    if HeaderPath(line).Some? {
      var rest := line[|HEADER_PREFIX|..];
      var k := LastSeparator(rest, |rest|).value;
      assert rest == rest[..k] + " b/" + rest[k + 3..];
      assert ReadsAs(line, rest[..k], rest[k + 3..]);
    }
  }

  predicate IsHeader(line: string) {
    HeaderPath(line).Some?
  }

  /** A header line with its path, or a preamble without one, and then no further header. */
  ghost predicate WellFormed(s: Section) {
    var lines := Lines(s.text);
    && (if IsHeader(lines[0]) then Some(s.path) == HeaderPath(lines[0]) else s.path == "")
    && forall k | 0 < k < |lines| :: !IsHeader(lines[k])
  }

  ghost predicate AreSections(sections: seq<Section>) {
    && (forall i | 0 <= i < |sections| :: WellFormed(sections[i]))
    && (forall i | 0 < i < |sections| :: IsHeader(Lines(sections[i].text)[0]))
  }

  function Texts(sections: seq<Section>): (texts: seq<string>)
    ensures |texts| == |sections|
  {
    if sections == [] then [] else Texts(sections[..|sections| - 1]) + [sections[|sections| - 1].text]
  }

  lemma TextsAppend(sections: seq<Section>, s: Section)
    ensures Texts(sections + [s]) == Texts(sections) + [s.text]
  {
    assert (sections + [s])[..|sections|] == sections;
  }

  lemma StartsSection(line: string, path: string)
    requires '\n' !in line && (if IsHeader(line) then Some(path) == HeaderPath(line) else path == "")
    ensures WellFormed(Section(path, line)) && Lines(line) == [line]
  {
    LinesOfLine(line);
  }

  lemma ExtendsSection(s: Section, line: string)
    requires WellFormed(s) && '\n' !in line && !IsHeader(line)
    ensures WellFormed(s.(text := s.text + "\n" + line))
    ensures Lines(s.text + "\n" + line)[0] == Lines(s.text)[0]
  {
    LinesAppend(s.text, line);
    LinesOfLine(line);
  }

  lemma SectionsAppend(sections: seq<Section>, s: Section)
    requires AreSections(sections) && WellFormed(s) && (sections != [] ==> IsHeader(Lines(s.text)[0]))
    ensures AreSections(sections + [s])
  {
    var all := sections + [s];
    forall k | 0 <= k < |all|
      ensures WellFormed(all[k]) && (k > 0 ==> IsHeader(Lines(all[k].text)[0]))
    {
      if k < |sections| {
        assert all[k] == sections[k];
      }
    }
  }

  /** `sections` and the section being built hold the first `i` lines. */
  ghost predicate SplitState(lines: seq<string>, i: nat, sections: seq<Section>, current: Section)
    requires i <= |lines|
  {
    AreSections(sections + [current]) && Join(Texts(sections + [current])) == Join(lines[..i])
  }

  /** The last section may be replaced by a well-formed one that starts alike. */
  lemma ReplaceLast(sections: seq<Section>, s: Section, longer: Section)
    requires AreSections(sections + [s]) && WellFormed(longer) && Lines(longer.text)[0] == Lines(s.text)[0]
    ensures AreSections(sections + [longer])
  {
    var all, all' := sections + [s], sections + [longer];
    forall k | 0 <= k < |all'|
      ensures WellFormed(all'[k]) && (k > 0 ==> IsHeader(Lines(all'[k].text)[0]))
    {
      assert WellFormed(all[k]) && (k > 0 ==> IsHeader(Lines(all[k].text)[0]));
    }
  }

  lemma JoinLonger(sections: seq<Section>, s: Section, line: string)
    ensures Join(Texts(sections + [s.(text := s.text + "\n" + line)])) == Join(Texts(sections + [s])) + "\n" + line
  {
    var longer := s.(text := s.text + "\n" + line);
    TextsAppend(sections, s);
    TextsAppend(sections, longer);
    JoinAppend(Texts(sections), s.text);
    JoinAppend(Texts(sections), longer.text);
    if sections == [] {
      assert Texts(sections) + [s.text] == [s.text] && Texts(sections) + [longer.text] == [longer.text];
    }
  }

  lemma OneMoreLine(lines: seq<string>, i: nat)
    requires 0 < i < |lines|
    ensures Join(lines[..i + 1]) == Join(lines[..i]) + "\n" + lines[i]
  {
    assert lines[..i + 1] == lines[..i] + [lines[i]];
    JoinAppend(lines[..i], lines[i]);
  }

  lemma SplitContinues(lines: seq<string>, i: nat, sections: seq<Section>, s: Section)
    requires i < |lines| && i > 0 && SplitState(lines, i, sections, s)
    requires '\n' !in lines[i] && !IsHeader(lines[i])
    ensures SplitState(lines, i + 1, sections, s.(text := s.text + "\n" + lines[i]))
  {
    var line := lines[i];
    assert WellFormed((sections + [s])[|sections|]);
    ExtendsSection(s, line);
    ReplaceLast(sections, s, s.(text := s.text + "\n" + line));
    JoinLonger(sections, s, line);
    OneMoreLine(lines, i);
  }

  /** Joining one more line is joining one more text. */
  lemma JoinsAlike(lines: seq<string>, i: nat, sections: seq<Section>, s: Section)
    requires i < |lines| && Join(Texts(sections)) == Join(lines[..i]) && (sections == [] <==> i == 0) &&
        s.text == lines[i]
    ensures Join(Texts(sections + [s])) == Join(lines[..i + 1])
  {
    assert lines[..i + 1] == lines[..i] + [lines[i]];
    TextsAppend(sections, s);
    JoinAppend(lines[..i], lines[i]);
    JoinAppend(Texts(sections), lines[i]);
    if i == 0 {
      assert lines[..i] + [lines[i]] == [lines[i]] && Texts(sections) + [lines[i]] == [lines[i]];
    }
  }

  lemma SplitStarts(lines: seq<string>, i: nat, sections: seq<Section>, path: string)
    requires i < |lines| && '\n' !in lines[i]
    requires if IsHeader(lines[i]) then Some(path) == HeaderPath(lines[i]) else path == "" && i == 0
    requires AreSections(sections) && Join(Texts(sections)) == Join(lines[..i]) && (sections == [] <==> i == 0)
    ensures SplitState(lines, i + 1, sections, Section(path, lines[i]))
  {
    StartsSection(lines[i], path);
    SectionsAppend(sections, Section(path, lines[i]));
    JoinsAlike(lines, i, sections, Section(path, lines[i]));
  }

  /** Every file's section whole, in order; joined by line breaks they are the patch again. */
  method SplitPatchByFile(patch: string) returns (sections: seq<Section>)
    ensures patch == "" ==> sections == []
    ensures patch != "" ==> sections != [] && Join(Texts(sections)) == patch
    ensures AreSections(sections)
  {
    if patch == "" {
      return [];
    }
    sections := [];
    var current: Option<Section> := None;
    var lines := Lines(patch);
    for i := 0 to |lines|
      invariant current.None? <==> i == 0
      invariant current.None? ==> sections == []
      invariant current.Some? ==> SplitState(lines, i, sections, current.value)
    {
      var line := lines[i];
      LineHasNoBreak(patch, i);
      var header := HeaderPath(line);
      if header.Some? {
        if current.Some? {
          sections := sections + [current.value];
        }
        SplitStarts(lines, i, sections, header.value);
        current := Some(Section(header.value, line));
        continue;
      }
      if current.Some? {
        SplitContinues(lines, i, sections, current.value);
        current := Some(current.value.(text := current.value.text + "\n" + line));
        continue;
      }
      SplitStarts(lines, i, sections, "");
      current := Some(Section("", line));
    }
    assert lines[..|lines|] == lines;
    JoinLines(patch);
    sections := sections + [current.value];
  }

  // ---- the greedy cap -----------------------------------------------------------------------------

  /** The texts of the sections the mask keeps, in order. */
  function Kept(sections: seq<Section>, mask: seq<bool>): seq<string>
    requires |mask| <= |sections|
  {
    if mask == [] then []
    else
      var n := |mask| - 1;
      Kept(sections, mask[..n]) + if mask[n] then [sections[n].text] else []
  }

  function DroppedFiles(sections: seq<Section>, mask: seq<bool>): seq<string>
    requires |mask| <= |sections|
  {
    if mask == [] then []
    else
      var n := |mask| - 1;
      DroppedFiles(sections, mask[..n]) + if !mask[n] && sections[n].path != "" then [sections[n].path] else []
  }

  function DroppedChars(sections: seq<Section>, mask: seq<bool>): nat
    requires |mask| <= |sections|
  {
    if mask == [] then 0
    else
      var n := |mask| - 1;
      DroppedChars(sections, mask[..n]) + if mask[n] then 0 else |sections[n].text|
  }

  /** Whether `text` can join `kept` without exceeding the budget. */
  predicate Fits(kept: seq<string>, text: string, maxChars: int) {
    |Join(kept + [text])| <= maxChars
  }

  /** Each section is kept exactly when it fits beside those kept before it. */
  ghost predicate Greedy(sections: seq<Section>, mask: seq<bool>, maxChars: int)
    requires |mask| <= |sections|
  {
    forall i | 0 <= i < |mask| :: mask[i] <==> Fits(Kept(sections, mask[..i]), sections[i].text, maxChars)
  }

  lemma {:induction false} KeptGrows(sections: seq<Section>, mask: seq<bool>, n: nat)
    requires n <= |mask| <= |sections|
    ensures |Join(Kept(sections, mask[..n]))| <= |Join(Kept(sections, mask))|
    ensures Kept(sections, mask[..n]) != [] ==> Kept(sections, mask) != []
  {
    if n == |mask| {
      assert mask[..n] == mask;
    } else {
      var m := |mask| - 1;
      assert mask[..m][..n] == mask[..n];
      KeptGrows(sections, mask[..m], n);
      var kept := Kept(sections, mask[..m]);
      JoinAppend(kept, sections[m].text);
      assert kept + [] == kept;
      assert kept == [] ==> kept + [sections[m].text] == [sections[m].text];
    }
  }

  /** No dropped section could still be added to what was kept. */
  lemma NothingMoreFits(sections: seq<Section>, mask: seq<bool>, maxChars: int, i: nat)
    requires |mask| == |sections| && Greedy(sections, mask, maxChars) && i < |mask| && !mask[i]
    ensures |Join(Kept(sections, mask) + [sections[i].text])| > maxChars
  {
    KeptGrows(sections, mask, i);
    JoinAppend(Kept(sections, mask[..i]), sections[i].text);
    JoinAppend(Kept(sections, mask), sections[i].text);
  }

  lemma {:induction false} AllKept(sections: seq<Section>, mask: seq<bool>)
    requires |mask| <= |sections| && forall i | 0 <= i < |mask| :: mask[i]
    ensures Kept(sections, mask) == Texts(sections[..|mask|]) && DroppedChars(sections, mask) == 0
  {
    if mask == [] {
    } else {
      var n := |mask| - 1;
      AllKept(sections, mask[..n]);
      assert sections[..n + 1][..n] == sections[..n];
    }
  }

  /** Only a leading preamble can be empty, and an empty section always fits. */
  lemma DroppedIsNotEmpty(sections: seq<Section>, mask: seq<bool>, maxChars: int, i: nat)
    requires maxChars > 0 && |mask| <= |sections| && AreSections(sections) && Greedy(sections, mask, maxChars)
    requires i < |mask| && !mask[i]
    ensures sections[i].text != ""
  {
    if i == 0 {
      assert Kept(sections, mask[..0]) == [];
      JoinAppend([], sections[0].text);
    } else {
      assert IsHeader(Lines(sections[i].text)[0]);
      LinesOfLine("");
    }
  }

  lemma {:induction false} SomeDropped(sections: seq<Section>, mask: seq<bool>, i: nat)
    requires i < |mask| <= |sections| && !mask[i] && sections[i].text != ""
    ensures DroppedChars(sections, mask) > 0
  {
    var n := |mask| - 1;
    if i < n {
      SomeDropped(sections, mask[..n], i);
    }
  }

  lemma GreedyStep(sections: seq<Section>, before: seq<bool>, mask: seq<bool>, maxChars: int)
    requires |before| < |sections| && Greedy(sections, before, maxChars)
    requires mask == before + [Fits(Kept(sections, before), sections[|before|].text, maxChars)]
    ensures Greedy(sections, mask, maxChars) && mask[..|before|] == before
  {
    assert mask[..|before|] == before;
    forall i | 0 <= i < |mask|
      ensures mask[i] <==> Fits(Kept(sections, mask[..i]), sections[i].text, maxChars)
    {
      if i < |before| {
        assert mask[..i] == before[..i] && mask[i] == before[i];
      }
    }
  }

  /** The loop's variables say what the mask chosen so far keeps and drops. */
  ghost predicate CapState(
    sections: seq<Section>, mask: seq<bool>, maxChars: int,
    kept: seq<string>, used: nat, omittedFiles: seq<string>, omittedChars: nat
  )
    requires |mask| <= |sections|
  {
    && Greedy(sections, mask, maxChars)
    && kept == Kept(sections, mask) && used == |Join(kept)| <= maxChars
    && omittedFiles == DroppedFiles(sections, mask) && omittedChars == DroppedChars(sections, mask)
  }

  /** What keeping a section adds to the joined text. */
  function Cost(kept: seq<string>, s: Section): nat {
    |s.text| + if |kept| > 0 then 1 else 0
  }

  lemma MaskStep(sections: seq<Section>, mask: seq<bool>, keep: bool)
    requires |mask| < |sections|
    ensures var s, more := sections[|mask|], mask + [keep];
            && Kept(sections, more) == (if keep then Kept(sections, mask) + [s.text] else Kept(sections, mask))
            && DroppedFiles(sections, more)
               == (if keep || s.path == "" then DroppedFiles(sections, mask)
                   else DroppedFiles(sections, mask) + [s.path])
            && DroppedChars(sections, more) == DroppedChars(sections, mask) + if keep then 0 else |s.text|
  {
    assert (mask + [keep])[..|mask|] == mask;
    assert Kept(sections, mask) + [] == Kept(sections, mask);
    assert DroppedFiles(sections, mask) + [] == DroppedFiles(sections, mask);
  }

  lemma KeepStep(
    sections: seq<Section>, mask: seq<bool>, maxChars: int,
    kept: seq<string>, used: nat, omittedFiles: seq<string>, omittedChars: nat
  )
    requires |mask| < |sections| && CapState(sections, mask, maxChars, kept, used, omittedFiles, omittedChars)
    requires used + Cost(kept, sections[|mask|]) <= maxChars
    ensures var s := sections[|mask|];
            CapState(
              sections, mask + [true], maxChars, kept + [s.text], used + Cost(kept, s), omittedFiles, omittedChars)
  {
    var s := sections[|mask|];
    JoinAppend(kept, s.text);
    assert kept == [] ==> kept + [s.text] == [s.text];
    GreedyStep(sections, mask, mask + [true], maxChars);
    MaskStep(sections, mask, true);
  }

  lemma DropStep(
    sections: seq<Section>, mask: seq<bool>, maxChars: int,
    kept: seq<string>, used: nat, omittedFiles: seq<string>, omittedChars: nat
  )
    requires |mask| < |sections| && CapState(sections, mask, maxChars, kept, used, omittedFiles, omittedChars)
    requires used + Cost(kept, sections[|mask|]) > maxChars
    ensures var s := sections[|mask|];
            var files := if s.path != "" then omittedFiles + [s.path] else omittedFiles;
            CapState(sections, mask + [false], maxChars, kept, used, files, omittedChars + |s.text|)
  {
    var s := sections[|mask|];
    JoinAppend(kept, s.text);
    assert kept == [] ==> kept + [s.text] == [s.text];
    GreedyStep(sections, mask, mask + [false], maxChars);
    MaskStep(sections, mask, false);
  }

  lemma TruncatedExactly(sections: seq<Section>, mask: seq<bool>, maxChars: int)
    requires maxChars > 0 && |mask| == |sections| && AreSections(sections) && Greedy(sections, mask, maxChars)
    requires |Join(Kept(sections, mask))| <= maxChars < |Join(Texts(sections))|
    ensures DroppedChars(sections, mask) > 0
  {
    assert sections[..|mask|] == sections;
    if forall i | 0 <= i < |mask| :: mask[i] {
      AllKept(sections, mask);
      assert false;
    } else {
      var i :| 0 <= i < |mask| && !mask[i];
      DroppedIsNotEmpty(sections, mask, maxChars, i);
      SomeDropped(sections, mask, i);
    }
  }

  /** Characters of `n` texts joined to `length`, without the line feeds between them. */
  function Separated(length: nat, n: nat): int {
    if n == 0 then length else length - (n - 1)
  }

  function Chars(texts: seq<string>): nat {
    if texts == [] then 0 else Chars(texts[..|texts| - 1]) + |texts[|texts| - 1]|
  }

  lemma {:induction false} JoinedChars(texts: seq<string>)
    ensures Separated(|Join(texts)|, |texts|) == Chars(texts)
  {
    if texts != [] {
      var n := |texts| - 1;
      JoinedChars(texts[..n]);
      assert texts == texts[..n] + [texts[n]];
      JoinAppend(texts[..n], texts[n]);
    }
  }

  lemma CharsAppend(texts: seq<string>, text: string)
    ensures Chars(texts + [text]) == Chars(texts) + |text|
  {
    assert (texts + [text])[..|texts|] == texts;
  }

  lemma OneMoreText(sections: seq<Section>, n: nat)
    requires n < |sections|
    ensures Chars(Texts(sections[..n + 1])) == Chars(Texts(sections[..n])) + |sections[n].text|
  {
    assert sections[..n + 1] == sections[..n] + [sections[n]];
    TextsAppend(sections[..n], sections[n]);
    CharsAppend(Texts(sections[..n]), sections[n].text);
  }

  lemma OneMoreKept(sections: seq<Section>, mask: seq<bool>)
    requires mask != [] && |mask| <= |sections|
    ensures var n := |mask| - 1;
            Chars(Kept(sections, mask)) + DroppedChars(sections, mask)
            == Chars(Kept(sections, mask[..n])) + DroppedChars(sections, mask[..n]) + |sections[n].text|
  {
    var n := |mask| - 1;
    var kept := Kept(sections, mask[..n]);
    if mask[n] {
      CharsAppend(kept, sections[n].text);
    } else {
      assert kept + [] == kept;
    }
  }

  lemma {:induction false} CharsPartition(sections: seq<Section>, mask: seq<bool>)
    requires |mask| <= |sections|
    ensures Chars(Texts(sections[..|mask|])) == Chars(Kept(sections, mask)) + DroppedChars(sections, mask)
  {
    if mask == [] {
    } else {
      var n := |mask| - 1;
      CharsPartition(sections, mask[..n]);
      OneMoreText(sections, n);
      OneMoreKept(sections, mask);
    }
  }

  /** No character is lost: those of the patch are those kept and those counted as omitted. */
  lemma CharsAreKeptOrDropped(sections: seq<Section>, mask: seq<bool>)
    requires |mask| == |sections|
    ensures Separated(|Join(Texts(sections))|, |sections|)
         == Separated(|Join(Kept(sections, mask))|, |Kept(sections, mask)|) + DroppedChars(sections, mask)
  {
    CharsPartition(sections, mask);
    assert sections[..|mask|] == sections;
    JoinedChars(Texts(sections));
    JoinedChars(Kept(sections, mask));
  }

  /**
    With a positive budget the result is whole sections in order, chosen greedily, never longer
    than the budget; kept and dropped sections partition the patch, and `truncated` says exactly
    that the patch exceeded the budget. A budget of zero or less disables the cap.
   */
  method CapPatch(
    patch: string, maxChars: int
  ) returns (capped: CappedPatch, ghost sections: seq<Section>, ghost mask: seq<bool>)
    ensures maxChars <= 0 || |patch| <= maxChars ==> capped == CappedPatch(patch, [], 0, false)
    ensures maxChars > 0 ==> |capped.patch| <= maxChars && (capped.truncated <==> |patch| > maxChars)
    ensures 0 < maxChars < |patch| ==>
              && AreSections(sections) && Join(Texts(sections)) == patch && |mask| == |sections|
              && Greedy(sections, mask, maxChars)
              && capped.patch == Join(Kept(sections, mask))
              && capped.omittedFiles == DroppedFiles(sections, mask)
              && capped.omittedChars == DroppedChars(sections, mask)
              && Separated(|patch|, |sections|)
                 == Separated(|capped.patch|, |Kept(sections, mask)|) + capped.omittedChars
  {
    sections, mask := [], [];
    if maxChars <= 0 || |patch| <= maxChars {
      return CappedPatch(patch, [], 0, false), sections, mask;
    }
    var split := SplitPatchByFile(patch);
    sections := split;
    var kept: seq<string>, omittedFiles: seq<string>, used: nat, omittedChars: nat := [], [], 0, 0;
    for i := 0 to |split|
      invariant |mask| == i && CapState(split, mask, maxChars, kept, used, omittedFiles, omittedChars)
    {
      var s := split[i];
      var cost := Cost(kept, s);
      if used + cost <= maxChars {
        KeepStep(split, mask, maxChars, kept, used, omittedFiles, omittedChars);
        kept := kept + [s.text];
        used := used + cost;
        mask := mask + [true];
      } else {
        DropStep(split, mask, maxChars, kept, used, omittedFiles, omittedChars);
        omittedChars := omittedChars + |s.text|;
        if s.path != "" {
          omittedFiles := omittedFiles + [s.path];
        }
        mask := mask + [false];
      }
    }
    TruncatedExactly(split, mask, maxChars);
    CharsAreKeptOrDropped(split, mask);
    capped := CappedPatch(Join(kept), omittedFiles, omittedChars, omittedChars > 0);
  }
}
