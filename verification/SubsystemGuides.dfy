/** Subsystem guides: the markdown written for a guide, and the parser that reads it back. */
module SubsystemGuides {
  import opened Basics
  import opened Text

  datatype Guide = Guide(name: string, path: string, summary: string, risk: string, body: string)

  const TITLE := "# Subsystem:"
  const PATH_MARK := "**Path:**"
  const RISK_MARK := "**risk:**" // matched in any letter case

  // ---- characters ----------------------------------------------------------------------------------

  /** What `\s` and `trim` take for white space. */
  predicate IsSpace(c: char) {
    || '\t' <= c <= '\r' || c == ' ' || c == '\U{00A0}' || c == '\U{1680}' || '\U{2000}' <= c <= '\U{200A}'
    || c == '\U{2028}' || c == '\U{2029}' || c == '\U{202F}' || c == '\U{205F}' || c == '\U{3000}' || c == '\U{FEFF}'
  }

  function TrimStart(s: string): string {
    if s != "" && IsSpace(s[0]) then TrimStart(s[1..]) else s
  }

  function TrimEnd(s: string): string {
    if s != "" && IsSpace(s[|s| - 1]) then TrimEnd(s[..|s| - 1]) else s
  }

  function Trim(s: string): string {
    TrimEnd(TrimStart(s))
  }

  // ---- reading ---------------------------------------------------------------------------------------

  /** The text before the first backtick. */
  function BeforeTick(s: string): Option<string> {
    if s == "" then None
    else if s[0] == '`' then Some("")
    else
      var more := BeforeTick(s[1..]);
      if more.Some? then Some([s[0]] + more.value) else None
  }

  /** The path mark at the front, white space, and a non-empty text between backticks. */
  function PathHere(s: string): Option<string> {
    if !(PATH_MARK <= s) then None
    else
      var quoted := TrimStart(s[|PATH_MARK|..]);
      if quoted == "" || quoted[0] != '`' then None
      else
        var text := BeforeTick(quoted[1..]);
        if text == Some("") then None else text
  }

  function FindPath(s: string): Option<string> {
    if s == "" then None
    else if PathHere(s).Some? then PathHere(s)
    else FindPath(s[1..])
  }

  /** The risk mark at the front of a lower-cased text, white space, and a level. */
  function RiskHere(l: string): Option<string> {
    if !(RISK_MARK <= l) then None
    else
      var word := TrimStart(l[|RISK_MARK|..]);
      if "low" <= word then Some("low")
      else if "medium" <= word then Some("medium")
      else if "high" <= word then Some("high")
      else None
  }

  function FindRisk(l: string): Option<string> {
    if l == "" then None
    else if RiskHere(l).Some? then RiskHere(l)
    else FindRisk(l[1..])
  }

  predicate IsProse(line: string) {
    line != "" && !("#" <= line) && !("**Path" <= line) && !("**Risk" <= line)
  }

  function FindSummary(lines: seq<string>): string {
    if lines == [] then ""
    else if IsProse(Trim(lines[0])) then Trim(lines[0])
    else FindSummary(lines[1..])
  }

  function ParseSubsystemGuide(name: string, content: string): Guide {
    var path, risk := FindPath(content), FindRisk(Lower(content));
    Guide(
      name, if path.Some? then path.value else name, FindSummary(Lines(content)),
      if risk.Some? then risk.value else "medium", content)
  }

  // ---- writing ---------------------------------------------------------------------------------------

  function EnsureNl(s: string): string {
    if s == "" || s[|s| - 1] == '\n' then s else s + "\n"
  }

  function PathLine(g: Guide): string {
    PATH_MARK + " `" + g.path + "` \U{00B7} **Risk:** " + g.risk
  }

  function Head(g: Guide): string {
    TITLE + " " + g.name + "\n" + "" + "\n" + PathLine(g) + "\n" + "" + "\n" + g.summary
  }

  /** A body that already is a complete guide is written verbatim. */
  predicate IsCompleteGuide(body: string) {
    TITLE <= TrimStart(body)
  }

  function SubsystemMarkdown(g: Guide): string {
    if IsCompleteGuide(g.body) then EnsureNl(g.body)
    else EnsureNl(if g.body != "" then Head(g) + "\n" + "" + "\n" + g.body else Head(g))
  }

  predicate IsSlugChar(c: char) {
    'A' <= c <= 'Z' || 'a' <= c <= 'z' || '0' <= c <= '9' || c == '.' || c == '_' || c == '-'
  }

  /** Each run of other characters becomes one dash; `inRun` says the previous character was in one. */
  function Dashed(s: string, inRun: bool): string {
    if s == "" then ""
    else if IsSlugChar(s[0]) then [s[0]] + Dashed(s[1..], false)
    else (if inRun then "" else "-") + Dashed(s[1..], true)
  }

  function StripLeading(s: string): string {
    if s != "" && s[0] == '-' then StripLeading(s[1..]) else s
  }

  function StripTrailing(s: string): string {
    if s != "" && s[|s| - 1] == '-' then StripTrailing(s[..|s| - 1]) else s
  }

  function SubsystemSlug(name: string): string {
    var slug := StripTrailing(StripLeading(Dashed(name, false)));
    if slug == "" then "subsystem" else slug
  }

  function FileName(g: Guide): string {
    SubsystemSlug(g.name) + ".md"
  }

  /** The name a guide gets from its file's name. */
  function NameOfFile(file: string): string {
    if |file| >= 3 && file[|file| - 3..] == ".md" then file[..|file| - 3] else file
  }

  /** Writing a guide to its file and loading the file again. */
  function Trip(g: Guide): Guide {
    ParseSubsystemGuide(NameOfFile(FileName(g)), SubsystemMarkdown(g))
  }

  // ---- a guide survives the trip -----------------------------------------------------------------------

  /** One-line name, one-line path without backtick, a level of risk, and one line of prose. */
  predicate WellFormed(g: Guide) {
    && '\n' !in g.name
    && g.path != "" && '`' !in g.path && '\n' !in g.path
    && (g.risk == "low" || g.risk == "medium" || g.risk == "high")
    && IsProse(g.summary) && Trim(g.summary) == g.summary && '\n' !in g.summary
  }

  /** What stands between the name and the path. */
  const LEAD := "\n\n" + PATH_MARK + " `"
  const LOWER_LEAD := "\n\n**path:** `"
  const TITLE_MARK := TITLE + " "
  const AFTER_PATH := "` \U{00B7} "
  const RISK_LABEL := "**Risk:** "

  /** The path the name itself spells out, if it does: the parser reads the title line first. */
  function PathClaim(g: Guide): Option<string> {
    FindPath(g.name + LEAD)
  }

  /** The risk that the name, or else the path, spells out. */
  function RiskClaim(g: Guide): Option<string> {
    if FindRisk(Lower(g.name)).Some? then FindRisk(Lower(g.name)) else FindRisk(Lower(g.path))
  }

  lemma {:induction false} TrimStartAppend(a: string, b: string)
    ensures TrimStart(a) != "" ==> TrimStart(a + b) == TrimStart(a) + b
    ensures TrimStart(a) == "" ==> TrimStart(a + b) == TrimStart(b)
  {
    if a == "" {
      assert a + b == b;
    } else {
      TrimStartAppend(a[1..], b);
      assert (a + b)[1..] == a[1..] + b;
    }
  }

  lemma {:induction false} BeforeTickIs(a: string, b: string)
    requires '`' !in a
    ensures BeforeTick(a + "`" + b) == Some(a)
  {
    assert (a + "`" + b)[0] == if a == "" then '`' else a[0];
    if a == "" {
      assert a + "`" + b == "`" + b;
    } else {
      BeforeTickIs(a[1..], b);
      assert (a + "`" + b)[1..] == a[1..] + "`" + b && [a[0]] + a[1..] == a;
    }
  }

  lemma {:induction false} BeforeTickAppend(a: string, b: string)
    requires '`' in a
    ensures BeforeTick(a).Some? && BeforeTick(a + b) == BeforeTick(a)
  {
    if a[0] != '`' {
      BeforeTickAppend(a[1..], b);
      assert (a + b)[1..] == a[1..] + b;
    }
  }

  lemma {:induction false} PathNotBefore(a: string, b: string)
    requires '*' !in a
    ensures FindPath(a + b) == FindPath(b)
  {
    if a == "" {
      assert a + b == b;
    } else {
      PathNotBefore(a[1..], b);
      assert (a + b)[1..] == a[1..] + b && (a + b)[0] == a[0] && PATH_MARK[0] == '*';
    }
  }

  lemma StartsBeforeStop(front: string, a: string, b: string)
    requires b != "" && b[0] !in front
    ensures front <= a + b <==> front <= a
  {
    if |a| < |front| {
      assert (a + b)[|a|] == b[0] != front[|a|];
    } else {
      assert (a + b)[..|front|] == a[..|front|];
    }
  }

  lemma TrimLead(rest: string)
    ensures TrimStart(LEAD + rest) == PATH_MARK + " `" + rest
  {
    var s := LEAD + rest;
    assert s[0] == '\n' && s[1..][0] == '\n' && s[1..][1..][0] == '*';
    assert TrimStart(s) == TrimStart(s[1..]) == TrimStart(s[1..][1..]) == s[1..][1..];
    assert s[1..][1..] == PATH_MARK + " `" + rest;
  }

  /** What a path mark in the name is followed by is delimited before the path's own text. */
  lemma QuotedInLead(a: string, rest: string)
    ensures var quoted := TrimStart(a + LEAD);
            && quoted != "" && TrimStart(a + LEAD + rest) == quoted + rest
            && (quoted[0] == '`' ==> BeforeTick((quoted + rest)[1..]) == BeforeTick(quoted[1..]))
  {
    TrimStartAppend(a, LEAD);
    TrimLead("");
    assert LEAD + "" == LEAD;
    TrimStartAppend(a + LEAD, rest);
    var quoted := TrimStart(a + LEAD);
    if quoted[0] == '`' {
      assert quoted == TrimStart(a) + LEAD;
      assert quoted[1..][|quoted| - 2] == '`';
      BeforeTickAppend(quoted[1..], rest);
      assert (quoted + rest)[1..] == quoted[1..] + rest;
    }
  }

  /** In the name, a path mark is read the same way whatever follows the path's opening backtick. */
  lemma PathHereInName(a: string, rest: string)
    requires a != "" && '\n' !in a
    ensures PathHere(a + LEAD + rest) == PathHere(a + LEAD)
  {
    var s := a + LEAD;
    assert s + rest == a + (LEAD + rest);
    StartsBeforeStop(PATH_MARK, a, LEAD);
    StartsBeforeStop(PATH_MARK, a, LEAD + rest);
    if PATH_MARK <= a {
      var a1 := a[|PATH_MARK|..];
      assert s[|PATH_MARK|..] == a1 + LEAD && (s + rest)[|PATH_MARK|..] == a1 + LEAD + rest;
      QuotedInLead(a1, rest);
    }
  }

  lemma PathAlone(path: string, rest: string)
    requires '`' !in path && path != ""
    ensures FindPath(PATH_MARK + " `" + (path + "`" + rest)) == Some(path)
  {
    var s := PATH_MARK + " `" + (path + "`" + rest);
    var after := s[|PATH_MARK|..];
    var quoted := "`" + (path + "`" + rest);
    assert after == " " + quoted;
    assert after[0] == ' ' && after[1..] == quoted && quoted[0] == '`';
    assert TrimStart(after) == TrimStart(quoted) == quoted;
    assert quoted[1..] == path + "`" + rest;
    BeforeTickIs(path, rest);
  }

  /** The lead by itself opens a quotation it does not close. */
  lemma NoPathAlone()
    ensures FindPath(PATH_MARK + " `") == None
  {
    var s := PATH_MARK + " `";
    assert TrimStart(s[9..]) == "`" by {
      assert s[9..] == " `" && " `"[1..] == "`";
    }
    assert PathHere(s) == None;
    assert s[1..] == "*Path:** `" && s[2..] == "Path:" + "** `";
    assert s[1..][1..] == s[2..];
    assert !(PATH_MARK <= s[1..]) by { assert s[1..][1] == 'P'; }
    PathNotBefore("Path:", "** `");
    assert "** `"[1..] == "* `" && "* `"[1..] == " `" && " `" == " `" + "";
    PathNotBefore(" `", "");
  }

  lemma PathAfterLead(path: string, rest: string)
    requires '`' !in path && path != ""
    ensures FindPath(LEAD + (path + "`" + rest)) == Some(path) && FindPath(LEAD) == None
  {
    var mark, more := PATH_MARK + " `", path + "`" + rest;
    assert LEAD == "\n\n" + mark && LEAD + more == "\n\n" + (mark + more);
    PathNotBefore("\n\n", mark);
    PathNotBefore("\n\n", mark + more);
    PathAlone(path, rest);
    NoPathAlone();
  }

  lemma TailOfBoth(s: string, more: string)
    requires s != ""
    ensures (s + more)[1..] == s[1..] + more
  {
  }

  lemma FindPathStep(s: string)
    requires s != ""
    ensures FindPath(s) == if PathHere(s).Some? then PathHere(s) else FindPath(s[1..])
  {
  }

  /** The path after the lead is found, unless the name claims one. */
  lemma {:induction false} PathAfterName(a: string, path: string, rest: string)
    requires '\n' !in a && '`' !in path && path != ""
    ensures var claim := FindPath(a + LEAD);
            FindPath(a + LEAD + (path + "`" + rest)) == if claim.Some? then claim else Some(path)
  {
    var more := path + "`" + rest;
    if a == "" {
      PathAfterLead(path, rest);
      assert a + LEAD == LEAD;
    } else {
      PathAfterName(a[1..], path, rest);
      PathHereInName(a, more);
      var s := a + LEAD;
      assert s[1..] == a[1..] + LEAD;
      FindPathStep(s);
      TailOfBoth(s, more);
      FindPathStep(s + more);
    }
  }

  lemma {:induction false} RiskNotBefore(a: string, b: string)
    requires '*' !in a
    ensures FindRisk(a + b) == FindRisk(b)
  {
    if a == "" {
      assert a + b == b;
    } else {
      RiskNotBefore(a[1..], b);
      assert (a + b)[1..] == a[1..] + b && (a + b)[0] == a[0] && RISK_MARK[0] == '*';
    }
  }

  /** A text that can end neither a risk mark nor the level after it. */
  predicate StopsRisk(b: string) {
    && b != "" && b[0] !in RISK_MARK && b[0] !in "lowmediumhigh"
    && (TrimStart(b) == "" || TrimStart(b)[0] !in "lmh")
  }

  lemma RiskHereBeforeStop(a: string, b: string)
    requires StopsRisk(b) && a != ""
    ensures RiskHere(a + b) == RiskHere(a)
  {
    StartsBeforeStop(RISK_MARK, a, b);
    if RISK_MARK <= a {
      var m := |RISK_MARK|;
      assert (a + b)[m..] == a[m..] + b;
      TrimStartAppend(a[m..], b);
      var word := TrimStart(a[m..]);
      if word != "" {
        assert forall c | c in "low" || c in "medium" || c in "high" :: c in "lowmediumhigh";
        StartsBeforeStop("low", word, b);
        StartsBeforeStop("medium", word, b);
        StartsBeforeStop("high", word, b);
      } else {
        assert 'l' in "lmh" && 'm' in "lmh" && 'h' in "lmh" by {
          assert "lmh"[0] == 'l' && "lmh"[1] == 'm' && "lmh"[2] == 'h';
        }
      }
    }
  }

  lemma {:induction false} RiskBeforeStop(a: string, b: string)
    requires StopsRisk(b)
    ensures FindRisk(a + b) == if FindRisk(a).Some? then FindRisk(a) else FindRisk(b)
  {
    if a == "" {
      assert a + b == b;
    } else {
      RiskBeforeStop(a[1..], b);
      RiskHereBeforeStop(a, b);
      assert (a + b)[1..] == a[1..] + b;
    }
  }

  lemma RiskNotAtStars(b: string)
    requires b != "" && b[0] != 'r' && b[0] != '*'
    ensures FindRisk("**" + b) == FindRisk(b)
  {
    var l := "**" + b;
    assert l[2] == b[0] && l[1..][1] == b[0] && l[1..][1..] == b;
  }

  lemma Regroup5(a: string, b: string, c: string, d: string, e: string, f: string)
    ensures a + b + c + d + e + f == a + (b + (c + (d + (e + f))))
  {
  }

  /** The lower-cased lead holds no risk. */
  lemma RiskNotInLead(rest: string)
    ensures FindRisk(LOWER_LEAD + rest) == FindRisk(rest)
  {
    var c := " `" + rest;
    var b := "path:" + ("**" + c);
    assert LOWER_LEAD == "\n\n" + "**" + "path:" + "**" + " `";
    Regroup5("\n\n", "**", "path:", "**", " `", rest);
    RiskNotBefore("\n\n", "**" + b);
    RiskNotAtStars(b);
    RiskNotBefore("path:", "**" + c);
    RiskNotAtStars(c);
    RiskNotBefore(" `", rest);
  }

  lemma RiskAlone(risk: string, rest: string)
    requires risk == "low" || risk == "medium" || risk == "high"
    ensures FindRisk("**risk:** " + (risk + rest)) == Some(risk)
  {
    var word := risk + rest;
    var l := "**risk:** " + word;
    assert word[0] == risk[0] && risk <= word;
    assert RISK_MARK <= l && l[9..] == " " + word;
    assert (" " + word)[0] == ' ' && (" " + word)[1..] == word;
    assert TrimStart(" " + word) == word;
  }

  lemma LeadStopsRisk(rest: string)
    ensures StopsRisk(LOWER_LEAD + rest)
  {
    var s := LOWER_LEAD + rest;
    assert s[0] == '\n' && s[1..][0] == '\n' && s[1..][1..][0] == '*';
    assert TrimStart(s) == TrimStart(s[1..]) == TrimStart(s[1..][1..]) == s[1..][1..];
  }

  lemma TickStopsRisk(rest: string)
    ensures StopsRisk(AFTER_PATH + rest)
  {
    var s := AFTER_PATH + rest;
    assert s[0] == '`' && TrimStart(s) == s;
  }

  lemma RiskAfterPath(name: string, path: string, tail: string)
    ensures var l := Lower(TITLE_MARK) + (name + (LOWER_LEAD + (path + (AFTER_PATH + tail))));
            FindRisk(l) == if FindRisk(name).Some? then FindRisk(name)
                           else if FindRisk(path).Some? then FindRisk(path)
                           else FindRisk(tail)
  {
    var afterPath := AFTER_PATH + tail;
    var afterName := LOWER_LEAD + (path + afterPath);
    RiskNotBefore(Lower(TITLE_MARK), name + afterName);
    LeadStopsRisk(path + afterPath);
    RiskBeforeStop(name, afterName);
    RiskNotInLead(path + afterPath);
    TickStopsRisk(tail);
    RiskBeforeStop(path, afterPath);
    RiskNotBefore(AFTER_PATH, tail);
  }

  lemma LowerAppend(a: string, b: string)
    ensures Lower(a + b) == Lower(a) + Lower(b)
  {
  }

  /** The printed guide, as far as the parser's two searches read it. */
  function Opening(g: Guide, rest: string): string {
    TITLE_MARK + (g.name + (LEAD + (g.path + (AFTER_PATH + (RISK_LABEL + (g.risk + rest))))))
  }

  lemma RegroupHead(
    t: string, sp: string, name: string, nl: string, e: string, line: string, summary: string, more: string
  )
    ensures t + sp + name + nl + e + nl + line + nl + e + nl + summary + more
         == (t + sp) + (name + ((nl + e + nl) + (line + (nl + e + nl + summary + more))))
  {
  }

  lemma RegroupPathLine(
    br: string, mark: string, tick: string, path: string, a: string, b: string, risk: string, tail: string
  )
    ensures br + (mark + tick + path + (a + b) + risk + tail) == (br + mark + tick) + (path + (a + (b + (risk + tail))))
  {
  }

  lemma PathLineParts(g: Guide)
    ensures PathLine(g) == PATH_MARK + " `" + g.path + (AFTER_PATH + RISK_LABEL) + g.risk
    ensures LEAD == "\n" + "" + "\n" + PATH_MARK + " `"
  {
    assert AFTER_PATH + RISK_LABEL == "` \U{00B7} **Risk:** ";
  }

  lemma HeadComesFirst(g: Guide) returns (more: string)
    requires !IsCompleteGuide(g.body)
    ensures SubsystemMarkdown(g) == Head(g) + more
  {
    assert Head(g) <= SubsystemMarkdown(g);
    more := SubsystemMarkdown(g)[|Head(g)|..];
  }

  lemma MarkdownOpens(g: Guide) returns (rest: string)
    requires !IsCompleteGuide(g.body)
    ensures SubsystemMarkdown(g) == Opening(g, rest)
  {
    var more := HeadComesFirst(g);
    rest := "\n" + "" + "\n" + g.summary + more;
    RegroupHead(TITLE, " ", g.name, "\n", "", PathLine(g), g.summary, more);
    PathLineParts(g);
    RegroupPathLine("\n" + "" + "\n", PATH_MARK, " `", g.path, AFTER_PATH, RISK_LABEL, g.risk, rest);
  }

  lemma LowerNested(a: string, b: string, c: string, d: string, e: string, f: string)
    ensures Lower(a + (b + (c + (d + (e + f))))) == Lower(a)
        + (Lower(b) + (Lower(c) + (Lower(d) + (Lower(e) + Lower(f)))))
  {
    LowerAppend(e, f);
    LowerAppend(d, e + f);
    LowerAppend(c, d + (e + f));
    LowerAppend(b, c + (d + (e + f)));
    LowerAppend(a, b + (c + (d + (e + f))));
  }

  lemma LowerLabels(risk: string, rest: string)
    requires risk == "low" || risk == "medium" || risk == "high"
    ensures Lower(LEAD) == LOWER_LEAD && Lower(AFTER_PATH) == AFTER_PATH
    ensures Lower(RISK_LABEL + (risk + rest)) == "**risk:** " + (risk + Lower(rest))
  {
    LowerAppend(risk, rest);
    LowerAppend(RISK_LABEL, risk + rest);
    assert Lower(RISK_LABEL) == "**risk:** ";
    assert Lower(risk) == risk;
  }

  lemma RiskOfOpening(g: Guide, rest: string)
    requires WellFormed(g)
    ensures FindRisk(Lower(Opening(g, rest))) == if RiskClaim(g).Some? then RiskClaim(g) else Some(g.risk)
  {
    var tail := RISK_LABEL + (g.risk + rest);
    LowerNested(TITLE_MARK, g.name, LEAD, g.path, AFTER_PATH, tail);
    LowerLabels(g.risk, rest);
    RiskAfterPath(Lower(g.name), Lower(g.path), Lower(tail));
    RiskAlone(g.risk, Lower(rest));
  }

  lemma PathAfterTitle(s: string)
    ensures FindPath(TITLE_MARK + s) == FindPath(s)
  {
    PathNotBefore(TITLE_MARK, s);
  }

  lemma RegroupTick(name: string, lead: string, path: string, tick: string, dot: string, tail: string)
    ensures name + (lead + (path + ((tick + dot) + tail))) == name + lead + (path + tick + (dot + tail))
  {
  }

  lemma PathOfOpening(g: Guide, rest: string)
    requires WellFormed(g)
    ensures FindPath(Opening(g, rest)) == if PathClaim(g).Some? then PathClaim(g) else Some(g.path)
  {
    var dot := " \U{00B7} ";
    var tail := RISK_LABEL + (g.risk + rest);
    assert AFTER_PATH == "`" + dot;
    RegroupTick(g.name, LEAD, g.path, "`", dot, tail);
    PathAfterTitle(g.name + (LEAD + (g.path + (AFTER_PATH + tail))));
    PathAfterName(g.name, g.path, dot + tail);
  }

  lemma {:induction false} TrimEndKeeps(s: string, front: string)
    requires front != "" && front <= s && !IsSpace(front[|front| - 1])
    ensures front <= TrimEnd(s)
  {
    if IsSpace(s[|s| - 1]) {
      assert |front| < |s|;
      TrimEndKeeps(s[..|s| - 1], front);
    }
  }

  predicate IsHeader(line: string) {
    line == "" || "#" <= line || "**Path" <= line
  }

  lemma HeaderIsNotProse(line: string)
    requires IsHeader(line)
    ensures !IsProse(Trim(line))
  {
    if line != "" {
      assert TrimStart(line) == line;
      TrimEndKeeps(line, if "#" <= line then "#" else "**Path");
    }
  }

  lemma {:induction false} FirstProse(lines: seq<string>, k: nat)
    requires k < |lines| && IsProse(Trim(lines[k])) && forall j | 0 <= j < k :: IsHeader(lines[j])
    ensures FindSummary(lines) == Trim(lines[k])
  {
    if k == 0 {
    } else {
      HeaderIsNotProse(lines[0]);
      FirstProse(lines[1..], k - 1);
    }
  }

  lemma LinesOfFive(a: string, b: string, c: string, d: string, e: string)
    requires '\n' !in a && '\n' !in b && '\n' !in c && '\n' !in d && '\n' !in e
    ensures Lines(a + "\n" + b + "\n" + c + "\n" + d + "\n" + e) == [a, b, c, d, e]
  {
    LinesOfLine(a);
    LinesOfLine(b);
    LinesOfLine(c);
    LinesOfLine(d);
    LinesOfLine(e);
    LinesAppend(a, b);
    LinesAppend(a + "\n" + b, c);
    LinesAppend(a + "\n" + b + "\n" + c, d);
    LinesAppend(a + "\n" + b + "\n" + c + "\n" + d, e);
  }

  lemma LinesOfHead(g: Guide)
    requires WellFormed(g)
    ensures Lines(Head(g)) == [TITLE + " " + g.name, "", PathLine(g), "", g.summary]
  {
    assert '\n' !in PathLine(g) by {
      assert '\n' !in "` \U{00B7} **Risk:** " && '\n' !in PATH_MARK + " `";
    }
    LinesOfFive(TITLE + " " + g.name, "", PathLine(g), "", g.summary);
  }

  lemma LinesOfMarkdown(g: Guide)
    requires WellFormed(g) && !IsCompleteGuide(g.body)
    ensures Lines(Head(g)) <= Lines(SubsystemMarkdown(g))
  {
    var head := Head(g);
    var text := if g.body != "" then head + "\n" + "" + "\n" + g.body else head;
    if g.body != "" {
      LinesAppend(head, "");
      LinesAppend(head + "\n" + "", g.body);
    }
    LinesAppend(text, "");
    assert text + "\n" == text + "\n" + "";
  }

  /** Everything before the summary is a header line. */
  lemma HeadLinesAreHeaders(g: Guide)
    requires WellFormed(g)
    ensures var head := Lines(Head(g));
            |head| == 5 && head[4] == g.summary && forall k | 0 <= k < 4 :: IsHeader(head[k])
  {
    LinesOfHead(g);
    var head := Lines(Head(g));
    assert "#" <= head[0] && head[1] == "" && "**Path" <= head[2] && head[3] == "";
  }

  lemma SummaryOfMarkdown(g: Guide)
    requires WellFormed(g) && !IsCompleteGuide(g.body)
    ensures FindSummary(Lines(SubsystemMarkdown(g))) == g.summary
  {
    HeadLinesAreHeaders(g);
    LinesOfMarkdown(g);
    var lines, head := Lines(SubsystemMarkdown(g)), Lines(Head(g));
    assert forall k | 0 <= k < |head| :: lines[k] == head[k];
    FirstProse(lines, 4);
  }

  /**
    Printed and parsed again, a well-formed guide keeps its summary; it keeps its path exactly when
    its name does not spell out another, and its risk exactly when neither name nor path does.
   */
  lemma RoundTrip(g: Guide, name: string)
    requires WellFormed(g) && !IsCompleteGuide(g.body)
    ensures var back := ParseSubsystemGuide(name, SubsystemMarkdown(g));
            && back.summary == g.summary
            && (back.path == g.path <==> PathClaim(g) == None || PathClaim(g) == Some(g.path))
            && (back.risk == g.risk <==> RiskClaim(g) == None || RiskClaim(g) == Some(g.risk))
  {
    var rest := MarkdownOpens(g);
    PathOfOpening(g, rest);
    RiskOfOpening(g, rest);
    SummaryOfMarkdown(g);
  }

  // ---- what claims nothing -------------------------------------------------------------------------------

  lemma ContainsTail(s: string, part: string)
    requires s != ""
    ensures part <= s ==> Contains(s, part)
    ensures Contains(s[1..], part) ==> Contains(s, part)
  {
    if part <= s {
      assert OccursAt(s, part, 0);
    }
    if Contains(s[1..], part) {
      var k: nat :| k <= |s[1..]| && OccursAt(s[1..], part, k);
      assert s[1..][k..k + |part|] == s[k + 1..k + 1 + |part|];
      assert OccursAt(s, part, k + 1);
    }
  }

  lemma {:induction false} NoMarkNoPath(a: string)
    requires '\n' !in a && !Contains(a, PATH_MARK)
    ensures FindPath(a + LEAD) == None
  {
    if a == "" {
      assert a + LEAD == "\n\n" + (PATH_MARK + " `");
      PathNotBefore("\n\n", PATH_MARK + " `");
      NoPathAlone();
    } else {
      ContainsTail(a, PATH_MARK);
      NoMarkNoPath(a[1..]);
      assert (a + LEAD)[1..] == a[1..] + LEAD;
      StartsBeforeStop(PATH_MARK, a, LEAD);
    }
  }

  lemma {:induction false} NoMarkNoRisk(l: string)
    requires !Contains(l, RISK_MARK)
    ensures FindRisk(l) == None
  {
    if l == "" {
    } else {
      ContainsTail(l, RISK_MARK);
      NoMarkNoRisk(l[1..]);
    }
  }

  /** Names and paths free of the two marks make no claim, so everything survives. */
  lemma RoundTripWithoutMarks(g: Guide, name: string)
    requires WellFormed(g) && !IsCompleteGuide(g.body)
    requires !Contains(g.name, PATH_MARK) && !Contains(Lower(g.name), RISK_MARK) && !Contains(Lower(g.path), RISK_MARK)
    ensures var back := ParseSubsystemGuide(name, SubsystemMarkdown(g));
            back.path == g.path && back.risk == g.risk && back.summary == g.summary
  {
    NoMarkNoPath(g.name);
    NoMarkNoRisk(Lower(g.name));
    NoMarkNoRisk(Lower(g.path));
    RoundTrip(g, name);
  }

  lemma RiskInPath(path: string)
    requires path == RISK_LABEL + "low"
    ensures FindRisk(Lower(path)) == Some("low")
  {
    LowerLabels("low", "");
    RiskAlone("low", "");
    assert "low" + "" == "low" && Lower("") == "";
  }

  lemma PlainNameClaimsNoRisk(name: string)
    requires '*' !in name
    ensures FindRisk(Lower(name)) == None
  {
    RiskNotBefore(Lower(name), "");
    assert Lower(name) == Lower(name) + "";
  }

  /** A path that spells out a risk overrides the guide's own. */
  lemma RiskLostToPath(g: Guide, name: string)
    requires WellFormed(g) && !IsCompleteGuide(g.body)
    requires '*' !in g.name && g.path == RISK_LABEL + "low" && g.risk != "low"
    ensures ParseSubsystemGuide(name, SubsystemMarkdown(g)).risk != g.risk
  {
    RiskInPath(g.path);
    PlainNameClaimsNoRisk(g.name);
    RoundTrip(g, name);
  }

  lemma PathInName(g: Guide)
    requires g.name == PATH_MARK + " `x`"
    ensures PathClaim(g) == Some("x")
  {
    PathAlone("x", LEAD);
    assert g.name + LEAD == PATH_MARK + " `" + ("x" + "`" + LEAD);
  }

  /** A name that spells out a path overrides the guide's own. */
  lemma PathLostToName(g: Guide, name: string)
    requires WellFormed(g) && !IsCompleteGuide(g.body)
    requires g.name == PATH_MARK + " `x`" && g.path != "x"
    ensures ParseSubsystemGuide(name, SubsystemMarkdown(g)).path != g.path
  {
    PathInName(g);
    RoundTrip(g, name);
  }

  // ---- blanks ----------------------------------------------------------------------------------------------

  predicate Blank(s: string) {
    forall c | c in s :: IsSpace(c)
  }

  lemma {:induction false} TrimStartExactly(s: string) returns (before: string)
    ensures s == before + TrimStart(s) && Blank(before) && (TrimStart(s) == "" || !IsSpace(TrimStart(s)[0]))
  {
    if s != "" && IsSpace(s[0]) {
      before := TrimStartExactly(s[1..]);
      before := [s[0]] + before;
      assert s == [s[0]] + s[1..];
    } else {
      before := "";
    }
  }

  lemma {:induction false} TrimEndExactly(s: string) returns (after: string)
    ensures s == TrimEnd(s) + after && Blank(after)
    ensures TrimEnd(s) == "" || !IsSpace(TrimEnd(s)[|TrimEnd(s)| - 1])
  {
    if s != "" && IsSpace(s[|s| - 1]) {
      var n := |s| - 1;
      after := TrimEndExactly(s[..n]);
      after := after + [s[n]];
      assert s == s[..n] + [s[n]];
    } else {
      after := "";
    }
  }

  /** Trimming takes off blanks at both ends, all of them and nothing else. */
  lemma TrimExactly(s: string) returns (before: string, after: string)
    ensures s == before + Trim(s) + after && Blank(before) && Blank(after)
    ensures var t := Trim(s); t == "" || (!IsSpace(t[0]) && !IsSpace(t[|t| - 1]))
  {
    before := TrimStartExactly(s);
    after := TrimEndExactly(TrimStart(s));
    if Trim(s) != "" {
      assert TrimStart(s)[0] == Trim(s)[0];
    }
  }

  // ---- what the two expressions match -----------------------------------------------------------------------

  /** `s` starts as a path line does: the mark, blanks, and `path` between backticks. */
  ghost predicate ReadsPath(s: string, path: string) {
    path != "" && '`' !in path
    && exists blanks, rest :: Blank(blanks) && s == PATH_MARK + (blanks + ("`" + (path + ("`" + rest))))
  }

  lemma {:induction false} BlankIsTrimmed(blanks: string)
    requires Blank(blanks)
    ensures TrimStart(blanks) == ""
  {
    if blanks != "" {
      BlankIsTrimmed(blanks[1..]);
    }
  }

  lemma {:induction false} TickIsFound(s: string) returns (rest: string)
    requires BeforeTick(s).Some?
    ensures '`' !in BeforeTick(s).value && s == BeforeTick(s).value + ("`" + rest)
  {
    if s[0] == '`' {
      rest := s[1..];
    } else {
      rest := TickIsFound(s[1..]);
      assert s == [s[0]] + s[1..];
    }
  }

  lemma PathHereReads(s: string)
    requires PathHere(s).Some?
    ensures ReadsPath(s, PathHere(s).value)
  {
    var path, after := PathHere(s).value, s[|PATH_MARK|..];
    var quoted := TrimStart(after);
    var blanks := TrimStartExactly(after);
    var rest := TickIsFound(quoted[1..]);
    assert quoted == "`" + (path + ("`" + rest));
    assert s == PATH_MARK + (blanks + quoted);
  }

  lemma ReadPathIsHere(s: string, path: string)
    requires ReadsPath(s, path)
    ensures PathHere(s) == Some(path)
  {
    var blanks, rest :| Blank(blanks) && s == PATH_MARK + (blanks + ("`" + (path + ("`" + rest))));
    var quoted := "`" + (path + ("`" + rest));
    assert s[|PATH_MARK|..] == blanks + quoted;
    BlankIsTrimmed(blanks);
    TrimStartAppend(blanks, quoted);
    assert quoted[1..] == path + "`" + rest;
    BeforeTickIs(path, rest);
  }

  /** The path found is the first one that can be read anywhere in the text. */
  lemma {:induction false} FirstPathIsFound(s: string)
    ensures FindPath(s).None? <==> forall k, path | 0 <= k <= |s| :: !ReadsPath(s[k..], path)
    ensures FindPath(s).Some? ==> exists k | 0 <= k <= |s| ::
              ReadsPath(s[k..], FindPath(s).value) && forall j, path | 0 <= j < k :: !ReadsPath(s[j..], path)
  {
    forall path
      ensures ReadsPath(s, path) <==> PathHere(s) == Some(path)
    {
      if PathHere(s) == Some(path) {
        PathHereReads(s);
      }
      if ReadsPath(s, path) {
        ReadPathIsHere(s, path);
      }
    }
    assert s[0..] == s;
    if s == "" || PathHere(s).Some? {
    } else {
      FirstPathIsFound(s[1..]);
      assert forall k | 0 < k <= |s| :: s[k..] == s[1..][k - 1..];
    }
  }

  /** `l` starts as a risk mark does, in lower case: the mark, blanks, and a level. */
  ghost predicate ReadsRisk(l: string, level: string) {
    level in {"low", "medium", "high"}
    && exists blanks, rest :: Blank(blanks) && l == RISK_MARK + (blanks + (level + rest))
  }

  lemma LevelsDiffer(word: string)
    ensures "low" <= word ==> word[0] == 'l'
    ensures "medium" <= word ==> word[0] == 'm'
    ensures "high" <= word ==> word[0] == 'h'
  {
  }

  lemma RiskHereReads(l: string)
    requires RiskHere(l).Some?
    ensures ReadsRisk(l, RiskHere(l).value)
  {
    var level, after := RiskHere(l).value, l[|RISK_MARK|..];
    var word := TrimStart(after);
    var blanks := TrimStartExactly(after);
    assert word == level + word[|level|..];
    assert l == RISK_MARK + (blanks + (level + word[|level|..]));
  }

  lemma ReadRiskIsHere(l: string, level: string)
    requires ReadsRisk(l, level)
    ensures RiskHere(l) == Some(level)
  {
    var blanks, rest :| Blank(blanks) && l == RISK_MARK + (blanks + (level + rest));
    var word := level + rest;
    assert l[|RISK_MARK|..] == blanks + word;
    BlankIsTrimmed(blanks);
    TrimStartAppend(blanks, word);
    assert level <= word && word[0] == level[0] && !IsSpace(word[0]);
    LevelsDiffer(word);
  }

  /** The risk found is the first level that can be read after a mark anywhere in the lower-cased text. */
  lemma {:induction false} FirstRiskIsFound(l: string)
    ensures FindRisk(l).None? <==> forall k, level | 0 <= k <= |l| :: !ReadsRisk(l[k..], level)
    ensures FindRisk(l).Some? ==> exists k | 0 <= k <= |l| ::
              ReadsRisk(l[k..], FindRisk(l).value) && forall j, level | 0 <= j < k :: !ReadsRisk(l[j..], level)
  {
    forall level
      ensures ReadsRisk(l, level) <==> RiskHere(l) == Some(level)
    {
      if RiskHere(l) == Some(level) {
        RiskHereReads(l);
      }
      if ReadsRisk(l, level) {
        ReadRiskIsHere(l, level);
      }
    }
    assert l[0..] == l;
    if l == "" || RiskHere(l).Some? {
    } else {
      FirstRiskIsFound(l[1..]);
      assert forall k | 0 < k <= |l| :: l[k..] == l[1..][k - 1..];
    }
  }

  // ---- defaults, the summary and the body ------------------------------------------------------------------

  lemma {:induction false} UnmarkedHasNoPath(s: string)
    requires !Contains(s, PATH_MARK)
    ensures FindPath(s) == None
  {
    if s != "" {
      ContainsTail(s, PATH_MARK);
      UnmarkedHasNoPath(s[1..]);
    }
  }

  /** A text with neither mark is a guide at the path of its name, of medium risk. */
  lemma UnmarkedDefaults(name: string, content: string)
    requires !Contains(content, PATH_MARK) && !Contains(Lower(content), RISK_MARK)
    ensures var g := ParseSubsystemGuide(name, content);
            g.name == name && g.path == name && g.risk == "medium" && g.body == content
  {
    UnmarkedHasNoPath(content);
    NoMarkNoRisk(Lower(content));
  }

  /** A line of prose: neither blank, nor a heading, nor one of the two marked lines. */
  predicate Prose(line: string) {
    var t := Trim(line);
    t != "" && t[0] != '#' && !("**Path" <= t) && !("**Risk" <= t)
  }

  /** The summary is the first line of prose, trimmed, or nothing. */
  lemma {:induction false} SummaryIsFirstProse(lines: seq<string>)
    ensures (forall k | 0 <= k < |lines| :: !Prose(lines[k])) ==> FindSummary(lines) == ""
    ensures forall k | 0 <= k < |lines| && Prose(lines[k]) && (forall j | 0 <= j < k :: !Prose(lines[j])) ::
              FindSummary(lines) == Trim(lines[k])
  {
    if lines != [] && !Prose(lines[0]) {
      SummaryIsFirstProse(lines[1..]);
      assert forall k | 0 < k < |lines| :: lines[k] == lines[1..][k - 1];
    }
  }

  /** A complete guide is one that begins with the title, blanks aside. */
  lemma CompleteExactly(body: string)
    ensures IsCompleteGuide(body) <==> exists blanks, rest :: Blank(blanks) && body == blanks + ("# Subsystem:" + rest)
  {
    if IsCompleteGuide(body) {
      var blanks := TrimStartExactly(body);
      var rest := TrimStart(body)[|TITLE|..];
      assert body == blanks + ("# Subsystem:" + rest);
    }
    if blanks, rest :| Blank(blanks) && body == blanks + ("# Subsystem:" + rest) {
      BlankIsTrimmed(blanks);
      TrimStartAppend(blanks, TITLE + rest);
      assert TITLE <= TITLE + rest && !IsSpace((TITLE + rest)[0]);
    }
  }

  /** The body is written whole, at the end, and its last line is ended; a complete guide is its body and no more. */
  lemma MarkdownKeepsBody(g: Guide)
    requires g.body != ""
    ensures var m, ended := SubsystemMarkdown(g), if g.body[|g.body| - 1] == '\n' then g.body else g.body + "\n";
            && |ended| <= |m| && m[|m| - |ended|..] == ended
            && (IsCompleteGuide(g.body) ==> m == ended)
  {
  }

  // ---- file names, and the second trip ---------------------------------------------------------------------

  predicate IsSlug(s: string) {
    && (forall c | c in s :: IsSlugChar(c))
    && s != "" && s[0] != '-' && s[|s| - 1] != '-'
  }

  lemma {:induction false} DashedChars(s: string, inRun: bool)
    ensures forall c | c in Dashed(s, inRun) :: IsSlugChar(c)
  {
    if s == "" {
    } else {
      DashedChars(s[1..], !IsSlugChar(s[0]));
    }
  }

  lemma {:induction false} DashedKeeps(s: string)
    requires forall c | c in s :: IsSlugChar(c)
    ensures Dashed(s, false) == s
  {
    if s == "" {
    } else {
      DashedKeeps(s[1..]);
    }
  }

  predicate StartsSlug(s: string) {
    s == "" || IsSlugChar(s[0])
  }

  lemma {:induction false} RunSwallowed(run: string, b: string)
    requires (forall c | c in run :: !IsSlugChar(c)) && StartsSlug(b)
    ensures Dashed(run + b, true) == Dashed(b, false)
  {
    if run == "" {
      assert run + b == b;
    } else {
      assert (run + b)[1..] == run[1..] + b;
      RunSwallowed(run[1..], b);
    }
  }

  lemma DashedUnfolds(s: string, inRun: bool)
    requires s != ""
    ensures Dashed(s, inRun)
         == (if IsSlugChar(s[0]) then [s[0]] else if inRun then "" else "-") + Dashed(s[1..], !IsSlugChar(s[0]))
  {
  }

  /** Whether the character before what follows `a` was in a run. */
  predicate InRunAfter(a: string, inRun: bool) {
    if a == "" then inRun else !IsSlugChar(a[|a| - 1])
  }

  lemma Associates(a: string, b: string, c: string)
    ensures a + (b + c) == a + b + c
  {
  }

  /** Dashing goes on after `a` as its last character says. */
  lemma {:induction false} DashedAppend(a: string, rest: string, inRun: bool)
    ensures Dashed(a + rest, inRun) == Dashed(a, inRun) + Dashed(rest, InRunAfter(a, inRun))
  {
    if a == "" {
      assert a + rest == rest;
    } else {
      var tail, inside := a[1..], !IsSlugChar(a[0]);
      var first := if !inside then [a[0]] else if inRun then "" else "-";
      DashedAppend(tail, rest, inside);
      assert InRunAfter(tail, inside) == InRunAfter(a, inRun);
      TailOfBoth(a, rest);
      DashedUnfolds(a, inRun);
      DashedUnfolds(a + rest, inRun);
      Associates(first, Dashed(tail, inside), Dashed(rest, InRunAfter(a, inRun)));
    }
  }

  /** A run of other characters becomes one dash, however long it is. */
  lemma RunBecomesOneDash(a: string, run: string, b: string)
    requires run != "" && (forall c | c in run :: !IsSlugChar(c)) && StartsSlug(b)
    requires a == "" || IsSlugChar(a[|a| - 1])
    ensures Dashed(a + (run + b), false) == Dashed(a, false) + ("-" + Dashed(b, false))
  {
    DashedAppend(a, run + b, false);
    RunSwallowed(run[1..], b);
    TailOfBoth(run, b);
    DashedUnfolds(run + b, false);
  }

  lemma {:induction false} StripLeadingChars(s: string)
    ensures forall c | c in StripLeading(s) :: c in s
    ensures StripLeading(s) != "" ==> StripLeading(s)[0] != '-'
  {
    if s != "" && s[0] == '-' {
      StripLeadingChars(s[1..]);
    }
  }

  lemma {:induction false} StripTrailingChars(s: string)
    ensures StripTrailing(s) <= s
    ensures StripTrailing(s) != "" ==> StripTrailing(s)[|StripTrailing(s)| - 1] != '-'
  {
    if s != "" && s[|s| - 1] == '-' {
      StripTrailingChars(s[..|s| - 1]);
    }
  }

  lemma SlugIsSlug(name: string)
    ensures IsSlug(SubsystemSlug(name))
  {
    var dashed := Dashed(name, false);
    DashedChars(name, false);
    StripLeadingChars(dashed);
    StripTrailingChars(StripLeading(dashed));
  }

  lemma {:induction false} NothingToDash(s: string, inRun: bool)
    requires forall c | c in s :: !IsSlugChar(c) || c == '-'
    ensures forall c | c in Dashed(s, inRun) :: c == '-'
  {
    if s != "" {
      NothingToDash(s[1..], !IsSlugChar(s[0]));
    }
  }

  lemma {:induction false} OnlyDashesGo(s: string)
    requires forall c | c in s :: c == '-'
    ensures StripLeading(s) == ""
  {
    if s != "" {
      assert s[0] in s && forall c | c in s[1..] :: c in s;
      OnlyDashesGo(s[1..]);
    }
  }

  /** A name with nothing to keep but dashes is filed as `subsystem`. */
  lemma NamelessSlug(name: string)
    requires forall c | c in name :: !IsSlugChar(c) || c == '-'
    ensures SubsystemSlug(name) == "subsystem"
  {
    NothingToDash(name, false);
    OnlyDashesGo(Dashed(name, false));
  }

  /** A letter, a digit, a dot, an underscore or a dash. */
  predicate Filed(c: char) {
    'a' <= c <= 'z' || 'A' <= c <= 'Z' || '0' <= c <= '9' || c in {'.', '_', '-'}
  }

  /** A name is its own slug exactly when it is made of such characters and no dash is at an end. */
  lemma SlugFixes(name: string)
    ensures SubsystemSlug(name) == name <==> IsSlug(name)
    ensures IsSlug(name) <==>
              name != "" && (forall c | c in name :: Filed(c)) && name[0] != '-' && name[|name| - 1] != '-'
  {
    assert forall c: char :: Filed(c) <==> IsSlugChar(c);
    SlugIsSlug(name);
    if IsSlug(name) {
      DashedKeeps(name);
    }
  }

  lemma SlugIdempotent(name: string)
    ensures SubsystemSlug(SubsystemSlug(name)) == SubsystemSlug(name)
  {
    SlugIsSlug(name);
    SlugFixes(SubsystemSlug(name));
  }

  /** What is written always is a complete guide that ends its last line. */
  lemma MarkdownIsComplete(g: Guide)
    ensures IsCompleteGuide(SubsystemMarkdown(g)) && EnsureNl(SubsystemMarkdown(g)) == SubsystemMarkdown(g)
  {
    if IsCompleteGuide(g.body) {
      TrimStartAppend(g.body, "\n");
    } else {
      var rest := MarkdownOpens(g);
      assert SubsystemMarkdown(g)[0] == '#';
    }
  }

  /** After one trip to the file and back, for any guide, a second trip changes nothing. */
  lemma SecondTripIsIdentity(g: Guide)
    ensures Trip(Trip(g)) == Trip(g)
  {
    var slug := SubsystemSlug(g.name);
    assert NameOfFile(slug + ".md") == slug;
    assert NameOfFile(FileName(Trip(g))) == slug by {
      SlugIdempotent(g.name);
    }
    MarkdownIsComplete(g);
  }

  // ---- whole packs -----------------------------------------------------------------------------------------

  /** A file to be written. */
  datatype Artifact = Artifact(file: string, content: string)

  /** A directory: file names to contents. */
  type Files = map<string, string>

  /** An emptied directory after the artifacts have been put in order; of two with one name the later stays. */
  function Put(artifacts: seq<Artifact>): Files {
    if artifacts == [] then map[]
    else
      var n := |artifacts| - 1;
      Put(artifacts[..n])[artifacts[n].file := artifacts[n].content]
  }

  function ArtifactOf(g: Guide): Artifact {
    Artifact(FileName(g), SubsystemMarkdown(g))
  }

  function Artifacts(guides: seq<Guide>): (artifacts: seq<Artifact>)
    ensures |artifacts| == |guides| && forall i | 0 <= i < |guides| :: artifacts[i] == ArtifactOf(guides[i])
  {
    seq(|guides|, i requires 0 <= i < |guides| => ArtifactOf(guides[i]))
  }

  function WriteGuides(guides: seq<Guide>): Files {
    Put(Artifacts(guides))
  }

  /** `back` is what loading finds, one guide per file, listed in whatever order. */
  ghost predicate Loads(files: Files, names: seq<string>, back: seq<Guide>) {
    && (forall file :: file in names <==> file in files)
    && |back| == |names|
    && forall i | 0 <= i < |names| && names[i] in files ::
        back[i] == ParseSubsystemGuide(NameOfFile(names[i]), files[names[i]])
  }

  /** A written file is named after a slug and holds a complete guide. */
  ghost predicate Settled(a: Artifact) {
    && (exists slug :: IsSlug(slug) && a.file == slug + ".md")
    && IsCompleteGuide(a.content) && EnsureNl(a.content) == a.content
  }

  lemma WrittenIsSettled(g: Guide)
    ensures Settled(ArtifactOf(g))
  {
    SlugIsSlug(g.name);
    MarkdownIsComplete(g);
  }

  /** A settled file, loaded, is written back as it was. */
  lemma SettledIsStable(a: Artifact)
    requires Settled(a)
    ensures ArtifactOf(ParseSubsystemGuide(NameOfFile(a.file), a.content)) == a
  {
    var slug :| IsSlug(slug) && a.file == slug + ".md";
    assert NameOfFile(a.file) == slug;
    SlugFixes(slug);
  }

  lemma {:induction false} PutExactly(artifacts: seq<Artifact>, file: string)
    ensures file in Put(artifacts) <==> exists a | a in artifacts :: a.file == file
    ensures file in Put(artifacts) ==> Artifact(file, Put(artifacts)[file]) in artifacts
  {
    if artifacts == [] {
    } else {
      var n := |artifacts| - 1;
      assert artifacts == artifacts[..n] + [artifacts[n]];
      PutExactly(artifacts[..n], file);
    }
  }

  /** Of two artifacts with one name the later stays. */
  lemma {:induction false} LaterStays(artifacts: seq<Artifact>, i: nat)
    requires i < |artifacts| && forall j | i < j < |artifacts| :: artifacts[j].file != artifacts[i].file
    ensures artifacts[i].file in Put(artifacts) && Put(artifacts)[artifacts[i].file] == artifacts[i].content
  {
    var n := |artifacts| - 1;
    if i < n {
      LaterStays(artifacts[..n], i);
    }
  }

  /** Artifacts that agree with a directory and name all its files make that directory. */
  lemma PutAgain(artifacts: seq<Artifact>, files: Files)
    requires forall a | a in artifacts :: a.file in files && files[a.file] == a.content
    requires forall file | file in files :: exists a | a in artifacts :: a.file == file
    ensures Put(artifacts) == files
  {
    forall file
      ensures file in Put(artifacts) <==> file in files
      ensures file in files ==> Put(artifacts)[file] == files[file]
    {
      PutExactly(artifacts, file);
    }
  }

  /** Each loaded guide would write its own file again. */
  lemma LoadedGuideAgrees(guides: seq<Guide>, names: seq<string>, back: seq<Guide>, i: nat)
    requires Loads(WriteGuides(guides), names, back) && i < |names|
    ensures names[i] in WriteGuides(guides) && ArtifactOf(back[i]) == Artifact(names[i], WriteGuides(guides)[names[i]])
  {
    assert names[i] in names;
    PutExactly(Artifacts(guides), names[i]);
    var a := Artifact(names[i], WriteGuides(guides)[names[i]]);
    var k :| 0 <= k < |guides| && Artifacts(guides)[k] == a;
    WrittenIsSettled(guides[k]);
    SettledIsStable(a);
  }

  /**
    For every pack, slugs that collide included: what one write and load brings back, written
    again in any order, makes the same files, so nothing changes from then on.
   */
  lemma SecondPackTripIsIdentity(guides: seq<Guide>, names: seq<string>, back: seq<Guide>, order: seq<Guide>)
    requires Loads(WriteGuides(guides), names, back) && forall g :: g in order <==> g in back
    ensures WriteGuides(order) == WriteGuides(guides)
  {
    var files, again := WriteGuides(guides), Artifacts(order);
    forall a | a in again
      ensures a.file in files && files[a.file] == a.content
    {
      var k :| 0 <= k < |order| && again[k] == a;
      assert order[k] in order;
      var i :| 0 <= i < |back| && back[i] == order[k];
      LoadedGuideAgrees(guides, names, back, i);
    }
    forall file | file in files
      ensures exists a | a in again :: a.file == file
    {
      var i :| 0 <= i < |names| && names[i] == file;
      LoadedGuideAgrees(guides, names, back, i);
      assert back[i] in order;
      var k :| 0 <= k < |order| && order[k] == back[i];
      assert again[k] in again;
    }
    PutAgain(again, files);
  }
}
