/** The bounded directory walk: a worklist over a finite tree. */
module FsScan {
  import opened Basics
  import PathOrder

  /** A directory that cannot be read has no entries. */
  datatype Entry =
    | File(name: string)
    | Dir(name: string, entries: seq<Entry>)
    | Other(name: string)

  const IGNORE_DIRS: set<string> := {
    "node_modules", ".git", "dist", "build", "out", ".next", ".nuxt", "coverage",
    "vendor", "target", "__pycache__", ".venv", "venv", ".turbo", ".cache", "tmp",
    ".idea", ".vscode", ".svelte-kit", ".parcel-cache", "bower_components", ".pytest_cache",
    "data"
  }

  predicate Skipped(dir: string) {
    dir in IGNORE_DIRS || ("." <= dir && dir != ".github")
  }

  function JoinPath(prefix: string, name: string): string {
    if prefix == "" then name else prefix + "/" + name
  }

  /** Backslashes become slashes. */
  function Posix(path: string): string {
    if path == "" then "" else [if path[0] == '\\' then '/' else path[0]] + Posix(path[1..])
  }

  // ---- the specification ------------------------------------------------------------------------

  function FilesOf(prefix: string, e: Entry): seq<string>
    decreases e
  {
    match e
    case File(name) => [Posix(JoinPath(prefix, name))]
    case Dir(name, entries) => if Skipped(name) then [] else Files(JoinPath(prefix, name), entries)
    case Other(_) => []
  }

  /** All files below, skipped directories left out. */
  function Files(prefix: string, entries: seq<Entry>): seq<string>
    decreases entries
  {
    if entries == [] then [] else FilesOf(prefix, entries[0]) + Files(prefix, entries[1..])
  }

  /** `names` leads from `entries` down to a file without passing a skipped directory. */
  predicate Leads(entries: seq<Entry>, names: seq<string>)
    decreases |names|
  {
    && names != []
    && exists i | 0 <= i < |entries| ::
         if |names| == 1 then
           entries[i] == File(names[0])
         else
           && entries[i].Dir? && entries[i].name == names[0] && !Skipped(names[0])
           && Leads(entries[i].entries, names[1..])
  }

  function Render(prefix: string, names: seq<string>): string
    decreases |names|
  {
    if names == [] then prefix else Render(JoinPath(prefix, names[0]), names[1..])
  }

  /** The names with a slash between any two. */
  function Slashed(names: seq<string>): string
    requires names != []
  {
    if |names| == 1 then names[0] else Slashed(names[..|names| - 1]) + "/" + names[|names| - 1]
  }

  lemma {:induction false} RenderLast(prefix: string, names: seq<string>)
    requires names != []
    ensures var n := |names| - 1; Render(prefix, names) == JoinPath(Render(prefix, names[..n]), names[n])
    decreases |names|
  {
    var n := |names| - 1;
    if n > 0 {
      RenderLast(JoinPath(prefix, names[0]), names[1..]);
      assert names[1..][..n - 1] == names[..n][1..];
    }
  }

  /** A listed path spells its names, slashes between them. */
  lemma {:induction false} RenderSlashes(names: seq<string>)
    requires names != [] && "" !in names
    ensures Render("", names) == Slashed(names) != ""
    decreases |names|
  {
    var n := |names| - 1;
    RenderLast("", names);
    if n > 0 {
      RenderSlashes(names[..n]);
    }
  }

  lemma {:induction false} PosixExactly(path: string)
    ensures |Posix(path)| == |path|
    ensures forall k | 0 <= k < |path| :: Posix(path)[k] == if path[k] == '\\' then '/' else path[k]
  {
    if path != "" {
      PosixExactly(path[1..]);
    }
  }

  ghost predicate Listed(prefix: string, entries: seq<Entry>, path: string) {
    exists names :: Leads(entries, names) && path == Posix(Render(prefix, names))
  }

  lemma RenderStep(prefix: string, names: seq<string>)
    requires names != []
    ensures Render(prefix, names) == Render(JoinPath(prefix, names[0]), names[1..])
    ensures |names| == 1 ==> Render(prefix, names) == JoinPath(prefix, names[0])
  {
  }

  lemma LeadsInRest(entries: seq<Entry>, names: seq<string>)
    requires entries != [] && Leads(entries[1..], names)
    ensures Leads(entries, names)
  {
    var rest := entries[1..];
    assert forall i | 0 <= i < |rest| :: rest[i] == entries[i + 1];
  }

  lemma LeadsSplits(entries: seq<Entry>, names: seq<string>)
    requires entries != [] && Leads(entries, names)
    ensures Leads(entries[1..], names)
         || (|names| == 1 && entries[0] == File(names[0]))
         || (|names| > 1 && entries[0].Dir? && entries[0].name == names[0] && !Skipped(names[0]) &&
             Leads(entries[0].entries, names[1..]))
  {
    var rest := entries[1..];
    assert forall i | 0 < i < |entries| :: rest[i - 1] == entries[i];
  }

  /** `path` is the entry itself, or listed below it. */
  ghost predicate ListedBy(prefix: string, e: Entry, path: string) {
    match e
    case File(name) => path == Posix(JoinPath(prefix, name))
    case Dir(name, entries) => !Skipped(name) && Listed(JoinPath(prefix, name), entries, path)
    case Other(_) => false
  }

  lemma ListedByFirst(prefix: string, e: Entry, path: string)
    requires e.Dir? ==>
        (path in Files(JoinPath(prefix, e.name), e.entries) <==> Listed(JoinPath(prefix, e.name), e.entries, path))
    ensures path in FilesOf(prefix, e) <==> ListedBy(prefix, e, path)
  {
  }

  lemma ListedSplits(prefix: string, entries: seq<Entry>, path: string)
    requires entries != []
    ensures Listed(prefix, entries, path) <==> ListedBy(prefix, entries[0], path) || Listed(prefix, entries[1..], path)
  {
    var e := entries[0];
    if Listed(prefix, entries, path) {
      var names :| Leads(entries, names) && path == Posix(Render(prefix, names));
      LeadsSplits(entries, names);
      RenderStep(prefix, names);
    }
    if Listed(prefix, entries[1..], path) {
      var names :| Leads(entries[1..], names) && path == Posix(Render(prefix, names));
      LeadsInRest(entries, names);
    } else if ListedBy(prefix, e, path) {
      if e.File? {
        RenderStep(prefix, [e.name]);
        assert Leads(entries, [e.name]);
      } else {
        var names :| Leads(e.entries, names) && path == Posix(Render(JoinPath(prefix, e.name), names));
        var longer := [e.name] + names;
        assert longer[1..] == names;
        RenderStep(prefix, longer);
        assert Leads(entries, longer);
      }
    }
  }

  /** The recursive list holds exactly the files reachable through unskipped directories. */
  lemma {:induction false} FilesExactly(prefix: string, entries: seq<Entry>, path: string)
    ensures path in Files(prefix, entries) <==> Listed(prefix, entries, path)
    decreases entries
  {
    if entries == [] {
    } else {
      var e := entries[0];
      FilesExactly(prefix, entries[1..], path);
      if e.Dir? {
        FilesExactly(JoinPath(prefix, e.name), e.entries, path);
      }
      ListedByFirst(prefix, e, path);
      ListedSplits(prefix, entries, path);
    }
  }

  // ---- the worklist ------------------------------------------------------------------------------------

  datatype Pending = Pending(prefix: string, entries: seq<Entry>)

  function Size(entries: seq<Entry>): nat {
    if entries == [] then 0 else SizeOf(entries[0]) + Size(entries[1..])
  }

  function SizeOf(e: Entry): nat {
    match e
    case Dir(_, entries) => 1 + Size(entries)
    case _ => 0
  }

  function StackSize(stack: seq<Pending>): nat {
    if stack == [] then 0 else StackSize(stack[..|stack| - 1]) + 1 + Size(stack[|stack| - 1].entries)
  }

  /** Files still to be found from the stack. */
  function StackFiles(stack: seq<Pending>): multiset<string> {
    if stack == [] then multiset{}
    else
      var top := stack[|stack| - 1];
      StackFiles(stack[..|stack| - 1]) + multiset(Files(top.prefix, top.entries))
  }

  lemma Pushed(stack: seq<Pending>, p: Pending)
    ensures StackSize(stack + [p]) == StackSize(stack) + 1 + Size(p.entries)
    ensures StackFiles(stack + [p]) == StackFiles(stack) + multiset(Files(p.prefix, p.entries))
  {
    assert (stack + [p])[..|stack|] == stack;
  }

  lemma NextEntry(prefix: string, entries: seq<Entry>, j: nat)
    requires j < |entries|
    ensures multiset(Files(prefix, entries[j..])) == multiset(FilesOf(prefix, entries[j]))
        + multiset(Files(prefix, entries[j + 1..]))
    ensures Size(entries[j..]) == SizeOf(entries[j]) + Size(entries[j + 1..])
  {
    assert entries[j..][1..] == entries[j + 1..];
  }

  /** Everything found or still to be found, with the entries from `j` on left in `dir`. */
  function Account(out: seq<string>, stack: seq<Pending>, dir: Pending, j: nat): multiset<string>
    requires j <= |dir.entries|
  {
    multiset(out) + StackFiles(stack) + multiset(Files(dir.prefix, dir.entries[j..]))
  }

  /** The stack and output after the `j`th entry. */
  function AfterEntry(out: seq<string>, stack: seq<Pending>, dir: Pending, j: nat): (seq<string>, seq<Pending>)
    requires j < |dir.entries|
  {
    match dir.entries[j]
    case Dir(name, entries) => (out, if Skipped(name) then
        stack else stack + [Pending(JoinPath(dir.prefix, name), entries)])
    case File(name) => (out + [Posix(JoinPath(dir.prefix, name))], stack)
    case Other(_) => (out, stack)
  }

  lemma EntryAccounted(out: seq<string>, stack: seq<Pending>, dir: Pending, j: nat)
    requires j < |dir.entries|
    ensures var (out', stack') := AfterEntry(out, stack, dir, j);
            && Account(out', stack', dir, j + 1) == Account(out, stack, dir, j)
            && StackSize(stack') + Size(dir.entries[j + 1..]) <= StackSize(stack) + Size(dir.entries[j..])
  {
    NextEntry(dir.prefix, dir.entries, j);
    match dir.entries[j]
    case Dir(name, entries) => Pushed(stack, Pending(JoinPath(dir.prefix, name), entries));
    case File(name) => assert multiset(out + [Posix(JoinPath(dir.prefix, name))]) == multiset(out)
        + multiset{Posix(JoinPath(dir.prefix, name))};
    case Other(_) =>
  }

  /** One directory's entries: subdirectories go on the stack, files to the output, up to the cap. */
  method ScanDir(
    dir: Pending, stack: seq<Pending>, out: seq<string>, cap: int
  ) returns (stack': seq<Pending>, out': seq<string>)
    requires |out| < cap
    ensures |out'| <= cap
    ensures StackSize(stack') <= StackSize(stack) + Size(dir.entries)
    ensures multiset(out') + StackFiles(stack') <= Account(out, stack, dir, 0)
    ensures |out'| < cap ==> multiset(out') + StackFiles(stack') == Account(out, stack, dir, 0)
  {
    stack', out' := stack, out;
    assert dir.entries[0..] == dir.entries;
    for j := 0 to |dir.entries|
      invariant |out'| < cap
      invariant StackSize(stack') + Size(dir.entries[j..]) <= StackSize(stack) + Size(dir.entries)
      invariant Account(out', stack', dir, j) == Account(out, stack, dir, 0)
    {
      EntryAccounted(out', stack', dir, j);
      var e := dir.entries[j];
      if e.Dir? {
        if e.name in IGNORE_DIRS {
          continue;
        }
        if "." <= e.name && e.name != ".github" {
          continue;
        }
        stack' := stack' + [Pending(JoinPath(dir.prefix, e.name), e.entries)];
      } else if e.File? {
        out' := out' + [Posix(JoinPath(dir.prefix, e.name))];
        if |out'| >= cap {
          return;
        }
      }
    }
  }

  /**
    Terminates on every finite tree and returns a sorted list of at most `cap` files, none
    below a skipped directory; when it returns fewer than `cap`, they are all there are.
   */
  method WalkFiles(root: seq<Entry>, cap: int) returns (files: seq<string>)
    ensures PathOrder.Sorted(files)
    ensures |files| <= Max(0, cap)
    ensures multiset(files) <= multiset(Files("", root))
    ensures |files| < cap ==> files == PathOrder.Sort(Files("", root))
  {
    var out: seq<string>, stack := [], [Pending("", root)];
    Pushed([], stack[0]);
    assert [] + [stack[0]] == stack;
    while stack != [] && |out| < cap
      invariant |out| <= Max(0, cap)
      invariant multiset(out) + StackFiles(stack) <= multiset(Files("", root))
      invariant |out| < cap ==> multiset(out) + StackFiles(stack) == multiset(Files("", root))
      decreases StackSize(stack)
    {
      var dir := stack[|stack| - 1];
      assert dir.entries[0..] == dir.entries;
      stack, out := ScanDir(dir, stack[..|stack| - 1], out, cap);
    }
    files := PathOrder.Sort(out);
    PathOrder.SortSorts(out);
    PathOrder.SortSorts(Files("", root));
    assert |files| == |multiset(files)| == |multiset(out)| == |out|;
    if |files| < cap {
      PathOrder.SortedUnique(files, PathOrder.Sort(Files("", root)));
    }
  }

  /** In particular no listed file lies below an ignored or hidden directory, `.github` excepted. */
  lemma ListedAvoidsSkipped(entries: seq<Entry>, names: seq<string>, k: nat)
    requires Leads(entries, names) && k < |names| - 1
    ensures names[k] !in IGNORE_DIRS && (names[k] != ".github" ==> !("." <= names[k]))
    decreases k
  {
    if k > 0 {
      var i :| 0 <= i < |entries| && entries[i].Dir? && entries[i].name == names[0] && !Skipped(names[0]) &&
          Leads(entries[i].entries, names[1..]);
      ListedAvoidsSkipped(entries[i].entries, names[1..], k - 1);
    }
  }
}
