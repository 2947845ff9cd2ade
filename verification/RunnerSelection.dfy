/** Choosing the review client, and the up-front check that makes the choice safe. */
module RunnerSelection {
  import opened Basics
  import opened Text

  datatype Profile = Profile(runner: string, model: Option<string>, effort: Option<string>)

  type Profiles = map<string, Profile>

  datatype ChangeType = Feature | Bugfix | Refactor | Migration | Docs | Deps | Config | Test | Infra | Other

  datatype SizeClass = Tiny | Small | Medium | Large | Huge

  datatype RiskLevel = Low | Medium | High

  datatype Severity = Info | Low | Medium | High | Critical

  /** Conditions of an override; an absent one accepts any signal. */
  datatype When = When(changeType: Option<ChangeType>, size: Option<SizeClass>, risk: Option<RiskLevel>)

  datatype Override = Override(when: When, use: string, model: Option<string>, effort: Option<string>)

  datatype RunnerBlock = RunnerBlock(
    profile: Option<string>,
    default: string,
    model: Option<string>,
    effort: Option<string>,
    overrides: seq<Override>
  )

  datatype Signals = Signals(changeType: ChangeType, size: SizeClass, risk: RiskLevel)

  datatype Client = Client(runner: string, model: Option<string>, effort: Option<string>)

  datatype Problem =
    | UnknownProfile(profile: string)
    | UnknownRunner(runner: string)
    | UnknownOverrideRunner(runner: string)

  /** The repository's active client; a profile name supersedes the inline block. `None`: it throws. */
  function ResolveRunnerProfile(block: RunnerBlock, profiles: Profiles): Option<Client> {
    match block.profile
    case Some(name) =>
      if name !in profiles then None
      else Some(Client(profiles[name].runner, profiles[name].model, profiles[name].effort))
    case None => Some(Client(block.default, block.model, block.effort))
  }

  /** Every client the block names is registered. */
  ghost predicate Runnable(block: RunnerBlock, profiles: Profiles, registered: seq<string>) {
    && ResolveRunnerProfile(block, profiles).Some?
    && ResolveRunnerProfile(block, profiles).value.runner in registered
    && forall o | o in block.overrides :: o.use in registered
  }

  method RunnerConfigProblem(
    block: RunnerBlock, profiles: Profiles, registered: seq<string>
  ) returns (problem: Option<Problem>)
    ensures problem.None? <==> Runnable(block, profiles, registered)
    ensures problem.Some? ==>
              match problem.value
              case UnknownProfile(name) => block.profile == Some(name) && name !in profiles
              case UnknownRunner(runner) => runner !in registered && ResolveRunnerProfile(block, profiles).Some?
                                            && ResolveRunnerProfile(block, profiles).value.runner == runner
              case UnknownOverrideRunner(runner) => runner !in registered && exists o | o in block.overrides ::
                  o.use == runner
  {
    var active := ResolveRunnerProfile(block, profiles);
    if active.None? {
      return Some(UnknownProfile(block.profile.value));
    }
    if active.value.runner !in registered {
      return Some(UnknownRunner(active.value.runner));
    }
    for i := 0 to |block.overrides|
      invariant forall k | 0 <= k < i :: block.overrides[k].use in registered
    {
      if block.overrides[i].use !in registered {
        return Some(UnknownOverrideRunner(block.overrides[i].use));
      }
    }
    problem := None;
  }

  // ---- the signals of a change ---------------------------------------------------------------------

  datatype ChangedFile = ChangedFile(path: string, additions: nat, deletions: nat)

  predicate EndsWith(s: string, end: string) {
    |end| <= |s| && s[|s| - |end|..] == end
  }

  /** A migration directory on the way, in any letter case, or a SQL file. */
  predicate IsMigration(path: string) {
    var p := "/" + Lower(path);
    Contains(p, "/migration/") || Contains(p, "/migrations/") || EndsWith(path, ".sql")
  }

  predicate IsLockFile(path: string) {
    var p := "/" + path;
    EndsWith(p, "/package-lock.json") || EndsWith(p, "/pnpm-lock.yaml") || EndsWith(p, "/yarn.lock")
  }

  function InferChangeType(files: seq<ChangedFile>): ChangeType {
    if exists f | f in files :: IsMigration(f.path) then Migration
    else if files != [] && forall f | f in files :: EndsWith(f.path, ".md") then Docs
    else if exists f | f in files :: IsLockFile(f.path) then Deps
    else Other
  }

  function Churn(files: seq<ChangedFile>): nat {
    if files == [] then 0
    else
      var last := files[|files| - 1];
      Churn(files[..|files| - 1]) + last.additions + last.deletions
  }

  function SizeClassOf(changed: nat): SizeClass {
    if changed <= 5 then Tiny
    else if changed <= 50 then Small
    else if changed <= 250 then SizeClass.Medium
    else if changed <= 1000 then Large
    else Huge
  }

  /** The severities are those of the invariants the change must respect; one may have none. */
  function RiskOf(severities: seq<Option<Severity>>): RiskLevel {
    if Some(Critical) in severities || Some(Severity.High) in severities then RiskLevel.High
    else if severities != [] then RiskLevel.Medium
    else RiskLevel.Low
  }

  function ChangeSignals(files: seq<ChangedFile>, severities: seq<Option<Severity>>): Signals {
    Signals(InferChangeType(files), SizeClassOf(Churn(files)), RiskOf(severities))
  }

  /** The directory `dir`, named with its slash, begins at `k`, in any letter case. */
  predicate Under(path: string, dir: string, k: nat) {
    k + |dir| <= |path| && (k == 0 || path[k - 1] == '/') && Lower(path[k..k + |dir|]) == dir
  }

  lemma SegmentOccurs(path: string, dir: string, k: nat)
    ensures OccursAt("/" + Lower(path), "/" + dir, k) <==> Under(path, dir, k)
  {
    var p, part := "/" + Lower(path), "/" + dir;
    if k + |dir| <= |path| {
      assert p[k..k + |part|] == [p[k]] + Lower(path[k..k + |dir|]);
      assert k > 0 ==> p[k] == Lower(path)[k - 1];
      if p[k..k + |part|] == part {
        assert p[k..k + |part|][1..] == part[1..];
      }
    }
  }

  lemma UnderExactly(path: string, dir: string)
    ensures Contains("/" + Lower(path), "/" + dir) <==> exists k: nat :: Under(path, dir, k)
  {
    forall k: nat
      ensures OccursAt("/" + Lower(path), "/" + dir, k) <==> Under(path, dir, k)
    {
      SegmentOccurs(path, dir, k);
    }
    if k: nat :| Under(path, dir, k) {
      assert OccursAt("/" + Lower(path), "/" + dir, k);
    }
  }

  /** A path below a directory called `migration` or `migrations`, in any letter case, or of a SQL file. */
  ghost predicate Migrates(path: string) {
    || (exists k: nat :: Under(path, "migration/", k))
    || (exists k: nat :: Under(path, "migrations/", k))
    || (|path| >= 4 && path[|path| - 4..] == ".sql")
  }

  lemma MigratesExactly(path: string)
    ensures IsMigration(path) <==> Migrates(path)
  {
    UnderExactly(path, "migration/");
    UnderExactly(path, "migrations/");
    assert "/" + "migration/" == "/migration/" && "/" + "migrations/" == "/migrations/";
  }

  /** The last segment of the path is `name`. */
  predicate Named(path: string, name: string) {
    |name| <= |path| && path[|path| - |name|..] == name && (|name| == |path| || path[|path| - |name| - 1] == '/')
  }

  lemma NamedExactly(path: string, name: string)
    ensures EndsWith("/" + path, "/" + name) <==> Named(path, name)
  {
    var p, end := "/" + path, "/" + name;
    if |name| <= |path| {
      var k := |p| - |end|;
      assert p[k..] == [p[k]] + path[|path| - |name|..];
      if p[k..] == end {
        assert p[k..][1..] == end[1..] == name && p[k..][0] == '/';
      }
    }
  }

  predicate Locks(path: string) {
    Named(path, "package-lock.json") || Named(path, "pnpm-lock.yaml") || Named(path, "yarn.lock")
  }

  lemma LocksExactly(path: string)
    ensures IsLockFile(path) <==> Locks(path)
  {
    NamedExactly(path, "package-lock.json");
    NamedExactly(path, "pnpm-lock.yaml");
    NamedExactly(path, "yarn.lock");
    assert "/" + "package-lock.json" == "/package-lock.json";
    assert "/" + "pnpm-lock.yaml" == "/pnpm-lock.yaml" && "/" + "yarn.lock" == "/yarn.lock";
  }

  /** Every file is Markdown, and there is one. */
  predicate MarkdownOnly(files: seq<ChangedFile>) {
    files != [] && forall f | f in files :: |f.path| >= 3 && f.path[|f.path| - 3..] == ".md"
  }

  lemma MarkdownExactly(path: string)
    ensures EndsWith(path, ".md") <==> |path| >= 3 && path[|path| - 3..] == ".md"
  {
  }

  /** One migration makes a migration; otherwise Markdown only is documentation, and one lock file dependencies. */
  lemma ChangeTypeExactly(files: seq<ChangedFile>)
    ensures var migrates, locks := exists f | f in files :: Migrates(f.path), exists f | f in files :: Locks(f.path);
            InferChangeType(files)
            == if migrates then Migration else if MarkdownOnly(files) then Docs else if locks then Deps else Other
  {
    forall f | f in files
      ensures IsMigration(f.path) <==> Migrates(f.path)
      ensures IsLockFile(f.path) <==> Locks(f.path)
      ensures EndsWith(f.path, ".md") <==> |f.path| >= 3 && f.path[|f.path| - 3..] == ".md"
    {
      MigratesExactly(f.path);
      LocksExactly(f.path);
      MarkdownExactly(f.path);
    }
  }

  /** One grave invariant makes a high risk, any other invariant a medium one, none a low one. */
  lemma RiskExactly(severities: seq<Option<Severity>>)
    ensures RiskOf(severities).High? <==> exists s | s in severities :: s in {Some(Severity.High), Some(Critical)}
    ensures RiskOf(severities).Low? <==> |severities| == 0
  {
  }

  /** The size class is decided by all lines added and removed, in any order of the files. */
  lemma {:induction false} ChurnAppends(a: seq<ChangedFile>, b: seq<ChangedFile>)
    ensures Churn(a + b) == Churn(a) + Churn(b)
  {
    if b == [] {
      assert a + b == a;
    } else {
      ChurnAppends(a, b[..|b| - 1]);
      assert (a + b)[..|a + b| - 1] == a + b[..|b| - 1];
    }
  }

  lemma SizeExactly(changed: nat)
    ensures var s := SizeClassOf(changed);
            && (s.Tiny? <==> changed < 6) && (s.Small? <==> 6 <= changed < 51)
            && (s.Medium? <==> 51 <= changed < 251) && (s.Large? <==> 251 <= changed < 1001)
  {
  }

  /** The change types that are ever inferred. */
  predicate Inferable(s: Signals) {
    s.changeType in {Migration, Docs, Deps, Other}
  }

  function SamplePath(changeType: ChangeType): string {
    match changeType
    case Migration => "a.sql"
    case Docs => "a.md"
    case Deps => "yarn.lock"
    case _ => "a"
  }

  function SampleChurn(size: SizeClass): nat {
    match size
    case Tiny => 0
    case Small => 6
    case Medium => 51
    case Large => 251
    case Huge => 1001
  }

  function SampleSeverities(risk: RiskLevel): seq<Option<Severity>> {
    match risk
    case Low => []
    case Medium => [None]
    case High => [Some(Critical)]
  }

  lemma ShortIsNoMigration(path: string)
    requires |path| < 10
    ensures IsMigration(path) <==> EndsWith(path, ".sql")
  {
  }

  lemma InferOne(file: ChangedFile)
    ensures InferChangeType([file])
         == if IsMigration(file.path) then Migration
            else if EndsWith(file.path, ".md") then Docs
            else if IsLockFile(file.path) then Deps
            else Other
  {
    assert [file][0] in [file];
  }

  lemma EndsOtherwise(path: string, end: string)
    requires |path| > 0 && |end| > 0 && path[|path| - 1] != end[|end| - 1]
    ensures !EndsWith(path, end)
  {
    assert |end| <= |path| ==> path[|path| - |end|..][|end| - 1] == path[|path| - 1];
  }

  lemma SampleEndings()
    ensures EndsWith("a.sql", ".sql")
    ensures !EndsWith("a.md", ".sql") && EndsWith("a.md", ".md")
    ensures !EndsWith("yarn.lock", ".sql") && !EndsWith("yarn.lock", ".md") && IsLockFile("yarn.lock")
    ensures !EndsWith("a", ".sql") && !EndsWith("a", ".md") && !IsLockFile("a")
  {
    assert "a.sql"[1..] == ".sql" && "a.md"[1..] == ".md" && "/" + "yarn.lock" == "/yarn.lock";
    EndsOtherwise("a.md", ".sql");
    EndsOtherwise("yarn.lock", ".sql");
    EndsOtherwise("yarn.lock", ".md");
  }

  lemma SamplePathTells(changeType: ChangeType, n: nat)
    requires changeType in {Migration, Docs, Deps, Other}
    ensures InferChangeType([ChangedFile(SamplePath(changeType), n, 0)]) == changeType
  {
    ShortIsNoMigration(SamplePath(changeType));
    InferOne(ChangedFile(SamplePath(changeType), n, 0));
    SampleEndings();
  }

  lemma SampleSizesTell(size: SizeClass, risk: RiskLevel)
    ensures SizeClassOf(SampleChurn(size)) == size && RiskOf(SampleSeverities(risk)) == risk
  {
  }

  lemma ChurnOfOne(file: ChangedFile)
    ensures Churn([file]) == file.additions + file.deletions
  {
    assert [file][..0] == [];
  }

  /** Exactly the inferable signals are those of some change. */
  lemma SignalsExactly(s: Signals)
    ensures Inferable(s) <==> exists files, severities :: ChangeSignals(files, severities) == s
  {
    if Inferable(s) {
      var files := [ChangedFile(SamplePath(s.changeType), SampleChurn(s.size), 0)];
      SamplePathTells(s.changeType, SampleChurn(s.size));
      ChurnOfOne(files[0]);
      SampleSizesTell(s.size, s.risk);
      assert ChangeSignals(files, SampleSeverities(s.risk)) == s;
    }
  }

  // ---- selection -------------------------------------------------------------------------------------

  predicate WhenMatches(when: When, s: Signals) {
    && (when.changeType.Some? ==> when.changeType.value == s.changeType)
    && (when.size.Some? ==> when.size.value == s.size)
    && (when.risk.Some? ==> when.risk.value == s.risk)
  }

  /** First matching override, else the active client. `None`: resolving it throws. */
  function Select(block: RunnerBlock, s: Signals, profiles: Profiles): Option<Client>
    decreases |block.overrides|
  {
    if block.overrides == [] then ResolveRunnerProfile(block, profiles)
    else
      var o := block.overrides[0];
      if WhenMatches(o.when, s) then Some(Client(o.use, o.model, o.effort))
      else Select(block.(overrides := block.overrides[1..]), s, profiles)
  }

  /** Selection succeeds and the registry knows the runner. */
  ghost predicate SelectsRegistered(block: RunnerBlock, s: Signals, profiles: Profiles, registered: seq<string>) {
    Select(block, s, profiles).Some? && Select(block, s, profiles).value.runner in registered
  }

  /** The check is sound: after it passes, no change can make selection fail. */
  lemma {:induction false} CheckedSelectionNeverFails(
    block: RunnerBlock, profiles: Profiles, registered: seq<string>, s: Signals
  )
    requires Runnable(block, profiles, registered)
    ensures SelectsRegistered(block, s, profiles, registered)
    decreases |block.overrides|
  {
    if block.overrides != [] && !WhenMatches(block.overrides[0].when, s) {
      CheckedSelectionNeverFails(block.(overrides := block.overrides[1..]), profiles, registered, s);
    }
  }

  /** `s` is decided by the `i`th override, or by the active client when `i` is past the last. */
  ghost predicate DecidedBy(block: RunnerBlock, s: Signals, i: nat) {
    && i <= |block.overrides|
    && (forall k | 0 <= k < i :: !WhenMatches(block.overrides[k].when, s))
    && (i < |block.overrides| ==> WhenMatches(block.overrides[i].when, s))
  }

  lemma {:induction false} Decider(block: RunnerBlock, profiles: Profiles, s: Signals) returns (i: nat)
    ensures DecidedBy(block, s, i)
    ensures Select(block, s, profiles)
         == if i < |block.overrides|
            then Some(Client(block.overrides[i].use, block.overrides[i].model, block.overrides[i].effort))
            else ResolveRunnerProfile(block, profiles)
    decreases |block.overrides|
  {
    i := 0;
    if block.overrides != [] && !WhenMatches(block.overrides[0].when, s) {
      var rest := block.(overrides := block.overrides[1..]);
      i := Decider(rest, profiles, s);
      i := i + 1;
    }
  }

  /** The override's conditions hold, an absent one always does. */
  predicate Meets(o: Override, s: Signals) {
    o.when.changeType in {None, Some(s.changeType)} && o.when.size in {None, Some(s.size)}
    && o.when.risk in {None, Some(s.risk)}
  }

  lemma MeetsExactly(o: Override, s: Signals)
    ensures Meets(o, s) <==> WhenMatches(o.when, s)
  {
    assert o.when.changeType.Some? ==> o.when.changeType == Some(o.when.changeType.value);
    assert o.when.size.Some? ==> o.when.size == Some(o.when.size.value);
    assert o.when.risk.Some? ==> o.when.risk == Some(o.when.risk.value);
  }

  /** The first override whose conditions hold decides alone; without one, the named profile or the inline block. */
  lemma SelectExactly(block: RunnerBlock, s: Signals, profiles: Profiles) returns (i: nat)
    ensures i <= |block.overrides| && forall k | 0 <= k < i :: !Meets(block.overrides[k], s)
    ensures if i < |block.overrides| then
              var o := block.overrides[i];
              Meets(o, s) && Select(block, s, profiles) == Some(Client(o.use, o.model, o.effort))
            else
              match block.profile
              case None => Select(block, s, profiles) == Some(Client(block.default, block.model, block.effort))
              case Some(name) =>
                if name in profiles then
                  var p := profiles[name];
                  Select(block, s, profiles) == Some(Client(p.runner, p.model, p.effort))
                else Select(block, s, profiles).None?
  {
    i := Decider(block, profiles, s);
    forall k | 0 <= k < |block.overrides|
      ensures Meets(block.overrides[k], s) <==> WhenMatches(block.overrides[k].when, s)
    {
      MeetsExactly(block.overrides[k], s);
    }
  }

  /** The choice that decides some signals: an override's runner, or the active client. */
  ghost predicate ChoiceRegistered(block: RunnerBlock, profiles: Profiles, registered: seq<string>, i: nat)
    requires i <= |block.overrides|
  {
    if i < |block.overrides| then block.overrides[i].use in registered
    else ResolveRunnerProfile(block, profiles).Some? && ResolveRunnerProfile(block, profiles).value.runner in registered
  }

  /** No change makes selection fail. */
  ghost predicate NeverFails(block: RunnerBlock, profiles: Profiles, registered: seq<string>) {
    forall files, severities :: SelectsRegistered(block, ChangeSignals(files, severities), profiles, registered)
  }

  /**
    What selection itself needs is exactly that every choice some inferable signals reach is
    registered; the check asks it of unreachable choices as well.
   */
  lemma SelectionNeedsReachableChoices(block: RunnerBlock, profiles: Profiles, registered: seq<string>)
    ensures NeverFails(block, profiles, registered)
       <==> forall s, i | Inferable(s) && DecidedBy(block, s, i) :: ChoiceRegistered(block, profiles, registered, i)
  {
    forall s, i | DecidedBy(block, s, i)
      ensures SelectsRegistered(block, s, profiles, registered) <==> ChoiceRegistered(block, profiles, registered, i)
    {
      var j := Decider(block, profiles, s);
      assert i == j;
    }
    if NeverFails(block, profiles, registered) {
      forall s, i | Inferable(s) && DecidedBy(block, s, i)
        ensures ChoiceRegistered(block, profiles, registered, i)
      {
        SignalsExactly(s);
        var files, severities :| ChangeSignals(files, severities) == s;
        assert SelectsRegistered(block, ChangeSignals(files, severities), profiles, registered);
      }
    } else {
      var files, severities :| !SelectsRegistered(block, ChangeSignals(files, severities), profiles, registered);
      var s := ChangeSignals(files, severities);
      SignalsExactly(s);
      var j := Decider(block, profiles, s);
      assert !ChoiceRegistered(block, profiles, registered, j);
    }
  }

  /** The check is stricter than selection: an override no change reaches may name an unknown runner. */
  lemma UnreachableOverrideIsReported(known: string, unknown: string)
    requires known != unknown
    ensures var never := Override(When(Some(Feature), None, None), unknown, None, None);
            var block := RunnerBlock(None, known, None, None, [never]);
            !Runnable(block, map[], [known]) && NeverFails(block, map[], [known])
  {
    var never := Override(When(Some(Feature), None, None), unknown, None, None);
    var block := RunnerBlock(None, known, None, None, [never]);
    assert block.overrides[0] in block.overrides;
    forall files, severities
      ensures SelectsRegistered(block, ChangeSignals(files, severities), map[], [known])
    {
      var s := ChangeSignals(files, severities);
      SignalsExactly(s);
      var rest := block.(overrides := block.overrides[1..]);
      assert rest.overrides == [] && Select(rest, s, map[]) == Some(Client(known, None, None));
    }
  }
}
