/** No commit of a pull request slips between the ranges its reviews handled. */
module ReviewCoverage {
  import opened Basics
  import opened CommitGraph
  import opened ReviewRuns
  import opened StoreHistory
  import opened Workspace

  /** The `i`th event recorded a head of `key`'s pull request as reviewed or gated out. */
  predicate Covers(log: Log, i: nat, key: Key) {
    i < |log| && log[i].Recorded? && (log[i].run.status.Ok? || log[i].run.status.Skipped?) &&
        SamePr(log[i].run.key, key)
  }

  /** The range the `i`th event's run was given. */
  function HandledRange(log: Log, i: nat): Diff
    requires i < |log| && log[i].Recorded? && PhaseOf(log[..i], log[i].token).Based?
  {
    RangeOf(PhaseOf(log[..i], log[i].token), log[i])
  }

  ghost predicate Handles(g: Graph, log: Log, i: nat, commit: Sha)
    requires i < |log| && log[i].Recorded? && PhaseOf(log[..i], log[i].token).Based?
  {
    InRange(g, HandledRange(log, i).from, HandledRange(log, i).to, commit)
  }

  lemma RecordedWasBased(g: Graph, log: Log, i: nat)
    requires Valid(g, log) && i < |log| && log[i].Recorded?
    ensures var p := PhaseOf(log[..i], log[i].token);
            p.Based? && p.key == log[i].run.key && Truthful(log[i].git, g)
  {
    PrefixValid(g, log, i);
  }

  /**
    Every recorded range ends at the recorded head and starts in that head's history: at a merge
    base with the recorded base, or at the baseline. Git need only answer for base and head.
   */
  lemma RangesStartInTheHead(g: Graph, log: Log, i: nat)
    requires Valid(g, log) && i < |log| && log[i].Recorded?
    requires log[i].git.mergeBase(log[i].run.base, log[i].run.key.sha).Some?
    ensures var p, base, head := PhaseOf(log[..i], log[i].token), log[i].run.base, log[i].run.key.sha;
            && p.Based? && HandledRange(log, i).to == head && Reaches(g, head, HandledRange(log, i).from)
            && (IsMergeBase(g, base, head, HandledRange(log, i).from) || p.last == Some(HandledRange(log, i).from))
  {
    RecordedWasBased(g, log, i);
    var e, p := log[i], PhaseOf(log[..i], log[i].token);
    var base, head := e.run.base, e.run.key.sha;
    if p.last.Some? && p.last.value != base {
      if e.git.commitExists(p.last.value) && e.git.isAncestor(p.last.value, head) {
        IncrementalStartsAtBaseline(e.git, g, p.last.value, head, base);
      } else {
        UnusableBaselineStartsAtMergeBase(e.git, g, p.last.value, head, base);
      }
    }
  }

  lemma {:induction false} BaselineWasRead(g: Graph, log: Log, token: Token) returns (i: nat)
    requires Valid(g, log) && PhaseOf(log, token).Based? && PhaseOf(log, token).last.Some?
    ensures i < |log|
    ensures var p := PhaseOf(log, token);
            IsLastReviewed(Replay(log[..i]), p.key.repo, p.key.pr, p.last)
  {
    var init, e := log[..|log| - 1], log[|log| - 1];
    if e.token == token && e.Baseline? {
      i := |log| - 1;
    } else {
      i := BaselineWasRead(g, init, token);
      assert init[..i] == log[..i];
    }
  }

  /** A covered row was put there by an earlier covering record of that very head. */
  lemma CoveredRowWasRecorded(g: Graph, log: Log, n: nat, key: Key) returns (i: nat)
    requires Valid(g, log) && n <= |log| && key in Replay(log[..n]) && IsCovered(Replay(log[..n])[key])
    ensures i < n && Covers(log, i, key) && log[i].run.key == key
  {
    PrefixValid(g, log, n);
    i := RowsComeFromWrites(g, log[..n], key);
    assert log[..n][i] == log[i];
  }

  /**
    Every commit of a head recorded as covered is, at that moment, in the range some covering
    record of the pull request handled, or in the history of a base one of them was given.
    Nothing is assumed about pushes, force-pushes, bases or git's failures.
   */
  lemma {:induction false} CoverageHolds(g: Graph, log: Log, i: nat, commit: Sha) returns (j: nat)
    requires Valid(g, log) && i < |log| && log[i].Recorded? && Covers(log, i, log[i].run.key)
    requires Reaches(g, log[i].run.key.sha, commit)
    ensures j <= i && Covers(log, j, log[i].run.key) && PhaseOf(log[..j], log[j].token).Based?
    ensures Handles(g, log, j, commit) || Reaches(g, log[j].run.base, commit)
    decreases i
  {
    RecordedWasBased(g, log, i);
    var e, p := log[i], PhaseOf(log[..i], log[i].token);
    var d := HandledRange(log, i);
    if !Reaches(g, d.from, commit) {
      j := i;
      return;
    }
    var wanted := if p.last.Some? then p.last.value else e.run.base;
    var mode := if p.last.Some? then Incremental else Full;
    var start := EffectiveFrom(e.git, wanted, e.run.key.sha, mode, Some(e.run.base)).0;
    StartReachesFrom(e.git, g, wanted, e.run.key.sha, mode, Some(e.run.base));
    ReachesTransitive(g, start, d.from, commit);
    if start == e.run.base {
      j := i;
      return;
    }
    PrefixValid(g, log, i);
    var read := BaselineWasRead(g, log[..i], e.token);
    assert log[..i][..read] == log[..read];
    var baseline := Key(p.key.repo, p.key.pr, p.last.value);
    var k := CoveredRowWasRecorded(g, log, read, baseline);
    j := CoverageHolds(g, log, k, commit);
  }

  /** Each base the pull request had when a covering run was recorded is in the history of `base`. */
  ghost predicate BasesAdvancedTo(g: Graph, log: Log, n: nat, key: Key, base: Sha)
    requires n <= |log|
  {
    forall i | 0 <= i < n && Covers(log, i, key) :: Reaches(g, base, log[i].run.base)
  }

  /**
    Safety over every run: whenever a row shows a head as covered and the base has stayed or
    only advanced, every commit of that head outside the base was handled by a covering run.
   */
  lemma CoveredHeadIsFullyHandled(g: Graph, log: Log, n: nat, key: Key, base: Sha, commit: Sha) returns (j: nat)
    requires Valid(g, log) && n <= |log| && key in Replay(log[..n]) && IsCovered(Replay(log[..n])[key])
    requires BasesAdvancedTo(g, log, n, key, base)
    requires InRange(g, base, key.sha, commit)
    ensures j < n && Covers(log, j, key) && PhaseOf(log[..j], log[j].token).Based? && Handles(g, log, j, commit)
  {
    var i := CoveredRowWasRecorded(g, log, n, key);
    j := CoverageHolds(g, log, i, commit);
    if Reaches(g, log[j].run.base, commit) {
      ReachesTransitive(g, base, log[j].run.base, commit);
    }
  }

  /** One pipeline reviewing `key` in full against `base`, from claim to record. */
  function OneFullReview(key: Key, base: Sha, git: Git): Log {
    [Claimed(0, key, false, 0, 0, 0)] + [Baseline(0, false, None, 0)]
      + [Recorded(0, Record(1, key, Ok, base, None, 0, 0), git, 0)]
  }

  lemma OneFullReviewIsARun(g: Graph, key: Key, base: Sha, git: Git)
    requires Truthful(git, g)
    ensures var log := OneFullReview(key, base, git);
            && Valid(g, log) && key in Replay(log) && IsCovered(Replay(log)[key])
            && PhaseOf(log[..2], 0) == Based(key, None)
  {
    var log := OneFullReview(key, base, git);
    var one, two := log[..1], log[..2];
    assert one[..0] == [] && two[..1] == one && log[..|log| - 1] == two;
    assert PhaseOf(one, 0) == Holding(key) && Replay(one) == map[key := Run(0, Running, None, None, 0, None)];
    assert Valid(g, []) && Enabled(g, [], one[0]);
    assert Valid(g, one) && Enabled(g, one, two[1]);
    assert PhaseOf(two, 0) == Advance(PhaseOf(one, 0), two[1]);
    assert Valid(g, two) && PhaseOf(two, 0) == Based(key, None);
  }

  /** Every covering record of the pull request was given one of `bases`. */
  ghost predicate GivenBases(log: Log, key: Key, bases: iset<Sha>) {
    forall i | 0 <= i < |log| && Covers(log, i, key) :: log[i].run.base in bases
  }

  /** Some covering record of the pull request handled `commit`. */
  ghost predicate Handled(g: Graph, log: Log, key: Key, commit: Sha) {
    exists j: nat | j < |log| && Covers(log, j, key) ::
      PhaseOf(log[..j], log[j].token).Based? && Handles(g, log, j, commit)
  }

  /** When git fails, a full review against `past` leaves alone what `past` has. */
  lemma UnsharedCommitUnhandled(g: Graph, key: Key, past: Sha, commit: Sha)
    requires Reaches(g, past, commit)
    ensures !Handled(g, OneFullReview(key, past, FAILING_GIT), key, commit)
  {
    var log := OneFullReview(key, past, FAILING_GIT);
    OneFullReviewIsARun(g, key, past, FAILING_GIT);
    assert HandledRange(log, 2).from == past;
  }

  /** Whenever a run given only `bases` shows `key` as covered, all that `key` adds to `base` was handled. */
  ghost predicate AlwaysHandled(g: Graph, bases: iset<Sha>, key: Key, base: Sha) {
    forall log, commit | Valid(g, log) && GivenBases(log, key, bases)
                         && key in Replay(log) && IsCovered(Replay(log)[key]) && InRange(g, base, key.sha, commit) ::
      Handled(g, log, key, commit)
  }

  /** What a base of the past and the head have in common, `base` has too. */
  ghost predicate BaseHolds(g: Graph, bases: iset<Sha>, head: Sha, base: Sha) {
    forall past, commit | past in bases && Reaches(g, head, commit) && Reaches(g, past, commit) ::
        Reaches(g, base, commit)
  }

  /**
    Exactly which base moves are safe, over all runs, incremental ones included: every run whose
    covering records were given bases among `bases` handles all that a covered head adds to
    `base` if and only if `base` holds whatever those bases share with the head.
   */
  lemma BaseMoveSafeExactly(g: Graph, bases: iset<Sha>, key: Key, base: Sha)
    ensures AlwaysHandled(g, bases, key, base) <==> BaseHolds(g, bases, key.sha, base)
  {
    if BaseHolds(g, bases, key.sha, base) {
      forall log, commit | Valid(g, log) && GivenBases(log, key, bases)
                           && key in Replay(log) && IsCovered(Replay(log)[key]) && InRange(g, base, key.sha, commit)
        ensures Handled(g, log, key, commit)
      {
        assert log[..|log|] == log;
        var i := CoveredRowWasRecorded(g, log, |log|, key);
        var j := CoverageHolds(g, log, i, commit);
      }
    } else {
      var past, commit :| past in bases && Reaches(g, key.sha, commit) && Reaches(g, past, commit) &&
          !Reaches(g, base, commit);
      UnsharedCommitUnhandled(g, key, past, commit);
      assert !AlwaysHandled(g, bases, key, base) by {
        var log := OneFullReview(key, past, FAILING_GIT);
        OneFullReviewIsARun(g, key, past, FAILING_GIT);
        assert GivenBases(log, key, bases);
      }
    }
  }

  /** `key` shows as covered, yet no recorded run handled `commit`, which it adds to `base`. */
  ghost predicate LeavesHole(g: Graph, log: Log, key: Key, base: Sha, commit: Sha) {
    && Valid(g, log) && key in Replay(log) && IsCovered(Replay(log)[key])
    && InRange(g, base, key.sha, commit)
    && forall j | 0 <= j < |log| && log[j].Recorded? && PhaseOf(log[..j], log[j].token).Based? ::
        !Handles(g, log, j, commit)
  }

  const THREE_COMMITS: Graph := map["head" := {"mid"}, "mid" := {"old"}]

  /** A git that knows where the pull request left the base it was reviewed against. */
  const KNOWS_MERGE_BASE :=
    Git(_ => false, (_, _) => false, (a, b) => if a == "mid" && b == "head" then Some("mid") else None)

  lemma MergeBaseIsTrue()
    ensures Truthful(KNOWS_MERGE_BASE, THREE_COMMITS)
    ensures InRange(THREE_COMMITS, "old", "head", "mid") && Reaches(THREE_COMMITS, "mid", "mid")
  {
    var g := THREE_COMMITS;
    ReachesParent(g, "head", "mid");
    ReachesSelf(g, "mid");
    if Reaches(g, "old", "mid") {
      ClosedSetHoldsAncestors(g, {"old"}, "old", "mid");
    }
    forall other | Reaches(g, "mid", other)
      ensures other == "mid" || other == "old"
    {
      ClosedSetHoldsAncestors(g, {"mid", "old"}, "mid", other);
    }
  }

  /** Retargeting a pull request to an older base can leave a commit no review ever handled. */
  lemma RetargetingLeavesAHole()
    ensures var key := Key("o/r", 1, "head");
            LeavesHole(THREE_COMMITS, OneFullReview(key, "mid", KNOWS_MERGE_BASE), key, "old", "mid")
  {
    var g, git := THREE_COMMITS, KNOWS_MERGE_BASE;
    var key := Key("o/r", 1, "head");
    var log := OneFullReview(key, "mid", git);
    MergeBaseIsTrue();
    OneFullReviewIsARun(g, key, "mid", git);
    forall j | 0 <= j < |log| && log[j].Recorded? && PhaseOf(log[..j], log[j].token).Based?
      ensures !Handles(g, log, j, "mid")
    {
      assert j == 2 && HandledRange(log, j).from == "mid";
    }
  }

  /**
    A failed head never anchors a range: when a pipeline takes `last` as its baseline, the last
    thing anyone wrote to that head's row is a covering record, with no later claim or failure.
   */
  lemma FailedHeadNeverAnchors(g: Graph, log: Log, n: nat) returns (i: nat)
    requires Valid(g, log) && n < |log| && log[n].Baseline? && log[n].last.Some?
    ensures var p := PhaseOf(log[..n], log[n].token);
            && p.Holding?
            && LastWrite(log[..n], i, Key(p.key.repo, p.key.pr, log[n].last.value))
            && Covers(log[..n], i, p.key)
  {
    PrefixValid(g, log, n);
    var p := PhaseOf(log[..n], log[n].token);
    i := RowsComeFromWrites(g, log[..n], Key(p.key.repo, p.key.pr, log[n].last.value));
  }
}
