/** Which commit range a prepared checkout diffs. */
module Workspace {
  import opened Basics
  import opened CommitGraph

  datatype Mode = Incremental | Full

  /** What git answers in the checkout; any of the commands may fail. */
  datatype Git = Git(
    commitExists: Sha -> bool,
    isAncestor: (Sha, Sha) -> bool,
    mergeBase: (Sha, Sha) -> Option<Sha>
  )

  /** A git that answers nothing. */
  const FAILING_GIT := Git(_ => false, (_, _) => false, (_, _) => None)

  datatype Diff = Diff(mode: Mode, from: Sha, to: Sha)

  ghost predicate IsMergeBase(g: Graph, a: Sha, b: Sha, m: Sha) {
    && Reaches(g, a, m) && Reaches(g, b, m)
    && forall other | Reaches(g, a, other) && Reaches(g, b, other) && Reaches(g, other, m) :: other == m
  }

  /** Git may fail, but what it does answer is true of the graph. */
  ghost predicate Truthful(git: Git, g: Graph) {
    && (forall a, d | git.isAncestor(a, d) :: Reaches(g, d, a))
    && (forall a, b | git.mergeBase(a, b).Some? :: IsMergeBase(g, a, b, git.mergeBase(a, b).value))
  }

  /** Guard an incremental start point against a force-push: fall back unless it is in head's history. */
  function EffectiveFrom(git: Git, from: Sha, head: Sha, mode: Mode, fallback: Option<Sha>): (Sha, Mode) {
    if mode != Incremental || fallback.None? || from == fallback.value then (from, mode)
    else if git.commitExists(from) && git.isAncestor(from, head) then (from, mode)
    else (fallback.value, Full)
  }

  function MergeBaseSafe(git: Git, a: Sha, b: Sha): Sha {
    var m := git.mergeBase(a, b);
    if m.Some? then m.value else a
  }

  function Prepare(git: Git, from: Sha, head: Sha, mode: Mode, fallback: Option<Sha>): Diff {
    var (start, mode') := EffectiveFrom(git, from, head, mode, fallback);
    Diff(mode', MergeBaseSafe(git, start, head), head)
  }

  lemma StartReachesFrom(git: Git, g: Graph, from: Sha, head: Sha, mode: Mode, fallback: Option<Sha>)
    requires Truthful(git, g)
    ensures var d := Prepare(git, from, head, mode, fallback);
            Reaches(g, EffectiveFrom(git, from, head, mode, fallback).0, d.from)
  {
    ReachesSelf(g, EffectiveFrom(git, from, head, mode, fallback).0);
  }

  /** The range diffed contains everything head adds to the start point that was chosen. */
  lemma RangeHoldsStartToHead(git: Git, g: Graph, from: Sha, head: Sha, mode: Mode, fallback: Option<Sha>, commit: Sha)
    requires Truthful(git, g)
    requires InRange(g, EffectiveFrom(git, from, head, mode, fallback).0, head, commit)
    ensures InRange(g, Prepare(git, from, head, mode, fallback).from, head, commit)
  {
    StartReachesFrom(git, g, from, head, mode, fallback);
    var m := Prepare(git, from, head, mode, fallback).from;
    if Reaches(g, m, commit) {
      ReachesTransitive(g, EffectiveFrom(git, from, head, mode, fallback).0, m, commit);
    }
  }

  /** A full diff starts at a merge base of the base and the head, so at a commit the head has. */
  lemma FullRangeStartsAtMergeBase(git: Git, g: Graph, base: Sha, head: Sha, fallback: Option<Sha>)
    requires Truthful(git, g) && git.mergeBase(base, head).Some?
    ensures var d := Prepare(git, base, head, Full, fallback);
            d.mode == Full && d.to == head && IsMergeBase(g, base, head, d.from) && Reaches(g, head, d.from)
  {
  }

  /** What the base gained since the pull request left it is not in a full diff, nor is anything else the base has. */
  lemma FullRangeIsExact(git: Git, g: Graph, base: Sha, head: Sha, fallback: Option<Sha>, commit: Sha)
    requires Truthful(git, g) && git.mergeBase(base, head).Some?
    requires forall shared | Reaches(g, base, shared) && Reaches(g, head, shared) ::
               Reaches(g, git.mergeBase(base, head).value, shared)
    ensures InRange(g, Prepare(git, base, head, Full, fallback).from, head, commit) <==> InRange(g, base, head, commit)
  {
    FullRangeStartsAtMergeBase(git, g, base, head, fallback);
    var m := Prepare(git, base, head, Full, fallback).from;
    if Reaches(g, m, commit) {
      ReachesTransitive(g, base, m, commit);
    }
  }

  /** A baseline that is gone or not in the head's history is not used: the diff is full, from a merge base. */
  lemma UnusableBaselineStartsAtMergeBase(git: Git, g: Graph, baseline: Sha, head: Sha, base: Sha)
    requires Truthful(git, g) && git.mergeBase(base, head).Some? && baseline != base
    requires !git.commitExists(baseline) || !git.isAncestor(baseline, head)
    ensures var d := Prepare(git, baseline, head, Incremental, Some(base));
            d.mode == Full && d.to == head && IsMergeBase(g, base, head, d.from) && Reaches(g, head, d.from)
  {
  }

  /** After a force-push away from the baseline, the whole of `base..head` is diffed. */
  lemma ForcePushFallsBack(git: Git, g: Graph, baseline: Sha, head: Sha, base: Sha)
    requires Truthful(git, g) && !Reaches(g, head, baseline) && baseline != base
    ensures Prepare(git, baseline, head, Incremental, Some(base)).mode == Full
    ensures forall c | InRange(g, base, head, c) ::
        InRange(g, Prepare(git, baseline, head, Incremental, Some(base)).from, head, c)
  {
    forall c | InRange(g, base, head, c)
      ensures InRange(g, Prepare(git, baseline, head, Incremental, Some(base)).from, head, c)
    {
      RangeHoldsStartToHead(git, g, baseline, head, Incremental, Some(base), c);
    }
  }

  /** An incremental diff starts exactly at its baseline: nothing before it is reviewed again. */
  lemma IncrementalStartsAtBaseline(git: Git, g: Graph, baseline: Sha, head: Sha, base: Sha)
    requires Truthful(git, g) && baseline != base
    requires git.commitExists(baseline) && git.isAncestor(baseline, head)
    ensures Prepare(git, baseline, head, Incremental, Some(base)) == Diff(Incremental, baseline, head)
  {
    var m := git.mergeBase(baseline, head);
    ReachesSelf(g, baseline);
    if m.Some? {
      assert Reaches(g, baseline, m.value) && Reaches(g, head, baseline);
    }
  }
}
