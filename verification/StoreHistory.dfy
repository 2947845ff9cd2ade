/**
  Runs of the review store. A run is the log of what any number of pipelines did to the table,
  interleaved in any way; a pipeline is named by its claim's owner token. A pipeline that
  crashes simply contributes no further events.
 */
module StoreHistory {
  import opened Basics
  import opened CommitGraph
  import opened ReviewRuns
  import opened Workspace

  datatype Event =
    // a successful claim; `at` decides staleness, `later` becomes the start time
    | Claimed(token: Token, key: Key, force: bool, staleMs: int, at: Time, later: Time)
    // the diff baseline chosen for the claimed head
    | Baseline(token: Token, incremental: bool, last: Option<Sha>, at: Time)
    // a terminal row for a range prepared with git's answers
    | Recorded(token: Token, run: Record, git: Git, at: Time)
    | Released(token: Token, key: Key, at: Time)

  type Log = seq<Event>

  /** How far one pipeline has come. */
  datatype Phase =
    | Unused
    | Holding(key: Key)
    | Based(key: Key, last: Option<Sha>)
    | Finished(key: Key)
    | Closed

  function Ends(e: Event): Time {
    if e.Claimed? then e.later else e.at
  }

  function Apply(runs: Runs, e: Event): Runs {
    match e
    case Claimed(token, key, force, staleMs, at, later) => Claim(runs, key, token, force, staleMs, at, later)
    case Baseline(_, _, _, _) => runs
    case Recorded(_, run, _, _) => Finalize(runs, run)
    case Released(token, key, _) => Release(runs, key, token)
  }

  function Replay(log: Log): Runs {
    if log == [] then map[] else Apply(Replay(log[..|log| - 1]), log[|log| - 1])
  }

  function Advance(p: Phase, e: Event): Phase {
    match e
    case Claimed(_, key, _, _, _, _) => Holding(key)
    case Baseline(_, _, last, _) => if p.Holding? then Based(p.key, last) else p
    case Recorded(_, run, _, _) => Finished(run.key)
    case Released(_, _, _) => Closed
  }

  function PhaseOf(log: Log, token: Token): Phase {
    if log == [] then Unused
    else
      var e, before := log[|log| - 1], PhaseOf(log[..|log| - 1], token);
      if e.token == token then Advance(before, e) else before
  }

  /** The range handled by a recorded run: base when there was no baseline, else the baseline. */
  function RangeOf(p: Phase, e: Event): Diff
    requires p.Based? && e.Recorded?
  {
    var from := if p.last.Some? then p.last.value else e.run.base;
    Prepare(e.git, from, e.run.key.sha, if p.last.Some? then Incremental else Full, Some(e.run.base))
  }

  /** A pipeline records the head it chose a baseline for, with a terminal status. */
  ghost predicate MayRecord(g: Graph, p: Phase, run: Record, git: Git) {
    p.Based? && run.key == p.key && !run.status.Running? && Truthful(git, g)
  }

  /** A pipeline releases the head it claimed, at any later point. */
  predicate MayRelease(p: Phase, key: Key) {
    (p.Holding? || p.Based? || p.Finished?) && key == p.key
  }

  /** What the pipeline's code and the table guarantee about the next event. */
  ghost predicate Enabled(g: Graph, log: Log, e: Event) {
    var runs, p := Replay(log), PhaseOf(log, e.token);
    && (log != [] ==> Ends(log[|log| - 1]) <= e.at)
    && e.at <= Ends(e)
    && match e
       case Claimed(_, key, force, staleMs, at, _) => p.Unused? && Claimable(runs, key, force, staleMs, at)
       case Baseline(_, incremental, last, _) =>
         && p.Holding?
         && if incremental then IsLastReviewed(runs, p.key.repo, p.key.pr, last) else last.None?
       case Recorded(_, run, git, _) => MayRecord(g, p, run, git)
       case Released(_, key, _) => MayRelease(p, key)
  }

  /** A run grows by one enabled event at a time. */
  ghost predicate Valid(g: Graph, log: Log)
    decreases |log|, 1
  {
    log == [] || Grown(g, log)
  }

  /** A run's last event. */
  ghost predicate Grown(g: Graph, log: Log)
    requires log != []
    decreases |log|, 0
  {
    Valid(g, log[..|log| - 1]) && Enabled(g, log[..|log| - 1], log[|log| - 1])
  }

  lemma Appended(g: Graph, log: Log, e: Event)
    ensures Replay(log + [e]) == Apply(Replay(log), e)
    ensures PhaseOf(log + [e], e.token) == Advance(PhaseOf(log, e.token), e)
    ensures Valid(g, log) && Enabled(g, log, e) ==> Valid(g, log + [e])
  {
    assert (log + [e])[..|log + [e]| - 1] == log;
    if Valid(g, log) && Enabled(g, log, e) {
      assert Grown(g, log + [e]);
    }
  }

  lemma {:induction false} PrefixValid(g: Graph, log: Log, n: nat)
    requires Valid(g, log) && n <= |log|
    ensures Valid(g, log[..n])
    ensures n < |log| ==> Enabled(g, log[..n], log[n]) && Replay(log[..n + 1]) == Apply(Replay(log[..n]), log[n])
  {
    if n < |log| {
      assert log[..n + 1][..n] == log[..n];
      if n + 1 < |log| {
        var init := log[..|log| - 1];
        PrefixValid(g, init, n);
        assert init[..n] == log[..n] && init[..n + 1] == log[..n + 1];
      } else {
        assert log[..n + 1] == log;
      }
    } else {
      assert log[..n] == log;
    }
  }

  lemma {:induction false} TimesOrdered(g: Graph, log: Log, i: nat, j: nat)
    requires Valid(g, log) && i < j < |log|
    ensures Ends(log[i]) <= log[j].at <= Ends(log[j])
  {
    PrefixValid(g, log, j);
    assert log[..j][|log[..j]| - 1] == log[j - 1];
    if i == j - 1 {
    } else {
      TimesOrdered(g, log, i, j - 1);
    }
  }

  /** Events of other pipelines leave a pipeline's phase alone. */
  lemma {:induction false} PhaseFramed(log: Log, more: Log, token: Token)
    requires log <= more && forall i | |log| <= i < |more| :: more[i].token != token
    ensures PhaseOf(more, token) == PhaseOf(log, token)
  {
    if log == more {
    } else {
      PhaseFramed(log, more[..|more| - 1], token);
    }
  }

  // ---- ownership -------------------------------------------------------------------------------

  /** A running row belongs to a pipeline that has neither recorded nor released. */
  lemma {:induction false} RunningRowsAreHeld(g: Graph, log: Log, key: Key)
    requires Valid(g, log) && key in Replay(log) && Replay(log)[key].status.Running?
    ensures var p := PhaseOf(log, Replay(log)[key].id);
            (p.Holding? || p.Based?) && p.key == key
  {
    var init, e := log[..|log| - 1], log[|log| - 1];
    if key in Replay(init) && Replay(init)[key].status.Running? {
      RunningRowsAreHeld(g, init, key);
    }
  }

  /** No running row carries the token of a pipeline that has recorded, released or not claimed. */
  lemma NoStrandedClaim(g: Graph, log: Log, token: Token)
    requires Valid(g, log)
    requires var p := PhaseOf(log, token); p.Unused? || p.Finished? || p.Closed?
    ensures forall key | key in Replay(log) :: !Owns(Replay(log), key, token)
  {
    forall key | key in Replay(log)
      ensures !Owns(Replay(log), key, token)
    {
      if Owns(Replay(log), key, token) {
        RunningRowsAreHeld(g, log, key);
      }
    }
  }

  /** `e` writes the row of `key`. */
  predicate Writes(e: Event, key: Key) {
    (e.Claimed? && e.key == key) || (e.Recorded? && e.run.key == key)
  }

  ghost predicate LastWrite(log: Log, i: nat, key: Key) {
    i < |log| && Writes(log[i], key) && forall k | i < k < |log| :: !Writes(log[k], key)
  }

  /** Every row is as its last writer left it: a claim by its owner, or some terminal record. */
  lemma {:induction false} RowsComeFromWrites(g: Graph, log: Log, key: Key) returns (i: nat)
    requires Valid(g, log) && key in Replay(log)
    ensures LastWrite(log, i, key)
    ensures var r := Replay(log)[key];
            if r.status.Running? then log[i].Claimed? && r.id == log[i].token && r.startedAt == log[i].later
            else log[i].Recorded? && r.status == log[i].run.status
  {
    var init, e := log[..|log| - 1], log[|log| - 1];
    if Writes(e, key) {
      i := |log| - 1;
    } else {
      i := RowsComeFromWrites(g, init, key);
      assert init[i] == log[i];
    }
  }

  /** The row of `key` was put there at `o`, by a claim or by a record that met no row, and was not claimed since. */
  ghost predicate Origin(log: Log, o: nat, key: Key) {
    && o < |log| && Writes(log[o], key) && (log[o].Recorded? ==> key !in Replay(log[..o]))
    && forall k | o < k < |log| :: !(log[k].Claimed? && log[k].key == key) && key in Replay(log[..k])
  }

  /** A row that `origin` put there and that `last` wrote last. */
  predicate Shows(r: Run, origin: Event, last: Event) {
    && (match origin
        case Claimed(token, _, _, _, _, later) => r.id == token && r.startedAt == later
        case Recorded(_, run, _, _) => r.id == run.id && r.startedAt == run.startedAt
        case _ => false)
    && (match last
        case Claimed(_, _, _, _, _, _) => r.status.Running? && r.error.None? && r.finishedAt.None?
        case Recorded(_, run, _, _) =>
          && r.status == run.status && r.base == Some(run.base) && r.error == run.error
          && r.finishedAt == Some(run.finishedAt)
        case _ => false)
  }

  lemma PutThere(runs: Runs, e: Event, key: Key)
    requires Writes(e, key) && (if e.Claimed? then Claimable(runs, key, e.force, e.staleMs, e.at) else key !in runs)
    ensures key in Apply(runs, e) && Shows(Apply(runs, e)[key], e, e)
  {
  }

  lemma StillShows(runs: Runs, e: Event, key: Key, origin: Event, last: Event)
    requires key in runs && Shows(runs[key], origin, last) && !(e.Claimed? && e.key == key) && key in Apply(runs, e)
    ensures Shows(Apply(runs, e)[key], origin, if Writes(e, key) then e else last)
  {
  }

  lemma OriginStays(log: Log, o: nat, key: Key, e: Event)
    requires Origin(log, o, key) && key in Replay(log) && !(e.Claimed? && e.key == key)
    ensures Origin(log + [e], o, key)
  {
    var more := log + [e];
    forall k | o <= k < |more|
      ensures more[..k] == log[..k] && (k < |log| ==> more[k] == log[k])
    {
    }
    assert log[..|log|] == log;
  }

  /**
    Finalizing keeps whose row it is: every row shows the token and the start of the claim it
    came from, or the record's own when it met no row; and a finalized row shows the base, the
    error and the end of its last record.
   */
  lemma {:induction false} RowsKeepTheirOrigin(g: Graph, log: Log, key: Key) returns (o: nat, i: nat)
    requires Valid(g, log) && key in Replay(log)
    ensures Origin(log, o, key) && LastWrite(log, i, key) && o <= i
    ensures Shows(Replay(log)[key], log[o], log[i])
  {
    var n := |log| - 1;
    var init, e := log[..n], log[n];
    assert log == init + [e];
    if Writes(e, key) && (e.Claimed? || key !in Replay(init)) {
      PutThere(Replay(init), e, key);
      o, i := n, n;
    } else {
      o, i := RowsKeepTheirOrigin(g, init, key);
      OriginStays(init, o, key, e);
      StillShows(Replay(init), e, key, init[o], init[i]);
      assert init[o] == log[o] && init[i] == log[i];
      i := if Writes(e, key) then n else i;
    }
  }

  /** A release that deletes a row deletes the caller's own claim, unfinalized and not taken over. */
  lemma ReleaseRemovesOwnClaimOnly(g: Graph, log: Log, e: Event) returns (i: nat)
    requires Valid(g, log + [e]) && e.Released? && Replay(log + [e]) != Replay(log)
    ensures Replay(log + [e]) == Replay(log) - {e.key}
    ensures LastWrite(log, i, e.key) && log[i].Claimed? && log[i].token == e.token
  {
    assert (log + [e])[..|log + [e]| - 1] == log;
    i := RowsComeFromWrites(g, log, e.key);
  }

  // ---- claims of one head ------------------------------------------------------------------------

  /** `e` finalizes the row of `key`, or deletes it. */
  ghost predicate Frees(runs: Runs, e: Event, key: Key) {
    (e.Recorded? && e.run.key == key) || (e.Released? && e.key == key && Owns(runs, key, e.token))
  }

  ghost predicate Unfreed(log: Log, i: nat, j: nat, key: Key)
    requires i < j <= |log|
  {
    forall k | i < k < j :: !Frees(Replay(log[..k]), log[k], key)
  }

  /** Only a record or an effective release ends a claim; a later claim restarts its clock. */
  lemma UnfreedStep(runs: Runs, e: Event, key: Key, since: Time)
    requires key in runs && runs[key].status.Running? && runs[key].startedAt >= since
    requires !Frees(runs, e, key) && since <= Ends(e)
    ensures var after := Apply(runs, e); key in after && after[key].status.Running? && after[key].startedAt >= since
  {
  }

  lemma {:induction false} StaysClaimed(g: Graph, log: Log, i: nat, j: nat)
    requires Valid(g, log) && i < j <= |log| && log[i].Claimed? && Unfreed(log, i, j, log[i].key)
    ensures var key := log[i].key;
            key in Replay(log[..j]) && Replay(log[..j])[key].status.Running? &&
                Replay(log[..j])[key].startedAt >= log[i].later
  {
    PrefixValid(g, log, j - 1);
    if j - 1 == i {
    } else {
      StaysClaimed(g, log, i, j - 1);
      TimesOrdered(g, log, i, j - 1);
      UnfreedStep(Replay(log[..j - 1]), log[j - 1], log[i].key, log[i].later);
    }
  }

  /**
    An unforced claim that succeeds after another claim of the same head, with no record or
    effective release between, comes more than the stale window later.
   */
  lemma ClaimsApart(g: Graph, log: Log, i: nat, j: nat)
    requires Valid(g, log) && i < j < |log|
    requires log[i].Claimed? && log[j].Claimed? && log[i].key == log[j].key && !log[j].force
    requires Unfreed(log, i, j, log[i].key)
    ensures log[j].at > log[i].later + log[j].staleMs
  {
    StaysClaimed(g, log, i, j);
    PrefixValid(g, log, j);
  }
}
