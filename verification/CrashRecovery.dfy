/** A worker that dies between its claim and its settle does not lose the review. */
module CrashRecovery {
  import opened Basics
  import Jobs = QueueHistory
  import Reviews = StoreHistory
  import WorkerLoop
  import opened JobTable
  import opened ReviewRuns
  import opened CommitGraph

  /** The event neither settles the lease nor requeues its job by force. */
  predicate LeavesLease(t: Table, e: Jobs.Event, id: JobId, lease: LeaseId) {
    match e
    case SettleCall(settled, _, _) => settled != lease
    case EnqueueCall(_, job, force, _) => !(force && id in t && t[id].key == job.key)
    case LeaseCall(_, _, timeout, _, _) => timeout >= 0
  }

  /** The lease `log[i]` was neither settled by its holder nor cleared by a forced requeue before `k`. */
  ghost predicate HolderDied(log: Jobs.Log, i: nat, k: nat)
    requires i < k <= |log| && log[i].LeaseCall?
  {
    forall x | i < x < k :: LeavesLease(Jobs.Replay(log[..x]), log[x], log[i].id, log[i].lease)
  }

  /** The job was leased again before the `j`th event, after the dead lease's timeout. */
  ghost predicate LeasedAgain(log: Jobs.Log, i: nat, j: nat)
    requires i < j <= |log| && log[i].LeaseCall?
  {
    exists m | i < m < j :: log[m].LeaseCall? && log[m].id == log[i].id && log[m].at >= Jobs.Until(log[i])
  }

  /** A dead lease stays on its row, as hidden as before, until the job is leased again. */
  lemma DeadLeaseStep(t: Table, issued: set<LeaseId>, e: Jobs.Event, id: JobId, lease: LeaseId)
    requires Jobs.Sound(t, issued) && Holds(t, id, lease) && LeavesLease(t, e, id, lease)
    requires e.EnqueueCall? ==> e.id !in t
    requires e.LeaseCall? ==> IsNext(t, e.at, e.id)
    ensures || (Holds(Jobs.Apply(t, e), id, lease) && Jobs.Apply(t, e)[id].visibleAt == t[id].visibleAt)
            || (e.LeaseCall? && e.id == id && e.at >= t[id].visibleAt)
  {
  }

  /** The lease is still on its row, hidden for the whole timeout. */
  predicate StillDead(t: Table, e: Jobs.Event)
    requires e.LeaseCall?
  {
    Holds(t, e.id, e.lease) && t[e.id].visibleAt == Jobs.Until(e)
  }

  lemma DeadUntilNext(log: Jobs.Log, i: nat, j: nat)
    requires Jobs.Valid(log) && i < j < |log| && log[i].LeaseCall? && HolderDied(log, i, j + 1)
    requires StillDead(Jobs.Replay(log[..j]), log[i])
    ensures StillDead(Jobs.Replay(log[..j + 1]), log[i]) || LeasedAgain(log, i, j + 1)
  {
    var t, e := Jobs.Replay(log[..j]), log[j];
    Jobs.PrefixValid(log, j);
    Jobs.TableSound(log[..j]);
    assert LeavesLease(t, e, log[i].id, log[i].lease);
    DeadLeaseStep(t, Jobs.LeaseIds(log[..j]), e, log[i].id, log[i].lease);
  }

  /** Until the row is leased again it keeps the dead lease. */
  lemma {:induction false} HiddenUntilReleased(log: Jobs.Log, i: nat, j: nat)
    requires Jobs.Valid(log) && i < j <= |log| && log[i].LeaseCall? && HolderDied(log, i, j)
    ensures StillDead(Jobs.Replay(log[..j]), log[i]) || LeasedAgain(log, i, j)
  {
    if j == i + 1 {
      Jobs.PrefixValid(log, i);
    } else {
      HiddenUntilReleased(log, i, j - 1);
      if !LeasedAgain(log, i, j - 1) {
        DeadUntilNext(log, i, j - 1);
      }
    }
  }

  /** Any later lease of the job comes after the dead lease's visibility timeout. */
  lemma RetryWaitsOutTheTimeout(log: Jobs.Log, i: nat, k: nat)
    requires Jobs.Valid(log) && i < k < |log| && log[i].LeaseCall? && HolderDied(log, i, k)
    requires log[k].LeaseCall? && log[k].id == log[i].id
    ensures log[k].at >= log[i].later + log[i].timeout
  {
    HiddenUntilReleased(log, i, k);
    if LeasedAgain(log, i, k) {
      var m :| i < m < k && log[m].LeaseCall? && log[m].id == log[i].id && log[m].at >= Jobs.Until(log[i]);
      Jobs.PrefixValid(log, m);
      Jobs.TimesOrdered(log, m, k);
    } else {
      Jobs.PrefixValid(log, k);
      assert IsNext(Jobs.Replay(log[..k]), log[k].at, log[i].id);
    }
  }

  lemma {:induction false} ClaimLeavesTokenUsed(g: Graph, log: Reviews.Log, a: nat, n: nat)
    requires Reviews.Valid(g, log) && a < n <= |log| && log[a].Claimed?
    ensures !Reviews.PhaseOf(log[..n], log[a].token).Unused?
  {
    assert log[..n][..n - 1] == log[..n - 1];
    if a == n - 1 {
    } else {
      ClaimLeavesTokenUsed(g, log, a, n - 1);
    }
  }

  lemma OneClaimPerToken(g: Graph, log: Reviews.Log, a: nat, b: nat)
    requires Reviews.Valid(g, log) && a < b < |log| && log[a].Claimed? && log[b].Claimed?
    ensures log[a].token != log[b].token
  {
    ClaimLeavesTokenUsed(g, log, a, b);
    Reviews.PrefixValid(g, log, b);
  }

  /** A claim's token names that claim only, so a row carrying it started then. */
  lemma ClaimKeepsItsStart(g: Graph, reviews: Reviews.Log, c: nat)
    requires Reviews.Valid(g, reviews) && c < |reviews| && reviews[c].Claimed?
    requires Owns(Reviews.Replay(reviews), reviews[c].key, reviews[c].token)
    ensures Reviews.Replay(reviews)[reviews[c].key].startedAt == reviews[c].later
  {
    var w := Reviews.RowsComeFromWrites(g, reviews, reviews[c].key);
    if w < c {
      OneClaimPerToken(g, reviews, w, c);
    } else if c < w {
      OneClaimPerToken(g, reviews, c, w);
    }
  }

  /**
    A worker leased a job, claimed a head, and died; the claim was not refreshed. If the claim
    was taken less than the visibility timeout minus the stale window after the lease, every
    later lease of that job finds the claim reclaimable, so the retry is not a duplicate.
   */
  lemma DeadClaimNeverBlocksTheRetry(
    g: Graph, jobs: Jobs.Log, i: nat, k: nat, reviews: Reviews.Log, c: nat, staleMs: int, now: Time
  )
    requires Jobs.Valid(jobs) && i < k < |jobs| && jobs[i].LeaseCall? && HolderDied(jobs, i, k)
    requires jobs[k].LeaseCall? && jobs[k].id == jobs[i].id
    requires Reviews.Valid(g, reviews) && c < |reviews| && reviews[c].Claimed?
    requires Owns(Reviews.Replay(reviews), reviews[c].key, reviews[c].token)
    requires reviews[c].later - jobs[i].later < jobs[i].timeout - staleMs
    requires now >= jobs[k].at
    ensures Claimable(Reviews.Replay(reviews), reviews[c].key, false, staleMs, now)
  {
    RetryWaitsOutTheTimeout(jobs, i, k);
    ClaimKeepsItsStart(g, reviews, c);
  }

  /**
    A worker leased a job at `jobs[i]`, claimed a head `margin` later at `reviews[c]` and died;
    the claim is still its own when the job is leased again at `jobs[k]`.
   */
  ghost predicate DeadClaim(
    g: Graph, jobs: Jobs.Log, i: nat, k: nat, reviews: Reviews.Log, c: nat, timeout: int, margin: int
  ) {
    && Jobs.Valid(jobs) && i < k < |jobs| && jobs[i].LeaseCall? && jobs[i].timeout == timeout && HolderDied(jobs, i, k)
    && jobs[k].LeaseCall? && jobs[k].id == jobs[i].id
    && Reviews.Valid(g, reviews) && c < |reviews| && reviews[c].Claimed?
    && Owns(Reviews.Replay(reviews), reviews[c].key, reviews[c].token)
    && reviews[c].later - jobs[i].later == margin && reviews[c].later <= jobs[k].at
  }

  /** Every retry after a death with this timeout and margin finds the dead claim reclaimable. */
  ghost predicate AlwaysReclaimable(g: Graph, timeout: int, margin: int, staleMs: int) {
    forall jobs: Jobs.Log, i: nat, k: nat, reviews: Reviews.Log,
        c: nat | DeadClaim(g, jobs, i, k, reviews, c, timeout, margin) ::
      Claimable(Reviews.Replay(reviews), reviews[c].key, false, staleMs, jobs[k].at)
  }

  const STORED := Jobs.EnqueueCall(0, NewJob(Key("o/r", 1, "head"), None, Webhook, false, 0), false, 0)

  /** A job stored at 0, leased at 0 by the worker that dies, and leased again at `again`. */
  function TwoLeases(timeout: int, again: Time): Jobs.Log {
    [STORED] + [Jobs.LeaseCall(0, 1, timeout, 0, 0)] + [Jobs.LeaseCall(0, 2, timeout, again, again)]
  }

  lemma TwoLeasesIsARun(timeout: int, again: Time)
    requires 0 <= timeout <= again
    ensures Jobs.Valid(TwoLeases(timeout, again)) && HolderDied(TwoLeases(timeout, again), 1, 2)
  {
    var queued := FreshRow(STORED.job, 0);
    var leased := LeasedRow(queued, 1, 0, timeout);
    var first, second := Jobs.LeaseCall(0, 1, timeout, 0, 0), Jobs.LeaseCall(0, 2, timeout, again, again);
    assert Jobs.Valid([]) && Jobs.Enabled([], STORED);
    Jobs.Appended([], STORED);
    assert [] + [STORED] == [STORED] && Jobs.Replay([STORED]) == map[0 := queued];
    assert IsNext(map[0 := queued], 0, 0) && Jobs.Enabled([STORED], first);
    Jobs.Appended([STORED], first);
    assert Jobs.Replay([STORED] + [first]) == map[0 := leased];
    assert IsNext(map[0 := leased], again, 0) && Jobs.Enabled([STORED] + [first], second);
    Jobs.Appended([STORED] + [first], second);
  }

  /** One claim, at `at`, and nothing after it. */
  function OneClaim(at: Time): Reviews.Log {
    [Reviews.Claimed(0, Key("o/r", 1, "head"), false, DEFAULT_STALE_MS, at, at)]
  }

  lemma OneClaimIsARun(g: Graph, at: Time)
    ensures Reviews.Valid(g, OneClaim(at)) && Owns(Reviews.Replay(OneClaim(at)), Key("o/r", 1, "head"), 0)
    ensures Reviews.Replay(OneClaim(at))[Key("o/r", 1, "head")].startedAt == at
  {
    var log := OneClaim(at);
    assert log[..0] == [] && Reviews.Replay([]) == map[] && Reviews.Valid(g, []);
    assert Reviews.Enabled(g, [], log[0]);
  }

  /**
    The margin is exact: every retry finds the dead claim reclaimable if and only if the claim
    was taken less than the visibility timeout minus the stale window after the lease.
   */
  lemma MarginIsExact(g: Graph, timeout: int, margin: nat, staleMs: nat)
    requires timeout >= 0
    ensures AlwaysReclaimable(g, timeout, margin, staleMs) <==> margin < timeout - staleMs
  {
    if margin < timeout - staleMs {
      forall jobs: Jobs.Log, i: nat, k: nat, reviews: Reviews.Log,
          c: nat | DeadClaim(g, jobs, i, k, reviews, c, timeout, margin)
        ensures Claimable(Reviews.Replay(reviews), reviews[c].key, false, staleMs, jobs[k].at)
      {
        DeadClaimNeverBlocksTheRetry(g, jobs, i, k, reviews, c, staleMs, jobs[k].at);
      }
    } else {
      var again := Max(timeout, margin);
      TwoLeasesIsARun(timeout, again);
      OneClaimIsARun(g, margin);
      assert DeadClaim(g, TwoLeases(timeout, again), 1, 2, OneClaim(margin), 0, timeout, margin);
      assert !Claimable(Reviews.Replay(OneClaim(margin)), Key("o/r", 1, "head"), false, staleMs, again);
    }
  }

  /** With the defaults a claim must start within twenty minutes of its job's lease. */
  lemma DefaultsLeaveTwentyMinutes(g: Graph, margin: nat)
    ensures AlwaysReclaimable(g, WorkerLoop.DEFAULT_VISIBILITY_TIMEOUT_MS, margin, DEFAULT_STALE_MS)
       <==> margin < 20 * 60 * 1000
  {
    MarginIsExact(g, WorkerLoop.DEFAULT_VISIBILITY_TIMEOUT_MS, margin, DEFAULT_STALE_MS);
  }
}
