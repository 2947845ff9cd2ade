/**
  The `review_runs` table: at once the dedupe claim and the audit row of a head. The map's key
  is the table's unique key; audit-only columns are left out.
 */
module ReviewRuns {
  import opened Basics

  type Token = nat
  type Runs = map<Key, Run>

  datatype RunStatus = Running | Ok | Skipped | Error

  datatype Run = Run(
    id: Token,
    status: RunStatus,
    base: Option<string>,
    error: Option<string>,
    startedAt: Time,
    finishedAt: Option<Time>
  )

  const DEFAULT_STALE_MS := 15 * 60 * 1000
  const DEFAULT_LIMIT_COOLDOWN_MS := 15 * 60 * 1000

  /** Whether the claim statement inserts or takes over the row. */
  predicate Claimable(runs: Runs, key: Key, force: bool, staleMs: int, now: Time) {
    || key !in runs
    || force
    || runs[key].status.Error?
    || (runs[key].status.Running? && runs[key].startedAt < now - staleMs)
  }

  /** The claim replaces the owner token; other audit columns of an existing row stay. */
  function ClaimedRun(runs: Runs, key: Key, token: Token, startedAt: Time): Run {
    if key in runs then runs[key].(id := token, status := Running, startedAt := startedAt, finishedAt := None,
        error := None)
    else Run(token, Running, None, None, startedAt, None)
  }

  function Claim(runs: Runs, key: Key, token: Token, force: bool, staleMs: int, now: Time, later: Time): Runs {
    if Claimable(runs, key, force, staleMs, now) then runs[key := ClaimedRun(runs, key, token, later)] else runs
  }

  predicate Owns(runs: Runs, key: Key, token: Token) {
    key in runs && runs[key].status.Running? && runs[key].id == token
  }

  /** Drop the placeholder, but only while it still carries the caller's token. */
  function Release(runs: Runs, key: Key, token: Token): Runs {
    if Owns(runs, key, token) then runs - {key} else runs
  }

  datatype Record = Record(id: Token, key: Key, status: RunStatus, base: string, error: Option<string>,
      startedAt: Time, finishedAt: Time)

  /** Finalize the row, whoever owns it; its id and start time are kept. */
  function Finalize(runs: Runs, r: Record): Runs {
    if r.key in runs then
      runs[r.key := runs[r.key].(status := r.status, base := Some(r.base), error := r.error,
          finishedAt := Some(r.finishedAt))]
    else
      runs[r.key := Run(r.id, r.status, Some(r.base), r.error, r.startedAt, Some(r.finishedAt))]
  }

  /** Reviewed or gated out; the program's one notion of a covered head. */
  predicate IsCovered(r: Run) {
    r.status.Ok? || r.status.Skipped?
  }

  function EndedAt(r: Run): Time {
    match r.finishedAt
    case Some(t) => t
    case None => r.startedAt
  }

  predicate CoveredHeadOf(runs: Runs, key: Key, repo: string, pr: nat) {
    key in runs && key.repo == repo && key.pr == pr && IsCovered(runs[key])
  }

  /** `last` is a most recently ended covered head of the pull request, or there is none. */
  predicate IsLastReviewed(runs: Runs, repo: string, pr: nat, last: Option<string>) {
    match last
    case None => forall key | key in runs :: !CoveredHeadOf(runs, key, repo, pr)
    case Some(sha) =>
      var best := Key(repo, pr, sha);
      && CoveredHeadOf(runs, best, repo, pr)
      && forall key | key in runs && CoveredHeadOf(runs, key, repo, pr) :: EndedAt(runs[key]) <= EndedAt(runs[best])
  }

  predicate Cooling(r: Run, now: Time, cooldownMs: int, limit: string -> bool) {
    r.status.Error? && r.error.Some? && limit(r.error.value) && EndedAt(r) >= now - cooldownMs
  }

  /** The reconciler's coverage check. */
  predicate ReviewedOrInFlight(runs: Runs, key: Key, now: Time, staleMs: int, cooldownMs: int, limit: string -> bool) {
    if key !in runs then false
    else if IsCovered(runs[key]) then true
    else if runs[key].status.Running? then runs[key].startedAt >= now - staleMs
    else Cooling(runs[key], now, cooldownMs, limit)
  }

  /**
    Coverage and claiming agree at one clock reading: a head counts as covered exactly when an
    unforced claim on it would be refused, or when it holds a limit error still cooling down.
   */
  lemma CoverageAgreesWithClaim(runs: Runs, key: Key, now: Time, staleMs: int, cooldownMs: int, limit: string -> bool)
    ensures ReviewedOrInFlight(runs, key, now, staleMs, cooldownMs, limit)
       <==> !Claimable(runs, key, false, staleMs, now) || (key in runs && Cooling(runs[key], now, cooldownMs, limit))
  {
  }

  /**
    A covered head is claimed, and so may be uncovered by whatever its new owner records or
    releases, exactly under force or while it is only cooling down.
   */
  lemma CoveredIsClaimedExactly(
    runs: Runs, key: Key, force: bool, now: Time, staleMs: int, cooldownMs: int, limit: string -> bool
  )
    requires ReviewedOrInFlight(runs, key, now, staleMs, cooldownMs, limit)
    ensures Claimable(runs, key, force, staleMs, now) <==> force || Cooling(runs[key], now, cooldownMs, limit)
  {
  }

  /** A terminal record uncovers a head exactly when it is a failure that does not read as a limit, or one long over. */
  lemma FailureUncoversExactly(runs: Runs, r: Record, now: Time, staleMs: int, cooldownMs: int, limit: string -> bool)
    requires !r.status.Running?
    ensures !ReviewedOrInFlight(Finalize(runs, r), r.key, now, staleMs, cooldownMs, limit)
       <==> r.status.Error? && !(r.error.Some? && limit(r.error.value) && r.finishedAt >= now - cooldownMs)
  {
  }

  lemma {:induction false} LastReviewedExists(runs: Runs, keys: set<Key>) returns (last: Key)
    requires keys != {} && keys <= runs.Keys
    ensures last in keys && forall key | key in keys :: EndedAt(runs[key]) <= EndedAt(runs[last])
  {
    var key :| key in keys;
    if keys == {key} {
      last := key;
    } else {
      var rest := LastReviewedExists(runs, keys - {key});
      last := if EndedAt(runs[key]) >= EndedAt(runs[rest]) then key else rest;
      forall other | other in keys
        ensures EndedAt(runs[other]) <= EndedAt(runs[last])
      {
        if other != key {
          assert other in keys - {key};
        }
      }
    }
  }
}
