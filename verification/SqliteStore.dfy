/** The review store: one table shared by every pipeline, changed only as its log records. */
module SqliteStore {
  import opened Basics
  import opened CommitGraph
  import opened ReviewRuns
  import opened StoreHistory
  import opened Workspace

  class Store {
    var runs: Runs
    var clock: Time
    var nextToken: Token // supply of generated ids
    ghost var log: Log
    ghost const graph: Graph
    ghost const alone: bool // nobody else uses the store and the clock stands still

    ghost predicate Valid()
      reads this
    {
      && runs == Replay(log)
      && (log != [] ==> Ends(log[|log| - 1]) <= clock)
      && (forall i | 0 <= i < |log| :: log[i].token < nextToken)
    }

    /** So far every caller has kept to the pipelines' protocol. */
    ghost predicate Orderly()
      reads this
    {
      Valid() && StoreHistory.Valid(graph, log)
    }

    constructor (ghost graph: Graph, ghost alone: bool, clock: Time)
      ensures Orderly() && log == [] && runs == map[]
      ensures this.graph == graph && this.alone == alone && this.clock == clock
    {
      this.graph, this.alone, this.clock := graph, alone, clock;
      runs, nextToken, log := map[], 0, [];
    }

    /** A clock reading; time never runs backwards. */
    method Now() returns (t: Time)
      requires Valid()
      modifies this`clock
      ensures Valid() && old(clock) <= t == clock
      ensures alone ==> clock == old(clock)
    {
      t := clock;
    }

    /**
      Everything other processes may do to the store while this one awaits: any calls, in any
      order and number, that use none of the caller's tokens. Callers rely on this contract only.
     */
    method Yield(ghost mine: set<Token>)
      requires Orderly()
      modifies this
      ensures Orderly() && old(log) <= log && old(clock) <= clock && old(nextToken) <= nextToken
      ensures forall i | |old(log)| <= i < |log| :: log[i].token !in mine
      ensures forall token | token in mine :: PhaseOf(log, token) == PhaseOf(old(log), token)
      ensures alone ==> log == old(log) && clock == old(clock)
    {
      forall token | token in mine
        ensures PhaseOf(log, token) == PhaseOf(old(log), token)
      {
        PhaseFramed(old(log), log, token);
      }
    }

    method FreshToken() returns (token: Token)
      requires Valid()
      modifies this`nextToken
      ensures Valid() && token == old(nextToken) && nextToken == token + 1 && PhaseOf(log, token) == Unused
    {
      token := nextToken;
      nextToken := nextToken + 1;
      PhaseFramed([], log, token);
    }

    /** Appends `e` to the log, whose effect on the table is already in place. */
    ghost method Append(e: Event)
      requires runs == Apply(Replay(log), e) && Ends(e) <= clock && e.token < nextToken
      requires forall i | 0 <= i < |log| :: log[i].token < nextToken
      modifies this`log
      ensures Valid() && log == old(log) + [e]
      ensures PhaseOf(log, e.token) == Advance(PhaseOf(old(log), e.token), e)
      ensures old(StoreHistory.Valid(graph, log)) && Enabled(graph, old(log), e) ==> Orderly()
    {
      Appended(graph, log, e);
      log := log + [e];
    }

    /** The caller's claim id, or a fresh one. */
    method ClaimIdOr(claimId: Option<Token>) returns (token: Token)
      requires Valid()
      modifies this`nextToken
      ensures Valid() && token < nextToken && old(nextToken) <= nextToken
      ensures if claimId.Some? then token == claimId.value else PhaseOf(log, token).Unused?
    {
      if claimId.None? {
        token := FreshToken();
        return;
      }
      token := claimId.value;
      nextToken := Max(nextToken, token + 1);
    }

    method ClaimReview(key: Key, force: bool, staleMs: Option<int>, claimId: Option<Token>)
      returns (claimed: bool, ghost token: Token, ghost at: Time, ghost later: Time)
      requires Valid()
      modifies this`runs, this`clock, this`nextToken, this`log
      ensures Valid() && old(clock) <= at <= later <= clock
      ensures token < nextToken && old(nextToken) <= nextToken
      ensures if claimId.Some? then token == claimId.value else PhaseOf(old(log), token).Unused?
      ensures var stale := if staleMs.Some? then staleMs.value else DEFAULT_STALE_MS;
              && claimed == Claimable(old(runs), key, force, stale, at)
              && runs == Claim(old(runs), key, token, force, stale, at, later)
              && log == if claimed then old(log) + [Claimed(token, key, force, stale, at, later)] else old(log)
      ensures claimed ==>
                && key in runs && runs - {key} == old(runs) - {key}
                && var row := runs[key];
                   && row.id == token && row.status.Running? && row.startedAt == later
                   && row.error.None? && row.finishedAt.None?
                   && row.base == if key in old(runs) then old(runs)[key].base else None
      ensures claimed ==> PhaseOf(log, token) == Holding(key)
      ensures old(Orderly()) && PhaseOf(old(log), token).Unused? ==> Orderly()
      ensures alone ==> clock == old(clock)
    {
      var stale := if staleMs.Some? then staleMs.value else DEFAULT_STALE_MS;
      var first := Now();
      var id := ClaimIdOr(claimId);
      var second := Now();
      token, at, later := id, first, second;
      claimed := Claimable(runs, key, force, stale, first);
      if claimed {
        runs := runs[key := ClaimedRun(runs, key, id, second)];
        Append(Claimed(token, key, force, stale, at, later));
      }
    }

    method ReleaseClaim(key: Key, token: Token)
      requires Valid()
      modifies this`runs, this`nextToken, this`log
      ensures Valid() && log == old(log) + [Released(token, key, clock)]
      ensures token < nextToken && old(nextToken) <= nextToken
      ensures runs == Release(old(runs), key, token)
      ensures runs == if key in old(runs) && old(runs)[key].status.Running? && old(runs)[key].id == token
                      then old(runs) - {key} else old(runs)
      ensures PhaseOf(log, token) == Closed
      ensures old(Orderly()) && MayRelease(PhaseOf(old(log), token), key) ==> Orderly()
    {
      nextToken := Max(nextToken, token + 1);
      if Owns(runs, key, token) {
        runs := runs - {key};
      }
      Append(Released(token, key, clock));
    }

    /** The update does not look at who owns the row. */
    method RecordRun(r: Record, ghost token: Token, ghost git: Git)
      requires Valid() && token < nextToken
      modifies this`runs, this`log
      ensures Valid() && log == old(log) + [Recorded(token, r, git, clock)]
      ensures runs == Finalize(old(runs), r)
      ensures r.key in runs && runs - {r.key} == old(runs) - {r.key}
      ensures var row := runs[r.key];
              && row.status == r.status && row.base == Some(r.base) && row.error == r.error
              && row.finishedAt == Some(r.finishedAt)
              && (if r.key in old(runs)
                  then row.id == old(runs)[r.key].id && row.startedAt == old(runs)[r.key].startedAt
                  else row.id == r.id && row.startedAt == r.startedAt)
      ensures PhaseOf(log, token) == Finished(r.key)
      ensures old(Orderly()) && MayRecord(graph, PhaseOf(old(log), token), r, git) ==> Orderly()
    {
      runs := Finalize(runs, r);
      Append(Recorded(token, r, git, clock));
    }

    method LastReviewedSha(repo: string, pr: nat) returns (last: Option<Sha>)
      requires Valid()
      ensures IsLastReviewed(runs, repo, pr, last)
    {
      var heads := set key | key in runs && CoveredHeadOf(runs, key, repo, pr);
      if heads == {} {
        last := None;
        assert forall key | key in runs && CoveredHeadOf(runs, key, repo, pr) :: key in heads;
      } else {
        ghost var latest := LastReviewedExists(runs, heads);
        var key :| key in heads && forall other | other in heads :: EndedAt(runs[other]) <= EndedAt(runs[key]);
        last := Some(key.sha);
        assert key == Key(repo, pr, key.sha);
      }
    }

    /** The coverage check, at a clock reading of its own. */
    method IsReviewedOrInFlight(key: Key, staleMs: Option<int>, limitCooldownMs: Option<int>, limit: string -> bool)
      returns (covered: bool, ghost at: Time)
      requires Valid()
      modifies this`clock
      ensures Valid() && old(clock) <= at <= clock && (alone ==> clock == old(clock))
      ensures var stale := if staleMs.Some? then staleMs.value else DEFAULT_STALE_MS;
              var cooldown := if limitCooldownMs.Some? then limitCooldownMs.value else DEFAULT_LIMIT_COOLDOWN_MS;
              covered == ReviewedOrInFlight(runs, key, at, stale, cooldown, limit)
    {
      var stale := if staleMs.Some? then staleMs.value else DEFAULT_STALE_MS;
      var cooldown := if limitCooldownMs.Some? then limitCooldownMs.value else DEFAULT_LIMIT_COOLDOWN_MS;
      at := clock;
      if key !in runs {
        return false, at;
      }
      var r := runs[key];
      if r.status.Ok? || r.status.Skipped? {
        return true, at;
      }
      var now := Now();
      at := now;
      if r.status.Running? {
        return r.startedAt >= now - stale, at;
      }
      if r.status.Error? && r.error.Some? && limit(r.error.value) {
        var ended := if r.finishedAt.Some? then r.finishedAt.value else r.startedAt;
        return ended >= now - cooldown, at;
      }
      covered := false;
    }
  }
}
