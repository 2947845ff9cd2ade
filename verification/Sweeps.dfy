/** Two sweeps in a row: when the second finds nothing to do, and when processing gives it work. */
module Sweeps {
  import opened Basics
  import opened JobTable
  import opened ReviewRuns
  import opened StoreHistory
  import opened Reconciler
  import CommitGraph
  import Pipeline
  import RetryClassification
  import SqliteQueue
  import SqliteStore
  import WorkerLoop
  import Workspace

  function RowOf(runs: Runs, key: Key): Option<Run> {
    if key in runs then Some(runs[key]) else None
  }

  predicate Concerns(p: Phase, key: Key) {
    (p.Holding? || p.Based? || p.Finished?) && p.key == key
  }

  // ---- what one run leaves alone -----------------------------------------------------------------------

  /** No claim of `key` from `from` on was to be had at the state the stretch began with. */
  ghost predicate Sparing(log: Log, from: nat, key: Key)
    requires from <= |log|
  {
    forall i | from <= i < |log| && log[i].Claimed? && log[i].key == key ::
      !Claimable(Replay(log[..from]), key, log[i].force, log[i].staleMs, log[i].at)
  }

  /** A stretch of one new pipeline's events that cannot claim a head leaves its row alone. */
  lemma {:induction false} StretchSpares(g: CommitGraph.Graph, log: Log, from: nat, token: Token, key: Key, i: nat)
    requires Valid(g, log) && from <= i <= |log| && Sparing(log, from, key)
    requires forall j | 0 <= j < from :: log[j].token != token
    requires forall j | from <= j < |log| :: log[j].token == token
    ensures RowOf(Replay(log[..i]), key) == RowOf(Replay(log[..from]), key)
    ensures !Concerns(PhaseOf(log[..i], token), key)
  {
    if i == from {
      PhaseFramed([], log[..from], token);
    } else {
      StretchSpares(g, log, from, token, key, i - 1);
      PrefixValid(g, log, i - 1);
      assert log[..i][..i - 1] == log[..i - 1];
    }
  }

  lemma TurnSpares(g: CommitGraph.Graph, log: Log, turn: WorkerLoop.Turn, work: WorkerLoop.Work, clock: Time, key: Key)
    requires Valid(g, log) && WorkerLoop.Told(log, turn, work) && WorkerLoop.ToldAlone(log, turn, work, clock)
    requires SamePr(turn.job.key, key) ==>
              !Claimable(Replay(log[..turn.from]), key, turn.job.full, DEFAULT_STALE_MS, clock)
    ensures RowOf(Replay(log), key) == RowOf(Replay(log[..turn.from]), key)
  {
    assert log[..|log|] == log;
    if turn.from < |log| {
      StretchSpares(g, log, turn.from, turn.token, key, |log|);
    }
  }

  /** Some job due in `t` could claim `key` for a review. */
  ghost predicate CanClaim(runs: Runs, t: Table, now: Time, key: Key, clock: Time) {
    exists id | id in LeasableIds(t, now) ::
        SamePr(t[id].key, key) && Claimable(runs, key, t[id].full, DEFAULT_STALE_MS, clock)
  }

  /** The turns are of jobs due in `t`. */
  ghost predicate DueIn(t: Table, now: Time, turns: seq<WorkerLoop.Turn>) {
    WorkerLoop.JobsOf(t, turns) && forall k | 0 <= k < |turns| :: turns[k].job.id in LeasableIds(t, now)
  }

  /** A drain none of whose jobs can claim a head leaves its row alone. */
  lemma {:induction false} DrainSpares(
    g: CommitGraph.Graph, begun: Log, log: Log, turns: seq<WorkerLoop.Turn>,
    works: SqliteQueue.LeasedJob -> WorkerLoop.Work,
    t: Table, now: Time, key: Key, clock: Time
  )
    requires Valid(g, log) && WorkerLoop.Serviced(begun, log, turns, works, Some(clock)) && DueIn(t, now, turns)
    requires !CanClaim(Replay(begun), t, now, key, clock)
    ensures RowOf(Replay(log), key) == RowOf(Replay(begun), key)
    decreases |turns|
  {
    if turns == [] {
    } else {
      var k := |turns| - 1;
      var turn := turns[k];
      assert WorkerLoop.ServicedLast(begun, log, turns, works, Some(clock));
      PrefixValid(g, log, turn.from);
      DrainSpares(g, begun, log[..turn.from], turns[..k], works, t, now, key, clock);
      TurnSpares(g, log, turn, works(turn.job), clock, key);
    }
  }

  // ---- the second sweep --------------------------------------------------------------------------------

  /** A job due at the start, or one the first sweep adds, could claim `key`. */
  ghost predicate Disturbed(
    configs: seq<RepoConfig>, listing: Listing, runs: Runs, start: Table, now: Time, clock: Time,
    limit: string -> bool, key: Key
  ) {
    || CanClaim(runs, start, now, key, clock)
    || (Claimable(runs, key, false, DEFAULT_STALE_MS, clock)
        && exists other | Wanted(configs, listing, other) ::
             !Covered(runs, other, clock, limit) && !HasKey(start, other) && SamePr(other, key))
  }

  /** A covered head without a job row of its own that a drained job could claim. */
  ghost predicate AtRisk(
    configs: seq<RepoConfig>, listing: Listing, runs: Runs, start: Table, now: Time, clock: Time,
    limit: string -> bool, key: Key
  ) {
    && Wanted(configs, listing, key) && Covered(runs, key, clock, limit) && !HasKey(start, key)
    && Disturbed(configs, listing, runs, start, now, clock, limit, key)
  }

  /** What the first sweep queued: the heads wanted and not covered. */
  lemma UncoveredExactly(
    configs: seq<RepoConfig>, listing: Listing, log: Log, clock: Time, limit: string -> bool, checks: seq<Check>,
    key: Key
  )
    requires Checked(checks) == Heads(configs, listing) && AllHonest(log, checks, limit) && AtOnce(checks, |log|, clock)
    ensures key in Unseen(checks) <==> Wanted(configs, listing, key) && !Covered(Replay(log), key, clock, limit)
  {
    assert log[..|log|] == log;
    UnseenExactly(checks, key);
    HeadsExactly(configs, listing, key);
    if Wanted(configs, listing, key) {
      var i :| 0 <= i < |checks| && checks[i].key == key;
      assert checks[i] in checks && Honest(log, checks[i], limit);
    }
    if c :| c in checks && c.key == key {
      assert Honest(log, c, limit);
      var i :| 0 <= i < |checks| && checks[i] == c;
      assert Checked(checks)[i] == key;
    }
  }

  /** Alone with the store, every check of a sweep meets the history as it was. */
  lemma HonestThen(log: Log, more: Log, checks: seq<Check>, clock: Time, limit: string -> bool)
    requires AllHonest(more, checks, limit) && AtOnce(checks, |log|, clock) && log <= more
    ensures AllHonest(log, checks, limit)
  {
    forall c | c in checks
      ensures Honest(log, c, limit)
    {
      assert Honest(more, c, limit) && more[..c.n] == log[..c.n];
    }
  }

  /** The jobs the first sweep drains can claim a head exactly when the start and the listings say so. */
  lemma FilledCanClaimExactly(
    configs: seq<RepoConfig>, listing: Listing, log: Log, start: Table, filled: Table, now: Time, clock: Time,
    limit: string -> bool, checks: seq<Check>, key: Key
  )
    requires Checked(checks) == Heads(configs, listing) && AllHonest(log, checks, limit) && AtOnce(checks, |log|, clock)
    requires Filled(start, filled, Unseen(checks), now)
    ensures CanClaim(Replay(log), filled, now, key, clock) <==>
        Disturbed(configs, listing, Replay(log), start, now, clock, limit, key)
  {
    var runs := Replay(log);
    if CanClaim(runs, filled, now, key, clock) {
      var id :| id in LeasableIds(filled, now) && SamePr(filled[id].key, key) &&
          Claimable(runs, key, filled[id].full, DEFAULT_STALE_MS, clock);
      if id in start {
        assert id in LeasableIds(start, now);
      } else {
        UncoveredExactly(configs, listing, log, clock, limit, checks, filled[id].key);
      }
    }
    if CanClaim(runs, start, now, key, clock) {
      var id :| id in LeasableIds(start, now) && SamePr(start[id].key, key) &&
          Claimable(runs, key, start[id].full, DEFAULT_STALE_MS, clock);
      assert id in LeasableIds(filled, now);
    } else if Disturbed(configs, listing, runs, start, now, clock, limit, key) {
      var other :| Wanted(configs, listing, other) && !Covered(runs, other, clock, limit) && !HasKey(start, other) &&
          SamePr(other, key);
      UncoveredExactly(configs, listing, log, clock, limit, checks, other);
      var id :| id in filled && filled[id].key == other;
      assert id !in start && id in LeasableIds(filled, now);
    }
  }

  lemma RowDecides(runs: Runs, runs': Runs, key: Key, now: Time, limit: string -> bool)
    requires RowOf(runs, key) == RowOf(runs', key)
    ensures Covered(runs, key, now, limit) == Covered(runs', key, now, limit)
    ensures forall force ::
              Claimable(runs, key, force, DEFAULT_STALE_MS, now) == Claimable(runs', key, force, DEFAULT_STALE_MS, now)
  {
  }

  /** A head that was covered, has no row and cannot be claimed by the drain is still covered after it. */
  lemma StaysCovered(
    g: CommitGraph.Graph, begun: Log, log: Log, turns: seq<WorkerLoop.Turn>,
    works: SqliteQueue.LeasedJob -> WorkerLoop.Work,
    t: Table, t': Table, now: Time, key: Key, clock: Time, limit: string -> bool
  )
    requires Valid(g, log) && WorkerLoop.Serviced(begun, log, turns, works, Some(clock))
    requires WorkerLoop.Exhausted(t, t', now, turns)
    requires !CanClaim(Replay(begun), t, now, key, clock) && Covered(Replay(begun), key, clock, limit)
    ensures Covered(Replay(log), key, clock, limit)
  {
    forall k | 0 <= k < |turns|
      ensures turns[k].job.id in LeasableIds(t, now)
    {
      assert WorkerLoop.Ids(turns)[k] in WorkerLoop.Ids(turns);
    }
    DrainSpares(g, begun, log, turns, works, t, now, key, clock);
    RowDecides(Replay(begun), Replay(log), key, clock, limit);
  }

  /** What the second sweep finds uncovered has a job row. */
  lemma NothingMissing(
    g: CommitGraph.Graph, configs: seq<RepoConfig>, listing: Listing, begun: Log, log: Log, start: Table,
    filled: Table, jobs: Table,
    now: Time, clock: Time, limit: string -> bool, checks: seq<Check>, again: seq<Check>, process: bool,
    turns: seq<WorkerLoop.Turn>, works: SqliteQueue.LeasedJob -> WorkerLoop.Work
  )
    requires Valid(g, log) && Checked(checks) == Checked(again) == Heads(configs, listing)
    requires AllHonest(begun, checks, limit) && AtOnce(checks, |begun|, clock)
    requires AllHonest(log, again, limit) && AtOnce(again, |log|, clock)
    requires Filled(start, filled, Unseen(checks), now) && forall key :: HasKey(filled, key) <==> HasKey(jobs, key)
    requires if process then WorkerLoop.Serviced(begun, log, turns, works, Some(clock)) &&
        WorkerLoop.Exhausted(filled, jobs, now, turns)
             else log == begun
    requires !process || forall key :: !AtRisk(configs, listing, Replay(begun), start, now, clock, limit, key)
    ensures AllQueued(jobs, Unseen(again))
  {
    forall key | key in Unseen(again)
      ensures HasKey(jobs, key)
    {
      UncoveredExactly(configs, listing, log, clock, limit, again, key);
      UncoveredExactly(configs, listing, begun, clock, limit, checks, key);
      if !HasKey(filled, key) && process {
        assert !HasKey(start, key) by {
          assert forall id | id in start :: filled[id].key == start[id].key;
        }
        assert !AtRisk(configs, listing, Replay(begun), start, now, clock, limit, key);
        FilledCanClaimExactly(configs, listing, begun, start, filled, now, clock, limit, checks, key);
        StaysCovered(g, begun, log, turns, works, filled, jobs, now, key, clock, limit);
        assert false;
      }
    }
  }

  /**
    At one clock and with the same listings, a second sweep without processing enqueues nothing,
    unless the first one processed jobs and left a covered head at risk.
   */
  method SweepTwice(
    queue: SqliteQueue.Queue, store: SqliteStore.Store, configs: seq<RepoConfig>, listing: Listing, now: Time,
    limit: string -> bool, process: bool, works: SqliteQueue.LeasedJob -> WorkerLoop.Work, opts: WorkerLoop.Options
  ) returns (first: Report, second: Report)
    requires queue.Valid() && queue.NotBefore(now) && queue.others == 0 && store.Orderly() && store.alone
    requires WorkerLoop.PositiveDelays(queue, opts) && forall job :: WorkerLoop.Sound(works(job), store.graph)
    modifies queue`jobs, queue`nextId, queue`log, queue`others, store
    ensures process ==>
              (forall key :: !AtRisk(
                configs, listing, old(store.runs), old(queue.jobs), now, old(store.clock), limit, key)) ==>
              second.enqueued == 0
    ensures !process ==> second.enqueued == 0
  {
    ghost var start, begun := queue.jobs, store.log;
    var later;
    ghost var checks, filled, turns;
    first, later, checks, filled, turns := Reconcile(
      queue, store, configs, listing, now, limit, false, process, works, opts);
    ghost var log, jobs := store.log, queue.jobs;
    ghost var again, filled', turns';
    second, later, again, filled', turns' := Reconcile(
      queue, store, configs, listing, now, limit, false, false, works, opts);
    if !process || forall key :: !AtRisk(configs, listing, Replay(begun), start, now, store.clock, limit, key) {
      HonestThen(begun, log, checks, store.clock, limit);
      NothingMissing(
        store.graph, configs, listing, begun, log, start, filled, jobs, now, store.clock, limit, checks, again,
        process, turns, works);
      assert Missing(jobs, Unseen(again)) == {};
    }
  }

  // ---- the risk is real ----------------------------------------------------------------------------------

  /** Every review finds the pull request at this head and fails to check it out. */
  function FailsToCheckOut(head: string): WorkerLoop.Work {
    WorkerLoop.Work(
      None,
      Pipeline.RepoSettings(false, false),
      Pipeline.Environment(
        None, Some(Pipeline.PullRequest(head, "", false, false)), false, false,
        Workspace.FAILING_GIT, true,
        _ => None, _ => false, _ => None, false, false, false, false
      ),
      RetryClassification.OfMessage("checkout failed")
    )
  }

  lemma FailureIsSound(head: string, g: CommitGraph.Graph)
    ensures WorkerLoop.Sound(FailsToCheckOut(head), g)
  {
  }

  /** A run that can claim the head takes its row away; any other leaves it alone. */
  lemma FailedTurn(g: CommitGraph.Graph, log: Log, turn: WorkerLoop.Turn, clock: Time, key: Key)
    requires var work := FailsToCheckOut(key.sha);
             Valid(g, log) && WorkerLoop.Told(log, turn, work) && WorkerLoop.ToldAlone(log, turn, work, clock)
    ensures var before := Replay(log[..turn.from]);
            if SamePr(turn.job.key, key) && Claimable(before, key, turn.job.full, DEFAULT_STALE_MS, clock)
            then key !in Replay(log)
            else RowOf(Replay(log), key) == RowOf(before, key)
  {
    var work, req := FailsToCheckOut(key.sha), WorkerLoop.RequestOf(turn.job);
    var a := Pipeline.Assigned(work.env, work.settings, req, work.env.pullRequest.value);
    assert Pipeline.EarlyExit(work.env, work.settings, req) == None;
    if SamePr(turn.job.key, key) && Claimable(Replay(log[..turn.from]), key, turn.job.full, DEFAULT_STALE_MS, clock) {
      assert a.key == key && turn.course.claim == turn.from;
      assert !Pipeline.Refused(log, a, req.force, turn.course);
      assert turn.exit == Pipeline.Fate(a, false, turn.course.last) == Pipeline.Threw(true);
      assert !Pipeline.Records(a, turn.course.last);
    } else {
      TurnSpares(g, log, turn, work, clock, key);
    }
  }

  /** Some turn so far could claim the head as the drain found it. */
  predicate Tried(runs: Runs, turns: seq<WorkerLoop.Turn>, key: Key, clock: Time) {
    exists turn | turn in turns :: SamePr(turn.job.key, key) &&
        Claimable(runs, key, turn.job.full, DEFAULT_STALE_MS, clock)
  }

  /** Once a turn could claim the head its row is gone, and it stays gone. */
  lemma {:induction false} FailedDrain(
    g: CommitGraph.Graph, begun: Log, log: Log, turns: seq<WorkerLoop.Turn>, key: Key, clock: Time
  )
    requires Valid(g, log) && WorkerLoop.Serviced(begun, log, turns, _ => FailsToCheckOut(key.sha), Some(clock))
    ensures if Tried(Replay(begun), turns, key, clock) then
        key !in Replay(log) else RowOf(Replay(log), key) == RowOf(Replay(begun), key)
    decreases |turns|
  {
    if turns == [] {
    } else {
      var k := |turns| - 1;
      var turn := turns[k];
      assert turns == turns[..k] + [turn];
      assert WorkerLoop.ServicedLast(begun, log, turns, _ => FailsToCheckOut(key.sha), Some(clock));
      PrefixValid(g, log, turn.from);
      FailedDrain(g, begun, log[..turn.from], turns[..k], key, clock);
      FailedTurn(g, log, turn, clock, key);
    }
  }

  /** If a drained job could claim the head, such a drain loses it. */
  lemma ClaimableIsLost(
    g: CommitGraph.Graph, begun: Log, log: Log, filled: Table, jobs: Table, now: Time, clock: Time,
    turns: seq<WorkerLoop.Turn>, key: Key
  )
    requires Valid(g, log) && WorkerLoop.Exhausted(filled, jobs, now, turns)
    requires WorkerLoop.Serviced(begun, log, turns, _ => FailsToCheckOut(key.sha), Some(clock))
    requires CanClaim(Replay(begun), filled, now, key, clock)
    ensures key !in Replay(log)
  {
    var runs := Replay(begun);
    var id :| id in LeasableIds(filled, now) && SamePr(filled[id].key, key) &&
        Claimable(runs, key, filled[id].full, DEFAULT_STALE_MS, clock);
    assert id in WorkerLoop.Ids(turns);
    var k :| 0 <= k < |turns| && turns[k].job.id == id;
    assert turns[k] in turns;
    FailedDrain(g, begun, log, turns, key, clock);
  }

  /** The first sweep queues no row for a covered head. */
  lemma CoveredIsNotFilled(
    configs: seq<RepoConfig>, listing: Listing, begun: Log, start: Table, filled: Table, now: Time, clock: Time,
    limit: string -> bool, checks: seq<Check>, key: Key
  )
    requires Checked(checks) == Heads(configs, listing) && AllHonest(begun, checks, limit)
    requires AtOnce(checks, |begun|, clock)
    requires Filled(start, filled, Unseen(checks), now) && Covered(Replay(begun), key, clock, limit)
    requires !HasKey(start, key)
    ensures !HasKey(filled, key)
  {
    UncoveredExactly(configs, listing, begun, clock, limit, checks, key);
    forall id | id in filled
      ensures filled[id].key != key
    {
      assert id in start ==> start[id].key == filled[id].key;
    }
  }

  /**
    Whenever a covered head is at risk, processing can give the second sweep work: its reviews
    fail to check the head out, and the second sweep finds it uncovered and without a row.
   */
  method SweepTwiceAtRisk(
    queue: SqliteQueue.Queue, store: SqliteStore.Store, configs: seq<RepoConfig>, listing: Listing, now: Time,
    limit: string -> bool, opts: WorkerLoop.Options, key: Key
  ) returns (first: Report, second: Report)
    requires queue.Valid() && queue.NotBefore(now) && queue.others == 0 && store.Orderly() && store.alone
    requires WorkerLoop.PositiveDelays(queue, opts)
    requires AtRisk(configs, listing, store.runs, queue.jobs, now, store.clock, limit, key)
    modifies queue`jobs, queue`nextId, queue`log, queue`others, store
    ensures key in second.uncovered && second.enqueued > 0
  {
    ghost var start, begun := queue.jobs, store.log;
    FailureIsSound(key.sha, store.graph);
    var works: SqliteQueue.LeasedJob -> WorkerLoop.Work := _ => FailsToCheckOut(key.sha);
    var later;
    ghost var checks, filled, turns;
    first, later, checks, filled, turns := Reconcile(
      queue, store, configs, listing, now, limit, false, true, works, opts);
    ghost var log, jobs := store.log, queue.jobs;
    ghost var again, filled', turns';
    second, later, again, filled', turns' := Reconcile(
      queue, store, configs, listing, now, limit, false, false, works, opts);
    HonestThen(begun, log, checks, store.clock, limit);
    FilledCanClaimExactly(configs, listing, begun, start, filled, now, store.clock, limit, checks, key);
    ClaimableIsLost(store.graph, begun, log, filled, jobs, now, store.clock, turns, key);
    CoveredIsNotFilled(configs, listing, begun, start, filled, now, store.clock, limit, checks, key);
    UncoveredExactly(configs, listing, log, store.clock, limit, again, key);
    assert key in Missing(jobs, Unseen(again));
  }

  /** A store in which a pipeline has claimed `key`. */
  method ClaimedStore(key: Key) returns (store: SqliteStore.Store, ghost token: Token)
    ensures fresh(store) && store.Orderly() && store.alone && store.clock == 0
    ensures token < store.nextToken && PhaseOf(store.log, token) == Holding(key)
  {
    store := new SqliteStore.Store(map[], true, 0);
    assert Claimable(store.runs, key, false, DEFAULT_STALE_MS, 0);
    var claimed;
    ghost var at, later;
    claimed, token, at, later := store.ClaimReview(key, false, None, None);
  }

  /** A store that shows `key` as reviewed. */
  method ReviewedStore(key: Key) returns (store: SqliteStore.Store)
    ensures fresh(store) && store.Orderly() && store.alone && store.clock == 0
    ensures key in store.runs && store.runs[key].status.Ok?
  {
    ghost var token;
    store, token := ClaimedStore(key);
    store.Append(Baseline(token, false, None, store.clock));
    assert PhaseOf(store.log, token) == Based(key, None);
    store.RecordRun(Record(0, key, RunStatus.Ok, "base", None, 0, 0), token, Workspace.FAILING_GIT);
  }

  /** A queue holding one job, for a full re-review of `key`. */
  method RereviewQueue(key: Key) returns (queue: SqliteQueue.Queue, ghost id: JobId)
    ensures fresh(queue) && queue.Valid() && queue.NotBefore(0) && queue.others == 0
    ensures queue.backoff.first > 0 && queue.backoff.ceiling > 0
    ensures queue.jobs == map[id := FreshRow(NewJob(key, None, Manual, true, 0), 0)]
  {
    queue := new SqliteQueue.Queue(0, None, None, None);
    var generated := queue.FreshId();
    var r := queue.Enqueue(generated, NewJob(key, None, Manual, true, 0), true, 0);
    id := generated;
  }

  const PR_AT_HEAD: Listing := _ => Some([OpenPr(1, "head", false, false)])

  lemma HeadIsWanted()
    ensures Wanted([RepoConfig("o/r", false)], PR_AT_HEAD, Key("o/r", 1, "head"))
  {
    var configs := [RepoConfig("o/r", false)];
    var pr := OpenPr(1, "head", false, false);
    assert configs[0] in configs && [pr][0] in [pr] && PR_AT_HEAD("o/r") == Some([pr]);
    assert Qualifies(configs[0], pr) && HeadOf(configs[0], pr) == Key("o/r", 1, "head");
  }

  /**
    A reviewed head and a job for a full re-review of an earlier head of the same pull request:
    the job's review claims the reviewed head, fails, and leaves it to the second sweep.
   */
  method RereviewUncovers() returns (first: Report, second: Report)
    ensures Key("o/r", 1, "head") in second.uncovered && second.enqueued > 0
  {
    var key := Key("o/r", 1, "head");
    var store := ReviewedStore(key);
    var queue;
    ghost var id;
    queue, id := RereviewQueue(Key("o/r", 1, "earlier"));
    var limit := (m: string) => false;
    HeadIsWanted();
    assert id in LeasableIds(queue.jobs, 0);
    assert CanClaim(store.runs, queue.jobs, 0, key, 0);
    var none := (text: string) => false;
    var opts := WorkerLoop.Options(
      None, None, None, RetryClassification.Patterns(none, none, none, none, none, none, none));
    first, second := SweepTwiceAtRisk(queue, store, [RepoConfig("o/r", false)], PR_AT_HEAD, 0, limit, opts, key);
  }
}
