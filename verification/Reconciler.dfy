/** The completeness sweep: every uncovered head of an open pull request gets a job row. */
module Reconciler {
  import opened Basics
  import opened JobTable
  import opened ReviewRuns
  import QueueHistory
  import SqliteQueue
  import SqliteStore
  import StoreHistory
  import WorkerLoop

  datatype OpenPr = OpenPr(number: nat, headSha: string, isDraft: bool, closed: bool)

  datatype RepoConfig = RepoConfig(repo: string, ignoreDraft: bool)

  datatype Report = Report(repos: nat, scanned: nat, uncovered: seq<Key>, enqueued: nat, processed: nat)

  /** What listing a repository returned; a listing that failed skips the repository. */
  type Listing = string -> Option<seq<OpenPr>>

  predicate Qualifies(cfg: RepoConfig, pr: OpenPr) {
    !pr.closed && !(pr.isDraft && cfg.ignoreDraft)
  }

  function HeadOf(cfg: RepoConfig, pr: OpenPr): Key {
    Key(cfg.repo, pr.number, pr.headSha)
  }

  /** The qualifying heads among `prs`, in order. */
  function HeadsOf(cfg: RepoConfig, prs: seq<OpenPr>): seq<Key> {
    if prs == [] then []
    else
      var n := |prs| - 1;
      HeadsOf(cfg, prs[..n]) + if Qualifies(cfg, prs[n]) then [HeadOf(cfg, prs[n])] else []
  }

  /** The qualifying heads of all listable repositories, in sweep order. */
  function Heads(configs: seq<RepoConfig>, listing: Listing): seq<Key> {
    if configs == [] then []
    else
      var n := |configs| - 1;
      var prs := listing(configs[n].repo);
      Heads(configs[..n], listing) + if prs.Some? then HeadsOf(configs[n], prs.value) else []
  }

  /** An open pull request of a listable repository that is neither closed nor an ignored draft. */
  ghost predicate Wanted(configs: seq<RepoConfig>, listing: Listing, key: Key) {
    exists cfg, pr | cfg in configs && listing(cfg.repo).Some? ::
      && pr in listing(cfg.repo).value && !pr.closed && (pr.isDraft ==> !cfg.ignoreDraft)
      && key == Key(cfg.repo, pr.number, pr.headSha)
  }

  lemma {:induction false} HeadsOfExactly(cfg: RepoConfig, prs: seq<OpenPr>, key: Key)
    ensures key in HeadsOf(cfg, prs) <==> exists pr | pr in prs :: Qualifies(cfg, pr) && HeadOf(cfg, pr) == key
  {
    if prs == [] {
    } else {
      HeadsOfExactly(cfg, prs[..|prs| - 1], key);
      assert prs == prs[..|prs| - 1] + [prs[|prs| - 1]];
    }
  }

  lemma {:induction false} HeadsExactly(configs: seq<RepoConfig>, listing: Listing, key: Key)
    ensures key in Heads(configs, listing) <==> Wanted(configs, listing, key)
  {
    if configs == [] {
    } else {
      var n := |configs| - 1;
      HeadsExactly(configs[..n], listing, key);
      assert configs == configs[..n] + [configs[n]];
      if listing(configs[n].repo).Some? {
        HeadsOfExactly(configs[n], listing(configs[n].repo).value, key);
      }
    }
  }

  lemma HeadsOfStep(cfg: RepoConfig, prs: seq<OpenPr>, j: nat)
    requires j < |prs|
    ensures Qualifies(cfg, prs[j]) ==> HeadsOf(cfg, prs[..j + 1]) == HeadsOf(cfg, prs[..j]) + [HeadOf(cfg, prs[j])]
    ensures !Qualifies(cfg, prs[j]) ==> HeadsOf(cfg, prs[..j + 1]) == HeadsOf(cfg, prs[..j])
  {
    assert prs[..j + 1][..j] == prs[..j];
  }

  lemma HeadsStep(configs: seq<RepoConfig>, listing: Listing, i: nat)
    requires i < |configs|
    ensures var prs := listing(configs[i].repo);
            Heads(configs[..i + 1], listing)
            == Heads(configs[..i], listing) + if prs.Some? then HeadsOf(configs[i], prs.value) else []
  {
    assert configs[..i + 1][..i] == configs[..i];
  }

  // ---- looking --------------------------------------------------------------------------------------

  predicate Covered(runs: Runs, key: Key, now: Time, limit: string -> bool) {
    ReviewedOrInFlight(runs, key, now, DEFAULT_STALE_MS, DEFAULT_LIMIT_COOLDOWN_MS, limit)
  }

  /** A check of a head: its answer, how much of the store's history it saw, and its clock reading. */
  datatype Check = Check(key: Key, seen: bool, n: nat, at: Time)

  function Checked(checks: seq<Check>): (keys: seq<Key>)
    ensures |keys| == |checks| && forall i | 0 <= i < |checks| :: keys[i] == checks[i].key
  {
    seq(|checks|, i requires 0 <= i < |checks| => checks[i].key)
  }

  /** The heads for which the check said no, in order. */
  function Unseen(checks: seq<Check>): seq<Key> {
    if checks == [] then []
    else
      var n := |checks| - 1;
      Unseen(checks[..n]) + if checks[n].seen then [] else [checks[n].key]
  }

  lemma {:induction false} UnseenExactly(checks: seq<Check>, key: Key)
    ensures key in Unseen(checks) <==> exists c | c in checks :: c.key == key && !c.seen
  {
    if checks == [] {
    } else {
      var n := |checks| - 1;
      assert checks == checks[..n] + [checks[n]];
      UnseenExactly(checks[..n], key);
    }
  }

  /** The check told whether its head was covered at the state and the reading it met. */
  ghost predicate Honest(log: StoreHistory.Log, c: Check, limit: string -> bool) {
    c.n <= |log| && c.seen == Covered(StoreHistory.Replay(log[..c.n]), c.key, c.at, limit)
  }

  ghost predicate AllHonest(log: StoreHistory.Log, checks: seq<Check>, limit: string -> bool) {
    forall c | c in checks :: Honest(log, c, limit)
  }

  /** Every check met the same history and the same clock reading. */
  predicate AtOnce(checks: seq<Check>, n: nat, now: Time) {
    forall c | c in checks :: c.n == n && c.at == now
  }

  lemma HonestyKept(log: StoreHistory.Log, more: StoreHistory.Log, c: Check, limit: string -> bool)
    requires Honest(log, c, limit) && log <= more
    ensures Honest(more, c, limit)
  {
    assert more[..c.n] == log[..c.n];
  }

  lemma AllHonestKept(log: StoreHistory.Log, more: StoreHistory.Log, checks: seq<Check>, limit: string -> bool)
    requires AllHonest(log, checks, limit) && log <= more
    ensures AllHonest(more, checks, limit)
  {
    forall c | c in checks
      ensures Honest(more, c, limit)
    {
      HonestyKept(log, more, c, limit);
    }
  }

  lemma OneMoreCheck(checks: seq<Check>, c: Check)
    ensures Checked(checks + [c]) == Checked(checks) + [c.key]
    ensures Unseen(checks + [c]) == if c.seen then Unseen(checks) else Unseen(checks) + [c.key]
  {
    assert (checks + [c])[..|checks|] == checks;
  }

  /** The check of one head; other pipelines may act before it. */
  method CheckHead(store: SqliteStore.Store, key: Key, limit: string -> bool, ghost checks: seq<Check>)
    returns (covered: bool, ghost checks': seq<Check>)
    requires store.Orderly() && AllHonest(store.log, checks, limit)
    modifies store
    ensures store.Orderly() && old(store.log) <= store.log && AllHonest(store.log, checks', limit)
    ensures Checked(checks') == Checked(checks) + [key]
    ensures Unseen(checks') == if covered then Unseen(checks) else Unseen(checks) + [key]
    ensures store.alone ==> store.log == old(store.log) && store.clock == old(store.clock)
    ensures store.alone && AtOnce(checks, |store.log|, store.clock) ==> AtOnce(checks', |store.log|, store.clock)
  {
    ghost var log := store.log;
    store.Yield({});
    ghost var at;
    covered, at := store.IsReviewedOrInFlight(key, None, None, limit);
    AllHonestKept(log, store.log, checks, limit);
    ghost var c := Check(key, covered, |store.log|, at);
    assert store.log[..c.n] == store.log;
    OneMoreCheck(checks, c);
    checks' := checks + [c];
  }

  lemma KeysStep(keys: seq<Key>, cfg: RepoConfig, prs: seq<OpenPr>, j: nat)
    requires j < |prs|
    ensures keys + HeadsOf(cfg, prs[..j + 1])
            == keys + HeadsOf(cfg, prs[..j]) + if Qualifies(cfg, prs[j]) then [HeadOf(cfg, prs[j])] else []
  {
    HeadsOfStep(cfg, prs, j);
  }

  /** One repository's listing. */
  method ScanRepo(
    store: SqliteStore.Store, cfg: RepoConfig, prs: seq<OpenPr>, limit: string -> bool,
    uncovered: seq<Key>, scanned: nat, ghost checks: seq<Check>
  ) returns (uncovered': seq<Key>, scanned': nat, ghost checks': seq<Check>)
    requires store.Orderly() && AllHonest(store.log, checks, limit) && uncovered == Unseen(checks)
    requires scanned == |checks|
    modifies store
    ensures store.Orderly() && old(store.log) <= store.log && AllHonest(store.log, checks', limit)
    ensures Checked(checks') == Checked(checks) + HeadsOf(cfg, prs)
    ensures uncovered' == Unseen(checks') && scanned' == |checks'|
    ensures store.alone ==> store.log == old(store.log) && store.clock == old(store.clock)
    ensures store.alone && AtOnce(checks, |store.log|, store.clock) ==> AtOnce(checks', |store.log|, store.clock)
  {
    ghost var keys := Checked(checks);
    uncovered', scanned', checks' := uncovered, scanned, checks;
    assert prs[..0] == [] && keys + [] == keys;
    for j := 0 to |prs|
      invariant store.Orderly() && old(store.log) <= store.log && AllHonest(store.log, checks', limit)
      invariant Checked(checks') == keys + HeadsOf(cfg, prs[..j])
      invariant uncovered' == Unseen(checks') && scanned' == |Checked(checks')|
      invariant store.alone ==> store.log == old(store.log) && store.clock == old(store.clock)
      invariant store.alone && AtOnce(checks, |store.log|, store.clock) ==> AtOnce(checks', |store.log|, store.clock)
    {
      KeysStep(keys, cfg, prs, j);
      var pr := prs[j];
      if pr.closed || (pr.isDraft && cfg.ignoreDraft) {
        continue;
      }
      scanned' := scanned' + 1;
      var covered;
      covered, checks' := CheckHead(store, HeadOf(cfg, pr), limit, checks');
      if covered {
        continue;
      }
      uncovered' := uncovered' + [HeadOf(cfg, pr)];
    }
    assert prs[..|prs|] == prs;
  }

  method Scan(store: SqliteStore.Store, configs: seq<RepoConfig>, listing: Listing, limit: string -> bool)
    returns (uncovered: seq<Key>, scanned: nat, ghost checks: seq<Check>)
    requires store.Orderly()
    modifies store
    ensures store.Orderly() && old(store.log) <= store.log && AllHonest(store.log, checks, limit)
    ensures Checked(checks) == Heads(configs, listing)
    ensures uncovered == Unseen(checks) && scanned == |checks|
    ensures store.alone ==>
              store.log == old(store.log) && store.clock == old(store.clock) && AtOnce(checks, |store.log|, store.clock)
  {
    uncovered, scanned, checks := [], 0, [];
    for i := 0 to |configs|
      invariant store.Orderly() && old(store.log) <= store.log && AllHonest(store.log, checks, limit)
      invariant Checked(checks) == Heads(configs[..i], listing)
      invariant uncovered == Unseen(checks) && scanned == |checks|
      invariant store.alone ==>
          store.log == old(store.log) && store.clock == old(store.clock) && AtOnce(checks, |store.log|, store.clock)
    {
      HeadsStep(configs, listing, i);
      var listed := listing(configs[i].repo);
      if listed.None? {
        continue;
      }
      uncovered, scanned, checks := ScanRepo(store, configs[i], listed.value, limit, uncovered, scanned, checks);
    }
    assert configs[..|configs|] == configs;
  }

  // ---- queueing --------------------------------------------------------------------------------------

  function Missing(t: Table, keys: seq<Key>): set<Key> {
    set key | key in keys && !HasKey(t, key)
  }

  ghost predicate AllQueued(t: Table, keys: seq<Key>) {
    forall key | key in keys :: HasKey(t, key)
  }

  /** A row the sweep adds: queued, due at once, with nothing tried yet and no full review asked for. */
  predicate IsFreshSweepJob(r: JobRow, now: Time) {
    && r.status.Queued? && r.visibleAt == r.createdAt == now && r.attempts == r.transientAttempts == 0
    && r.leaseId.None? && r.source.Reconciler? && !r.full
  }

  /** `t` is `start` with a row, due at once, added for each of `keys` that had none. */
  ghost predicate Filled(start: Table, t: Table, keys: seq<Key>, now: Time) {
    && AllQueued(t, keys)
    && (forall id | id in start :: id in t && t[id] == start[id])
    && (forall id | id in t && id !in start :: t[id].key in Missing(start, keys) && IsFreshSweepJob(t[id], now))
    && (Missing(start, keys) == {} ==> t == start)
  }

  function SweepJob(key: Key, now: Time): NewJob {
    NewJob(key, None, Source.Reconciler, false, now)
  }

  lemma EnqueueQueues(t: Table, id: JobId, key: Key, now: Time)
    requires id !in t
    ensures HasKey(JobTable.Enqueue(t, id, SweepJob(key, now), false, now).0, key)
  {
    var t' := JobTable.Enqueue(t, id, SweepJob(key, now), false, now).0;
    if !HasKey(t, key) {
      assert t'[id].key == key;
    }
  }

  lemma FilledWithNothing(start: Table, now: Time)
    ensures Filled(start, start, [], now) && Missing(start, []) == {}
  {
  }

  lemma FilledByNewRow(start: Table, t: Table, id: JobId, keys: seq<Key>, key: Key, now: Time)
    requires Filled(start, t, keys, now) && id !in t && !HasKey(t, key)
    ensures Filled(start, t[id := FreshRow(SweepJob(key, now), now)], keys + [key], now)
    ensures Missing(start, keys + [key]) == Missing(start, keys) + {key} && key !in Missing(start, keys)
  {
    var t' := t[id := FreshRow(SweepJob(key, now), now)];
    var missing := Missing(start, keys + [key]);
    assert t'[id].key == key && !HasKey(start, key) by {
      assert forall i | i in start :: t[i].key == start[i].key;
    }
    assert missing == Missing(start, keys) + {key};
    forall i | i in t' && i !in start
      ensures t'[i].key in missing && IsFreshSweepJob(t'[i], now)
    {
      assert i == id || t'[i] == t[i];
    }
    forall other | other in keys
      ensures HasKey(t', other)
    {
      var i :| i in t && t[i].key == other;
      assert t'[i].key == other;
    }
  }

  lemma FilledAlready(start: Table, t: Table, keys: seq<Key>, key: Key, now: Time)
    requires Filled(start, t, keys, now) && HasKey(t, key)
    ensures Filled(start, t, keys + [key], now) && Missing(start, keys + [key]) == Missing(start, keys)
  {
    var i :| i in t && t[i].key == key;
    assert i in start || key in Missing(start, keys);
  }

  lemma FilledStep(start: Table, t: Table, id: JobId, keys: seq<Key>, key: Key, now: Time)
    requires Filled(start, t, keys, now) && id !in t
    ensures Filled(start, JobTable.Enqueue(t, id, SweepJob(key, now), false, now).0, keys + [key], now)
    ensures |Missing(start, keys + [key])| == |Missing(start, keys)| + if HasKey(t, key) then 0 else 1
  {
    if HasKey(t, key) {
      FilledAlready(start, t, keys, key, now);
    } else {
      FilledByNewRow(start, t, id, keys, key, now);
    }
  }

  /** A job row, once there, stays whatever is called on the queue. */
  lemma KeysSurvive(log: QueueHistory.Log, more: QueueHistory.Log, keys: seq<Key>)
    requires QueueHistory.Valid(more) && log <= more && AllQueued(QueueHistory.Replay(log), keys)
    ensures AllQueued(QueueHistory.Replay(more), keys)
  {
    var t := QueueHistory.Replay(log);
    forall key | key in keys
      ensures HasKey(QueueHistory.Replay(more), key)
    {
      var id :| id in t && t[id].key == key;
      assert more[..|log|] == log;
      QueueHistory.RowsPersist(more, |log|, id);
    }
  }

  /** While no row is added, the keys that have rows stay the same. */
  lemma SameKeys(log: QueueHistory.Log, more: QueueHistory.Log)
    requires QueueHistory.Valid(more) && log <= more
    requires QueueHistory.Replay(log).Keys == QueueHistory.Replay(more).Keys
    ensures forall key :: HasKey(QueueHistory.Replay(log), key) <==> HasKey(QueueHistory.Replay(more), key)
  {
    var t, t' := QueueHistory.Replay(log), QueueHistory.Replay(more);
    assert more[..|log|] == log;
    forall id | id in t
      ensures t'[id].key == t[id].key
    {
      QueueHistory.RowsPersist(more, |log|, id);
    }
    forall key
      ensures HasKey(t, key) <==> HasKey(t', key)
    {
      if id :| id in t && t[id].key == key {
        assert t'[id].key == key;
      }
    }
  }

  /** One enqueue of the sweep; others may act on the queue before it. */
  method EnqueueHead(
    queue: SqliteQueue.Queue, key: Key, now: Time, ghost start: Table, ghost keys: seq<Key>
  ) returns (added: bool, later: Time)
    requires queue.Valid() && queue.NotBefore(now) && AllQueued(queue.jobs, keys)
    modifies queue`jobs, queue`nextId, queue`log, queue`others
    ensures queue.Valid() && queue.NotBefore(later) && now <= later && old(queue.log) <= queue.log
    ensures AllQueued(queue.jobs, keys + [key])
    ensures queue.others <= old(queue.others)
    ensures old(queue.others) == 0 && Filled(start, old(queue.jobs), keys, now) ==>
              && later == now && Filled(start, queue.jobs, keys + [key], now)
              && |Missing(start, keys + [key])| == |Missing(start, keys)| + if added then 1 else 0
  {
    ghost var t, log := queue.jobs, queue.log;
    later := queue.Yield(now);
    var id := queue.FreshId();
    EnqueueQueues(queue.jobs, id, key, later);
    if old(queue.others) == 0 && Filled(start, t, keys, now) {
      FilledStep(start, t, id, keys, key, now);
    }
    var r := queue.Enqueue(id, SweepJob(key, later), false, later);
    KeysSurvive(log, queue.log, keys);
    added := r == Enqueued;
  }

  /** Enqueue every key; undisturbed, only those without a row are added, each once. */
  method EnqueueAll(queue: SqliteQueue.Queue, keys: seq<Key>, now: Time) returns (enqueued: nat, later: Time)
    requires queue.Valid() && queue.NotBefore(now)
    modifies queue`jobs, queue`nextId, queue`log, queue`others
    ensures queue.Valid() && queue.NotBefore(later) && now <= later && old(queue.log) <= queue.log
    ensures AllQueued(queue.jobs, keys)
    ensures queue.others <= old(queue.others)
    ensures old(queue.others) == 0 ==>
        later == now && enqueued == |Missing(old(queue.jobs), keys)| && Filled(old(queue.jobs), queue.jobs, keys, now)
  {
    enqueued, later := 0, now;
    ghost var start := queue.jobs;
    FilledWithNothing(start, now);
    assert keys[..0] == [];
    for i := 0 to |keys|
      invariant queue.Valid() && queue.NotBefore(later) && now <= later && old(queue.log) <= queue.log
      invariant AllQueued(queue.jobs, keys[..i])
      invariant queue.others <= old(queue.others)
      invariant old(queue.others) == 0 ==>
                later == now && enqueued == |Missing(start, keys[..i])| && Filled(start, queue.jobs, keys[..i], now)
    {
      var added;
      added, later := EnqueueHead(queue, keys[i], later, start, keys[..i]);
      assert keys[..i + 1] == keys[..i] + [keys[i]];
      if added {
        enqueued := enqueued + 1;
      }
    }
    assert keys[..|keys|] == keys;
  }

  // ---- the sweep ---------------------------------------------------------------------------------------

  /** Each qualifying head was found covered when it was checked, or has a job row. */
  ghost predicate Complete(configs: seq<RepoConfig>, listing: Listing, checks: seq<Check>, t: Table) {
    forall key | Wanted(configs, listing, key) :: HasKey(t, key) || exists c | c in checks :: c.key == key && c.seen
  }

  lemma FillingCompletes(configs: seq<RepoConfig>, listing: Listing, checks: seq<Check>, t: Table)
    requires Checked(checks) == Heads(configs, listing) && AllQueued(t, Unseen(checks))
    ensures Complete(configs, listing, checks, t)
  {
    forall key | Wanted(configs, listing, key)
      ensures HasKey(t, key) || exists c | c in checks :: c.key == key && c.seen
    {
      HeadsExactly(configs, listing, key);
      var i :| 0 <= i < |checks| && checks[i].key == key;
      UnseenExactly(checks, key);
      assert checks[i] in checks;
    }
  }

  /** Whatever is done to the queue later, a qualifying head that had a job row keeps it. */
  lemma CompleteForGood(
    configs: seq<RepoConfig>, listing: Listing, checks: seq<Check>, log: QueueHistory.Log, more: QueueHistory.Log
  )
    requires QueueHistory.Valid(more) && log <= more && Complete(configs, listing, checks, QueueHistory.Replay(log))
    ensures Complete(configs, listing, checks, QueueHistory.Replay(more))
  {
    forall key | Wanted(configs, listing, key) && HasKey(QueueHistory.Replay(log), key)
      ensures HasKey(QueueHistory.Replay(more), key)
    {
      KeysSurvive(log, more, [key]);
      assert key in [key];
    }
  }

  /** Undisturbed, the sweep queued what was missing and then, if asked to, drained the queue. */
  ghost predicate Undisturbed(
    start: Table, filled: Table, t: Table, now: Time, report: Report, process: bool, turns: seq<WorkerLoop.Turn>
  ) {
    && report.enqueued == |Missing(start, report.uncovered)| && Filled(start, filled, report.uncovered, now)
    && (forall key :: HasKey(filled, key) <==> HasKey(t, key))
    && if process then WorkerLoop.Exhausted(filled, t, now, turns) else filled == t
  }

  /** The sweep up to the drain. */
  method ScanAndEnqueue(
    queue: SqliteQueue.Queue, store: SqliteStore.Store, configs: seq<RepoConfig>, listing: Listing,
    now: Time, limit: string -> bool, dryRun: bool
  ) returns (report: Report, later: Time, ghost checks: seq<Check>)
    requires queue.Valid() && queue.NotBefore(now) && store.Orderly()
    modifies queue`jobs, queue`nextId, queue`log, queue`others, store
    ensures queue.Valid() && queue.NotBefore(later) && now <= later && old(queue.log) <= queue.log
    ensures queue.others <= old(queue.others) && (old(queue.others) == 0 ==> later == now)
    ensures store.Orderly() && old(store.log) <= store.log
    ensures Checked(checks) == Heads(configs, listing) && AllHonest(store.log, checks, limit)
    ensures report.repos == |configs| && report.scanned == |checks| && report.uncovered == Unseen(checks)
    ensures report.processed == 0
    ensures dryRun ==> report.enqueued == 0 && queue.log == old(queue.log)
    ensures !dryRun ==> Complete(configs, listing, checks, queue.jobs)
    ensures !dryRun && old(queue.others) == 0 ==>
              && report.enqueued == |Missing(old(queue.jobs), report.uncovered)|
              && Filled(old(queue.jobs), queue.jobs, report.uncovered, now)
    ensures store.alone ==>
              store.log == old(store.log) && store.clock == old(store.clock) && AtOnce(checks, |store.log|, store.clock)
  {
    later := now;
    var uncovered, scanned;
    uncovered, scanned, checks := Scan(store, configs, listing, limit);
    var enqueued := 0;
    if !dryRun {
      enqueued, later := EnqueueAll(queue, uncovered, now);
      FillingCompletes(configs, listing, checks, queue.jobs);
    }
    report := Report(|configs|, scanned, uncovered, enqueued, 0);
  }

  /**
    After a sweep that is not a dry run, whatever others do to the store and the queue meanwhile,
    every qualifying open pull request of a listable repository was found covered when it was
    checked or has a job row; a sweep that processes ends where no job is leasable.
   */
  method Reconcile(
    queue: SqliteQueue.Queue, store: SqliteStore.Store, configs: seq<RepoConfig>, listing: Listing,
    now: Time, limit: string -> bool, dryRun: bool, process: bool,
    works: SqliteQueue.LeasedJob -> WorkerLoop.Work, opts: WorkerLoop.Options
  ) returns (
    report: Report, later: Time, ghost checks: seq<Check>, ghost filled: Table, ghost turns: seq<WorkerLoop.Turn>
  )
    requires queue.Valid() && queue.NotBefore(now) && store.Orderly()
    requires process && !dryRun ==> WorkerLoop.PositiveDelays(queue, opts)
    requires process && !dryRun ==> forall job :: WorkerLoop.Sound(works(job), store.graph)
    modifies queue`jobs, queue`nextId, queue`log, queue`others, store
    ensures queue.Valid() && queue.NotBefore(later) && now <= later && old(queue.log) <= queue.log
    ensures queue.others <= old(queue.others) && (old(queue.others) == 0 ==> later == now)
    ensures store.Orderly() && old(store.log) <= store.log
    ensures Checked(checks) == Heads(configs, listing) && AllHonest(store.log, checks, limit)
    ensures report.repos == |configs| && report.scanned == |checks| && report.uncovered == Unseen(checks)
    ensures dryRun ==> report.enqueued == report.processed == 0 && queue.log == old(queue.log)
    ensures !dryRun ==> Complete(configs, listing, checks, queue.jobs) && report.processed == |turns|
    ensures !dryRun && process ==> JobTable.LeasableIds(queue.jobs, later) == {}
    ensures !dryRun && !process ==> turns == []
    ensures !dryRun && old(queue.others) == 0 ==>
              Undisturbed(old(queue.jobs), filled, queue.jobs, now, report, process, turns)
    ensures store.alone ==> store.clock == old(store.clock) && AtOnce(checks, |old(store.log)|, store.clock)
    ensures store.alone && (dryRun || !process) ==> store.log == old(store.log)
    ensures store.alone && !dryRun && process ==>
              WorkerLoop.Serviced(old(store.log), store.log, turns, works, Some(store.clock))
  {
    turns := [];
    report, later, checks := ScanAndEnqueue(queue, store, configs, listing, now, limit, dryRun);
    filled := queue.jobs;
    if process && !dryRun {
      ghost var log, slog := queue.log, store.log;
      var processed;
      ghost var stands, spans;
      processed, later, stands, turns, spans := WorkerLoop.DrainQueue(queue, store, works, opts, later);
      CompleteForGood(configs, listing, checks, log, queue.log);
      AllHonestKept(slog, store.log, checks, limit);
      if old(queue.others) == 0 {
        SameKeys(log, queue.log);
      }
      report := report.(processed := processed);
    }
  }
}
