/** Settlement routing and the drain loop. */
module WorkerLoop {
  import opened Basics
  import opened JobTable
  import opened QueueHistory
  import opened RetryClassification
  import opened RetrySchedule
  import opened SqliteQueue
  import CommitGraph
  import Pipeline
  import ReviewRuns
  import SqliteStore
  import StoreHistory
  import Workspace

  /** How one job's processing ended: building its dependencies may throw, so may the pipeline. */
  datatype Attempt =
    | DepsThrew(failure: Failure)
    | PipelineThrew(failure: Failure)
    | Returned(outcome: Pipeline.Outcome)

  /**
    What a job's processing meets outside: dependencies that cannot be built, or else the
    repository's settings, what the pipeline's calls return, and what is thrown if they throw.
   */
  datatype Work = Work(deps: Option<Failure>, settings: Pipeline.RepoSettings, env: Pipeline.Environment,
      thrown: Failure)

  ghost predicate Sound(work: Work, g: CommitGraph.Graph) {
    Workspace.Truthful(work.env.git, g) && Pipeline.Reports(work.env)
  }

  datatype Options = Options(
    visibilityTimeoutMs: Option<int>,
    retryDelayMs: Option<int>,
    unknownMaxAttempts: Option<int>,
    patterns: Patterns
  )

  const DEFAULT_VISIBILITY_TIMEOUT_MS := 2_100_000
  const DEFAULT_RETRY_DELAY_MS := 60_000
  const DEFAULT_UNKNOWN_MAX_ATTEMPTS := 3

  function Timeout(opts: Options): int {
    if opts.visibilityTimeoutMs.Some? then opts.visibilityTimeoutMs.value else DEFAULT_VISIBILITY_TIMEOUT_MS
  }

  function RetryDelay(opts: Options): int {
    if opts.retryDelayMs.Some? then opts.retryDelayMs.value else DEFAULT_RETRY_DELAY_MS
  }

  function UnknownCap(opts: Options): int {
    if opts.unknownMaxAttempts.Some? then opts.unknownMaxAttempts.value else DEFAULT_UNKNOWN_MAX_ATTEMPTS
  }

  /** The settlement a failure class calls for. */
  function Route(cls: FailureClass, opts: Options, maxAttempts: int, backoff: Backoff): Settlement {
    match cls
    case Transient => NackTransient(backoff)
    case Unknown => Nack(UnknownCap(opts), RetryDelay(opts))
    case Permanent => Nack(maxAttempts, RetryDelay(opts))
  }

  /** The settlement an attempt ends in. */
  function Verdict(a: Attempt, opts: Options, maxAttempts: int, backoff: Backoff): Settlement {
    match a
    case DepsThrew(f) => Route(Classify(opts.patterns, f), opts, maxAttempts, backoff)
    case PipelineThrew(f) => Route(Classify(opts.patterns, f), opts, maxAttempts, backoff)
    case Returned(outcome) =>
      if outcome.Error? && outcome.retriable
      then Route(Classify(opts.patterns, OfMessage(outcome.message)), opts, maxAttempts, backoff)
      else Ack
  }

  /** A full re-review also bypasses the dedupe of a completed head. */
  function RequestOf(job: LeasedJob): Pipeline.Request {
    Pipeline.Request(job.key.repo, job.key.pr, false, job.full, job.full, false)
  }

  // ---- one job -------------------------------------------------------------------------------------

  /** One job's processing: the pipeline run it made, and the stretch of the store's history that took. */
  datatype Turn = Turn(job: LeasedJob, token: ReviewRuns.Token, exit: Pipeline.Exit, posted: bool,
      course: Pipeline.Course, from: nat)

  function AttemptOf(work: Work, exit: Pipeline.Exit): Attempt {
    if work.deps.Some? then DepsThrew(work.deps.value)
    else
      match exit
      case Threw(_) => PipelineThrew(work.thrown)
      case Returned(outcome) => Returned(outcome)
  }

  function TurnVerdict(work: Work, turn: Turn, opts: Options, maxAttempts: int, backoff: Backoff): Settlement {
    Verdict(AttemptOf(work, turn.exit), opts, maxAttempts, backoff)
  }

  /** The turn, ending with the history `log`, did what the pipeline does, under a token new to the store. */
  ghost predicate Told(log: StoreHistory.Log, turn: Turn, work: Work) {
    && turn.from <= |log| && (forall i | 0 <= i < turn.from :: log[i].token != turn.token)
    && (work.deps.Some? ==> turn.from == |log|)
    && (work.deps.None? ==>
          && turn.from <= turn.course.claim && turn.from <= turn.course.read
          && Pipeline.AsAsked(log, turn.token, work.env, work.settings, RequestOf(turn.job))
          && Pipeline.Followed(log, turn.token, work.env, work.settings, RequestOf(turn.job), turn.exit, turn.posted,
              turn.course))
  }

  /** With the store to itself, the turn added its own events only. */
  ghost predicate ToldAlone(log: StoreHistory.Log, turn: Turn, work: Work, clock: Time)
    requires turn.from <= |log|
  {
    var req := RequestOf(turn.job);
    if work.deps.Some? || Pipeline.EarlyExit(work.env, work.settings, req).Some? then turn.from == |log|
    else
      var a := Pipeline.Assigned(work.env, work.settings, req, work.env.pullRequest.value);
      Pipeline.SoloRun(log[..turn.from], clock, log, clock, turn.token, a, false, req.force, turn.exit, turn.course)
  }

  /** `log` is some history after `before`, and then the settlement. */
  ghost predicate SettledLast(before: Log, log: Log, lease: LeaseId, s: Settlement, at: Time) {
    log != [] && before <= log[..|log| - 1] && log[|log| - 1] == SettleCall(lease, s, at)
  }

  /**
    What settling does to the row of a job that failed: one that clears on its own is queued
    again with its attempt given back and the back-off of its transient counter; a refusal stays
    within the queue's cap, anything else within the small one.
   */
  predicate SettledByCause(
    r: JobRow, r': JobRow, f: Failure, opts: Options, maxAttempts: int, backoff: Backoff, now: Time
  ) {
    && r'.key == r.key && r'.leaseId.None? && r'.full == r.full && r'.createdAt == r.createdAt
    && if Clears(opts.patterns, f) then
         && r'.status.Queued? && r'.attempts == r.attempts - 1 && r'.transientAttempts == r.transientAttempts + 1
         && r'.visibleAt == now + Min(backoff.first * Pow2(r.transientAttempts), backoff.ceiling)
       else
         var small := if opts.unknownMaxAttempts.Some? then opts.unknownMaxAttempts.value else 3;
         var cap := if Refused(opts.patterns, f) then maxAttempts else small;
         var delay := if opts.retryDelayMs.Some? then opts.retryDelayMs.value else 60_000;
         && r'.attempts == r.attempts && r'.transientAttempts == r.transientAttempts
         && if r.attempts >= cap then r'.status.DeadLetter? else r'.status.Queued? && r'.visibleAt == now + delay
  }

  lemma RoutedByCause(r: JobRow, f: Failure, opts: Options, maxAttempts: int, backoff: Backoff, now: Time)
    requires r.attempts >= 1
    ensures var s := Route(Classify(opts.patterns, f), opts, maxAttempts, backoff);
            SettledByCause(r, SettledRow(r, s, now), f, opts, maxAttempts, backoff, now)
  {
    ClassByCause(opts.patterns, f);
  }

  lemma HoldersRoutedByCause(
    log: Log, lease: LeaseId, f: Failure, opts: Options, maxAttempts: int, backoff: Backoff, now: Time
  )
    requires Valid(log)
    ensures var s := Route(Classify(opts.patterns, f), opts, maxAttempts, backoff);
            forall id | Holds(Replay(log), id, lease) ::
              SettledByCause(
                Replay(log)[id], SettledRow(Replay(log)[id], s, now), f, opts, maxAttempts, backoff, now)
  {
    forall id | Holds(Replay(log), id, lease)
      ensures var s := Route(Classify(opts.patterns, f), opts, maxAttempts, backoff);
              SettledByCause(Replay(log)[id], SettledRow(Replay(log)[id], s, now), f, opts, maxAttempts, backoff, now)
    {
      ClampNeverFires(log, id);
      RoutedByCause(Replay(log)[id], f, opts, maxAttempts, backoff, now);
    }
  }

  method SettleFailure(queue: Queue, lease: LeaseId, failure: Failure, opts: Options, now: Time)
    requires queue.Valid() && queue.NotBefore(now)
    modifies queue`jobs, queue`log
    ensures queue.Valid()
    ensures var s := Route(Classify(opts.patterns, failure), opts, queue.maxAttempts, queue.backoff);
            && queue.log == old(queue.log) + [SettleCall(lease, s, now)]
            && queue.jobs == Settle(old(queue.jobs), lease, s, now)
    ensures queue.jobs.Keys == old(queue.jobs).Keys
    ensures forall id | id in queue.jobs ::
              if Holds(old(queue.jobs), id, lease) then
                SettledByCause(
                  old(queue.jobs)[id], queue.jobs[id], failure, opts, queue.maxAttempts, queue.backoff, now)
              else queue.jobs[id] == old(queue.jobs)[id]
  {
    HoldersRoutedByCause(queue.log, lease, failure, opts, queue.maxAttempts, queue.backoff, now);
    var cls := Classify(opts.patterns, failure);
    ghost var s := Route(cls, opts, queue.maxAttempts, queue.backoff);
    if cls == Transient {
      assert s == NackTransient(queue.backoff);
      queue.NackTransient(lease, now);
      return;
    }
    if cls == Unknown {
      assert s == Nack(UnknownCap(opts), RetryDelay(opts));
      queue.Nack(lease, RetryDelay(opts), Some(UnknownCap(opts)), now);
      return;
    }
    assert s == Nack(queue.maxAttempts, RetryDelay(opts));
    queue.Nack(lease, RetryDelay(opts), None, now);
  }

  /** Settle by how the pipeline ended. */
  method SettleAttempt(queue: Queue, lease: LeaseId, attempt: Attempt, opts: Options, now: Time)
    requires queue.Valid() && queue.NotBefore(now)
    modifies queue`jobs, queue`log
    ensures queue.Valid()
    ensures var s := Verdict(attempt, opts, queue.maxAttempts, queue.backoff);
            && queue.log == old(queue.log) + [SettleCall(lease, s, now)]
            && queue.jobs == Settle(old(queue.jobs), lease, s, now)
  {
    ghost var s := Verdict(attempt, opts, queue.maxAttempts, queue.backoff);
    match attempt {
      case DepsThrew(failure) =>
        SettleFailure(queue, lease, failure, opts, now);
      case PipelineThrew(failure) =>
        SettleFailure(queue, lease, failure, opts, now);
      case Returned(outcome) =>
        if outcome.Error? && outcome.retriable {
          SettleFailure(queue, lease, OfMessage(outcome.message), opts, now);
        } else {
          assert s == Ack;
          queue.Ack(lease, now);
        }
    }
  }

  /** The review of a leased job. */
  method ReviewJob(store: SqliteStore.Store, job: LeasedJob, work: Work) returns (exit: Pipeline.Exit, ghost turn: Turn)
    requires store.Orderly() && Sound(work, store.graph) && work.deps.None?
    modifies store
    ensures store.Orderly() && old(store.log) <= store.log
    ensures turn.job == job && turn.exit == exit && turn.from == |old(store.log)| && Told(store.log, turn, work)
    ensures store.alone ==> store.clock == old(store.clock) && ToldAlone(store.log, turn, work, store.clock)
  {
    ghost var log := store.log;
    var posted, token;
    ghost var course;
    exit, posted, token, course := Pipeline.ReviewPipeline(store, work.env, work.settings, RequestOf(job));
    turn := Turn(job, token, exit, posted, course, |log|);
    assert store.log[..|log|] == log;
  }

  /** Run the review of a leased job, then settle its lease by how the review ended. */
  method ProcessLeased(queue: Queue, store: SqliteStore.Store, job: LeasedJob, work: Work, opts: Options, now: Time)
    returns (at: Time, ghost turn: Turn)
    requires queue.Valid() && queue.NotBefore(now) && store.Orderly() && Sound(work, store.graph) && work.deps.None?
    modifies queue`jobs, queue`nextId, queue`log, queue`others, store
    ensures store.Orderly() && old(store.log) <= store.log
    ensures turn.job == job && turn.from == |old(store.log)| && Told(store.log, turn, work)
    ensures store.alone ==> store.clock == old(store.clock) && ToldAlone(store.log, turn, work, store.clock)
    ensures queue.Valid() && queue.NotBefore(at) && now <= at
    ensures var s := TurnVerdict(work, turn, opts, queue.maxAttempts, queue.backoff);
            SettledLast(old(queue.log), queue.log, job.leaseId, s, at)
    ensures if old(queue.others) > 0 then queue.others < old(queue.others) else queue.others == 0
    ensures old(queue.others) == 0 ==>
              var s := TurnVerdict(work, turn, opts, queue.maxAttempts, queue.backoff);
              && at == now && queue.log == old(queue.log) + [SettleCall(job.leaseId, s, at)]
              && queue.jobs == Settle(old(queue.jobs), job.leaseId, s, at)
  {
    var exit;
    exit, turn := ReviewJob(store, job, work);
    at := queue.Yield(now);
    SettleAttempt(queue, job.leaseId, AttemptOf(work, exit), opts, at);
  }

  /** Also when the dependencies cannot be built, the lease is settled. */
  method RunLeased(queue: Queue, store: SqliteStore.Store, job: LeasedJob, work: Work, opts: Options, now: Time)
    returns (at: Time, ghost turn: Turn)
    requires queue.Valid() && queue.NotBefore(now) && store.Orderly() && Sound(work, store.graph)
    modifies queue`jobs, queue`nextId, queue`log, queue`others, store
    ensures store.Orderly() && old(store.log) <= store.log
    ensures turn.job == job && turn.from == |old(store.log)| && Told(store.log, turn, work)
    ensures store.alone ==> store.clock == old(store.clock) && ToldAlone(store.log, turn, work, store.clock)
    ensures queue.Valid() && queue.NotBefore(at) && now <= at
    ensures var s := TurnVerdict(work, turn, opts, queue.maxAttempts, queue.backoff);
            SettledLast(old(queue.log), queue.log, job.leaseId, s, at)
    ensures if old(queue.others) > 0 then queue.others < old(queue.others) else queue.others == 0
    ensures old(queue.others) == 0 ==>
              var s := TurnVerdict(work, turn, opts, queue.maxAttempts, queue.backoff);
              && at == now && queue.log == old(queue.log) + [SettleCall(job.leaseId, s, at)]
              && queue.jobs == Settle(old(queue.jobs), job.leaseId, s, at)
  {
    if work.deps.None? {
      at, turn := ProcessLeased(queue, store, job, work, opts, now);
      return;
    }
    turn := Turn(job, store.nextToken, Pipeline.Threw(true), false, Pipeline.Course(0, 0, 0, None, 0), |store.log|);
    at := queue.Yield(now);
    SettleFailure(queue, job.leaseId, work.deps.value, opts, at);
  }

  // ---- what a settlement means for the review --------------------------------------------------------

  /** The claim was refused because somebody had covered the head or was reviewing it. */
  ghost predicate InGoodHands(log: StoreHistory.Log, key: Key, c: Pipeline.Course) {
    && c.claim <= |log|
    && var runs := StoreHistory.Replay(log[..c.claim]);
       && key in runs
       && (ReviewRuns.IsCovered(runs[key])
           || (runs[key].status.Running? && runs[key].startedAt >= c.at - ReviewRuns.DEFAULT_STALE_MS))
  }

  /** The head was recorded: reviewed, gated out, or failed in a way its runner called final. */
  ghost predicate RecordedForGood(log: StoreHistory.Log, turn: Turn, a: Pipeline.Assignment) {
    var c := turn.course;
    && Pipeline.RecordedItsRange(log, c.record, turn.token, a, c.last)
    && var d := Pipeline.DiffOf(a, c.last);
       || Pipeline.StatusOf(a.env, d) != ReviewRuns.RunStatus.Error
       || (a.env.review(d).Some? && a.env.review(d).value.retriable == Some(false))
  }

  /** The pull request wants no review, someone else has it, or this run recorded it. */
  ghost predicate NotLost(log: StoreHistory.Log, turn: Turn, work: Work) {
    && work.deps.None? && work.env.pullRequest.Some?
    && var pr := work.env.pullRequest.value;
       var a := Pipeline.Assigned(work.env, work.settings, RequestOf(turn.job), pr);
       || pr.closed || (pr.isDraft && work.settings.ignoreDraft)
       || (!turn.job.full && InGoodHands(log, a.key, turn.course))
       || RecordedForGood(log, turn, a)
  }

  /** An acked job is never a lost review, whatever other pipelines did meanwhile and whatever threw. */
  lemma AckedIsNotLost(log: StoreHistory.Log, turn: Turn, work: Work, opts: Options, maxAttempts: int, backoff: Backoff)
    requires Told(log, turn, work)
    requires TurnVerdict(work, turn, opts, maxAttempts, backoff).Ack?
    ensures NotLost(log, turn, work)
  {
    assert work.deps.None? && turn.exit.Returned?;
    assert Pipeline.EarlyExit(work.env, work.settings, RequestOf(turn.job)).None? ==> work.env.pullRequest.Some?;
  }

  /**
    A failure whose class is transient leaves its job queued with the budget it had before the
    lease; any other class dead-letters it exactly when its own budget is spent.
   */
  lemma RoutingKeepsOrSpends(
    log: Log, id: JobId, lease: LeaseId, f: Failure, opts: Options, maxAttempts: int, backoff: Backoff,
    now: Time
  )
    requires Valid(log) && Holds(Replay(log), id, lease)
    requires log != [] ==> Ends(log[|log| - 1]) <= now
    ensures var cls := Classify(opts.patterns, f);
            var e := SettleCall(lease, Route(cls, opts, maxAttempts, backoff), now);
            var r, c := Replay(log + [e])[id], TallyOf(log + [e], id);
            && Valid(log + [e]) && id in Replay(log + [e])
            && (cls.Transient? ==>
                r.status.Queued? && r.attempts == c.nacks + c.expiries == Replay(log)[id].attempts - 1)
            && (cls.Permanent? ==> (r.status.DeadLetter? <==> c.nacks + c.expiries >= maxAttempts))
            && (cls.Unknown? ==> (r.status.DeadLetter? <==> c.nacks + c.expiries >= UnknownCap(opts)))
  {
    var cls := Classify(opts.patterns, f);
    var e := SettleCall(lease, Route(cls, opts, maxAttempts, backoff), now);
    assert (log + [e])[..|log + [e]| - 1] == log;
    TableSound(log);
    AttemptsConserved(log, id);
    AttemptsConserved(log + [e], id);
    DeadLetterExactly(log, e, id);
  }

  /** A settlement gives the attempt back exactly when it is the transient one. */
  lemma TransientGivesBack(log: Log, id: JobId, lease: LeaseId, s: Settlement, now: Time)
    requires Valid(log) && Holds(Replay(log), id, lease)
    ensures var t := Replay(log + [SettleCall(lease, s, now)]);
            id in t && t[id].attempts == Replay(log)[id].attempts - if s.NackTransient? then 1 else 0
  {
    Appended(log, SettleCall(lease, s, now));
    ClampNeverFires(log, id);
  }

  /**
    Client errors cannot be retried for ever: settling a failure with a 4xx status keeps the
    attempt spent exactly unless the status is 408 or 429, or a 403 that reads as a rate limit.
   */
  lemma ClientErrorSpendsExactly(
    log: Log, id: JobId, lease: LeaseId, f: Failure, opts: Options, maxAttempts: int, backoff: Backoff, now: Time
  )
    requires Valid(log) && Holds(Replay(log), id, lease)
    requires f.status.Some? && 400 <= f.status.value <= 499 && !Stamped(f) && !SocketOrAbort(f)
    ensures var s := Route(Classify(opts.patterns, f), opts, maxAttempts, backoff);
            var t := Replay(log + [SettleCall(lease, s, now)]);
            id in t && (t[id].attempts == Replay(log)[id].attempts
                        <==> f.status.value !in {408, 429}
                             && !(f.status.value == 403 && opts.patterns.rateLimit403(Text(f))))
  {
    ClientErrorIsPermanent(opts.patterns, f);
    TransientGivesBack(log, id, lease, Route(Classify(opts.patterns, f), opts, maxAttempts, backoff), now);
  }

  /** The pipeline's message about a broken configuration carries the stamp that makes it transient. */
  lemma ConfigMessageIsTransient(patterns: Patterns, repo: string, problem: string)
    ensures Classify(patterns, OfMessage(Pipeline.ConfigMessage(repo, problem))) == Transient
  {
    assert Pipeline.ConfigMessage(repo, problem) == CONFIG_ERROR_PREFIX + (" " + repo + ": " + problem);
  }

  lemma ConfigProblemIsRetried(
    log: StoreHistory.Log, turn: Turn, work: Work, opts: Options, maxAttempts: int, backoff: Backoff
  )
    requires Told(log, turn, work) && work.deps.None? && work.env.configProblem.Some?
    ensures TurnVerdict(work, turn, opts, maxAttempts, backoff) == NackTransient(backoff)
  {
    var repo, problem := turn.job.key.repo, work.env.configProblem.value;
    assert turn.exit == Pipeline.Exit.Returned(Pipeline.Outcome.Error(Pipeline.ConfigMessage(repo, problem), true));
    ConfigMessageIsTransient(opts.patterns, repo, problem);
  }

  /**
    A broken runner configuration loses no job: the pipeline's own message marks the failure as
    transient, so the job stays queued with the budget it had before the lease.
   */
  lemma ConfigProblemKeepsJob(
    slog: StoreHistory.Log, turn: Turn, work: Work, log: Log, id: JobId, lease: LeaseId, opts: Options,
    maxAttempts: int, backoff: Backoff, now: Time
  )
    requires Told(slog, turn, work) && work.deps.None? && work.env.configProblem.Some?
    requires Holds(Replay(log), id, lease)
    requires Valid(log + [SettleCall(lease, TurnVerdict(work, turn, opts, maxAttempts, backoff), now)])
    ensures var t := Replay(log + [SettleCall(lease, TurnVerdict(work, turn, opts, maxAttempts, backoff), now)]);
            id in t && t[id].status.Queued? && t[id].attempts == Replay(log)[id].attempts - 1
  {
    ConfigProblemIsRetried(slog, turn, work, opts, maxAttempts, backoff);
    var e := SettleCall(lease, NackTransient(backoff), now);
    assert (log + [e])[..|log + [e]| - 1] == log;
    ClampNeverFires(log, id);
  }

  // ---- the drain ---------------------------------------------------------------------------------------

  ghost predicate PositiveDelays(queue: Queue, opts: Options) {
    Timeout(opts) > 0 && RetryDelay(opts) > 0 && queue.backoff.first > 0 && queue.backoff.ceiling > 0
  }

  predicate DelaysAreLater(s: Settlement) {
    match s
    case Ack => true
    case Nack(_, retryIn) => retryIn > 0
    case NackTransient(policy) => policy.first > 0 && policy.ceiling > 0
  }

  /** Settling the job just leased, with positive delays, removes it from the leasable ones. */
  lemma LeaseAndSettleRemoves(t: Table, id: JobId, lease: LeaseId, until: Time, s: Settlement, now: Time)
    requires id in t && until > now
    requires forall other | other in t :: t[other].leaseId != Some(lease)
    requires DelaysAreLater(s)
    ensures var t' := Settle(t[id := LeasedRow(t[id], lease, now, until)], lease, s, now);
            && t'.Keys == t.Keys
            && (forall other | other in t && other != id :: t'[other] == t[other])
            && LeasableIds(t', now) == LeasableIds(t, now) - {id}
  {
    if s.NackTransient? {
      BackoffPositive(s.policy, t[id].transientAttempts + 1);
    }
  }

  lemma VerdictDelaysPositive(attempt: Attempt, opts: Options, maxAttempts: int, backoff: Backoff)
    requires RetryDelay(opts) > 0 && backoff.first > 0 && backoff.ceiling > 0
    ensures DelaysAreLater(Verdict(attempt, opts, maxAttempts, backoff))
  {
  }

  /** `order` lists exactly `ids`, each once, in lease order. */
  ghost predicate InLeaseOrder(t: Table, ids: set<JobId>, order: seq<JobId>) {
    && ids <= t.Keys
    && (forall id :: id in order <==> id in ids)
    && (forall i, j | 0 <= i < j < |order| :: order[i] in t && order[j] in t && Before(t, order[i], order[j]))
  }

  function Ids(turns: seq<Turn>): (ids: seq<JobId>)
    ensures |ids| == |turns| && forall k | 0 <= k < |turns| :: ids[k] == turns[k].job.id
  {
    seq(|turns|, k requires 0 <= k < |turns| => turns[k].job.id)
  }

  /** What a drain works under: each leased job's circumstances, its options and the queue's. */
  datatype Terms = Terms(works: LeasedJob -> Work, opts: Options, maxAttempts: int, backoff: Backoff)

  function TermsOf(queue: Queue, works: LeasedJob -> Work, opts: Options): Terms {
    Terms(works, opts, queue.maxAttempts, queue.backoff)
  }

  function VerdictOf(terms: Terms, turn: Turn): Settlement {
    TurnVerdict(terms.works(turn.job), turn, terms.opts, terms.maxAttempts, terms.backoff)
  }

  /** The first job of `t` is worked off, the others stay. */
  ghost predicate TakesFirst(t: Table, t': Table, now: Time, job: LeasedJob) {
    && IsNext(t, now, job.id) && job.key == t[job.id].key && job.full == t[job.id].full
    && LeasableIds(t', now) == LeasableIds(t, now) - {job.id} && t'.Keys == t.Keys
    && forall other | other in t && other != job.id :: t'[other] == t[other]
  }

  /** The store's history is `begun` followed by the stretches the turns took. */
  ghost predicate Serviced(
    begun: StoreHistory.Log, log: StoreHistory.Log, turns: seq<Turn>, works: LeasedJob -> Work, frozen: Option<Time>
  )
    decreases |turns|, 1
  {
    if turns == [] then log == begun else ServicedLast(begun, log, turns, works, frozen)
  }

  ghost predicate ServicedLast(
    begun: StoreHistory.Log, log: StoreHistory.Log, turns: seq<Turn>, works: LeasedJob -> Work, frozen: Option<Time>
  )
    requires turns != []
    decreases |turns|, 0
  {
    var last := turns[|turns| - 1];
    && Told(log, last, works(last.job)) && (frozen.Some? ==> ToldAlone(log, last, works(last.job), frozen.value))
    && Serviced(begun, log[..last.from], turns[..|turns| - 1], works, frozen)
  }

  /** The one reading of a clock that stands still. */
  ghost function Frozen(store: SqliteStore.Store): Option<Time>
    reads store
  {
    if store.alone then Some(store.clock) else None
  }

  lemma ExtendServiced(
    begun: StoreHistory.Log, log: StoreHistory.Log, more: StoreHistory.Log, turns: seq<Turn>, works: LeasedJob -> Work,
    frozen: Option<Time>, turn: Turn
  )
    requires Serviced(begun, log, turns, works, frozen) && log <= more && turn.from == |log|
    requires Told(more, turn, works(turn.job)) &&
        (frozen.Some? ==> ToldAlone(more, turn, works(turn.job), frozen.value))
    ensures Serviced(begun, more, turns + [turn], works, frozen)
  {
    assert (turns + [turn])[..|turns|] == turns && more[..|log|] == log;
  }

  lemma ExtendOrder(t: Table, ids: set<JobId>, order: seq<JobId>, id: JobId)
    requires InLeaseOrder(t, ids, order) && id in t
    requires forall d | d in ids :: Before(t, d, id)
    ensures InLeaseOrder(t, ids + {id}, order + [id])
  {
  }

  /** The next job of a table that agrees with `start` on the jobs left also comes first in `start`. */
  lemma NextComesFirst(t: Table, start: Table, now: Time, id: JobId, left: set<JobId>)
    requires IsNext(t, now, id) && LeasableIds(t, now) == left
    requires forall i | i in left :: i in t && i in start && t[i] == start[i]
    ensures id in left && forall other | other in left - {id} :: Before(start, id, other)
  {
    assert id in LeasableIds(t, now);
    forall other | other in left - {id}
      ensures Before(start, id, other)
    {
      assert other in LeasableIds(t, now);
    }
  }

  /** `done` has been drained, in `order`; every other row is as it was at the start. */
  ghost predicate DrainState(start: Table, t: Table, now: Time, done: set<JobId>, order: seq<JobId>) {
    var todo := LeasableIds(start, now);
    && done <= todo && |done| == |order|
    && InLeaseOrder(start, done, order)
    && LeasableIds(t, now) == todo - done
    && (forall d, r | d in done && r in todo - done :: Before(start, d, r))
    && t.Keys == start.Keys
    && (forall id | id in start && id !in done :: t[id] == start[id])
  }

  lemma DrainAdvances(start: Table, t: Table, t': Table, now: Time, done: set<JobId>, order: seq<JobId>, id: JobId)
    requires DrainState(start, t, now, done, order) && IsNext(t, now, id)
    requires LeasableIds(t', now) == LeasableIds(t, now) - {id} && t'.Keys == t.Keys
    requires forall other | other in t && other != id :: t'[other] == t[other]
    ensures DrainState(start, t', now, done + {id}, order + [id])
    ensures |LeasableIds(t', now)| < |LeasableIds(t, now)|
  {
    var todo := LeasableIds(start, now);
    assert id in LeasableIds(t, now);
    NextComesFirst(t, start, now, id, todo - done);
    ExtendOrder(start, done, order, id);
    assert todo - (done + {id}) == (todo - done) - {id};
  }

  /** The jobs of the turns are as they were when the drain began. */
  ghost predicate JobsOf(start: Table, turns: seq<Turn>) {
    forall k | 0 <= k < |turns| ::
      turns[k].job.id in start && turns[k].job.key == start[turns[k].job.id].key &&
          turns[k].job.full == start[turns[k].job.id].full
  }

  lemma JobStep(start: Table, t: Table, now: Time, done: set<JobId>, turns: seq<Turn>, turn: Turn)
    requires JobsOf(start, turns) && DrainState(start, t, now, done, Ids(turns)) && IsNext(t, now, turn.job.id)
    requires turn.job.key == t[turn.job.id].key && turn.job.full == t[turn.job.id].full
    ensures JobsOf(start, turns + [turn]) && Ids(turns + [turn]) == Ids(turns) + [turn.job.id]
  {
    assert turn.job.id in LeasableIds(t, now);
  }

  lemma RoundAdvances(
    start: Table, t: Table, t': Table, now: Time, done: set<JobId>, turns: seq<Turn>, turn: Turn
  )
    requires TakesFirst(t, t', now, turn.job)
    requires DrainState(start, t, now, done, Ids(turns)) && JobsOf(start, turns)
    ensures DrainState(start, t', now, done + {turn.job.id}, Ids(turns + [turn])) && JobsOf(start, turns + [turn])
  {
    JobStep(start, t, now, done, turns, turn);
    DrainAdvances(start, t, t', now, done, Ids(turns), turn.job.id);
  }

  /** Each turn takes the queue from one table to the next. */
  ghost predicate Rounds(tables: seq<Table>, turns: seq<Turn>, now: Time) {
    && |tables| == |turns| + 1
    && forall k | 0 <= k < |turns| :: TakesFirst(tables[k], tables[k + 1], now, turns[k].job)
  }

  lemma RoundsBefore(tables: seq<Table>, turns: seq<Turn>, now: Time)
    requires Rounds(tables, turns, now) && turns != []
    ensures var n := |turns| - 1;
            && Rounds(tables[..n + 1], turns[..n], now) && TakesFirst(tables[n], tables[n + 1], now, turns[n].job)
            && turns == turns[..n] + [turns[n]]
  {
  }

  /** Rounds taken one after the other go through the initially leasable jobs in lease order, each once. */
  lemma {:induction false} DrainedSoFar(tables: seq<Table>, turns: seq<Turn>, now: Time) returns (done: set<JobId>)
    requires Rounds(tables, turns, now)
    ensures DrainState(tables[0], tables[|turns|], now, done, Ids(turns)) && JobsOf(tables[0], turns)
    decreases |turns|
  {
    if turns == [] {
      done := {};
    } else {
      var n := |turns| - 1;
      RoundsBefore(tables, turns, now);
      done := DrainedSoFar(tables[..n + 1], turns[..n], now);
      RoundAdvances(tables[0], tables[n], tables[n + 1], now, done, turns[..n], turns[n]);
      done := done + {turns[n].job.id};
    }
  }

  /** A drain went through the jobs leasable in `start`, each once, in lease order, and left the others alone. */
  ghost predicate Exhausted(start: Table, t: Table, now: Time, turns: seq<Turn>) {
    && |turns| == |LeasableIds(start, now)| && LeasableIds(t, now) == {}
    && InLeaseOrder(start, LeasableIds(start, now), Ids(turns)) && JobsOf(start, turns)
    && t.Keys == start.Keys
    && forall id | id in t && id !in LeasableIds(start, now) :: t[id] == start[id]
  }

  lemma DrainedEmpty(tables: seq<Table>, turns: seq<Turn>, now: Time)
    requires Rounds(tables, turns, now) && LeasableIds(tables[|turns|], now) == {}
    ensures Exhausted(tables[0], tables[|turns|], now, turns)
  {
    var done := DrainedSoFar(tables, turns, now);
    var todo := LeasableIds(tables[0], now);
    assert todo - done == {};
    assert forall id | id in todo :: id in done || id in todo - done;
    assert done == todo;
  }

  // ---- the drain among others ----------------------------------------------------------------------------

  /** Where in the queue's history a turn leased its job and settled the lease. */
  datatype Span = Span(lease: nat, settle: nat)

  /** What a drain goes by: both histories, the clock, and how long it may still be disturbed. */
  datatype Stand = Stand(log: Log, others: nat, at: Time, reviews: StoreHistory.Log, frozen: Option<Time>)

  ghost function StandOf(queue: Queue, store: SqliteStore.Store, at: Time): Stand
    reads queue, store
  {
    Stand(queue.log, queue.others, at, store.log, Frozen(store))
  }

  /** The histories grow; the clock stands still when nobody disturbs. */
  ghost predicate Later(b: Stand, e: Stand) {
    && b.log <= e.log && b.reviews <= e.reviews && b.frozen == e.frozen
    && e.others <= b.others && b.at <= e.at && (b.others == 0 ==> e.at == b.at)
  }

  /** The job that came first when it was leased was settled under that lease. */
  ghost predicate Worked(log: Log, span: Span, job: LeasedJob, s: Settlement) {
    && span.lease < span.settle < |log|
    && var lease, settle := log[span.lease], log[span.settle];
       && lease.LeaseCall? && lease.id == job.id && IsNext(Replay(log[..span.lease]), lease.at, job.id)
       && settle.SettleCall? && settle.lease == lease.lease && settle.settlement == s
  }

  /** Undisturbed, a turn takes the queue's first job off and brings the drain nearer to its end. */
  ghost predicate IsRound(b: Stand, e: Stand, job: LeasedJob) {
    && TakesFirst(Replay(b.log), Replay(e.log), b.at, job)
    && |LeasableIds(Replay(e.log), b.at)| < |LeasableIds(Replay(b.log), b.at)|
  }

  /** What a turn does to the queue. */
  ghost predicate Settled(b: Stand, e: Stand, job: LeasedJob, span: Span, s: Settlement) {
    && |b.log| <= span.lease && span.settle == |e.log| - 1 && Worked(e.log, span, job, s)
    && if b.others > 0 then e.others < b.others else |e.log| == |b.log| + 2 && IsRound(b, e, job)
  }

  /** What a turn does to the store. */
  ghost predicate Reviewed(b: Stand, e: Stand, turn: Turn, work: Work) {
    && turn.from == |b.reviews| && Told(e.reviews, turn, work)
    && (e.frozen.Some? ==> ToldAlone(e.reviews, turn, work, e.frozen.value))
  }

  ghost predicate TookTurn(b: Stand, e: Stand, turn: Turn, span: Span, terms: Terms) {
    && Later(b, e) && Settled(b, e, turn.job, span, VerdictOf(terms, turn))
    && Reviewed(b, e, turn, terms.works(turn.job))
  }

  /** One turn after the other. */
  ghost predicate Turns(stands: seq<Stand>, turns: seq<Turn>, spans: seq<Span>, terms: Terms) {
    && |stands| == |turns| + 1 && |spans| == |turns|
    && forall k | 0 <= k < |turns| :: TookTurn(stands[k], stands[k + 1], turns[k], spans[k], terms)
  }

  lemma OneMoreTurn(
    stands: seq<Stand>, turns: seq<Turn>, spans: seq<Span>, terms: Terms, e: Stand, turn: Turn, span: Span
  )
    requires Turns(stands, turns, spans, terms) && TookTurn(stands[|turns|], e, turn, span, terms)
    ensures Turns(stands + [e], turns + [turn], spans + [span], terms)
  {
    var stands', turns', spans' := stands + [e], turns + [turn], spans + [span];
    forall k | 0 <= k < |turns'|
      ensures TookTurn(stands'[k], stands'[k + 1], turns'[k], spans'[k], terms)
    {
      if k < |turns| {
        assert TookTurn(stands[k], stands[k + 1], turns[k], spans[k], terms);
      }
    }
  }

  lemma LaterLater(b: Stand, m: Stand, e: Stand)
    requires Later(b, m) && Later(m, e)
    ensures Later(b, e)
  {
  }

  lemma {:induction false} LaterInTurn(
    stands: seq<Stand>, turns: seq<Turn>, spans: seq<Span>, terms: Terms, k: nat, n: nat
  )
    requires Turns(stands, turns, spans, terms) && k <= n <= |turns|
    ensures Later(stands[k], stands[n])
  {
    if n == k {
    } else {
      LaterInTurn(stands, turns, spans, terms, k, n - 1);
      assert TookTurn(stands[n - 1], stands[n], turns[n - 1], spans[n - 1], terms);
      LaterLater(stands[k], stands[n - 1], stands[n]);
    }
  }

  /** The queue's history shows every turn: its job leased first in line, then settled, then the next turn. */
  lemma WorkedInOrder(stands: seq<Stand>, turns: seq<Turn>, spans: seq<Span>, terms: Terms, k: nat)
    requires Turns(stands, turns, spans, terms) && k < |turns|
    ensures |stands[0].log| <= spans[k].lease
    ensures Worked(stands[|turns|].log, spans[k], turns[k].job, VerdictOf(terms, turns[k]))
    ensures k + 1 < |turns| ==> spans[k].settle < spans[k + 1].lease
  {
    LaterInTurn(stands, turns, spans, terms, 0, k);
    LaterInTurn(stands, turns, spans, terms, k + 1, |turns|);
    assert TookTurn(stands[k], stands[k + 1], turns[k], spans[k], terms);
    var log, more, span := stands[k + 1].log, stands[|turns|].log, spans[k];
    assert more[..span.lease] == log[..span.lease];
    assert more[span.lease] == log[span.lease] && more[span.settle] == log[span.settle];
    if k + 1 < |turns| {
      assert TookTurn(stands[k + 1], stands[k + 2], turns[k + 1], spans[k + 1], terms);
    }
  }

  /** What the turn's job comes to, by how its review ended; `r` is its row while still leased. */
  ghost predicate SettledByOutcome(r: JobRow, r': JobRow, turn: Turn, terms: Terms, now: Time) {
    var work := terms.works(turn.job);
    var caused := (f: Failure) => SettledByCause(r, r', f, terms.opts, terms.maxAttempts, terms.backoff, now);
    if work.deps.Some? then caused(work.deps.value)
    else
      match turn.exit
      case Threw(_) => caused(work.thrown)
      case Returned(outcome) =>
        if outcome.Error? && outcome.retriable then caused(Failure(outcome.message, None, None, "string", None))
        else r' == r.(status := Done, leaseId := None, lockedAt := None)
  }

  lemma SettledRowByOutcome(r: JobRow, turn: Turn, terms: Terms, now: Time)
    requires r.attempts >= 1
    ensures SettledByOutcome(r, SettledRow(r, VerdictOf(terms, turn), now), turn, terms, now)
  {
    var work := terms.works(turn.job);
    if work.deps.Some? {
      RoutedByCause(r, work.deps.value, terms.opts, terms.maxAttempts, terms.backoff, now);
    } else if turn.exit.Threw? {
      RoutedByCause(r, work.thrown, terms.opts, terms.maxAttempts, terms.backoff, now);
    } else if turn.exit.outcome.Error? && turn.exit.outcome.retriable {
      RoutedByCause(r, OfMessage(turn.exit.outcome.message), terms.opts, terms.maxAttempts, terms.backoff, now);
    }
  }

  /** A settlement under the turn's lease; it finds its row unless somebody else leased the job meanwhile. */
  ghost predicate SettlesTurn(log: Log, span: Span, turn: Turn, terms: Terms) {
    && span.lease < span.settle < |log| && log[span.lease].LeaseCall?
    && var id, t, t' := turn.job.id, Replay(log[..span.settle]), Replay(log[..span.settle + 1]);
       if Holds(t, id, log[span.lease].lease)
       then id in t' && SettledByOutcome(t[id], t'[id], turn, terms, log[span.settle].at)
       else id in t ==> id in t' && t'[id] == t[id]
  }

  lemma WorkedSettles(log: Log, span: Span, turn: Turn, terms: Terms)
    requires Valid(log) && Worked(log, span, turn.job, VerdictOf(terms, turn))
    ensures SettlesTurn(log, span, turn, terms)
  {
    PrefixValid(log, span.settle);
    var id, before := turn.job.id, log[..span.settle];
    if Holds(Replay(before), id, log[span.lease].lease) {
      ClampNeverFires(before, id);
      SettledRowByOutcome(Replay(before)[id], turn, terms, log[span.settle].at);
    }
  }

  /** In every drain each turn settles its job by how its review ended. */
  lemma TurnSettlesByOutcome(stands: seq<Stand>, turns: seq<Turn>, spans: seq<Span>, terms: Terms, k: nat)
    requires Turns(stands, turns, spans, terms) && k < |turns| && Valid(stands[|turns|].log)
    ensures SettlesTurn(stands[|turns|].log, spans[k], turns[k], terms)
  {
    WorkedInOrder(stands, turns, spans, terms, k);
    WorkedSettles(stands[|turns|].log, spans[k], turns[k], terms);
  }

  /**
    In every drain the review of a job is of the pull request's current head; a job for a full
    re-review is claimed by force and reviewed from the base, whatever was reviewed before, any
    other from the last covered head if the repository is reviewed incrementally.
   */
  lemma TurnReviewsAsAsked(
    stands: seq<Stand>, turns: seq<Turn>, spans: seq<Span>, terms: Terms, k: nat, i: nat
  )
    requires Turns(stands, turns, spans, terms) && k < |turns| && terms.works(turns[k].job).deps.None?
    requires i < |stands[k + 1].reviews| && stands[k + 1].reviews[i].token == turns[k].token
    ensures var log, job, work := stands[k + 1].reviews, turns[k].job, terms.works(turns[k].job);
            && work.env.pullRequest.Some?
            && var pr := work.env.pullRequest.value;
               match log[i]
               case Claimed(_, key, force, _, _, _) =>
                 key == Key(job.key.repo, job.key.pr, pr.headSha) && force == job.full
               case Baseline(_, _, last, _) =>
                 if work.settings.incremental && !job.full
                 then ReviewRuns.IsLastReviewed(StoreHistory.Replay(log[..i]), job.key.repo, job.key.pr, last)
                 else last.None?
               case Recorded(token, run, _, _) =>
                 && run.key == Key(job.key.repo, job.key.pr, pr.headSha) && run.base == pr.baseSha
                 && var p := StoreHistory.PhaseOf(log[..i], token);
                    p.Based? && (job.full ==>
                      StoreHistory.RangeOf(p, log[i])
                      == Workspace.Prepare(
                           work.env.git, pr.baseSha, pr.headSha, Workspace.Full, Some(pr.baseSha)))
               case Released(_, key, _) => key == Key(job.key.repo, job.key.pr, pr.headSha)
  {
    assert TookTurn(stands[k], stands[k + 1], turns[k], spans[k], terms);
    var job, work := turns[k].job, terms.works(turns[k].job);
    assert Pipeline.AskedFor(stands[k + 1].reviews, i, work.env, work.settings, RequestOf(job));
  }

  /** The store's history is what the turns added, one after the other. */
  lemma {:induction false} ServicedInTurn(
    stands: seq<Stand>, turns: seq<Turn>, spans: seq<Span>, terms: Terms, n: nat
  )
    requires Turns(stands, turns, spans, terms) && n <= |turns|
    ensures Serviced(stands[0].reviews, stands[n].reviews, turns[..n], terms.works, stands[0].frozen)
  {
    if n == 0 {
    } else {
      var k := n - 1;
      ServicedInTurn(stands, turns, spans, terms, k);
      LaterInTurn(stands, turns, spans, terms, 0, n);
      assert TookTurn(stands[k], stands[n], turns[k], spans[k], terms);
      assert turns[..n] == turns[..k] + [turns[k]];
      ExtendServiced(
        stands[0].reviews, stands[k].reviews, stands[n].reviews, turns[..k], terms.works, stands[0].frozen, turns[k]);
    }
  }

  function Tables(stands: seq<Stand>): (tables: seq<Table>)
    ensures |tables| == |stands| && forall k | 0 <= k < |stands| :: tables[k] == Replay(stands[k].log)
  {
    seq(|stands|, k requires 0 <= k < |stands| => Replay(stands[k].log))
  }

  /** Undisturbed, every turn is a round. */
  lemma UndisturbedTurns(stands: seq<Stand>, turns: seq<Turn>, spans: seq<Span>, terms: Terms)
    requires Turns(stands, turns, spans, terms) && stands[0].others == 0
    ensures Rounds(Tables(stands), turns, stands[0].at)
  {
    forall k | 0 <= k < |turns|
      ensures TakesFirst(Tables(stands)[k], Tables(stands)[k + 1], stands[0].at, turns[k].job)
    {
      LaterInTurn(stands, turns, spans, terms, 0, k);
      assert TookTurn(stands[k], stands[k + 1], turns[k], spans[k], terms);
      assert IsRound(stands[k], stands[k + 1], turns[k].job);
    }
  }

  /** `job` was leased from the queue at `b`, where nothing had happened since if nobody disturbed. */
  ghost predicate JustLeased(b: Stand, log: Log, leased: Log, jobs: Table, job: LeasedJob, timeout: int, at: Time) {
    && b.log <= log && |leased| == |log| + 1 && b.at <= at
    && var t, lease := Replay(log), leased[|log|];
       && lease.LeaseCall? && lease == LeaseCall(job.id, job.leaseId, timeout, lease.at, at) && leased == log + [lease]
       && (b.others == 0 ==> log == b.log && lease.at == at == b.at)
       && IsNext(t, lease.at, job.id) && job.key == t[job.id].key && job.full == t[job.id].full
       && (forall id | id in t :: t[id].leaseId != Some(job.leaseId))
       && jobs == t[job.id := LeasedRow(t[job.id], job.leaseId, lease.at, at + timeout)]
  }

  /** Leased and then settled with a delay, the first job is off the queue. */
  lemma FirstIsTaken(t: Table, leased: Table, t': Table, now: Time, job: LeasedJob, timeout: int, s: Settlement)
    requires IsNext(t, now, job.id) && job.key == t[job.id].key && job.full == t[job.id].full
    requires forall id | id in t :: t[id].leaseId != Some(job.leaseId)
    requires leased == t[job.id := LeasedRow(t[job.id], job.leaseId, now, now + timeout)]
    requires t' == Settle(leased, job.leaseId, s, now) && timeout > 0 && DelaysAreLater(s)
    ensures TakesFirst(t, t', now, job) && |LeasableIds(t', now)| < |LeasableIds(t, now)|
  {
    LeaseAndSettleRemoves(t, job.id, job.leaseId, now + timeout, s, now);
    assert job.id in LeasableIds(t, now);
  }

  /** Undisturbed, the lease and the settlement are all that happens to the queue. */
  lemma UndisturbedIsARound(
    b: Stand, e: Stand, log: Log, leased: Log, jobs: Table, job: LeasedJob, opts: Options, attempt: Attempt,
    maxAttempts: int, backoff: Backoff, leasedAt: Time
  )
    requires JustLeased(b, log, leased, jobs, job, Timeout(opts), leasedAt) && b.others == 0
    requires Replay(e.log) == Settle(jobs, job.leaseId, Verdict(attempt, opts, maxAttempts, backoff), b.at)
    requires Timeout(opts) > 0 && RetryDelay(opts) > 0 && backoff.first > 0 && backoff.ceiling > 0
    ensures IsRound(b, e, job)
  {
    VerdictDelaysPositive(attempt, opts, maxAttempts, backoff);
    FirstIsTaken(
      Replay(b.log), jobs, Replay(e.log), b.at, job, Timeout(opts), Verdict(attempt, opts, maxAttempts, backoff));
  }

  /** Lease the next job; others may act before that. */
  method LeaseNext(queue: Queue, opts: Options, now: Time, ghost b: Stand)
    returns (leased: Option<LeasedJob>, at: Time, ghost log: Log)
    requires queue.Valid() && queue.NotBefore(now)
    requires b.log == queue.log && b.others == queue.others && b.at == now
    modifies queue`jobs, queue`nextId, queue`log, queue`others
    ensures queue.Valid() && queue.NotBefore(at) && now <= at && b.log <= log
    ensures if b.others > 0 then queue.others < b.others else queue.others == 0 && at == now && log == b.log
    ensures leased.None? ==> queue.log == log && LeasableIds(queue.jobs, at) == {}
    ensures leased.Some? ==> JustLeased(b, log, queue.log, queue.jobs, leased.value, Timeout(opts), at)
  {
    var first := queue.Yield(now);
    log := queue.log;
    at := first;
    var later := queue.ReadClock(first);
    leased := queue.Lease(Timeout(opts), first, later);
    if leased.Some? {
      at := later;
    }
  }

  lemma SettledUnderLease(log: Log, leased: Log, settled: Log, job: LeasedJob, s: Settlement, at: Time)
    requires |leased| == |log| + 1 && leased[..|log|] == log
    requires var lease := leased[|log|];
             && lease.LeaseCall? && lease.id == job.id && lease.lease == job.leaseId
             && IsNext(Replay(log), lease.at, job.id)
    requires SettledLast(leased, settled, job.leaseId, s, at)
    ensures log <= settled && Worked(settled, Span(|log|, |settled| - 1), job, s)
  {
    assert settled[..|settled| - 1][..|leased|] == leased;
    assert settled[..|log|] == log && settled[|log|] == leased[|log|];
  }

  /** What a lease and the settlement of its job come to. */
  lemma LeasedAndSettled(
    b: Stand, e: Stand, log: Log, leased: Log, jobs: Table, job: LeasedJob, opts: Options, attempt: Attempt,
    maxAttempts: int, backoff: Backoff, leasedAt: Time
  ) returns (span: Span)
    requires JustLeased(b, log, leased, jobs, job, Timeout(opts), leasedAt)
    requires SettledLast(leased, e.log, job.leaseId, Verdict(attempt, opts, maxAttempts, backoff), e.at)
    requires if b.others > 0 then e.others < b.others
             else
               && e.at == b.at && |e.log| == |leased| + 1
               && Replay(e.log) == Settle(jobs, job.leaseId, Verdict(attempt, opts, maxAttempts, backoff), e.at)
    requires Timeout(opts) > 0 && RetryDelay(opts) > 0 && backoff.first > 0 && backoff.ceiling > 0
    ensures b.log <= e.log && Settled(b, e, job, span, Verdict(attempt, opts, maxAttempts, backoff))
  {
    var s := Verdict(attempt, opts, maxAttempts, backoff);
    span := Span(|log|, |e.log| - 1);
    SettledUnderLease(log, leased, e.log, job, s, e.at);
    assert Worked(e.log, span, job, s);
    if b.others == 0 {
      UndisturbedIsARound(b, e, log, leased, jobs, job, opts, attempt, maxAttempts, backoff, leasedAt);
    }
  }

  /** Run and settle the job just leased. */
  method TakeTurn(
    queue: Queue, store: SqliteStore.Store, job: LeasedJob, work: Work, opts: Options, now: Time, ghost b: Stand,
    ghost log: Log
  )
    returns (at: Time, ghost turn: Turn, ghost span: Span)
    requires queue.Valid() && queue.NotBefore(now) && PositiveDelays(queue, opts)
    requires store.Orderly() && Sound(work, store.graph)
    requires if b.others > 0 then queue.others < b.others else queue.others == 0
    requires b.reviews == store.log && b.frozen == Frozen(store)
    requires JustLeased(b, log, queue.log, queue.jobs, job, Timeout(opts), now)
    modifies queue`jobs, queue`nextId, queue`log, queue`others, store
    ensures queue.Valid() && queue.NotBefore(at) && store.Orderly()
    ensures turn.job == job && Later(b, StandOf(queue, store, at))
    ensures var s := TurnVerdict(work, turn, opts, queue.maxAttempts, queue.backoff);
            Settled(b, StandOf(queue, store, at), job, span, s)
    ensures Reviewed(b, StandOf(queue, store, at), turn, work)
  {
    ghost var leased, jobs := queue.log, queue.jobs;
    at, turn := RunLeased(queue, store, job, work, opts, now);
    span := LeasedAndSettled(
      b, StandOf(queue, store, at), log, leased, jobs, job, opts, AttemptOf(work, turn.exit), queue.maxAttempts,
      queue.backoff, now);
  }

  /** One turn of the drain: lease the next job, run it, settle it. */
  method DrainOne(queue: Queue, store: SqliteStore.Store, works: LeasedJob -> Work, opts: Options, now: Time)
    returns (found: bool, at: Time, ghost turn: Option<Turn>, ghost span: Span)
    requires queue.Valid() && queue.NotBefore(now) && PositiveDelays(queue, opts)
    requires store.Orderly() && forall job :: Sound(works(job), store.graph)
    modifies queue`jobs, queue`nextId, queue`log, queue`others, store
    ensures queue.Valid() && queue.NotBefore(at) && store.Orderly()
    ensures Later(old(StandOf(queue, store, now)), StandOf(queue, store, at))
    ensures !found ==> store.log == old(store.log) && LeasableIds(queue.jobs, at) == {}
    ensures !found && old(queue.others) == 0 ==> queue.log == old(queue.log)
    ensures found ==>
              var b, e := old(StandOf(queue, store, now)), StandOf(queue, store, at);
              turn.Some? && TookTurn(b, e, turn.value, span, TermsOf(queue, works, opts))
  {
    ghost var b := StandOf(queue, store, now);
    found, turn, span := false, None, Span(0, 0);
    var leased;
    ghost var log, went;
    leased, at, log := LeaseNext(queue, opts, now, b);
    if leased.Some? {
      found := true;
      at, went, span := TakeTurn(queue, store, leased.value, works(leased.value), opts, at, b, log);
      turn := Some(went);
    }
  }

  /**
    However others use the queue meanwhile and the clock moves, as long as they do so at finitely
    many awaits, a drain with positive delays terminates, whatever each review returns or throws
    and whatever other pipelines do to the store. Each turn leases the job that comes first,
    reviews it and settles it as its review ended, one turn after the other, and the drain ends
    where nothing is leasable. Undisturbed it takes every job leasable at the start exactly once,
    in lease order.
   */
  method DrainQueue(queue: Queue, store: SqliteStore.Store, works: LeasedJob -> Work, opts: Options, now: Time)
    returns (processed: nat, at: Time, ghost stands: seq<Stand>, ghost turns: seq<Turn>, ghost spans: seq<Span>)
    requires queue.Valid() && queue.NotBefore(now) && PositiveDelays(queue, opts)
    requires store.Orderly() && forall job :: Sound(works(job), store.graph)
    modifies queue`jobs, queue`nextId, queue`log, queue`others, store
    ensures queue.Valid() && queue.NotBefore(at) && store.Orderly()
    ensures processed == |turns| && LeasableIds(queue.jobs, at) == {}
    ensures Turns(stands, turns, spans, TermsOf(queue, works, opts)) && stands[0] == old(StandOf(queue, store, now))
    ensures Later(stands[|turns|], StandOf(queue, store, at)) && store.log == stands[|turns|].reviews
    ensures Later(stands[0], StandOf(queue, store, at))
    ensures Serviced(old(store.log), store.log, turns, works, Frozen(store))
    ensures old(queue.others) == 0 ==> Exhausted(old(queue.jobs), queue.jobs, now, turns)
  {
    ghost var terms := TermsOf(queue, works, opts);
    processed, at, stands, turns, spans := 0, now, [StandOf(queue, store, now)], [], [];
    while true
      invariant queue.Valid() && queue.NotBefore(at) && store.Orderly() && processed == |turns|
      invariant Turns(stands, turns, spans, terms)
      invariant stands[0] == old(StandOf(queue, store, now)) && stands[|turns|] == StandOf(queue, store, at)
      invariant stands[0].others == 0 ==> queue.others == 0 && at == now
      decreases queue.others, |LeasableIds(queue.jobs, at)|
    {
      var found;
      ghost var turn, span;
      found, at, turn, span := DrainOne(queue, store, works, opts, at);
      if !found {
        break;
      }
      OneMoreTurn(stands, turns, spans, terms, StandOf(queue, store, at), turn.value, span);
      stands, turns, spans := stands + [StandOf(queue, store, at)], turns + [turn.value], spans + [span];
      processed := processed + 1;
    }
    LaterInTurn(stands, turns, spans, terms, 0, |turns|);
    ServicedInTurn(stands, turns, spans, terms, |turns|);
    assert turns[..|turns|] == turns;
    if stands[0].others == 0 {
      UndisturbedTurns(stands, turns, spans, terms);
      DrainedEmpty(Tables(stands), turns, now);
    }
  }
}
