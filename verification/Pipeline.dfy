/** One review run: claim, diff, gate, review, publish, record; every exit settles the claim. */
module Pipeline {
  import opened Basics
  import opened CommitGraph
  import opened ReviewRuns
  import opened StoreHistory
  import opened Workspace
  import opened SqliteStore
  import RetryClassification

  datatype Outcome =
    | Reviewed
    | DryRun
    | Duplicate
    | Skipped(reason: string)
    | Error(message: string, retriable: bool)

  /** How a call to the pipeline ends; a throw first tries to release the claim. */
  datatype Exit =
    | Returned(outcome: Outcome)
    | Threw(released: bool)

  datatype Request = Request(repo: string, pr: nat, dryRun: bool, force: bool, full: bool, explicitRunner: bool)

  datatype RepoSettings = RepoSettings(incremental: bool, ignoreDraft: bool)

  datatype PullRequest = PullRequest(headSha: Sha, baseSha: Sha, isDraft: bool, closed: bool)

  datatype ReviewResult = ReviewResult(status: RunStatus, hasComment: bool, message: Option<string>,
      retriable: Option<bool>)

  /** What the calls out of the process return; any of them may throw. */
  datatype Environment = Environment(
    configProblem: Option<string>,
    pullRequest: Option<PullRequest>,
    claimThrows: bool,
    baselineThrows: bool,
    git: Git,
    prepareThrows: bool,
    gate: Diff -> Option<string>,
    setupThrows: Diff -> bool,
    review: Diff -> Option<ReviewResult>,
    publishThrows: bool,
    recordThrows: bool,
    cleanupThrows: bool,
    releaseThrows: bool
  )

  /** The review a pipeline has settled on: the current head, its base, and whether to anchor on an earlier one. */
  datatype Assignment = Assignment(key: Key, base: Sha, incremental: bool, env: Environment)

  /** Runners report a terminal status. */
  ghost predicate Reports(env: Environment) {
    forall d | env.review(d).Some? :: !env.review(d).value.status.Running?
  }

  /** The status recorded for a diff: gated out, or whatever the runner reports. */
  function StatusOf(env: Environment, d: Diff): RunStatus {
    if env.gate(d).Some? then RunStatus.Skipped
    else if env.review(d).Some? then env.review(d).value.status
    else RunStatus.Error
  }

  /** Whether reviewing a diff leads to a comment: not gated out, no runner error, and a comment to post. */
  predicate CallsForComment(env: Environment, d: Diff) {
    env.gate(d).None? && env.review(d).Some? && !env.review(d).value.status.Error? && env.review(d).value.hasComment
  }

  /** What is noted in the record: why the diff was gated out, or the runner's error. */
  function NoteOf(env: Environment, d: Diff): Option<string> {
    if env.gate(d).Some? then env.gate(d)
    else if env.review(d).Some? then env.review(d).value.message
    else None
  }

  /** What a recorded review returns; a runner error without details is retriable. */
  function OutcomeOf(env: Environment, d: Diff): Outcome {
    if env.gate(d).Some? then Outcome.Skipped(env.gate(d).value)
    else if StatusOf(env, d).Error? then
      var result := env.review(d);
      Outcome.Error(
        if result.Some? && result.value.message.Some? then result.value.message.value else "runner error",
        !(result.Some? && result.value.retriable == Some(false)))
    else Reviewed
  }

  // ---- which calls decide how a run ends ---------------------------------------------------------

  /** The diff reviewed, given the baseline read. */
  function DiffOf(a: Assignment, last: Option<Sha>): Diff {
    Prepare(
      a.env.git, if last.Some? then last.value else a.base, a.key.sha, if last.Some? then Incremental else Full,
      Some(a.base))
  }

  /** A call between the gate and the record throws. */
  predicate DiffThrows(env: Environment, dryRun: bool, d: Diff) {
    if env.gate(d).Some? then !dryRun && env.recordThrows
    else
      || env.setupThrows(d) || env.review(d).None?
      || (!dryRun && ((CallsForComment(env, d) && env.publishThrows) || env.recordThrows))
  }

  /** The comment is posted. */
  predicate Posts(env: Environment, dryRun: bool, d: Diff) {
    !dryRun && CallsForComment(env, d) && !env.setupThrows(d) && !env.publishThrows
  }

  /** A call before there is a checkout throws. */
  predicate PrepareFails(a: Assignment) {
    (a.incremental && a.env.baselineThrows) || a.env.prepareThrows
  }

  /** Some call of the guarded part throws. */
  predicate Throws(a: Assignment, dryRun: bool, last: Option<Sha>) {
    PrepareFails(a) || DiffThrows(a.env, dryRun, DiffOf(a, last)) || a.env.cleanupThrows
  }

  /** The terminal row is written. */
  predicate Records(a: Assignment, last: Option<Sha>) {
    !PrepareFails(a) && !DiffThrows(a.env, false, DiffOf(a, last))
  }

  function Fate(a: Assignment, dryRun: bool, last: Option<Sha>): Exit {
    var d := DiffOf(a, last);
    if Throws(a, dryRun, last) then Threw(dryRun || !a.env.releaseThrows)
    else Returned(if dryRun && a.env.gate(d).None? then DryRun else OutcomeOf(a.env, d))
  }

  // ---- what a run leaves in the store's history ----------------------------------------------------

  /** Where in the history a run read and wrote: its claim, its baseline and its record. */
  datatype Course = Course(claim: nat, at: Time, read: nat, last: Option<Sha>, record: nat)

  /** The claim would have been refused at the state and the reading it met. */
  ghost predicate Refused(log: Log, a: Assignment, force: bool, c: Course) {
    c.claim <= |log| && !Claimable(Replay(log[..c.claim]), a.key, force, DEFAULT_STALE_MS, c.at)
  }

  /** The claim was taken at the reading it met. */
  ghost predicate Took(log: Log, token: Token, a: Assignment, force: bool, c: Course) {
    && c.claim < |log| && log[c.claim].Claimed?
    && log[c.claim] == Claimed(token, a.key, force, DEFAULT_STALE_MS, c.at, log[c.claim].later)
  }

  /** An incremental review takes the last covered head for its baseline; any other takes none. */
  ghost predicate ReadBaseline(log: Log, a: Assignment, c: Course) {
    && (c.last.Some? ==> a.incremental)
    && (a.incremental && !a.env.baselineThrows ==>
          c.read <= |log| && IsLastReviewed(Replay(log[..c.read]), a.key.repo, a.key.pr, c.last))
  }

  /**
    The `n`th event is `token`'s record of the head it was assigned, with the status and note
    of the very range the record accounts for.
   */
  ghost predicate RecordedItsRange(log: Log, n: nat, token: Token, a: Assignment, last: Option<Sha>) {
    && n < |log| && log[n].Recorded? && log[n].token == token
    && log[n].run.key == a.key && log[n].run.base == a.base
    && PhaseOf(log[..n], token) == Based(a.key, last)
    && var range := RangeOf(PhaseOf(log[..n], token), log[n]);
       && range == DiffOf(a, last)
       && log[n].run.status == StatusOf(a.env, range) && log[n].run.error == NoteOf(a.env, range)
  }

  /** How far the protocol has come when a run ends. */
  ghost predicate Settles(p: Phase, key: Key, dryRun: bool, exit: Exit) {
    if dryRun then p.Unused?
    else
      match exit
      case Returned(_) => p == Finished(key)
      case Threw(released) => if released then p.Closed? else MayRelease(p, key)
  }

  /** From the claim on, a run does what its calls, its claim and its baseline decide. */
  ghost predicate FollowedClaim(
    log: Log, token: Token, a: Assignment, dryRun: bool, force: bool, exit: Exit, posted: bool, c: Course
  ) {
    if !dryRun && a.env.claimThrows then
      exit == Threw(true) && !posted && PhaseOf(log, token).Unused?
    else if !dryRun && !Took(log, token, a, force, c) then
      exit == Returned(Duplicate) && !posted && PhaseOf(log, token).Unused? && Refused(log, a, force, c)
    else
      && ReadBaseline(log, a, c)
      && exit == Fate(a, dryRun, c.last)
      && posted == (!PrepareFails(a) && Posts(a.env, dryRun, DiffOf(a, c.last)))
      && (!dryRun && Records(a, c.last) ==> RecordedItsRange(log, c.record, token, a, c.last))
      && Settles(PhaseOf(log, token), a.key, dryRun, exit)
  }

  /** A review is of the pull request's current head, and anchored only if nobody asked for a full one. */
  function Assigned(env: Environment, settings: RepoSettings, req: Request, pr: PullRequest): Assignment {
    Assignment(Key(req.repo, req.pr, pr.headSha), pr.baseSha, settings.incremental && !req.full, env)
  }

  function ConfigMessage(repo: string, problem: string): string {
    RetryClassification.CONFIG_ERROR_PREFIX + " " + repo + ": " + problem
  }

  lemma ConfigMessageReads(repo: string, problem: string)
    ensures ConfigMessage(repo, problem) == "previewer config error: " + repo + ": " + problem
  {
    assert "previewer config error:" + " " == "previewer config error: ";
  }

  /** A broken configuration is returned as a retriable error under its own mark. */
  predicate ReportsConfig(env: Environment, req: Request, exit: Exit) {
    !req.explicitRunner && env.configProblem.Some? ==>
      exit == Returned(Outcome.Error("previewer config error: " + req.repo + ": " + env.configProblem.value, true))
  }

  /** The ways out before the claim. */
  function EarlyExit(env: Environment, settings: RepoSettings, req: Request): Option<Exit> {
    if !req.explicitRunner && env.configProblem.Some? then
      Some(Returned(Outcome.Error(ConfigMessage(req.repo, env.configProblem.value), true)))
    else
      match env.pullRequest
      case None => Some(Threw(true))
      case Some(pr) =>
        if pr.closed then Some(Returned(Outcome.Skipped("PR is closed")))
        else if pr.isDraft && settings.ignoreDraft then Some(Returned(Outcome.Skipped("PR is draft")))
        else None
  }

  /** A whole run: the early ways out leave no trace, the rest follows the claim. */
  ghost predicate Followed(
    log: Log, token: Token, env: Environment, settings: RepoSettings, req: Request, exit: Exit, posted: bool, c: Course
  ) {
    var early := EarlyExit(env, settings, req);
    if early.Some? then exit == early.value && !posted && PhaseOf(log, token).Unused?
    else FollowedClaim(
      log, token, Assigned(env, settings, req, env.pullRequest.value), req.dryRun, req.force, exit, posted, c)
  }

  /** Unless the release throws, no running row is left carrying the run's token. */
  lemma FollowedLeavesNoClaim(
    g: Graph, log: Log, token: Token, env: Environment, settings: RepoSettings, req: Request, exit: Exit,
    posted: bool, c: Course
  )
    requires StoreHistory.Valid(g, log) && Followed(log, token, env, settings, req, exit, posted, c)
    ensures exit == Threw(false) ==> !req.dryRun && env.releaseThrows
    ensures exit != Threw(false) ==> forall key | key in Replay(log) :: !Owns(Replay(log), key, token)
  {
    if exit != Threw(false) {
      NoStrandedClaim(g, log, token);
    }
  }

  /** From `before` on there are events of `token` only, and no claim among them. */
  ghost predicate Solo(before: Log, log: Log, token: Token) {
    before <= log && forall i | |before| <= i < |log| :: log[i].token == token && !log[i].Claimed?
  }

  // ---- what a run was asked for ------------------------------------------------------------------------

  /** The event is one of the assignment; claims are made under `force` only. */
  ghost predicate Keeping(e: Event, a: Assignment, force: Option<bool>) {
    match e
    case Claimed(_, key, forced, staleMs, _, _) =>
      key == a.key && force == Some(forced) && staleMs == DEFAULT_STALE_MS
    case Baseline(_, incremental, _, _) => incremental == a.incremental
    case Recorded(_, run, git, _) => run.key == a.key && run.base == a.base && git == a.env.git
    case Released(_, key, _) => key == a.key
  }

  /** From `before` on, the token's events are those of its assignment. */
  ghost predicate Keeps(before: Log, log: Log, token: Token, a: Assignment, force: Option<bool>) {
    && before <= log
    && forall i | |before| <= i < |log| && log[i].token == token :: Keeping(log[i], a, force)
  }

  lemma KeepsOn(before: Log, log: Log, more: Log, token: Token, a: Assignment, force: Option<bool>)
    requires Keeps(before, log, token, a, force) && Keeps(log, more, token, a, None)
    ensures Keeps(before, more, token, a, force)
  {
    forall i | |before| <= i < |more| && more[i].token == token
      ensures Keeping(more[i], a, force)
    {
      if i < |log| {
        assert more[i] == log[i];
      } else {
        assert Keeping(more[i], a, None);
      }
    }
  }

  /** The `i`th event is what the request, the repository's settings and the pull request ask for. */
  ghost predicate AskedFor(log: Log, i: nat, env: Environment, settings: RepoSettings, req: Request)
    requires i < |log|
  {
    && env.pullRequest.Some?
    && var pr := env.pullRequest.value;
       var key := Key(req.repo, req.pr, pr.headSha);
       match log[i]
       case Claimed(_, claimed, force, staleMs, _, _) =>
         claimed == key && force == req.force && staleMs == DEFAULT_STALE_MS && !req.dryRun
       case Baseline(_, _, last, _) =>
         if settings.incremental && !req.full then IsLastReviewed(Replay(log[..i]), req.repo, req.pr, last)
         else last.None?
       case Recorded(token, run, _, _) =>
         && run.key == key && run.base == pr.baseSha
         && var p := PhaseOf(log[..i], token);
            && p.Based? && (p.last.Some? ==> settings.incremental && !req.full)
            && RangeOf(p, log[i])
               == if p.last.Some? then Prepare(env.git, p.last.value, pr.headSha, Incremental, Some(pr.baseSha))
                  else Prepare(env.git, pr.baseSha, pr.headSha, Full, Some(pr.baseSha))
       case Released(_, released, _) => released == key
  }

  /**
    Every event of the run is what the request, the repository's settings and the pull request
    ask for: the claim is of the current head; a baseline is taken exactly when the repository
    is reviewed incrementally and nobody asked for a full review, and then it is the last
    covered head; a record accounts for the range from that baseline, else from the base.
   */
  ghost predicate AsAsked(log: Log, token: Token, env: Environment, settings: RepoSettings, req: Request) {
    forall i | 0 <= i < |log| && log[i].token == token :: AskedFor(log, i, env, settings, req)
  }

  /** Whatever phase a token is in concerns the head it claimed, and its baseline the one it chose. */
  lemma {:induction false} PhaseKept(g: Graph, log: Log, token: Token, a: Assignment, force: Option<bool>, n: nat)
    requires StoreHistory.Valid(g, log) && Keeps([], log, token, a, force) && n <= |log|
    ensures var p := PhaseOf(log[..n], token);
            && (p.Holding? || p.Based? ==> p.key == a.key)
            && (p.Based? && p.last.Some? ==> a.incremental)
  {
    if n == 0 {
    } else {
      PhaseKept(g, log, token, a, force, n - 1);
      PrefixValid(g, log, n - 1);
      assert log[..n][..n - 1] == log[..n - 1];
      if log[n - 1].token == token {
        assert Keeping(log[n - 1], a, force);
      }
    }
  }

  lemma KeepsWhatWasAsked(
    g: Graph, before: Log, log: Log, token: Token, env: Environment, settings: RepoSettings, req: Request
  )
    requires StoreHistory.Valid(g, log) && env.pullRequest.Some?
    requires forall i | 0 <= i < |before| :: before[i].token != token
    requires var a := Assigned(env, settings, req, env.pullRequest.value);
             Keeps(before, log, token, a, if req.dryRun then None else Some(req.force))
    ensures AsAsked(log, token, env, settings, req)
  {
    var a := Assigned(env, settings, req, env.pullRequest.value);
    var force := if req.dryRun then None else Some(req.force);
    assert Keeps([], log, token, a, force) by {
      assert forall i | 0 <= i < |before| :: log[i] == before[i];
    }
    forall i | 0 <= i < |log| && log[i].token == token
      ensures AskedFor(log, i, env, settings, req)
    {
      assert Keeping(log[i], a, force);
      PrefixValid(g, log, i);
      PhaseKept(g, log, token, a, force, i);
    }
  }

  /** The run gets past the claim. */
  predicate GetsToRead(env: Environment, settings: RepoSettings, req: Request, exit: Exit) {
    EarlyExit(env, settings, req).None? && exit != Returned(Duplicate) && (req.dryRun || !env.claimThrows)
  }

  /** The baseline is the last covered head exactly when an incremental review was asked for; dry runs included. */
  ghost predicate ReadAsAsked(log: Log, env: Environment, settings: RepoSettings, req: Request, c: Course) {
    if settings.incremental && !req.full then
      env.baselineThrows || (c.read <= |log| && IsLastReviewed(Replay(log[..c.read]), req.repo, req.pr, c.last))
    else c.last.None?
  }

  lemma RunIsAsAsked(
    g: Graph, before: Log, log: Log, token: Token, env: Environment, settings: RepoSettings, req: Request, exit: Exit,
    posted: bool, c: Course
  )
    requires StoreHistory.Valid(g, log) && before <= log
    requires forall i | 0 <= i < |before| :: before[i].token != token
    requires Followed(log, token, env, settings, req, exit, posted, c)
    requires if EarlyExit(env, settings, req).Some? then forall i | |before| <= i < |log| :: log[i].token != token
             else
               var a := Assigned(env, settings, req, env.pullRequest.value);
               Keeps(before, log, token, a, if req.dryRun then None else Some(req.force))
    ensures AsAsked(log, token, env, settings, req)
    ensures GetsToRead(env, settings, req, exit) ==> ReadAsAsked(log, env, settings, req, c)
    ensures ReportsConfig(env, req, exit)
  {
    if env.configProblem.Some? {
      ConfigMessageReads(req.repo, env.configProblem.value);
    }
    if EarlyExit(env, settings, req).None? {
      KeepsWhatWasAsked(g, before, log, token, env, settings, req);
      if GetsToRead(env, settings, req, exit) {
        assert ReadBaseline(log, Assigned(env, settings, req, env.pullRequest.value), c);
      }
    } else {
      assert forall i | 0 <= i < |before| :: log[i] == before[i];
    }
  }

  // ---- the run ---------------------------------------------------------------------------------------

  /** The write of the terminal row; when it throws it changes nothing. */
  method RecordDiff(
    store: Store, a: Assignment, token: Token, ghost last: Option<Sha>, ghost diff: Diff, status: RunStatus,
    note: Option<string>, startedAt: Time
  ) returns (recorded: bool, ghost n: nat)
    requires store.Orderly() && token < store.nextToken && Truthful(a.env.git, store.graph)
    requires PhaseOf(store.log, token) == Based(a.key, last) && diff == DiffOf(a, last)
    requires !status.Running? && status == StatusOf(a.env, diff) && note == NoteOf(a.env, diff)
    modifies store
    ensures store.Orderly() && token < store.nextToken && old(store.log) <= store.log
    ensures old(store.nextToken) <= store.nextToken
    ensures recorded == !a.env.recordThrows
    ensures recorded ==> PhaseOf(store.log, token) == Finished(a.key) && RecordedItsRange(store.log, n, token, a, last)
    ensures !recorded ==> PhaseOf(store.log, token) == PhaseOf(old(store.log), token)
    ensures Keeps(old(store.log), store.log, token, a, None)
    ensures store.alone ==> store.clock == old(store.clock) && Solo(old(store.log), store.log, token)
    ensures store.alone && !recorded ==> store.runs == old(store.runs)
  {
    store.Yield({token});
    n := |store.log|;
    if a.env.recordThrows {
      return false, n;
    }
    var finishedAt := store.Now();
    var id := store.FreshToken();
    store.RecordRun(Record(id, a.key, status, a.base, note, startedAt, finishedAt), token, a.env.git);
    assert store.log[..n] == store.log[..|store.log| - 1];
    recorded := true;
  }

  /** From the gate to the record, on a prepared diff; no outcome when a call throws. */
  method ReviewDiff(
    store: Store, dryRun: bool, a: Assignment, token: Token, ghost last: Option<Sha>, diff: Diff,
    startedAt: Time
  )
    returns (outcome: Option<Outcome>, posted: bool, ghost n: nat)
    requires store.Orderly() && token < store.nextToken && Truthful(a.env.git, store.graph) && Reports(a.env)
    requires diff == DiffOf(a, last) && PhaseOf(store.log, token) == if dryRun then Unused else Based(a.key, last)
    modifies store
    ensures store.Orderly() && token < store.nextToken && old(store.log) <= store.log
    ensures old(store.nextToken) <= store.nextToken
    ensures outcome == if DiffThrows(a.env, dryRun, diff) then None
                       else Some(if dryRun && a.env.gate(diff).None? then DryRun else OutcomeOf(a.env, diff))
    ensures posted == Posts(a.env, dryRun, diff)
    ensures dryRun || outcome.None? ==> PhaseOf(store.log, token) == PhaseOf(old(store.log), token)
    ensures !dryRun && outcome.Some? ==>
              PhaseOf(store.log, token) == Finished(a.key) && RecordedItsRange(store.log, n, token, a, last)
    ensures Keeps(old(store.log), store.log, token, a, None)
    ensures store.alone ==> store.clock == old(store.clock) && Solo(old(store.log), store.log, token)
    ensures store.alone && outcome.None? ==> store.runs == old(store.runs)
  {
    outcome, posted, n := None, false, 0;
    var skip := a.env.gate(diff);
    if skip.Some? {
      if !dryRun {
        var recorded;
        recorded, n := RecordDiff(store, a, token, last, diff, RunStatus.Skipped, skip, startedAt);
        if !recorded {
          return;
        }
      }
      outcome := Some(Outcome.Skipped(skip.value));
      return;
    }
    store.Yield({token});
    if a.env.setupThrows(diff) || a.env.review(diff).None? {
      return;
    }
    var result := a.env.review(diff).value;
    if dryRun {
      outcome := Some(DryRun);
      return;
    }
    store.Yield({token});
    if !result.status.Error? && result.hasComment {
      if a.env.publishThrows {
        return;
      }
      posted := true;
    }
    var recorded;
    recorded, n := RecordDiff(store, a, token, last, diff, result.status, result.message, startedAt);
    if !recorded {
      return;
    }
    if result.status.Error? {
      var message := if result.message.Some? then result.message.value else "runner error";
      var retriable := if result.retriable.Some? then result.retriable.value else true;
      outcome := Some(Outcome.Error(message, retriable));
      return;
    }
    outcome := Some(Reviewed);
  }

  lemma RecordKept(log: Log, more: Log, n: nat, token: Token, a: Assignment, last: Option<Sha>)
    requires RecordedItsRange(log, n, token, a, last) && log <= more
    ensures RecordedItsRange(more, n, token, a, last)
  {
    assert more[..n] == log[..n];
  }

  /** Other pipelines run on while the checkout is cleaned up; what was recorded stays. */
  method CleanUp(store: Store, a: Assignment, token: Token, ghost last: Option<Sha>, ghost n: nat)
    requires store.Orderly() && token < store.nextToken
    modifies store
    ensures store.Orderly() && token < store.nextToken && old(store.log) <= store.log
    ensures old(store.nextToken) <= store.nextToken
    ensures PhaseOf(store.log, token) == PhaseOf(old(store.log), token)
    ensures RecordedItsRange(old(store.log), n, token, a, last) ==> RecordedItsRange(store.log, n, token, a, last)
    ensures Keeps(old(store.log), store.log, token, a, None)
    ensures store.alone ==>
              store.clock == old(store.clock) && store.log == old(store.log) && store.runs == old(store.runs)
  {
    ghost var log := store.log;
    store.Yield({token});
    if RecordedItsRange(log, n, token, a, last) {
      RecordKept(log, store.log, n, token, a, last);
    }
  }

  /** The last covered head, when the review is to be incremental; the read is an await of its own. */
  method ChooseBaseline(
    store: Store, dryRun: bool, a: Assignment, token: Token
  ) returns (last: Option<Sha>, ghost n: nat)
    requires store.Orderly() && token < store.nextToken
    requires PhaseOf(store.log, token) == if dryRun then Unused else Holding(a.key)
    modifies store
    ensures store.Orderly() && token < store.nextToken && old(store.log) <= store.log
    ensures old(store.nextToken) <= store.nextToken
    ensures |old(store.log)| <= n <= |store.log|
    ensures if a.incremental then IsLastReviewed(Replay(store.log[..n]), a.key.repo, a.key.pr, last) else last.None?
    ensures PhaseOf(store.log, token) == if dryRun then Unused else Based(a.key, last)
    ensures Keeps(old(store.log), store.log, token, a, None)
    ensures store.alone ==> store.clock == old(store.clock) && store.runs == old(store.runs)
    ensures store.alone ==> Solo(old(store.log), store.log, token)
  {
    store.Yield({token});
    n := |store.log|;
    last := None;
    if a.incremental {
      last := store.LastReviewedSha(a.key.repo, a.key.pr);
    }
    assert store.log[..n] == store.log;
    if !dryRun {
      store.Append(Baseline(token, a.incremental, last, store.clock));
      assert store.log[..n] == store.log[..|store.log| - 1];
    }
  }

  /** How far the protocol has come when the guarded part ends. */
  ghost predicate Guarded(p: Phase, key: Key, dryRun: bool, outcome: Option<Outcome>) {
    if dryRun then p.Unused? else if outcome.Some? then p == Finished(key) else MayRelease(p, key)
  }

  /** The inner try: the review of a prepared diff, and the checkout's cleanup whatever came of it. */
  method ReviewCheckout(store: Store, dryRun: bool, a: Assignment, token: Token, ghost last: Option<Sha>, diff: Diff)
    returns (outcome: Option<Outcome>, posted: bool, ghost n: nat)
    requires store.Orderly() && token < store.nextToken && Truthful(a.env.git, store.graph) && Reports(a.env)
    requires diff == DiffOf(a, last) && PhaseOf(store.log, token) == if dryRun then Unused else Based(a.key, last)
    modifies store
    ensures store.Orderly() && token < store.nextToken && old(store.log) <= store.log
    ensures old(store.nextToken) <= store.nextToken
    ensures outcome == if DiffThrows(a.env, dryRun, diff) || a.env.cleanupThrows then None
                       else Some(if dryRun && a.env.gate(diff).None? then DryRun else OutcomeOf(a.env, diff))
    ensures posted == Posts(a.env, dryRun, diff)
    ensures !dryRun && !DiffThrows(a.env, dryRun, diff) ==> RecordedItsRange(store.log, n, token, a, last)
    ensures Guarded(PhaseOf(store.log, token), a.key, dryRun, outcome)
    ensures Keeps(old(store.log), store.log, token, a, None)
    ensures store.alone ==> store.clock == old(store.clock) && Solo(old(store.log), store.log, token)
    ensures store.alone && DiffThrows(a.env, dryRun, diff) ==> store.runs == old(store.runs)
  {
    var startedAt := store.Now();
    outcome, posted, n := ReviewDiff(store, dryRun, a, token, last, diff, startedAt);
    CleanUp(store, a, token, last, n);
    if a.env.cleanupThrows {
      outcome := None;
    }
  }

  lemma BaselineKept(log: Log, more: Log, a: Assignment, c: Course)
    requires ReadBaseline(log, a, c) && log <= more
    ensures ReadBaseline(more, a, c)
  {
    if c.read <= |log| {
      assert more[..c.read] == log[..c.read];
    }
  }

  /** The guarded part: baseline, checkout, review, and the checkout's cleanup on every way out. */
  method ReviewClaimed(store: Store, dryRun: bool, a: Assignment, token: Token, ghost claim: nat, ghost at: Time)
    returns (outcome: Option<Outcome>, posted: bool, ghost c: Course)
    requires store.Orderly() && token < store.nextToken && Truthful(a.env.git, store.graph) && Reports(a.env)
    requires PhaseOf(store.log, token) == if dryRun then Unused else Holding(a.key)
    modifies store
    ensures store.Orderly() && token < store.nextToken && old(store.log) <= store.log
    ensures old(store.nextToken) <= store.nextToken
    ensures c.claim == claim && c.at == at && |old(store.log)| <= c.read
    ensures ReadBaseline(store.log, a, c)
    ensures outcome ==
            if Throws(a, dryRun, c.last) then None
            else if dryRun && a.env.gate(DiffOf(a, c.last)).None? then Some(DryRun)
            else Some(OutcomeOf(a.env, DiffOf(a, c.last)))
    ensures posted == (!PrepareFails(a) && Posts(a.env, dryRun, DiffOf(a, c.last)))
    ensures !dryRun && Records(a, c.last) ==> RecordedItsRange(store.log, c.record, token, a, c.last)
    ensures Guarded(PhaseOf(store.log, token), a.key, dryRun, outcome)
    ensures Keeps(old(store.log), store.log, token, a, None)
    ensures store.alone ==> store.clock == old(store.clock) && Solo(old(store.log), store.log, token)
    ensures store.alone && !Records(a, c.last) && !dryRun ==> store.runs == old(store.runs)
  {
    outcome, posted := None, false;
    c := Course(claim, at, |store.log|, None, |store.log|);
    if a.incremental && a.env.baselineThrows {
      return;
    }
    var last;
    ghost var read;
    last, read := ChooseBaseline(store, dryRun, a, token);
    c := c.(read := read, last := last);
    ghost var log := store.log;
    assert ReadBaseline(log, a, c);
    store.Yield({token});
    BaselineKept(log, store.log, a, c);
    if a.env.prepareThrows {
      return;
    }
    var mode := if last.Some? then Incremental else Full;
    var from := if last.Some? then last.value else a.base;
    var diff := Prepare(a.env.git, from, a.key.sha, mode, Some(a.base));
    log := store.log;
    ghost var n;
    outcome, posted, n := ReviewCheckout(store, dryRun, a, token, last, diff);
    c := c.(record := n);
    BaselineKept(log, store.log, a, c);
  }

  /** The catch clause around the claimed part: the claim is released unless that itself throws. */
  method ReleaseAndRethrow(store: Store, dryRun: bool, a: Assignment, token: Token) returns (exit: Exit)
    requires store.Orderly() && token < store.nextToken
    requires var p := PhaseOf(store.log, token); if dryRun then p.Unused? else MayRelease(p, a.key)
    modifies store
    ensures store.Orderly() && token < store.nextToken && old(store.log) <= store.log
    ensures old(store.nextToken) <= store.nextToken
    ensures exit == Threw(dryRun || !a.env.releaseThrows)
    ensures Settles(PhaseOf(store.log, token), a.key, dryRun, exit)
    ensures Keeps(old(store.log), store.log, token, a, None)
    ensures store.alone ==> store.clock == old(store.clock) && Solo(old(store.log), store.log, token)
    ensures store.alone && exit.released && !dryRun ==> store.runs == Release(old(store.runs), a.key, token)
  {
    if !dryRun {
      store.Yield({token});
      if a.env.releaseThrows {
        return Threw(false);
      }
      store.ReleaseClaim(a.key, token);
    }
    exit := Threw(true);
  }

  /** A claim and what was recorded under it stay in a history that grows. */
  lemma FollowsClaim(
    before: Log, log: Log, token: Token, a: Assignment, dryRun: bool, force: bool, exit: Exit, posted: bool,
    c: Course
  )
    requires before <= log && (dryRun || !a.env.claimThrows) && (!dryRun ==> Took(before, token, a, force, c))
    requires ReadBaseline(before, a, c) && exit == Fate(a, dryRun, c.last)
    requires posted == (!PrepareFails(a) && Posts(a.env, dryRun, DiffOf(a, c.last)))
    requires !dryRun && Records(a, c.last) ==> RecordedItsRange(before, c.record, token, a, c.last)
    requires Settles(PhaseOf(log, token), a.key, dryRun, exit)
    ensures FollowedClaim(log, token, a, dryRun, force, exit, posted, c)
  {
    BaselineKept(before, log, a, c);
    if !dryRun {
      assert log[c.claim] == before[c.claim];
      if Records(a, c.last) {
        RecordKept(before, log, c.record, token, a, c.last);
      }
    }
  }

  /** Review a claimed head; a throw on the way releases the claim. */
  method ReviewOrRelease(
    store: Store, dryRun: bool, ghost force: bool, a: Assignment, token: Token, ghost claim: nat, ghost at: Time
  )
    returns (exit: Exit, posted: bool, ghost c: Course)
    requires store.Orderly() && token < store.nextToken && Truthful(a.env.git, store.graph) && Reports(a.env)
    requires PhaseOf(store.log, token) == if dryRun then Unused else Holding(a.key)
    requires !dryRun ==> !a.env.claimThrows && Took(store.log, token, a, force, Course(claim, at, 0, None, 0))
    modifies store
    ensures store.Orderly() && old(store.log) <= store.log && old(store.nextToken) <= store.nextToken
    ensures c.claim == claim && c.at == at && |old(store.log)| <= c.read
    ensures FollowedClaim(store.log, token, a, dryRun, force, exit, posted, c)
    ensures Keeps(old(store.log), store.log, token, a, None)
    ensures store.alone ==> store.clock == old(store.clock) && Solo(old(store.log), store.log, token)
    ensures store.alone && !dryRun && exit == Threw(true) && !Records(a, c.last) ==>
              store.runs == Release(old(store.runs), a.key, token)
  {
    var outcome;
    outcome, posted, c := ReviewClaimed(store, dryRun, a, token, claim, at);
    ghost var log := store.log;
    if outcome.Some? {
      exit := Returned(outcome.value);
    } else {
      exit := ReleaseAndRethrow(store, dryRun, a, token);
    }
    FollowsClaim(log, store.log, token, a, dryRun, force, exit, posted, c);
  }

  /** A claim this run makes. */
  predicate ItsClaim(e: Event, key: Key, force: bool, clock: Time) {
    e.Claimed? && e.key == key && e.force == force && e.staleMs == DEFAULT_STALE_MS && e.at == e.later == clock
  }

  /**
    Alone with the store a run adds its own events only, claims at the clock's one reading, and
    when it takes a claim and releases it unrecorded, leaves the head without a row.
   */
  ghost predicate SoloRun(
    before: Log, clock: Time, log: Log, clock': Time,
    token: Token, a: Assignment, dryRun: bool, force: bool, exit: Exit, c: Course
  ) {
    && clock' == clock && c.claim == |before| && c.at == clock && before <= log
    && (forall i | |before| <= i < |log| ::
          && log[i].token == token
          && (log[i].Claimed? ==> ItsClaim(log[i], a.key, force, clock)))
    && (!dryRun && !a.env.claimThrows && Claimable(Replay(before), a.key, force, DEFAULT_STALE_MS, clock) ==>
          (exit == Threw(true) && !Records(a, c.last) ==> Replay(log) == Replay(before) - {a.key}))
  }

  lemma SoloAfterClaim(
    before: Log, claimed: Log, clock: Time, log: Log, token: Token, a: Assignment, force: bool, exit: Exit, c: Course
  )
    requires claimed == before + [Claimed(token, a.key, force, DEFAULT_STALE_MS, clock, clock)]
    requires Solo(claimed, log, token)
    requires c.claim == |before| && c.at == clock && Claimable(Replay(before), a.key, force, DEFAULT_STALE_MS, clock)
    requires exit == Threw(true) && !Records(a, c.last) ==> Replay(log) == Release(Replay(claimed), a.key, token)
    ensures SoloRun(before, clock, log, clock, token, a, false, force, exit, c)
  {
    assert claimed[..|claimed| - 1] == before;
    assert log[|before|] == claimed[|before|];
  }

  /** The claim of the head under the run's own token. */
  method TakeClaim(store: Store, force: bool, a: Assignment, token: Token) returns (claimed: bool, ghost c: Course)
    requires store.Orderly() && token < store.nextToken && PhaseOf(store.log, token).Unused?
    modifies store`runs, store`clock, store`nextToken, store`log
    ensures store.Orderly() && token < store.nextToken && old(store.nextToken) <= store.nextToken
    ensures c.claim == c.read == |old(store.log)| && old(store.clock) <= c.at &&
        (store.alone ==> c.at == store.clock == old(store.clock))
    ensures !claimed ==> store.log == old(store.log) && Refused(store.log, a, force, c)
    ensures claimed ==>
              && Claimable(Replay(old(store.log)), a.key, force, DEFAULT_STALE_MS, c.at)
              && PhaseOf(store.log, token) == Holding(a.key) && Took(store.log, token, a, force, c)
              && store.log == old(store.log) + [store.log[c.claim]] &&
                  (store.alone ==> store.log[c.claim].later == c.at)
    ensures Keeps(old(store.log), store.log, token, a, Some(force))
  {
    ghost var log := store.log;
    ghost var id, at, later;
    claimed, id, at, later := store.ClaimReview(a.key, force, None, Some(token));
    c := Course(|log|, at, |log|, None, |log|);
    assert log[..|log|] == log;
  }

  /** The part of a run that has the claim. */
  method ReviewUnderClaim(
    store: Store, force: bool, a: Assignment, token: Token, ghost before: Log, ghost clock: Time, ghost claim: Course
  )
    returns (exit: Exit, posted: bool, ghost c: Course)
    requires store.Orderly() && token < store.nextToken && Truthful(a.env.git, store.graph) && Reports(a.env)
    requires PhaseOf(store.log, token) == Holding(a.key) && !a.env.claimThrows
    requires claim.claim == |before| && clock <= claim.at && Took(store.log, token, a, force, claim)
    requires |store.log| == |before| + 1 && before <= store.log
    requires Claimable(Replay(before), a.key, force, DEFAULT_STALE_MS, claim.at)
    requires store.alone ==> claim.at == store.clock == clock == store.log[claim.claim].later
    modifies store
    ensures store.Orderly() && before <= store.log && old(store.nextToken) <= store.nextToken
    ensures c.claim == claim.claim && c.at == claim.at && |before| <= c.read
    ensures FollowedClaim(store.log, token, a, false, force, exit, posted, c)
    ensures Keeps(before, store.log, token, a, Some(force))
    ensures store.alone ==> SoloRun(before, clock, store.log, store.clock, token, a, false, force, exit, c)
  {
    ghost var claimed := store.log;
    exit, posted, c := ReviewOrRelease(store, false, force, a, token, claim.claim, claim.at);
    assert Keeping(claimed[|before|], a, Some(force));
    KeepsOn(before, claimed, store.log, token, a, Some(force));
    if store.alone {
      assert claimed == before + [claimed[|before|]];
      SoloAfterClaim(before, claimed, clock, store.log, token, a, force, exit, c);
    }
  }

  /** Claim the head, then review it. */
  method ClaimAndReview(store: Store, dryRun: bool, force: bool, a: Assignment, token: Token)
    returns (exit: Exit, posted: bool, ghost c: Course)
    requires store.Orderly() && token < store.nextToken && Truthful(a.env.git, store.graph) && Reports(a.env)
    requires PhaseOf(store.log, token).Unused?
    modifies store
    ensures store.Orderly() && old(store.log) <= store.log && old(store.nextToken) <= store.nextToken
    ensures |old(store.log)| <= c.claim && |old(store.log)| <= c.read && old(store.clock) <= c.at
    ensures FollowedClaim(store.log, token, a, dryRun, force, exit, posted, c)
    ensures Keeps(old(store.log), store.log, token, a, if dryRun then None else Some(force))
    ensures store.alone ==>
              SoloRun(old(store.log), old(store.clock), store.log, store.clock, token, a, dryRun, force, exit, c)
  {
    c := Course(|store.log|, store.clock, |store.log|, None, |store.log|);
    if dryRun {
      exit, posted, c := ReviewOrRelease(store, dryRun, force, a, token, c.claim, c.at);
      return;
    }
    if a.env.claimThrows {
      return Threw(true), false, c;
    }
    ghost var before, clock := store.log, store.clock;
    var claimed;
    claimed, c := TakeClaim(store, force, a, token);
    if !claimed {
      return Returned(Duplicate), false, c;
    }
    exit, posted, c := ReviewUnderClaim(store, force, a, token, before, clock, c);
  }

  /** The configuration check, the pull request's state, and then the claimed part. */
  method GateAndReview(store: Store, env: Environment, settings: RepoSettings, req: Request, token: Token)
    returns (exit: Exit, posted: bool, ghost c: Course)
    requires store.Orderly() && token < store.nextToken && Truthful(env.git, store.graph) && Reports(env)
    requires PhaseOf(store.log, token).Unused?
    modifies store
    ensures store.Orderly() && old(store.log) <= store.log && old(store.nextToken) <= store.nextToken
    ensures |old(store.log)| <= c.claim && |old(store.log)| <= c.read && old(store.clock) <= c.at
    ensures Followed(store.log, token, env, settings, req, exit, posted, c)
    ensures EarlyExit(env, settings, req).Some? ==>
              forall i | |old(store.log)| <= i < |store.log| :: store.log[i].token != token
    ensures EarlyExit(env, settings, req).None? ==>
              var a := Assigned(env, settings, req, env.pullRequest.value);
              Keeps(old(store.log), store.log, token, a, if req.dryRun then None else Some(req.force))
    ensures store.alone && EarlyExit(env, settings, req).Some? ==>
              store.log == old(store.log) && store.clock == old(store.clock)
    ensures store.alone && EarlyExit(env, settings, req).None? ==>
              SoloRun(
                old(store.log), old(store.clock), store.log, store.clock, token,
                Assigned(env, settings, req, env.pullRequest.value), req.dryRun, req.force, exit, c)
  {
    posted, c := false, Course(|store.log|, store.clock, |store.log|, None, |store.log|);
    if !req.explicitRunner && env.configProblem.Some? {
      exit := Returned(Outcome.Error(ConfigMessage(req.repo, env.configProblem.value), true));
      return;
    }
    store.Yield({token});
    if env.pullRequest.None? {
      exit := Threw(true);
      return;
    }
    var pr := env.pullRequest.value;
    if pr.closed {
      exit := Returned(Outcome.Skipped("PR is closed"));
      return;
    }
    if pr.isDraft && settings.ignoreDraft {
      exit := Returned(Outcome.Skipped("PR is draft"));
      return;
    }
    exit, posted, c := ClaimAndReview(store, req.dryRun, req.force, Assigned(env, settings, req, pr), token);
  }

  /**
    For every interleaving with other pipelines and every call that may throw: what a run
    returns, posts and records is exactly what its calls, its claim and its baseline decide,
    and unless the release throws no running row is left carrying its token.
   */
  method ReviewPipeline(store: Store, env: Environment, settings: RepoSettings, req: Request)
    returns (exit: Exit, posted: bool, token: Token, ghost c: Course)
    requires store.Orderly() && Truthful(env.git, store.graph) && Reports(env)
    modifies store
    ensures store.Orderly() && old(store.log) <= store.log && old(store.nextToken) <= token < store.nextToken
    ensures |old(store.log)| <= c.claim && |old(store.log)| <= c.read && old(store.clock) <= c.at
    ensures Followed(store.log, token, env, settings, req, exit, posted, c)
    ensures exit == Threw(false) ==> !req.dryRun && env.releaseThrows
    ensures exit != Threw(false) ==> forall key | key in store.runs :: !Owns(store.runs, key, token)
    ensures AsAsked(store.log, token, env, settings, req)
    ensures GetsToRead(env, settings, req, exit) ==> ReadAsAsked(store.log, env, settings, req, c)
    ensures ReportsConfig(env, req, exit)
    ensures store.alone && EarlyExit(env, settings, req).Some? ==>
              store.log == old(store.log) && store.clock == old(store.clock)
    ensures store.alone && EarlyExit(env, settings, req).None? ==>
              SoloRun(
                old(store.log), old(store.clock), store.log, store.clock, token,
                Assigned(env, settings, req, env.pullRequest.value), req.dryRun, req.force, exit, c)
  {
    ghost var before := store.log;
    token := store.FreshToken();
    exit, posted, c := GateAndReview(store, env, settings, req, token);
    RunIsAsAsked(store.graph, before, store.log, token, env, settings, req, exit, posted, c);
    FollowedLeavesNoClaim(store.graph, store.log, token, env, settings, req, exit, posted, c);
  }
}
