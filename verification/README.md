# Verified model of the review platform

A Dafny model of a pull-request review platform: webhooks and a reconciler put jobs on a durable
queue, workers lease them and run a review pipeline, and a table of review runs says which heads
are claimed, reviewed, gated out or failed. Several workers, a sweep and a webhook process share
the two tables; any of them may stall, throw or crash between two steps.

## How the model is built

**Two tables, two logs.** `JobTable` and `ReviewRuns` are the SQL statements as functions on table
values. `QueueHistory` and `StoreHistory` are runs: logs of every call any number of processes
made, in the order the database serialised them, with `Valid` logs being those the code and the
database allow. A crash is the absence of further events, passing time is the events'
timestamps, ids and claim tokens are fresh. `SqliteQueue.Queue` and `SqliteStore.Store` are the
classes: each method changes the table and is proved to be exactly one logged event, so what is
proved for all logs holds for everything the methods do. The store's methods take any arguments,
and keep the history within the protocol (`Orderly`) when the caller does. At every await `Yield`
may append whatever others can do: for the store unless its ghost flag `alone` says that nobody
else uses it and its clock stands still, for the queue at any finite number `others` of awaits.

**The pipeline under interference.** `Pipeline` is the review run with its `try`, `catch` and
`finally`. Wherever the original awaits, `Store.Yield` may change the store in any way other
pipelines can, and whatever calls out of the process may throw. What a run returns, posts and
records is then a function of its calls, its claim and the baseline it read (`Followed`).
`WorkerLoop` runs that pipeline for each leased job, and `Reconciler` runs that drain, so their
results speak of the store the reviews left behind.

**Laws beside functions.** Where a method and its specification share a function, a law states what
that function does in other terms: row by row for the statements (`Lease`, `RecordRun`), by cause
for failures (`SettleFailure`, `TurnSettlesByOutcome`), by request and pull request for a review
(`ReviewPipeline`, `TurnReviewsAsAsked`), by the commit graph for ranges
(`FullRangeStartsAtMergeBase`), by a glob's own text (`DirsThen` and the four laws after it).

**Safety over whole runs.** `ReviewCoverage` follows diff baselines through the log and the commit
graph: no commit slips between the ranges that were reviewed. `CrashRecovery` relates the queue's
visibility timeout to the store's stale window. `WorkerLoop` routes failures and drains,
`Reconciler` sweeps, `Sweeps` relates two sweeps in a row, and `Ingress` is the webhook process as
a state machine of kicks, passes and timers, one method per stretch of code that runs without
awaiting.

**Sequential algorithms.** `Glob` (the glob compiler against a reading of its output under sections
22.2.1 and 22.2.2 of ECMA-262), `Routing`, `DiffBudget`, `SubsystemGuides`, `FsScan`, `Publisher`
and `RunnerSelection`. `Basics`, `Text`, `PathOrder`, `CommitGraph` and `RetrySchedule` hold what
they share.

**Properties that fail.** Where the code keeps less than one might expect, the code is modelled as
it is, with the exact condition and an input on which the property fails:

- coverage when a pull request moves to another base (`BaseMoveSafeExactly`, `RetargetingLeavesAHole`);
- reclaiming a dead worker's claim when the margin is short (`MarginIsExact`, whose other direction
  is a run for every such margin);
- the wake-up for a job that falls due between a drain's last lease and the wake-up query
  (`QuiescentJobsAreAwaited`, `JobInTheGap`);
- one comment per head when a head's first comment falls off the listed page
  (`OneCommentPerEarlyHead`, `LateHeadIsDoubled`);
- a marker per head when an id holds one of the patterns `replaceAll` reads in a replacement, such
  as `$$` (`MarkerExpands`, `DollarsCollide`); the schema of a head, at least seven characters of
  any kind, accepts such ids, though no commit has one;
- a subsystem guide whose name or path spells out a path or risk (`RoundTrip`, `PathLostToName`,
  `RiskLostToPath`);
- an idle second sweep when the first one processes jobs (`SweepTwice`, `SweepTwiceAtRisk`,
  `RereviewUncovers`).

Run `dafny verify dfyconfig.toml` to check the project.

## Model

| member | source | states |
|---|---|---|
| SqliteQueue.Queue.constructor | src/store/sqlite-queue.ts:88-94 | a new queue is an empty table with an empty history, and each missing option has its default |
| SqliteQueue.Queue.Enqueue | src/store/sqlite-queue.ts:100-143 | a new key gets a fresh row; a taken one absorbs the job, or is started over under the new source and scope when forced; every other row stays; one logged event |
| SqliteQueue.Queue.Lease | src/store/sqlite-queue.ts:145-176 | nothing is leased exactly when nothing is due; otherwise the oldest due job, the smaller id among equals, gets one more attempt under a lease id no row carries, and no other row changes |
| SqliteQueue.Queue.Ack | src/store/sqlite-queue.ts:178-183 | only the row still carrying the lease is done; a stale lease changes nothing |
| SqliteQueue.Queue.Nack | src/store/sqlite-queue.ts:185-207 | dead-letters or requeues the holder's row by the given or default cap |
| SqliteQueue.Queue.NackTransient | src/store/sqlite-queue.ts:209-234 | requeues the holder's row after min(base * 2^n, cap) for its n earlier transient settles, gives its attempt back, whatever its attempts; every other row stays |
| SqliteQueue.Queue.NextVisibleAt | src/store/sqlite-queue.ts:242-252 | the least future visibility among live jobs, or none exactly when there is no such job |
| JobTable.NextExists | src/store/sqlite-queue.ts:151-155 | the lease order is total on leasable jobs: there always is one first job |
| QueueHistory.TableSound | src/store/sqlite-queue.ts:100-234 | in every run keys are unique, a row carries a lease exactly while running, and a lease id names one row |
| QueueHistory.RowsPersist | src/store/sqlite-queue.ts:100-234 | rows are never deleted and keep their key and creation time |
| QueueHistory.StaysLeased | src/store/sqlite-queue.ts:145-176 | from a lease until a settle or forced requeue the row runs and is hidden at least until that lease's timeout |
| QueueHistory.LeasesApart | src/store/sqlite-queue.ts:145-176 | two leases of a row with no settle or forced requeue between are at least the visibility timeout apart |
| QueueHistory.LeaseIdOnlyOnItsRow | src/store/sqlite-queue.ts:158-163 | a lease id is never on any row but the one it was issued for |
| QueueHistory.SupersededNowhere | src/store/sqlite-queue.ts:178-200 | once a row is leased again its earlier lease id is on no row, then or ever after |
| QueueHistory.SupersededSettleIsNoOp | src/store/sqlite-queue.ts:178-234 | settling with a superseded lease changes nothing in the table, whatever the verdict |
| QueueHistory.AttemptsConserved | src/store/sqlite-queue.ts:100-234 | since the last (re)queue, attempts is leases minus transient settles, and every lease is accounted for by a settle, an expiry, or being current or acked |
| QueueHistory.ClampNeverFires | src/store/sqlite-queue.ts:223 | whoever holds a lease finds at least one attempt, so the clamp at zero never fires |
| QueueHistory.DeadLetterExactly | src/store/sqlite-queue.ts:185-207 | a row becomes a dead letter exactly at a non-transient settle by its holder where such settles plus expired leases reach that settle's cap |
| QueueHistory.RetryWaitsItsDelay | src/store/sqlite-queue.ts:185-240 | in every run a job given back is not leased again before its delay is over: the holder's own after a plain nack, the back-off of its counter after a transient one |
| RetrySchedule.BackoffGrowsThenSaturates | src/store/sqlite-queue.ts:236-240 | back-off never shrinks, never exceeds the ceiling, and stays at the ceiling once there |
| RetrySchedule.SaturationPoint | src/store/sqlite-queue.ts:236-240 | every schedule doubles for some number of retries and then is flat |
| RetrySchedule.TotalBackoffClosedForm | src/store/sqlite-queue.ts:236-240 | the total delay of n retries is first * (2^k - 1) + (n - k) * ceiling |
| RetrySchedule.TransientSettleKeepsJob | src/store/sqlite-queue.ts:209-240 | in every run a transient settle leaves the job queued, its budget unspent, delayed by min(base * 2^(n-1), cap) for the n-th transient settle in the log |
| RetryClassification.TextIrrelevantExactly | src/core/retry-classification.ts:154-196 | unstamped failures with one status, code and name are routed alike whatever their texts if and only if a socket signal or an error status other than 403 decides |
| RetryClassification.ClassByCause | src/core/retry-classification.ts:154-196 | the three classes partition failures by cause: outages and throttles, refusals, and the rest |
| WorkerLoop.ClientErrorSpendsExactly | src/core/retry-classification.ts:154-196 | in every run, settling an unstamped 4xx failure without a socket signal keeps its attempt spent exactly unless the status is 408, 429 or a rate-limited 403 |
| WorkerLoop.ConfigProblemKeepsJob | src/apps/worker/pipeline.ts:75-86 | the message the pipeline returns for a broken runner configuration is classified as transient, so in every run its job is queued again with the budget it had before the lease |
| WorkerLoop.SettleFailure | src/apps/worker/loop.ts:47-67 | what the holder's row becomes, by the failure's cause: an outage or throttle is queued again with the attempt given back and its back-off; a refusal stays within the queue's cap, anything else within the small one |
| WorkerLoop.SettleAttempt | src/apps/worker/loop.ts:84-101 | a throw and a retriable error are routed by class, anything else is acked |
| WorkerLoop.ReviewJob | src/apps/worker/loop.ts:79-83 | the pipeline runs on the request the job stands for: its pull request, full and forced exactly when the job is |
| WorkerLoop.ProcessLeased | src/apps/worker/loop.ts:69-102 | runs that review and settles exactly the lease it was given by how the review ended, whatever others did to store and queue meanwhile |
| WorkerLoop.RunLeased | src/apps/worker/loop.ts:113-121 | a job whose dependencies cannot be built is settled like any failure |
| WorkerLoop.DrainOne | src/apps/worker/loop.ts:111-122 | one turn leases the job that comes first, runs its review and settles it by its verdict, whatever others do meanwhile; undisturbed it removes just that job from the leasable ones |
| WorkerLoop.DrainedEmpty | src/apps/worker/loop.ts:105-126 | rounds that each take the first leasable job, until none is left, went through all of them once in lease order and left every other row alone |
| WorkerLoop.TurnReviewsAsAsked | src/apps/worker/loop.ts:75-84 | in every drain each review is of the current head; a job for a full re-review claims by force and is reviewed from the base, any other from the last covered head if the repository is reviewed incrementally |
| WorkerLoop.TurnSettlesByOutcome | src/apps/worker/loop.ts:84-121 | in every drain a turn that still holds its lease settles its row by how the review ended, each failure by its cause, and every other end by done |
| WorkerLoop.WorkedInOrder | src/apps/worker/loop.ts:111-122 | for every drain the history of the queue shows each turn: its job leased while first in line, then settled by its verdict under that lease, then the next turn |
| WorkerLoop.ServicedInTurn | src/apps/worker/loop.ts:111-122 | for every drain the history of the store is what its reviews and the other pipelines added, turn by turn |
| WorkerLoop.DrainQueue | src/apps/worker/loop.ts:105-126 | with others using queue and store and the clock moving at any finite number of awaits, a drain terminates, every turn leases the first job, reviews it and settles it as the review ended, and it ends where nothing is leasable; undisturbed it leases each initially leasable job exactly once, in order, and leaves the rest alone |
| WorkerLoop.RoutingKeepsOrSpends | src/apps/worker/loop.ts:47-67 | in every run a transient failure leaves the job queued with the budget it had before the lease; the other classes dead-letter exactly at their own cap |
| WorkerLoop.AckedIsNotLost | src/apps/worker/loop.ts:79-101 | in every interleaving an acked job is no lost review: the pull request was closed or an ignored draft, the head was covered or freshly claimed by another, or this run recorded its range as reviewed, gated out or failed for good |
| SqliteStore.Store.constructor | src/store/sqlite-store.ts:48-51 | a new store is an empty table with an empty history |
| SqliteStore.Store.ClaimReview | src/store/sqlite-store.ts:57-87 | for any token, given or fresh, and any stale window: claims exactly when the row is absent, failed, stale or forced; the row is then running under that token from that time with no error or end, its base kept; otherwise nothing changes |
| SqliteStore.Store.ReleaseClaim | src/store/sqlite-store.ts:89-100 | for any head and token: deletes the row exactly when it is running under that token |
| SqliteStore.Store.RecordRun | src/store/sqlite-store.ts:102-138 | for any record: status, base, error and end are the record's; an existing row, whoever owns it, keeps its id and start time, a new one takes the record's; no other row changes |
| SqliteStore.Store.LastReviewedSha | src/store/sqlite-store.ts:154-163 | a latest-ended covered head of the pull request, or none exactly when there is none |
| SqliteStore.Store.IsReviewedOrInFlight | src/store/sqlite-store.ts:175-217 | the coverage check under the given or default windows: reviewed or gated out, freshly claimed, or a limit error still cooling |
| ReviewRuns.CoverageAgreesWithClaim | src/store/sqlite-store.ts:57-217 | at one clock reading a head is covered exactly when an unforced claim would be refused or a limit error is cooling |
| ReviewRuns.CoveredIsClaimedExactly | src/store/sqlite-store.ts:57-87 | a covered head can be claimed exactly under force or while a limit error cools down |
| ReviewRuns.FailureUncoversExactly | src/store/sqlite-store.ts:102-138 | a terminal record leaves its head uncovered exactly when it is an error that is no limit error still cooling |
| StoreHistory.RunningRowsAreHeld | src/store/sqlite-store.ts:57-138 | in every run a running row belongs to a pipeline that has neither recorded nor released |
| StoreHistory.NoStrandedClaim | src/apps/worker/pipeline.ts:102-106 | in every run no running row carries the token of a pipeline that recorded, released or never claimed |
| StoreHistory.RowsComeFromWrites | src/store/sqlite-store.ts:57-138 | every row is as its last writer left it: a claim by its owner and start, or some terminal record |
| StoreHistory.RowsKeepTheirOrigin | src/store/sqlite-store.ts:57-138 | in every run a row shows the token and start of the claim it came from, or the record's own if it met no row, and once finalized the status, base, error and end of its last record |
| StoreHistory.ReleaseRemovesOwnClaimOnly | src/store/sqlite-store.ts:89-100 | a release that deletes a row deletes the caller's own, last-written claim and nothing else |
| StoreHistory.StaysClaimed | src/store/sqlite-store.ts:57-87 | until a record or effective release, a claimed head stays claimed from then or later |
| StoreHistory.ClaimsApart | src/store/sqlite-store.ts:57-87 | two unforced claims of a head with no record or effective release between are more than the stale window apart |
| Workspace.RangeHoldsStartToHead | src/apps/worker/workspace.ts:60-66 | the diffed range contains everything the head adds to the chosen start point |
| Workspace.FullRangeStartsAtMergeBase | src/apps/worker/workspace.ts:60-66 | a full diff starts at a merge base of base and head, a commit the head has |
| Workspace.FullRangeIsExact | src/apps/worker/workspace.ts:60-66 | without criss-cross merges a full diff holds exactly what the head adds to the base, so nothing the base gained since |
| Workspace.UnusableBaselineStartsAtMergeBase | src/apps/worker/workspace.ts:27-42 | a baseline that is gone or no ancestor of the head gives a full diff from a merge base of base and head |
| Workspace.ForcePushFallsBack | src/apps/worker/workspace.ts:22-42 | after a force-push away from the baseline the diff is full and contains all the head adds to the base |
| Workspace.IncrementalStartsAtBaseline | src/apps/worker/workspace.ts:27-66 | an incremental diff starts exactly at its baseline |
| ReviewCoverage.CoverageHolds | src/apps/worker/pipeline.ts:110-117 | in every run, with any pushes, bases and git failures, each commit of a head recorded as covered is in a range some covering record handled or in the history of a base one was given |
| ReviewCoverage.RangesStartInTheHead | src/apps/worker/pipeline.ts:115-117 | in every run a recorded range ends at its head and starts in that head's history, at a merge base with the recorded base or at the baseline |
| ReviewCoverage.CoveredHeadIsFullyHandled | src/store/sqlite-store.ts:140-163 | whenever a head shows as covered and the base stayed or only advanced, every commit it adds to the base was in a range handled by a covering run |
| ReviewCoverage.FailedHeadNeverAnchors | src/store/sqlite-store.ts:144-163 | the head a pipeline takes as baseline was last written by a covering record, never by a claim or a failure |
| ReviewCoverage.BaseMoveSafeExactly | src/apps/worker/pipeline.ts:115-117 | over all runs, incremental ones included: every run whose covering records were given bases of a set handles all that a covered head adds to another base if and only if that base has every commit the head shares with one of the set |
| ReviewCoverage.RetargetingLeavesAHole | src/apps/worker/pipeline.ts:110-117 | a concrete run, with a git that answers the merge base truly, in which a retargeted pull request shows as covered with a commit nobody handled |
| CrashRecovery.RetryWaitsOutTheTimeout | src/store/sqlite-queue.ts:145-176 | a job whose holder died is not leased again before the dead lease's timeout |
| CrashRecovery.DeadClaimNeverBlocksTheRetry | src/apps/worker/pipeline.ts:95-99 | a dead worker's claim taken less than timeout minus stale window after its lease is reclaimable at every later lease of the job |
| CrashRecovery.ClaimKeepsItsStart | src/store/sqlite-store.ts:57-116 | while a row carries a claim's token it shows that claim's start time |
| CrashRecovery.MarginIsExact | src/apps/worker/pipeline.ts:95-99 | over all runs in which a worker dies after leasing and claiming: every retry can reclaim if and only if the claim was taken less than timeout minus stale window after the lease |
| CrashRecovery.DefaultsLeaveTwentyMinutes | src/apps/worker/loop.ts:112 | with the default timeout and stale window the margin is twenty minutes |
| Pipeline.RecordDiff | src/apps/worker/pipeline.ts:126-196 | the terminal row is written for the pipeline's own head, base and diff exactly unless the write throws; a throwing write changes nothing |
| Pipeline.ReviewDiff | src/apps/worker/pipeline.ts:119-205 | it returns exactly unless one of its calls throws; gate, review, publish and record agree on one diff in status, note, comment and outcome |
| Pipeline.ChooseBaseline | src/apps/worker/pipeline.ts:108-115 | the last covered head of the pull request, read at one state, exactly when the review is to be incremental |
| Pipeline.ReviewCheckout | src/apps/worker/pipeline.ts:119-208 | cleanup follows every way out; what was recorded stays recorded even when cleanup throws |
| Pipeline.ReviewClaimed | src/apps/worker/pipeline.ts:107-208 | outcome, comment and record as decided by the calls and the baseline; every way out has recorded its head, or throws with the claim its own to release |
| Pipeline.ReleaseAndRethrow | src/apps/worker/pipeline.ts:209-212 | the catch clause releases the claim exactly unless this is a dry run or the release itself throws, and rethrows |
| Pipeline.ReviewOrRelease | src/apps/worker/pipeline.ts:107-212 | from a claim on, the run ends as its calls and baseline decide, whatever other pipelines do |
| Pipeline.TakeClaim | src/apps/worker/pipeline.ts:95-99 | the claim is taken under the token the run brought, or was refused at the state it met |
| Pipeline.ClaimAndReview | src/apps/worker/pipeline.ts:92-212 | it answers duplicate exactly when a live claim or covered row refused its claim; otherwise the run ends as its calls and baseline decide |
| Pipeline.FollowedLeavesNoClaim | src/apps/worker/pipeline.ts:102-106 | in every run no running row keeps a finished pipeline token, unless it was not a dry run and the release threw |
| Pipeline.ReviewPipeline | src/apps/worker/pipeline.ts:67-213 | for every interleaving and every call that may throw: what is returned or thrown, posted and recorded is exactly what the calls, the claim and the baseline decide; every event of the run is as asked: the claim is of the current head, the baseline is the last covered head exactly when the repository is reviewed incrementally and no full review was asked for, and the record accounts for the range from there, else from the base; no running row keeps the token unless the release threw; dry runs and ineligible requests leave no trace |
| Reconciler.HeadsExactly | src/apps/reconciler/reconcile.ts:49-60 | the scanned heads are exactly the open, not ignored-draft ones of listable repositories |
| Reconciler.UnseenExactly | src/apps/reconciler/reconcile.ts:64-65 | a head is in the uncovered list exactly when some check of it said no |
| Reconciler.CheckHead | src/apps/reconciler/reconcile.ts:64 | the check answers for the store as it found it, whatever others did before |
| Reconciler.ScanRepo | src/apps/reconciler/reconcile.ts:58-66 | one repository: each qualifying pull request is checked once, in order |
| Reconciler.Scan | src/apps/reconciler/reconcile.ts:46-67 | the nested loops check every head of the listings once, in order, each at its own state of the store and clock reading, and list the uncovered ones |
| Reconciler.EnqueueAll | src/apps/reconciler/reconcile.ts:73-79 | whatever others do to the queue every key ends with a row; undisturbed, a row is added for each key that had none, once each, no other row changes, and they are counted |
| Reconciler.ScanAndEnqueue | src/apps/reconciler/reconcile.ts:46-79 | up to the drain, whatever others do to store and queue: every qualifying head was found covered when checked or has a job row; a dry run enqueues nothing |
| Reconciler.CompleteForGood | src/apps/reconciler/reconcile.ts:45-87 | that stays so under every later history of the queue |
| Reconciler.Reconcile | src/apps/reconciler/reconcile.ts:45-87 | after a sweep that is not dry, with or without processing and whatever others did to store and queue meanwhile, every qualifying head was found covered when checked or has a job row; a processing sweep terminates and ends where no job is leasable; undisturbed it adds exactly the missing rows |
| Sweeps.UncoveredExactly | src/apps/reconciler/reconcile.ts:46-67 | at one state of the store the uncovered list holds exactly the qualifying heads the store does not cover |
| Sweeps.DrainSpares | src/apps/worker/loop.ts:105-126 | a drain none of whose jobs can claim a head leaves the row of that head alone, whatever its reviews do |
| Sweeps.FilledCanClaimExactly | src/apps/reconciler/reconcile.ts:73-84 | a job the first sweep drains can claim a head exactly when the tables and listings before the sweep say so |
| Sweeps.SweepTwice | src/apps/reconciler/reconcile.ts:45-87 | at one clock and listing a second sweep without processing enqueues nothing, unless the first processed jobs and some covered head without a job row could be claimed by a job due or added |
| Sweeps.SweepTwiceAtRisk | src/apps/reconciler/reconcile.ts:81-84 | for every such head there are reviews, failing at the checkout, after which the second sweep finds it uncovered and enqueues a job |
| Sweeps.RereviewUncovers | src/apps/reconciler/reconcile.ts:81-84 | a concrete pair of sweeps: a full re-review of an earlier head takes a reviewed head away, and the second sweep enqueues it |
| Ingress.Process.constructor | src/apps/ingress/main.ts:24-35 | the process starts idle with its catch-up sweep under way |
| Ingress.Process.Kick | src/apps/ingress/main.ts:57-75 | a kick during a pass leaves a mark and starts nothing; otherwise one pass starts at once |
| Ingress.Process.HandlerKicks | src/apps/ingress/main.ts:97-109 | a handler that stored a job kicks |
| Ingress.Process.TimerFires | src/apps/ingress/main.ts:49-52 | a due timer clears itself and kicks |
| Ingress.Process.PassReturns | src/apps/ingress/main.ts:62-74 | a returning pass starts another if kicked meanwhile, else asks for the next wake-up |
| Ingress.Process.PassThrows | src/apps/ingress/main.ts:67-73 | a throwing pass ends the loop whatever is pending, and still re-arms |
| Ingress.Process.CatchUpEnqueues | src/apps/reconciler/reconcile.ts:73-79 | the catch-up sweep stores jobs without kicking, and its drain is still to come |
| Ingress.Process.CatchUpReturns | src/apps/ingress/main.ts:123-127 | the catch-up sweep arms the wake-up when it returns |
| Ingress.Process.WakeResumes | src/apps/ingress/main.ts:43-54 | the timer is replaced by one for the answer, capped and never in the past |
| Ingress.Process.KicksAreServed | src/apps/ingress/main.ts:57-75 | with no pass running, every kick was followed by the start of a pass unless the last pass threw; passes never overlap |
| Ingress.Process.QuiescentJobsAreAwaited | src/apps/ingress/main.ts:31-55 | at quiescence every live job becomes visible after the last empty lease, and the timer fires in time for it exactly unless it fell due between that lease and the wake-up query |
| Ingress.JobInTheGap | src/store/sqlite-queue.ts:242-252 | a concrete run that ends quiescent with a due job and no timer |
| Glob.GlobToRegExp | src/context/routing.ts:8-31 | the loop emits the text of the glob's tokens, anchored |
| Glob.EmittedParses | src/context/routing.ts:8-31 | the emitted text is a well-formed pattern, every metacharacter escaped, parsing to one term per token |
| Glob.TermsMatchLanguage | src/context/routing.ts:3-31 | those terms match a span exactly when the tokens denote it |
| Glob.CompiledGlobIsExact | src/context/routing.ts:3-31 | a compiled glob accepts exactly the declarative glob language |
| Glob.DirsThen | src/context/routing.ts:13-18 | `**/` before a glob skips any number of directories, or none |
| Glob.DoubleStarThen | src/context/routing.ts:13-20 | `**` before a glob that starts with no slash stands for any run on one line |
| Glob.StarThen | src/context/routing.ts:21-23 | `*` before a glob that starts with no star stands for any run without a slash |
| Glob.LiteralThen | src/context/routing.ts:24-28 | any other character, metacharacters included, stands for itself |
| Glob.EmptyGlob | src/context/routing.ts:8-31 | the empty glob accepts the empty path only |
| Glob.StarFreeGlobMatchesOnlyItself | src/context/routing.ts:24-28 | a glob without star matches itself and nothing else |
| Routing.ActiveProfiles | src/context/routing.ts:43-49 | exactly the mandatory profiles and those of firing routes, each once |
| Routing.ResolveContext | src/context/routing.ts:39-80 | the slice is exactly the active profiles, their tests and docs, touched subsystems and applicable invariants; with a consistent pack no active profile is skipped |
| Routing.SelectsByPath | src/context/routing.ts:39-80 | selection by paths and globs: a subsystem is touched by its own path or one below it, globs fire on any match, a profile is active if mandatory or of a firing route |
| Routing.ResolutionIsAdditive | src/context/routing.ts:34-38 | what concatenated change lists select is the union of what each selects |
| Routing.CheckReferences | src/context/pack.ts:73-86 | reports an undefined profile exactly when some reference is unresolved |
| Routing.ReconcileRoutingProfiles | src/context/onboarding.ts:450-476 | computes the repair, whose result passes the check and mandates the security baseline; resolved names keep their order and number, routes their names and paths, profiles their definitions |
| Routing.RepairKeeps | src/context/onboarding.ts:450-476 | what the repair may change: unresolved names go, and the security baseline comes first if it was not mandated |
| Routing.RepairIsConsistent | src/context/onboarding.ts:446-476 | whatever is repaired passes the loader's check |
| Routing.RepairFixesExactly | src/context/onboarding.ts:446-476 | the repair leaves alone exactly what passes the check and mandates the baseline |
| Routing.RepairIsIdempotent | src/context/onboarding.ts:446-476 | repairing twice is repairing once |
| DiffBudget.HeaderIsShortestReading | src/apps/worker/diff-budget.ts:33-34 | the header expression's greedy groups pick, among all readings, the shortest new path |
| DiffBudget.SplitPatchByFile | src/apps/worker/diff-budget.ts:40-62 | each section is one header and no further one, or a leading preamble; joined they are the patch |
| DiffBudget.NothingMoreFits | src/apps/worker/diff-budget.ts:64-92 | no dropped section could still be added |
| DiffBudget.CapPatch | src/apps/worker/diff-budget.ts:71-95 | at most the budget, whole sections in order chosen greedily; kept and dropped partition them; truncated exactly when the patch exceeds the budget |
| DiffBudget.CharsAreKeptOrDropped | src/apps/worker/diff-budget.ts:71-95 | no character is lost: those of the patch are those kept and those counted as omitted |
| SubsystemGuides.RoundTrip | src/context/pack.ts:19-125 | printed and parsed, a well-formed guide keeps its summary; its path exactly when its name claims no other; its risk exactly when name and path claim no other |
| SubsystemGuides.FirstPathIsFound | src/context/pack.ts:20 | the path is the first one the expression matches anywhere, or none exactly when it matches nowhere |
| SubsystemGuides.FirstRiskIsFound | src/context/pack.ts:21 | the risk is the first level the expression matches anywhere, or none |
| SubsystemGuides.SummaryIsFirstProse | src/context/pack.ts:22-26 | the summary is the first line of prose, trimmed, or nothing |
| SubsystemGuides.UnmarkedDefaults | src/context/pack.ts:27-33 | a text with neither mark is a guide at the path of its name, of medium risk |
| SubsystemGuides.MarkdownKeepsBody | src/context/pack.ts:121-125 | the body is written whole, at the end, its last line ended; a complete guide is its body and no more |
| SubsystemGuides.CompleteExactly | src/context/pack.ts:122 | a body is a complete guide exactly when it begins with the title, blanks aside |
| SubsystemGuides.RoundTripWithoutMarks | src/context/pack.ts:19-125 | names and paths free of the two marks make no claim, so all three fields survive |
| SubsystemGuides.PathLostToName | src/context/pack.ts:19 | a name that spells out a path overrides any other |
| SubsystemGuides.RiskLostToPath | src/context/pack.ts:20-21 | a path that spells out a low risk overrides any other |
| SubsystemGuides.SlugFixes | src/context/pack.ts:111-114 | a name is its own slug exactly when made of slug characters with no dash at an end |
| SubsystemGuides.RunBecomesOneDash | src/context/pack.ts:112-114 | a run of other characters becomes one dash, however long it is |
| SubsystemGuides.NamelessSlug | src/context/pack.ts:112-114 | a name with nothing to keep but dashes is filed as `subsystem` |
| SubsystemGuides.SlugIdempotent | src/context/pack.ts:111-114 | slugging twice is slugging once |
| SubsystemGuides.MarkdownIsComplete | src/context/pack.ts:116-125 | what is printed always is a complete guide with its last line ended |
| SubsystemGuides.SecondTripIsIdentity | src/context/pack.ts:116-154 | for every guide, after one write and load a second changes nothing |
| SubsystemGuides.SecondPackTripIsIdentity | src/context/pack.ts:109-154 | for every pack, names with colliding slugs included: what one write and load brings back, written in any order, makes the same files |
| SubsystemGuides.LaterStays | src/context/pack.ts:139-153 | of two guides with one slug the later written stays |
| FsScan.FilesExactly | src/context/fs-scan.ts:30-54 | the recursive list holds exactly the files reachable through unskipped directories |
| FsScan.RenderSlashes | src/context/fs-scan.ts:41-48 | a listed path spells its names with a slash between any two |
| FsScan.PosixExactly | src/context/fs-scan.ts:48 | backslashes become slashes and nothing else changes |
| FsScan.ScanDir | src/context/fs-scan.ts:40-51 | one directory moves its files to the output and its directories to the stack, losing none before the cap |
| FsScan.WalkFiles | src/context/fs-scan.ts:35-54 | terminates; sorted, at most the cap, nothing outside the recursive list, and exactly that list when fewer than the cap |
| FsScan.ListedAvoidsSkipped | src/context/fs-scan.ts:43-46 | no listed file lies below an ignored or hidden directory, `.github` excepted |
| PathOrder.SortedUnique | src/context/fs-scan.ts:53 | a sorted list is determined by its elements, so the walk's order does not show |
| PathOrder.LeqIsLexicographic | src/context/fs-scan.ts:53 | the order is by the first character that differs, a prefix before what extends it |
| Publisher.MarkerExpands | src/core/keys.ts:11-17 | for a repository without `{`: the three replacements replace each placeholder once and nothing else if and only if neither id holds a replacement pattern |
| Publisher.DollarsCollide | src/core/keys.ts:11-17 | for every template and every text without `$`, that text followed by one dollar or by two are heads with one marker |
| Publisher.FinalBodyCarries | src/github/publish.ts:18-20 | what is posted begins with the body and carries the marker, and is the body itself if that carries it |
| Publisher.DecimalReadsBack | src/core/keys.ts:15 | the number in a marker is printed in decimal, so two pull requests never share it |
| Publisher.Conversation.constructor | src/github/publish.ts:13-16 | a conversation starts empty, with the given or the default marker template |
| Publisher.MarkerNamesItsHead | src/github/publish.ts:18-23 | one head's marker occurs in another's finished comment only if the heads are equal |
| Publisher.Conversation.UpsertReviewComment | src/github/publish.ts:18-31 | edits the first listed comment carrying the marker, or appends one; every other comment stays |
| Publisher.UpsertKeepsOneExactly | src/github/publish.ts:18-31 | an upsert keeps one comment per head exactly when the head's comment, if any, is on the listed page |
| Publisher.OneCommentPerHead | src/github/publish.ts:7-11 | over any run of upserts, retries and other people's comments, of any length: each head has at most one comment all along if and only if every upsert finds the comment of its head on the listed page |
| Publisher.OneCommentPerEarlyHead | src/github/publish.ts:18-31 | that is so if and only if every head upserted again was first upserted into fewer comments than a page lists |
| Publisher.LateHeadIsDoubled | src/github/publish.ts:18-31 | a concrete run: a hundred remarks, then two upserts of one head, leave it two comments |
| RunnerSelection.RunnerConfigProblem | src/config/runner-profiles.ts:81-107 | reports nothing exactly when every client the block names is registered, and otherwise a true problem |
| RunnerSelection.CheckedSelectionNeverFails | src/apps/worker/policy.ts:72-96 | after the check passes, selection succeeds with a registered runner for every signal triple |
| RunnerSelection.SelectExactly | src/apps/worker/policy.ts:61-96 | the first override all of whose conditions hold decides with its own runner, model and effort; without one the named profile, or the inline block |
| RunnerSelection.ChangeTypeExactly | src/apps/worker/policy.ts:53-59 | one migration path makes a migration; otherwise Markdown only is documentation, and one lock file dependencies |
| RunnerSelection.SizeExactly | src/github/git.ts:16-22 | the five size classes and their limits |
| RunnerSelection.RiskExactly | src/apps/worker/policy.ts:23-29 | one grave invariant makes a high risk, any other a medium one, none a low one |
| RunnerSelection.SignalsExactly | src/apps/worker/policy.ts:21-59 | the signals of some change are exactly the triples whose change type is one of the four ever inferred |
| RunnerSelection.SelectionNeedsReachableChoices | src/apps/worker/policy.ts:61-96 | no change makes selection fail if and only if every choice that signals of some change reach is registered |
| RunnerSelection.UnreachableOverrideIsReported | src/config/runner-profiles.ts:99-105 | the check is stricter: it reports an unknown runner in an override no change reaches |

## Left out

- SQLite, git, Octokit, HTTP, child processes and model runners: tables, a commit graph with truthful but failing answers, a comment list, and results that may throw.
- The text patterns of failure classification and of limit errors are abstract predicates; the extraction of status, code and stderr from thrown values is not modelled.
- Timestamps are integer milliseconds, generated ids fresh numbers ordered like their text; that fixed-width text sorts in time order is not proved.
- Strings are sequences of characters without UTF-16 surrogate pairs; names inherited from `Object.prototype` (a profile called `constructor`) are not modelled.
- Audit columns of a run (runner, model, tokens, cost, duration, comment id) and the delivery table.
- SqliteStore.Store.RecordRun: a record has a base and an end, as every record of the pipeline does; the statement would take one without.
- WorkerLoop.DrainQueue: others act and the clock moves at finitely many awaits of one drain, and delays are positive; jobs arriving without end may keep a drain going, as in the original.
- WorkerLoop.ProcessLeased: a database failure while settling, and the outer catch that would settle again, are not modelled.
- Sweeps.SweepTwice: nobody else uses the two tables during the pair of sweeps, and the clock stands still; the listing stays the same.
- ReviewCoverage.CoveredHeadIsFullyHandled: needs the base to stay or advance; ReviewCoverage.BaseMoveSafeExactly has the exact condition.
- Ingress.Process.WakeResumes: wake-up queries that have been answered resume in the order they were asked.
- Ingress.Process.QuiescentJobsAreAwaited: the process's own handlers, catch-up sweep and passes are the only callers of its queue; a separate sweep or command line that adds jobs is not a step of this model.
- Ingress.Process.KicksAreServed: a pass that throws leaves its pending mark for the next kick; what the throw itself was is not modelled.
- Publisher.OneCommentPerHead: sequential upserts only, with bodies and remarks that quote no other head's marker; the listing call returns the first hundred comments (src/github/app.ts:74-84); two publishers that list and then create at once may both create, which the original does not prevent.
- Publisher.MarkerExpands: the default template, and a repository without `{`.
- Publisher.MarkerNamesItsHead: ids free of whitespace, `<`, braces and replacement patterns.
- Glob.CompiledGlobIsExact: the pattern grammar is the part of ECMA-262 the compiler can emit; lazy quantifiers, classes other than `[^/]` and flags are not in it, and matching is by the set of matched spans, not by backtracking order.
- DiffBudget.SplitPatchByFile: quoted header paths are lines like any other, as in the original.
- Routing.ResolveContext: fields copied through unchanged (version, guide excerpt, templates, risk map) are dropped.
- Eventual review of every head and exclusive review beyond the stale window: the original promises neither, since an unforced enqueue is absorbed by any existing row, also a finished or dead one.
- Webhook verification and field extraction, dashboard, command line, logging, redaction, onboarding inventory, discovery and assessment, invariant generation, prompts and JSON parsing, workspace context collection: plumbing or heuristics.
- The wrappers that run the runner check over many repositories, and the resolver of profile names in error texts: they would only add easy members.
