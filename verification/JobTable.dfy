/**
  The `jobs` table and the statements the queue runs on it, as functions on table values.
  Generated ids are opaque numbers, ordered the way their text is ordered.
 */
module JobTable {
  import opened Basics

  type JobId = nat
  type LeaseId = nat
  type Table = map<JobId, JobRow>

  datatype Source = Webhook | Reconciler | Manual

  datatype Status = Queued | Running | Done | DeadLetter

  datatype JobRow = JobRow(
    key: Key,
    base: Option<string>,
    source: Source,
    full: bool,
    createdAt: Time,
    status: Status,
    attempts: int,
    transientAttempts: nat,
    leaseId: Option<LeaseId>,
    lockedAt: Option<Time>,
    visibleAt: Time
  )

  /** What a producer hands to `enqueue`. */
  datatype NewJob = NewJob(key: Key, base: Option<string>, source: Source, full: bool, createdAt: Time)

  datatype EnqueueResult = Enqueued | Duplicate | Requeued

  /** First delay and ceiling of the transient retry schedule. */
  datatype Backoff = Backoff(first: nat, ceiling: nat)

  /** The three ways a lease-holder settles its job. */
  datatype Settlement =
    | Ack
    | Nack(cap: int, retryIn: int)
    | NackTransient(policy: Backoff)

  predicate HasKey(t: Table, key: Key) {
    exists id | id in t :: t[id].key == key
  }

  function FreshRow(job: NewJob, now: Time): JobRow {
    JobRow(job.key, job.base, job.source, job.full, job.createdAt, Queued, 0, 0, None, None, now)
  }

  function RequeuedRow(r: JobRow, job: NewJob, now: Time): JobRow {
    r.(status := Queued, attempts := 0, transientAttempts := 0, leaseId := None, lockedAt := None,
       visibleAt := now, source := job.source, full := job.full)
  }

  /** Insert unless the key is taken; a forced call resets the row holding the key. */
  function Enqueue(t: Table, id: JobId, job: NewJob, force: bool, now: Time): (result: (Table, EnqueueResult)) {
    if !HasKey(t, job.key) then
      (t[id := FreshRow(job, now)], Enqueued)
    else if !force then
      (t, Duplicate)
    else
      (map i | i in t :: if t[i].key == job.key then RequeuedRow(t[i], job, now) else t[i], Requeued)
  }

  predicate Live(r: JobRow) {
    r.status.Queued? || r.status.Running?
  }

  predicate Leasable(r: JobRow, now: Time) {
    Live(r) && r.visibleAt <= now
  }

  function LeasableIds(t: Table, now: Time): set<JobId> {
    set id | id in t && Leasable(t[id], now)
  }

  /** Lease order: oldest first, ties broken by id. */
  predicate Before(t: Table, a: JobId, b: JobId)
    requires a in t && b in t
  {
    t[a].createdAt < t[b].createdAt || (t[a].createdAt == t[b].createdAt && a < b)
  }

  predicate IsNext(t: Table, now: Time, id: JobId) {
    && id in t
    && Leasable(t[id], now)
    && forall other | other in t && other != id && Leasable(t[other], now) :: Before(t, id, other)
  }

  function LeasedRow(r: JobRow, lease: LeaseId, now: Time, until: Time): JobRow {
    r.(status := Running, leaseId := Some(lease), lockedAt := Some(now), visibleAt := until,
       attempts := r.attempts + 1)
  }

  /** Delay before the nth transient retry. */
  function TransientBackoff(policy: Backoff, n: int): int {
    Min(policy.first * Pow2(Max(0, n - 1)), policy.ceiling)
  }

  function SettledRow(r: JobRow, s: Settlement, now: Time): JobRow {
    var released := r.(leaseId := None, lockedAt := None);
    match s
    case Ack => released.(status := Done)
    case Nack(cap, retryIn) =>
      if r.attempts >= cap then released.(status := DeadLetter)
      else released.(status := Queued, visibleAt := now + retryIn)
    case NackTransient(policy) =>
      var n := r.transientAttempts + 1;
      released.(status := Queued, visibleAt := now + TransientBackoff(policy, n),
                attempts := Max(0, r.attempts - 1), transientAttempts := n)
  }

  predicate Holds(t: Table, id: JobId, lease: LeaseId) {
    id in t && t[id].leaseId == Some(lease)
  }

  /** Settling touches the row that still carries the lease; a superseded lease touches nothing. */
  function Settle(t: Table, lease: LeaseId, s: Settlement, now: Time): Table {
    map id | id in t :: if Holds(t, id, lease) then SettledRow(t[id], s, now) else t[id]
  }

  /** Earliest future instant at which a job becomes leasable. */
  predicate IsNextVisible(t: Table, now: Time, next: Option<Time>) {
    match next
    case None => forall id | id in t && Live(t[id]) :: t[id].visibleAt <= now
    case Some(v) =>
      && v > now
      && (exists id | id in t :: Live(t[id]) && t[id].visibleAt == v)
      && (forall id | id in t && Live(t[id]) && t[id].visibleAt > now :: v <= t[id].visibleAt)
  }

  /** A leasable job exists exactly when there is a first one in lease order. */
  lemma {:induction false} NextExists(t: Table, now: Time, ids: set<JobId>) returns (first: JobId)
    requires ids != {} && ids <= LeasableIds(t, now)
    ensures first in ids && forall other | other in ids && other != first :: Before(t, first, other)
  {
    var id :| id in ids;
    if ids == {id} {
      first := id;
    } else {
      var rest := NextExists(t, now, ids - {id});
      first := if Before(t, id, rest) then id else rest;
      forall other | other in ids && other != first
        ensures Before(t, first, other)
      {
        if other != id {
          assert other in ids - {id};
        }
      }
    }
  }

  lemma {:induction false} NextVisibleExists(t: Table, now: Time, ids: set<JobId>) returns (least: JobId)
    requires ids != {} && forall id | id in ids :: id in t
    ensures least in ids && forall id | id in ids :: t[least].visibleAt <= t[id].visibleAt
  {
    var id :| id in ids;
    if ids == {id} {
      least := id;
    } else {
      var rest := NextVisibleExists(t, now, ids - {id});
      least := if t[id].visibleAt <= t[rest].visibleAt then id else rest;
      forall other | other in ids
        ensures t[least].visibleAt <= t[other].visibleAt
      {
        if other != id {
          assert other in ids - {id};
        }
      }
    }
  }
}
