/** The durable job queue: one table, changed only by the calls its log records. */
module SqliteQueue {
  import opened Basics
  import opened JobTable
  import opened QueueHistory

  datatype LeasedJob = LeasedJob(id: JobId, key: Key, full: bool, attempts: int, leaseId: LeaseId)

  const DEFAULT_MAX_ATTEMPTS := 5
  const DEFAULT_TRANSIENT_BASE_MS := 60_000
  const DEFAULT_TRANSIENT_CAP_MS := 1_800_000

  // ---- rows, field by field --------------------------------------------------------------------------

  predicate IsNew(r: JobRow, job: NewJob, now: Time) {
    && r.key == job.key && r.base == job.base && r.source == job.source && r.full == job.full
    && r.createdAt == job.createdAt && r.status.Queued? && r.attempts == r.transientAttempts == 0
    && r.leaseId.None? && r.lockedAt.None? && r.visibleAt == now
  }

  /** A forced enqueue starts the row over under the new job's source and scope; its age and its base stay. */
  predicate IsReset(r: JobRow, r': JobRow, job: NewJob, now: Time) {
    && r'.key == r.key && r'.base == r.base && r'.source == job.source && r'.full == job.full
    && r'.createdAt == r.createdAt && r'.status.Queued? && r'.attempts == r'.transientAttempts == 0
    && r'.leaseId.None? && r'.lockedAt.None? && r'.visibleAt == now
  }

  predicate IsDue(r: JobRow, now: Time) {
    (r.status.Queued? || r.status.Running?) && r.visibleAt <= now
  }

  /** The oldest job that is due, the one with the smaller id among those of one age. */
  predicate IsFirstDue(t: Table, now: Time, id: JobId) {
    && id in t && IsDue(t[id], now)
    && forall other | other in t && other != id && IsDue(t[other], now) ::
         t[id].createdAt < t[other].createdAt || (t[id].createdAt == t[other].createdAt && id < other)
  }

  predicate IsLeased(r: JobRow, r': JobRow, lease: LeaseId, now: Time, until: Time) {
    r' == r.(status := Running, leaseId := Some(lease), lockedAt := Some(now), visibleAt := until,
             attempts := r.attempts + 1)
  }

  /** Whoever holds a lease has an attempt to give back. */
  lemma HeldHasAttempts(log: Log, lease: LeaseId)
    requires QueueHistory.Valid(log)
    ensures forall id | id in Replay(log) && Replay(log)[id].leaseId == Some(lease) :: Replay(log)[id].attempts >= 1
  {
    forall id | id in Replay(log) && Replay(log)[id].leaseId == Some(lease)
      ensures Replay(log)[id].attempts >= 1
    {
      ClampNeverFires(log, id);
    }
  }

  class Queue {
    var jobs: Table
    var nextId: nat // supply of generated ids
    const maxAttempts: int
    const backoff: Backoff
    ghost var log: Log
    ghost var others: nat // awaits at which others may still act on the queue or the clock may move

    ghost predicate Valid()
      reads this
    {
      && QueueHistory.Valid(log)
      && jobs == Replay(log)
      && (forall id | id in jobs :: id < nextId)
      && (forall lease | lease in LeaseIds(log) :: lease < nextId)
    }

    /** The clock has not run backwards since the last call. */
    ghost predicate NotBefore(now: Time)
      reads this
    {
      log != [] ==> Ends(log[|log| - 1]) <= now
    }

    constructor (ghost others: nat, maxAttempts: Option<int>, transientBaseMs: Option<nat>, transientCapMs: Option<nat>)
      ensures Valid() && log == [] && jobs == map[] && this.others == others
      ensures this.maxAttempts == if maxAttempts.Some? then maxAttempts.value else DEFAULT_MAX_ATTEMPTS
      ensures backoff.first == if transientBaseMs.Some? then transientBaseMs.value else DEFAULT_TRANSIENT_BASE_MS
      ensures backoff.ceiling == if transientCapMs.Some? then transientCapMs.value else DEFAULT_TRANSIENT_CAP_MS
    {
      this.others := others;
      this.maxAttempts := if maxAttempts.Some? then maxAttempts.value else DEFAULT_MAX_ATTEMPTS;
      backoff := Backoff(
        if transientBaseMs.Some? then transientBaseMs.value else DEFAULT_TRANSIENT_BASE_MS,
        if transientCapMs.Some? then transientCapMs.value else DEFAULT_TRANSIENT_CAP_MS);
      jobs, nextId, log := map[], 0, [];
    }

    /** Everything others may do to the queue during an await, and the clock reading after it. */
    method Yield(now: Time) returns (later: Time)
      requires Valid() && NotBefore(now)
      modifies this`jobs, this`nextId, this`log, this`others
      ensures Valid() && NotBefore(later) && now <= later && old(log) <= log && old(nextId) <= nextId
      ensures if old(others) > 0 then others < old(others)
              else others == 0 && later == now && log == old(log) && jobs == old(jobs)
    {
      later := now;
      if others > 0 {
        others := others - 1;
      }
    }

    /** Another clock reading within one call. */
    method ReadClock(now: Time) returns (later: Time)
      modifies this`others
      ensures now <= later && others <= old(others) && (old(others) == 0 ==> later == now)
    {
      later := now;
    }

    method FreshId() returns (id: nat)
      requires Valid()
      modifies this`nextId
      ensures Valid() && id !in jobs && id !in LeaseIds(log) && id < nextId && old(nextId) <= nextId
    {
      id := nextId;
      nextId := nextId + 1;
    }

    /** Appends `e` to the log, whose effect on the table is already in place. */
    ghost method Record(e: Event)
      requires QueueHistory.Valid(log) && Enabled(log, e) && jobs == Apply(Replay(log), e)
      requires forall id | id in jobs :: id < nextId
      requires forall lease | lease in LeaseIds(log) + IssuedBy(e) :: lease < nextId
      modifies this`log
      ensures Valid() && log == old(log) + [e]
    {
      Appended(log, e);
      log := log + [e];
    }

    method Enqueue(id: JobId, job: NewJob, force: bool, now: Time) returns (r: EnqueueResult)
      requires Valid() && NotBefore(now) && id !in jobs && id < nextId
      modifies this`jobs, this`log
      ensures Valid() && log == old(log) + [EnqueueCall(id, job, force, now)]
      ensures (jobs, r) == JobTable.Enqueue(old(jobs), id, job, force, now)
      ensures var taken := exists i | i in old(jobs) :: old(jobs)[i].key == job.key;
              && r == (if !taken then Enqueued else if force then Requeued else Duplicate)
              && jobs.Keys == old(jobs).Keys + (if taken then {} else {id})
              && (!taken ==> IsNew(jobs[id], job, now))
              && forall i | i in old(jobs) ::
                   if force && old(jobs)[i].key == job.key then IsReset(old(jobs)[i], jobs[i], job, now)
                   else jobs[i] == old(jobs)[i]
    {
      if !HasKey(jobs, job.key) {
        jobs := jobs[id := FreshRow(job, now)];
        r := Enqueued;
      } else if !force {
        r := Duplicate;
      } else {
        jobs := map i | i in jobs :: if jobs[i].key == job.key then RequeuedRow(jobs[i], job, now) else jobs[i];
        r := Requeued;
      }
      Record(EnqueueCall(id, job, force, now));
    }

    /** The row the lease statement selects. */
    method SelectNext(now: Time) returns (id: Option<JobId>)
      ensures id.None? <==> LeasableIds(jobs, now) == {}
      ensures id.None? <==> forall i | i in jobs :: !IsDue(jobs[i], now)
      ensures id.Some? ==> IsNext(jobs, now, id.value) && IsFirstDue(jobs, now, id.value)
    {
      var ready := LeasableIds(jobs, now);
      assert forall i | i in jobs :: IsDue(jobs[i], now) <==> i in ready;
      if ready == {} {
        return None;
      }
      ghost var first := NextExists(jobs, now, ready);
      assert IsNext(jobs, now, first);
      var next :| next in ready && IsNext(jobs, now, next);
      id := Some(next);
    }

    /** A fresh lease id is on no row. */
    lemma FreshOnNoRow(lease: LeaseId)
      requires Valid() && lease !in LeaseIds(log)
      ensures forall id | id in jobs :: jobs[id].leaseId != Some(lease)
    {
      TableSound(log);
    }

    method Lease(timeout: int, now: Time, later: Time) returns (leased: Option<LeasedJob>)
      requires Valid() && NotBefore(now) && now <= later
      modifies this`jobs, this`nextId, this`log
      ensures Valid()
      ensures leased.None? <==> LeasableIds(old(jobs), now) == {}
      ensures leased.None? <==> forall id | id in old(jobs) :: !IsDue(old(jobs)[id], now)
      ensures leased.None? ==> jobs == old(jobs) && log == old(log)
      ensures leased.Some? ==>
                var j := leased.value;
                && IsNext(old(jobs), now, j.id) && IsFirstDue(old(jobs), now, j.id)
                && log == old(log) + [LeaseCall(j.id, j.leaseId, timeout, now, later)]
                && jobs == old(jobs)[j.id := LeasedRow(old(jobs)[j.id], j.leaseId, now, later + timeout)]
                && (forall id | id in old(jobs) :: old(jobs)[id].leaseId != Some(j.leaseId))
                && jobs.Keys == old(jobs).Keys
                && (forall id | id in jobs && id != j.id :: jobs[id] == old(jobs)[id])
                && IsLeased(old(jobs)[j.id], jobs[j.id], j.leaseId, now, later + timeout)
                && j.key == jobs[j.id].key && j.full == jobs[j.id].full && j.attempts == jobs[j.id].attempts
    {
      var next := SelectNext(now);
      if next.None? {
        return None;
      }
      var id := next.value;
      var lease := FreshId();
      FreshOnNoRow(lease);
      jobs := jobs[id := LeasedRow(jobs[id], lease, now, later + timeout)];
      Record(LeaseCall(id, lease, timeout, now, later));
      leased := Some(LeasedJob(id, jobs[id].key, jobs[id].full, jobs[id].attempts, lease));
    }

    /** The three settle statements share this shape: update the row still carrying the lease. */
    method SettleWith(lease: LeaseId, s: Settlement, now: Time)
      requires Valid() && NotBefore(now)
      modifies this`jobs, this`log
      ensures Valid() && log == old(log) + [SettleCall(lease, s, now)]
      ensures jobs == Settle(old(jobs), lease, s, now)
    {
      jobs := map id | id in jobs :: if Holds(jobs, id, lease) then SettledRow(jobs[id], s, now) else jobs[id];
      Record(SettleCall(lease, s, now));
    }

    method Ack(lease: LeaseId, now: Time)
      requires Valid() && NotBefore(now)
      modifies this`jobs, this`log
      ensures Valid() && log == old(log) + [SettleCall(lease, JobTable.Ack, now)]
      ensures jobs == Settle(old(jobs), lease, JobTable.Ack, now)
      ensures jobs.Keys == old(jobs).Keys && forall id | id in jobs ::
                jobs[id] == if old(jobs)[id].leaseId == Some(lease)
                            then old(jobs)[id].(status := Done, leaseId := None, lockedAt := None)
                            else old(jobs)[id]
    {
      SettleWith(lease, JobTable.Ack, now);
    }

    method Nack(lease: LeaseId, retryIn: int, maxAttempts: Option<int>, now: Time)
      requires Valid() && NotBefore(now)
      modifies this`jobs, this`log
      ensures var cap := if maxAttempts.Some? then maxAttempts.value else this.maxAttempts;
              && Valid() && log == old(log) + [SettleCall(lease, JobTable.Nack(cap, retryIn), now)]
              && jobs == Settle(old(jobs), lease, JobTable.Nack(cap, retryIn), now)
      ensures var cap := if maxAttempts.Some? then maxAttempts.value else this.maxAttempts;
              jobs.Keys == old(jobs).Keys && forall id | id in jobs ::
                if old(jobs)[id].leaseId != Some(lease) then jobs[id] == old(jobs)[id]
                else if old(jobs)[id].attempts >= cap
                then jobs[id] == old(jobs)[id].(status := DeadLetter, leaseId := None, lockedAt := None)
                else jobs[id] == old(jobs)[id].(status := Queued, leaseId := None, lockedAt := None,
                                                visibleAt := now + retryIn)
    {
      var cap := if maxAttempts.Some? then maxAttempts.value else this.maxAttempts;
      SettleWith(lease, JobTable.Nack(cap, retryIn), now);
    }

    method NackTransient(lease: LeaseId, now: Time)
      requires Valid() && NotBefore(now)
      modifies this`jobs, this`log
      ensures Valid() && log == old(log) + [SettleCall(lease, JobTable.NackTransient(backoff), now)]
      ensures jobs == Settle(old(jobs), lease, JobTable.NackTransient(backoff), now)
      ensures jobs.Keys == old(jobs).Keys && forall id | id in jobs ::
                var r := old(jobs)[id];
                if r.leaseId != Some(lease) then jobs[id] == r
                else
                  jobs[id] == r.(status := Queued, leaseId := None, lockedAt := None,
                                 attempts := r.attempts - 1, transientAttempts := r.transientAttempts + 1,
                                 visibleAt := now + Min(backoff.first * Pow2(r.transientAttempts), backoff.ceiling))
    {
      HeldHasAttempts(log, lease);
      SettleWith(lease, JobTable.NackTransient(backoff), now);
    }

    method NextVisibleAt(now: Time) returns (next: Option<Time>)
      requires Valid()
      ensures IsNextVisible(jobs, now, next)
      ensures var hidden := set id | id in jobs && (jobs[id].status.Queued? || jobs[id].status.Running?)
                                     && jobs[id].visibleAt > now;
              && (next.None? <==> hidden == {})
              && (next.Some? ==>
                    && (exists id | id in hidden :: jobs[id].visibleAt == next.value)
                    && forall id | id in hidden :: next.value <= jobs[id].visibleAt)
    {
      var hidden := set id | id in jobs && Live(jobs[id]) && jobs[id].visibleAt > now;
      if hidden == {} {
        next := None;
        assert forall id | id in jobs && Live(jobs[id]) && jobs[id].visibleAt > now :: id in hidden;
      } else {
        ghost var least := NextVisibleExists(jobs, now, hidden);
        var id :| id in hidden && forall other | other in hidden :: jobs[id].visibleAt <= jobs[other].visibleAt;
        next := Some(jobs[id].visibleAt);
      }
    }
  }
}
