/**
  Runs of the job queue. A run is the log of every call any number of producers and workers
  made on the table, in the order the database serialised them. A worker that stalls or
  crashes contributes no further events; the passage of time is the events' timestamps.
 */
module QueueHistory {
  import opened Basics
  import opened JobTable

  datatype Event =
    | EnqueueCall(id: JobId, job: NewJob, force: bool, at: Time)
    // `at` selects the row, `later` is the second clock reading, which starts the visibility timeout
    | LeaseCall(id: JobId, lease: LeaseId, timeout: int, at: Time, later: Time)
    | SettleCall(lease: LeaseId, settlement: Settlement, at: Time)

  type Log = seq<Event>

  function Ends(e: Event): Time {
    if e.LeaseCall? then e.later else e.at
  }

  function Until(e: Event): Time
    requires e.LeaseCall?
  {
    e.later + e.timeout
  }

  function Apply(t: Table, e: Event): Table {
    match e
    case EnqueueCall(id, job, force, at) => Enqueue(t, id, job, force, at).0
    case LeaseCall(id, lease, _, at, _) =>
      if id in t then t[id := LeasedRow(t[id], lease, at, Until(e))] else t
    case SettleCall(lease, settlement, at) => Settle(t, lease, settlement, at)
  }

  function Replay(log: Log): Table {
    if log == [] then map[] else Apply(Replay(log[..|log| - 1]), log[|log| - 1])
  }

  function IssuedBy(e: Event): set<LeaseId> {
    if e.LeaseCall? then {e.lease} else {}
  }

  function LeaseIds(log: Log): set<LeaseId> {
    if log == [] then {} else LeaseIds(log[..|log| - 1]) + IssuedBy(log[|log| - 1])
  }

  /** What the code and the database guarantee about the next event. */
  ghost predicate Enabled(log: Log, e: Event) {
    && (log != [] ==> Ends(log[|log| - 1]) <= e.at)
    && e.at <= Ends(e)
    && match e
       case EnqueueCall(id, _, _, _) => id !in Replay(log)
       case LeaseCall(id, lease, _, at, _) => lease !in LeaseIds(log) && IsNext(Replay(log), at, id)
       case SettleCall(_, _, _) => true
  }

  /** A run grows by one enabled event at a time. */
  ghost predicate Valid(log: Log)
    decreases |log|, 1
  {
    log == [] || Grown(log)
  }

  /** A run's last event. */
  ghost predicate Grown(log: Log)
    requires log != []
    decreases |log|, 0
  {
    Valid(log[..|log| - 1]) && Enabled(log[..|log| - 1], log[|log| - 1])
  }

  lemma Appended(log: Log, e: Event)
    ensures Replay(log + [e]) == Apply(Replay(log), e) && LeaseIds(log + [e]) == LeaseIds(log) + IssuedBy(e)
    ensures Valid(log) && Enabled(log, e) ==> Valid(log + [e])
  {
    assert (log + [e])[..|log + [e]| - 1] == log;
    if Valid(log) && Enabled(log, e) {
      assert Grown(log + [e]);
    }
  }

  lemma {:induction false} PrefixValid(log: Log, n: nat)
    requires Valid(log) && n <= |log|
    ensures Valid(log[..n])
    ensures n < |log| ==> Enabled(log[..n], log[n]) && Replay(log[..n + 1]) == Apply(Replay(log[..n]), log[n])
  {
    if n < |log| {
      assert log[..n + 1][..n] == log[..n];
      if n + 1 < |log| {
        var init := log[..|log| - 1];
        PrefixValid(init, n);
        assert init[..n] == log[..n] && init[..n + 1] == log[..n + 1];
      } else {
        assert log[..n + 1] == log;
      }
    } else {
      assert log[..n] == log;
    }
  }

  lemma {:induction false} TimesOrdered(log: Log, i: nat, j: nat)
    requires Valid(log) && i < j < |log|
    ensures Ends(log[i]) <= log[j].at <= Ends(log[j])
  {
    PrefixValid(log, j);
    assert log[..j][|log[..j]| - 1] == log[j - 1];
    if i == j - 1 {
    } else {
      TimesOrdered(log, i, j - 1);
    }
  }

  // ---- what every call keeps --------------------------------------------------------------

  ghost predicate UniqueKeys(t: Table) {
    forall a, b | a in t && b in t && t[a].key == t[b].key :: a == b
  }

  /** A row carries a lease exactly while running; a lease id names one row and was issued. */
  ghost predicate LeasesSound(t: Table, issued: set<LeaseId>) {
    && (forall id | id in t :: t[id].leaseId.Some? <==> t[id].status.Running?)
    && (forall id | id in t && t[id].leaseId.Some? :: t[id].leaseId.value in issued)
    && (forall a, b | a in t && b in t && t[a].leaseId.Some? && t[a].leaseId == t[b].leaseId :: a == b)
  }

  ghost predicate Sound(t: Table, issued: set<LeaseId>) {
    UniqueKeys(t) && LeasesSound(t, issued)
  }

  lemma EnqueueKeepsSound(t: Table, id: JobId, job: NewJob, force: bool, now: Time, issued: set<LeaseId>)
    requires Sound(t, issued) && id !in t
    ensures Sound(Enqueue(t, id, job, force, now).0, issued)
  {
    var t' := Enqueue(t, id, job, force, now).0;
    if HasKey(t, job.key) && force {
      assert forall i | i in t' :: i in t && t'[i].key == t[i].key && (t'[i].leaseId == None || t'[i] == t[i]);
    } else if !HasKey(t, job.key) {
      assert forall i | i in t :: t[i].key != job.key;
    }
  }

  lemma LeaseKeepsSound(t: Table, id: JobId, lease: LeaseId, now: Time, until: Time, issued: set<LeaseId>)
    requires Sound(t, issued) && id in t && lease !in issued
    ensures Sound(t[id := LeasedRow(t[id], lease, now, until)], issued + {lease})
  {
  }

  lemma SettleKeepsSound(t: Table, lease: LeaseId, s: Settlement, now: Time, issued: set<LeaseId>)
    requires Sound(t, issued)
    ensures Sound(Settle(t, lease, s, now), issued)
  {
    var t' := Settle(t, lease, s, now);
    forall i | i in t'
      ensures i in t && t'[i].key == t[i].key && (t'[i] == t[i] || (t'[i].leaseId == None && !t'[i].status.Running?))
    {
    }
  }

  lemma {:induction false} TableSound(log: Log)
    requires Valid(log)
    ensures Sound(Replay(log), LeaseIds(log))
  {
    if log == [] {
    } else {
      var t, issued := Replay(log[..|log| - 1]), LeaseIds(log[..|log| - 1]);
      TableSound(log[..|log| - 1]);
      match log[|log| - 1]
      case EnqueueCall(id, job, force, at) => EnqueueKeepsSound(t, id, job, force, at, issued);
      case LeaseCall(id, lease, timeout, at, later) => LeaseKeepsSound(t, id, lease, at, later + timeout, issued);
      case SettleCall(lease, s, at) => SettleKeepsSound(t, lease, s, at, issued);
    }
  }

  lemma {:induction false} WasIssued(log: Log, i: nat)
    requires i < |log| && log[i].LeaseCall?
    ensures log[i].lease in LeaseIds(log)
  {
    if i == |log| - 1 {
    } else {
      WasIssued(log[..|log| - 1], i);
    }
  }

  lemma RowPersists(t: Table, e: Event, id: JobId)
    requires id in t && (e.EnqueueCall? ==> e.id !in t)
    ensures id in Apply(t, e) && Apply(t, e)[id].key == t[id].key && Apply(t, e)[id].createdAt == t[id].createdAt
  {
  }

  /** Rows are never deleted and keep their key and creation time. */
  lemma {:induction false} RowsPersist(log: Log, n: nat, id: JobId)
    requires Valid(log) && n <= |log| && id in Replay(log[..n])
    ensures id in Replay(log)
    ensures Replay(log)[id].key == Replay(log[..n])[id].key
    ensures Replay(log)[id].createdAt == Replay(log[..n])[id].createdAt
  {
    if n == |log| {
      assert log[..n] == log;
    } else {
      var init, e := log[..|log| - 1], log[|log| - 1];
      assert init[..n] == log[..n];
      RowsPersist(init, n, id);
      RowPersists(Replay(init), e, id);
    }
  }

  // ---- lease exclusion ----------------------------------------------------------------------

  /** `e` ends the current lease of `id` or resets the row. */
  ghost predicate Interrupts(t: Table, e: Event, id: JobId) {
    match e
    case EnqueueCall(_, job, force, _) => force && id in t && t[id].key == job.key
    case LeaseCall(_, _, _, _, _) => false
    case SettleCall(lease, _, _) => Holds(t, id, lease)
  }

  ghost predicate Uninterrupted(log: Log, i: nat, j: nat, id: JobId)
    requires i < j <= |log|
  {
    forall k | i < k < j :: !Interrupts(Replay(log[..k]), log[k], id)
  }

  /** A call that does not interrupt a lease leaves its row running and hidden at least as long. */
  lemma LeasedStep(t: Table, e: Event, id: JobId, until: Time)
    requires id in t && t[id].status.Running? && t[id].visibleAt >= until && !Interrupts(t, e, id)
    requires e.EnqueueCall? ==> e.id !in t
    requires e.LeaseCall? ==> IsNext(t, e.at, e.id) && e.at <= e.later && e.timeout >= 0
    ensures var t' := Apply(t, e); id in t' && t'[id].status.Running? && t'[id].visibleAt >= until
  {
  }

  /** From a lease on, and until a settle or forced requeue, the row runs and stays hidden. */
  lemma {:induction false} StaysLeased(log: Log, i: nat, j: nat)
    requires Valid(log) && i < j <= |log| && log[i].LeaseCall?
    requires forall k | i <= k < j && log[k].LeaseCall? :: log[k].timeout >= 0
    requires Uninterrupted(log, i, j, log[i].id)
    ensures var id, t := log[i].id, Replay(log[..j]);
            id in t && t[id].status.Running? && t[id].visibleAt >= Until(log[i])
  {
    PrefixValid(log, j - 1);
    if j - 1 == i {
    } else {
      StaysLeased(log, i, j - 1);
      var t, e := Replay(log[..j - 1]), log[j - 1];
      assert !Interrupts(t, e, log[i].id);
      LeasedStep(t, e, log[i].id, Until(log[i]));
    }
  }

  /**
    Two leases of one row with no settle and no forced requeue between them are at least the
    visibility timeout apart, measured from the reading that started the first timeout.
   */
  lemma {:induction false} LeasesApart(log: Log, i: nat, j: nat)
    requires Valid(log) && i < j < |log|
    requires log[i].LeaseCall? && log[j].LeaseCall? && log[i].id == log[j].id
    requires forall k | i <= k < j && log[k].LeaseCall? :: log[k].timeout >= 0
    requires Uninterrupted(log, i, j, log[i].id)
    ensures log[j].at >= log[i].later + log[i].timeout
  {
    StaysLeased(log, i, j);
    PrefixValid(log, j);
  }

  /** `e` leases the row of `id` or starts it over by force. */
  ghost predicate Touches(t: Table, e: Event, id: JobId) {
    match e
    case EnqueueCall(_, job, force, _) => force && id in t && t[id].key == job.key
    case LeaseCall(leased, _, _, _, _) => leased == id
    case SettleCall(_, _, _) => false
  }

  ghost predicate Untouched(log: Log, i: nat, j: nat, id: JobId)
    requires i < j <= |log|
  {
    forall k | i < k < j :: !Touches(Replay(log[..k]), log[k], id)
  }

  lemma WaitsOn(t: Table, e: Event, id: JobId)
    requires id in t && t[id].leaseId.None? && !Touches(t, e, id) && (e.EnqueueCall? ==> e.id !in t)
    ensures id in Apply(t, e) && Apply(t, e)[id] == t[id]
  {
  }

  lemma {:induction false} StaysWaiting(log: Log, i: nat, j: nat, id: JobId, r: JobRow)
    requires Valid(log) && i < j <= |log| && Untouched(log, i, j, id)
    requires id in Replay(log[..i + 1]) && Replay(log[..i + 1])[id] == r && r.leaseId.None?
    ensures id in Replay(log[..j]) && Replay(log[..j])[id] == r
  {
    PrefixValid(log, j - 1);
    if j - 1 == i {
    } else {
      StaysWaiting(log, i, j - 1, id, r);
      var t, e := Replay(log[..j - 1]), log[j - 1];
      assert !Touches(t, e, id);
      WaitsOn(t, e, id);
      assert Replay(log[..j]) == Apply(t, e);
    }
  }

  /** How long the settlement keeps the row back: its own delay, or the back-off of the transient counter. */
  function DelayOf(r: JobRow, s: Settlement): int {
    match s
    case Ack => 0
    case Nack(_, retryIn) => retryIn
    case NackTransient(policy) => Min(policy.first * Pow2(r.transientAttempts), policy.ceiling)
  }

  lemma SettledWaits(r: JobRow, s: Settlement, now: Time)
    ensures var r' := SettledRow(r, s, now);
            r'.leaseId.None? && (Live(r') ==> !s.Ack? && r'.visibleAt == now + DelayOf(r, s))
  {
  }

  /** A job given back is not leased again before its delay is over, unless it is started over by force. */
  lemma RetryWaitsItsDelay(log: Log, i: nat, j: nat, id: JobId)
    requires Valid(log) && i < j < |log| && log[i].SettleCall? && Holds(Replay(log[..i]), id, log[i].lease)
    requires log[j].LeaseCall? && log[j].id == id && Untouched(log, i, j, id)
    ensures !log[i].settlement.Ack?
    ensures log[j].at >= log[i].at + DelayOf(Replay(log[..i])[id], log[i].settlement)
  {
    var r := Replay(log[..i])[id];
    var r' := SettledRow(r, log[i].settlement, log[i].at);
    PrefixValid(log, i);
    assert Replay(log[..i + 1])[id] == r';
    SettledWaits(r, log[i].settlement, log[i].at);
    StaysWaiting(log, i, j, id, r');
    PrefixValid(log, j);
    assert Leasable(r', log[j].at);
  }

  /** A lease id is never on any row but the one it was issued for. */
  lemma {:induction false} LeaseIdOnlyOnItsRow(log: Log, i: nat, id: JobId)
    requires Valid(log) && i < |log| && log[i].LeaseCall?
    ensures Holds(Replay(log), id, log[i].lease) ==> id == log[i].id
  {
    var init, e := log[..|log| - 1], log[|log| - 1];
    if i < |init| {
      LeaseIdOnlyOnItsRow(init, i, id);
      WasIssued(init, i);
    } else {
      TableSound(init);
    }
  }

  /** Once a row has been leased again, its earlier lease id is on no row, then or ever after. */
  lemma {:induction false} SupersededNowhere(log: Log, i: nat, j: nat, id: JobId)
    requires Valid(log) && i < j < |log|
    requires log[i].LeaseCall? && log[j].LeaseCall? && log[i].id == log[j].id
    ensures !Holds(Replay(log), id, log[i].lease)
  {
    var init := log[..|log| - 1];
    WasIssued(init, i);
    if j < |init| {
      SupersededNowhere(init, i, j, id);
    } else {
      LeaseIdOnlyOnItsRow(init, i, id);
    }
  }

  /** Settling with a superseded lease id changes nothing in the table, whatever the verdict. */
  lemma {:induction false} SupersededSettleIsNoOp(log: Log, i: nat, j: nat, s: Settlement, now: Time)
    requires Valid(log) && i < j < |log|
    requires log[i].LeaseCall? && log[j].LeaseCall? && log[i].id == log[j].id
    ensures Settle(Replay(log), log[i].lease, s, now) == Replay(log)
  {
    forall id | id in Replay(log)
      ensures !Holds(Replay(log), id, log[i].lease)
    {
      SupersededNowhere(log, i, j, id);
    }
  }

  // ---- attempts conservation ------------------------------------------------------------------

  /** What happened to a row since it was last queued afresh, counted from the log alone. */
  datatype Tally = Tally(leases: nat, transients: nat, nacks: nat, expiries: nat)

  function Count(t: Table, e: Event, id: JobId, before: Tally): Tally {
    match e
    case EnqueueCall(added, job, force, _) =>
      if (added == id && !HasKey(t, job.key)) || (force && id in t && t[id].key == job.key)
      then Tally(0, 0, 0, 0) else before
    case LeaseCall(leased, _, _, _, _) =>
      if leased == id && id in t then
        before.(leases := before.leases + 1,
                expiries := before.expiries + if t[id].status.Running? then 1 else 0)
      else before
    case SettleCall(lease, s, _) =>
      if !Holds(t, id, lease) then before
      else if s.NackTransient? then before.(transients := before.transients + 1)
      else if s.Nack? then before.(nacks := before.nacks + 1)
      else before
  }

  function TallyOf(log: Log, id: JobId): Tally {
    if log == [] then Tally(0, 0, 0, 0)
    else Count(Replay(log[..|log| - 1]), log[|log| - 1], id, TallyOf(log[..|log| - 1], id))
  }

  ghost predicate Conserved(r: JobRow, c: Tally) {
    && r.attempts == c.leases - c.transients
    && c.leases == c.transients + c.nacks + c.expiries + (if r.status.Running? || r.status.Done? then 1 else 0)
    && r.transientAttempts == c.transients
  }

  lemma StepConserves(t: Table, e: Event, id: JobId, before: Tally)
    requires id in Apply(t, e) && (id in t ==> Conserved(t[id], before))
    requires id in t ==> (t[id].leaseId.Some? <==> t[id].status.Running?)
    requires e.EnqueueCall? ==> e.id !in t
    requires e.LeaseCall? && e.id in t ==> Live(t[e.id])
    ensures Conserved(Apply(t, e)[id], Count(t, e, id, before))
  {
  }

  /**
    Conservation: `attempts` is leases minus transient settles, and every lease is accounted
    for by the settle that ended it, by its expiry, or by being the current or acked one.
   */
  lemma {:induction false} AttemptsConserved(log: Log, id: JobId)
    requires Valid(log) && id in Replay(log)
    ensures Conserved(Replay(log)[id], TallyOf(log, id))
  {
    var init, e := log[..|log| - 1], log[|log| - 1];
    TableSound(init);
    if id in Replay(init) {
      AttemptsConserved(init, id);
    }
    StepConserves(Replay(init), e, id, TallyOf(init, id));
  }

  /** The transient settle's `max(0, ...)` clamp never fires. */
  lemma {:induction false} ClampNeverFires(log: Log, id: JobId)
    requires Valid(log) && id in Replay(log) && Replay(log)[id].leaseId.Some?
    ensures Replay(log)[id].attempts >= 1
  {
    TableSound(log);
    AttemptsConserved(log, id);
  }

  /**
    A row becomes a dead letter exactly at a non-transient settle by its holder at which
    non-transient settles plus expired leases reach the cap that settle carries.
   */
  lemma {:induction false} DeadLetterExactly(log: Log, e: Event, id: JobId)
    requires Valid(log + [e]) && id in Replay(log)
    ensures id in Replay(log + [e])
    ensures (!Replay(log)[id].status.DeadLetter? && Replay(log + [e])[id].status.DeadLetter?)
       <==> && e.SettleCall? && e.settlement.Nack? && Holds(Replay(log), id, e.lease)
            && TallyOf(log + [e], id).nacks + TallyOf(log + [e], id).expiries >= e.settlement.cap
  {
    assert (log + [e])[..|log + [e]| - 1] == log;
    TableSound(log);
    AttemptsConserved(log, id);
  }
}
