/**
  The webhook process: kicks, drain passes and the self-rescheduling wake-up. Each method is
  one stretch of code that runs without awaiting; the runs of the process are the sequences of
  such calls, and `Valid` is what every one of them keeps.
 */
module Ingress {
  import opened Basics
  import opened JobTable
  import opened QueueHistory

  const MAX_WAKE_MS := 30 * 60_000

  datatype Startup = CatchingUp | Emptied | Over

  /** When a wake-up computed at `now` for the answer `next` fires. */
  function WakeTarget(next: Option<Time>, now: Time): Option<Time> {
    match next
    case None => None
    case Some(t) => Some(now + Min(Max(0, t - now), MAX_WAKE_MS))
  }

  ghost predicate AllHiddenAfter(t: Table, since: Time) {
    forall id | id in t && Live(t[id]) :: t[id].visibleAt > since
  }

  /** A lease or a settlement made by a drain, with positive timeout and delays. */
  predicate IsDrainCall(t: Table, e: Event) {
    match e
    case EnqueueCall(_, _, _, _) => false
    case LeaseCall(_, _, timeout, at, later) => timeout > 0 && at <= later
    case SettleCall(_, s, _) =>
      match s
      case Ack => true
      case Nack(_, retryIn) => retryIn > 0
      case NackTransient(policy) => policy.first > 0 && policy.ceiling > 0
  }

  class Process {
    var draining: bool
    var pending: bool
    var wakeTimer: Option<Time>
    var waking: seq<Option<Time>> // answers whose scheduleWake has yet to resume, oldest first
    var jobs: Table
    var clock: Time

    ghost var startup: Startup    // the catch-up sweep's own drain
    ghost var emptied: bool       // the pass's last lease found nothing
    ghost var owed: nat           // handlers that have enqueued but not kicked yet
    ghost var running: nat        // passes in progress
    ghost var kicks: nat
    ghost var served: nat         // kicks made when the latest pass started
    ghost var broken: bool        // the last pass threw
    ghost var faulted: bool       // a drain, a handler or a query threw and no pass completed since
    ghost var emptyAt: Time       // clock reading of the latest empty lease
    ghost var askedAt: Time       // clock reading of the latest nextVisibleAt
    ghost var answer: Option<Time>
    ghost var armedAt: Time       // clock reading the armed delay was computed from

    /** Someone is still going to look at the queue. */
    ghost predicate Attended()
      reads this
    {
      owed > 0 || pending || (draining && !emptied) || startup.CatchingUp? || faulted
    }

    /** Nothing is in progress but the armed timer. */
    ghost predicate Quiescent()
      reads this
    {
      !draining && owed == 0 && startup.Over? && waking == [] && !faulted
    }

    ghost predicate Valid()
      reads this
    {
      && running == (if draining then 1 else 0)
      && (pending ==> draining || broken) && (broken ==> faulted && !draining)
      && served <= kicks && (served == kicks || pending)
      && emptyAt <= clock && askedAt <= clock && armedAt <= clock
      && (!Attended() ==> AllHiddenAfter(jobs, emptyAt))
      && (!Attended() && !draining && startup.Over? ==>
            && emptyAt <= askedAt
            && IsNextVisible(jobs, askedAt, answer)
            && if waking != [] then waking[|waking| - 1] == answer
               else askedAt <= armedAt && wakeTimer == WakeTarget(answer, armedAt))
    }

    constructor (jobs: Table, clock: Time)
      ensures Valid() && this.jobs == jobs && this.clock == clock && startup == CatchingUp
      ensures !draining && !pending && wakeTimer.None? && waking == [] && owed == 0 && !broken && !faulted
    {
      this.jobs, this.clock := jobs, clock;
      draining, pending, wakeTimer, waking := false, false, None, [];
      startup, emptied, owed, running, kicks, served := CatchingUp, false, 0, 0, 0, 0;
      broken, faulted := false, false;
      emptyAt, askedAt, answer, armedAt := clock, clock, None, clock;
    }

    method Tick(now: Time)
      requires Valid() && clock <= now
      modifies this`clock
      ensures Valid() && clock == now
    {
      clock := now;
    }

    /** `next` is the queue's answer at this clock reading; the rest runs after the await. */
    method Ask(next: Option<Time>)
      modifies this`waking, this`askedAt, this`answer
      ensures waking == old(waking) + [next] && askedAt == clock && answer == next
    {
      waking, askedAt, answer := waking + [next], clock, next;
    }

    // ---- kick ------------------------------------------------------------------------------------

    /** The head of the drain loop: clear the flag, start a pass. */
    method StartPass()
      requires draining && running == 0
      modifies this`pending, this`emptied, this`running, this`served, this`broken
      ensures !pending && !emptied && running == 1 && served == kicks && !broken
    {
      pending, emptied, running, served, broken := false, false, running + 1, kicks, false;
    }

    /** A kick during a pass leaves a mark for the loop; otherwise it starts one at once. */
    method Kick()
      requires Valid()
      modifies this`draining, this`pending, this`emptied, this`running, this`kicks, this`served, this`broken
      ensures Valid() && draining && kicks == old(kicks) + 1
      ensures if old(draining) then pending && running == old(running) && emptied == old(emptied)
              else !pending && !emptied && running == 1 && served == kicks && !broken
    {
      pending, kicks := true, kicks + 1;
      if draining {
        return;
      }
      draining := true;
      StartPass();
    }

    /** A webhook handler stores its job. */
    method HandlerEnqueues(id: JobId, job: NewJob, force: bool)
      requires Valid() && id !in jobs
      modifies this`jobs, this`owed
      ensures Valid() && owed == old(owed) + 1 && jobs == Enqueue(old(jobs), id, job, force, clock).0
    {
      jobs := Enqueue(jobs, id, job, force, clock).0;
      owed := owed + 1;
    }

    /** The handler's continuation kicks. */
    method HandlerKicks()
      requires Valid() && owed > 0
      modifies this`draining, this`pending, this`emptied, this`running, this`kicks, this`served, this`broken,
          this`owed
      ensures Valid() && owed == old(owed) - 1 && kicks == old(kicks) + 1 && draining
    {
      Kick();
      owed := owed - 1;
    }

    /** The handler throws between storing the job and kicking. */
    method HandlerThrows()
      requires Valid() && owed > 0
      modifies this`owed, this`faulted
      ensures Valid() && owed == old(owed) - 1 && faulted
    {
      owed, faulted := owed - 1, true;
    }

    method TimerFires()
      requires Valid() && wakeTimer.Some? && wakeTimer.value <= clock
      modifies this`draining, this`pending, this`emptied, this`running, this`kicks, this`served, this`broken,
          this`wakeTimer
      ensures Valid() && wakeTimer.None? && kicks == old(kicks) + 1 && draining
    {
      Kick();
      wakeTimer := None;
    }

    // ---- drain passes -------------------------------------------------------------------------------

    /** One call a drain in progress makes on the queue. */
    method DrainCall(e: Event)
      requires Valid() && ((draining && !emptied) || startup.CatchingUp?)
      requires IsDrainCall(jobs, e) && clock <= e.at
      modifies this`jobs, this`clock
      ensures Valid() && jobs == Apply(old(jobs), e) && clock == Ends(e)
    {
      jobs, clock := Apply(jobs, e), Ends(e);
    }

    /** The pass's lease finds nothing to do. */
    method PassEmpties()
      requires Valid() && draining && !emptied && LeasableIds(jobs, clock) == {}
      modifies this`emptied, this`emptyAt, this`faulted
      ensures Valid() && emptied && emptyAt == clock && !faulted
    {
      assert forall id | id in jobs && Leasable(jobs[id], clock) :: id in LeasableIds(jobs, clock);
      emptied, emptyAt, faulted := true, clock, false;
    }

    /** Back at the loop condition: another pass if kicked meanwhile, else re-arm the wake-up. */
    method PassReturns(next: Option<Time>)
      requires Valid() && draining && emptied && IsNextVisible(jobs, clock, next)
      modifies this`draining, this`pending, this`emptied, this`running, this`served, this`broken, this`waking,
          this`askedAt, this`answer
      ensures Valid()
      ensures if old(pending) then draining && !emptied && served == kicks
              else !draining && waking == old(waking) + [next]
    {
      running := running - 1;
      if pending {
        StartPass();
      } else {
        draining := false;
        Ask(next);
      }
    }

    /** A drain that throws leaves the loop without looking at `pending`. */
    method PassThrows(next: Option<Time>)
      requires Valid() && draining && !emptied && IsNextVisible(jobs, clock, next)
      modifies this`draining, this`running, this`broken, this`faulted, this`waking, this`askedAt, this`answer
      ensures Valid() && !draining && broken && faulted && waking == old(waking) + [next]
    {
      draining, running, broken, faulted := false, running - 1, true, true;
      Ask(next);
    }

    /** The catch-up sweep stores the job of a head it found uncovered; it does not kick. */
    method CatchUpEnqueues(id: JobId, job: NewJob)
      requires Valid() && startup.CatchingUp? && id !in jobs
      modifies this`jobs
      ensures Valid() && jobs == Enqueue(old(jobs), id, job, false, clock).0
    {
      jobs := Enqueue(jobs, id, job, false, clock).0;
    }

    method CatchUpEmpties()
      requires Valid() && startup.CatchingUp? && LeasableIds(jobs, clock) == {}
      modifies this`startup, this`emptyAt
      ensures Valid() && startup == Emptied && emptyAt == clock
    {
      assert forall id | id in jobs && Leasable(jobs[id], clock) :: id in LeasableIds(jobs, clock);
      startup, emptyAt := Emptied, clock;
    }

    method CatchUpReturns(next: Option<Time>)
      requires Valid() && startup.Emptied? && IsNextVisible(jobs, clock, next)
      modifies this`startup, this`waking, this`askedAt, this`answer
      ensures Valid() && startup == Over && waking == old(waking) + [next] && answer == next
    {
      startup := Over;
      Ask(next);
    }

    /** A failed catch-up is logged and does not arm the wake-up. */
    method CatchUpThrows()
      requires Valid() && startup.CatchingUp?
      modifies this`startup, this`faulted
      ensures Valid() && startup == Over && faulted
    {
      startup, faulted := Over, true;
    }

    // ---- scheduleWake -----------------------------------------------------------------------------------

    /** Replace the timer by one for the oldest answer still waiting. */
    method WakeResumes()
      requires Valid() && waking != []
      modifies this`waking, this`wakeTimer, this`armedAt
      ensures Valid() && waking == old(waking)[1..] && wakeTimer == WakeTarget(old(waking)[0], clock)
      ensures match old(waking)[0]
              case None => wakeTimer.None?
              case Some(due) => wakeTimer == Some(clock + Min(Max(0, due - clock), 1_800_000))
      ensures armedAt == clock
    {
      var next := waking[0];
      waking, armedAt := waking[1..], clock;
      wakeTimer := None;
      if next.Some? {
        var delay := Min(Max(0, next.value - clock), MAX_WAKE_MS);
        wakeTimer := Some(clock + delay);
      }
    }

    /** The query behind a resumed scheduleWake had thrown: the timer is left as it was. */
    method WakeFails()
      requires Valid() && waking != []
      modifies this`waking, this`faulted
      ensures Valid() && waking == old(waking)[1..] && wakeTimer == old(wakeTimer) && faulted
    {
      waking, faulted := waking[1..], true;
    }

    // ---- what this adds up to ----------------------------------------------------------------------------

    /** Passes never overlap; with none running, every kick was followed by the start of one, unless the last threw. */
    lemma KicksAreServed()
      requires Valid()
      ensures running <= 1 && (running == 0 <==> !draining)
      ensures !draining ==> served == kicks || (pending && broken)
    {
    }

    /**
      At quiescence every live job becomes visible after the last empty lease's clock reading,
      and the timer fires by the time it does (or at once), exactly unless it became visible
      before the wake-up query read the clock and no other job is already due.
     */
    lemma QuiescentJobsAreAwaited(id: JobId)
      requires Valid() && Quiescent() && id in jobs && Live(jobs[id])
      ensures jobs[id].visibleAt > emptyAt
      ensures wakeTimer.Some? ==> wakeTimer.value <= armedAt + 1_800_000
      ensures (wakeTimer.Some? && wakeTimer.value <= Max(armedAt, jobs[id].visibleAt))
         <==> jobs[id].visibleAt > askedAt || (answer.Some? && answer.value <= armedAt)
    {
      assert !Attended();
    }
  }

  /** The gap is real: between the empty lease and the query a job may come due that no timer awaits. */
  method JobInTheGap() returns (p: Process)
    ensures p.Valid() && p.Quiescent() && p.wakeTimer.None?
    ensures exists id | id in p.jobs :: Leasable(p.jobs[id], p.clock)
  {
    var row := JobRow(Key("o/r", 1, "head"), None, Webhook, false, 0, Status.Queued, 0, 1, None, None, 1);
    p := new Process(map[0 := row], 0);
    p.CatchUpEmpties();
    p.Tick(1);
    p.CatchUpReturns(None);
    p.WakeResumes();
    assert 0 in p.jobs && Leasable(p.jobs[0], p.clock);
  }
}
