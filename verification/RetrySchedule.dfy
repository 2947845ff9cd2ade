/** The transient retry schedule: doubling, capped, with a closed-form total. */
module RetrySchedule {
  import opened Basics
  import opened JobTable
  import opened QueueHistory

  lemma {:induction false} Pow2Grows(m: nat, n: nat)
    requires m <= n
    ensures Pow2(m) <= Pow2(n)
  {
    if m == n {
    } else {
      Pow2Grows(m, n - 1);
    }
  }

  lemma MulMonotone(c: nat, a: nat, b: nat)
    requires a <= b
    ensures c * a <= c * b
  {
  }

  /** Delays never shrink, and once the ceiling is reached every later delay is the ceiling. */
  lemma BackoffGrowsThenSaturates(policy: Backoff, m: int, n: int)
    requires 1 <= m <= n
    ensures TransientBackoff(policy, m) <= TransientBackoff(policy, n) <= policy.ceiling
    ensures TransientBackoff(policy, m) == policy.ceiling ==> TransientBackoff(policy, n) == policy.ceiling
  {
    Pow2Grows(m - 1, n - 1);
    MulMonotone(policy.first, Pow2(m - 1), Pow2(n - 1));
  }

  lemma BackoffPositive(policy: Backoff, n: int)
    requires policy.first > 0 && policy.ceiling > 0
    ensures TransientBackoff(policy, n) > 0
  {
    MulMonotone(policy.first, 1, Pow2(Max(0, n - 1)));
  }

  /** Total delay of the first `n` transient retries. */
  function TotalBackoff(policy: Backoff, n: nat): int {
    if n == 0 then 0 else TotalBackoff(policy, n - 1) + TransientBackoff(policy, n)
  }

  /** `k` of the first `n` delays are still below or at the ceiling. */
  predicate DoublesFor(policy: Backoff, k: nat, n: nat) {
    && k <= n
    && (k > 0 ==> policy.first * Pow2(k - 1) <= policy.ceiling)
    && (k < n ==> policy.first * Pow2(k) >= policy.ceiling)
  }

  lemma DoubleStep(c: int, x: int)
    ensures c * (x - 1) + c * x == c * (2 * x - 1)
  {
  }

  lemma OneMore(n: int, c: int)
    ensures n * c + c == (n + 1) * c
  {
  }

  /** The last delay, by which side of the ceiling it falls on. */
  lemma LastDelay(policy: Backoff, k: nat, n: nat)
    requires DoublesFor(policy, k, n) && n > 0
    ensures k < n ==> TransientBackoff(policy, n) == policy.ceiling && DoublesFor(policy, k, n - 1)
    ensures k == n ==> TransientBackoff(policy, n) == policy.first * Pow2(n - 1) && DoublesFor(policy, n - 1, n - 1)
  {
    if k < n {
      Pow2Grows(k, n - 1);
      MulMonotone(policy.first, Pow2(k), Pow2(n - 1));
    } else if k > 1 {
      Pow2Grows(k - 2, k - 1);
      MulMonotone(policy.first, Pow2(k - 2), Pow2(k - 1));
    }
  }

  /** Every schedule has such a `k`. */
  lemma {:induction false} SaturationPoint(policy: Backoff, n: nat) returns (k: nat)
    ensures DoublesFor(policy, k, n)
  {
    if n == 0 {
      k := 0;
    } else {
      k := SaturationPoint(policy, n - 1);
      if k == n - 1 && policy.first * Pow2(n - 1) <= policy.ceiling {
        k := n;
      }
    }
  }

  /** `first * (2^k - 1) + (n - k) * ceiling`, where `k` delays come before saturation. */
  lemma {:induction false} TotalBackoffClosedForm(policy: Backoff, k: nat, n: nat)
    requires DoublesFor(policy, k, n)
    ensures TotalBackoff(policy, n) == policy.first * (Pow2(k) - 1) + (n - k) * policy.ceiling
  {
    if n == 0 {
    } else {
      LastDelay(policy, k, n);
      if k < n {
        TotalBackoffClosedForm(policy, k, n - 1);
        OneMore(n - 1 - k, policy.ceiling);
      } else {
        TotalBackoffClosedForm(policy, n - 1, n - 1);
        DoubleStep(policy.first, Pow2(n - 1));
      }
    }
  }

  /**
    A transient settle never loses a job, however many came before it: the row is queued
    again, its budget holds only permanent settles and expired leases, and the delay is the
    one for the number of transient settles counted from the log.
   */
  lemma TransientSettleKeepsJob(log: Log, e: Event, id: JobId)
    requires e.SettleCall? && e.settlement.NackTransient?
    requires Valid(log + [e]) && Holds(Replay(log), id, e.lease)
    ensures var r, c := Replay(log + [e])[id], TallyOf(log + [e], id);
            && id in Replay(log + [e])
            && r.status.Queued?
            && r.attempts == c.nacks + c.expiries
            && c.transients >= 1
            && r.visibleAt == e.at + Min(e.settlement.policy.first * Pow2(c.transients - 1),
                e.settlement.policy.ceiling)
  {
    assert (log + [e])[..|log + [e]| - 1] == log;
    AttemptsConserved(log, id);
    AttemptsConserved(log + [e], id);
  }
}
