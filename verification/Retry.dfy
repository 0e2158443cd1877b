/** Retry budgets: how many attempts fit, and how long they sleep. */
module Retry {

  // ------------------------------------------------------- attempts and delays

  /** Two to the power `k`. */
  function PowerOfTwo(k: nat): nat {
    if k == 0 then 1 else 2 * PowerOfTwo(k - 1)
  }

  /** The product, by repeated addition. */
  function Repeated(x: real, n: nat): real {
    if n == 0 then 0.0 else Repeated(x, n - 1) + x
  }

  lemma {:induction false} RepeatedSum(x: real, m: nat, n: nat)
    ensures Repeated(x, m + n) == Repeated(x, m) + Repeated(x, n)
  {
    if n > 0 { RepeatedSum(x, m, n - 1); }
  }

  /** The base delay, doubled `k` times. */
  function Doubled(base: real, k: nat): real {
    if k == 0 then base else Doubled(base, k - 1) * 2.0
  }

  lemma {:induction false} DoubledIs(base: real, k: nat)
    ensures Doubled(base, k) == Repeated(base, PowerOfTwo(k))
  {
    if k == 0 {
      assert Repeated(base, 1) == Repeated(base, 0) + base;
    } else {
      DoubledIs(base, k - 1);
      RepeatedSum(base, PowerOfTwo(k - 1), PowerOfTwo(k - 1));
    }
  }

  function MinReal(a: real, b: real): real { if a < b then a else b }

  /** The unjittered delay before retry `i`, as the budget estimate takes it. */
  function Planned(base: real, maxDelay: real, i: nat): real { MinReal(Repeated(base, PowerOfTwo(i)), maxDelay) }

  /** The first `k` unjittered delays together. */
  function PlannedTotal(base: real, maxDelay: real, k: nat): real {
    if k == 0 then 0.0 else PlannedTotal(base, maxDelay, k - 1) + Planned(base, maxDelay, k - 1)
  }

  /** The delay that is slept before retry `i`; the exponent is capped at 20. */
  function ComputeDelay(i: nat, base: real, maxDelay: real, jitter: real): real {
    MinReal(Doubled(base, if i < 20 then i else 20) * (1.0 + jitter), maxDelay)
  }

  lemma {:induction false} PlannedPositive(base: real, maxDelay: real, i: nat)
    requires base > 0.0 && maxDelay >= 0.0
    ensures Planned(base, maxDelay, i) >= 0.0
  {
    DoubledIs(base, i);
    DoubledGrows(base, 0, i);
  }

  lemma {:induction false} DoubledGrows(base: real, j: nat, k: nat)
    requires base >= 0.0 && j <= k
    ensures 0.0 <= Doubled(base, j) <= Doubled(base, k)
  {
    if j < k { DoubledGrows(base, j, k - 1); } else if k > 0 { DoubledGrows(base, j - 1, k - 1); }
  }

  lemma {:induction false} PlannedGrows(base: real, maxDelay: real, j: nat, k: nat)
    requires base > 0.0 && maxDelay >= 0.0 && j <= k
    ensures PlannedTotal(base, maxDelay, j) <= PlannedTotal(base, maxDelay, k)
  {
    if j < k {
      PlannedGrows(base, maxDelay, j, k - 1);
      PlannedPositive(base, maxDelay, k - 1);
    }
  }

  /** `n` attempts are allowed and the delays between them fit. */
  predicate Fits(remaining: real, base: real, maxDelay: real, maxAttempts: int, n: nat) {
    1 <= n && (n == 1 || n <= maxAttempts) && PlannedTotal(base, maxDelay, n - 1) <= remaining
  }

  /**
    The largest number of attempts allowed whose unjittered delays fit the remaining time.
    Without a positive base delay the budget is not consulted.
  */
  method CalculateRetryAttempts(remaining: real, base: real, maxDelay: real, maxAttempts: int) returns (attempts: int)
    requires remaining >= 0.0 && maxDelay >= 0.0
    ensures base <= 0.0 ==> attempts == maxAttempts
    ensures base > 0.0 ==> attempts >= 1 && Fits(remaining, base, maxDelay, maxAttempts, attempts)
    ensures base > 0.0 ==> forall n: nat :: Fits(remaining, base, maxDelay, maxAttempts, n) ==> n <= attempts
  {
    if base <= 0.0 { return maxAttempts; }
    var total: real, i: nat := 0.0, 0;
    attempts := 1;
    while i < maxAttempts - 1
      invariant attempts == i + 1 && total == PlannedTotal(base, maxDelay, i) && total <= remaining
      invariant attempts == 1 || attempts <= maxAttempts
    {
      var delay := MinReal(Doubled(base, i), maxDelay);
      DoubledIs(base, i);
      if total + delay > remaining {
        forall n: nat | Fits(remaining, base, maxDelay, maxAttempts, n) ensures n <= attempts {
          if n > attempts { PlannedGrows(base, maxDelay, attempts, n - 1); }
        }
        return;
      }
      total, i, attempts := total + delay, i + 1, attempts + 1;
    }
  }

  // ------------------------------------------------------------ the exact delay

  /** The backoff before retry `i`: the base delay doubled for each retry, at most twenty times, up to the maximum. */
  function Backoff(base: real, maxDelay: real, i: nat): real {
    MinReal(Repeated(base, PowerOfTwo(if i < 20 then i else 20)), maxDelay)
  }

  /** The delay is the backoff lengthened by the jitter, up to the maximum; without jitter it is the backoff. */
  lemma {:induction false} DelayExactly(i: nat, base: real, maxDelay: real, jitter: real)
    requires base >= 0.0 && jitter >= 0.0
    ensures Backoff(base, maxDelay, i) <= ComputeDelay(i, base, maxDelay, jitter) <= maxDelay
    ensures jitter == 0.0 ==> ComputeDelay(i, base, maxDelay, jitter) == Backoff(base, maxDelay, i)
    ensures ComputeDelay(i, base, maxDelay, jitter) < maxDelay ==>
              ComputeDelay(i, base, maxDelay, jitter) == Backoff(base, maxDelay, i) * (1.0 + jitter)
  {
    var k := if i < 20 then i else 20;
    DoubledIs(base, k);
    DoubledGrows(base, 0, k);
    Lengthened(Doubled(base, k), maxDelay, jitter, MinReal(Doubled(base, k) * (1.0 + jitter), maxDelay));
  }

  lemma {:induction false} Lengthened(full: real, maxDelay: real, jitter: real, delay: real)
    requires full >= 0.0 && jitter >= 0.0 && delay == MinReal(full * (1.0 + jitter), maxDelay)
    ensures MinReal(full, maxDelay) <= delay <= maxDelay && (jitter == 0.0 ==> delay == MinReal(full, maxDelay))
    ensures delay < maxDelay ==> delay == MinReal(full, maxDelay) * (1.0 + jitter)
  {
    assert full * (1.0 + jitter) == full + full * jitter;
  }

  /** The first `k` backoffs together. */
  function BackoffTotal(base: real, maxDelay: real, k: nat): real {
    if k == 0 then 0.0 else BackoffTotal(base, maxDelay, k - 1) + Backoff(base, maxDelay, k - 1)
  }

  /** The number of attempts a call made. */
  function Made(r: Result, limit: int): nat {
    match r
    case Returned(n) => n
    case Threw(n) => n
    case Exhausted(_) => if limit < 1 then 0 else limit
    case DeadlineExceeded => 0
  }

  /** Between the attempts it made, a call sleeps at least the backoffs, and exactly those without jitter. */
  predicate SleepsBetween(r: Result, limit: int, base: real, maxDelay: real, factor: real, slept: real) {
    var total := BackoffTotal(base, maxDelay, if Made(r, limit) == 0 then 0 else Made(r, limit) - 1);
    total <= slept && (factor == 0.0 ==> slept == total)
  }

  /** A jittered delay exceeds its estimate by at most the jitter factor. */
  lemma {:induction false} JitterBound(i: nat, base: real, maxDelay: real, jitter: real, factor: real)
    requires base >= 0.0 && maxDelay >= 0.0 && 0.0 <= jitter <= factor
    ensures 0.0 <= ComputeDelay(i, base, maxDelay, jitter) <= Cap(base, maxDelay, 1.0 + factor, i)
  {
    var capped := if i < 20 then i else 20;
    DoubledGrows(base, capped, i);
    DoubledIs(base, i);
    MinScale(Doubled(base, capped), Doubled(base, i), maxDelay, jitter, factor);
  }

  /** A delay made larger by `scale`. */
  function Cap(base: real, maxDelay: real, scale: real, i: nat): real { scale * Planned(base, maxDelay, i) }

  function CapTotal(base: real, maxDelay: real, scale: real, k: nat): real {
    if k == 0 then 0.0 else CapTotal(base, maxDelay, scale, k - 1) + Cap(base, maxDelay, scale, k - 1)
  }

  lemma {:induction false} CapTotalIs(base: real, maxDelay: real, scale: real, k: nat)
    ensures CapTotal(base, maxDelay, scale, k) == scale * PlannedTotal(base, maxDelay, k)
  {
    if k > 0 {
      CapTotalIs(base, maxDelay, scale, k - 1);
      Distribute(scale, PlannedTotal(base, maxDelay, k - 1), Planned(base, maxDelay, k - 1), PlannedTotal(base, maxDelay, k));
    }
  }

  lemma {:induction false} Distribute(scale: real, total: real, next: real, sum: real)
    requires sum == total + next
    ensures scale * total + scale * next == scale * sum
  {
  }

  lemma {:induction false} CapTotalGrows(base: real, maxDelay: real, factor: real, j: nat, k: nat)
    requires base >= 0.0 && maxDelay >= 0.0 && factor >= 0.0 && j <= k
    ensures CapTotal(base, maxDelay, 1.0 + factor, j) <= CapTotal(base, maxDelay, 1.0 + factor, k)
  {
    if j < k {
      CapTotalGrows(base, maxDelay, factor, j, k - 1);
      JitterBound(k - 1, base, maxDelay, 0.0, factor);
    }
  }

  method NextDelay(i: nat, base: real, maxDelay: real, jitter: real, ghost factor: real) returns (delay: real)
    requires base >= 0.0 && maxDelay >= 0.0 && 0.0 <= jitter <= factor
    ensures 0.0 <= delay <= Cap(base, maxDelay, 1.0 + factor, i)
    ensures Backoff(base, maxDelay, i) <= delay && (factor == 0.0 ==> delay == Backoff(base, maxDelay, i))
  {
    JitterBound(i, base, maxDelay, jitter, factor);
    DelayExactly(i, base, maxDelay, jitter);
    delay := ComputeDelay(i, base, maxDelay, jitter);
  }

  lemma {:induction false} Scale(a: real, x: real, y: real)
    requires a >= 0.0 && 0.0 <= x <= y
    ensures 0.0 <= a * x <= a * y
  {
  }

  lemma {:induction false} MinScale(a: real, b: real, m: real, jitter: real, factor: real)
    requires 0.0 <= a <= b && 0.0 <= m && 0.0 <= jitter <= factor
    ensures 0.0 <= MinReal(a * (1.0 + jitter), m) <= (1.0 + factor) * MinReal(b, m)
  {
    Scale(a, 1.0 + jitter, 1.0 + factor);
    Scale(1.0 + factor, a, b);
    Scale(m, 1.0, 1.0 + factor);
    assert a * (1.0 + jitter) <= a * (1.0 + factor) == (1.0 + factor) * a <= (1.0 + factor) * b;
    assert m <= m * (1.0 + factor) == (1.0 + factor) * m;
  }

  // ------------------------------------------------------------ the retry loop

  datatype Attempt = Succeeds | FailsRetryable | FailsForGood

  datatype Result = Returned(attempt: nat) | Threw(attempt: nat) | Exhausted(attempts: int) | DeadlineExceeded

  /** The outcome of the call: the first attempt that is not a retryable failure decides. */
  ghost predicate Decided(attempts: nat -> Attempt, limit: int, r: Result) {
    match r
    case Returned(n) => 1 <= n <= limit && attempts(n) == Succeeds && forall k: nat :: 1 <= k < n ==> attempts(k) == FailsRetryable
    case Threw(n) => 1 <= n <= limit && attempts(n) == FailsForGood && forall k: nat :: 1 <= k < n ==> attempts(k) == FailsRetryable
    case Exhausted(n) => n == limit && forall k: nat :: 1 <= k <= limit ==> attempts(k) == FailsRetryable
    case DeadlineExceeded => false
  }

  /**
    With a total budget, of which `elapsed` is spent when the deadline is checked: the attempts
    stop at the first decisive one, and all sleep together is at most (1 + jitter factor) times what is left of it.
  */
  method WithExponentialBackoff(attempts: nat -> Attempt, jitter: nat -> real, factor: real, base: real, maxDelay: real,
                                maxAttempts: int, totalBudget: real, elapsed: real)
    returns (r: Result, slept: real, limit: int)
    requires base >= 0.0 && maxDelay >= 0.0 && elapsed >= 0.0 && factor >= 0.0
    requires forall i: nat :: 0.0 <= jitter(i) <= factor
    ensures r.DeadlineExceeded? <==> totalBudget - elapsed <= 0.0
    ensures !r.DeadlineExceeded? ==> Decided(attempts, limit, r)
    ensures !r.DeadlineExceeded? && base > 0.0 ==> limit >= 1 && Fits(totalBudget - elapsed, base, maxDelay, maxAttempts, limit)
    ensures SleepsBetween(r, limit, base, maxDelay, factor, slept)
    ensures 0.0 <= slept && (!r.DeadlineExceeded? ==> slept <= (1.0 + factor) * (totalBudget - elapsed))
  {
    if totalBudget - elapsed <= 0.0 { return DeadlineExceeded, 0.0, 0; }
    r, slept, limit := RetryWithin(attempts, jitter, factor, base, maxDelay, maxAttempts, totalBudget - elapsed);
  }

  /** The call with `remaining` time left. */
  method RetryWithin(attempts: nat -> Attempt, jitter: nat -> real, factor: real, base: real, maxDelay: real,
                     maxAttempts: int, remaining: real)
    returns (r: Result, slept: real, limit: int)
    requires base >= 0.0 && maxDelay >= 0.0 && remaining > 0.0 && factor >= 0.0
    requires forall i: nat :: 0.0 <= jitter(i) <= factor
    ensures Decided(attempts, limit, r) && SleepsBetween(r, limit, base, maxDelay, factor, slept)
    ensures base > 0.0 ==> limit >= 1 && Fits(remaining, base, maxDelay, maxAttempts, limit)
    ensures 0.0 <= slept <= (1.0 + factor) * remaining
  {
    limit := CalculateRetryAttempts(remaining, base, maxDelay, maxAttempts);
    r, slept := RetryLoop(attempts, jitter, factor, base, maxDelay, limit);
    SleepFits(base, maxDelay, limit, remaining, factor);
  }

  method RetryLoop(attempts: nat -> Attempt, jitter: nat -> real, factor: real, base: real, maxDelay: real, limit: int)
    returns (r: Result, slept: real)
    requires base >= 0.0 && maxDelay >= 0.0 && factor >= 0.0
    requires forall i: nat :: 0.0 <= jitter(i) <= factor
    ensures Decided(attempts, limit, r)
    ensures 0.0 <= slept <= CapTotal(base, maxDelay, 1.0 + factor, if limit < 1 then 0 else limit - 1)
    ensures SleepsBetween(r, limit, base, maxDelay, factor, slept)
  {
    slept := 0.0;
    var attempt: nat := 1;
    while attempt <= limit
      invariant 1 <= attempt && (attempt == 1 || attempt <= limit)
      invariant forall k: nat :: 1 <= k < attempt ==> attempts(k) == FailsRetryable
      invariant 0.0 <= slept <= CapTotal(base, maxDelay, 1.0 + factor, attempt - 1)
      invariant BackoffTotal(base, maxDelay, attempt - 1) <= slept
      invariant factor == 0.0 ==> slept == BackoffTotal(base, maxDelay, attempt - 1)
      decreases limit - attempt
    {
      CapTotalGrows(base, maxDelay, factor, attempt - 1, limit - 1);
      if attempts(attempt) == Succeeds { return Returned(attempt), slept; }
      if attempts(attempt) == FailsForGood { return Threw(attempt), slept; }
      if attempt == limit { break; }
      var delay := NextDelay(attempt - 1, base, maxDelay, jitter(attempt), factor);
      slept, attempt := slept + delay, attempt + 1;
    }
    r := Exhausted(limit);
  }

  lemma {:induction false} MulMonotone(a: real, x: real, y: real)
    requires a >= 0.0 && x <= y
    ensures a * x <= a * y
  {
  }

  lemma {:induction false} DoubledZero(k: nat)
    ensures Doubled(0.0, k) == 0.0
  {
    if k > 0 { DoubledZero(k - 1); }
  }

  lemma {:induction false} NoSleep(maxDelay: real, k: nat)
    requires maxDelay >= 0.0
    ensures PlannedTotal(0.0, maxDelay, k) == 0.0
  {
    if k > 0 {
      NoSleep(maxDelay, k - 1);
      DoubledZero(k - 1);
      DoubledIs(0.0, k - 1);
    }
  }

  lemma {:induction false} SleepFits(base: real, maxDelay: real, limit: int, remaining: real, factor: real)
    requires base >= 0.0 && maxDelay >= 0.0 && factor >= 0.0 && 0.0 <= remaining
    requires base > 0.0 ==> limit >= 1 && PlannedTotal(base, maxDelay, limit - 1) <= remaining
    ensures CapTotal(base, maxDelay, 1.0 + factor, if limit < 1 then 0 else limit - 1) <= (1.0 + factor) * remaining
  {
    var k := if limit < 1 then 0 else limit - 1;
    CapTotalIs(base, maxDelay, 1.0 + factor, k);
    if base == 0.0 { NoSleep(maxDelay, k); }
    MulMonotone(1.0 + factor, PlannedTotal(base, maxDelay, k), remaining);
  }
}
