/** The circuit breaker: its state after any trace of calls. */
module CircuitBreaker {
  import opened Wrappers

  datatype Mode = Closed | HalfOpen | Open

  datatype Breaker = Breaker(mode: Mode, failures: int, openedAt: Option<int>)

  datatype Config = Config(threshold: int, resetTimeout: int)

  /** What happens to a breaker, with the clock at that moment. */
  datatype Call = Ask(now: int) | Success(now: int) | Failure(now: int)

  const FRESH := Breaker(Closed, 0, None)

  function Trip(cfg: Config, now: int): Breaker { Breaker(Open, cfg.threshold, Some(now)) }

  function Step(cfg: Config, b: Breaker, c: Call): Breaker {
    match c
    case Ask(now) =>
      if b.mode.Open? && b.openedAt.Some? && now - b.openedAt.value >= cfg.resetTimeout then b.(mode := HalfOpen) else b
    case Success(_) => FRESH
    case Failure(now) =>
      if (b.mode.Closed? && b.failures + 1 >= cfg.threshold) || b.mode.HalfOpen? then Trip(cfg, now)
      else b.(failures := b.failures + 1)
  }

  function After(cfg: Config, trace: seq<Call>): Breaker {
    if |trace| == 0 then FRESH else Step(cfg, After(cfg, trace[..|trace| - 1]), trace[|trace| - 1])
  }

  // ------------------------------------------------------- reading the trace

  function FailuresSinceSuccess(trace: seq<Call>): nat {
    if |trace| == 0 then 0
    else
      var c, before := trace[|trace| - 1], FailuresSinceSuccess(trace[..|trace| - 1]);
      if c.Success? then 0 else if c.Failure? then before + 1 else before
  }

  /** The failure at position `i` opens the breaker: it reaches the threshold, or fails a probe after the timeout. */
  ghost predicate Opens(cfg: Config, trace: seq<Call>, i: int)
    decreases i
  {
    && 0 <= i < |trace| && trace[i].Failure?
    && (|| FailuresSinceSuccess(trace[..i + 1]) == cfg.threshold
        || (FailuresSinceSuccess(trace[..i]) >= cfg.threshold
            && exists j :: 0 <= j < i && OpenedLast(cfg, trace, j, i) && Probed(cfg, trace, j, i)))
  }

  /** Of the calls before `n`, the one at `j` was the last to open the breaker, and none since was a success. */
  ghost predicate OpenedLast(cfg: Config, trace: seq<Call>, j: nat, n: nat)
    decreases n, 0
  {
    && j < n <= |trace| && Opens(cfg, trace, j)
    && forall m :: j < m < n ==> !trace[m].Success? && !Opens(cfg, trace, m)
  }

  /** Between `j` and `n` someone asked, at least the reset timeout after the call at `j`. */
  ghost predicate Probed(cfg: Config, trace: seq<Call>, j: nat, n: nat) {
    j < n <= |trace| && exists k :: j < k < n && trace[k].Ask? && trace[k].now - trace[j].now >= cfg.resetTimeout
  }

  ghost predicate Chronological(trace: seq<Call>) {
    forall i, j :: 0 <= i < j < |trace| ==> trace[i].now <= trace[j].now
  }

  /** Closed exactly while the failures since the last success are fewer than the threshold. */
  lemma {:induction false} ClosedExactly(cfg: Config, trace: seq<Call>)
    requires cfg.threshold >= 1
    ensures After(cfg, trace).mode.Closed? <==> FailuresSinceSuccess(trace) < cfg.threshold
    ensures After(cfg, trace).mode.Closed? ==> After(cfg, trace).failures == FailuresSinceSuccess(trace)
  {
    if |trace| > 0 { ClosedExactly(cfg, trace[..|trace| - 1]); }
  }

  /** The threshold must be positive: otherwise a fresh breaker is closed with no failure below it. */
  lemma {:induction false} ThresholdMatters(cfg: Config)
    ensures (forall trace: seq<Call> :: After(cfg, trace).mode.Closed? <==> FailuresSinceSuccess(trace) < cfg.threshold)
       <==> cfg.threshold >= 1
  {
    if cfg.threshold >= 1 {
      forall trace: seq<Call> ensures After(cfg, trace).mode.Closed? <==> FailuresSinceSuccess(trace) < cfg.threshold {
        ClosedExactly(cfg, trace);
      }
    } else {
      var none: seq<Call> := [];
      assert After(cfg, none).mode.Closed? && FailuresSinceSuccess(none) == 0;
    }
  }

  lemma {:induction false} OpenedOnce(cfg: Config, trace: seq<Call>, i: nat, j: nat, n: nat)
    requires OpenedLast(cfg, trace, i, n) && OpenedLast(cfg, trace, j, n)
    ensures i == j
  {
  }

  /** The breaker after the first `n` calls, where the call at `j` opened it last. */
  ghost predicate OpenSince(cfg: Config, trace: seq<Call>, n: nat, j: nat, b: Breaker) {
    && OpenedLast(cfg, trace, j, n) && b.openedAt == Some(trace[j].now)
    && b.mode == if Probed(cfg, trace, j, n) then HalfOpen else Open
  }

  /** A call that neither opens nor closes the breaker. */
  lemma {:induction false} StillOpen(cfg: Config, trace: seq<Call>, n: nat, j: nat, b: Breaker)
    requires n < |trace| && OpenSince(cfg, trace, n, j, b) && !trace[n].Success?
    requires trace[n].Failure? ==> b.mode.Open? && FailuresSinceSuccess(trace[..n]) >= cfg.threshold
    ensures OpenSince(cfg, trace, n + 1, j, Step(cfg, b, trace[n]))
  {
    if trace[n].Failure? {
      assert FailuresSinceSuccess(trace[..n + 1]) > cfg.threshold by { FailuresNext(trace, n); }
      forall i: nat | i < n && OpenedLast(cfg, trace, i, n) ensures !Probed(cfg, trace, i, n) {
        OpenedOnce(cfg, trace, i, j, n);
      }
      assert !Opens(cfg, trace, n);
    }
    if Probed(cfg, trace, j, n + 1) {
      var k :| j < k < n + 1 && trace[k].Ask? && trace[k].now - trace[j].now >= cfg.resetTimeout;
      assert k < n ==> Probed(cfg, trace, j, n);
    }
    if Probed(cfg, trace, j, n) {
      var k :| j < k < n && trace[k].Ask? && trace[k].now - trace[j].now >= cfg.resetTimeout;
    }
  }

  lemma {:induction false} FailuresNext(trace: seq<Call>, n: nat)
    requires n < |trace|
    ensures FailuresSinceSuccess(trace[..n + 1]) ==
            if trace[n].Success? then 0 else FailuresSinceSuccess(trace[..n]) + if trace[n].Failure? then 1 else 0
    ensures forall cfg :: After(cfg, trace[..n + 1]) == Step(cfg, After(cfg, trace[..n]), trace[n])
  {
    assert trace[..n + 1][..n] == trace[..n];
  }

  /** While it is not closed, the breaker is as the calls since its last opening say. */
  lemma {:induction false} OpenRemembers(cfg: Config, trace: seq<Call>, n: nat) returns (j: nat)
    requires cfg.threshold >= 1 && n <= |trace| && FailuresSinceSuccess(trace[..n]) >= cfg.threshold
    ensures OpenSince(cfg, trace, n, j, After(cfg, trace[..n]))
  {
    var m := n - 1;
    FailuresNext(trace, m);
    ClosedExactly(cfg, trace[..m]);
    if FailuresSinceSuccess(trace[..m]) < cfg.threshold {
      j := m;
      assert Opens(cfg, trace, m);
    } else {
      j := OpenRemembers(cfg, trace, m);
      if trace[m].Failure? && Probed(cfg, trace, j, m) {
        j := m;
        assert Opens(cfg, trace, m);
      } else {
        StillOpen(cfg, trace, m, j, After(cfg, trace[..m]));
      }
    }
  }

  /**
    For every trace: with at least the threshold of failures since the last success, the breaker is
    open if and only if nobody asked after the timeout since it last opened, and half-open otherwise.
  */
  lemma {:induction false} OpenExactly(cfg: Config, trace: seq<Call>) returns (j: nat)
    requires cfg.threshold >= 1 && FailuresSinceSuccess(trace) >= cfg.threshold
    ensures OpenedLast(cfg, trace, j, |trace|) && After(cfg, trace).openedAt == Some(trace[j].now)
    ensures After(cfg, trace).mode.Open? <==> !Probed(cfg, trace, j, |trace|)
    ensures After(cfg, trace).mode.HalfOpen? <==> Probed(cfg, trace, j, |trace|)
  {
    assert trace[..|trace|] == trace;
    j := OpenRemembers(cfg, trace, |trace|);
  }

  /** A breaker that is not closed admits a call if and only if the reset timeout has passed since it last opened. */
  lemma {:induction false} AdmittedAfterTimeout(cfg: Config, trace: seq<Call>, now: int, j: nat)
    requires cfg.threshold >= 1 && Chronological(trace) && forall i :: 0 <= i < |trace| ==> trace[i].now <= now
    requires FailuresSinceSuccess(trace) >= cfg.threshold && OpenedLast(cfg, trace, j, |trace|)
    ensures !Step(cfg, After(cfg, trace), Ask(now)).mode.Open? <==> now - trace[j].now >= cfg.resetTimeout
  {
    var i := OpenExactly(cfg, trace);
    OpenedOnce(cfg, trace, i, j, |trace|);
    ClosedExactly(cfg, trace);
  }

  // ------------------------------------------------------------ the object

  class CircuitBreaker {
    const cfg: Config
    var mode: Mode
    var consecutiveFailures: int
    var openedAt: Option<int>

    ghost function View(): Breaker
      reads this
    {
      Breaker(mode, consecutiveFailures, openedAt)
    }

    constructor (cfg: Config)
      ensures this.cfg == cfg && View() == FRESH
    {
      this.cfg, mode, consecutiveFailures, openedAt := cfg, Closed, 0, None;
    }

    method GetState(now: int) returns (m: Mode)
      modifies this
      ensures View() == Step(cfg, old(View()), Ask(now)) && m == mode
    {
      if mode == Open && openedAt.Some? {
        if now - openedAt.value >= cfg.resetTimeout { Transition(HalfOpen, now); }
      }
      m := mode;
    }

    method RecordSuccess(now: int)
      modifies this
      ensures View() == Step(cfg, old(View()), Success(now))
    {
      consecutiveFailures, openedAt := 0, None;
      if mode != Closed { Transition(Closed, now); }
    }

    method RecordFailure(now: int)
      modifies this
      ensures View() == Step(cfg, old(View()), Failure(now))
    {
      consecutiveFailures := consecutiveFailures + 1;
      if mode == Closed && consecutiveFailures >= cfg.threshold {
        Transition(Open, now);
      } else if mode == HalfOpen {
        Transition(Open, now);
      }
    }

    method Transition(next: Mode, now: int)
      modifies this
      ensures View() == if next.Open? then Trip(cfg, now) else old(View()).(mode := next)
    {
      mode := next;
      if next == Open {
        openedAt := Some(now);
        consecutiveFailures := cfg.threshold;
      }
    }
  }
}
