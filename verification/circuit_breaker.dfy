/**
  The circuit breaker. Results arrive in any order, also those of calls made before the circuit opened,
  so a run is any sequence of availability checks, successes and failures with their clock readings.
 */
module CircuitBreaker {

  datatype CircuitState = CLOSED | OPEN | HALF_OPEN

  datatype Config = Config(failureThreshold: int, recoveryTimeout: real, halfOpenSuccessThreshold: int)

  datatype Breaker = Breaker(state: CircuitState, failures: int, successes: int, lastChange: real)

  function Initial(now: real): Breaker {
    Breaker(CLOSED, 0, 0, now)
  }

  function IsAvailable(c: Config, b: Breaker, now: real): (Breaker, bool) {
    if b.state.OPEN? then
      if now - b.lastChange >= c.recoveryTimeout then (Breaker(HALF_OPEN, b.failures, 0, now), true)
      else (b, false)
    else (b, true)
  }

  function RecordSuccess(c: Config, b: Breaker, now: real): Breaker {
    match b.state
    case HALF_OPEN =>
      if b.successes + 1 >= c.halfOpenSuccessThreshold then Breaker(CLOSED, 0, 0, now)
      else b.(successes := b.successes + 1)
    case CLOSED => b.(failures := 0)
    case OPEN => b
  }

  function RecordFailure(c: Config, b: Breaker, now: real): Breaker {
    var b' := b.(failures := b.failures + 1, lastChange := now);
    if b.state.HALF_OPEN? || b'.failures >= c.failureThreshold then b'.(state := OPEN, successes := 0) else b'
  }

  class Circuit {
    const config: Config
    var state: CircuitState
    var failureCount: int
    var successCount: int
    var lastStateChange: real

    function Value(): Breaker
      reads this
    {
      Breaker(state, failureCount, successCount, lastStateChange)
    }

    constructor (config: Config, now: real)
      ensures Value() == Initial(now) && this.config == config
    {
      this.config := config;
      state, failureCount, successCount, lastStateChange := CLOSED, 0, 0, now;
    }

    method Available(now: real) returns (yes: bool)
      modifies this
      ensures (Value(), yes) == IsAvailable(config, old(Value()), now)
    {
      if state == OPEN {
        if now - lastStateChange >= config.recoveryTimeout {
          state := HALF_OPEN;
          successCount := 0;
          lastStateChange := now;
          return true;
        }
        return false;
      }
      return true;
    }

    method Success(now: real)
      modifies this
      ensures Value() == RecordSuccess(config, old(Value()), now)
    {
      if state == HALF_OPEN {
        successCount := successCount + 1;
        if successCount >= config.halfOpenSuccessThreshold {
          state := CLOSED;
          failureCount := 0;
          successCount := 0;
          lastStateChange := now;
        }
      } else if state == CLOSED {
        failureCount := 0;
      }
    }

    method Failure(now: real)
      modifies this
      ensures Value() == RecordFailure(config, old(Value()), now)
    {
      failureCount := failureCount + 1;
      lastStateChange := now;
      if state == HALF_OPEN || failureCount >= config.failureThreshold {
        state := OPEN;
        successCount := 0;
      }
    }
  }

  // ----- runs -----

  datatype Kind = Check | Succeeded | Failed

  datatype Event = Event(kind: Kind, at: real)

  function Step(c: Config, b: Breaker, e: Event): Breaker {
    match e.kind
    case Check => IsAvailable(c, b, e.at).0
    case Succeeded => RecordSuccess(c, b, e.at)
    case Failed => RecordFailure(c, b, e.at)
  }

  /** The breaker after the first `n` events. */
  function After(c: Config, b: Breaker, trace: seq<Event>, n: nat): Breaker
    requires n <= |trace|
  {
    if n == 0 then b else Step(c, After(c, b, trace, n - 1), trace[n - 1])
  }

  /** Failure counts tell the states apart: below the threshold exactly while closed. */
  predicate CountsMatchState(c: Config, b: Breaker) {
    b.state.CLOSED? <==> b.failures < c.failureThreshold
  }

  lemma {:induction false} CountsAlwaysMatch(c: Config, start: real, trace: seq<Event>, n: nat)
    requires n <= |trace| && c.failureThreshold >= 1
    ensures CountsMatchState(c, After(c, Initial(start), trace, n))
  {
    if n > 0 {
      CountsAlwaysMatch(c, start, trace, n - 1);
    }
  }

  function SuccessesIn(trace: seq<Event>, lo: nat, hi: nat): nat
    requires lo <= hi <= |trace|
    decreases hi
  {
    if lo == hi then 0
    else SuccessesIn(trace, lo, hi - 1) + (if trace[hi - 1].kind.Succeeded? then 1 else 0)
  }

  predicate NoFailureIn(trace: seq<Event>, lo: nat, hi: nat)
    requires lo <= hi <= |trace|
  {
    forall k :: lo <= k < hi ==> !trace[k].kind.Failed?
  }

  /** Event `f` is the last failure before `n`. */
  predicate LastFailure(trace: seq<Event>, f: nat, n: nat)
    requires n <= |trace|
  {
    f < n && trace[f].kind.Failed? && NoFailureIn(trace, f + 1, n)
  }

  /** Check `i` comes a full timeout after the last failure, and nothing has failed since. */
  predicate Recovering(c: Config, trace: seq<Event>, f: nat, i: nat, n: nat)
    requires n <= |trace|
  {
    && f < i < n && LastFailure(trace, f, n)
    && trace[i].kind.Check? && trace[i].at - trace[f].at >= c.recoveryTimeout
  }

  /** While open, the clock of the timeout started at the last failure, whichever call it came from. */
  lemma {:induction false} OpenSinceLastFailure(c: Config, start: real, trace: seq<Event>, n: nat) returns (f: nat)
    requires n <= |trace| && After(c, Initial(start), trace, n).state.OPEN?
    ensures LastFailure(trace, f, n) && After(c, Initial(start), trace, n).lastChange == trace[f].at
  {
    if trace[n - 1].kind.Failed? {
      f := n - 1;
    } else {
      f := OpenSinceLastFailure(c, start, trace, n - 1);
    }
  }

  /** While half open, every success since the recovery check has been counted, and nothing else. */
  lemma {:induction false} HalfOpenCounts(c: Config, start: real, trace: seq<Event>, n: nat) returns (f: nat, i: nat)
    requires n <= |trace| && After(c, Initial(start), trace, n).state.HALF_OPEN?
    ensures Recovering(c, trace, f, i, n)
    ensures SuccessesIn(trace, i + 1, n) == After(c, Initial(start), trace, n).successes
    ensures SuccessesIn(trace, i + 1, n) == 0 || SuccessesIn(trace, i + 1, n) < c.halfOpenSuccessThreshold
  {
    if After(c, Initial(start), trace, n - 1).state.OPEN? {
      f := OpenSinceLastFailure(c, start, trace, n - 1);
      i := n - 1;
    } else {
      f, i := HalfOpenCounts(c, start, trace, n - 1);
    }
  }

  /**
    Recovery: whenever the circuit closes again, its last failure was followed, after a full recovery
    timeout, by a check, and then by exactly the required number of successes and by no failure.
   */
  lemma {:induction false} ClosesOnlyAfterRecovery(c: Config, start: real, trace: seq<Event>, n: nat)
    returns (f: nat, i: nat)
    requires n < |trace|
    requires !After(c, Initial(start), trace, n).state.CLOSED? && After(c, Initial(start), trace, n + 1).state.CLOSED?
    ensures trace[n].kind.Succeeded? && Recovering(c, trace, f, i, n + 1)
    ensures SuccessesIn(trace, i + 1, n + 1)
         == if c.halfOpenSuccessThreshold >= 1 then c.halfOpenSuccessThreshold else 1
  {
    f, i := HalfOpenCounts(c, start, trace, n);
  }

  /**
    A check turns a call away exactly while the circuit is open and the timeout since the last failure has not
    passed.
   */
  lemma {:induction false} RefusedExactlyWhileCoolingDown(c: Config, start: real, trace: seq<Event>, n: nat, now: real)
    requires n <= |trace|
    ensures !IsAvailable(c, After(c, Initial(start), trace, n), now).1
       <==> After(c, Initial(start), trace, n).state.OPEN?
            && exists f: nat :: LastFailure(trace, f, n) && now - trace[f].at < c.recoveryTimeout
  {
    if After(c, Initial(start), trace, n).state.OPEN? {
      var f := OpenSinceLastFailure(c, start, trace, n);
      forall g: nat | LastFailure(trace, g, n)
        ensures g == f
      {
      }
    }
  }

  // ----- opening and closing, both ways -----

  /** The failures since the last success, or since the start. */
  function FailedSince(trace: seq<Event>, n: nat): nat
    requires n <= |trace|
  {
    if n == 0 || trace[n - 1].kind.Succeeded? then 0
    else FailedSince(trace, n - 1) + (if trace[n - 1].kind.Failed? then 1 else 0)
  }

  /** While closed, the count is the failures in a row: any success clears it, and a check leaves it alone. */
  lemma {:induction false} ClosedCountsFailures(c: Config, start: real, trace: seq<Event>, n: nat)
    requires n <= |trace| && After(c, Initial(start), trace, n).state.CLOSED?
    ensures After(c, Initial(start), trace, n).failures == FailedSince(trace, n)
  {
    if n > 0 && After(c, Initial(start), trace, n - 1).state.CLOSED? {
      ClosedCountsFailures(c, start, trace, n - 1);
    }
  }

  /** A closed circuit opens exactly at the failure that completes the threshold with no success between. */
  lemma OpensExactlyAtThreshold(c: Config, start: real, trace: seq<Event>, n: nat)
    requires n < |trace| && c.failureThreshold >= 1 && After(c, Initial(start), trace, n).state.CLOSED?
    ensures var after := After(c, Initial(start), trace, n + 1);
            && (after.state.OPEN? <==> trace[n].kind.Failed? && FailedSince(trace, n + 1) >= c.failureThreshold)
            && (after.state.OPEN? <==> FailedSince(trace, n + 1) == c.failureThreshold)
            && !after.state.HALF_OPEN?
  {
    ClosedCountsFailures(c, start, trace, n);
    CountsAlwaysMatch(c, start, trace, n);
  }

  lemma OneLastFailure(trace: seq<Event>, f: nat, g: nat, n: nat)
    requires n <= |trace| && LastFailure(trace, f, n) && LastFailure(trace, g, n)
    ensures f == g
  {
  }

  /** How many successes close a half-open circuit. */
  function Required(c: Config): nat {
    if c.halfOpenSuccessThreshold >= 1 then c.halfOpenSuccessThreshold else 1
  }

  /**
    Recovery succeeds: after the check that ends the timeout, and while nothing fails, the circuit is half open
    until the required number of successes is in, and closed from then on.
   */
  lemma {:induction false} RecoveryCloses(c: Config, start: real, trace: seq<Event>, n: nat, m: nat, f: nat)
    requires n < m <= |trace| && After(c, Initial(start), trace, n).state.OPEN?
    requires LastFailure(trace, f, n) && trace[n].kind.Check? && trace[n].at - trace[f].at >= c.recoveryTimeout
    requires NoFailureIn(trace, n, m)
    ensures var b, passed := After(c, Initial(start), trace, m), SuccessesIn(trace, n + 1, m);
            if passed >= Required(c) then b.state.CLOSED? && b.failures == 0
            else b.state.HALF_OPEN? && b.successes == passed
    decreases m
  {
    if m == n + 1 {
      var g := OpenSinceLastFailure(c, start, trace, n);
      OneLastFailure(trace, f, g, n);
    } else {
      RecoveryCloses(c, start, trace, n, m - 1, f);
    }
  }

  /** A failure while half open opens the circuit again, whatever the counts. */
  lemma FailureReopens(c: Config, start: real, trace: seq<Event>, n: nat)
    requires n < |trace| && After(c, Initial(start), trace, n).state.HALF_OPEN? && trace[n].kind.Failed?
    ensures After(c, Initial(start), trace, n + 1).state.OPEN? && LastFailure(trace, n, n + 1)
  {
  }

  /** An open circuit stays open until a check ends its timeout; late successes do not close it. */
  lemma StaysOpen(c: Config, start: real, trace: seq<Event>, n: nat)
    requires n < |trace| && c.failureThreshold >= 1 && After(c, Initial(start), trace, n).state.OPEN?
    ensures After(c, Initial(start), trace, n + 1).state.OPEN?
       <==> !(trace[n].kind.Check? && exists f: nat :: LastFailure(trace, f, n)
                                                       && trace[n].at - trace[f].at >= c.recoveryTimeout)
  {
    CountsAlwaysMatch(c, start, trace, n);
    var f := OpenSinceLastFailure(c, start, trace, n);
    forall g: nat | LastFailure(trace, g, n)
      ensures g == f
    {
      OneLastFailure(trace, f, g, n);
    }
  }
}
