/** Retry with exponential backoff behind a circuit breaker
    (rust/src/transport/reliability.rs). Times are nanoseconds on an exact clock. */
module Reliability {
  import opened Json

  const U32_MAX: nat := 0xffff_ffff

  /** The longest representable duration. */
  const DURATION_MAX: nat := 0xffff_ffff_ffff_ffff * 1_000_000_000 + 999_999_999

  datatype Result<+T> = Ok(value: T) | Err(error: string)

  function Min(a: nat, b: nat): nat {
    if a <= b then a else b
  }

  function Max(a: nat, b: nat): nat {
    if a >= b then a else b
  }

  // ---- backoff ----

  datatype RetryPolicy = RetryPolicy(maxRetries: nat, baseDelay: nat, maxDelay: nat)

  function Pow2(n: nat): (p: nat)
    ensures p > 0
  {
    if n == 0 then 1 else 2 * Pow2(n - 1)
  }

  function CheckedMul(d: nat, factor: nat): Option<nat> {
    if d * factor <= DURATION_MAX then Some(d * factor) else None
  }

  function BackoffDelay(p: RetryPolicy, retryIndex: nat): nat {
    if p.baseDelay == 0 then 0
    else
      var multiplier := Pow2(Min(retryIndex, 16));
      Min(match CheckedMul(p.baseDelay, multiplier) case Some(d) => d case None => p.maxDelay, p.maxDelay)
  }

  /** The checked product changes nothing: the delay is the unbounded one, capped. */
  lemma BackoffIsCappedDoubling(p: RetryPolicy, i: nat)
    requires p.maxDelay <= DURATION_MAX
    ensures BackoffDelay(p, i) == Min(p.baseDelay * Pow2(Min(i, 16)), p.maxDelay)
  {
    assert p.baseDelay == 0 ==> p.baseDelay * Pow2(Min(i, 16)) == 0;
  }

  lemma {:induction false} Pow2Monotone(i: nat, j: nat)
    requires i <= j
    ensures Pow2(i) <= Pow2(j)
    decreases j
  {
    if i < j {
      Pow2Monotone(i, j - 1);
    }
  }

  lemma MulMonotone(d: nat, a: nat, b: nat)
    requires a <= b
    ensures d * a <= d * b
  {
  }

  lemma BackoffNondecreasing(p: RetryPolicy, i: nat, j: nat)
    requires p.maxDelay <= DURATION_MAX && i <= j
    ensures BackoffDelay(p, i) <= BackoffDelay(p, j) <= p.maxDelay
  {
    BackoffIsCappedDoubling(p, i);
    BackoffIsCappedDoubling(p, j);
    Pow2Monotone(Min(i, 16), Min(j, 16));
    MulMonotone(p.baseDelay, Pow2(Min(i, 16)), Pow2(Min(j, 16)));
  }

  /** The first delay is the base, each next one twice the one before up to the sixteenth, the
      later ones like that; and none is longer than the maximum. */
  lemma BackoffDoubles(p: RetryPolicy, i: nat)
    requires p.maxDelay <= DURATION_MAX
    ensures BackoffDelay(p, 0) == if p.baseDelay <= p.maxDelay then p.baseDelay else p.maxDelay
    ensures i < 16 ==>
              BackoffDelay(p, i + 1) ==
              if 2 * BackoffDelay(p, i) <= p.maxDelay then 2 * BackoffDelay(p, i) else p.maxDelay
    ensures i >= 16 ==> BackoffDelay(p, i) == BackoffDelay(p, 16)
  {
    BackoffIsCappedDoubling(p, 0);
    BackoffIsCappedDoubling(p, i);
    BackoffIsCappedDoubling(p, i + 1);
    BackoffIsCappedDoubling(p, 16);
    if i < 16 {
      DoubledProduct(p.baseDelay, Pow2(i));
    }
  }

  lemma DoubledProduct(d: nat, n: nat)
    ensures d * (2 * n) == 2 * (d * n)
  {
  }

  // ---- circuit breaker ----

  datatype BreakerPolicy = BreakerPolicy(failureThreshold: nat, cooldown: nat)

  datatype Breaker = Breaker(failures: nat, openUntil: Option<nat>)

  const CLOSED := Breaker(0, None)

  function Waited(b: Breaker): Breaker {
    if b.openUntil.Some? then CLOSED else b
  }

  /** The next failure opens the circuit. */
  predicate Trips(p: BreakerPolicy, b: Breaker) {
    p.failureThreshold != 0 && Min(b.failures + 1, U32_MAX) >= p.failureThreshold
  }

  function Failed(p: BreakerPolicy, b: Breaker, now: nat): Breaker {
    if Trips(p, b) then Breaker(0, Some(now + p.cooldown))
    else Breaker(Min(b.failures + 1, U32_MAX), b.openUntil)
  }

  class Clock {
    var now: nat

    method Sleep(d: nat)
      modifies this
      ensures now == old(now) + d
    {
      now := now + d;
    }
  }

  class CircuitBreaker {
    const policy: BreakerPolicy
    var consecutiveFailures: nat
    var openUntil: Option<nat>

    function View(): Breaker
      reads this
    {
      Breaker(consecutiveFailures, openUntil)
    }

    constructor (policy: BreakerPolicy)
      ensures this.policy == policy && View() == CLOSED
    {
      this.policy := policy;
      consecutiveFailures, openUntil := 0, None;
    }

    method WaitIfOpen(clock: Clock)
      modifies this, clock
      ensures View() == Waited(old(View()))
      ensures clock.now == match old(openUntil)
                           case Some(until) => Max(old(clock.now), until)
                           case None => old(clock.now)
    {
      if openUntil.Some? {
        var until := openUntil.value;
        if until > clock.now {
          clock.Sleep(until - clock.now);
        }
        openUntil := None;
        consecutiveFailures := 0;
      }
    }

    method RecordSuccess()
      modifies this
      ensures View() == CLOSED
    {
      consecutiveFailures := 0;
      openUntil := None;
    }

    method RecordFailure(clock: Clock) returns (cooldown: Option<nat>)
      modifies this
      ensures View() == Failed(policy, old(View()), clock.now)
      ensures cooldown == if Trips(policy, old(View())) then Some(policy.cooldown) else None
    {
      consecutiveFailures := Min(consecutiveFailures + 1, U32_MAX);
      if policy.failureThreshold == 0 || consecutiveFailures < policy.failureThreshold {
        return None;
      }
      consecutiveFailures := 0;
      openUntil := Some(clock.now + policy.cooldown);
      cooldown := Some(policy.cooldown);
    }
  }

  // ---- attempts ----

  /** What the i-th call of an operation takes and yields. */
  datatype Outcome<+T> = Outcome(duration: nat, result: Result<T>)

  datatype Attempt<+T> = Attempt(start: nat, end: nat, result: Result<T>)

  /** The breaker after a history of attempts, each waited for and recorded. */
  function Replay<T>(p: BreakerPolicy, b: Breaker, log: seq<Attempt<T>>): Breaker {
    if log == [] then b
    else
      var before := Waited(Replay(p, b, log[..|log| - 1]));
      var last := log[|log| - 1];
      if last.result.Ok? then CLOSED else Failed(p, before, last.end)
  }

  /** Histories of successive calls on one breaker join up. */
  lemma {:induction false} ReplayJoins<T>(p: BreakerPolicy, b: Breaker, first: seq<Attempt<T>>, second: seq<Attempt<T>>)
    ensures Replay(p, b, first + second) == Replay(p, Replay(p, b, first), second)
    decreases |second|
  {
    if second == [] {
      assert first + second == first;
    } else {
      assert (first + second)[..|first + second| - 1] == first + second[..|second| - 1];
      ReplayJoins(p, b, first, second[..|second| - 1]);
    }
  }

  function OpenTime(b: Breaker): nat {
    match b.openUntil case Some(until) => until case None => 0
  }

  /** The circuit was opened by the last attempt of the history. */
  predicate JustOpened<T>(p: BreakerPolicy, b: Breaker, log: seq<Attempt<T>>) {
    log != [] && log[|log| - 1].result.Err? && Replay(p, b, log).openUntil.Some?
  }

  /** What is required of an attempt made after `past` on a breaker that stood at b: it is
      the next one of the operation and takes the time that takes; it starts only when the
      circuit is not open, and exactly when the previous attempt has failed and both the
      backoff and, if that failure opened the circuit, the cooldown are over. */
  ghost predicate AttemptOk<T>(retry: RetryPolicy, p: BreakerPolicy, b: Breaker, past: seq<Attempt<T>>, a: Attempt<T>,
                               operation: nat -> Outcome<T>) {
    && a.result == operation(|past|).result && a.end == a.start + operation(|past|).duration
    && a.start >= OpenTime(Replay(p, b, past))
    && (past != [] ==>
        && past[|past| - 1].result.Err?
        && a.start == past[|past| - 1].end +
             Max(BackoffDelay(retry, |past| - 1), if JustOpened(p, b, past) then p.cooldown else 0))
  }

  ghost predicate LogOk<T>(retry: RetryPolicy, p: BreakerPolicy, b: Breaker, log: seq<Attempt<T>>,
                           operation: nat -> Outcome<T>) {
    log == [] ||
    (LogOk(retry, p, b, log[..|log| - 1], operation) &&
     AttemptOk(retry, p, b, log[..|log| - 1], log[|log| - 1], operation))
  }

  lemma Appended<T>(retry: RetryPolicy, p: BreakerPolicy, b: Breaker, log: seq<Attempt<T>>, a: Attempt<T>,
                    operation: nat -> Outcome<T>)
    requires LogOk(retry, p, b, log, operation) && AttemptOk(retry, p, b, log, a, operation)
    ensures LogOk(retry, p, b, log + [a], operation)
    ensures Replay(p, b, log + [a]) == if a.result.Ok? then CLOSED else Failed(p, Waited(Replay(p, b, log)), a.end)
  {
    assert (log + [a])[..|log|] == log;
  }

  /** What a log says about each of its attempts. */
  lemma {:induction false} EveryAttempt<T>(retry: RetryPolicy, p: BreakerPolicy, b: Breaker, log: seq<Attempt<T>>,
                                           operation: nat -> Outcome<T>, i: nat)
    requires LogOk(retry, p, b, log, operation) && i < |log|
    ensures AttemptOk(retry, p, b, log[..i], log[i], operation)
    decreases |log|
  {
    if i < |log| - 1 {
      EveryAttempt(retry, p, b, log[..|log| - 1], operation, i);
      assert log[..|log| - 1][..i] == log[..i];
    }
  }

  lemma {:induction false} LogOutcomes<T>(retry: RetryPolicy, p: BreakerPolicy, b: Breaker, log: seq<Attempt<T>>,
                                          operation: nat -> Outcome<T>)
    requires LogOk(retry, p, b, log, operation)
    ensures forall i | 0 <= i < |log| :: log[i].result == operation(i).result
    ensures forall i | 0 <= i < |log| - 1 :: log[i].result.Err?
  {
    forall i | 0 <= i < |log|
      ensures log[i].result == operation(i).result && (i < |log| - 1 ==> log[i].result.Err?)
    {
      EveryAttempt(retry, p, b, log, operation, i);
      if i < |log| - 1 {
        EveryAttempt(retry, p, b, log, operation, i + 1);
        assert log[..i + 1][i] == log[i];
      }
    }
  }

  /** After a failed attempt and its backoff, before the next wait for the circuit. */
  ghost predicate Between<T>(retry: RetryPolicy, p: BreakerPolicy, b: Breaker, log: seq<Attempt<T>>, now: nat) {
    log == [] ||
    (var last := log[|log| - 1];
     && last.result.Err?
     && now == last.end + BackoffDelay(retry, |log| - 1)
     && (b.openUntil.Some? ==> b.openUntil == Some(last.end + p.cooldown)))
  }

  /** One pass of the retry loop up to its sleep: wait for the circuit, run the operation,
      record how it went. */
  method TryOnce<T>(retry: RetryPolicy, breaker: CircuitBreaker, clock: Clock, operation: nat -> Outcome<T>,
                    ghost b: Breaker, log: seq<Attempt<T>>)
    returns (a: Attempt<T>)
    requires LogOk(retry, breaker.policy, b, log, operation)
    requires breaker.View() == Replay(breaker.policy, b, log)
    requires Between(retry, breaker.policy, breaker.View(), log, clock.now)
    modifies breaker, clock
    ensures LogOk(retry, breaker.policy, b, log + [a], operation)
    ensures breaker.View() == Replay(breaker.policy, b, log + [a])
    ensures clock.now == a.end
    ensures a.start == Max(old(clock.now), OpenTime(old(breaker.View())))
    ensures a.result.Err? && breaker.openUntil.Some? ==> breaker.openUntil == Some(a.end + breaker.policy.cooldown)
  {
    breaker.WaitIfOpen(clock);
    var start := clock.now;
    var outcome := operation(|log|);
    clock.Sleep(outcome.duration);
    a := Attempt(start, clock.now, outcome.result);
    Appended(retry, breaker.policy, b, log, a, operation);
    match outcome.result {
      case Ok(_) => breaker.RecordSuccess();
      case Err(_) => var _ := breaker.RecordFailure(clock);
    }
  }

  /** Retries until the first success or until the attempts run out, and returns that success
      or the last error. */
  method RunWithRetry<T>(retry: RetryPolicy, breaker: CircuitBreaker, clock: Clock, operation: nat -> Outcome<T>)
    returns (result: Result<T>, log: seq<Attempt<T>>)
    modifies breaker, clock
    ensures 1 <= |log| <= retry.maxRetries + 1
    ensures LogOk(retry, breaker.policy, old(breaker.View()), log, operation)
    ensures log[0].start == Max(old(clock.now), OpenTime(old(breaker.View())))
    ensures result == log[|log| - 1].result
    ensures result.Ok? || |log| == retry.maxRetries + 1
    ensures breaker.View() == Replay(breaker.policy, old(breaker.View()), log)
    ensures clock.now == log[|log| - 1].end
  {
    log := [];
    ghost var b := breaker.View();
    for attempt := 0 to retry.maxRetries + 1
      invariant |log| == attempt <= retry.maxRetries
      invariant LogOk(retry, breaker.policy, b, log, operation)
      invariant breaker.View() == Replay(breaker.policy, b, log)
      invariant Between(retry, breaker.policy, breaker.View(), log, clock.now)
      invariant if log == [] then clock.now == old(clock.now) else log[0].start == Max(old(clock.now), OpenTime(b))
    {
      var a := TryOnce(retry, breaker, clock, operation, b, log);
      log := log + [a];
      if a.result.Ok? || attempt >= retry.maxRetries {
        return a.result, log;
      }
      clock.Sleep(BackoffDelay(retry, attempt));
    }
    // Every pass but the last goes on and the last one returns: the error that follows the
    // loop in the source is never reached.
    assert false;
  }

  // ---- the whole life of a breaker ----

  function FailuresSinceSuccess<T>(log: seq<Attempt<T>>): nat {
    if log == [] || log[|log| - 1].result.Ok? then 0 else FailuresSinceSuccess(log[..|log| - 1]) + 1
  }

  function OpeningsSinceSuccess<T>(p: BreakerPolicy, log: seq<Attempt<T>>): nat {
    if log == [] || log[|log| - 1].result.Ok? then 0
    else OpeningsSinceSuccess(p, log[..|log| - 1]) + if JustOpened(p, CLOSED, log) then 1 else 0
  }

  /** Over any number of calls that share a breaker with threshold t: after f failures since
      the last success it counts f mod t and has opened f div t times; it is open exactly
      after the failure that opened it, and then counts nothing. */
  lemma {:induction false} OpeningCount<T>(p: BreakerPolicy, log: seq<Attempt<T>>)
    requires 1 <= p.failureThreshold <= U32_MAX
    ensures var b := Replay(p, CLOSED, log);
            var f := FailuresSinceSuccess(log);
            && b.failures == f % p.failureThreshold
            && OpeningsSinceSuccess(p, log) == f / p.failureThreshold
            && (b.openUntil.Some? <==> f > 0 && f % p.failureThreshold == 0)
            && (b.openUntil.Some? ==> b.openUntil == Some(log[|log| - 1].end + p.cooldown))
  {
    if log != [] {
      OpeningCount(p, log[..|log| - 1]);
      var f := FailuresSinceSuccess(log[..|log| - 1]);
      DivStep(f, p.failureThreshold);
    } else {
      DivStep(0, p.failureThreshold);
    }
  }

  lemma DivStep(f: nat, t: nat)
    requires t >= 1
    ensures 0 % t == 0 && 0 / t == 0
    ensures if f % t + 1 < t then (f + 1) % t == f % t + 1 && (f + 1) / t == f / t
            else (f + 1) % t == 0 && (f + 1) / t == f / t + 1
  {
    var q, r := f / t, f % t;
    assert f == q * t + r;
    if r + 1 < t {
      DivUnique(f + 1, t, q, r + 1);
    } else {
      assert f + 1 == (q + 1) * t + 0;
      DivUnique(f + 1, t, q + 1, 0);
    }
    DivUnique(0, t, 0, 0);
  }

  lemma DivUnique(x: nat, t: nat, q: nat, r: nat)
    requires t >= 1 && r < t && x == q * t + r
    ensures x / t == q && x % t == r
  {
    var q', r' := x / t, x % t;
    assert x == q' * t + r';
    if q' < q {
      MulMonotone(t, q' + 1, q);
    } else if q < q' {
      MulMonotone(t, q + 1, q');
    }
  }

  /** A threshold of zero switches the breaker off, however often it fails. */
  lemma {:induction false} ZeroThresholdNeverOpens<T>(p: BreakerPolicy, log: seq<Attempt<T>>)
    requires p.failureThreshold == 0
    ensures Replay(p, CLOSED, log).openUntil == None && OpeningsSinceSuccess(p, log) == 0
    ensures Replay(p, CLOSED, log).failures == Min(FailuresSinceSuccess(log), U32_MAX)
  {
    if log != [] {
      ZeroThresholdNeverOpens(p, log[..|log| - 1]);
    }
  }
}
