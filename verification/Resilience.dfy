/** Retries with backoff, the circuit breaker, and their composition (packages/resilience/src/index.ts). */
module Resilience {

  import opened Options

  // ---- Backoff ----

  datatype RetryConfig<!E> = RetryConfig(
    maxRetries: int,
    baseDelayMs: real,
    maxDelayMs: real,
    jitterFactor: real,
    isRetryable: E -> bool)

  function Pow2(n: nat): (r: nat)
    ensures r >= 1
  {
    if n == 0 then 1 else 2 * Pow2(n - 1)
  }

  /** The delay before jitter. */
  function Capped<E>(cfg: RetryConfig<E>, attempt: nat): real {
    var exponential := cfg.baseDelayMs * Pow2(attempt) as real;
    if exponential < cfg.maxDelayMs then exponential else cfg.maxDelayMs
  }

  /** `random` is the draw of `Math.random()`. */
  function CalculateDelay<E>(cfg: RetryConfig<E>, attempt: nat, random: real): (d: int)
    ensures d >= 0
  {
    var capped := Capped(cfg, attempt);
    Jittered(capped, capped * cfg.jitterFactor, random)
  }

  function Jittered(capped: real, spread: real, random: real): (d: int)
    ensures d >= 0
  {
    var jitter := spread * (random * 2.0 - 1.0);
    var delay := (capped + jitter).Floor;
    if delay < 0 then 0 else delay
  }

  predicate Sensible<E>(cfg: RetryConfig<E>) {
    cfg.baseDelayMs >= 0.0 && cfg.maxDelayMs >= 0.0 && cfg.jitterFactor >= 0.0
  }

  predicate Draws(rand: nat -> real, i: nat) {
    0.0 <= rand(i) < 1.0
  }

  lemma CappedNonNegative<E>(cfg: RetryConfig<E>, attempt: nat)
    requires Sensible(cfg)
    ensures Capped(cfg, attempt) >= 0.0
  {
  }

  lemma Swing(spread: real, swing: real) returns (jitter: real)
    requires spread >= 0.0 && -1.0 <= swing <= 1.0
    ensures jitter == spread * swing && -spread <= jitter <= spread
  {
    jitter := spread * swing;
  }

  /** Every delay lies in the jitter band around its capped exponential, rounded down. */
  lemma DelayInBand<E>(cfg: RetryConfig<E>, attempt: nat, random: real)
    requires Sensible(cfg) && 0.0 <= random < 1.0
    ensures
      var capped := Capped(cfg, attempt);
      var delay := CalculateDelay(cfg, attempt, random) as real;
      capped * (1.0 - cfg.jitterFactor) - 1.0 < delay <= capped * (1.0 + cfg.jitterFactor)
  {
    var capped := Capped(cfg, attempt);
    var spread := capped * cfg.jitterFactor;
    CappedNonNegative(cfg, attempt);
    var jitter := Swing(spread, random * 2.0 - 1.0);
  }

  /** The capped delay starts at `baseDelayMs` and doubles from attempt to attempt until it meets the cap. */
  lemma CappedDoubles<E>(cfg: RetryConfig<E>, attempt: nat)
    requires cfg.baseDelayMs >= 0.0 && cfg.maxDelayMs >= 0.0
    ensures Capped(cfg, 0) == if cfg.baseDelayMs < cfg.maxDelayMs then cfg.baseDelayMs else cfg.maxDelayMs
    ensures
      var twice := 2.0 * Capped(cfg, attempt);
      Capped(cfg, attempt + 1) == if twice < cfg.maxDelayMs then twice else cfg.maxDelayMs
  {
    assert Pow2(attempt + 1) == 2 * Pow2(attempt);
    assert cfg.baseDelayMs * Pow2(attempt + 1) as real == 2.0 * (cfg.baseDelayMs * Pow2(attempt) as real);
  }

  /** How far above the lower end of its band a delay is drawn. */
  function Rise(spread: real, random: real): real { random * (2.0 * spread) }

  /** A draw of 0 gives the lower end of the band, one half its middle, and in between the delay follows the draw. */
  lemma DelayFollowsDraw<E>(cfg: RetryConfig<E>, attempt: nat, random: real, capped: real, spread: real)
    requires Sensible(cfg) && cfg.jitterFactor <= 1.0 && 0.0 <= random < 1.0
    requires capped == Capped(cfg, attempt) && spread == capped * cfg.jitterFactor
    ensures
      var delay := CalculateDelay(cfg, attempt, random) as real;
      delay <= capped - spread + Rise(spread, random) < delay + 1.0
  {
    CappedNonNegative(cfg, attempt);
    Scaled(capped, cfg.jitterFactor, spread);
    JitterFollows(capped, spread, random);
  }

  lemma JitterFollows(capped: real, spread: real, random: real)
    requires 0.0 <= spread <= capped && 0.0 <= random < 1.0
    ensures
      var delay := Jittered(capped, spread, random) as real;
      delay <= capped - spread + Rise(spread, random) < delay + 1.0
  {
    var jitter := Drawn(spread, random);
  }

  lemma Drawn(spread: real, random: real) returns (jitter: real)
    requires spread >= 0.0 && random >= 0.0
    ensures jitter == spread * (random * 2.0 - 1.0) && jitter == Rise(spread, random) - spread >= -spread
  {
    jitter := spread * (random * 2.0 - 1.0);
  }

  lemma Scaled(x: real, factor: real, y: real)
    requires x >= 0.0 && 0.0 <= factor <= 1.0 && y == x * factor
    ensures 0.0 <= y <= x
  {
  }

  function SumDelays(delay: nat -> int, n: nat): int {
    if n == 0 then 0 else SumDelays(delay, n - 1) + delay(n - 1)
  }

  function SumReals(x: nat -> real, n: nat): real {
    if n == 0 then 0.0 else SumReals(x, n - 1) + x(n - 1)
  }

  function Delays<E>(cfg: RetryConfig<E>, rand: nat -> real): nat -> int {
    (i: nat) => CalculateDelay(cfg, i, rand(i))
  }

  function Caps<E>(cfg: RetryConfig<E>): nat -> real {
    (i: nat) => Capped(cfg, i)
  }

  /** The sum of the first `n` delays. */
  function TotalDelay<E>(cfg: RetryConfig<E>, rand: nat -> real, n: nat): int {
    SumDelays(Delays(cfg, rand), n)
  }

  function CappedSum<E>(cfg: RetryConfig<E>, n: nat): real {
    SumReals(Caps(cfg), n)
  }

  /** The capped sum is below the uncapped geometric one. */
  lemma {:induction false} CappedSumGeometric<E>(cfg: RetryConfig<E>, n: nat)
    ensures CappedSum(cfg, n) <= cfg.baseDelayMs * (Pow2(n) - 1) as real
  {
    if n > 0 {
      CappedSumGeometric(cfg, n - 1);
    }
  }

  /** ... and below `n` times the cap. */
  lemma {:induction false} CappedSumLinear<E>(cfg: RetryConfig<E>, n: nat)
    ensures CappedSum(cfg, n) <= n as real * cfg.maxDelayMs
  {
    if n > 0 {
      CappedSumLinear(cfg, n - 1);
      assert n as real == (n - 1) as real + 1.0;
    }
  }

  ghost predicate InBand(delay: nat -> int, x: nat -> real, f: real, i: nat) {
    delay(i) as real <= x(i) * f
  }

  lemma {:induction false} SumsInBand(delay: nat -> int, x: nat -> real, f: real, n: nat)
    requires forall i: nat :: InBand(delay, x, f, i)
    ensures SumDelays(delay, n) as real <= SumReals(x, n) * f
  {
    if n > 0 {
      SumsInBand(delay, x, f, n - 1);
      assert InBand(delay, x, f, n - 1);
    }
  }

  lemma DelaysInBand<E>(cfg: RetryConfig<E>, rand: nat -> real, f: real)
    requires Sensible(cfg) && f == 1.0 + cfg.jitterFactor
    requires forall i: nat :: Draws(rand, i)
    ensures forall i: nat :: InBand(Delays(cfg, rand), Caps(cfg), f, i)
  {
    forall i: nat ensures InBand(Delays(cfg, rand), Caps(cfg), f, i) {
      assert Draws(rand, i);
      DelayInBand(cfg, i, rand(i));
    }
  }

  /** `n` delays add up to at most `1 + jitterFactor` times the capped geometric sum. */
  lemma TotalDelayBounded<E>(cfg: RetryConfig<E>, rand: nat -> real, n: nat, f: real)
    requires Sensible(cfg) && f == 1.0 + cfg.jitterFactor && forall i: nat :: Draws(rand, i)
    ensures TotalDelay(cfg, rand, n) as real <= CappedSum(cfg, n) * f
  {
    DelaysInBand(cfg, rand, f);
    SumsInBand(Delays(cfg, rand), Caps(cfg), f, n);
  }

  // ---- Retry ----

  datatype Outcome<+T, +E> = Returns(value: T) | Throws(error: E)

  datatype RetryResult<+T, +E> = RetryResult(success: bool, value: Option<T>, error: Option<E>, attempts: nat, totalDelayMs: int)

  /** Invocation `i` of the function ends the retrying. */
  predicate Stops<T, E>(cfg: RetryConfig<E>, fn: nat -> Outcome<T, E>, i: nat) {
    i >= cfg.maxRetries || fn(i).Returns? || !cfg.isRetryable(fn(i).error)
  }

  /** `fn(i)` is the outcome of the i-th invocation, `rand(i)` the i-th draw. */
  method WithRetry<T, E>(cfg: RetryConfig<E>, fn: nat -> Outcome<T, E>, rand: nat -> real) returns (r: RetryResult<T, E>)
    ensures cfg.maxRetries < 0 ==> r == RetryResult(false, None, None, 0, 0)
    ensures cfg.maxRetries >= 0 ==>
      && 1 <= r.attempts <= cfg.maxRetries + 1
      && Stops(cfg, fn, r.attempts - 1)
      && (forall i: nat :: i < r.attempts - 1 ==> !Stops(cfg, fn, i))
      && r.totalDelayMs == TotalDelay(cfg, rand, r.attempts - 1)
      && r.success == fn(r.attempts - 1).Returns?
      && (r.success ==> r.value == Some(fn(r.attempts - 1).value) && r.error == None)
      && (!r.success ==> r.value == None && r.error == Some(fn(r.attempts - 1).error))
  {
    var lastError: Option<E> := None;
    var totalDelayMs := 0;
    var actualAttempts := 0;
    var attempt := 0;
    while attempt <= cfg.maxRetries
      invariant attempt >= 0 && actualAttempts == attempt
      invariant attempt == 0 ==> lastError == None
      invariant cfg.maxRetries < 0 ==> attempt == 0
      invariant cfg.maxRetries >= 0 ==> attempt <= cfg.maxRetries
      invariant forall i: nat :: i < attempt ==> !Stops(cfg, fn, i)
      invariant totalDelayMs == TotalDelay(cfg, rand, attempt)
    {
      actualAttempts := attempt + 1;
      var outcome := fn(attempt);
      if outcome.Returns? {
        return RetryResult(true, Some(outcome.value), None, actualAttempts, totalDelayMs);
      }
      lastError := Some(outcome.error);
      if attempt < cfg.maxRetries && cfg.isRetryable(outcome.error) {
        totalDelayMs := totalDelayMs + CalculateDelay(cfg, attempt, rand(attempt));
      } else {
        break;
      }
      attempt := attempt + 1;
    }
    r := RetryResult(false, None, lastError, actualAttempts, totalDelayMs);
  }

  // ---- The circuit breaker ----

  datatype Circuit = Closed | Open | HalfOpen

  datatype BreakerConfig = BreakerConfig(failureThreshold: int, resetTimeoutMs: int, successThreshold: int)

  datatype Breaker = Breaker(state: Circuit, failures: int, successes: int, lastFailureTime: int)

  const FRESH := Breaker(Closed, 0, 0, 0)

  function TransitionTo(b: Breaker, state: Circuit): Breaker {
    if b.state == state then b
    else
      match state
      case Closed => b.(state := Closed, failures := 0, successes := 0)
      case HalfOpen => b.(state := HalfOpen, successes := 0)
      case Open => b.(state := Open)
  }

  predicate Admits(cfg: BreakerConfig, b: Breaker, now: int) {
    b.state == Open ==> now - b.lastFailureTime >= cfg.resetTimeoutMs
  }

  function Allowed(cfg: BreakerConfig, b: Breaker, now: int): Breaker {
    if b.state == Open && Admits(cfg, b, now) then TransitionTo(b, HalfOpen) else b
  }

  function Succeeded(cfg: BreakerConfig, b: Breaker): Breaker {
    match b.state
    case HalfOpen =>
      var b' := b.(successes := b.successes + 1);
      if b'.successes >= cfg.successThreshold then TransitionTo(b', Closed) else b'
    case Closed => b.(failures := 0)
    case Open => b
  }

  function Failed(cfg: BreakerConfig, b: Breaker, counted: bool, now: int): Breaker {
    if !counted then b
    else
      var b' := b.(failures := b.failures + 1, lastFailureTime := now);
      if b.state == HalfOpen || (b.state == Closed && b'.failures >= cfg.failureThreshold)
      then TransitionTo(b', Open)
      else b'
  }

  class CircuitBreaker {
    var state: Circuit
    var failures: int
    var successes: int
    var lastFailureTime: int
    const config: BreakerConfig

    function View(): Breaker
      reads this
    {
      Breaker(state, failures, successes, lastFailureTime)
    }

    constructor (config: BreakerConfig)
      ensures View() == FRESH && this.config == config
    {
      this.config := config;
      state, failures, successes, lastFailureTime := Closed, 0, 0, 0;
    }

    method Transition(newState: Circuit)
      modifies this
      ensures View() == TransitionTo(old(View()), newState)
    {
      if state == newState {
        return;
      }
      state := newState;
      if newState == Closed {
        failures := 0;
        successes := 0;
      } else if newState == HalfOpen {
        successes := 0;
      }
    }

    method IsAllowed(now: int) returns (allowed: bool)
      modifies this
      ensures allowed == Admits(config, old(View()), now)
      ensures View() == Allowed(config, old(View()), now)
    {
      if state == Closed {
        return true;
      }
      if state == Open {
        var elapsed := now - lastFailureTime;
        if elapsed >= config.resetTimeoutMs {
          Transition(HalfOpen);
          return true;
        }
        return false;
      }
      return true;
    }

    method RecordSuccess()
      modifies this
      ensures View() == Succeeded(config, old(View()))
    {
      if state == HalfOpen {
        successes := successes + 1;
        if successes >= config.successThreshold {
          Transition(Closed);
        }
      } else if state == Closed {
        failures := 0;
      }
    }

    /** `counted` is `config.isFailure(error)`. */
    method RecordFailure(counted: bool, now: int)
      modifies this
      ensures View() == Failed(config, old(View()), counted, now)
    {
      if !counted {
        return;
      }
      failures := failures + 1;
      lastFailureTime := now;
      if state == HalfOpen {
        Transition(Open);
      } else if state == Closed && failures >= config.failureThreshold {
        Transition(Open);
      }
    }

    method Reset()
      modifies this
      ensures View() == TransitionTo(old(View()), Closed)
    {
      Transition(Closed);
    }
  }

  // ---- Every history of a breaker ----

  datatype Event = Allow(now: int) | Success | Failure(counted: bool, now: int) | Reset

  function Step(cfg: BreakerConfig, b: Breaker, e: Event): Breaker {
    match e
    case Allow(now) => Allowed(cfg, b, now)
    case Success => Succeeded(cfg, b)
    case Failure(counted, now) => Failed(cfg, b, counted, now)
    case Reset => TransitionTo(b, Closed)
  }

  /** A fresh breaker after a history, late completions included: any event may come in any state. */
  function After(cfg: BreakerConfig, history: seq<Event>): Breaker {
    if history == [] then FRESH
    else Step(cfg, After(cfg, history[..|history| - 1]), history[|history| - 1])
  }

  /** Closed is exactly "fewer failures than the threshold", after every history, if the threshold is positive. */
  lemma {:induction false} ClosedBelowThreshold(cfg: BreakerConfig, history: seq<Event>)
    requires cfg.failureThreshold >= 1
    ensures
      var b := After(cfg, history);
      b.failures >= 0 && (b.state == Closed <==> b.failures < cfg.failureThreshold)
  {
    if history != [] {
      ClosedBelowThreshold(cfg, history[..|history| - 1]);
    }
  }

  ghost predicate ClosedMeansBelow(cfg: BreakerConfig) {
    forall history :: After(cfg, history).state == Closed <==> After(cfg, history).failures < cfg.failureThreshold
  }

  lemma ClosedBelowThresholdExactly(cfg: BreakerConfig)
    ensures ClosedMeansBelow(cfg) <==> cfg.failureThreshold >= 1
  {
    if cfg.failureThreshold >= 1 {
      forall history ensures After(cfg, history).state == Closed <==> After(cfg, history).failures < cfg.failureThreshold {
        ClosedBelowThreshold(cfg, history);
      }
    } else {
      assert After(cfg, []) == FRESH;
    }
  }

  /** A half-open breaker has not yet seen enough successes to close. */
  lemma {:induction false} HalfOpenBelowSuccesses(cfg: BreakerConfig, history: seq<Event>)
    requires cfg.successThreshold >= 1
    ensures After(cfg, history).state == HalfOpen ==> 0 <= After(cfg, history).successes < cfg.successThreshold
  {
    if history != [] {
      HalfOpenBelowSuccesses(cfg, history[..|history| - 1]);
    }
  }

  /** The last event of the history is a success of a closed breaker, or closes it. */
  predicate Clears(cfg: BreakerConfig, history: seq<Event>)
    requires history != []
  {
    var last := |history| - 1;
    || (After(cfg, history[..last]).state == Closed && history[last].Success?)
    || (After(cfg, history[..last]).state != Closed && After(cfg, history).state == Closed)
  }

  /** How much of the history the last clearing event puts behind it. */
  function Cleared(cfg: BreakerConfig, history: seq<Event>): (n: nat)
    ensures n <= |history|
  {
    if history == [] then 0
    else if Clears(cfg, history) then |history|
    else Cleared(cfg, history[..|history| - 1])
  }

  function CountedFailures(events: seq<Event>): nat {
    if events == [] then 0
    else
      var last := |events| - 1;
      CountedFailures(events[..last]) + (if events[last].Failure? && events[last].counted then 1 else 0)
  }

  /** In every state `failures` counts the counted failures since the last success while closed, or the last close. */
  lemma {:induction false} FailuresAreTheRun(cfg: BreakerConfig, history: seq<Event>)
    ensures After(cfg, history).failures == CountedFailures(history[Cleared(cfg, history)..])
  {
    if history != [] {
      var last := |history| - 1;
      var before := history[..last];
      if Clears(cfg, history) {
        assert history[|history|..] == [];
      } else {
        FailuresAreTheRun(cfg, before);
        var run := history[Cleared(cfg, history)..];
        assert run[..|run| - 1] == before[Cleared(cfg, before)..];
        assert run[|run| - 1] == history[last];
      }
    }
  }

  /** How much of the history lies before the trial calls of a half-open breaker: up to where it last became half-open. */
  function TrialStart(cfg: BreakerConfig, history: seq<Event>): (n: nat)
    ensures n <= |history|
  {
    if history == [] then 0
    else
      var front := history[..|history| - 1];
      if After(cfg, history).state == HalfOpen && After(cfg, front).state != HalfOpen then |history| else TrialStart(cfg, front)
  }

  function SuccessCount(events: seq<Event>): nat {
    if events == [] then 0
    else SuccessCount(events[..|events| - 1]) + (if events[|events| - 1].Success? then 1 else 0)
  }

  /** In half-open, `successes` counts the successes since the breaker became half-open. */
  lemma {:induction false} SuccessesAreTheTrials(cfg: BreakerConfig, history: seq<Event>)
    requires After(cfg, history).state == HalfOpen
    ensures After(cfg, history).successes == SuccessCount(history[TrialStart(cfg, history)..])
  {
    if history != [] {
      var last := |history| - 1;
      var before := history[..last];
      if After(cfg, before).state != HalfOpen {
        assert history[|history|..] == [];
      } else {
        SuccessesAreTheTrials(cfg, before);
        var trials := history[TrialStart(cfg, history)..];
        assert trials[..|trials| - 1] == before[TrialStart(cfg, before)..];
        assert trials[|trials| - 1] == history[last];
      }
    }
  }

  function Successes(k: nat): seq<Event> { seq(k, _ => Success) }

  lemma {:induction false} AfterSuccesses(cfg: BreakerConfig, history: seq<Event>, k: nat)
    requires After(cfg, history).state == HalfOpen && k >= 1
    ensures
      var (before, after) := (After(cfg, history), After(cfg, history + Successes(k)));
      if before.successes + k >= cfg.successThreshold then after.state == Closed
      else after.state == HalfOpen && after.successes == before.successes + k
  {
    var front := history + Successes(k - 1);
    assert history + Successes(k) == front + [Success];
    AfterOne(cfg, front, Success);
    if k > 1 {
      AfterSuccesses(cfg, history, k - 1);
    } else {
      assert front == history;
    }
  }

  /** So many successes close a half-open breaker exactly if with those seen they reach the threshold. */
  lemma SuccessesClose(cfg: BreakerConfig, history: seq<Event>, k: nat)
    requires After(cfg, history).state == HalfOpen && k >= 1
    ensures After(cfg, history + Successes(k)).state == Closed <==>
              SuccessCount(history[TrialStart(cfg, history)..]) + k >= cfg.successThreshold
  {
    SuccessesAreTheTrials(cfg, history);
    AfterSuccesses(cfg, history, k);
  }

  /** A counted failure ends the trials of a half-open breaker; one that is not counted never changes anything. */
  lemma FailureEndsTrials(cfg: BreakerConfig, history: seq<Event>, now: int)
    ensures After(cfg, history).state == HalfOpen ==> After(cfg, history + [Failure(true, now)]).state == Open
    ensures After(cfg, history + [Failure(false, now)]) == After(cfg, history)
  {
    AfterOne(cfg, history, Failure(true, now));
    AfterOne(cfg, history, Failure(false, now));
  }

  /** The time of the last counted failure of the history, 0 if there was none. */
  function LastFailure(history: seq<Event>): int {
    if history == [] then 0
    else
      var last := |history| - 1;
      if history[last].Failure? && history[last].counted then history[last].now else LastFailure(history[..last])
  }

  lemma {:induction false} RemembersLastFailure(cfg: BreakerConfig, history: seq<Event>)
    ensures After(cfg, history).lastFailureTime == LastFailure(history)
  {
    if history != [] {
      RemembersLastFailure(cfg, history[..|history| - 1]);
    }
  }

  /** An open breaker admits a call exactly from `resetTimeoutMs` after the last counted failure on. */
  lemma OpenAdmitsAfterTimeout(cfg: BreakerConfig, history: seq<Event>, now: int)
    requires After(cfg, history).state == Open
    ensures Admits(cfg, After(cfg, history), now) <==> now >= LastFailure(history) + cfg.resetTimeoutMs
    ensures Admits(cfg, After(cfg, history), now) <==> After(cfg, history + [Allow(now)]).state == HalfOpen
  {
    RemembersLastFailure(cfg, history);
    assert (history + [Allow(now)])[..|history|] == history;
  }

  function Failures(n: nat, now: int): seq<Event> { seq(n, _ => Failure(true, now)) }

  lemma {:induction false} AfterFailures(cfg: BreakerConfig, n: nat, now: int)
    requires n < cfg.failureThreshold
    ensures After(cfg, Failures(n, now)) == Breaker(Closed, n, 0, if n == 0 then 0 else now)
  {
    if n > 0 {
      AfterFailures(cfg, n - 1, now);
      assert Failures(n, now)[..n - 1] == Failures(n - 1, now);
    }
  }

  /** `reset()` does not forgive the failures of a breaker that is still closed: the next one opens it. */
  lemma ResetForgetsNothingWhenClosed(cfg: BreakerConfig, now: int)
    requires cfg.failureThreshold >= 2
    ensures
      var history := Failures(cfg.failureThreshold - 1, now) + [Reset];
      && After(cfg, history).state == Closed
      && After(cfg, history + [Failure(true, now)]).state == Open
  {
    var run := Failures(cfg.failureThreshold - 1, now);
    AfterFailures(cfg, |run|, now);
    assert (run + [Reset])[..|run|] == run;
    assert (run + [Reset] + [Failure(true, now)])[..|run| + 1] == run + [Reset];
  }

  lemma AfterOne(cfg: BreakerConfig, history: seq<Event>, e: Event)
    ensures After(cfg, history + [e]) == Step(cfg, After(cfg, history), e)
  {
    assert (history + [e])[..|history|] == history;
  }

  lemma {:induction false} FailuresNonNegative(cfg: BreakerConfig, history: seq<Event>)
    ensures After(cfg, history).failures >= 0 && After(cfg, history).successes >= 0
  {
    if history != [] {
      FailuresNonNegative(cfg, history[..|history| - 1]);
    }
  }

  /** A reset forgets the failures exactly if it closes the breaker or there were none. */
  lemma ResetForgetsExactly(cfg: BreakerConfig, history: seq<Event>)
    ensures After(cfg, history + [Reset]).state == Closed
    ensures After(cfg, history + [Reset]).failures == 0 <==>
              After(cfg, history).state != Closed || After(cfg, history).failures == 0
  {
    AfterOne(cfg, history, Reset);
  }

  /** After a reset the next counted failure opens the breaker exactly if it is enough on top of the failures not forgotten. */
  lemma FailureAfterReset(cfg: BreakerConfig, history: seq<Event>, now: int)
    ensures
      var before := After(cfg, history);
      var kept := if before.state == Closed then before.failures else 0;
      After(cfg, history + [Reset] + [Failure(true, now)]).state == Open <==> kept + 1 >= cfg.failureThreshold
  {
    AfterOne(cfg, history, Reset);
    AfterOne(cfg, history + [Reset], Failure(true, now));
  }

  /** Enough failures and the timeout make a breaker half-open. */
  lemma ReachesHalfOpen(cfg: BreakerConfig) returns (history: seq<Event>)
    ensures After(cfg, history).state == HalfOpen && After(cfg, history).successes == 0
  {
    var n := if cfg.failureThreshold < 1 then 0 else cfg.failureThreshold - 1;
    var run := Failures(n, 0);
    if n == 0 {
      assert After(cfg, run) == FRESH;
    } else {
      AfterFailures(cfg, n, 0);
    }
    AfterOne(cfg, run, Failure(true, 0));
    history := run + [Failure(true, 0)] + [Allow(if cfg.resetTimeoutMs < 0 then 0 else cfg.resetTimeoutMs)];
    AfterOne(cfg, run + [Failure(true, 0)], Allow(if cfg.resetTimeoutMs < 0 then 0 else cfg.resetTimeoutMs));
  }

  ghost predicate HalfOpenMeansBelow(cfg: BreakerConfig) {
    forall history :: After(cfg, history).state == HalfOpen ==> After(cfg, history).successes < cfg.successThreshold
  }

  /** This bound holds for all histories exactly if the threshold is positive. */
  lemma HalfOpenBelowSuccessesExactly(cfg: BreakerConfig)
    ensures HalfOpenMeansBelow(cfg) <==> cfg.successThreshold >= 1
  {
    if cfg.successThreshold >= 1 {
      forall history ensures After(cfg, history).state == HalfOpen ==> After(cfg, history).successes < cfg.successThreshold {
        HalfOpenBelowSuccesses(cfg, history);
      }
    } else {
      var history := ReachesHalfOpen(cfg);
      assert After(cfg, history).state == HalfOpen;
    }
  }

  // ---- Retry behind a breaker ----

  datatype CallResult<+T, +E> = Refused(remainingMs: int, failures: int) | Returned(value: T) | Threw(error: Option<E>)

  /** What the caller sees after so many invocations. */
  function Verdict<T, E>(fn: nat -> Outcome<T, E>, invocations: nat): (r: CallResult<T, E>)
    ensures !r.Refused?
  {
    if invocations == 0 then Threw(None)
    else
      match fn(invocations - 1)
      case Returns(v) => Returned(v)
      case Throws(e) => Threw(Some(e))
  }

  /** `resilient`: `start` and `end` are the clock when the call is checked and when its outcome is recorded. */
  method Resilient<T, E>(breaker: CircuitBreaker, isFailure: Option<E> -> bool, cfg: RetryConfig<E>,
                         fn: nat -> Outcome<T, E>, rand: nat -> real, start: int, end: int)
      returns (r: CallResult<T, E>, invocations: nat)
    modifies breaker
    ensures
      var before := old(breaker.View());
      var allowed := Allowed(breaker.config, before, start);
      if !Admits(breaker.config, before, start) then
        && r.Refused? && r.failures == before.failures
        && r.remainingMs == before.lastFailureTime + breaker.config.resetTimeoutMs - start > 0
        && invocations == 0 && breaker.View() == before
      else
        && invocations <= (if cfg.maxRetries < 0 then 0 else cfg.maxRetries + 1)
        && (cfg.maxRetries >= 0 ==> invocations > 0 && Stops(cfg, fn, invocations - 1))
        && (forall i: nat :: i < invocations - 1 ==> !Stops(cfg, fn, i))
        && r == Verdict(fn, invocations)
        && breaker.View() == if r.Returned? then Succeeded(breaker.config, allowed)
                             else Failed(breaker.config, allowed, isFailure(r.error), end)
  {
    var allowed := breaker.IsAllowed(start);
    if !allowed {
      var elapsed := start - breaker.lastFailureTime;
      var remaining := breaker.config.resetTimeoutMs - elapsed;
      return Refused(if remaining < 0 then 0 else remaining, breaker.failures), 0;
    }
    var result := WithRetry(cfg, fn, rand);
    if result.success {
      breaker.RecordSuccess();
      return Returned(result.value.value), result.attempts;
    } else {
      breaker.RecordFailure(isFailure(result.error), end);
      return Threw(result.error), result.attempts;
    }
  }

  // ---- A whole outage ----

  /** One call of the wrapper: when it starts, when its failure is recorded, how often it invokes the function. */
  datatype Call = Call(start: int, end: int, invocations: nat)

  /** Calls follow one another on a monotone clock, each within its retry budget. */
  predicate Sequential(calls: seq<Call>, budget: nat) {
    && (forall i :: 0 <= i < |calls| ==> calls[i].start <= calls[i].end && calls[i].invocations <= budget)
    && (forall i :: 0 < i < |calls| ==> calls[i - 1].end <= calls[i].start)
  }

  /** The breaker after the calls, all of whose invocations fail with counted errors, and the admitted calls. */
  function Outage(cfg: BreakerConfig, calls: seq<Call>): (Breaker, seq<Call>) {
    if calls == [] then (FRESH, [])
    else
      var (b, admitted) := Outage(cfg, calls[..|calls| - 1]);
      var c := calls[|calls| - 1];
      if Admits(cfg, b, c.start) then (Failed(cfg, Allowed(cfg, b, c.start), true, c.end), admitted + [c])
      else (b, admitted)
  }

  function Invocations(calls: seq<Call>): nat {
    if calls == [] then 0 else Invocations(calls[..|calls| - 1]) + calls[|calls| - 1].invocations
  }

  /** The failures it takes to open: a threshold below one acts like one. */
  function Opening(cfg: BreakerConfig): (n: nat)
    ensures n >= 1
  {
    if cfg.failureThreshold < 1 then 1 else cfg.failureThreshold
  }

  /**
   What an outage does to the breaker: every admitted call is one more failure, the breaker is open from `Opening`
   failures on, and from then on each admitted call starts at least `resetTimeoutMs` after the end of the last one.
   */
  lemma {:induction false} OutageSteps(cfg: BreakerConfig, calls: seq<Call>, budget: nat)
    requires Sequential(calls, budget)
    ensures
      var (b, admitted) := Outage(cfg, calls);
      && b.failures == |admitted|
      && b.state == (if |admitted| < Opening(cfg) then Closed else Open)
      && (admitted != [] ==> b.lastFailureTime == admitted[|admitted| - 1].end)
      && (forall c <- admitted :: c.start <= c.end && c.invocations <= budget)
      && (forall i :: Opening(cfg) <= i < |admitted| ==> admitted[i].start - admitted[i - 1].end >= cfg.resetTimeoutMs)
  {
    if calls != [] {
      OutageSteps(cfg, calls[..|calls| - 1], budget);
    }
  }

  /** From the first opening on, admitted calls that start `resetTimeoutMs` apart take that much time. */
  lemma {:induction false} SpacedOut(cfg: BreakerConfig, calls: seq<Call>, budget: nat)
    requires |calls| >= Opening(cfg)
    requires forall c <- calls :: c.start <= c.end && c.invocations <= budget
    requires forall i :: Opening(cfg) <= i < |calls| ==> calls[i].start - calls[i - 1].end >= cfg.resetTimeoutMs
    ensures (|calls| - Opening(cfg)) * cfg.resetTimeoutMs <=
      (if |calls| == Opening(cfg) then 0 else calls[|calls| - 1].start - calls[Opening(cfg) - 1].end)
  {
    if |calls| > Opening(cfg) {
      var before := calls[..|calls| - 1];
      SpacedOut(cfg, before, budget);
      var gap := |before| - Opening(cfg);
      assert (gap + 1) * cfg.resetTimeoutMs == gap * cfg.resetTimeoutMs + cfg.resetTimeoutMs;
      assert before[|before| - 1] in calls;
    }
  }

  lemma {:induction false} InvocationsBounded(calls: seq<Call>, budget: nat)
    requires forall c <- calls :: c.invocations <= budget
    ensures Invocations(calls) <= |calls| * budget
  {
    if calls != [] {
      InvocationsBounded(calls[..|calls| - 1], budget);
      assert calls[|calls| - 1] in calls;
      assert |calls| * budget == (|calls| - 1) * budget + budget;
    }
  }

  /** How long the outage lasts: from the first opening to the start of the last admitted call. */
  function Span(cfg: BreakerConfig, admitted: seq<Call>): int {
    if |admitted| <= Opening(cfg) then 0 else admitted[|admitted| - 1].start - admitted[Opening(cfg) - 1].end
  }

  /** So many calls fit into the span they take. */
  lemma AdmittedBounded(cfg: BreakerConfig, admitted: seq<Call>, budget: nat)
    requires cfg.resetTimeoutMs > 0 && forall c <- admitted :: c.start <= c.end && c.invocations <= budget
    requires forall i :: Opening(cfg) <= i < |admitted| ==> admitted[i].start - admitted[i - 1].end >= cfg.resetTimeoutMs
    ensures Span(cfg, admitted) >= 0 && |admitted| <= Opening(cfg) + Span(cfg, admitted) / cfg.resetTimeoutMs
  {
    if |admitted| > Opening(cfg) {
      SpacedOut(cfg, admitted, budget);
    }
    WithinQuotient(|admitted|, Opening(cfg), cfg.resetTimeoutMs, Span(cfg, admitted));
  }

  lemma WithinQuotient(n: nat, free: nat, d: int, t: int)
    requires d > 0 && (if n <= free then t == 0 else (n - free) * d <= t)
    ensures t >= 0 && n <= free + t / d
  {
    if n > free {
      AtLeastQuotient(n - free, d, t);
    }
  }

  /**
   During an outage the function is invoked at most
   `(failureThreshold + floor(T / resetTimeoutMs)) * (maxRetries + 1)` times, `T` being the time from
   the first opening to the start of the last admitted call, however many calls are made.
   */
  lemma OutageLoadBound(cfg: BreakerConfig, calls: seq<Call>, budget: nat)
    requires Sequential(calls, budget) && cfg.resetTimeoutMs > 0
    ensures
      var admitted := Outage(cfg, calls).1;
      Invocations(admitted) <= LoadBound(cfg, admitted, budget)
  {
    var admitted := Outage(cfg, calls).1;
    OutageSteps(cfg, calls, budget);
    AdmittedBounded(cfg, admitted, budget);
    InvocationsBounded(admitted, budget);
    Monotone(|admitted|, Opening(cfg) + Span(cfg, admitted) / cfg.resetTimeoutMs, budget);
  }

  function LoadBound(cfg: BreakerConfig, admitted: seq<Call>, budget: nat): int
    requires cfg.resetTimeoutMs > 0
  {
    (Opening(cfg) + Span(cfg, admitted) / cfg.resetTimeoutMs) * budget
  }

  // ---- The wrapper itself in an outage ----

  /** One use of the wrapper: its clock readings, the outcomes of the function, and the draws. */
  datatype Use<!T, !E> = Use(start: int, end: int, fn: nat -> Outcome<T, E>, rand: nat -> real)

  function Budget<E>(cfg: RetryConfig<E>): nat { if cfg.maxRetries < 0 then 0 else cfg.maxRetries + 1 }

  /** Every invocation fails with an error that counts as a failure; where no invocation is allowed, so does the missing error. */
  ghost predicate AllFail<T(!new), E(!new)>(cfg: RetryConfig<E>, isFailure: Option<E> -> bool, uses: seq<Use<T, E>>) {
    && (cfg.maxRetries < 0 ==> isFailure(None))
    && forall u <- uses, i: nat :: u.fn(i).Throws? && isFailure(Some(u.fn(i).error))
  }

  ghost predicate InTurn<T, E>(uses: seq<Use<T, E>>) {
    && (forall i :: 0 <= i < |uses| ==> uses[i].start <= uses[i].end)
    && (forall i :: 0 < i < |uses| ==> uses[i - 1].end <= uses[i].start)
  }

  /** The calls have the clock readings of the uses. */
  predicate TimesOf<T, E>(uses: seq<Use<T, E>>, calls: seq<Call>) {
    |calls| == |uses| && forall i :: 0 <= i < |uses| ==> calls[i].start == uses[i].start && calls[i].end == uses[i].end
  }

  lemma OutageOneMore(cfg: BreakerConfig, calls: seq<Call>, c: Call)
    ensures
      var (b, admitted) := Outage(cfg, calls);
      Outage(cfg, calls + [c]) ==
        if Admits(cfg, b, c.start) then (Failed(cfg, Allowed(cfg, b, c.start), true, c.end), admitted + [c]) else (b, admitted)
  {
    assert (calls + [c])[..|calls|] == calls;
  }

  lemma InvocationsOneMore(calls: seq<Call>, c: Call)
    ensures Invocations(calls + [c]) == Invocations(calls) + c.invocations
  {
    assert (calls + [c])[..|calls|] == calls;
  }

  /** After some uses: their times, their invocations within the budget, and the breaker and the total of `Outage`. */
  ghost predicate Endured<T, E>(cfg: BreakerConfig, budget: nat, uses: seq<Use<T, E>>, calls: seq<Call>, b: Breaker, total: nat) {
    && TimesOf(uses, calls)
    && (forall c <- calls :: c.invocations <= budget)
    && b == Outage(cfg, calls).0
    && total == Invocations(Outage(cfg, calls).1)
  }

  lemma EnduredOneMore<T, E>(
    cfg: BreakerConfig, budget: nat, uses: seq<Use<T, E>>, calls: seq<Call>, b: Breaker, total: nat, u: Use<T, E>, n: nat)
    requires Endured(cfg, budget, uses, calls, b, total) && n <= budget && (!Admits(cfg, b, u.start) ==> n == 0)
    ensures
      var next := if Admits(cfg, b, u.start) then Failed(cfg, Allowed(cfg, b, u.start), true, u.end) else b;
      Endured(cfg, budget, uses + [u], calls + [Call(u.start, u.end, n)], next, total + n)
  {
    var c := Call(u.start, u.end, n);
    OutageOneMore(cfg, calls, c);
    InvocationsOneMore(Outage(cfg, calls).1, c);
  }

  lemma EnduredInTurn<T, E>(cfg: BreakerConfig, budget: nat, uses: seq<Use<T, E>>, calls: seq<Call>, b: Breaker, total: nat)
    requires Endured(cfg, budget, uses, calls, b, total) && InTurn(uses)
    ensures Sequential(calls, budget)
    ensures cfg.resetTimeoutMs > 0 ==> total <= LoadBound(cfg, Outage(cfg, calls).1, budget)
  {
    forall i | 0 < i < |calls| ensures calls[i - 1].end <= calls[i].start {
      assert uses[i - 1].end <= uses[i].start;
    }
    if cfg.resetTimeoutMs > 0 {
      OutageLoadBound(cfg, calls, budget);
    }
  }

  /**
   Uses a fresh wrapper again and again while the function fails. The breaker goes through `Outage`, the invocations
   are those of the admitted calls, and so they keep to the bound.
   */
  method Endure<T(!new), E(!new)>(breaker: CircuitBreaker, isFailure: Option<E> -> bool, cfg: RetryConfig<E>, uses: seq<Use<T, E>>)
      returns (total: nat, calls: seq<Call>)
    requires breaker.View() == FRESH && AllFail(cfg, isFailure, uses) && InTurn(uses)
    modifies breaker
    ensures TimesOf(uses, calls) && Sequential(calls, Budget(cfg))
    ensures breaker.View() == Outage(breaker.config, calls).0
    ensures total == Invocations(Outage(breaker.config, calls).1)
    ensures breaker.config.resetTimeoutMs > 0 ==>
              total <= LoadBound(breaker.config, Outage(breaker.config, calls).1, Budget(cfg))
  {
    total, calls := 0, [];
    for i := 0 to |uses|
      invariant Endured(breaker.config, Budget(cfg), uses[..i], calls, breaker.View(), total)
    {
      var u := uses[i];
      assert u in uses && uses[..i + 1] == uses[..i] + [u];
      ghost var before := breaker.View();
      var r, n := Resilient(breaker, isFailure, cfg, u.fn, u.rand, u.start, u.end);
      assert Admits(breaker.config, before, u.start) ==> !r.Returned? && isFailure(r.error);
      EnduredOneMore(breaker.config, Budget(cfg), uses[..i], calls, before, total, u, n);
      total, calls := total + n, calls + [Call(u.start, u.end, n)];
    }
    assert uses[..|uses|] == uses;
    EnduredInTurn(breaker.config, Budget(cfg), uses, calls, breaker.View(), total);
  }

  lemma AtLeastQuotient(n: nat, d: int, t: int)
    requires d > 0 && n * d <= t
    ensures t >= 0 && n <= t / d
  {
    NonNegativeProduct(n, d);
    var q := t / d;
    assert t == q * d + t % d;
    assert (q + 1) * d == q * d + d;
    Cancel(n, q + 1, d);
  }

  lemma NonNegativeProduct(a: nat, b: nat)
    ensures a * b >= 0
  {
  }

  lemma Cancel(a: int, b: int, c: nat)
    requires a * c < b * c
    ensures a < b
  {
    if a >= b {
      Monotone(b, a, c);
    }
  }

  lemma Monotone(a: int, b: int, c: nat)
    requires a <= b
    ensures a * c <= b * c
  {
  }
}
