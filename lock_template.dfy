/** `SynchronizedLockTemplate`: fetch the key's lock object once, then try up
    to `maxRetries + 1` times to enter it before a deadline, running the block
    inside at most once.

    Nothing here is concurrent. The clock, the outcome of entering the
    monitor, and interrupts during the retry delay are inputs: attempt `i`
    sees `obs(i)`. */
module LockTemplate {
  import opened Wrappers
  import opened LockRegistry

  const DEFAULT_TIMEOUT_MILLIS: int := 5000
  const DEFAULT_MAX_RETRIES: int := 3
  const DEFAULT_RETRY_DELAY_MILLIS: int := 100

  /** An exception raised while entering the monitor (not by the block). */
  datatype Fault = Fault(description: string)

  /** What `synchronized (lock)` does on one attempt. */
  datatype Acquisition = Entered | AcquireFailed(cause: Fault)

  /** What attempt `i` observes: the clock at the deadline check, the outcome
      of entering the monitor, the clock when the retry delay is computed,
      and whether that delay is interrupted. */
  datatype Observation = Observation(now: int, acquisition: Acquisition, sleepNow: int, interrupted: bool)

  /** What the block does once it runs: returns a value or throws `E`. */
  datatype BlockOutcome<T, E> = Returns(value: T) | Throws(exception: E)

  /** The exceptions `executeWithLock` throws. `LockTimeout`'s cause is absent
      when the deadline check fires and is the last failure (if any) when
      the attempts run out. */
  datatype LockError<E> =
    | InvalidKey
    | LockTimeout(lastFailure: Option<Fault>)
    | LockInterrupted
    | LockExecution(cause: E)

  /** How the attempt loop ends: the monitor is entered on some attempt, the
      time or the attempts run out, or the retry delay is interrupted. */
  datatype Gate = Enter(attempt: nat) | TimedOut(lastFailure: Option<Fault>) | Interrupted

  /** Observable steps, in order: fetching the lock, each attempt's deadline
      check, each retry delay, and running the block. */
  datatype Event = FetchLock | DeadlineCheck(attempt: nat) | Sleep(millis: nat) | RunBlock

  datatype Gated = Gated(gate: Gate, events: seq<Event>)

  datatype RetryPolicy = RetryPolicy(maxRetries: int, retryDelayMillis: int)

  function Max(a: int, b: int): int { if a < b then b else a }
  function Min(a: int, b: int): int { if a < b then a else b }

  /** The number of attempts the loop `for (attempt = 0; attempt <= maxRetries; attempt++)` makes at most. */
  function MaxAttempts(maxRetries: int): nat { Max(0, maxRetries + 1) }

  function Prepend(events: seq<Event>, g: Gated): (r: Gated)
  {
    Gated(g.gate, events + g.events)
  }

  /** The retry delay: `Math.min(retryDelayMillis, endTime - now)`, clamped at
      zero. The source passes the unclamped value to `Thread.sleep`, which
      rejects a negative one (`SleepAsWritten`). */
  function RetryDelay(retryDelayMillis: int, endTime: int, now: int): (ms: nat)
    ensures ms <= Max(0, retryDelayMillis)
    ensures now + ms <= Max(now, endTime)
    ensures 0 <= retryDelayMillis && now + retryDelayMillis <= endTime ==> ms == retryDelayMillis
  {
    Max(0, Min(retryDelayMillis, endTime - now))
  }

  /** The delay exactly as written: `Thread.sleep(Math.min(retryDelayMillis,
      endTime - now))`. `Thread.sleep` throws IllegalArgumentException for a
      negative argument (here `Failure` with that argument), and
      `executeWithLock` catches only InterruptedException around it. */
  function SleepAsWritten(retryDelayMillis: int, endTime: int, now: int): (r: Result<nat, int>)
    ensures r.Failure? <==> now > endTime || retryDelayMillis < 0
    ensures r.Success? ==> r.value == RetryDelay(retryDelayMillis, endTime, now)
  {
    var millis := Min(retryDelayMillis, endTime - now);
    if millis < 0 then Failure(millis) else Success(millis)
  }

  /** With the default 100 ms delay and a deadline of 5000, an attempt whose
      failure is noticed at 5001 asks `Thread.sleep` for -1 ms: the call ends
      with IllegalArgumentException instead of LockTimeoutException. The
      clamped delay is 0. */
  lemma LateFailureRejectedBySleep()
    ensures SleepAsWritten(DEFAULT_RETRY_DELAY_MILLIS, 5000, 5001) == Failure(-1)
    ensures RetryDelay(DEFAULT_RETRY_DELAY_MILLIS, 5000, 5001) == 0
  {
  }

  /** The attempt loop from `attempt` on, with `last` the failure recorded so
      far (`lastException`). */
  function Attempts(p: RetryPolicy, endTime: int, obs: nat -> Observation, attempt: nat, last: Option<Fault>): (r: Gated)
    ensures FetchLock !in r.events && RunBlock !in r.events
    ensures r.gate.Enter? ==> attempt <= r.gate.attempt <= p.maxRetries
    decreases Max(0, p.maxRetries + 1 - attempt)
  {
    if attempt > p.maxRetries then Gated(TimedOut(last), [])
    else
      var o := obs(attempt);
      if o.now > endTime then Gated(TimedOut(None), [DeadlineCheck(attempt)])
      else
        match o.acquisition
        case Entered => Gated(Enter(attempt), [DeadlineCheck(attempt)])
        case AcquireFailed(e) =>
          if attempt < p.maxRetries then
            var ms := RetryDelay(p.retryDelayMillis, endTime, o.sleepNow);
            if o.interrupted then Gated(Interrupted, [DeadlineCheck(attempt), Sleep(ms)])
            else Prepend([DeadlineCheck(attempt), Sleep(ms)], Attempts(p, endTime, obs, attempt + 1, Some(e)))
          else Prepend([DeadlineCheck(attempt)], Attempts(p, endTime, obs, attempt + 1, Some(e)))
  }

  /** An attempt that lets the loop go on: within the deadline, the monitor
      not entered, and the delay after it not interrupted. */
  predicate Retried(o: Observation, endTime: int) {
    o.now <= endTime && o.acquisition.AcquireFailed? && !o.interrupted
  }

  /** The loop, as the source runs it. */
  method RunAttempts(p: RetryPolicy, endTime: int, obs: nat -> Observation) returns (g: Gated)
    ensures g == Attempts(p, endTime, obs, 0, None)
  {
    var lastException: Option<Fault> := None;
    var events: seq<Event> := [];
    var attempt: nat := 0;
    while attempt <= p.maxRetries
      invariant Attempts(p, endTime, obs, 0, None) == Prepend(events, Attempts(p, endTime, obs, attempt, lastException))
      decreases p.maxRetries + 1 - attempt
    {
      var o := obs(attempt);
      events := events + [DeadlineCheck(attempt)];
      if o.now > endTime {
        return Gated(TimedOut(None), events);
      }
      match o.acquisition {
        case Entered =>
          return Gated(Enter(attempt), events);
        case AcquireFailed(e) =>
          lastException := Some(e);
          if attempt < p.maxRetries {
            var ms := RetryDelay(p.retryDelayMillis, endTime, o.sleepNow);
            events := events + [Sleep(ms)];
            if o.interrupted {
              return Gated(Interrupted, events);
            }
          }
      }
      attempt := attempt + 1;
    }
    return Gated(TimedOut(lastException), events);
  }

  /** The number of attempts made: the deadline checks among `events`. */
  function CountAttempts(events: seq<Event>): nat
  {
    if events == [] then 0
    else (if events[0].DeadlineCheck? then 1 else 0) + CountAttempts(events[1..])
  }

  lemma {:induction false} CountAttemptsAppend(a: seq<Event>, b: seq<Event>)
    ensures CountAttempts(a + b) == CountAttempts(a) + CountAttempts(b)
    decreases |a|
  {
    if a == [] {
      assert a + b == b;
    } else {
      assert (a + b)[0] == a[0] && (a + b)[1..] == a[1..] + b;
      CountAttemptsAppend(a[1..], b);
    }
  }

  /** At most `maxRetries + 1` attempts. */
  lemma {:induction false} AttemptsBounded(p: RetryPolicy, endTime: int, obs: nat -> Observation, attempt: nat, last: Option<Fault>)
    ensures CountAttempts(Attempts(p, endTime, obs, attempt, last).events) <= Max(0, p.maxRetries + 1 - attempt)
    decreases Max(0, p.maxRetries + 1 - attempt)
  {
    if attempt <= p.maxRetries {
      var o := obs(attempt);
      var ms := RetryDelay(p.retryDelayMillis, endTime, o.sleepNow);
      assert CountAttempts([DeadlineCheck(attempt)]) == 1;
      assert CountAttempts([DeadlineCheck(attempt), Sleep(ms)]) == 1 by {
        assert [DeadlineCheck(attempt), Sleep(ms)][1..] == [Sleep(ms)];
        assert [Sleep(ms)][1..] == [];
      }
      if o.now <= endTime && o.acquisition.AcquireFailed? && !(attempt < p.maxRetries && o.interrupted) {
        var rest := Attempts(p, endTime, obs, attempt + 1, Some(o.acquisition.cause));
        AttemptsBounded(p, endTime, obs, attempt + 1, Some(o.acquisition.cause));
        if attempt < p.maxRetries {
          CountAttemptsAppend([DeadlineCheck(attempt), Sleep(ms)], rest.events);
        } else {
          CountAttemptsAppend([DeadlineCheck(attempt)], rest.events);
        }
      }
    }
  }

  /** The monitor is entered on attempt `i` exactly when attempt `i` is within
      the deadline and enters, and every earlier attempt was within the
      deadline, failed to enter and was not interrupted while waiting. In
      particular nothing runs once the deadline check has fired. */
  lemma {:induction false} EnterExactly(p: RetryPolicy, endTime: int, obs: nat -> Observation, attempt: nat, last: Option<Fault>, i: nat)
    ensures Attempts(p, endTime, obs, attempt, last).gate == Enter(i) <==>
      && attempt <= i <= p.maxRetries
      && obs(i).now <= endTime && obs(i).acquisition.Entered?
      && (forall j: nat :: attempt <= j < i ==> Retried(obs(j), endTime))
    decreases Max(0, p.maxRetries + 1 - attempt)
  {
    if attempt <= p.maxRetries {
      var o := obs(attempt);
      if o.now <= endTime && o.acquisition.AcquireFailed? {
        EnterExactly(p, endTime, obs, attempt + 1, Some(o.acquisition.cause), i);
      }
    }
  }

  /** Running out of attempts raises the timeout carrying the last attempt's
      failure, after every attempt was made within the deadline and failed. */
  lemma {:induction false} ExhaustionCarriesLastFailure(p: RetryPolicy, endTime: int, obs: nat -> Observation, attempt: nat, last: Option<Fault>, f: Fault)
    requires attempt <= p.maxRetries
    requires Attempts(p, endTime, obs, attempt, last).gate == TimedOut(Some(f))
    ensures obs(p.maxRetries).acquisition == AcquireFailed(f)
    ensures forall j: nat :: attempt <= j <= p.maxRetries ==>
      obs(j).now <= endTime && obs(j).acquisition.AcquireFailed?
    ensures CountAttempts(Attempts(p, endTime, obs, attempt, last).events) == p.maxRetries + 1 - attempt
    decreases p.maxRetries - attempt
  {
    var o := obs(attempt);
    var rest := Attempts(p, endTime, obs, attempt + 1, Some(o.acquisition.cause));
    if attempt < p.maxRetries {
      ExhaustionCarriesLastFailure(p, endTime, obs, attempt + 1, Some(o.acquisition.cause), f);
      CountAttemptsAppend([DeadlineCheck(attempt), Sleep(RetryDelay(p.retryDelayMillis, endTime, o.sleepNow))], rest.events);
    } else {
      CountAttemptsAppend([DeadlineCheck(attempt)], rest.events);
    }
  }

  /** A delay happens only between attempts: right after the deadline check
      of an attempt that is not the last, never longer than the configured
      delay. An interrupted delay ends the call: nothing follows it. */
  lemma {:induction false} SleepsOnlyBetweenAttempts(p: RetryPolicy, endTime: int, obs: nat -> Observation, attempt: nat, last: Option<Fault>)
    ensures var r := Attempts(p, endTime, obs, attempt, last);
      && (forall k :: 0 <= k < |r.events| && r.events[k].Sleep? ==>
            && 0 < k && r.events[k - 1].DeadlineCheck? && r.events[k - 1].attempt < p.maxRetries
            && r.events[k].millis <= Max(0, p.retryDelayMillis))
      && (r.gate == Interrupted ==> r.events != [] && r.events[|r.events| - 1].Sleep?)
    decreases Max(0, p.maxRetries + 1 - attempt)
  {
    if attempt <= p.maxRetries {
      var o := obs(attempt);
      if o.now <= endTime && o.acquisition.AcquireFailed? && !(attempt < p.maxRetries && o.interrupted) {
        SleepsOnlyBetweenAttempts(p, endTime, obs, attempt + 1, Some(o.acquisition.cause));
      }
    }
  }

  /** Running out of attempts raises the timeout carrying the last
      attempt's failure: when every attempt before the last lets the loop go
      on and the last one fails within the deadline. */
  lemma {:induction false} ExhaustionRaisesTimeout(p: RetryPolicy, endTime: int, obs: nat -> Observation, attempt: nat, last: Option<Fault>)
    requires attempt <= p.maxRetries
    requires forall j: nat :: attempt <= j < p.maxRetries ==> Retried(obs(j), endTime)
    requires obs(p.maxRetries).now <= endTime && obs(p.maxRetries).acquisition.AcquireFailed?
    ensures Attempts(p, endTime, obs, attempt, last).gate == TimedOut(Some(obs(p.maxRetries).acquisition.cause))
    decreases p.maxRetries - attempt
  {
    if attempt < p.maxRetries {
      ExhaustionRaisesTimeout(p, endTime, obs, attempt + 1, Some(obs(attempt).acquisition.cause));
    }
  }

  /** The deadline check firing on attempt `i`, after every earlier attempt
      let the loop go on, raises the timeout without a cause. */
  lemma {:induction false} DeadlineRaisesTimeout(p: RetryPolicy, endTime: int, obs: nat -> Observation, attempt: nat, last: Option<Fault>, i: nat)
    requires attempt <= i <= p.maxRetries
    requires forall j: nat :: attempt <= j < i ==> Retried(obs(j), endTime)
    requires obs(i).now > endTime
    ensures Attempts(p, endTime, obs, attempt, last).gate == TimedOut(None)
    decreases i - attempt
  {
    if attempt < i {
      DeadlineRaisesTimeout(p, endTime, obs, attempt + 1, Some(obs(attempt).acquisition.cause), i);
    }
  }

  /** An interrupt during the delay after attempt `i` (not the last, failed
      within the deadline), after every earlier attempt let the loop go on,
      raises LockInterruptedException. */
  lemma {:induction false} InterruptRaisesInterrupted(p: RetryPolicy, endTime: int, obs: nat -> Observation, attempt: nat, last: Option<Fault>, i: nat)
    requires attempt <= i < p.maxRetries
    requires forall j: nat :: attempt <= j < i ==> Retried(obs(j), endTime)
    requires obs(i).now <= endTime && obs(i).acquisition.AcquireFailed? && obs(i).interrupted
    ensures Attempts(p, endTime, obs, attempt, last).gate == Interrupted
    decreases i - attempt
  {
    if attempt < i {
      InterruptRaisesInterrupted(p, endTime, obs, attempt + 1, Some(obs(attempt).acquisition.cause), i);
    }
  }

  /** With the clamped delay, a failed attempt whose delay is computed after
      the deadline leads, on a clock that does not run backwards, to the
      next deadline check and a LockTimeoutException; the block never runs. */
  lemma PastDeadlineDelayEndsInTimeout(p: RetryPolicy, endTime: int, obs: nat -> Observation, attempt: nat, last: Option<Fault>)
    requires attempt < p.maxRetries
    requires obs(attempt).now <= endTime && obs(attempt).acquisition.AcquireFailed? && !obs(attempt).interrupted
    requires obs(attempt).sleepNow > endTime && obs(attempt + 1).now >= obs(attempt).sleepNow
    ensures Attempts(p, endTime, obs, attempt, last).gate == TimedOut(None)
    ensures Attempts(p, endTime, obs, attempt, last).events == [DeadlineCheck(attempt), Sleep(0), DeadlineCheck(attempt + 1)]
  {
  }

  /** How the call ends once the loop is over: the block's value, its
      exception wrapped as `LockExecution`, or the loop's own failure. */
  function Complete<T, E>(gate: Gate, block: BlockOutcome<T, E>): (r: Result<T, LockError<E>>)
    ensures r.Success? <==> gate.Enter? && block.Returns?
    ensures gate.Enter? && block.Returns? ==> r.value == block.value
    ensures gate.Enter? && block.Throws? ==> r == Failure(LockExecution(block.exception))
    ensures gate.TimedOut? ==> r == Failure(LockTimeout(gate.lastFailure))
    ensures gate.Interrupted? ==> r == Failure(LockInterrupted)
  {
    match gate
    case Enter(_) =>
      (match block
       case Returns(v) => Success(v)
       case Throws(e) => Failure(LockExecution(e)))
    case TimedOut(c) => Failure(LockTimeout(c))
    case Interrupted => Failure(LockInterrupted)
  }

  datatype Execution<T, E> = Execution(result: Result<T, LockError<E>>, events: seq<Event>)

  /** `executeWithLock(lockKey, block, timeoutMillis)` with the clock reading
      `start` taken on entry. */
  function Execute<K, T, E>(p: RetryPolicy, key: Option<K>, block: BlockOutcome<T, E>, timeoutMillis: int, start: int, obs: nat -> Observation): (r: Execution<T, E>)
    // a null key fails before the lock is fetched
    ensures key.None? <==> r.result == Failure(InvalidKey)
    ensures key.None? ==> r.events == []
    // otherwise the lock is fetched first and exactly once
    ensures key.Some? ==> |r.events| > 0 && r.events[0] == FetchLock && FetchLock !in r.events[1..]
    // the block runs at most once, as the last step, and its result is passed on unchanged
    ensures multiset(r.events)[RunBlock] <= 1
    ensures RunBlock in r.events ==> r.events[|r.events| - 1] == RunBlock
    ensures r.result.Success? ==> RunBlock in r.events && block == Returns(r.result.value)
    ensures r.result.Failure? && r.result.error.LockExecution? ==>
      RunBlock in r.events && block == Throws(r.result.error.cause)
  {
    if key.None? then Execution(Failure(InvalidKey), [])
    else
      var g := Attempts(p, start + timeoutMillis, obs, 0, None);
      var run := if g.gate.Enter? then [RunBlock] else [];
      Execution(Complete(g.gate, block), [FetchLock] + g.events + run)
  }

  /** The template object: a lock manager and the retry policy, all fixed at
      construction. */
  class SynchronizedLockTemplate<K(==)> {
    const lockManager: PointLockManager<K>
    const defaultTimeoutMillis: int
    const maxRetries: int
    const retryDelayMillis: int

    function Retry(): RetryPolicy {
      RetryPolicy(maxRetries, retryDelayMillis)
    }

    ghost predicate Valid()
      reads lockManager
    {
      lockManager.Valid()
    }

    /** `SynchronizedLockTemplate()`: a new manager, 5000 ms, 3 retries, 100 ms. */
    constructor ()
      ensures Valid() && fresh(lockManager) && lockManager.State() == EmptyRegistry()
      ensures defaultTimeoutMillis == DEFAULT_TIMEOUT_MILLIS
      ensures maxRetries == DEFAULT_MAX_RETRIES && retryDelayMillis == DEFAULT_RETRY_DELAY_MILLIS
    {
      lockManager := new PointLockManager<K>();
      defaultTimeoutMillis := DEFAULT_TIMEOUT_MILLIS;
      maxRetries, retryDelayMillis := DEFAULT_MAX_RETRIES, DEFAULT_RETRY_DELAY_MILLIS;
    }

    /** `SynchronizedLockTemplate(timeoutMillis)`: a new manager and the default retries. */
    constructor WithTimeout(timeoutMillis: int)
      ensures Valid() && fresh(lockManager) && lockManager.State() == EmptyRegistry()
      ensures defaultTimeoutMillis == timeoutMillis
      ensures maxRetries == DEFAULT_MAX_RETRIES && retryDelayMillis == DEFAULT_RETRY_DELAY_MILLIS
    {
      lockManager := new PointLockManager<K>();
      defaultTimeoutMillis := timeoutMillis;
      maxRetries, retryDelayMillis := DEFAULT_MAX_RETRIES, DEFAULT_RETRY_DELAY_MILLIS;
    }

    /** `SynchronizedLockTemplate(lockManager, defaultTimeoutMillis)`. */
    constructor WithManager(manager: PointLockManager<K>, timeoutMillis: int)
      requires manager.Valid()
      ensures Valid() && lockManager == manager && defaultTimeoutMillis == timeoutMillis
      ensures maxRetries == DEFAULT_MAX_RETRIES && retryDelayMillis == DEFAULT_RETRY_DELAY_MILLIS
    {
      lockManager := manager;
      defaultTimeoutMillis := timeoutMillis;
      maxRetries, retryDelayMillis := DEFAULT_MAX_RETRIES, DEFAULT_RETRY_DELAY_MILLIS;
    }

    /** `SynchronizedLockTemplate(lockManager, defaultTimeoutMillis, maxRetries, retryDelayMillis)`. */
    constructor WithPolicy(manager: PointLockManager<K>, timeoutMillis: int, retries: int, delayMillis: int)
      requires manager.Valid()
      ensures Valid() && lockManager == manager && defaultTimeoutMillis == timeoutMillis
      ensures maxRetries == retries && retryDelayMillis == delayMillis
    {
      lockManager := manager;
      defaultTimeoutMillis := timeoutMillis;
      maxRetries, retryDelayMillis := retries, delayMillis;
    }

    /** The part of `executeWithLock` before the block runs, for a non-null
        key: compute the deadline, fetch the lock once, run the attempt loop.
        A caller runs its block when the gate is `Enter`. */
    method Acquire(key: K, timeoutMillis: int, start: int, obs: nat -> Observation) returns (g: Gated)
      requires Valid()
      modifies lockManager
      ensures Valid() && lockManager.schedulerRunning == old(lockManager.schedulerRunning)
      ensures lockManager.State() == AfterGetLock(old(lockManager.State()), key).0
      ensures g == Prepend([FetchLock], Attempts(Retry(), start + timeoutMillis, obs, 0, None))
    {
      var endTime := start + timeoutMillis;
      var lock := lockManager.GetLock(Some(key));
      var loop := RunAttempts(Retry(), endTime, obs);
      g := Prepend([FetchLock], loop);
    }

    /** `executeWithLock(lockKey, block, timeoutMillis)`. */
    method ExecuteWithLock<T, E>(key: Option<K>, block: BlockOutcome<T, E>, timeoutMillis: int, start: int, obs: nat -> Observation)
      returns (r: Result<T, LockError<E>>, events: seq<Event>)
      requires Valid()
      modifies lockManager
      ensures Valid() && lockManager.schedulerRunning == old(lockManager.schedulerRunning)
      ensures Execution(r, events) == Execute(Retry(), key, block, timeoutMillis, start, obs)
      ensures key.None? ==> lockManager.State() == old(lockManager.State())
      ensures key.Some? ==> lockManager.State() == AfterGetLock(old(lockManager.State()), key.value).0
    {
      if key.None? {
        return Failure(InvalidKey), [];
      }
      var g := Acquire(key.value, timeoutMillis, start, obs);
      events := g.events;
      if g.gate.Enter? {
        events := events + [RunBlock];
      }
      r := Complete(g.gate, block);
    }

    /** `executeWithLock(lockKey, block)`: the default timeout. */
    method ExecuteWithDefaultTimeout<T, E>(key: Option<K>, block: BlockOutcome<T, E>, start: int, obs: nat -> Observation)
      returns (r: Result<T, LockError<E>>, events: seq<Event>)
      requires Valid()
      modifies lockManager
      ensures Valid() && lockManager.schedulerRunning == old(lockManager.schedulerRunning)
      ensures Execution(r, events) == Execute(Retry(), key, block, defaultTimeoutMillis, start, obs)
      ensures key.None? ==> lockManager.State() == old(lockManager.State())
      ensures key.Some? ==> lockManager.State() == AfterGetLock(old(lockManager.State()), key.value).0
    {
      r, events := ExecuteWithLock(key, block, defaultTimeoutMillis, start, obs);
    }
  }
}
