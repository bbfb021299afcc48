# Point ledger with keyed locks — a Dafny model

This project models the core of a small point ledger service. Each user has a
balance in points. A *charge* adds points and a *use* spends them. Every
committed change is recorded as one history row. Changes to one user run under
that user's lock, which a keyed lock manager hands out.

The model follows the Java sources file by file:

- `point_policy.dfy` (`PointPolicy`) — the CHARGE and USE admission rules:
  a 10,000 minimum charge, a 10,000,000,000 balance cap, a 1,000 minimum use
  and no negative balance. It keeps the argument error and the state error
  apart, and checks them in the source's order.
- `user_point.dfy` (`UserPoints`) — the immutable `UserPoint` record and its
  `empty`, `charge` and `use`.
- `point_service.dfy` (`PointLedger`) — `PointService` as a class:
  - The user-point table is a `map` field and the history table a `seq`
    field. `chargePoint`/`usePoint` reassign both.
  - The spec function `Transact` states one read → validate → write → append
    step. The lemmas show it keeps every stored balance equal to the net of
    that user's history.
- `lock_template.dfy` (`LockTemplate`) — `SynchronizedLockTemplate`:
  - The constructors and their defaults: 5000 ms, 3 retries, 100 ms.
  - Both `executeWithLock` overloads and the three exceptions.
  - The attempt loop is a `while` loop, proved equal to the recursive
    specification `Attempts`.
  - The clock, whether entering the lock succeeds, and interrupts are inputs.
    Attempt `i` sees `obs(i)`.
  - Each call yields a trace of events: fetching the lock, deadline checks,
    delays, running the block. Ordering properties are stated on this trace.
- `lock_registry.dfy` (`LockRegistry`) — `PointLockManager`:
  - It is a class with `lockMap`, `referenceQueue` and the set of collected
    handles.
  - `getLock`, `cleanup` (a `while` loop over the queue with its conditional
    remove) and `shutdown` change them in place.
  - Garbage collection of a handle is an explicit event, `CollectGarbage`.
- `java_long.dfy` — Java `long` as a 64-bit newtype, and two's-complement
  wrap-around for the finding below.
- `wrappers.dfy` — `Option` and `Result`.

Java exceptions become `Failure` values:

- `PolicyError` — the policy's IllegalArgumentException and
  IllegalStateException.
- `LockError` — the template's InvalidKey (a null key), LockTimeout,
  LockInterrupted and LockExecution.
- `KeyError` — the manager's null-key error.

## Model

| member | source | states |
|---|---|---|
| PointPolicy.Validate | src/main/java/io/hhplus/tdd/point/PointPolicy.java:19-57 | An amount below the policy's minimum yields the argument error, checked before the balance. The argument error occurs only when the amount is below the minimum, and a state error only when it met it. A charge that meets the minimum but passes the cap gets the cap error, and a use that meets the minimum but overdraws gets the insufficient-points error. CHARGE admits exactly when amount ≥ 10,000 and current + amount ≤ 10,000,000,000, and never reports insufficient points. USE admits exactly when 1,000 ≤ amount ≤ current, and never reports the cap. |
| PointPolicy.AdmittedStaysInRange | src/main/java/io/hhplus/tdd/point/PointPolicy.java:24-56 | If the balance starts in [0, 10,000,000,000] and the policy admits the amount, then current + amount (after a charge) or current − amount (after a use) is also in [0, 10,000,000,000]. |
| PointPolicy.PolicyExamples | src/test/java/io/hhplus/tdd/point/PointPolicyTest.java:27-108 | Every accepted and rejected case in the policy test gets the verdict and the error kind the test expects. |
| PointPolicy.ValidateAsWritten | src/main/java/io/hhplus/tdd/point/PointPolicy.java:29 | The policy with Java's wrapping `long` arithmetic. It agrees with `Validate` whenever `current ± amount` does not overflow, and still rejects amounts below the minimum. |
| PointPolicy.ChargeOverflowAdmitted | src/main/java/io/hhplus/tdd/point/PointPolicy.java:29-33 | With current 1 and amount Long.MAX_VALUE, the sum wraps to Long.MIN_VALUE and the charge is admitted. The intended rule rejects it with the cap error. |
| JavaLong.Wrap | src/main/java/io/hhplus/tdd/point/PointPolicy.java:29 | Two's-complement reduction to 64 bits: identity on values in range, and MAX + 1 becomes MIN. |
| UserPoints.Empty | src/main/java/io/hhplus/tdd/point/UserPoint.java:9-11 | The record has the given id, point 0 and the given timestamp, so its balance is in range. |
| UserPoints.Charge | src/main/java/io/hhplus/tdd/point/UserPoint.java:13-16 | Succeeds exactly when the CHARGE policy admits, and fails with the policy's own error. On success it keeps the id, adds `amount` to the balance and takes the new timestamp. |
| UserPoints.Use | src/main/java/io/hhplus/tdd/point/UserPoint.java:18-21 | Succeeds exactly when the USE policy admits, and fails with the policy's error. On success it keeps the id and subtracts `amount`. |
| UserPoints.ChargeKeepsBalanceInRange | src/main/java/io/hhplus/tdd/point/UserPoint.java:13-16 | A successful charge preserves 0 ≤ point ≤ 10,000,000,000. |
| UserPoints.UseKeepsBalanceInRange | src/main/java/io/hhplus/tdd/point/UserPoint.java:18-21 | A successful use preserves 0 ≤ point ≤ 10,000,000,000. |
| UserPoints.UseUndoesCharge | src/main/java/io/hhplus/tdd/point/UserPoint.java:13-21 | Using an amount right after charging it is always admitted and restores the original record, apart from the timestamp. |
| PointLedger.SelectById | src/main/java/io/hhplus/tdd/point/PointService.java:37-40 | The stored record for a known user, and the empty record for an unknown one. Its point is the stored balance, which is 0 for an unknown user. |
| PointLedger.HistoryOf | src/main/java/io/hhplus/tdd/point/PointService.java:48-51 | Returns only rows of the history, and only rows of that user. |
| PointLedger.HistoryOfComplete | src/main/java/io/hhplus/tdd/point/PointService.java:48-51 | Every row of the user in the history appears in the user's list. |
| PointLedger.HistoryOfInInsertionOrder | src/main/java/io/hhplus/tdd/point/PointService.java:48-51 | With store-assigned ids 1, 2, 3, …, the user's list has strictly increasing ids, so it is in insertion order. |
| PointLedger.HistoryOfAppend | src/main/java/io/hhplus/tdd/point/PointService.java:70 | Appending a row extends its user's list by that row and leaves every other user's list unchanged. |
| PointLedger.BlockOf | src/main/java/io/hhplus/tdd/point/PointService.java:64-72 | The block run under the lock returns exactly when the policy admits the stored balance, and then returns the user's record with the balance moved by `amount`. Otherwise it throws the policy's own error. |
| PointLedger.Transact | src/main/java/io/hhplus/tdd/point/PointService.java:60-97 | A charge or use succeeds exactly when the policy admits the stored balance. On rejection it returns the policy's error and writes nothing. On success it stores a fresh record for that user only, with the balance moved by `amount`. It appends exactly one row carrying `amount`, its kind and the next id. |
| PointLedger.TransactCalls | src/main/java/io/hhplus/tdd/point/PointService.java:63-70 | The store is always read first. When admitted, the balance write comes next and the history append last. When rejected, nothing follows the read. |
| PointLedger.Settle | src/main/java/io/hhplus/tdd/point/PointService.java:60-97 | The service call succeeds only if the lock was entered and the policy admits. A policy rejection comes back wrapped as LockExecution with the policy error as cause. Every failure leaves both tables unchanged. The result is exactly what the template's `Complete` gives for the block. |
| PointLedger.StepCommits | src/main/java/io/hhplus/tdd/point/PointService.java:63-70 | A charge or use the policy admits commits, moves the user's balance by `amount` in the kind's direction, and adds one row to the user's history. |
| PointLedger.TransactAppendsOneRow | src/main/java/io/hhplus/tdd/point/PointService.java:70 | A committed transaction adds exactly one row to the target user's history list. |
| PointLedger.EmptyTablesConsistent | src/main/java/io/hhplus/tdd/point/PointService.java:26-27 | Empty stores satisfy the ledger invariant. |
| PointLedger.AppendKeepsLedgered | src/main/java/io/hhplus/tdd/point/PointService.java:68-70 | Writing a user's balance moved by a row and appending that row keeps every user's balance equal to the net of that user's history. |
| PointLedger.TransactKeepsConsistent | src/main/java/io/hhplus/tdd/point/PointService.java:60-97 | A committed transaction keeps the invariant: records stored under their own id with balances in range, history ids consecutive, and every balance equal to the net of its history. |
| PointLedger.TransactTouchesOnlyTarget | src/main/java/io/hhplus/tdd/point/PointService.java:68-70 | Other users' records and history lists are unchanged. The target user's list grows by exactly the new row. |
| PointLedger.Repeat | src/test/java/io/hhplus/tdd/point/PointConcurrentTest.java:41-83 | n transactions that all commit append exactly n rows and keep the earlier history as a prefix. |
| PointLedger.RepeatedCharges | src/test/java/io/hhplus/tdd/point/PointConcurrentTest.java:41-60 | n charges of an admissible amount that stay under the cap all succeed. Together they raise the balance by n · amount and add n rows. |
| PointLedger.RepeatedUses | src/test/java/io/hhplus/tdd/point/PointConcurrentTest.java:65-83 | n uses of an admissible amount that the balance covers all succeed. Together they lower the balance by n · amount and add n rows. |
| PointLedger.LedgerScenarios | src/test/java/io/hhplus/tdd/point/PointConcurrentTest.java:41-83 | From empty stores, 100 charges of 10,000 leave 1,000,000 and 100 rows. Charging 100,000 and then using 1,000 a hundred times leaves 0. |
| PointLedger.PointService.constructor | src/main/java/io/hhplus/tdd/point/PointService.java:26-29 | Empty stores and a fresh template with the default timeout, retries and delay. |
| PointLedger.PointService.RetrieveUserPointByUserId | src/main/java/io/hhplus/tdd/point/PointService.java:37-40 | Returns the stored record, or the empty one. Its id is the user's and its balance is in range. Nothing changes. |
| PointLedger.PointService.RetrievePointHistoryByUserId | src/main/java/io/hhplus/tdd/point/PointService.java:48-51 | Returns exactly that user's rows in insertion order. Their net equals the user's stored balance. Nothing changes. |
| PointLedger.PointService.Apply | src/main/java/io/hhplus/tdd/point/PointService.java:63-72 | The block run under the lock reads, validates, writes and appends. The new tables and the result are those of `Transact`. On rejection nothing changes. The store calls happen in `TransactCalls` order. |
| PointLedger.PointService.Transaction | src/main/java/io/hhplus/tdd/point/PointService.java:62-73 | Fetches the user's lock from the manager, runs the attempt loop, then runs the block only if the lock was entered. The result and the tables are `Settle` of the loop's outcome. |
| PointLedger.PointService.ChargePoint | src/main/java/io/hhplus/tdd/point/PointService.java:60-75 | `chargePoint`: `Settle` for CHARGE under the template's default timeout. The lock manager's state is that of `getLock(userId)`. |
| PointLedger.PointService.UsePoint | src/main/java/io/hhplus/tdd/point/PointService.java:84-97 | `usePoint`: `Settle` for USE. The history row carries `amount`. |
| LockRegistry.Drain | src/main/java/io/hhplus/tdd/point/lock/PointLockManager.java:95-103 | Draining the queue keeps a subset of the map: every key left is an original key with its original entry. |
| LockRegistry.AfterCleanup | src/main/java/io/hhplus/tdd/point/lock/PointLockManager.java:95-104 | After `cleanup` the queue is empty, the collected handles and the handle counter are unchanged, and the map keeps only original entries. |
| LockRegistry.AfterGetLock | src/main/java/io/hhplus/tdd/point/lock/PointLockManager.java:68-87 | After `getLock(key)` the key is registered with the returned handle, the queue has been drained and the collected handles are unchanged. |
| LockRegistry.DrainCountsRemovals | src/main/java/io/hhplus/tdd/point/lock/PointLockManager.java:95-103 | Draining the queue only removes keys. The count it returns is the number of keys removed. |
| LockRegistry.DrainRemovesExactlyQueued | src/main/java/io/hhplus/tdd/point/lock/PointLockManager.java:99 | The conditional remove deletes exactly the entries whose own reference was queued. An entry holding a newer reference for the same key survives. |
| LockRegistry.CleanupRemovesQueuedEntries | src/main/java/io/hhplus/tdd/point/lock/PointLockManager.java:95-104 | `cleanup` keeps the registry invariant. It empties the queue, removes exactly the queued entries, returns their number, and leaves only live handles registered. |
| LockRegistry.CleanupIdempotent | src/main/java/io/hhplus/tdd/point/lock/PointLockManager.java:95-104 | A second `cleanup` right after the first returns 0 and changes nothing. |
| LockRegistry.GetLockRegistersLiveHandle | src/main/java/io/hhplus/tdd/point/lock/PointLockManager.java:68-87 | `getLock` cleans up first and keeps the invariant. It returns a live handle registered under the key. When the key had no live entry, the handle is fresh. Other keys keep their entries. |
| LockRegistry.GetLockKeepsLiveHandle | src/main/java/io/hhplus/tdd/point/lock/PointLockManager.java:77-86 | On a well-formed registry, when the key's registered handle has not been collected, `getLock` returns that handle and keeps the key's entry as it was, whatever else is queued. |
| LockRegistry.GetLockReusesLiveHandle | src/main/java/io/hhplus/tdd/point/lock/PointLockManager.java:77-86 | While a key's handle is live, asking again returns the identical handle and leaves the registry unchanged. |
| LockRegistry.Collect | src/main/java/io/hhplus/tdd/point/lock/PointLockManager.java:21-32 | Collection leaves the map alone, only adds to the collected handles, and clears the handle registered under the key. |
| LockRegistry.CollectAll | src/main/java/io/hhplus/tdd/point/lock/PointLockManager.java:21-32 | Collecting several keys leaves the map alone and only adds to the collected handles. |
| LockRegistry.CollectKeepsWellFormed | src/main/java/io/hhplus/tdd/point/lock/PointLockManager.java:21-32 | Collecting a handle enqueues its reference, keeps the invariant and leaves the map alone. |
| LockRegistry.CollectAllClears | src/main/java/io/hhplus/tdd/point/lock/PointLockManager.java:21-32 | Collecting the handles of a list of keys clears each of them and keeps the invariant and the map. |
| LockRegistry.CleanupAfterCollectingEverything | src/main/java/io/hhplus/tdd/point/lock/PointLockManager.java:10-13 | Once every registered handle has been collected, one `cleanup` empties the map and reports every entry. |
| LockRegistry.AfterShutdown | src/main/java/io/hhplus/tdd/point/lock/PointLockManager.java:109-112 | Clearing the map keeps the registry invariant. |
| LockRegistry.PointLockManager.constructor | src/main/java/io/hhplus/tdd/point/lock/PointLockManager.java:40-42 | An empty registry, with the cleanup scheduler running every 60 seconds. |
| LockRegistry.PointLockManager.WithPeriod | src/main/java/io/hhplus/tdd/point/lock/PointLockManager.java:50-57 | For a positive period, an empty registry with the scheduler running at that period. |
| LockRegistry.PointLockManager.GetLock | src/main/java/io/hhplus/tdd/point/lock/PointLockManager.java:68-87 | A null key fails with the argument error and leaves the registry unchanged. Otherwise the new state and the handle are those of `AfterGetLock`. |
| LockRegistry.PointLockManager.Cleanup | src/main/java/io/hhplus/tdd/point/lock/PointLockManager.java:95-104 | The new state and the count are those of `AfterCleanup`, and the invariant holds. |
| LockRegistry.PointLockManager.PollQueue | src/main/java/io/hhplus/tdd/point/lock/PointLockManager.java:98-102 | The loop leaves the queue empty and the map and count as `Drain` gives them. Nothing else changes. |
| LockRegistry.PointLockManager.Shutdown | src/main/java/io/hhplus/tdd/point/lock/PointLockManager.java:109-112 | Stops the scheduler and leaves the map empty. |
| LockRegistry.PointLockManager.CollectGarbage | src/main/java/io/hhplus/tdd/point/lock/PointLockManager.java:21-28 | The collector event: the key's live handle is cleared and its reference enqueued. |
| LockTemplate.RetryDelay | src/main/java/io/hhplus/tdd/point/lock/SynchronizedLockTemplate.java:129 | The corrected delay is never negative and never longer than the configured delay. It never ends past the deadline, and it is the full delay when there is room. |
| LockTemplate.SleepAsWritten | src/main/java/io/hhplus/tdd/point/lock/SynchronizedLockTemplate.java:127-134 | The delay as written is rejected exactly when the clock has passed the deadline (or the delay is negative). Otherwise it equals the corrected delay. |
| LockTemplate.LateFailureRejectedBySleep | src/main/java/io/hhplus/tdd/point/lock/SynchronizedLockTemplate.java:129 | With delay 100 and deadline 5000, a failure noticed at 5001 asks to sleep -1 ms. The corrected delay is 0. |
| LockTemplate.Attempts | src/main/java/io/hhplus/tdd/point/lock/SynchronizedLockTemplate.java:99-141 | The loop never fetches the lock or runs the block itself. It enters only on an attempt between the current one and `maxRetries`. |
| LockTemplate.RunAttempts | src/main/java/io/hhplus/tdd/point/lock/SynchronizedLockTemplate.java:99-141 | The `for` loop computes exactly `Attempts` from attempt 0 with no failure recorded. |
| LockTemplate.AttemptsBounded | src/main/java/io/hhplus/tdd/point/lock/SynchronizedLockTemplate.java:102 | At most `maxRetries + 1` attempts are made. |
| LockTemplate.EnterExactly | src/main/java/io/hhplus/tdd/point/lock/SynchronizedLockTemplate.java:102-118 | The lock is entered on attempt i exactly when attempt i is within the deadline and enters. Every earlier attempt must have been within the deadline, failed and not been interrupted. Nothing runs once the deadline check fires. |
| LockTemplate.ExhaustionRaisesTimeout | src/main/java/io/hhplus/tdd/point/lock/SynchronizedLockTemplate.java:122-141 | If every attempt before the last is within the deadline, fails and is not interrupted, and the last attempt is within the deadline and fails, the loop ends in the timeout carrying the last attempt's failure. |
| LockTemplate.DeadlineRaisesTimeout | src/main/java/io/hhplus/tdd/point/lock/SynchronizedLockTemplate.java:102-107 | If every earlier attempt let the loop go on and attempt i finds the clock past the deadline, the loop ends in the timeout with no cause. |
| LockTemplate.InterruptRaisesInterrupted | src/main/java/io/hhplus/tdd/point/lock/SynchronizedLockTemplate.java:127-133 | If every earlier attempt let the loop go on and a non-final attempt fails within the deadline and its delay is interrupted, the loop ends in the interrupted error. |
| LockTemplate.ExhaustionCarriesLastFailure | src/main/java/io/hhplus/tdd/point/lock/SynchronizedLockTemplate.java:122-141 | A timeout that carries a cause means every attempt was made within the deadline and failed, and the cause is the last attempt's failure. |
| LockTemplate.SleepsOnlyBetweenAttempts | src/main/java/io/hhplus/tdd/point/lock/SynchronizedLockTemplate.java:126-134 | Every delay follows the deadline check of a non-final attempt and is at most the configured delay. An interrupted delay is the last event. |
| LockTemplate.PastDeadlineDelayEndsInTimeout | src/main/java/io/hhplus/tdd/point/lock/SynchronizedLockTemplate.java:102-107 | With the corrected delay, a failure noticed after the deadline sleeps 0 ms. On a clock that does not run backwards, the next deadline check then raises the timeout without running the block. |
| LockTemplate.Complete | src/main/java/io/hhplus/tdd/point/lock/SynchronizedLockTemplate.java:110-141 | The call succeeds exactly when the lock was entered and the block returned, with the block's value. An entered lock whose block throws gives LockExecution with that exception, a timeout gives LockTimeout with the timeout's cause, and an interrupt gives LockInterrupted. |
| LockTemplate.Execute | src/main/java/io/hhplus/tdd/point/lock/SynchronizedLockTemplate.java:88-142 | A null key fails before the lock is fetched. Otherwise the lock is fetched first and exactly once. The block runs at most once, as the last step. Its value is returned unchanged and its exception comes back wrapped as LockExecution. |
| LockTemplate.SynchronizedLockTemplate.constructor | src/main/java/io/hhplus/tdd/point/lock/SynchronizedLockTemplate.java:26-28 | A fresh manager, 5000 ms, 3 retries, 100 ms. |
| LockTemplate.SynchronizedLockTemplate.WithTimeout | src/main/java/io/hhplus/tdd/point/lock/SynchronizedLockTemplate.java:35-37 | A fresh manager, the given timeout, and the default retries and delay. |
| LockTemplate.SynchronizedLockTemplate.WithManager | src/main/java/io/hhplus/tdd/point/lock/SynchronizedLockTemplate.java:45-47 | The given manager and timeout, with 3 retries and 100 ms. |
| LockTemplate.SynchronizedLockTemplate.WithPolicy | src/main/java/io/hhplus/tdd/point/lock/SynchronizedLockTemplate.java:57-63 | All four settings as given. |
| LockTemplate.SynchronizedLockTemplate.Acquire | src/main/java/io/hhplus/tdd/point/lock/SynchronizedLockTemplate.java:93-136 | Fetches the lock once and then runs the attempt loop. The manager ends in the `getLock` state. |
| LockTemplate.SynchronizedLockTemplate.ExecuteWithLock | src/main/java/io/hhplus/tdd/point/lock/SynchronizedLockTemplate.java:88-142 | The result and the event trace are `Execute`'s. A null key leaves the manager untouched. Otherwise the manager ends in the `getLock` state. |
| LockTemplate.SynchronizedLockTemplate.ExecuteWithDefaultTimeout | src/main/java/io/hhplus/tdd/point/lock/SynchronizedLockTemplate.java:74-76 | As `ExecuteWithLock`, with the template's default timeout. |

## Left out

- Mutual exclusion and threads are not modelled:
  - Only one caller is modelled.
  - `synchronized (lock)` is an input outcome per attempt, which is either entered or fails with a fault.
  - No property says two blocks for one key never overlap.
  - The concurrent tests are modelled only as sequential repetition (`RepeatedCharges`, `RepeatedUses`).
- The cleanup scheduler thread is not modelled. Only a flag records whether it runs, and cleanup happens only when called.
- LockRegistry.PointLockManager.WithPeriod: the period is in seconds and the `TimeUnit` argument is dropped. A period that is not positive is excluded by its precondition. In the source, `scheduleWithFixedDelay` at PointLockManager.java:56 throws IllegalArgumentException for it, so the constructor fails; that exception is not modelled.
- The JVM's weak references and garbage collector are not modelled. Collection is the explicit `CollectGarbage` event. The race in which `ref.get()` sees an already-collected handle right after `compute` is not modelled.
- `System.currentTimeMillis()` readings and `Thread.sleep` are inputs. One clock value `now` stamps the empty record, the charged or used record, the stored record and the history row, where the source reads the clock separately for each.
- Logging and `pointLogMessage` are not modelled; they only build text.
- The `UserPointTable` and `PointHistoryTable` implementations are not part of this model. They are a map and a sequence with these rules:
  - `selectById` returns `UserPoint.empty(id)` for an unknown user.
  - `insertOrUpdate` stores a fresh record stamped with the clock.
  - History ids are 1, 2, 3, … in insertion order.
- PointLedger.PointService.constructor: the service starts from empty stores. In the source the two tables are injected, and the application creates them empty.
- The controller, `LockManager` and `SynchronizedBlock` are not part of this model. The two interfaces are absorbed into the template and the manager.
- The block is not passed as a closure:
  - `ExecuteWithLock` takes the block's outcome.
  - `PointService` splits the call into `Acquire` and running its block. The block needs the service's tables, which the template cannot modify.
  - `Settle` proves the service's result equal to the template's `Complete` for that block.
- LockTemplate.AttemptsBounded: `maxRetries` and `attempt` are unbounded integers. In Java they are `int`, and with `maxRetries` equal to Integer.MAX_VALUE, `attempt++` at SynchronizedLockTemplate.java:102 wraps and the `for` condition never fails after that, so the number of attempts is bounded only by the deadline check (SynchronizedLockTemplate.java:104-107), an entered lock or an interrupt, not by `maxRetries + 1`.
- LockTemplate.Complete: LockInterrupted carries no cause. The source attaches the InterruptedException and re-sets the thread's interrupt flag (SynchronizedLockTemplate.java:131-132); interrupt flags are not modelled.
- `start + timeoutMillis` is computed on unbounded integers. Java overflow of the deadline is not modelled.
- LockTemplate.Attempts: the retry delay is the clamped `RetryDelay`, not the as-written one (see Findings).
- PointPolicy.Validate: it decides on exact sums rather than Java's wrapping `long` ones (see Findings).
- Errors are typed values, not exceptions. A policy rejection inside `chargePoint`/`usePoint` leaves the service as `LockExecution(cause)`, because the template wraps every exception of the block.
  - The service tests at src/test/java/io/hhplus/tdd/point/PointServiceTest.java:213-215, 235-237, 301-303 and 321-323 expect the raw IllegalArgument/IllegalState exception instead. The model follows the code.
- `usePoint` records `amount` in the history row, as the code does. The mock test at src/test/java/io/hhplus/tdd/point/PointServiceTest.java:267-281 expects the remaining balance there. The model follows the code.

## Findings

| source | as written | input that shows it | evidently intended | confidence | as-written member | corrected member |
|---|---|---|---|---|---|---|
| src/main/java/io/hhplus/tdd/point/PointPolicy.java:29 | `currentPoint + amount > MAX_BALANCE` on `long`; the sum wraps past Long.MAX_VALUE and the cap check passes (UserPoint.java:15 then stores the wrapped, negative balance) | CHARGE with currentPoint 1, amount 9,223,372,036,854,775,807 | reject with the balance-cap error; balances stay in [0, 10,000,000,000] | not executed | PointPolicy.ChargeOverflowAdmitted | PointPolicy.Validate |
| src/main/java/io/hhplus/tdd/point/lock/SynchronizedLockTemplate.java:129 | `Thread.sleep(Math.min(retryDelayMillis, endTime - now))`; once the clock is past `endTime` the argument is negative, `Thread.sleep` throws IllegalArgumentException, and only InterruptedException is caught | default template, deadline 5000; attempt fails at 4990, the delay is computed at 5001 | sleep 0 ms, so the next deadline check raises LockTimeoutException | not executed | LockTemplate.LateFailureRejectedBySleep | LockTemplate.PastDeadlineDelayEndsInTimeout |
