/** `PointLockManager`: one lock object per key, created lazily, reused while
    it is alive, and reclaimed once the garbage collector has cleared it.

    The JVM's weak references are modelled explicitly. A lock object is a
    `LockHandle` whose `serial` is its identity; `nextSerial` is the serial
    the next `new Object()` receives. `collected` holds the handles the
    collector has cleared (`WeakReference.get()` answers null for them), and
    `referenceQueue` holds, in order, the `LockRef`s it has enqueued. */
module LockRegistry {
  import opened Wrappers

  datatype LockHandle = LockHandle(serial: nat)

  /** `LockRef`: a weak reference to `referent` that remembers its key. */
  datatype LockRef<K> = LockRef(key: K, referent: LockHandle)

  /** `IllegalArgumentException("Lock key cannot be null")`. */
  datatype KeyError = NullKey

  /** The manager's state together with the collector's view of it. */
  datatype Registry<K> = Registry(
    lockMap: map<K, LockRef<K>>,
    referenceQueue: seq<LockRef<K>>,
    collected: set<LockHandle>,
    nextSerial: nat)

  /** A new manager's state: nothing registered, nothing allocated. */
  function EmptyRegistry<K>(): Registry<K> {
    Registry(map[], [], {}, 0)
  }

  /** Every entry is filed under its own key. */
  predicate KeysMatch<K>(lockMap: map<K, LockRef<K>>) {
    forall k :: k in lockMap ==> lockMap[k].key == k
  }

  /** The invariant every operation keeps: entries are filed under their own
      key, no handle serves two keys, every handle was allocated, and every
      registered handle the collector has cleared has its reference queued. */
  ghost predicate WellFormed<K>(s: Registry<K>) {
    && KeysMatch(s.lockMap)
    && (forall k :: k in s.lockMap ==> s.lockMap[k].referent.serial < s.nextSerial)
    && (forall k1, k2 :: k1 in s.lockMap && k2 in s.lockMap && k1 != k2 ==>
          s.lockMap[k1].referent != s.lockMap[k2].referent)
    && (forall h :: h in s.collected ==> h.serial < s.nextSerial)
    && (forall r :: r in s.referenceQueue ==> r.referent in s.collected)
    && (forall k :: k in s.lockMap && s.lockMap[k].referent in s.collected ==> s.lockMap[k] in s.referenceQueue)
  }

  /** The loop of `cleanup`: poll each queued reference and remove its entry
      only if the map still holds that very reference (`remove(key, ref)`).
      Yields the remaining map and the number of entries removed. */
  function Drain<K>(lockMap: map<K, LockRef<K>>, queue: seq<LockRef<K>>): (r: (map<K, LockRef<K>>, nat))
    ensures forall k :: k in r.0 ==> k in lockMap && r.0[k] == lockMap[k]
    decreases |queue|
  {
    if queue == [] then (lockMap, 0)
    else
      var ref := queue[0];
      if ref.key in lockMap && lockMap[ref.key] == ref then
        var rest := Drain(lockMap - {ref.key}, queue[1..]);
        (rest.0, rest.1 + 1)
      else
        Drain(lockMap, queue[1..])
  }

  /** The count `cleanup` returns is the number of entries that disappeared. */
  lemma {:induction false} DrainCountsRemovals<K>(lockMap: map<K, LockRef<K>>, queue: seq<LockRef<K>>)
    ensures Drain(lockMap, queue).0.Keys <= lockMap.Keys
    ensures Drain(lockMap, queue).1 == |lockMap.Keys| - |Drain(lockMap, queue).0.Keys|
    decreases |queue|
  {
    if queue != [] {
      var ref := queue[0];
      if ref.key in lockMap && lockMap[ref.key] == ref {
        DrainCountsRemovals(lockMap - {ref.key}, queue[1..]);
        assert (lockMap - {ref.key}).Keys == lockMap.Keys - {ref.key};
      } else {
        DrainCountsRemovals(lockMap, queue[1..]);
      }
    }
  }

  /** Draining removes exactly the entries whose reference was queued: an
      entry holding any other reference, in particular a newer handle for a
      key whose old reference is queued, survives untouched. */
  lemma {:induction false} DrainRemovesExactlyQueued<K>(lockMap: map<K, LockRef<K>>, queue: seq<LockRef<K>>)
    requires KeysMatch(lockMap)
    ensures Drain(lockMap, queue).0 == map k | k in lockMap && lockMap[k] !in queue :: lockMap[k]
    decreases |queue|
  {
    var expected := map k | k in lockMap && lockMap[k] !in queue :: lockMap[k];
    if queue != [] {
      var ref := queue[0];
      assert queue == [ref] + queue[1..];
      if ref.key in lockMap && lockMap[ref.key] == ref {
        var smaller := lockMap - {ref.key};
        DrainRemovesExactlyQueued(smaller, queue[1..]);
        assert forall k :: k in smaller ==> smaller[k] != ref;
      } else {
        DrainRemovesExactlyQueued(lockMap, queue[1..]);
        assert forall k :: k in lockMap ==> lockMap[k] != ref;
      }
    }
  }

  /** `cleanup()`: drains the whole queue; returns the new state and the
      count of removed entries. */
  function AfterCleanup<K>(s: Registry<K>): (r: (Registry<K>, nat))
    ensures r.0.referenceQueue == [] && r.0.collected == s.collected && r.0.nextSerial == s.nextSerial
    ensures forall k :: k in r.0.lockMap ==> k in s.lockMap && r.0.lockMap[k] == s.lockMap[k]
  {
    var d := Drain(s.lockMap, s.referenceQueue);
    (s.(lockMap := d.0, referenceQueue := []), d.1)
  }

  /** After `cleanup` the queue is empty, only queued entries are gone, the
      count is the number of entries removed, and every remaining entry holds
      a live handle. */
  lemma CleanupRemovesQueuedEntries<K>(s: Registry<K>)
    requires WellFormed(s)
    ensures var (t, n) := AfterCleanup(s);
      && WellFormed(t)
      && t.referenceQueue == [] && t.collected == s.collected && t.nextSerial == s.nextSerial
      && t.lockMap == (map k | k in s.lockMap && s.lockMap[k] !in s.referenceQueue :: s.lockMap[k])
      && n == |s.lockMap| - |t.lockMap|
      && (forall k :: k in t.lockMap ==> t.lockMap[k].referent !in t.collected)
  {
    DrainRemovesExactlyQueued(s.lockMap, s.referenceQueue);
    DrainCountsRemovals(s.lockMap, s.referenceQueue);
  }

  /** A second `cleanup` right after the first removes nothing. */
  lemma CleanupIdempotent<K>(s: Registry<K>)
    ensures AfterCleanup(AfterCleanup(s).0) == (AfterCleanup(s).0, 0)
  {
  }

  /** `getLock(key)` for a non-null key: `cleanup()`, then `compute`: keep the
      entry if its handle is still alive, otherwise register a fresh handle. */
  function AfterGetLock<K>(s: Registry<K>, key: K): (r: (Registry<K>, LockHandle))
    ensures key in r.0.lockMap && r.0.lockMap[key].referent == r.1
    ensures r.0.referenceQueue == [] && r.0.collected == s.collected
  {
    var c := AfterCleanup(s).0;
    if key in c.lockMap && c.lockMap[key].referent !in c.collected then
      (c, c.lockMap[key].referent)
    else
      var h := LockHandle(c.nextSerial);
      (c.(lockMap := c.lockMap[key := LockRef(key, h)], nextSerial := c.nextSerial + 1), h)
  }

  /** `getLock` keeps the invariant, leaves the queue drained, and hands out a
      live handle registered under `key`. If after the drain `key` had no live
      entry, the handle is fresh: no entry and no cleared handle ever held it.
      Other keys keep whatever the drain left them. */
  lemma GetLockRegistersLiveHandle<K>(s: Registry<K>, key: K)
    requires WellFormed(s)
    ensures var (t, h) := AfterGetLock(s, key);
      var c := AfterCleanup(s).0;
      && WellFormed(t)
      && t.referenceQueue == [] && t.collected == s.collected
      && key in t.lockMap && t.lockMap[key] == LockRef(key, h) && h !in t.collected
      && (forall k :: k in c.lockMap && k != key ==> k in t.lockMap && t.lockMap[k] == c.lockMap[k])
      && (forall k :: k in t.lockMap && k != key ==> k in c.lockMap)
      && (!(key in c.lockMap && c.lockMap[key].referent !in c.collected) ==>
            h.serial == s.nextSerial && (forall k :: k in s.lockMap ==> s.lockMap[k].referent != h))
  {
    CleanupRemovesQueuedEntries(s);
  }

  /** While a key's handle is alive, asking again returns the identical
      handle and changes nothing. */
  lemma GetLockReusesLiveHandle<K>(s: Registry<K>, key: K)
    requires WellFormed(s)
    ensures var (t, h) := AfterGetLock(s, key); AfterGetLock(t, key) == (t, h)
  {
    GetLockRegistersLiveHandle(s, key);
  }

  /** Reuse while the handle is alive, whatever happened before: if `key`'s
      registered handle has not been collected, `getLock(key)` returns that
      very handle and keeps its entry. */
  lemma GetLockKeepsLiveHandle<K>(s: Registry<K>, key: K)
    requires WellFormed(s) && key in s.lockMap && s.lockMap[key].referent !in s.collected
    ensures AfterGetLock(s, key).1 == s.lockMap[key].referent
    ensures AfterGetLock(s, key).0.lockMap[key] == s.lockMap[key]
  {
    CleanupRemovesQueuedEntries(s);
  }

  /** The collector clears the handle registered under `key` and enqueues its
      reference. (A collector event, not an operation of the manager.) */
  function Collect<K>(s: Registry<K>, key: K): (r: Registry<K>)
    ensures r.lockMap == s.lockMap && s.collected <= r.collected
    ensures key in s.lockMap ==> s.lockMap[key].referent in r.collected
  {
    if key in s.lockMap && s.lockMap[key].referent !in s.collected then
      s.(collected := s.collected + {s.lockMap[key].referent},
         referenceQueue := s.referenceQueue + [s.lockMap[key]])
    else s
  }

  lemma CollectKeepsWellFormed<K>(s: Registry<K>, key: K)
    requires WellFormed(s)
    ensures WellFormed(Collect(s, key)) && Collect(s, key).lockMap == s.lockMap
  {
  }

  /** The collector clears the handles of `keys`, one after another. */
  function CollectAll<K>(s: Registry<K>, keys: seq<K>): (r: Registry<K>)
    ensures r.lockMap == s.lockMap && s.collected <= r.collected
    decreases |keys|
  {
    if keys == [] then s else CollectAll(Collect(s, keys[0]), keys[1..])
  }

  lemma {:induction false} CollectAllClears<K>(s: Registry<K>, keys: seq<K>)
    requires WellFormed(s)
    ensures var t := CollectAll(s, keys);
      && WellFormed(t) && t.lockMap == s.lockMap && s.collected <= t.collected
      && (forall k :: k in keys && k in s.lockMap ==> s.lockMap[k].referent in t.collected)
    decreases |keys|
  {
    if keys != [] {
      CollectKeepsWellFormed(s, keys[0]);
      CollectAllClears(Collect(s, keys[0]), keys[1..]);
    }
  }

  /** Registry boundedness: once the handles of every registered key have been
      collected, one `cleanup` empties the map and reports every entry. */
  lemma CleanupAfterCollectingEverything<K>(s: Registry<K>, keys: seq<K>)
    requires WellFormed(s)
    requires forall k :: k in s.lockMap ==> k in keys
    ensures var t := CollectAll(s, keys);
      AfterCleanup(t).0.lockMap == map[] && AfterCleanup(t).1 == |s.lockMap|
  {
    var t := CollectAll(s, keys);
    CollectAllClears(s, keys);
    CleanupRemovesQueuedEntries(t);
  }

  /** `shutdown()` clears the map (the scheduler flag lives in the class). */
  function AfterShutdown<K>(s: Registry<K>): (r: Registry<K>)
    ensures WellFormed(s) ==> WellFormed(r)
  {
    s.(lockMap := map[])
  }

  /** The manager object. Its fields are the registry's; `schedulerRunning`
      and `cleanupPeriodSeconds` describe the background cleanup task. */
  class PointLockManager<K(==)> {
    var lockMap: map<K, LockRef<K>>
    var referenceQueue: seq<LockRef<K>>
    var collected: set<LockHandle>
    var nextSerial: nat
    var schedulerRunning: bool
    const cleanupPeriodSeconds: int

    function State(): Registry<K>
      reads this
    {
      Registry(lockMap, referenceQueue, collected, nextSerial)
    }

    ghost predicate Valid()
      reads this
    {
      WellFormed(State())
    }

    /** `PointLockManager()`: cleanup every 60 seconds. */
    constructor ()
      ensures Valid() && State() == EmptyRegistry()
      ensures schedulerRunning && cleanupPeriodSeconds == 60
    {
      lockMap, referenceQueue, collected, nextSerial := map[], [], {}, 0;
      schedulerRunning := true;
      cleanupPeriodSeconds := 60;
    }

    /** `PointLockManager(period, unit)`, with the period in seconds. The
        scheduler refuses a period that is not positive, so no manager is
        built from one. */
    constructor WithPeriod(periodSeconds: int)
      requires periodSeconds > 0
      ensures Valid() && State() == EmptyRegistry()
      ensures schedulerRunning && cleanupPeriodSeconds == periodSeconds
    {
      lockMap, referenceQueue, collected, nextSerial := map[], [], {}, 0;
      schedulerRunning := true;
      cleanupPeriodSeconds := periodSeconds;
    }

    /** `getLock(key)`; a null key (`None`) is rejected before anything changes. */
    method GetLock(key: Option<K>) returns (r: Result<LockHandle, KeyError>)
      requires Valid()
      modifies this
      ensures Valid() && schedulerRunning == old(schedulerRunning)
      ensures key.None? ==> r == Failure(NullKey) && State() == old(State())
      ensures key.Some? ==>
        r.Success? && (State(), r.value) == AfterGetLock(old(State()), key.value)
    {
      if key.None? {
        return Failure(NullKey);
      }
      var k := key.value;
      ghost var before := State();
      var _ := Cleanup();
      GetLockRegistersLiveHandle(before, k);
      var ref: LockRef<K>;
      if k in lockMap && lockMap[k].referent !in collected {
        ref := lockMap[k];
      } else {
        ref := LockRef(k, LockHandle(nextSerial));
        nextSerial := nextSerial + 1;
        lockMap := lockMap[k := ref];
      }
      return Success(ref.referent);
    }

    /** `cleanup()`: poll the queue until it is empty, removing each polled
        reference's entry only if the map still holds that reference. */
    method Cleanup() returns (removed: nat)
      requires Valid()
      modifies this
      ensures Valid() && schedulerRunning == old(schedulerRunning)
      ensures (State(), removed) == AfterCleanup(old(State()))
    {
      CleanupRemovesQueuedEntries(State());
      removed := PollQueue();
    }

    /** The `while ((ref = referenceQueue.poll()) != null)` loop of `cleanup()`. */
    method PollQueue() returns (removed: nat)
      modifies this
      ensures collected == old(collected) && nextSerial == old(nextSerial)
      ensures schedulerRunning == old(schedulerRunning) && referenceQueue == []
      ensures (lockMap, removed) == Drain(old(lockMap), old(referenceQueue))
    {
      removed := 0;
      while referenceQueue != []
        invariant collected == old(collected) && nextSerial == old(nextSerial)
        invariant schedulerRunning == old(schedulerRunning)
        invariant var rest := Drain(lockMap, referenceQueue);
          Drain(old(lockMap), old(referenceQueue)) == (rest.0, removed + rest.1)
        decreases |referenceQueue|
      {
        var ref := referenceQueue[0];
        referenceQueue := referenceQueue[1..];
        if ref.key in lockMap && lockMap[ref.key] == ref {
          lockMap := lockMap - {ref.key};
          removed := removed + 1;
        }
      }
    }

    /** `shutdown()`: stop the background task and clear the map. */
    method Shutdown()
      requires Valid()
      modifies this
      ensures Valid() && !schedulerRunning
      ensures State() == AfterShutdown(old(State())) && lockMap == map[]
    {
      schedulerRunning := false;
      lockMap := map[];
    }

    /** Not an operation of the manager: the garbage collector clearing the
        handle registered under `key` and enqueuing its reference. */
    method CollectGarbage(key: K)
      requires Valid()
      modifies this
      ensures Valid() && schedulerRunning == old(schedulerRunning)
      ensures State() == Collect(old(State()), key)
    {
      if key in lockMap && lockMap[key].referent !in collected {
        collected := collected + {lockMap[key].referent};
        referenceQueue := referenceQueue + [lockMap[key]];
      }
    }
  }
}
