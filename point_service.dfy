/** `PointService`: charging and using points for one user as a
    read → validate → write → append sequence, run inside the user's lock.

    The two stores are fields of the service: the user-point table as a map
    from user id to record, and the history table as the sequence of entries
    in insertion order. Each entry's id is its position plus one, the id
    the history store hands out. The clock reading `now` is an input. */
module PointLedger {
  import opened Wrappers
  import opened JavaLong
  import PointPolicy
  import opened UserPoints
  import opened LockRegistry
  import opened LockTemplate

  datatype TransactionType = CHARGE | USE

  /** One history row: its store-assigned id, the user, the amount moved,
      the kind of move, and when it was recorded. */
  datatype PointHistory = PointHistory(id: nat, userId: i64, amount: i64, transactionType: TransactionType, updateMillis: i64)

  /** The two stores' contents. */
  datatype Tables = Tables(points: map<i64, UserPoint>, history: seq<PointHistory>)

  /** A call on a store, in the order the service makes them. */
  datatype StoreCall =
    | SelectUser(userId: i64)
    | WritePoint(userId: i64, point: i64)
    | AppendHistory(userId: i64, amount: i64, transactionType: TransactionType)

  function PolicyOf(kind: TransactionType): PointPolicy.Policy {
    if kind == CHARGE then PointPolicy.CHARGE else PointPolicy.USE
  }

  /** The signed effect of one history row on its user's balance. */
  /** How a transaction of `kind` moves the balance. */
  function Move(kind: TransactionType, amount: i64): int {
    if kind == CHARGE then amount as int else -(amount as int)
  }

  function Delta(e: PointHistory): int {
    Move(e.transactionType, e.amount)
  }

  /** The stored balance; an unknown user has 0. */
  function Balance(points: map<i64, UserPoint>, userId: i64): int {
    if userId in points then points[userId].point as int else 0
  }

  /** `userPointTable.selectById(id)`: the stored record, or an empty record
      for a user never written. */
  function SelectById(points: map<i64, UserPoint>, userId: i64, now: i64): (u: UserPoint)
    ensures u.point as int == Balance(points, userId)
    ensures userId in points ==> u == points[userId]
    ensures userId !in points ==> u == Empty(userId, now)
  {
    if userId in points then points[userId] else Empty(userId, now)
  }

  /** `pointHistoryTable.selectAllByUserId(id)`: the user's rows, in
      insertion order. */
  function HistoryOf(history: seq<PointHistory>, userId: i64): (r: seq<PointHistory>)
    ensures |r| <= |history|
    ensures forall e :: e in r ==> e in history && e.userId == userId
  {
    if history == [] then []
    else
      var rest := HistoryOf(history[..|history| - 1], userId);
      if history[|history| - 1].userId == userId then rest + [history[|history| - 1]] else rest
  }

  /** Sum of the signed amounts of a sequence of rows. */
  function Net(rows: seq<PointHistory>): int {
    if rows == [] then 0 else Net(rows[..|rows| - 1]) + Delta(rows[|rows| - 1])
  }

  /** Every stored record sits under its own id with a balance in range. */
  predicate RecordsWellFormed(points: map<i64, UserPoint>) {
    forall k :: k in points ==> points[k].id == k && PointPolicy.InBalanceRange(points[k].point as int)
  }

  /** The history ids are 1, 2, 3, ... in insertion order. */
  predicate IdsAssigned(history: seq<PointHistory>) {
    forall i :: 0 <= i < |history| ==> history[i].id == i + 1
  }

  /** Every user's balance is the net of that user's history. */
  predicate Ledgered(t: Tables) {
    forall u :: Balance(t.points, u) == Net(HistoryOf(t.history, u))
  }

  predicate Consistent(t: Tables) {
    RecordsWellFormed(t.points) && IdsAssigned(t.history) && Ledgered(t)
  }

  /** The body of `chargePoint` / `usePoint` as one step on the tables:
      read the record, run `charge` / `use` on it, store the new balance
      as a fresh record, append one history row carrying `amount`.
      A policy rejection is returned as is and nothing is written. */
  function Transact(t: Tables, kind: TransactionType, userId: i64, amount: i64, now: i64): (r: Result<(Tables, UserPoint), PointPolicy.PolicyError>)
    ensures r.Success? <==> PointPolicy.Validate(PolicyOf(kind), Balance(t.points, userId) as i64, amount).None?
    ensures r.Failure? ==> PointPolicy.Validate(PolicyOf(kind), Balance(t.points, userId) as i64, amount) == Some(r.error)
    ensures r.Success? ==>
      var (t', stored) := r.value;
      && stored.id == userId && stored.updateMillis == now
      && t'.history == t.history + [PointHistory(|t.history| + 1, userId, amount, kind, now)]
      && stored.point as int == Balance(t.points, userId) + Delta(t'.history[|t.history|])
      && t'.points == t.points[userId := stored]
  {
    var origin := SelectById(t.points, userId, now);
    var moved := if kind == CHARGE then Charge(origin, amount, now) else Use(origin, amount, now);
    match moved
    case Failure(e) => Failure(e)
    case Success(u) =>
      var stored := UserPoint(userId, u.point, now);
      Success((Tables(t.points[userId := stored], t.history + [PointHistory(|t.history| + 1, userId, amount, kind, now)]), stored))
  }

  /** The store calls `Transact` makes: always the read, then the write
      followed by the append only when the policy admits. */
  function TransactCalls(t: Tables, kind: TransactionType, userId: i64, amount: i64, now: i64): (calls: seq<StoreCall>)
    ensures |calls| >= 1 && calls[0] == SelectUser(userId)
    ensures |calls| == 1 <==> Transact(t, kind, userId, amount, now).Failure?
    ensures |calls| == 3 <==> Transact(t, kind, userId, amount, now).Success?
    ensures |calls| == 3 ==>
      && calls[1] == WritePoint(userId, Transact(t, kind, userId, amount, now).value.1.point)
      && calls[2] == AppendHistory(userId, amount, kind)
  {
    match Transact(t, kind, userId, amount, now)
    case Failure(_) => [SelectUser(userId)]
    case Success((_, stored)) => [SelectUser(userId), WritePoint(userId, stored.point), AppendHistory(userId, amount, kind)]
  }

  /** How a service call ends once the attempt loop has decided: with the
      lock entered, the transaction's result (a policy error wrapped as the
      template wraps any exception of the block); otherwise the template's
      error. Returns the result and the tables after the call. */
  function Settle(t: Tables, kind: TransactionType, userId: i64, amount: i64, now: i64, gate: Gate): (r: (Result<UserPoint, LockError<PointPolicy.PolicyError>>, Tables))
    ensures r.0.Success? <==> gate.Enter? && Transact(t, kind, userId, amount, now).Success?
    ensures r.0.Success? ==> (r.1, r.0.value) == Transact(t, kind, userId, amount, now).value
    ensures r.0.Failure? ==> r.1 == t
    ensures r.0.Failure? && r.0.error.LockExecution? <==>
      gate.Enter? && Transact(t, kind, userId, amount, now).Failure?
    ensures r.0.Failure? && r.0.error.LockExecution? ==> Transact(t, kind, userId, amount, now).error == r.0.error.cause
    ensures r.0 == Complete(gate, BlockOf(t, kind, userId, amount, now))
  {
    match gate
    case TimedOut(f) => (Failure(LockTimeout(f)), t)
    case Interrupted => (Failure(LockInterrupted), t)
    case Enter(_) =>
      match Transact(t, kind, userId, amount, now)
      case Failure(e) => (Failure(LockExecution(e)), t)
      case Success((t', stored)) => (Success(stored), t')
  }

  /** What the block handed to the template does: returns the stored record
      or throws the policy error. */
  function BlockOf(t: Tables, kind: TransactionType, userId: i64, amount: i64, now: i64): (b: BlockOutcome<UserPoint, PointPolicy.PolicyError>)
    ensures b.Returns? <==> PointPolicy.Validate(PolicyOf(kind), Balance(t.points, userId) as i64, amount).None?
    ensures b.Returns? ==> b.value.id == userId && b.value.point as int == Balance(t.points, userId) + Move(kind, amount)
    ensures b.Throws? ==> PointPolicy.Validate(PolicyOf(kind), Balance(t.points, userId) as i64, amount) == Some(b.exception)
  {
    match Transact(t, kind, userId, amount, now)
    case Failure(e) => Throws(e)
    case Success((_, stored)) => Returns(stored)
  }

  /** Appending one row extends that user's history by it and leaves every
      other user's history as it was. */
  lemma HistoryOfAppend(history: seq<PointHistory>, e: PointHistory, u: i64)
    ensures HistoryOf(history + [e], u) == HistoryOf(history, u) + (if e.userId == u then [e] else [])
  {
    assert (history + [e])[..|history|] == history;
  }

  /** `HistoryOf` misses none of the user's rows. */
  lemma {:induction false} HistoryOfComplete(history: seq<PointHistory>, u: i64, i: nat)
    requires i < |history| && history[i].userId == u
    ensures history[i] in HistoryOf(history, u)
  {
    var last := |history| - 1;
    if i < last {
      HistoryOfComplete(history[..last], u, i);
    }
  }

  predicate IdsIncreasing(rows: seq<PointHistory>) {
    forall i, j :: 0 <= i < j < |rows| ==> rows[i].id < rows[j].id
  }

  /** With store-assigned ids, `HistoryOf` lists the user's rows by strictly
      increasing id, i.e. in insertion order. */
  lemma {:induction false} HistoryOfInInsertionOrder(history: seq<PointHistory>, u: i64)
    requires IdsAssigned(history)
    ensures IdsIncreasing(HistoryOf(history, u))
    ensures forall e :: e in HistoryOf(history, u) ==> e.id <= |history|
  {
    if history != [] {
      var init := history[..|history| - 1];
      assert IdsAssigned(init);
      HistoryOfInInsertionOrder(init, u);
      var last := history[|history| - 1];
      assert last.id == |history|;
      var rest := HistoryOf(init, u);
      assert forall e :: e in rest ==> e.id < |history|;
      if last.userId == u {
        var r := rest + [last];
        forall i, j | 0 <= i < j < |r|
          ensures r[i].id < r[j].id
        {
          assert r[i] == rest[i] && rest[i] in rest;
          if j < |rest| {
            assert r[j] == rest[j];
          }
        }
      }
    }
  }

  lemma NetAppend(rows: seq<PointHistory>, e: PointHistory)
    ensures Net(rows + [e]) == Net(rows) + Delta(e)
  {
    assert (rows + [e])[..|rows|] == rows;
  }

  /** Empty stores are consistent. */
  lemma EmptyTablesConsistent()
    ensures Consistent(Tables(map[], []))
  {
  }

  /** Writing a user's record and appending that user's row keeps every
      balance equal to the net of its history, when the new balance is the
      old one moved by the row. */
  lemma AppendKeepsLedgered(t: Tables, stored: UserPoint, e: PointHistory)
    requires Ledgered(t)
    requires stored.point as int == Balance(t.points, e.userId) + Delta(e)
    ensures Ledgered(Tables(t.points[e.userId := stored], t.history + [e]))
  {
    var t' := Tables(t.points[e.userId := stored], t.history + [e]);
    forall w
      ensures Balance(t'.points, w) == Net(HistoryOf(t'.history, w))
    {
      HistoryOfAppend(t.history, e, w);
      if w == e.userId {
        NetAppend(HistoryOf(t.history, w), e);
      }
    }
  }

  /** A committed transaction keeps the stores consistent: records under
      their ids with balances in range, ids in sequence, and every balance
      equal to the net of its history. */
  lemma TransactKeepsConsistent(t: Tables, kind: TransactionType, userId: i64, amount: i64, now: i64)
    requires Consistent(t)
    ensures Transact(t, kind, userId, amount, now).Success? ==> Consistent(Transact(t, kind, userId, amount, now).value.0)
  {
    var r := Transact(t, kind, userId, amount, now);
    if r.Success? {
      var t' := r.value.0;
      var stored := r.value.1;
      var e := t'.history[|t.history|];
      var origin := SelectById(t.points, userId, now);
      if kind == CHARGE {
        ChargeKeepsBalanceInRange(origin, amount, now);
      } else {
        UseKeepsBalanceInRange(origin, amount, now);
      }
      assert RecordsWellFormed(t'.points);
      assert t' == Tables(t.points[e.userId := stored], t.history + [e]);
      AppendKeepsLedgered(t, stored, e);
    }
  }

  /** Only the target user's record is written, and only the target user's
      history grows, by exactly one row. */
  lemma TransactTouchesOnlyTarget(t: Tables, kind: TransactionType, userId: i64, amount: i64, now: i64, other: i64)
    requires other != userId
    requires Transact(t, kind, userId, amount, now).Success?
    ensures var t' := Transact(t, kind, userId, amount, now).value.0;
      && (other in t'.points <==> other in t.points)
      && (other in t.points ==> t'.points[other] == t.points[other])
      && HistoryOf(t'.history, other) == HistoryOf(t.history, other)
      && HistoryOf(t'.history, userId) == HistoryOf(t.history, userId) + [t'.history[|t.history|]]
  {
    var t' := Transact(t, kind, userId, amount, now).value.0;
    var e := PointHistory(|t.history| + 1, userId, amount, kind, now);
    HistoryOfAppend(t.history, e, other);
    HistoryOfAppend(t.history, e, userId);
  }

  /** `n` transactions of the same kind and amount in a row; `None` if
      one of them is rejected. */
  function Repeat(t: Tables, kind: TransactionType, userId: i64, amount: i64, now: i64, n: nat): (r: Option<Tables>)
    ensures r.Some? ==> |r.value.history| == |t.history| + n && r.value.history[..|t.history|] == t.history
    decreases n
  {
    if n == 0 then Some(t)
    else match Transact(t, kind, userId, amount, now)
      case Failure(_) => None
      case Success((t', _)) => Repeat(t', kind, userId, amount, now, n - 1)
  }

  lemma PeelOne(n: nat, a: int)
    requires n > 0 && a >= 0
    ensures n * a == (n - 1) * a + a && (n - 1) * a >= 0
  {
  }

  /** `n` charges of an admissible amount that stay under the cap all
      succeed, raise the balance by `n * amount` and add `n` CHARGE rows to
      the user's history. */
  lemma {:induction false} RepeatedCharges(t: Tables, userId: i64, amount: i64, now: i64, n: nat)
    requires amount as int >= PointPolicy.MIN_CHARGE_AMOUNT
    requires Balance(t.points, userId) + n * amount as int <= PointPolicy.MAX_BALANCE
    decreases n
    ensures Repeat(t, CHARGE, userId, amount, now, n).Some?
    ensures var t' := Repeat(t, CHARGE, userId, amount, now, n).value;
      && Balance(t'.points, userId) == Balance(t.points, userId) + n * amount as int
      && |HistoryOf(t'.history, userId)| == |HistoryOf(t.history, userId)| + n
  {
    if n > 0 {
      var a := amount as int;
      PeelOne(n, a);
      StepCommits(t, CHARGE, userId, amount, now);
      var t1 := Transact(t, CHARGE, userId, amount, now).value.0;
      assert Repeat(t, CHARGE, userId, amount, now, n) == Repeat(t1, CHARGE, userId, amount, now, n - 1);
      RepeatedCharges(t1, userId, amount, now, n - 1);
    }
  }

  /** `n` uses of an admissible amount that the balance covers all succeed,
      lower the balance by `n * amount` and add `n` USE rows. */
  lemma {:induction false} RepeatedUses(t: Tables, userId: i64, amount: i64, now: i64, n: nat)
    requires amount as int >= PointPolicy.MIN_USE_AMOUNT
    requires n * amount as int <= Balance(t.points, userId)
    decreases n
    ensures Repeat(t, USE, userId, amount, now, n).Some?
    ensures var t' := Repeat(t, USE, userId, amount, now, n).value;
      && Balance(t'.points, userId) == Balance(t.points, userId) - n * amount as int
      && |HistoryOf(t'.history, userId)| == |HistoryOf(t.history, userId)| + n
  {
    if n > 0 {
      var a := amount as int;
      PeelOne(n, a);
      StepCommits(t, USE, userId, amount, now);
      var t1 := Transact(t, USE, userId, amount, now).value.0;
      assert Repeat(t, USE, userId, amount, now, n) == Repeat(t1, USE, userId, amount, now, n - 1);
      RepeatedUses(t1, userId, amount, now, n - 1);
    }
  }

  /** One admitted transaction commits, moves the user's balance by its
      amount and adds one row to the user's history. */
  lemma StepCommits(t: Tables, kind: TransactionType, userId: i64, amount: i64, now: i64)
    requires PointPolicy.Validate(PolicyOf(kind), Balance(t.points, userId) as i64, amount).None?
    ensures Transact(t, kind, userId, amount, now).Success?
    ensures var t' := Transact(t, kind, userId, amount, now).value.0;
      && Balance(t'.points, userId) == Balance(t.points, userId) + Move(kind, amount)
      && |HistoryOf(t'.history, userId)| == |HistoryOf(t.history, userId)| + 1
  {
    TransactAppendsOneRow(t, kind, userId, amount, now);
  }

  /** The target user's history grows by exactly one row. */
  lemma TransactAppendsOneRow(t: Tables, kind: TransactionType, userId: i64, amount: i64, now: i64)
    requires Transact(t, kind, userId, amount, now).Success?
    ensures |HistoryOf(Transact(t, kind, userId, amount, now).value.0.history, userId)| == |HistoryOf(t.history, userId)| + 1
  {
    HistoryOfAppend(t.history, PointHistory(|t.history| + 1, userId, amount, kind, now), userId);
  }

  /** From empty stores: 100 charges of 10,000 leave 1,000,000 and 100 rows;
      charging 100 * 1,000 and then using 1,000 a hundred times leaves 0. */
  lemma LedgerScenarios(userId: i64, now: i64)
    ensures var t := Repeat(Tables(map[], []), CHARGE, userId, 10_000, now, 100);
      t.Some? && Balance(t.value.points, userId) == 1_000_000 && |HistoryOf(t.value.history, userId)| == 100
    ensures var c := Transact(Tables(map[], []), CHARGE, userId, 100_000, now);
      c.Success? && Repeat(c.value.0, USE, userId, 1_000, now, 100).Some?
      && Balance(Repeat(c.value.0, USE, userId, 1_000, now, 100).value.points, userId) == 0
  {
    RepeatedCharges(Tables(map[], []), userId, 10_000, now, 100);
    var c := Transact(Tables(map[], []), CHARGE, userId, 100_000, now);
    RepeatedUses(c.value.0, userId, 1_000, now, 100);
  }

  /** The service: the two stores and its own lock template (default
      timeout, retries and delay, and a fresh lock manager). */
  class PointService {
    var userPointTable: map<i64, UserPoint>
    var pointHistoryTable: seq<PointHistory>
    /** The store calls made so far by charges and uses, in order. */
    ghost var storeCalls: seq<StoreCall>
    const template: SynchronizedLockTemplate<i64>

    function State(): Tables
      reads this
    {
      Tables(userPointTable, pointHistoryTable)
    }

    ghost predicate Valid()
      reads this, template, template.lockManager
    {
      template.Valid() && Consistent(State())
    }

    /** A service over empty stores. */
    constructor ()
      ensures Valid() && State() == Tables(map[], []) && storeCalls == []
      ensures fresh(template) && fresh(template.lockManager)
      ensures template.defaultTimeoutMillis == DEFAULT_TIMEOUT_MILLIS && template.Retry() == RetryPolicy(DEFAULT_MAX_RETRIES, DEFAULT_RETRY_DELAY_MILLIS)
    {
      userPointTable, pointHistoryTable := map[], [];
      storeCalls := [];
      template := new SynchronizedLockTemplate<i64>();
    }

    /** `retrieveUserPointByUserId`: the stored record, or an empty one;
        nothing changes. */
    method RetrieveUserPointByUserId(userId: i64, now: i64) returns (u: UserPoint)
      requires Valid()
      ensures u.id == userId && PointPolicy.InBalanceRange(u.point as int)
      ensures u.point as int == Balance(userPointTable, userId)
      ensures userId in userPointTable ==> u == userPointTable[userId]
      ensures userId !in userPointTable ==> u == Empty(userId, now)
    {
      if userId in userPointTable {
        u := userPointTable[userId];
      } else {
        u := Empty(userId, now);
      }
    }

    /** `retrievePointHistoryByUserId`: exactly the user's rows, in insertion
        order; nothing changes. */
    method RetrievePointHistoryByUserId(userId: i64) returns (rows: seq<PointHistory>)
      requires Valid()
      ensures forall e :: e in rows ==> e in pointHistoryTable && e.userId == userId
      ensures forall i :: 0 <= i < |pointHistoryTable| && pointHistoryTable[i].userId == userId ==> pointHistoryTable[i] in rows
      ensures forall i, j :: 0 <= i < j < |rows| ==> rows[i].id < rows[j].id
      ensures Net(rows) == Balance(userPointTable, userId)
    {
      rows := HistoryOf(pointHistoryTable, userId);
      forall i | 0 <= i < |pointHistoryTable| && pointHistoryTable[i].userId == userId
        ensures pointHistoryTable[i] in rows
      {
        HistoryOfComplete(pointHistoryTable, userId, i);
      }
      HistoryOfInInsertionOrder(pointHistoryTable, userId);
    }

    /** The block run under the lock: read, validate, write, append. */
    method Apply(kind: TransactionType, userId: i64, amount: i64, now: i64) returns (r: Result<UserPoint, PointPolicy.PolicyError>)
      requires Valid()
      modifies this
      ensures Valid()
      ensures r.Success? ==> Transact(old(State()), kind, userId, amount, now) == Success((State(), r.value))
      ensures r.Failure? ==> Transact(old(State()), kind, userId, amount, now) == Failure(r.error) && State() == old(State())
      ensures storeCalls == old(storeCalls) + TransactCalls(old(State()), kind, userId, amount, now)
    {
      TransactKeepsConsistent(State(), kind, userId, amount, now);
      var origin := RetrieveUserPointByUserId(userId, now);
      storeCalls := storeCalls + [SelectUser(userId)];
      var moved := if kind == CHARGE then Charge(origin, amount, now) else Use(origin, amount, now);
      if moved.Failure? {
        return Failure(moved.error);
      }
      var stored := UserPoint(userId, moved.value.point, now);
      userPointTable := userPointTable[userId := stored];
      storeCalls := storeCalls + [WritePoint(userId, stored.point)];
      pointHistoryTable := pointHistoryTable + [PointHistory(|pointHistoryTable| + 1, userId, amount, kind, now)];
      storeCalls := storeCalls + [AppendHistory(userId, amount, kind)];
      r := Success(stored);
    }
    /** The gate the attempt loop reaches for a call through the template's
        default timeout, started at `start` and observing `obs`. */
    function Admission(start: int, obs: nat -> Observation): Gate {
      Attempts(template.Retry(), start + template.defaultTimeoutMillis, obs, 0, None).gate
    }

    /** `template.executeWithLock(userId, block)` around `Apply`. */
    method Transaction(kind: TransactionType, userId: i64, amount: i64, now: i64, start: int, obs: nat -> Observation)
      returns (r: Result<UserPoint, LockError<PointPolicy.PolicyError>>)
      requires Valid()
      modifies this, template.lockManager
      ensures Valid()
      ensures (r, State()) == Settle(old(State()), kind, userId, amount, now, Admission(start, obs))
      ensures template.lockManager.State() == AfterGetLock(old(template.lockManager.State()), userId).0
      ensures template.lockManager.schedulerRunning == old(template.lockManager.schedulerRunning)
      ensures storeCalls == old(storeCalls) +
        (if Admission(start, obs).Enter? then TransactCalls(old(State()), kind, userId, amount, now) else [])
    {
      var g := template.Acquire(userId, template.defaultTimeoutMillis, start, obs);
      if g.gate.Enter? {
        var outcome := Apply(kind, userId, amount, now);
        if outcome.Success? {
          r := Success(outcome.value);
        } else {
          r := Failure(LockExecution(outcome.error));
        }
      } else if g.gate.TimedOut? {
        r := Failure(LockTimeout(g.gate.lastFailure));
      } else {
        r := Failure(LockInterrupted);
      }
    }

    /** `chargePoint(userId, amount)`. */
    method ChargePoint(userId: i64, amount: i64, now: i64, start: int, obs: nat -> Observation)
      returns (r: Result<UserPoint, LockError<PointPolicy.PolicyError>>)
      requires Valid()
      modifies this, template.lockManager
      ensures Valid()
      ensures (r, State()) == Settle(old(State()), CHARGE, userId, amount, now, Admission(start, obs))
      ensures template.lockManager.State() == AfterGetLock(old(template.lockManager.State()), userId).0
      ensures template.lockManager.schedulerRunning == old(template.lockManager.schedulerRunning)
      ensures storeCalls == old(storeCalls) +
        (if Admission(start, obs).Enter? then TransactCalls(old(State()), CHARGE, userId, amount, now) else [])
    {
      r := Transaction(CHARGE, userId, amount, now, start, obs);
    }

    /** `usePoint(userId, amount)`. */
    method UsePoint(userId: i64, amount: i64, now: i64, start: int, obs: nat -> Observation)
      returns (r: Result<UserPoint, LockError<PointPolicy.PolicyError>>)
      requires Valid()
      modifies this, template.lockManager
      ensures Valid()
      ensures (r, State()) == Settle(old(State()), USE, userId, amount, now, Admission(start, obs))
      ensures template.lockManager.State() == AfterGetLock(old(template.lockManager.State()), userId).0
      ensures template.lockManager.schedulerRunning == old(template.lockManager.schedulerRunning)
      ensures storeCalls == old(storeCalls) +
        (if Admission(start, obs).Enter? then TransactCalls(old(State()), USE, userId, amount, now) else [])
    {
      r := Transaction(USE, userId, amount, now, start, obs);
    }
  }
}
