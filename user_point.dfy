/** `UserPoint`: the immutable account record. `charge` and `use` run the
    policy and return a new record; the receiver is never changed. */
module UserPoints {
  import opened Wrappers
  import opened JavaLong
  import opened PointPolicy

  datatype UserPoint = UserPoint(id: i64, point: i64, updateMillis: i64)

  /** `UserPoint.empty(id)`, stamped with the clock reading `now`. */
  function Empty(id: i64, now: i64): (u: UserPoint)
    ensures u.id == id && u.point == 0 && u.updateMillis == now
    ensures InBalanceRange(u.point as int)
  {
    UserPoint(id, 0, now)
  }

  /** `u.charge(amount)`: the CHARGE policy, then a record with the balance
      raised by `amount`. */
  function Charge(u: UserPoint, amount: i64, now: i64): (r: Result<UserPoint, PolicyError>)
    ensures r.Success? <==> Validate(CHARGE, u.point, amount).None?
    ensures r.Failure? ==> Validate(CHARGE, u.point, amount) == Some(r.error)
    ensures r.Success? ==>
      r.value.id == u.id && r.value.point as int == u.point as int + amount as int && r.value.updateMillis == now
  {
    match Validate(CHARGE, u.point, amount)
    case Some(e) => Failure(e)
    case None => Success(UserPoint(u.id, (u.point as int + amount as int) as i64, now))
  }

  /** `u.use(amount)`: the USE policy, then a record with the balance lowered
      by `amount`. */
  function Use(u: UserPoint, amount: i64, now: i64): (r: Result<UserPoint, PolicyError>)
    ensures r.Success? <==> Validate(USE, u.point, amount).None?
    ensures r.Failure? ==> Validate(USE, u.point, amount) == Some(r.error)
    ensures r.Success? ==>
      r.value.id == u.id && r.value.point as int == u.point as int - amount as int && r.value.updateMillis == now
  {
    match Validate(USE, u.point, amount)
    case Some(e) => Failure(e)
    case None => Success(UserPoint(u.id, (u.point as int - amount as int) as i64, now))
  }

  /** A successful charge keeps the balance within [0, 10,000,000,000]. */
  lemma ChargeKeepsBalanceInRange(u: UserPoint, amount: i64, now: i64)
    requires InBalanceRange(u.point as int)
    ensures Charge(u, amount, now).Success? ==> InBalanceRange(Charge(u, amount, now).value.point as int)
  {
    if Charge(u, amount, now).Success? {
      AdmittedStaysInRange(CHARGE, u.point, amount);
    }
  }

  /** A successful use keeps the balance within [0, 10,000,000,000]. */
  lemma UseKeepsBalanceInRange(u: UserPoint, amount: i64, now: i64)
    requires InBalanceRange(u.point as int)
    ensures Use(u, amount, now).Success? ==> InBalanceRange(Use(u, amount, now).value.point as int)
  {
    if Use(u, amount, now).Success? {
      AdmittedStaysInRange(USE, u.point, amount);
    }
  }

  /** Using what was just charged is always admitted and restores the balance. */
  lemma UseUndoesCharge(u: UserPoint, amount: i64, now: i64, later: i64)
    requires InBalanceRange(u.point as int)
    requires Charge(u, amount, now).Success?
    ensures Use(Charge(u, amount, now).value, amount, later) == Success(u.(updateMillis := later))
  {
  }
}
