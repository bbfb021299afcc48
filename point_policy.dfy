/** The point policy: the admit/reject decision that precedes every charge
    and every use (`PointPolicy.CHARGE.validate`, `PointPolicy.USE.validate`). */
module PointPolicy {
  import opened Wrappers
  import opened JavaLong

  const MIN_CHARGE_AMOUNT: int := 10_000
  const MAX_BALANCE: int := 10_000_000_000
  const MIN_USE_AMOUNT: int := 1_000
  const MIN_BALANCE: int := 0

  datatype Policy = CHARGE | USE

  /** What `validate` throws. The amount check raises an
      IllegalArgumentException; the balance checks raise an
      IllegalStateException. */
  datatype PolicyError =
    | AmountBelowMinimum(minimum: int)
    | BalanceLimitExceeded(maximum: int)
    | InsufficientPoints
  {
    predicate IsIllegalArgument() { AmountBelowMinimum? }
    predicate IsIllegalState() { !AmountBelowMinimum? }
  }

  /** The smallest amount a policy accepts. */
  function MinimumAmount(policy: Policy): int {
    match policy
    case CHARGE => MIN_CHARGE_AMOUNT
    case USE => MIN_USE_AMOUNT
  }

  /** A balance a committed transition may leave behind. */
  predicate InBalanceRange(point: int) {
    MIN_BALANCE <= point <= MAX_BALANCE
  }

  /** `validate(currentPoint, amount)`: `None` when it returns normally,
      `Some(e)` when it throws `e`. The arithmetic is exact; the 64-bit
      arithmetic of the source is `ValidateAsWritten`. */
  function Validate(policy: Policy, currentPoint: i64, amount: i64): (r: Option<PolicyError>)
    // the amount is checked first: a too-small amount is an argument error whatever the balance
    ensures amount as int < MinimumAmount(policy) ==> r == Some(AmountBelowMinimum(MinimumAmount(policy)))
    ensures r.Some? && r.value.IsIllegalState() ==> amount as int >= MinimumAmount(policy)
    // and only then: the argument error always means the amount was too small
    ensures r.Some? && r.value.AmountBelowMinimum? ==> amount as int < MinimumAmount(policy)
    // a charge past the cap raises the cap error, an overdraw the insufficient-points error
    ensures policy == CHARGE && amount as int >= MIN_CHARGE_AMOUNT && currentPoint as int + amount as int > MAX_BALANCE ==>
      r == Some(BalanceLimitExceeded(MAX_BALANCE))
    ensures policy == USE && amount as int >= MIN_USE_AMOUNT && currentPoint as int - amount as int < MIN_BALANCE ==>
      r == Some(InsufficientPoints)
    ensures policy == CHARGE ==>
      (r.None? <==> MIN_CHARGE_AMOUNT <= amount as int && currentPoint as int + amount as int <= MAX_BALANCE)
    ensures policy == CHARGE ==> r != Some(InsufficientPoints)
    ensures policy == USE ==>
      (r.None? <==> MIN_USE_AMOUNT <= amount as int <= currentPoint as int)
    ensures policy == USE ==> forall m :: r != Some(BalanceLimitExceeded(m))
  {
    match policy
    case CHARGE =>
      if amount as int < MIN_CHARGE_AMOUNT then Some(AmountBelowMinimum(MIN_CHARGE_AMOUNT))
      else if currentPoint as int + amount as int > MAX_BALANCE then Some(BalanceLimitExceeded(MAX_BALANCE))
      else None
    case USE =>
      if amount as int < MIN_USE_AMOUNT then Some(AmountBelowMinimum(MIN_USE_AMOUNT))
      else if currentPoint as int - amount as int < MIN_BALANCE then Some(InsufficientPoints)
      else None
  }

  /** An admitted transition from an in-range balance lands in range again. */
  lemma AdmittedStaysInRange(policy: Policy, currentPoint: i64, amount: i64)
    requires InBalanceRange(currentPoint as int)
    requires Validate(policy, currentPoint, amount).None?
    ensures policy == CHARGE ==> InBalanceRange(currentPoint as int + amount as int)
    ensures policy == USE ==> InBalanceRange(currentPoint as int - amount as int)
  {
  }

  /** The admitted and rejected cases the policy's own tests exercise. */
  lemma PolicyExamples()
    ensures Validate(USE, 1000, 1000).None? && Validate(USE, 2000, 1999).None?
    ensures Validate(USE, MAX_BALANCE as i64, 1000).None?
    ensures Validate(USE, MAX_BALANCE as i64, MAX_BALANCE as i64).None?
    ensures Validate(CHARGE, 1000, 10000).None? && Validate(CHARGE, 1000, 20000).None?
    ensures Validate(CHARGE, 0, MAX_BALANCE as i64).None?
    ensures Validate(CHARGE, (MAX_BALANCE - 10000) as i64, 10000).None?
    ensures Validate(USE, 1000, 0) == Some(AmountBelowMinimum(1000))
    ensures Validate(USE, 1000, -1) == Some(AmountBelowMinimum(1000))
    ensures Validate(USE, 1000, 999) == Some(AmountBelowMinimum(1000))
    ensures Validate(CHARGE, 1000, 0) == Some(AmountBelowMinimum(10000))
    ensures Validate(CHARGE, 1000, -1) == Some(AmountBelowMinimum(10000))
    ensures Validate(CHARGE, 1000, 9999) == Some(AmountBelowMinimum(10000))
    ensures Validate(USE, 1000, 1001) == Some(InsufficientPoints)
    ensures Validate(CHARGE, 0, (MAX_BALANCE + 1) as i64) == Some(BalanceLimitExceeded(MAX_BALANCE))
    ensures Validate(CHARGE, 1000, MAX_BALANCE as i64) == Some(BalanceLimitExceeded(MAX_BALANCE))
  {
  }

  /** `validate` exactly as the source computes it, with `currentPoint + amount`
      and `currentPoint - amount` evaluated in 64-bit `long` arithmetic. */
  function ValidateAsWritten(policy: Policy, currentPoint: i64, amount: i64): (r: Option<PolicyError>)
    // without overflow it is the exact policy
    ensures InLongRange(currentPoint as int + amount as int) && InLongRange(currentPoint as int - amount as int)
      ==> r == Validate(policy, currentPoint, amount)
    // the amount check has no arithmetic and is never affected
    ensures r.None? ==> amount as int >= MinimumAmount(policy)
  {
    match policy
    case CHARGE =>
      if amount as int < MIN_CHARGE_AMOUNT then Some(AmountBelowMinimum(MIN_CHARGE_AMOUNT))
      else if Wrap(currentPoint as int + amount as int) as int > MAX_BALANCE then Some(BalanceLimitExceeded(MAX_BALANCE))
      else None
    case USE =>
      if amount as int < MIN_USE_AMOUNT then Some(AmountBelowMinimum(MIN_USE_AMOUNT))
      else if Wrap(currentPoint as int - amount as int) as int < MIN_BALANCE then Some(InsufficientPoints)
      else None
  }

  /** The cap check overflows: charging Long.MAX_VALUE onto a balance of 1
      wraps `currentPoint + amount` to Long.MIN_VALUE, which is below the cap,
      so the charge is admitted and the new balance `point + amount` is
      negative; the exact policy rejects it. */
  lemma ChargeOverflowAdmitted()
    ensures ValidateAsWritten(CHARGE, 1, LONG_MAX as i64) == None
    ensures Wrap(1 + LONG_MAX) as int == LONG_MIN
    ensures Validate(CHARGE, 1, LONG_MAX as i64) == Some(BalanceLimitExceeded(MAX_BALANCE))
  {
  }
}
