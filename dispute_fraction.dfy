/** DisputeFraction: an exact rational that must stay within [0, 1].
    Python's Fraction is exact, so a rational is a `real` here; a DisputeFraction is a `Unit`.
    Every constructor and every arithmetic operator re-validates its result and raises
    FractionRangeError when it leaves [0, 1]; division by zero raises ZeroDivisionError. */
module DisputeFractions {
  import opened Errors

  /** The values a DisputeFraction may hold. */
  type Unit = r: real | 0.0 <= r <= 1.0

  predicate InRange(x: real) {
    0.0 <= x <= 1.0
  }

  /** `_validate`, applied to a freshly built value (also the one-argument constructor). */
  function Validate(x: real): (r: Result<Unit>)
    ensures r.Ok? <==> InRange(x)
    ensures r.Ok? ==> r.value == x
    ensures r.Err? ==> r.error == FractionRangeError
  {
    if 0.0 <= x <= 1.0 then Ok(x) else Err(FractionRangeError)
  }

  /** `DisputeFraction(numerator, denominator)`: Fraction rejects a zero denominator,
      then the value is range-checked. */
  function FromRatio(numerator: int, denominator: int): (r: Result<Unit>)
    ensures denominator == 0 ==> r == Err(ZeroDivisionError)
    ensures denominator != 0 ==>
      (r.Ok? <==> InRange(numerator as real / denominator as real)) &&
      (r.Ok? ==> r.value == numerator as real / denominator as real) &&
      (r.Err? ==> r.error == FractionRangeError)
  {
    if denominator == 0 then Err(ZeroDivisionError)
    else Validate(numerator as real / denominator as real)
  }

  // The eight operators. `_operate` coerces the other operand to a Fraction (exact, so the
  // identity on rationals), applies the exact operation and validates the result.

  function Add(self: Unit, other: real): (r: Result<Unit>)
    ensures r.Ok? <==> InRange(self + other)
    ensures r.Ok? ==> r.value == self + other
    ensures r.Err? ==> r.error == FractionRangeError
  {
    Validate(self + other)
  }

  function Sub(self: Unit, other: real): (r: Result<Unit>)
    ensures r.Ok? <==> InRange(self - other)
    ensures r.Ok? ==> r.value == self - other
    ensures r.Err? ==> r.error == FractionRangeError
  {
    Validate(self - other)
  }

  function Mul(self: Unit, other: real): (r: Result<Unit>)
    ensures r.Ok? <==> InRange(self * other)
    ensures r.Ok? ==> r.value == self * other
    ensures r.Err? ==> r.error == FractionRangeError
  {
    Validate(self * other)
  }

  /** `__truediv__`: a zero divisor is rejected before anything is computed. */
  function TrueDiv(self: Unit, other: real): (r: Result<Unit>)
    ensures other == 0.0 ==> r == Err(ZeroDivisionError)
    ensures other != 0.0 ==>
      (r.Ok? <==> InRange(self / other)) &&
      (r.Ok? ==> r.value == self / other) &&
      (r.Err? ==> r.error == FractionRangeError)
  {
    if other == 0.0 then Err(ZeroDivisionError) else Validate(self / other)
  }

  /** `__radd__`: `other + self`. */
  function RAdd(self: Unit, other: real): (r: Result<Unit>)
    ensures r.Ok? <==> InRange(other + self)
    ensures r.Ok? ==> r.value == other + self
    ensures r.Err? ==> r.error == FractionRangeError
  {
    Validate(other + self)
  }

  /** `__rsub__`: `other - self`, the operands taken in the reflected order. */
  function RSub(self: Unit, other: real): (r: Result<Unit>)
    ensures r.Ok? <==> InRange(other - self)
    ensures r.Ok? ==> r.value == other - self
    ensures r.Err? ==> r.error == FractionRangeError
  {
    Validate(other - self)
  }

  /** `__rmul__`: `other * self`. */
  function RMul(self: Unit, other: real): (r: Result<Unit>)
    ensures r.Ok? <==> InRange(other * self)
    ensures r.Ok? ==> r.value == other * self
    ensures r.Err? ==> r.error == FractionRangeError
  {
    Validate(other * self)
  }

  /** `__rtruediv__`: `other / self`; it is `self` that must not be zero. */
  function RTrueDiv(self: Unit, other: real): (r: Result<Unit>)
    ensures self == 0.0 ==> r == Err(ZeroDivisionError)
    ensures self != 0.0 ==>
      (r.Ok? <==> InRange(other / self)) &&
      (r.Ok? ==> r.value == other / self) &&
      (r.Err? ==> r.error == FractionRangeError)
  {
    if self == 0.0 then Err(ZeroDivisionError) else Validate(other / self)
  }

  /** What `validate_claim` may be given (float and string inputs are not modelled). */
  datatype ClaimInput =
    | DisputeFractionClaim(fraction: Unit)   // already a DisputeFraction
    | FractionClaim(rational: real)          // a plain fractions.Fraction
    | IntegerClaim(integer: int)             // a Python int

  /** `validate_claim`. A non-Fraction goes through the one-argument constructor, whose
      FractionRangeError is a ValueError and is therefore re-raised as TypeError; a plain
      Fraction is rebuilt from its numerator and denominator and may raise FractionRangeError. */
  function ValidateClaim(claim: ClaimInput): (r: Result<Unit>)
    ensures claim.DisputeFractionClaim? ==> r == Ok(claim.fraction)
    ensures claim.FractionClaim? ==>
      (r.Ok? <==> InRange(claim.rational)) &&
      (r.Ok? ==> r.value == claim.rational) &&
      (r.Err? ==> r.error == FractionRangeError)
    ensures claim.IntegerClaim? ==>
      (r.Ok? <==> 0 <= claim.integer <= 1) &&
      (r.Ok? ==> r.value == claim.integer as real) &&
      (r.Err? ==> r.error == TypeError)
  {
    match claim
    case DisputeFractionClaim(f) => Ok(f)
    case FractionClaim(q) => Validate(q)
    case IntegerClaim(n) =>
      match Validate(n as real)
      case Err(_) => Err(TypeError)
      case Ok(f) => Ok(f)
  }

  /** Validating a claim twice is the same as validating it once. */
  lemma ValidateClaimIdempotent(claim: ClaimInput)
    requires ValidateClaim(claim).Ok?
    ensures ValidateClaim(DisputeFractionClaim(ValidateClaim(claim).value)) == ValidateClaim(claim)
  {
  }

  /** The unit-test expectations on the operators, including the reflected ones with 0.5 on the left. */
  lemma OperatorExamples()
    ensures Add(1.0 / 4.0, 1.0 / 4.0) == Ok(1.0 / 2.0)
    ensures Sub(3.0 / 4.0, 1.0 / 4.0) == Ok(1.0 / 2.0)
    ensures Mul(1.0 / 2.0, 1.0 / 2.0) == Ok(1.0 / 4.0)
    ensures TrueDiv(1.0 / 2.0, 1.0 / 2.0) == Ok(1.0)
    ensures RAdd(1.0 / 4.0, 0.5) == Ok(3.0 / 4.0)
    ensures RSub(1.0 / 4.0, 0.5) == Ok(1.0 / 4.0)
    ensures RMul(1.0 / 4.0, 0.5) == Ok(1.0 / 8.0)
    ensures RTrueDiv(1.0 / 4.0, 0.5) == Err(FractionRangeError)
    ensures TrueDiv(1.0, 0.0) == Err(ZeroDivisionError)
    ensures Add(1.0 / 2.0, 3.0 / 4.0) == Err(FractionRangeError)
  {
  }
}
