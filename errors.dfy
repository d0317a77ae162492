/** The exceptions raised by the Python implementation, as values.
    FractionRangeError and FractionOperationError are the two subclasses of FractionError
    (itself a ValueError); ZeroDivisionError and TypeError are Python's own. */
module Errors {

  /** Which guard raised a FractionOperationError: each guard has its own message. */
  datatype OperationFailure =
    | CollectMoreThanClaim        // TalitClaimant.collect
    | ConcedeMoreThanConcession   // TalitClaimant.concede
    | AllocateMoreThanRemainder   // Talit.allocate

  datatype Error =
    | FractionRangeError
    | FractionOperationError(failure: OperationFailure)
    | ZeroDivisionError
    | TypeError

  /** A value, or the exception that was raised instead. */
  datatype Result<+T> = Ok(value: T) | Err(error: Error)

  /** The outcome of a call that returns None in Python: it completed, or it raised. */
  datatype Outcome = Pass | Fail(error: Error)

  /** The outcome of a call whose result was `r`. */
  function OutcomeOf<T>(r: Result<T>): Outcome {
    match r
    case Ok(_) => Pass
    case Err(e) => Fail(e)
  }

  /** What a sequence of in-place updates leaves behind: the state reached, and whether the
      last call completed or raised part-way (updates made before the raise stay made). */
  datatype Attempt<T> = Attempt(state: T, outcome: Outcome)

  /** The state after a step that either produced `r` or raised and left `current` as it was. */
  function StateAfter<T>(current: T, r: Result<T>): T {
    match r
    case Ok(next) => next
    case Err(_) => current
  }
}
