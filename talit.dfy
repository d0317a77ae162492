/** Talit: the disputed garment. Its remainder, the part not yet handed out, starts at the
    whole (1) and only shrinks, through a guarded `allocate`. */
module Talits {
  import opened Errors
  import opened DisputeFractions

  /** `allocate`: an amount above the remainder is refused; otherwise the remainder drops by
      exactly the amount, and so stays within [0, 1] and never grows. */
  function Allocation(remainder: Unit, amount: Unit): (r: Result<Unit>)
    ensures remainder < amount ==> r == Err(FractionOperationError(AllocateMoreThanRemainder))
    ensures amount <= remainder ==> r == Ok(remainder - amount)
    ensures r.Ok? ==> r.value <= remainder
  {
    if remainder < amount then Err(FractionOperationError(AllocateMoreThanRemainder))
    else Sub(remainder, amount)
  }

  /** Allocating the whole remainder always succeeds and leaves exactly nothing. */
  lemma AllocateRemainderEmpties(remainder: Unit)
    ensures Allocation(remainder, remainder) == Ok(0.0)
  {
  }

  /** The documented example: a fresh Talit that allocates 1/4 keeps 3/4. */
  lemma AllocateQuarterExample()
    ensures Allocation(1.0, 1.0 / 4.0) == Ok(3.0 / 4.0)
  {
  }

  class Talit {
    var remainder: Unit

    /** A Talit is created whole. */
    constructor ()
      ensures remainder == 1.0
    {
      remainder := 1.0;
    }

    /** `allocate`, in place; on a raise the remainder is unchanged. */
    method Allocate(amount: Unit) returns (outcome: Outcome)
      modifies this
      ensures outcome == OutcomeOf(Allocation(old(remainder), amount))
      ensures remainder == StateAfter(old(remainder), Allocation(old(remainder), amount))
    {
      if remainder < amount {
        return Fail(FractionOperationError(AllocateMoreThanRemainder));
      }
      remainder := Sub(remainder, amount).value;
      outcome := Pass;
    }
  }
}
