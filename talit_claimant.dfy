/** TalitClaimant: one party to the dispute. Its claim is fixed; its concession (what it
    still concedes to the others) and what it has collected change in place, each guarded. */
module TalitClaimants {
  import opened Errors
  import opened DisputeFractions

  /** The fields of a claimant, as a value. */
  datatype ClaimantState = ClaimantState(identifier: string, claim: Unit, concession: Unit, collected: Unit)

  /** The claimant `__post_init__` builds: it concedes `1 - claim` (through the reflected
      subtraction, which cannot leave [0, 1] here) and has collected nothing. */
  function NewClaimantState(identifier: string, claim: Unit): (c: ClaimantState)
    ensures c.identifier == identifier && c.claim == claim
    ensures c.concession + c.claim == 1.0 && c.collected == 0.0
  {
    ClaimantState(identifier, claim, RSub(claim, 1.0).value, 0.0)
  }

  /** `collect`: an amount above the claim itself (not above what is still owed) is refused;
      otherwise the amount is added to `collected`, which must stay within [0, 1]. */
  function CollectStep(c: ClaimantState, amount: Unit): (r: Result<ClaimantState>)
    ensures amount > c.claim ==> r == Err(FractionOperationError(CollectMoreThanClaim))
    ensures amount <= c.claim ==> (r.Ok? <==> c.collected + amount <= 1.0)
    ensures amount <= c.claim && r.Err? ==> r.error == FractionRangeError
    ensures r.Ok? ==> r.value == c.(collected := c.collected + amount)
  {
    if amount > c.claim then Err(FractionOperationError(CollectMoreThanClaim))
    else
      match Add(c.collected, amount)
      case Err(e) => Err(e)
      case Ok(sum) => Ok(c.(collected := sum))
  }

  /** `concede`: an amount above the current concession is refused; otherwise the concession
      drops by exactly that amount and stays non-negative. */
  function ConcedeStep(c: ClaimantState, amount: Unit): (r: Result<ClaimantState>)
    ensures r.Ok? <==> amount <= c.concession
    ensures r.Err? ==> r.error == FractionOperationError(ConcedeMoreThanConcession)
    ensures r.Ok? ==> r.value == c.(concession := c.concession - amount)
  {
    if amount > c.concession then Err(FractionOperationError(ConcedeMoreThanConcession))
    else Ok(c.(concession := Sub(c.concession, amount).value))
  }

  /** A call made on a claimant. */
  datatype Op = CollectOp(amount: Unit) | ConcedeOp(amount: Unit)

  function Apply(c: ClaimantState, op: Op): Result<ClaimantState> {
    match op
    case CollectOp(a) => CollectStep(c, a)
    case ConcedeOp(a) => ConcedeStep(c, a)
  }

  /** The calls `ops`, made one after another until one raises. */
  function ApplyAll(c: ClaimantState, ops: seq<Op>): Result<ClaimantState>
    decreases |ops|
  {
    if ops == [] then Ok(c)
    else
      match Apply(c, ops[0])
      case Err(e) => Err(e)
      case Ok(next) => ApplyAll(next, ops[1..])
  }

  /** The total amount the collect calls among `ops` ask for. */
  function CollectedBy(ops: seq<Op>): real {
    if ops == [] then 0.0
    else (if ops[0].CollectOp? then ops[0].amount else 0.0) + CollectedBy(ops[1..])
  }

  /** The total amount the concede calls among `ops` ask for. */
  function ConcededBy(ops: seq<Op>): real {
    if ops == [] then 0.0
    else (if ops[0].ConcedeOp? then ops[0].amount else 0.0) + ConcededBy(ops[1..])
  }

  /** Across calls that all complete, `collected` grows by exactly what was collected and the
      concession shrinks by exactly what was conceded: the first never decreases, the second
      never increases, and identifier and claim never change. */
  lemma {:induction false} ApplyAllAccounts(c: ClaimantState, ops: seq<Op>)
    requires ApplyAll(c, ops).Ok?
    decreases |ops|
    ensures var d := ApplyAll(c, ops).value;
      d.identifier == c.identifier && d.claim == c.claim &&
      d.collected == c.collected + CollectedBy(ops) &&
      d.concession == c.concession - ConcededBy(ops) &&
      d.collected >= c.collected && d.concession <= c.concession
  {
    if ops != [] {
      var next := Apply(c, ops[0]).value;
      ApplyAllAccounts(next, ops[1..]);
    }
  }

  class TalitClaimant {
    const identifier: string
    const claim: Unit
    var concession: Unit
    var collected: Unit

    function State(): ClaimantState
      reads this
    {
      ClaimantState(identifier, claim, concession, collected)
    }

    constructor (identifier: string, claim: Unit)
      ensures State() == NewClaimantState(identifier, claim)
    {
      this.identifier := identifier;
      this.claim := claim;
      concession := RSub(claim, 1.0).value;
      collected := 0.0;
    }

    /** `collect`, in place; on a raise nothing has changed. */
    method Collect(amount: Unit) returns (outcome: Outcome)
      modifies this`collected
      ensures outcome == OutcomeOf(CollectStep(old(State()), amount))
      ensures State() == StateAfter(old(State()), CollectStep(old(State()), amount))
    {
      if amount > claim {
        return Fail(FractionOperationError(CollectMoreThanClaim));
      }
      var sum := Add(collected, amount);
      if sum.Err? {
        return Fail(sum.error);
      }
      collected := sum.value;
      outcome := Pass;
    }

    /** `concede`, in place; on a raise nothing has changed. */
    method Concede(amount: Unit) returns (outcome: Outcome)
      modifies this`concession
      ensures outcome == OutcomeOf(ConcedeStep(old(State()), amount))
      ensures State() == StateAfter(old(State()), ConcedeStep(old(State()), amount))
    {
      if amount > concession {
        return Fail(FractionOperationError(ConcedeMoreThanConcession));
      }
      concession := Sub(concession, amount).value;
      outcome := Pass;
    }
  }
}
