/** claimant.c: a claimant of the C version, with its claim, what it still concedes, what it
    has collected so far and whether it is still partial (concedes something). */
module CClaimants {
  import opened CIntegers
  import opened CFractions

  datatype Claimant = Claimant(
    identifier: int, claim: Fraction, concession: Fraction, collects: Fraction, isPartial: bool)

  /** `newClaimant`: the concession is one minus the claim, nothing is collected yet, and the
      claimant is partial when the concession compares greater than the `{0, 1}` literal. */
  function NewClaimant(identifier: int, claim: Fraction): (r: Claimant)
    requires claim.denominator != 0
    ensures r.identifier == identifier && r.claim == claim && r.collects == ZeroLiteral
    ensures r.concession.denominator != 0 && Val(r.concession) == 1.0 - Val(claim)
    ensures r.isPartial <==> r.concession.numerator > 0
    ensures claim.denominator > 0 && 0.0 <= Val(claim) <= 1.0 ==>
      r.concession.denominator > 0 && r.concession.numerator >= 0 && Val(r.concession) <= 1.0 &&
      (r.isPartial <==> Val(claim) < 1.0)
  {
    var one := CreateFraction(1, 1);
    var concession := Subtract(one, claim);
    GreaterThanZeroLiteral(concession);
    if concession.denominator > 0 then
      SignOfQuotient(concession.numerator, concession.denominator);
      Claimant(identifier, claim, concession, ZeroLiteral, IsGreaterThan(concession, ZeroLiteral))
    else
      Claimant(identifier, claim, concession, ZeroLiteral, IsGreaterThan(concession, ZeroLiteral))
  }

  /** A claim above one leaves a negative concession; when simplifying moves its sign into the
      denominator, the claimant is still flagged partial: a claim of 9/8 concedes 1/-8. */
  lemma OverClaimCountsAsPartial()
    ensures var c := NewClaimant(0, Fraction(9, 8, false));
      c.isPartial && c.concession == Fraction(1, -8, true) && Val(c.concession) < 0.0
  {
    assert CreateFraction(1, 1) == Fraction(1, 1, true);
    assert Gcd(1, 8) == 1 by {
      assert CRem(1, 8) == 1 && CRem(8, 1) == 0;
    }
    assert LowestCommonMultiple(1, 8) == 8;
    assert AdjustForOperation(Fraction(1, 1, true), Fraction(9, 8, false)) == FractionAdjustments(8, 9, 8);
    SignMovesToDenominator();
  }
}
