/** distribution.c: how one round shares out a concession. The concession is divided among
    everyone but the conceder (`perClaimantFraction`); each partial claimant splits that share
    with all full claimants (`splitWithFulls`); each full claimant receives the share plus one
    split from every partial claimant (`totalForFulls`). */
module CDistributions {
  import opened CFractions
  import opened Sequences

  datatype Distribution = Distribution(
    currentConcession: Fraction, perClaimantFraction: Fraction, splitWithFulls: Fraction, totalForFulls: Fraction)

  /** `newDistribution`. The divisions are exact; a single claimant would divide by zero, and
      so would `partialsCount == totalClaimants + 1`. */
  function NewDistribution(concession: Fraction, partialsCount: nat, totalClaimants: int): (r: Distribution)
    requires concession.denominator != 0 && totalClaimants != 1 && partialsCount != totalClaimants + 1
    ensures r.currentConcession == concession
    ensures r.perClaimantFraction.denominator != 0 && r.splitWithFulls.denominator != 0 &&
      r.totalForFulls.denominator != 0
    ensures Val(r.perClaimantFraction) == Val(concession) / (totalClaimants - 1) as real
    ensures Val(r.splitWithFulls) == Val(r.perClaimantFraction) / (totalClaimants - partialsCount + 1) as real
    ensures Val(r.totalForFulls) == Val(r.perClaimantFraction) + Times(partialsCount, Val(r.splitWithFulls))
    ensures Natural(concession) && partialsCount <= totalClaimants && totalClaimants >= 2 ==>
      Natural(r.perClaimantFraction) && Natural(r.splitWithFulls) && Natural(r.totalForFulls)
  {
    RoundValues(concession, partialsCount, totalClaimants);
    Distribution(concession, DivideByInt(concession, totalClaimants - 1),
      DivideByInt(DivideByInt(concession, totalClaimants - 1), totalClaimants - partialsCount + 1),
      Add(DivideByInt(concession, totalClaimants - 1),
        MultiplyByInt(DivideByInt(DivideByInt(concession, totalClaimants - 1), totalClaimants - partialsCount + 1),
          partialsCount)))
  }

  lemma RoundValues(concession: Fraction, partialsCount: nat, totalClaimants: int)
    requires concession.denominator != 0 && totalClaimants != 1 && partialsCount != totalClaimants + 1
    ensures var per := DivideByInt(concession, totalClaimants - 1);
      var split := DivideByInt(per, totalClaimants - partialsCount + 1);
      var total := Add(per, MultiplyByInt(split, partialsCount));
      per.denominator != 0 && split.denominator != 0 && total.denominator != 0 &&
      Val(per) == Val(concession) / (totalClaimants - 1) as real &&
      Val(split) == Val(per) / (totalClaimants - partialsCount + 1) as real &&
      Val(total) == Val(per) + Times(partialsCount, Val(split)) &&
      (Natural(concession) && partialsCount <= totalClaimants && totalClaimants >= 2 ==>
        Natural(per) && Natural(split) && Natural(total))
  {
    var per := DivideByInt(concession, totalClaimants - 1);
    DivideByIntValue(concession, totalClaimants - 1);
    var split := DivideByInt(per, totalClaimants - partialsCount + 1);
    DivideByIntValue(per, totalClaimants - partialsCount + 1);
    MultiplyByCountValue(split, partialsCount);
    AddValue(per, MultiplyByInt(split, partialsCount));
  }

  /** A natural numerator over a positive denominator. */
  predicate Natural(f: Fraction) {
    f.numerator >= 0 && f.denominator > 0
  }

  lemma NaturalValue(f: Fraction)
    ensures Natural(f) ==> Val(f) >= 0.0
  {
    if Natural(f) {
      SignOfQuotient(f.numerator, f.denominator);
    }
  }

  // The value of each operation, stated once more on its own: a call of one of these lemmas
  // hands the solver the fact directly instead of leaving it to unfold the operation.

  lemma DivideByIntValue(f: Fraction, k: int)
    requires f.denominator != 0 && k != 0
    ensures DivideByInt(f, k).denominator != 0 && Val(DivideByInt(f, k)) == Val(f) / k as real
    ensures Natural(f) && k > 0 ==> Natural(DivideByInt(f, k))
  {
  }

  lemma MultiplyByIntValue(f: Fraction, k: int)
    requires f.denominator != 0
    ensures MultiplyByInt(f, k).denominator != 0 && Val(MultiplyByInt(f, k)) == Val(f) * k as real
    ensures Natural(f) && k >= 0 ==> Natural(MultiplyByInt(f, k))
  {
  }

  /** Multiplying by a count is adding the fraction that many times. */
  lemma MultiplyByCountValue(f: Fraction, k: nat)
    requires f.denominator != 0
    ensures MultiplyByInt(f, k).denominator != 0 && Val(MultiplyByInt(f, k)) == Times(k, Val(f))
    ensures Natural(f) ==> Natural(MultiplyByInt(f, k))
  {
    MultiplyByIntValue(f, k);
    TimesIsProduct(k, Val(f));
  }

  lemma AddValue(f: Fraction, g: Fraction)
    requires f.denominator != 0 && g.denominator != 0
    ensures Add(f, g).denominator != 0 && Val(Add(f, g)) == Val(f) + Val(g)
    ensures Natural(f) && Natural(g) ==> Natural(Add(f, g))
  {
    NaturalValue(f);
    NaturalValue(g);
  }

  /** What one round hands out adds up to one `perClaimantFraction` per claimant: the full
      claimants' totals and the partial claimants' splits together. */
  lemma DistributionIdentity(concession: Fraction, partialsCount: nat, totalClaimants: nat)
    requires concession.denominator != 0 && totalClaimants != 1 && partialsCount <= totalClaimants
    ensures var d := NewDistribution(concession, partialsCount, totalClaimants);
      Times(totalClaimants - partialsCount, Val(d.totalForFulls)) + Times(partialsCount, Val(d.splitWithFulls))
        == Times(totalClaimants, Val(d.perClaimantFraction))
  {
    HandOut(NewDistribution(concession, partialsCount, totalClaimants), partialsCount, totalClaimants - partialsCount);
  }

  lemma HandOut(d: Distribution, p: nat, f: nat)
    requires d.perClaimantFraction.denominator != 0 && d.splitWithFulls.denominator != 0
    requires d.totalForFulls.denominator != 0
    requires Val(d.splitWithFulls) == Val(d.perClaimantFraction) / (f + 1) as real
    requires Val(d.totalForFulls) == Val(d.perClaimantFraction) + Times(p, Val(d.splitWithFulls))
    ensures Times(f, Val(d.totalForFulls)) + Times(p, Val(d.splitWithFulls)) == Times(p + f, Val(d.perClaimantFraction))
  {
    var per, split, total := Val(d.perClaimantFraction), Val(d.splitWithFulls), Val(d.totalForFulls);
    TimesIsProduct(f, total);
    TimesIsProduct(p, split);
    assert total == per + split * p as real;
    TimesIsProduct(p + f, per);
    assert split * (f + 1) as real == per;
    calc {
      f as real * (per + split * p as real) + p as real * split;
      f as real * per + p as real * (split * (f + 1) as real);
      f as real * per + p as real * per;
    }
  }
}
