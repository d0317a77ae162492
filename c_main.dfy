/** main.c: the driver of the C version. While the remainder compares greater than the `{0, 1}`
    literal it runs rounds: a split when no claimant is partial, otherwise a distribution of the
    lowest concession. */
module CMain {
  import opened CFractions
  import opened CDisputes

  /** The dispute `applyTalmudicPrincipal` leaves. Each distribution lowers `partialsCount` and a
      split leaves a remainder of zero, so the rounds come to an end. */
  function ApplyOf(s: DisputeState): DisputeState
    requires Valid(s)
    decreases s.partialsCount, if IsGreaterThan(s.remainder, ZeroLiteral) then 1 else 0
  {
    if !IsGreaterThan(s.remainder, ZeroLiteral) then s
    else if s.partialsCount == 0 then
      GreaterThanZeroLiteral(s.remainder);
      SplitKeepsValid(s);
      ApplyOf(SplitOf(s))
    else
      DistributeKeepsValid(s);
      DistributeShrinks(s);
      ApplyOf(DistributeOf(s))
  }

  /** A split keeps the invariant, with or without claimants. */
  lemma SplitKeepsValid(s: DisputeState)
    requires Valid(s) && (s.remainder.numerator != 0 || |s.claimants| != 0)
    ensures Valid(SplitOf(s)) && SameClaims(s.claimants, SplitOf(s).claimants)
    ensures SplitOf(s).partialsCount == s.partialsCount && SplitOf(s).remainder == ZeroLiteral
  {
    if |s.claimants| >= 1 {
      SplitConserves(s);
    } else {
      SplitAmongNobody(s);
    }
  }

  /** The number of rounds the loop of `applyTalmudicPrincipal` runs. */
  function Rounds(s: DisputeState): nat
    requires Valid(s)
    decreases s.partialsCount, if IsGreaterThan(s.remainder, ZeroLiteral) then 1 else 0
  {
    if !IsGreaterThan(s.remainder, ZeroLiteral) then 0
    else if s.partialsCount == 0 then
      GreaterThanZeroLiteral(s.remainder);
      SplitKeepsValid(s);
      1 + Rounds(SplitOf(s))
    else
      DistributeKeepsValid(s);
      DistributeShrinks(s);
      1 + Rounds(DistributeOf(s))
  }

  /** At most one round per partial claimant, and one more for the split. */
  lemma {:induction false} RoundsBound(s: DisputeState)
    requires Valid(s)
    ensures Rounds(s) <= s.partialsCount + 1
    decreases s.partialsCount, if IsGreaterThan(s.remainder, ZeroLiteral) then 1 else 0
  {
    if IsGreaterThan(s.remainder, ZeroLiteral) {
      if s.partialsCount == 0 {
        GreaterThanZeroLiteral(s.remainder);
        SplitKeepsValid(s);
        assert Rounds(SplitOf(s)) == 0;
      } else {
        DistributeKeepsValid(s);
        DistributeShrinks(s);
        RoundsBound(DistributeOf(s));
      }
    }
  }

  /** A remainder that does not compare greater than zero leaves the dispute as it is. */
  lemma NothingLeftNothingDone(s: DisputeState)
    requires Valid(s) && s.remainder.numerator <= 0
    ensures ApplyOf(s) == s && Rounds(s) == 0
  {
    GreaterThanZeroLiteral(s.remainder);
  }

  /** The rounds keep the invariant and every claimant's identifier and claim, and they stop
      exactly when the remainder's numerator is no longer positive; claimants may still be
      partial then. */
  lemma {:induction false} ApplyKeepsValid(s: DisputeState)
    requires Valid(s)
    ensures Valid(ApplyOf(s)) && SameClaims(s.claimants, ApplyOf(s).claimants)
    ensures ApplyOf(s).remainder.numerator <= 0
    decreases s.partialsCount, if IsGreaterThan(s.remainder, ZeroLiteral) then 1 else 0
  {
    GreaterThanZeroLiteral(s.remainder);
    if IsGreaterThan(s.remainder, ZeroLiteral) {
      if s.partialsCount == 0 {
        SplitKeepsValid(s);
        ApplyKeepsValid(SplitOf(s));
      } else {
        DistributeKeepsValid(s);
        DistributeShrinks(s);
        ApplyKeepsValid(DistributeOf(s));
      }
    }
  }

  /** With at least one claimant, the rounds only move value from the remainder to the
      claimants: the remainder plus everything collected is what it was. */
  lemma {:induction false} ApplyConserves(s: DisputeState)
    requires Valid(s) && |s.claimants| >= 1
    ensures Valid(ApplyOf(s)) && Total(ApplyOf(s)) == Total(s)
    decreases s.partialsCount, if IsGreaterThan(s.remainder, ZeroLiteral) then 1 else 0
  {
    ApplyKeepsValid(s);
    if IsGreaterThan(s.remainder, ZeroLiteral) {
      if s.partialsCount == 0 {
        GreaterThanZeroLiteral(s.remainder);
        SplitConserves(s);
        ApplyConserves(SplitOf(s));
      } else {
        DistributeConserves(s);
        DistributeKeepsValid(s);
        DistributeShrinks(s);
        ApplyConserves(DistributeOf(s));
      }
    }
  }

  /** From `createDispute` to the end of the rounds, the remainder plus everything collected
      is one. */
  lemma ResolutionConserves(claims: seq<Fraction>)
    requires InRange(claims) && |claims| >= 1 && (|claims| == 1 ==> Val(claims[0]) == 1.0)
    ensures Valid(CreatedOf(claims)) && Valid(ApplyOf(CreatedOf(claims)))
    ensures Total(ApplyOf(CreatedOf(claims))) == 1.0
  {
    CreatedValid(claims);
    ApplyConserves(CreatedOf(claims));
  }

  /** `applyTalmudicPrincipal`: the rounds run on the dispute in place; `rounds` counts the
      passes of its loop, at most one per partial claimant and one more for the split. */
  method ApplyTalmudicPrincipal(dispute: Dispute) returns (ghost rounds: nat)
    modifies dispute, dispute.claimants
    requires Valid(dispute.State())
    ensures dispute.State() == ApplyOf(old(dispute.State()))
    ensures rounds == Rounds(old(dispute.State())) && rounds <= old(dispute.partialsCount) + 1
  {
    RoundsBound(dispute.State());
    rounds := 0;
    while IsGreaterThan(dispute.remainder, ZeroLiteral)
      invariant Valid(dispute.State())
      invariant ApplyOf(dispute.State()) == ApplyOf(old(dispute.State()))
      invariant rounds + Rounds(dispute.State()) == Rounds(old(dispute.State()))
      decreases dispute.partialsCount, if IsGreaterThan(dispute.remainder, ZeroLiteral) then 1 else 0
    {
      ghost var s := dispute.State();
      GreaterThanZeroLiteral(dispute.remainder);
      if dispute.partialsCount == 0 {
        dispute.SplitRemainderEqually();
        SplitKeepsValid(s);
      } else {
        DistributeKeepsValid(s);
        DistributeShrinks(s);
        dispute.DistributeLowestConcession();
      }
      rounds := rounds + 1;
    }
  }
}
