/** dispute.c: the C version's dispute. It holds the part of the resource not yet handed out
    (`remainder`), the claimants in an array, and the number of claimants still partial. A round
    either shares out the lowest concession among the partial claimants or, once no claimant is
    partial, splits the remainder equally. */
module CDisputes {
  import opened CFractions
  import opened CClaimants
  import opened CDistributions
  import opened Sequences

  /** The values a `Dispute` holds. */
  datatype DisputeState = DisputeState(remainder: Fraction, claimants: seq<Claimant>, partialsCount: int)

  /** The number of claimants flagged partial. */
  function CountPartials(cs: seq<Claimant>): (r: nat)
    ensures r <= |cs|
  {
    if cs == [] then 0 else CountPartials(cs[..|cs| - 1]) + (if cs[|cs| - 1].isPartial then 1 else 0)
  }

  /** Claimants flagged alike are counted alike. */
  lemma {:induction false} SamePartials(cs: seq<Claimant>, r: seq<Claimant>)
    requires |r| == |cs| && forall i :: 0 <= i < |cs| ==> r[i].isPartial == cs[i].isPartial
    ensures CountPartials(r) == CountPartials(cs)
  {
    if cs != [] {
      var n := |cs| - 1;
      assert forall i :: 0 <= i < n ==> r[..n][i] == r[i] && cs[..n][i] == cs[i];
      SamePartials(cs[..n], r[..n]);
    }
  }

  /** What a claimant holds between steps: a concession from zero to one over a positive
      denominator, flagged partial exactly when it is above zero, and a well-formed amount
      collected. */
  predicate Kept(c: Claimant) {
    Natural(c.concession) && c.concession.numerator <= c.concession.denominator &&
    (c.isPartial <==> c.concession.numerator > 0) && c.collects.denominator != 0
  }

  predicate AllKept(cs: seq<Claimant>) {
    forall i :: 0 <= i < |cs| ==> Kept(cs[i])
  }

  lemma PrefixKept(cs: seq<Claimant>, k: nat)
    requires AllKept(cs) && k <= |cs|
    ensures AllKept(cs[..k])
  {
    forall i | 0 <= i < k
      ensures Kept(cs[..k][i])
    {
      assert cs[..k][i] == cs[i];
    }
  }

  /** The dispute invariant: well-formed claimants, a well-formed remainder, an exact count of
      the partial claimants, and never a lone claimant left partial (a round would divide by
      zero). */
  predicate Valid(s: DisputeState) {
    s.remainder.denominator != 0 && AllKept(s.claimants) &&
    s.partialsCount == CountPartials(s.claimants) &&
    (s.partialsCount == 0 || |s.claimants| >= 2)
  }

  /** Everything the claimants have collected, added up. */
  function Collected(cs: seq<Claimant>): real
    requires AllKept(cs)
  {
    if cs == [] then 0.0
    else
      PrefixKept(cs, |cs| - 1);
      Collected(cs[..|cs| - 1]) + Val(cs[|cs| - 1].collects)
  }

  /** What has been handed out plus what is left. */
  function Total(s: DisputeState): real
    requires Valid(s)
  {
    Collected(s.claimants) + Val(s.remainder)
  }

  /** Claimants that keep their identifier and claim. */
  predicate SameClaims(cs: seq<Claimant>, r: seq<Claimant>) {
    |r| == |cs| && forall i :: 0 <= i < |cs| ==> r[i].identifier == cs[i].identifier && r[i].claim == cs[i].claim
  }

  /** When every claimant collects `a` if partial and `b` if not, what is collected grows by `a`
      per partial claimant and `b` per other one. */
  lemma {:induction false} CollectedGrows(cs: seq<Claimant>, r: seq<Claimant>, a: real, b: real)
    requires AllKept(cs) && AllKept(r) && |r| == |cs|
    requires forall i :: 0 <= i < |cs| ==>
      Val(r[i].collects) == Val(cs[i].collects) + (if cs[i].isPartial then a else b)
    ensures Collected(r) == Collected(cs) + Times(CountPartials(cs), a) + Times(|cs| - CountPartials(cs), b)
  {
    if cs != [] {
      var n := |cs| - 1;
      PrefixKept(cs, n);
      PrefixKept(r, n);
      forall i | 0 <= i < n
        ensures Val(r[..n][i].collects) == Val(cs[..n][i].collects) + (if cs[..n][i].isPartial then a else b)
      {
        assert r[..n][i] == r[i] && cs[..n][i] == cs[i];
      }
      CollectedGrows(cs[..n], r[..n], a, b);
    }
  }

  /** Claimants that have collected nothing have collected nothing in total. */
  lemma {:induction false} NothingCollected(cs: seq<Claimant>)
    requires AllKept(cs) && forall i :: 0 <= i < |cs| ==> cs[i].collects == ZeroLiteral
    ensures Collected(cs) == 0.0
  {
    if cs != [] {
      var n := |cs| - 1;
      PrefixKept(cs, n);
      assert forall i :: 0 <= i < n ==> cs[..n][i] == cs[i];
      NothingCollected(cs[..n]);
    }
  }

  // ---- createDispute ----

  /** The claimants `createDispute` makes, one per claim, numbered by position. */
  function NewClaimants(claims: seq<Fraction>): seq<Claimant>
    requires forall i :: 0 <= i < |claims| ==> claims[i].denominator != 0
  {
    seq(|claims|, i requires 0 <= i < |claims| => NewClaimant(i, claims[i]))
  }

  /** The dispute `createDispute` returns: nothing handed out yet, a remainder of `{1, 1}`. */
  function CreatedOf(claims: seq<Fraction>): DisputeState
    requires forall i :: 0 <= i < |claims| ==> claims[i].denominator != 0
  {
    DisputeState(OneLiteral, NewClaimants(claims), CountPartials(NewClaimants(claims)))
  }

  /** Each claim a fraction from zero to one over a positive denominator. */
  predicate InRange(claims: seq<Fraction>) {
    forall i :: 0 <= i < |claims| ==> claims[i].denominator > 0 && 0.0 <= Val(claims[i]) <= 1.0
  }

  /** The claimants made are well-formed, numbered by position, hold their claim, concede one
      minus it, are partial exactly when it is below one, and have collected nothing. */
  lemma NewClaimantsFacts(claims: seq<Fraction>)
    requires InRange(claims)
    ensures var cs := NewClaimants(claims);
      AllKept(cs) && Collected(cs) == 0.0 &&
      forall i :: 0 <= i < |cs| ==>
        cs[i].identifier == i && cs[i].claim == claims[i] &&
        Val(cs[i].concession) == 1.0 - Val(claims[i]) && (cs[i].isPartial <==> Val(claims[i]) < 1.0)
  {
    var cs := NewClaimants(claims);
    forall i | 0 <= i < |cs|
      ensures Kept(cs[i])
    {
      AtMostOne(cs[i].concession.numerator, cs[i].concession.denominator);
    }
    NothingCollected(cs);
  }

  /** From claims in range, `createDispute` gives a dispute that keeps the invariant (unless a
      single claimant would be left partial), with the whole resource, one, still to hand
      out. */
  lemma CreatedValid(claims: seq<Fraction>)
    requires InRange(claims) && (|claims| == 1 ==> Val(claims[0]) == 1.0)
    ensures Valid(CreatedOf(claims)) && Total(CreatedOf(claims)) == 1.0
  {
    NewClaimantsFacts(claims);
    var cs := NewClaimants(claims);
    if |cs| == 1 {
      assert cs[..0] == [];
    }
  }

  // ---- findLowestConcession ----

  /** The value `findLowestConcession` ends with: starting from `{1, 1}`, it takes a partial
      claimant's concession whenever `isGreaterThan` puts the current one above it. */
  function LowestOf(cs: seq<Claimant>): Fraction {
    if cs == [] then OneLiteral
    else
      var l := LowestOf(cs[..|cs| - 1]);
      var c := cs[|cs| - 1];
      if c.isPartial && IsGreaterThan(l, c.concession) then c.concession else l
  }

  /** The claimant concedes at least `x`. */
  predicate ConcedesAtLeast(c: Claimant, x: Fraction) {
    c.concession.denominator != 0 && x.denominator != 0 && Val(x) <= Val(c.concession)
  }

  /** A concession a round can take off: above zero, at most one, and at most every partial
      claimant's concession. */
  predicate Takeable(cs: seq<Claimant>, lowest: Fraction) {
    Natural(lowest) && 0 < lowest.numerator <= lowest.denominator &&
    forall i :: 0 <= i < |cs| && cs[i].isPartial ==> ConcedesAtLeast(cs[i], lowest)
  }

  /** The concession found can be taken off, is one when no claimant is partial, and is some
      partial claimant's concession when there is one. */
  lemma {:induction false} LowestIsLeast(cs: seq<Claimant>)
    requires AllKept(cs)
    ensures Takeable(cs, LowestOf(cs))
    ensures CountPartials(cs) == 0 ==> LowestOf(cs) == OneLiteral
    ensures CountPartials(cs) > 0 ==>
      exists i :: 0 <= i < |cs| && cs[i].isPartial && Val(cs[i].concession) == Val(LowestOf(cs))
  {
    if cs != [] {
      var n := |cs| - 1;
      var p, c := cs[..n], cs[n];
      PrefixKept(cs, n);
      LowestIsLeast(p);
      var l := LowestOf(p);
      assert Kept(c);
      assert forall i :: 0 <= i < n ==> cs[i] == p[i];
      if c.isPartial {
        AtMostOne(c.concession.numerator, c.concession.denominator);
        if IsGreaterThan(l, c.concession) {
          assert LowestOf(cs) == c.concession;
        } else {
          assert LowestOf(cs) == l;
          if CountPartials(p) == 0 {
            assert Val(c.concession) == Val(l);
          }
        }
      } else {
        assert LowestOf(cs) == l;
      }
    }
  }

  // ---- distributeLowestConcession ----

  /** One claimant's part of `distributeLowestConcession`. A partial claimant collects one split
      and gives up the lowest concession, and stops being partial when nothing is left to
      concede; a full claimant collects a full claimant's total. */
  function Settle(c: Claimant, lowest: Fraction, d: Distribution): (r: Claimant)
    requires c.concession.denominator != 0 && c.collects.denominator != 0 && lowest.denominator != 0
    requires d.splitWithFulls.denominator != 0 && d.totalForFulls.denominator != 0
    ensures r.identifier == c.identifier && r.claim == c.claim && r.collects.denominator != 0
    ensures c.isPartial ==> Val(r.collects) == Val(c.collects) + Val(d.splitWithFulls)
    ensures !c.isPartial ==> Val(r.collects) == Val(c.collects) + Val(d.totalForFulls)
    ensures c.isPartial ==> (r.concession.denominator != 0 &&
      Val(r.concession) == Val(c.concession) - Val(lowest) && (r.isPartial <==> Val(r.concession) != 0.0))
    ensures !c.isPartial ==> r.concession == c.concession && !r.isPartial
  {
    if c.isPartial then
      var paid := c.(collects := Add(c.collects, d.splitWithFulls));
      var conceded := paid.(concession := Subtract(paid.concession, lowest));
      if AreEqual(conceded.concession, ZeroLiteral) then conceded.(isPartial := false) else conceded
    else
      c.(collects := Add(c.collects, d.totalForFulls))
  }

  /** The claimants after the loop of `distributeLowestConcession`. */
  function SettleAll(cs: seq<Claimant>, lowest: Fraction, d: Distribution): seq<Claimant>
    requires AllKept(cs) && lowest.denominator != 0
    requires d.splitWithFulls.denominator != 0 && d.totalForFulls.denominator != 0
  {
    seq(|cs|, i requires 0 <= i < |cs| => Settle(cs[i], lowest, d))
  }

  /** A partial claimant with nothing left to concede once `lowest` is taken off. */
  predicate Promoted(c: Claimant, lowest: Fraction)
    requires c.concession.denominator != 0 && lowest.denominator != 0
  {
    c.isPartial && AreEqual(Subtract(c.concession, lowest), ZeroLiteral)
  }

  /** How many claimants a round promotes: each lowers `partialsCount` by one. */
  function Promotions(cs: seq<Claimant>, lowest: Fraction): nat
    requires AllKept(cs) && lowest.denominator != 0
  {
    if cs == [] then 0
    else
      PrefixKept(cs, |cs| - 1);
      Promotions(cs[..|cs| - 1], lowest) + (if Promoted(cs[|cs| - 1], lowest) then 1 else 0)
  }

  /** Claimants that stay partial unless promoted are counted as partial less the promoted. */
  lemma {:induction false} PartialsDrop(cs: seq<Claimant>, r: seq<Claimant>, lowest: Fraction)
    requires AllKept(cs) && |r| == |cs| && lowest.denominator != 0
    requires forall i :: 0 <= i < |cs| ==> r[i].isPartial == (cs[i].isPartial && !Promoted(cs[i], lowest))
    ensures CountPartials(r) == CountPartials(cs) - Promotions(cs, lowest)
  {
    if cs != [] {
      var n := |cs| - 1;
      PrefixKept(cs, n);
      assert forall i :: 0 <= i < n ==> r[..n][i] == r[i] && cs[..n][i] == cs[i];
      PartialsDrop(cs[..n], r[..n], lowest);
    }
  }

  /** A round that takes `lowest` off and hands out `d`: the remainder gives up one
      `perClaimantFraction` per claimant. */
  function RoundOf(s: DisputeState, lowest: Fraction, d: Distribution): DisputeState
    requires AllKept(s.claimants) && s.remainder.denominator != 0 && lowest.denominator != 0
    requires d.perClaimantFraction.denominator != 0
    requires d.splitWithFulls.denominator != 0 && d.totalForFulls.denominator != 0
  {
    DisputeState(
      Subtract(s.remainder, MultiplyByInt(d.perClaimantFraction, |s.claimants|)),
      SettleAll(s.claimants, lowest, d),
      s.partialsCount - Promotions(s.claimants, lowest))
  }

  /** The dispute `distributeLowestConcession` leaves. */
  function DistributeOf(s: DisputeState): DisputeState
    requires Valid(s) && |s.claimants| != 1
  {
    LowestIsLeast(s.claimants);
    var lowest := LowestOf(s.claimants);
    RoundOf(s, lowest, NewDistribution(lowest, s.partialsCount, |s.claimants|))
  }

  /** Settling keeps a claimant well-formed, and it stays partial unless promoted. */
  lemma SettleKept(c: Claimant, lowest: Fraction, d: Distribution)
    requires Kept(c) && Natural(lowest) && lowest.numerator > 0
    requires c.isPartial ==> ConcedesAtLeast(c, lowest)
    requires d.splitWithFulls.denominator != 0 && d.totalForFulls.denominator != 0
    ensures Kept(Settle(c, lowest, d))
    ensures Settle(c, lowest, d).isPartial == (c.isPartial && !Promoted(c, lowest))
  {
    if c.isPartial {
      SignOfQuotient(lowest.numerator, lowest.denominator);
      var k := Subtract(c.concession, lowest);
      AtMostOne(c.concession.numerator, c.concession.denominator);
      AtMostOne(k.numerator, k.denominator);
      SignOfQuotient(k.numerator, k.denominator);
    }
  }

  /** A round keeps every claimant well-formed with its identifier and claim, lowers the count of
      partial claimants by the number promoted, and adds to what is collected one split per
      partial claimant and one total per full claimant. */
  lemma SettleAllFacts(cs: seq<Claimant>, lowest: Fraction, d: Distribution)
    requires AllKept(cs) && Takeable(cs, lowest)
    requires d.splitWithFulls.denominator != 0 && d.totalForFulls.denominator != 0
    ensures var r := SettleAll(cs, lowest, d);
      AllKept(r) && SameClaims(cs, r) && CountPartials(r) == CountPartials(cs) - Promotions(cs, lowest) &&
      Collected(r) == Collected(cs) + Times(CountPartials(cs), Val(d.splitWithFulls))
        + Times(|cs| - CountPartials(cs), Val(d.totalForFulls))
  {
    var r := SettleAll(cs, lowest, d);
    forall i | 0 <= i < |cs|
      ensures Kept(r[i]) && r[i].isPartial == (cs[i].isPartial && !Promoted(cs[i], lowest))
    {
      SettleKept(cs[i], lowest, d);
    }
    PartialsDrop(cs, r, lowest);
    CollectedGrows(cs, r, Val(d.splitWithFulls), Val(d.totalForFulls));
  }

  /** A round that takes off a concession it can take keeps the dispute invariant and the
      claimants' identifiers and claims. */
  lemma RoundKeepsValid(s: DisputeState, lowest: Fraction, d: Distribution)
    requires Valid(s) && |s.claimants| != 1 && Takeable(s.claimants, lowest)
    requires d.perClaimantFraction.denominator != 0
    requires d.splitWithFulls.denominator != 0 && d.totalForFulls.denominator != 0
    ensures Valid(RoundOf(s, lowest, d)) && SameClaims(s.claimants, RoundOf(s, lowest, d).claimants)
  {
    SettleAllFacts(s.claimants, lowest, d);
  }

  lemma DistributeKeepsValid(s: DisputeState)
    requires Valid(s) && |s.claimants| != 1
    ensures Valid(DistributeOf(s)) && SameClaims(s.claimants, DistributeOf(s).claimants)
  {
    LowestIsLeast(s.claimants);
    var lowest := LowestOf(s.claimants);
    RoundKeepsValid(s, lowest, NewDistribution(lowest, s.partialsCount, |s.claimants|));
  }

  /** The claimant holding the lowest concession is promoted. */
  lemma {:induction false} PromotesOne(cs: seq<Claimant>, lowest: Fraction, j: nat)
    requires AllKept(cs) && lowest.denominator != 0 && j < |cs|
    requires cs[j].isPartial && Val(cs[j].concession) == Val(lowest)
    ensures Promotions(cs, lowest) >= 1
  {
    var n := |cs| - 1;
    PrefixKept(cs, n);
    if j < n {
      assert cs[..n][j] == cs[j];
      PromotesOne(cs[..n], lowest, j);
    }
  }

  /** A round with a partial claimant lowers `partialsCount`. */
  lemma DistributeShrinks(s: DisputeState)
    requires Valid(s) && s.partialsCount > 0
    ensures DistributeOf(s).partialsCount < s.partialsCount
  {
    LowestIsLeast(s.claimants);
    var lowest := LowestOf(s.claimants);
    var j :| 0 <= j < |s.claimants| && s.claimants[j].isPartial && Val(s.claimants[j].concession) == Val(lowest);
    PromotesOne(s.claimants, lowest, j);
  }

  /** A round hands out exactly what it takes off the remainder: the total is kept. */
  lemma DistributeConserves(s: DisputeState)
    requires Valid(s) && |s.claimants| != 1
    ensures Valid(DistributeOf(s)) && Total(DistributeOf(s)) == Total(s)
  {
    LowestIsLeast(s.claimants);
    var lowest := LowestOf(s.claimants);
    var n, p := |s.claimants|, s.partialsCount;
    DistributionIdentity(lowest, p, n);
    RoundConserves(s, lowest, NewDistribution(lowest, p, n));
  }

  /** A round whose distribution hands out one `perClaimantFraction` per claimant keeps the
      total. */
  lemma RoundConserves(s: DisputeState, lowest: Fraction, d: Distribution)
    requires Valid(s) && |s.claimants| != 1 && Takeable(s.claimants, lowest)
    requires d.perClaimantFraction.denominator != 0
    requires d.splitWithFulls.denominator != 0 && d.totalForFulls.denominator != 0
    requires Times(|s.claimants| - s.partialsCount, Val(d.totalForFulls)) + Times(s.partialsCount, Val(d.splitWithFulls))
      == Times(|s.claimants|, Val(d.perClaimantFraction))
    ensures Valid(RoundOf(s, lowest, d)) && Total(RoundOf(s, lowest, d)) == Total(s)
  {
    RoundKeepsValid(s, lowest, d);
    SettleAllFacts(s.claimants, lowest, d);
    MultiplyByCountValue(d.perClaimantFraction, |s.claimants|);
  }

  // ---- splitRemainderEqually ----

  /** The claimants after each has collected `share`. */
  function CollectAll(cs: seq<Claimant>, share: Fraction): seq<Claimant>
    requires AllKept(cs) && (cs != [] ==> share.denominator != 0)
  {
    seq(|cs|, i requires 0 <= i < |cs| => cs[i].(collects := Add(cs[i].collects, share)))
  }

  /** The dispute `splitRemainderEqually` leaves: every claimant collects an equal share of the
      remainder, and the remainder becomes `{0, 1}`. */
  function SplitOf(s: DisputeState): DisputeState
    requires Valid(s) && (s.remainder.numerator != 0 || |s.claimants| != 0)
  {
    var share := DivideByInt(s.remainder, |s.claimants|);
    DisputeState(ZeroLiteral, CollectAll(s.claimants, share), s.partialsCount)
  }

  lemma SharesAddUp(n: nat, x: real, a: nat)
    requires n > 0 && a <= n
    ensures Times(a, x / n as real) + Times(n - a, x / n as real) == x
  {
    TimesIsProduct(a, x / n as real);
    TimesIsProduct(n - a, x / n as real);
  }

  /** With at least one claimant, the split hands out the whole remainder: the invariant, the
      identifiers, the claims and the total are kept, and nothing is left. */
  lemma SplitConserves(s: DisputeState)
    requires Valid(s) && |s.claimants| >= 1
    ensures Valid(SplitOf(s)) && SameClaims(s.claimants, SplitOf(s).claimants)
    ensures Total(SplitOf(s)) == Total(s) && Val(SplitOf(s).remainder) == 0.0
  {
    var cs := s.claimants;
    var share := DivideByInt(s.remainder, |cs|);
    DivideByIntValue(s.remainder, |cs|);
    var r := CollectAll(cs, share);
    assert AllKept(r);
    SamePartials(cs, r);
    CollectedGrows(cs, r, Val(share), Val(share));
    SharesAddUp(|cs|, Val(s.remainder), CountPartials(cs));
  }

  /** With no claimant the split hands out nothing, and what was left is lost. */
  lemma SplitAmongNobody(s: DisputeState)
    requires Valid(s) && |s.claimants| == 0 && s.remainder.numerator != 0
    ensures Valid(SplitOf(s)) && Total(SplitOf(s)) == 0.0
  {
  }

  // ---- the Dispute struct ----

  /** `Dispute`: the remainder, the claimants array and the count of partial claimants; the
      functions of dispute.c change these in place. */
  class Dispute {
    var remainder: Fraction
    const claimants: array<Claimant>
    var partialsCount: int

    function State(): DisputeState
      reads this, claimants
    {
      DisputeState(remainder, claimants[..], partialsCount)
    }

    /** `createDispute`: one claimant per claim, counting the partial ones. */
    constructor CreateDispute(claims: seq<Fraction>)
      requires forall i :: 0 <= i < |claims| ==> claims[i].denominator != 0
      ensures fresh(claimants)
      ensures State() == CreatedOf(claims)
    {
      var a := new Claimant[|claims|](_ => Claimant(0, ZeroLiteral, ZeroLiteral, ZeroLiteral, false));
      var count := 0;
      for i := 0 to |claims|
        invariant forall j :: 0 <= j < i ==> a[j] == NewClaimant(j, claims[j])
        invariant count == CountPartials(a[..i])
      {
        a[i] := NewClaimant(i, claims[i]);
        assert a[..i + 1][..i] == a[..i];
        if a[i].isPartial {
          count := count + 1;
        }
      }
      assert a[..] == a[..|claims|] == NewClaimants(claims);
      remainder := OneLiteral;
      claimants := a;
      partialsCount := count;
    }

    /** `findLowestConcession`: under the invariant, a concession a round can take off, held by
        some partial claimant when there is one. */
    method FindLowestConcession() returns (currentLowest: Fraction)
      ensures currentLowest == LowestOf(claimants[..])
      ensures AllKept(claimants[..]) ==> Takeable(claimants[..], currentLowest)
    ensures AllKept(claimants[..]) && CountPartials(claimants[..]) > 0 ==>
        exists i :: 0 <= i < claimants.Length && claimants[i].isPartial &&
          Val(claimants[i].concession) == Val(currentLowest)
    {
      currentLowest := OneLiteral;
      for i := 0 to claimants.Length
        invariant currentLowest == LowestOf(claimants[..i])
      {
        var currentClaimant := claimants[i];
        assert claimants[..i + 1][..i] == claimants[..i];
        if currentClaimant.isPartial && IsGreaterThan(currentLowest, currentClaimant.concession) {
          currentLowest := currentClaimant.concession;
        }
      }
      assert claimants[..] == claimants[..claimants.Length];
      if AllKept(claimants[..]) {
        LowestIsLeast(claimants[..]);
      }
    }

    /** `distributeLowestConcession`: one round of sharing out the lowest concession. */
    method DistributeLowestConcession()
      modifies this, claimants
      requires Valid(State()) && claimants.Length != 1
      ensures State() == DistributeOf(old(State()))
    {
      ghost var s := State();
      var currentLowest := FindLowestConcession();
      LowestIsLeast(s.claimants);
      var distribution := NewDistribution(currentLowest, partialsCount, claimants.Length);
      SettleClaimants(currentLowest, distribution);
      remainder := Subtract(remainder, MultiplyByInt(distribution.perClaimantFraction, claimants.Length));
    }

    /** The loop of `distributeLowestConcession`: partial claimants collect `splitWithFulls` and
        concede `lowest`, the others collect `totalForFulls`; each claimant left with nothing to
        concede stops being partial. */
    method SettleClaimants(lowest: Fraction, distribution: Distribution)
      modifies this, claimants
      requires AllKept(claimants[..]) && lowest.denominator != 0
      requires distribution.splitWithFulls.denominator != 0 && distribution.totalForFulls.denominator != 0
      ensures claimants[..] == SettleAll(old(claimants[..]), lowest, distribution)
      ensures partialsCount == old(partialsCount) - Promotions(old(claimants[..]), lowest)
      ensures remainder == old(remainder)
    {
      ghost var cs := claimants[..];
      for i := 0 to claimants.Length
        invariant forall j :: 0 <= j < i ==> claimants[j] == Settle(cs[j], lowest, distribution)
        invariant forall j :: i <= j < claimants.Length ==> claimants[j] == cs[j]
        invariant partialsCount == old(partialsCount) - Promotions(cs[..i], lowest)
        invariant remainder == old(remainder)
      {
        PrefixKept(cs, i + 1);
        assert cs[..i + 1][..i] == cs[..i];
        var currentClaimant := claimants[i];
        assert Kept(currentClaimant);
        if currentClaimant.isPartial {
          currentClaimant := currentClaimant.(collects := Add(currentClaimant.collects, distribution.splitWithFulls));
          currentClaimant := currentClaimant.(concession := Subtract(currentClaimant.concession, lowest));
          if AreEqual(currentClaimant.concession, ZeroLiteral) {
            currentClaimant := currentClaimant.(isPartial := false);
            partialsCount := partialsCount - 1;
          }
        } else {
          currentClaimant := currentClaimant.(collects := Add(currentClaimant.collects, distribution.totalForFulls));
        }
        assert currentClaimant == Settle(cs[i], lowest, distribution);
        claimants[i] := currentClaimant;
      }
      assert claimants[..] == SettleAll(cs, lowest, distribution);
      assert cs == cs[..claimants.Length];
    }

    /** `splitRemainderEqually`: every claimant collects an equal share of the remainder, which
        becomes zero. */
    method SplitRemainderEqually()
      modifies this, claimants
      requires Valid(State()) && (remainder.numerator != 0 || claimants.Length != 0)
      ensures State() == SplitOf(old(State()))
    {
      ghost var s := State();
      var dividedRemainder := DivideByInt(remainder, claimants.Length);
      for i := 0 to claimants.Length
        invariant forall j :: 0 <= j < i ==> claimants[j] == s.claimants[j].(collects := Add(s.claimants[j].collects, dividedRemainder))
        invariant forall j :: i <= j < claimants.Length ==> claimants[j] == s.claimants[j]
        invariant remainder == s.remainder && partialsCount == s.partialsCount
      {
        assert Kept(s.claimants[i]);
        claimants[i] := claimants[i].(collects := Add(claimants[i].collects, dividedRemainder));
      }
      assert claimants[..] == CollectAll(s.claimants, dividedRemainder);
      remainder := ZeroLiteral;
    }
  }
}
