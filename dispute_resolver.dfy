/** The single-function version of the rule (`distribute_based_on_concessions`): the claims are
    sorted from the largest down; if they add up to at most the whole, everyone gets its claim.
    Otherwise the claims are taken in turn, and the concession that becomes free at each one
    (its concession minus the concessions already resolved) is split among the other claimants:
    the claimants still partial at that point get a portion each, shared with the claimants
    already full, and the full ones get the rest. Each claimant then adds up what it received
    while partial and what it received once full, and whatever the rounds did not account for
    (possibly a negative amount) is split evenly. */
module DisputeResolver {
  import opened Errors
  import opened Sequences

  /** One line of the result: the claimant's number, its claim and its final allocation. */
  datatype Entry = Entry(id: int, claim: real, allocation: real)

  // ---- the quantities of the round at index k, in closed form ----

  /** `resolved_concessions` when the claim at index k is reached: the concession of the
      claim before it, or nothing before the first claim. */
  function Resolved(s: seq<real>, k: nat): real
    requires k <= |s|
  {
    if k == 0 then 0.0 else 1.0 - s[k - 1]
  }

  /** `remaining_concession` at index k: the part of that claim's concession not resolved yet. */
  function Remaining(s: seq<real>, k: nat): real
    requires k < |s|
  {
    (1.0 - s[k]) - Resolved(s, k)
  }

  /** `per_claim_share`: the remaining concession split among everyone but the one conceding. */
  function PerClaimShare(s: seq<real>, k: nat): real
    requires k < |s| && |s| >= 2
  {
    Remaining(s, k) / (|s| - 1) as real
  }

  /** The portion a partial claimant receives at index k, shared with the k full claimants. */
  function PartialPortion(s: seq<real>, k: nat): real
    requires k < |s| && |s| >= 2
  {
    PerClaimShare(s, k) / (k + 1) as real
  }

  /** The portion a full claimant receives at index k: its own share plus one partial portion
      for each of the |s| - k claimants still partial. */
  function FullPortion(s: seq<real>, k: nat): real
    requires k < |s| && |s| >= 2
  {
    PerClaimShare(s, k) + (|s| - k) as real * PartialPortion(s, k)
  }

  /** `allocations_partials` once every claim is processed. */
  function PartialPortions(s: seq<real>): (r: seq<real>)
    requires |s| >= 2
    ensures |r| == |s|
  {
    seq(|s|, k requires 0 <= k < |s| => PartialPortion(s, k))
  }

  /** `allocations_fulls` once every claim is processed. */
  function FullPortions(s: seq<real>): (r: seq<real>)
    requires |s| >= 2
    ensures |r| == |s|
  {
    seq(|s|, k requires 0 <= k < |s| => FullPortion(s, k))
  }

  /** `cumulative_for_fulls`: claimant i is full from index i + 1 on. */
  function CumulativeForFulls(s: seq<real>): (r: seq<real>)
    requires |s| >= 2
    ensures |r| == |s|
  {
    var fulls := FullPortions(s);
    seq(|s|, i requires 0 <= i < |s| => Sum(fulls[i + 1..]))
  }

  /** `cumulative_for_partials`: claimant i is partial up to and including index i. */
  function CumulativeForPartials(s: seq<real>): (r: seq<real>)
    requires |s| >= 2
    ensures |r| == |s|
  {
    var partials := PartialPortions(s);
    seq(|s|, i requires 0 <= i < |s| => Sum(partials[..i + 1]))
  }

  /** `remainder`: what the rounds left unaccounted for; it can be negative. */
  function Remainder(s: seq<real>): real
    requires |s| >= 2
  {
    1.0 - Sum(CumulativeForPartials(s) + CumulativeForFulls(s))
  }

  /** The final allocation of claimant i in the dispute branch. */
  function Allocation(s: seq<real>, i: nat): real
    requires i < |s| && |s| >= 2
  {
    CumulativeForFulls(s)[i] + CumulativeForPartials(s)[i] + Remainder(s) / |s| as real
  }

  /** The allocations of the dispute branch, in claim order. */
  function Allocations(s: seq<real>): (r: seq<real>)
    requires |s| >= 2
    ensures |r| == |s|
  {
    seq(|s|, i requires 0 <= i < |s| => Allocation(s, i))
  }

  /** What `distribute_based_on_concessions(claims)` returns: one entry per claim in descending
      claim order, numbered from 1 when the claims fit in the whole and from 0 otherwise; a lone
      claim larger than the whole divides by zero claimants. */
  function Resolve(claims: seq<real>): Result<seq<Entry>> {
    var s := SortDescending(claims);
    if Sum(s) <= 1.0 then
      Ok(seq(|s|, i requires 0 <= i < |s| => Entry(i + 1, s[i], s[i])))
    else if |s| < 2 then
      Err(ZeroDivisionError)
    else
      Ok(seq(|s|, i requires 0 <= i < |s| => Entry(i, s[i], Allocation(s, i))))
  }

  /** `distribute_based_on_concessions`: the for-loop over the sorted claims builds the two
      lists of portions; the comprehensions that follow add them up. */
  method DistributeBasedOnConcessions(claims: seq<real>) returns (r: Result<seq<Entry>>)
    ensures r == Resolve(claims)
  {
    var sorted := SortDescending(claims);
    if Sum(sorted) <= 1.0 {
      return Ok(seq(|sorted|, i requires 0 <= i < |sorted| => Entry(i + 1, sorted[i], sorted[i])));
    }
    var n := |sorted|;
    var fullClaims, partialClaims := 0, n;
    var otherClaims := partialClaims - 1;
    var allocationsPartials: seq<real>, allocationsFulls: seq<real> := [], [];
    var resolvedConcessions := 0.0;
    for k := 0 to n
      invariant fullClaims == k && partialClaims == n - k
      invariant otherClaims == n - 1
      invariant k > 0 ==> n >= 2
      invariant resolvedConcessions == Resolved(sorted, k)
      invariant |allocationsPartials| == k && |allocationsFulls| == k
      invariant forall j :: 0 <= j < k ==> allocationsPartials[j] == PartialPortion(sorted, j)
      invariant forall j :: 0 <= j < k ==> allocationsFulls[j] == FullPortion(sorted, j)
    {
      var claim := sorted[k];
      var remainingConcession := (1.0 - claim) - resolvedConcessions;
      resolvedConcessions := resolvedConcessions + remainingConcession;
      if otherClaims == 0 {
        return Err(ZeroDivisionError);
      }
      var perClaimShare := remainingConcession / otherClaims as real;
      allocationsPartials := allocationsPartials + [perClaimShare / (fullClaims + 1) as real];
      allocationsFulls := allocationsFulls + [perClaimShare + partialClaims as real * allocationsPartials[|allocationsPartials| - 1]];
      partialClaims := partialClaims - 1;
      fullClaims := fullClaims + 1;
    }
    // an empty list sums to 0, and a single claim raised in the loop
    assert n >= 2;
    assert allocationsPartials == PartialPortions(sorted);
    assert allocationsFulls == FullPortions(sorted);
    var cumulativeForFulls := seq(n, i requires 0 <= i < n => Sum(allocationsFulls[i + 1..]));
    var cumulativeForPartials := seq(n, i requires 0 <= i < n => Sum(allocationsPartials[..i + 1]));
    var remainder := 1.0 - Sum(cumulativeForPartials + cumulativeForFulls);
    var remainderShare := remainder / n as real;
    r := Ok(seq(n, i requires 0 <= i < n =>
      Entry(i, sorted[i], cumulativeForFulls[i] + cumulativeForPartials[i] + remainderShare)));
    assert r.value == Resolve(claims).value;
  }

  // ---- what the result promises ----

  function ClaimsOf(e: seq<Entry>): (r: seq<real>)
    ensures |r| == |e|
  {
    seq(|e|, i requires 0 <= i < |e| => e[i].claim)
  }

  function AllocationsOf(e: seq<Entry>): (r: seq<real>)
    ensures |r| == |e|
  {
    seq(|e|, i requires 0 <= i < |e| => e[i].allocation)
  }

  /** One entry per claim: the claims in descending order (a permutation of the input), numbered
      from 1 when nothing is in dispute and from 0 otherwise. */
  lemma ResolveEntries(claims: seq<real>)
    ensures Resolve(claims).Ok? ==>
      var e := Resolve(claims).value;
      |e| == |claims| && SortedDescending(ClaimsOf(e)) && multiset(ClaimsOf(e)) == multiset(claims) &&
      forall i :: 0 <= i < |e| ==> e[i].id == (if Sum(claims) <= 1.0 then i + 1 else i)
  {
    SortDescendingCorrect(claims);
    SumSortDescending(claims);
    if Resolve(claims).Ok? {
      assert ClaimsOf(Resolve(claims).value) == SortDescending(claims);
    }
  }

  /** The only failure is a lone claim larger than the whole: there is nobody to concede to. */
  lemma ResolveFails(claims: seq<real>)
    ensures Resolve(claims).Err? <==> |claims| == 1 && claims[0] > 1.0
    ensures Resolve(claims).Err? ==> Resolve(claims).error == ZeroDivisionError
  {
    SortDescendingCorrect(claims);
    SumSortDescending(claims);
    if |claims| == 1 {
      assert claims == [claims[0]] + [];
    }
  }

  /** Claims that lie in [0, 1] always resolve: in the dispute branch there are two claims at
      least, so the division by the number of other claimants is safe. */
  lemma InRangeClaimsResolve(claims: seq<real>)
    requires forall i :: 0 <= i < |claims| ==> 0.0 <= claims[i] <= 1.0
    ensures Resolve(claims).Ok?
  {
    ResolveFails(claims);
  }

  /** Nothing in dispute: when the claims add up to at most the whole, everyone gets its claim. */
  lemma NoDisputeKeepsClaims(claims: seq<real>)
    requires Sum(claims) <= 1.0
    ensures Resolve(claims).Ok?
    ensures AllocationsOf(Resolve(claims).value) == ClaimsOf(Resolve(claims).value)
  {
    SumSortDescending(claims);
  }

  /** The concession that becomes free at each claim is never negative once the claims are in
      descending order and the largest is at most the whole. */
  lemma RemainingNonNegative(s: seq<real>, k: nat)
    requires SortedDescending(s) && k < |s| && s[0] <= 1.0
    ensures Remaining(s, k) >= 0.0
  {
  }

  /** Adding sequences pointwise, plus a constant, adds their sums. */
  lemma {:induction false} SumPointwise(a: seq<real>, b: seq<real>, t: seq<real>, c: real)
    requires |a| == |b| == |t|
    requires forall i :: 0 <= i < |t| ==> t[i] == a[i] + b[i] + c
    ensures Sum(t) == Sum(a) + Sum(b) + |t| as real * c
  {
    if t != [] {
      assert forall i :: 0 <= i < |t| - 1 ==> t[1..][i] == a[1..][i] + b[1..][i] + c by {
        forall i | 0 <= i < |t| - 1
          ensures t[1..][i] == a[1..][i] + b[1..][i] + c
        {
          assert t[1..][i] == t[i + 1];
        }
      }
      SumPointwise(a[1..], b[1..], t[1..], c);
      assert |t| as real * c == (|t| - 1) as real * c + c;
    }
  }

  /** Conservation: in the dispute branch the allocations add up to exactly the whole. */
  lemma AllocationsSumToOne(s: seq<real>)
    requires |s| >= 2
    ensures Sum(Allocations(s)) == 1.0
  {
    var fulls, partials := CumulativeForFulls(s), CumulativeForPartials(s);
    var n := |s| as real;
    var share := Remainder(s) / n;
    SumPointwise(fulls, partials, Allocations(s), share);
    SumAppend(partials, fulls);
    assert n * share == Remainder(s);
  }

  /** Whatever the claims, a completed dispute hands out exactly the whole. */
  lemma ResolveConserves(claims: seq<real>)
    requires Sum(claims) > 1.0 && Resolve(claims).Ok?
    ensures Sum(AllocationsOf(Resolve(claims).value)) == 1.0
  {
    SumSortDescending(claims);
    var s := SortDescending(claims);
    assert AllocationsOf(Resolve(claims).value) == Allocations(s);
    AllocationsSumToOne(s);
  }

  /** Consecutive allocations differ by what the later claimant missed while the earlier was
      already full: the full portion minus the partial portion of the later round. */
  lemma AdjacentAllocations(s: seq<real>, i: nat)
    requires |s| >= 2 && i + 1 < |s|
    ensures Allocation(s, i) - Allocation(s, i + 1) == FullPortion(s, i + 1) - PartialPortion(s, i + 1)
  {
    var fulls, partials := FullPortions(s), PartialPortions(s);
    var cf, cp := CumulativeForFulls(s), CumulativeForPartials(s);
    assert cf[i] == Sum(fulls[i + 1..]) && cf[i + 1] == Sum(fulls[i + 2..]);
    assert fulls[i + 1..][0] == fulls[i + 1];
    assert fulls[i + 1..][1..] == fulls[i + 2..];
    assert cf[i] == fulls[i + 1] + cf[i + 1];
    assert partials[..i + 2] == partials[..i + 1] + [partials[i + 1]];
    SumAppend(partials[..i + 1], [partials[i + 1]]);
    assert Sum([partials[i + 1]]) == partials[i + 1];
    assert cp[i + 1] == cp[i] + partials[i + 1];
  }

  /** A round whose claim equals the previous one frees nothing, so both portions are zero. */
  lemma TieFreesNothing(s: seq<real>, k: nat)
    requires |s| >= 2 && 0 < k < |s| && s[k - 1] == s[k]
    ensures PartialPortion(s, k) == 0.0 && FullPortion(s, k) == 0.0
  {
  }

  /** A round that frees a non-negative concession gives a full claimant at least what it gives
      a partial one. */
  lemma FullGetsAtLeastPartial(s: seq<real>, k: nat)
    requires |s| >= 2 && k < |s| && PerClaimShare(s, k) >= 0.0
    ensures FullPortion(s, k) >= PartialPortion(s, k)
  {
    var p := PartialPortion(s, k);
    assert p >= 0.0;
    var m := (|s| - k) as real;
    ScaleAtLeastOnce(m, p);
  }

  lemma ScaleAtLeastOnce(m: real, p: real)
    requires m >= 1.0 && p >= 0.0
    ensures m * p >= p
  {
    assert m * p - p == (m - 1.0) * p;
  }

  /** Equal claims receive equal allocations, in both branches. */
  lemma {:induction false} EqualClaimsEqualAllocations(claims: seq<real>, i: nat, j: nat)
    requires Resolve(claims).Ok? && i < j < |Resolve(claims).value|
    requires Resolve(claims).value[i].claim == Resolve(claims).value[j].claim
    ensures Resolve(claims).value[i].allocation == Resolve(claims).value[j].allocation
    decreases j - i
  {
    var s := SortDescending(claims);
    SortDescendingCorrect(claims);
    if Sum(s) > 1.0 && |s| >= 2 {
      assert s[i] == s[j];
      assert s[i] >= s[i + 1] >= s[j];
      TieFreesNothing(s, i + 1);
      AdjacentAllocations(s, i);
      if i + 1 < j {
        EqualClaimsEqualAllocations(claims, i + 1, j);
      }
    }
  }

  /** A larger claim never receives less: the allocations are in descending order, as the
      claims are. */
  lemma AllocationsFollowClaims(claims: seq<real>)
    requires Resolve(claims).Ok?
    ensures SortedDescending(AllocationsOf(Resolve(claims).value))
  {
    var s := SortDescending(claims);
    SortDescendingCorrect(claims);
    var e := Resolve(claims).value;
    if Sum(s) > 1.0 && |s| >= 2 {
      forall i | 0 <= i < |s| - 1
        ensures Allocation(s, i) >= Allocation(s, i + 1)
      {
        AdjacentAllocations(s, i);
        FullGetsAtLeastPartial(s, i + 1);
      }
      DescendingSteps(Allocations(s));
      assert AllocationsOf(e) == Allocations(s);
    } else {
      assert AllocationsOf(e) == s;
    }
  }

  /** A sequence that never rises from one element to the next is in descending order. */
  lemma DescendingSteps(a: seq<real>)
    requires forall i :: 0 <= i < |a| - 1 ==> a[i] >= a[i + 1]
    ensures SortedDescending(a)
  {
    forall i, j | 0 <= i < j < |a|
      ensures a[i] >= a[j]
    {
      DescendingFrom(a, i, j);
    }
  }

  lemma {:induction false} DescendingFrom(a: seq<real>, i: nat, j: nat)
    requires forall k :: 0 <= k < |a| - 1 ==> a[k] >= a[k + 1]
    requires i <= j < |a|
    ensures a[i] >= a[j]
    decreases j - i
  {
    if i < j {
      DescendingFrom(a, i + 1, j);
    }
  }

  // ---- worked examples ----

  lemma SumOfOne(a: real)
    ensures Sum([a]) == a
  {
    assert [a][1..] == [];
  }

  lemma SumOfTwo(a: real, b: real)
    ensures Sum([a, b]) == a + b
  {
    assert [a, b][1..] == [b];
    SumOfOne(b);
  }

  lemma SumOfThree(a: real, b: real, c: real)
    ensures Sum([a, b, c]) == a + b + c
  {
    assert [a, b, c][1..] == [b, c];
    SumOfTwo(b, c);
  }

  /** The rounds of the documented example, claims 1/2, 1/3 and 1/4: the freed concessions are
      1/2, 1/6 and 1/12, so the partial portions are 1/4, 1/24, 1/72 and the full ones 1, 1/6,
      1/18. */
  lemma ThreeClaimsPortions(s: seq<real>)
    requires s == [1.0 / 2.0, 1.0 / 3.0, 1.0 / 4.0]
    ensures PartialPortions(s) == [1.0 / 4.0, 1.0 / 24.0, 1.0 / 72.0]
    ensures FullPortions(s) == [1.0, 1.0 / 6.0, 1.0 / 18.0]
  {
  }

  lemma ThreeClaimsCumulative(s: seq<real>)
    requires s == [1.0 / 2.0, 1.0 / 3.0, 1.0 / 4.0]
    ensures CumulativeForFulls(s) == [2.0 / 9.0, 1.0 / 18.0, 0.0]
    ensures CumulativeForPartials(s) == [1.0 / 4.0, 7.0 / 24.0, 11.0 / 36.0]
  {
    ThreeClaimsPortions(s);
    var partials := PartialPortions(s);
    var fulls := FullPortions(s);
    var cf, cp := CumulativeForFulls(s), CumulativeForPartials(s);
    assert fulls[1..] == [1.0 / 6.0, 1.0 / 18.0] && fulls[2..] == [1.0 / 18.0] && fulls[3..] == [];
    SumOfTwo(1.0 / 6.0, 1.0 / 18.0);
    SumOfOne(1.0 / 18.0);
    assert cf[0] == 2.0 / 9.0 && cf[1] == 1.0 / 18.0 && cf[2] == 0.0;
    assert partials[..1] == [1.0 / 4.0] && partials[..2] == [1.0 / 4.0, 1.0 / 24.0] && partials[..3] == partials;
    SumOfOne(1.0 / 4.0);
    SumOfTwo(1.0 / 4.0, 1.0 / 24.0);
    SumOfThree(1.0 / 4.0, 1.0 / 24.0, 1.0 / 72.0);
    assert cp[0] == 1.0 / 4.0 && cp[1] == 7.0 / 24.0 && cp[2] == 11.0 / 36.0;
  }

  /** The documented example: claims of 1/2, 1/3 and 1/4 receive 31/72, 11/36 and 19/72. The
      rounds account for 9/8 of the whole, so the evenly split remainder is -1/8. */
  lemma ThreeClaimsExample()
    ensures var s := [1.0 / 2.0, 1.0 / 3.0, 1.0 / 4.0];
      Remainder(s) == -1.0 / 8.0 &&
      Resolve(s) == Ok([Entry(0, 1.0 / 2.0, 31.0 / 72.0), Entry(1, 1.0 / 3.0, 11.0 / 36.0),
                        Entry(2, 1.0 / 4.0, 19.0 / 72.0)])
  {
    var s := [1.0 / 2.0, 1.0 / 3.0, 1.0 / 4.0];
    assert s[1..] == [1.0 / 3.0, 1.0 / 4.0] && s[1..][1..] == [1.0 / 4.0] && s[1..][1..][1..] == [];
    assert SortDescending(s) == s;
    SumOfThree(1.0 / 2.0, 1.0 / 3.0, 1.0 / 4.0);
    ThreeClaimsCumulative(s);
    var cp := [1.0 / 4.0, 7.0 / 24.0, 11.0 / 36.0];
    var cf := [2.0 / 9.0, 1.0 / 18.0, 0.0];
    SumAppend(cp, cf);
    SumOfThree(1.0 / 4.0, 7.0 / 24.0, 11.0 / 36.0);
    SumOfThree(2.0 / 9.0, 1.0 / 18.0, 0.0);
    assert Remainder(s) == -1.0 / 8.0;
    assert Allocation(s, 0) == 31.0 / 72.0 && Allocation(s, 1) == 11.0 / 36.0 && Allocation(s, 2) == 19.0 / 72.0;
    var e := Resolve(s).value;
    assert e[0] == Entry(0, 1.0 / 2.0, 31.0 / 72.0) && e[1] == Entry(1, 1.0 / 3.0, 11.0 / 36.0);
    assert e[2] == Entry(2, 1.0 / 4.0, 19.0 / 72.0);
    assert e == [Entry(0, 1.0 / 2.0, 31.0 / 72.0), Entry(1, 1.0 / 3.0, 11.0 / 36.0), Entry(2, 1.0 / 4.0, 19.0 / 72.0)];
  }

  lemma WholeAndHalfCumulative(s: seq<real>)
    requires s == [1.0, 1.0 / 2.0]
    ensures CumulativeForFulls(s) == [3.0 / 4.0, 0.0]
    ensures CumulativeForPartials(s) == [0.0, 1.0 / 4.0]
  {
    var partials := PartialPortions(s);
    var fulls := FullPortions(s);
    assert partials[0] == 0.0 && partials[1] == 1.0 / 4.0;
    assert fulls[0] == 0.0 && fulls[1] == 3.0 / 4.0;
    var cf, cp := CumulativeForFulls(s), CumulativeForPartials(s);
    assert fulls[1..] == [3.0 / 4.0] && fulls[2..] == [];
    SumOfOne(3.0 / 4.0);
    assert cf[0] == 3.0 / 4.0 && cf[1] == 0.0;
    assert partials[..1] == [0.0] && partials[..2] == [0.0, 1.0 / 4.0];
    SumOfOne(0.0);
    SumOfTwo(0.0, 1.0 / 4.0);
    assert cp[0] == 0.0 && cp[1] == 1.0 / 4.0;
  }

  /** The Mishnah's second case: one claims the whole garment and one claims half; they
      receive three quarters and one quarter. */
  lemma WholeAndHalfExample()
    ensures Resolve([1.0, 1.0 / 2.0]) == Ok([Entry(0, 1.0, 3.0 / 4.0), Entry(1, 1.0 / 2.0, 1.0 / 4.0)])
  {
    var s := [1.0, 1.0 / 2.0];
    assert s[1..] == [1.0 / 2.0] && s[1..][1..] == [];
    assert SortDescending(s) == s;
    SumOfTwo(1.0, 1.0 / 2.0);
    WholeAndHalfCumulative(s);
    SumAppend([0.0, 1.0 / 4.0], [3.0 / 4.0, 0.0]);
    SumOfTwo(0.0, 1.0 / 4.0);
    SumOfTwo(3.0 / 4.0, 0.0);
    assert Remainder(s) == 0.0;
    assert Allocation(s, 0) == 3.0 / 4.0 && Allocation(s, 1) == 1.0 / 4.0;
    var e := Resolve(s).value;
    assert e[0] == Entry(0, 1.0, 3.0 / 4.0) && e[1] == Entry(1, 1.0 / 2.0, 1.0 / 4.0);
    assert e == [Entry(0, 1.0, 3.0 / 4.0), Entry(1, 1.0 / 2.0, 1.0 / 4.0)];
  }
}
