/** Dispute: one concession round at a time. The lowest outstanding concession is shared out:
    the Talit gives up `full_share` per claimant, every partial claimant concedes the round's
    concession and collects `partial_share`, every full claimant collects `full_share` plus one
    `partial_share` per partial claimant, and claimants whose concession reaches 0 become full. */
module Disputes {
  import opened Errors
  import opened DisputeFractions
  import opened TalitClaimants
  import opened Talits
  import opened ClaimantManager
  import opened Sequences

  // ---- Distribution ----

  /** A `Distribution` after `__post_init__`. */
  datatype Distribution = Distribution(
    concession: Unit, claimantCount: int, fullsCount: int, fullShare: Unit, partialShare: Unit)

  /** `Distribution(concession, claimant_count, fulls_count)`: the concession divided among
      everyone but the conceder, and that share divided once more among the conceder and the
      full claimants. Both divisions are DisputeFraction divisions. */
  function NewDistribution(concession: Unit, claimantCount: int, fullsCount: int): (r: Result<Distribution>)
    ensures claimantCount == 1 ==> r == Err(ZeroDivisionError)
    ensures claimantCount >= 2 && fullsCount >= 0 ==> r.Ok?
    ensures r.Err? ==> r.error == ZeroDivisionError || r.error == FractionRangeError
    ensures r.Ok? ==>
      r.value.concession == concession && r.value.claimantCount == claimantCount &&
      r.value.fullsCount == fullsCount &&
      r.value.fullShare * (claimantCount - 1) as real == concession &&
      r.value.partialShare * (fullsCount + 1) as real == r.value.fullShare
  {
    match TrueDiv(concession, (claimantCount - 1) as real)
    case Err(e) => Err(e)
    case Ok(full) =>
      match TrueDiv(full, (fullsCount + 1) as real)
      case Err(e) => Err(e)
      case Ok(partial) => Ok(Distribution(concession, claimantCount, fullsCount, full, partial))
  }

  /** What one round hands out: `fulls` full claimants each get `full_share + partials *
      partial_share` and `partials` partial claimants each get `partial_share`, which adds up to
      exactly `full_share` per claimant. */
  lemma DistributionIdentity(fullShare: real, partialShare: real, partials: nat, fulls: nat)
    requires partialShare * (fulls + 1) as real == fullShare
    ensures fulls as real * (fullShare + partials as real * partialShare) + partials as real * partialShare
      == (partials + fulls) as real * fullShare
  {
    var f := fulls as real;
    var p := partials as real;
    calc {
      f * (fullShare + p * partialShare) + p * partialShare;
      f * fullShare + p * (partialShare * (f + 1.0));
      f * fullShare + p * fullShare;
    }
  }

  // ---- the dispute's state as a value ----

  /** The Talit's remainder, the partial and the full claimants in list order, and the number
      of claimants the dispute started with. */
  datatype DisputeState = DisputeState(
    remainder: Unit, partials: seq<ClaimantState>, fulls: seq<ClaimantState>, claimantCount: nat)

  /** What is still in the Talit plus what every claimant has collected. */
  function Total(s: DisputeState): real {
    s.remainder + TotalCollected(s.partials) + TotalCollected(s.fulls)
  }

  /** The two lists together hold the claimant_count claimants. */
  predicate Complete(s: DisputeState) {
    |s.partials| + |s.fulls| == s.claimantCount
  }

  /** `update_claimant_statuses`: partial claimants whose concession is used up move, in
      order, to the end of the full list. */
  function UpdateStatusesOf(s: DisputeState): (r: DisputeState)
    ensures r.remainder == s.remainder && r.claimantCount == s.claimantCount
    ensures multiset(r.partials) + multiset(r.fulls) == multiset(s.partials) + multiset(s.fulls)
    ensures |r.partials| + |r.fulls| == |s.partials| + |s.fulls|
    ensures |r.fulls| >= |s.fulls| && r.fulls[..|s.fulls|] == s.fulls
    ensures forall c :: c in r.partials ==> c.concession != 0.0
    ensures Total(r) == Total(s)
  {
    PartitionSpec(s.partials);
    TotalCollectedAppend(s.fulls, Fulls(s.partials));
    assert (s.fulls + Fulls(s.partials))[..|s.fulls|] == s.fulls;
    s.(partials := Partials(s.partials), fulls := s.fulls + Fulls(s.partials))
  }

  /** `distribute_concession`: four walks over the lists, each stopping at the first raise and
      keeping what was already done. */
  function DistributeConcessionOf(s: DisputeState, d: Distribution): (r: Attempt<DisputeState>)
    ensures r.state.remainder == s.remainder && r.state.claimantCount == s.claimantCount
    ensures |r.state.partials| == |s.partials| && |r.state.fulls| == |s.fulls|
  {
    var conceded := ApplyToAll(s.partials, ConcedeOp(d.concession));
    if conceded.outcome.Fail? then Attempt(s.(partials := conceded.state), conceded.outcome)
    else
      var fullsPaid := ApplyToAll(s.fulls, CollectOp(d.fullShare));
      if fullsPaid.outcome.Fail? then
        Attempt(s.(partials := conceded.state, fulls := fullsPaid.state), fullsPaid.outcome)
      else
        var partialsPaid := ApplyToAll(conceded.state, CollectOp(d.partialShare));
        if partialsPaid.outcome.Fail? then
          Attempt(s.(partials := partialsPaid.state, fulls := fullsPaid.state), partialsPaid.outcome)
        else
          match Mul(d.partialShare, |s.partials| as real)
          case Err(e) => Attempt(s.(partials := partialsPaid.state, fulls := fullsPaid.state), Fail(e))
          case Ok(extra) =>
            var fullsTopped := ApplyToAll(fullsPaid.state, CollectOp(extra));
            Attempt(s.(partials := partialsPaid.state, fulls := fullsTopped.state), fullsTopped.outcome)
  }

  /** A completed `distribute_concession` is the four walks, each completed, one after another. */
  lemma DistributeConcessionSteps(s: DisputeState, d: Distribution)
    requires DistributeConcessionOf(s, d).outcome == Pass
    ensures var conceded := ApplyToAll(s.partials, ConcedeOp(d.concession));
      var fullsPaid := ApplyToAll(s.fulls, CollectOp(d.fullShare));
      var partialsPaid := ApplyToAll(conceded.state, CollectOp(d.partialShare));
      var extra := Mul(d.partialShare, |s.partials| as real);
      conceded.outcome == Pass && fullsPaid.outcome == Pass && partialsPaid.outcome == Pass && extra.Ok? &&
      var fullsTopped := ApplyToAll(fullsPaid.state, CollectOp(extra.value));
      fullsTopped.outcome == Pass &&
      DistributeConcessionOf(s, d).state == s.(partials := partialsPaid.state, fulls := fullsTopped.state)
  {
  }

  /** After a completed `distribute_concession`, every partial claimant has conceded the round's
      concession and collected `partial_share`, and every full claimant has collected
      `full_share + partial_share * len(partials)`. */
  lemma DistributeConcessionEffect(s: DisputeState, d: Distribution)
    requires DistributeConcessionOf(s, d).outcome == Pass
    ensures var r := DistributeConcessionOf(s, d).state;
      (forall i :: 0 <= i < |s.partials| ==>
        r.partials[i].identifier == s.partials[i].identifier &&
        r.partials[i].claim == s.partials[i].claim &&
        r.partials[i].concession == s.partials[i].concession - d.concession &&
        r.partials[i].collected == s.partials[i].collected + d.partialShare) &&
      (forall i :: 0 <= i < |s.fulls| ==>
        r.fulls[i].identifier == s.fulls[i].identifier &&
        r.fulls[i].claim == s.fulls[i].claim &&
        r.fulls[i].concession == s.fulls[i].concession &&
        r.fulls[i].collected == s.fulls[i].collected + d.fullShare + |s.partials| as real * d.partialShare)
  {
    DistributeConcessionSteps(s, d);
    var conceded := ApplyToAll(s.partials, ConcedeOp(d.concession));
    var fullsPaid := ApplyToAll(s.fulls, CollectOp(d.fullShare));
    var partialsPaid := ApplyToAll(conceded.state, CollectOp(d.partialShare));
    var extra := Mul(d.partialShare, |s.partials| as real).value;
    var fullsTopped := ApplyToAll(fullsPaid.state, CollectOp(extra));
    var r := DistributeConcessionOf(s, d).state;
    forall i | 0 <= i < |s.partials|
      ensures r.partials[i].identifier == s.partials[i].identifier
      ensures r.partials[i].claim == s.partials[i].claim
      ensures r.partials[i].concession == s.partials[i].concession - d.concession
      ensures r.partials[i].collected == s.partials[i].collected + d.partialShare
    {
      ApplyToAllPassAt(s.partials, ConcedeOp(d.concession), i);
      ApplyToAllPassAt(conceded.state, CollectOp(d.partialShare), i);
    }
    forall i | 0 <= i < |s.fulls|
      ensures r.fulls[i].identifier == s.fulls[i].identifier
      ensures r.fulls[i].claim == s.fulls[i].claim
      ensures r.fulls[i].concession == s.fulls[i].concession
      ensures r.fulls[i].collected == s.fulls[i].collected + d.fullShare + |s.partials| as real * d.partialShare
    {
      ApplyToAllPassAt(s.fulls, CollectOp(d.fullShare), i);
      ApplyToAllPassAt(fullsPaid.state, CollectOp(extra), i);
    }
  }

  /** A completed `distribute_concession` adds `partial_share` per partial claimant and
      `full_share + partial_share * len(partials)` per full claimant to what was collected. */
  lemma DistributeConcessionTotal(s: DisputeState, d: Distribution)
    requires DistributeConcessionOf(s, d).outcome == Pass
    ensures var r := DistributeConcessionOf(s, d).state;
      TotalCollected(r.partials) == TotalCollected(s.partials) + Times(|s.partials|, d.partialShare) &&
      TotalCollected(r.fulls) == TotalCollected(s.fulls)
        + Times(|s.fulls|, d.fullShare + Times(|s.partials|, d.partialShare))
  {
    DistributeConcessionSteps(s, d);
    var conceded := ApplyToAll(s.partials, ConcedeOp(d.concession));
    var extra := Mul(d.partialShare, |s.partials| as real).value;
    ConcedeAllEffect(s.partials, d.concession);
    CollectAllTotal(conceded.state, d.partialShare);
    MulIsTimes(d.partialShare, |s.partials|);
    var fullsPaid := ApplyToAll(s.fulls, CollectOp(d.fullShare));
    CollectAllTotal(s.fulls, d.fullShare);
    CollectAllTotal(fullsPaid.state, extra);
    TimesAdd(|s.fulls|, d.fullShare, extra);
  }

  /** `Mul` by a claimant count, when it succeeds, is that many copies of the fraction. */
  lemma MulIsTimes(x: Unit, k: nat)
    requires Mul(x, k as real).Ok?
    ensures Mul(x, k as real).value == Times(k, x)
  {
    TimesIsProduct(k, x);
  }

  /** A round's Distribution, counted out claimant by claimant, hands out exactly the
      `full_share * claimant_count` that the Talit gives up for it. */
  lemma RoundHandsOut(concession: Unit, n: int, partials: nat, fulls: nat)
    requires partials + fulls == n
    requires NewDistribution(concession, n, fulls).Ok?
    requires Mul(NewDistribution(concession, n, fulls).value.fullShare, n as real).Ok?
    ensures var d := NewDistribution(concession, n, fulls).value;
      Times(fulls, d.fullShare + Times(partials, d.partialShare)) + Times(partials, d.partialShare)
        == Mul(d.fullShare, n as real).value
  {
    var d := NewDistribution(concession, n, fulls).value;
    TimesIsProduct(partials, d.partialShare);
    TimesIsProduct(fulls, d.fullShare + Times(partials, d.partialShare));
    DistributionIdentity(d.fullShare, d.partialShare, partials, fulls);
  }

  /** `handle_distribution`: build the round's Distribution, take `full_share * claimant_count`
      out of the Talit, hand it out, then move the claimants whose concession is used up. The
      Talit is charged first, so a round the remainder cannot pay for raises before any
      claimant changes. */
  function HandleDistributionOf(s: DisputeState, concession: Unit): (r: Attempt<DisputeState>)
    ensures r.state.claimantCount == s.claimantCount
  {
    match NewDistribution(concession, s.claimantCount, |s.fulls|)
    case Err(e) => Attempt(s, Fail(e))
    case Ok(d) =>
      match Mul(d.fullShare, s.claimantCount as real)
      case Err(e) => Attempt(s, Fail(e))
      case Ok(amount) =>
        match Allocation(s.remainder, amount)
        case Err(e) => Attempt(s, Fail(e))
        case Ok(remainder) =>
          var a := DistributeConcessionOf(s.(remainder := remainder), d);
          if a.outcome.Fail? then a else Attempt(UpdateStatusesOf(a.state), Pass)
  }

  /** Where a completed round comes from: the Distribution, the charge to the Talit and the
      completed `distribute_concession`, before the statuses are updated. */
  lemma HandleDistributionSteps(s: DisputeState, concession: Unit)
    requires HandleDistributionOf(s, concession).outcome == Pass
    ensures var d := NewDistribution(concession, s.claimantCount, |s.fulls|);
      d.Ok? && Mul(d.value.fullShare, s.claimantCount as real).Ok? &&
      var amount := Mul(d.value.fullShare, s.claimantCount as real).value;
      Allocation(s.remainder, amount).Ok? &&
      var s1 := s.(remainder := Allocation(s.remainder, amount).value);
      DistributeConcessionOf(s1, d.value).outcome == Pass &&
      HandleDistributionOf(s, concession).state == UpdateStatusesOf(DistributeConcessionOf(s1, d.value).state)
  {
  }

  /** A completed round started from the first partial claimant's concession leaves that
      claimant with no concession, so it becomes full and the partial list gets shorter. */
  lemma RoundShrinksPartials(s: DisputeState)
    requires s.partials != []
    requires HandleDistributionOf(s, s.partials[0].concession).outcome == Pass
    ensures |HandleDistributionOf(s, s.partials[0].concession).state.partials| < |s.partials|
  {
    var c := s.partials[0].concession;
    HandleDistributionSteps(s, c);
    var d := NewDistribution(c, s.claimantCount, |s.fulls|).value;
    var amount := Mul(d.fullShare, s.claimantCount as real).value;
    var s1 := s.(remainder := Allocation(s.remainder, amount).value);
    var r := DistributeConcessionOf(s1, d).state;
    DistributeConcessionEffect(s1, d);
    assert r.partials[0].concession == 0.0;
    assert r.partials == [r.partials[0]] + r.partials[1..];
    PartitionCounts(r.partials[1..]);
  }

  /** `split_remainder_equally`: the share is the remainder divided by claimant_count (a
      dispute with no claimants raises here); the Talit then allocates its whole remainder,
      which cannot raise, and every full claimant collects the share. */
  function SplitRemainderOf(s: DisputeState): (r: Attempt<DisputeState>)
    ensures r.state.claimantCount == s.claimantCount && r.state.partials == s.partials
    ensures s.claimantCount == 0 ==> r == Attempt(s, Fail(ZeroDivisionError))
    ensures s.claimantCount > 0 ==> r.state.remainder == 0.0
  {
    match TrueDiv(s.remainder, s.claimantCount as real)
    case Err(e) => Attempt(s, Fail(e))
    case Ok(share) =>
      var remainder := Allocation(s.remainder, s.remainder).value;
      var paid := ApplyToAll(s.fulls, CollectOp(share));
      Attempt(s.(remainder := remainder, fulls := paid.state), paid.outcome)
  }

  // ---- what a round preserves ----

  /** A completed round takes `full_share * claimant_count` from the Talit and hands out exactly
      that much, so remainder + collected is unchanged. */
  lemma {:induction false} HandleDistributionConserves(s: DisputeState, concession: Unit)
    requires Complete(s)
    requires HandleDistributionOf(s, concession).outcome == Pass
    ensures Total(HandleDistributionOf(s, concession).state) == Total(s)
    ensures Complete(HandleDistributionOf(s, concession).state)
  {
    HandleDistributionSteps(s, concession);
    var d := NewDistribution(concession, s.claimantCount, |s.fulls|).value;
    var amount := Mul(d.fullShare, s.claimantCount as real).value;
    var s1 := s.(remainder := Allocation(s.remainder, amount).value);
    DistributeConcessionAddsUp(s1, concession, s.claimantCount, |s.fulls|);
  }

  /** A completed `distribute_concession` of a round's Distribution hands out `full_share` per
      claimant in all, which is what the Talit gave up for the round. */
  lemma DistributeConcessionAddsUp(s: DisputeState, concession: Unit, n: nat, f: int)
    requires f == |s.fulls| && |s.partials| + f == n
    requires NewDistribution(concession, n, f).Ok?
    requires Mul(NewDistribution(concession, n, f).value.fullShare, n as real).Ok?
    requires DistributeConcessionOf(s, NewDistribution(concession, n, f).value).outcome == Pass
    ensures var d := NewDistribution(concession, n, f).value;
      Total(DistributeConcessionOf(s, d).state) == Total(s) + Mul(d.fullShare, n as real).value
  {
    DistributeConcessionTotal(s, NewDistribution(concession, n, f).value);
    RoundHandsOut(concession, n, |s.partials|, f);
  }

  /** Splitting the remainder once no partial claimant is left moves the remainder, unchanged
      in total, to the full claimants. */
  lemma SplitRemainderConserves(s: DisputeState)
    requires Complete(s) && s.partials == []
    requires SplitRemainderOf(s).outcome == Pass
    ensures Total(SplitRemainderOf(s).state) == Total(s)
    ensures SplitRemainderOf(s).state.remainder == 0.0
  {
    var share := s.remainder / s.claimantCount as real;
    CollectAllTotal(s.fulls, share);
    TimesIsProduct(|s.fulls|, share);
  }

  /** The partial claimants are lined up by claim, largest first, and have all conceded the
      same amount so far: claim + concession is the same for each of them. */
  predicate Aligned(p: seq<ClaimantState>) {
    (forall i, j :: 0 <= i < j < |p| ==> p[i].claim >= p[j].claim) &&
    (forall i, j :: 0 <= i < |p| && 0 <= j < |p| ==> p[i].claim + p[i].concession == p[j].claim + p[j].concession)
  }

  /** In an aligned list the first claimant concedes the least. */
  lemma AlignedFirstConcedesLeast(p: seq<ClaimantState>, j: nat)
    requires Aligned(p) && j < |p|
    ensures p[0].concession <= p[j].concession
  {
    if j > 0 {
      assert p[0].claim >= p[j].claim;
    }
  }

  /** `distribute_concession` cannot make a partial claimant concede more than it has left
      when every partial claimant has at least the round's concession left; the walks that
      collect stop only on collect errors. */
  lemma DistributeConcessionNeverOverConcedes(s: DisputeState, d: Distribution)
    requires forall i :: 0 <= i < |s.partials| ==> d.concession <= s.partials[i].concession
    ensures DistributeConcessionOf(s, d).outcome != Fail(FractionOperationError(ConcedeMoreThanConcession))
  {
    var conceded := ApplyToAll(s.partials, ConcedeOp(d.concession));
    forall i | 0 <= i < |s.partials|
      ensures Apply(s.partials[i], ConcedeOp(d.concession)).Ok?
    {
    }
    ApplyToAllPass(s.partials, ConcedeOp(d.concession));
    var fullsPaid := ApplyToAll(s.fulls, CollectOp(d.fullShare));
    CollectAllErrors(s.fulls, d.fullShare);
    CollectAllErrors(conceded.state, d.partialShare);
    var extra := Mul(d.partialShare, |s.partials| as real);
    if extra.Ok? {
      CollectAllErrors(fullsPaid.state, extra.value);
    }
  }

  /** A round whose concession no partial claimant falls short of never raises
      ConcedeMoreThanConcession: the other steps raise range, division, allocation or collect
      errors only. */
  lemma HandleDistributionNeverOverConcedes(s: DisputeState, concession: Unit)
    requires forall i :: 0 <= i < |s.partials| ==> concession <= s.partials[i].concession
    ensures HandleDistributionOf(s, concession).outcome != Fail(FractionOperationError(ConcedeMoreThanConcession))
  {
    var d := NewDistribution(concession, s.claimantCount, |s.fulls|);
    if d.Ok? && Mul(d.value.fullShare, s.claimantCount as real).Ok? {
      var amount := Mul(d.value.fullShare, s.claimantCount as real).value;
      if Allocation(s.remainder, amount).Ok? {
        var s1 := s.(remainder := Allocation(s.remainder, amount).value);
        DistributeConcessionNeverOverConcedes(s1, d.value);
      }
    }
  }

  /** A completed round started from the first partial claimant's concession keeps the partial
      claimants aligned. */
  lemma RoundAligned(s: DisputeState)
    requires Aligned(s.partials) && s.partials != []
    requires HandleDistributionOf(s, s.partials[0].concession).outcome == Pass
    ensures Aligned(HandleDistributionOf(s, s.partials[0].concession).state.partials)
  {
    var c := s.partials[0].concession;
    HandleDistributionSteps(s, c);
    var d := NewDistribution(c, s.claimantCount, |s.fulls|).value;
    var amount := Mul(d.fullShare, s.claimantCount as real).value;
    var s1 := s.(remainder := Allocation(s.remainder, amount).value);
    var p := DistributeConcessionOf(s1, d).state.partials;
    DistributeConcessionEffect(s1, d);
    forall i, j | 0 <= i < j < |p|
      ensures p[i].claim >= p[j].claim
    {
    }
    forall i, j | 0 <= i < |p| && 0 <= j < |p|
      ensures p[i].claim + p[i].concession == p[j].claim + p[j].concession
    {
    }
    PartialsKeepAlignment(p);
  }

  /** A round started from the first partial claimant's concession never makes a claimant
      concede more than it has left, and keeps the partial claimants aligned. */
  lemma RoundKeepsAlignment(s: DisputeState)
    requires Aligned(s.partials) && s.partials != []
    ensures var r := HandleDistributionOf(s, s.partials[0].concession);
      r.outcome != Fail(FractionOperationError(ConcedeMoreThanConcession)) &&
      (r.outcome == Pass ==> Aligned(r.state.partials))
  {
    var c := s.partials[0].concession;
    forall j | 0 <= j < |s.partials|
      ensures c <= s.partials[j].concession
    {
      AlignedFirstConcedesLeast(s.partials, j);
    }
    HandleDistributionNeverOverConcedes(s, c);
    if HandleDistributionOf(s, c).outcome == Pass {
      RoundAligned(s);
    }
  }

  /** Dropping the claimants whose concession is used up keeps a list aligned. */
  lemma {:induction false} PartialsKeepAlignment(p: seq<ClaimantState>)
    requires Aligned(p)
    ensures Aligned(Partials(p))
  {
    PartialsKeepOrder(p);
    PartialsAreFrom(p);
    var q := Partials(p);
    forall i, j | 0 <= i < |q| && 0 <= j < |q|
      ensures q[i].claim + q[i].concession == q[j].claim + q[j].concession
    {
      assert q[i] in p && q[j] in p;
    }
  }

  // ---- the Dispute object ----

  /** `sorted(claims, reverse=True)`: the claims from the largest down. */
  function SortedClaims(claims: seq<Unit>): (r: seq<Unit>)
    ensures SortedDescending(r) && multiset(r) == multiset(claims) && |r| == |claims|
  {
    SortDescendingCorrect(claims);
    SortKeepsRange(claims);
    SortDescending(claims)
  }

  lemma SortKeepsRange(claims: seq<Unit>)
    ensures forall i :: 0 <= i < |SortDescending(claims)| ==> 0.0 <= SortDescending(claims)[i] <= 1.0
  {
    var r := SortDescending(claims);
    SortDescendingCorrect(claims);
    forall i | 0 <= i < |r|
      ensures 0.0 <= r[i] <= 1.0
    {
      assert r[i] in multiset(r);
    }
  }

  /** The lists `update_claimant_statuses` leaves: the same claimant objects, still without
      repeats, holding the states `UpdateStatusesOf` describes. */
  lemma StatusUpdateLists(p: seq<TalitClaimant>, f: seq<TalitClaimant>)
    requires Distinct(p + f)
    ensures var split := UpdatePartialClaimants(p);
      multiset(split.0 + (f + split.1)) == multiset(p + f) &&
      Distinct(split.0 + (f + split.1)) &&
      States(split.0) == Partials(States(p)) &&
      States(f + split.1) == States(f) + Fulls(States(p))
  {
    var split := UpdatePartialClaimants(p);
    StatesAppend(f, split.1);
    assert split.0 + (f + split.1) == split.0 + f + split.1;
    assert p + f == p + f;
    DistinctPermutation(p + f, split.0 + (f + split.1));
  }

  /** `Dispute`: the Talit, the number of claimants, and the claimant objects split into the
      partial and the full list. The claimant objects are shared with whoever holds the lists,
      so every operation is stated on `State()`, the values the objects hold. */
  class Dispute {
    const talit: Talit
    const claimantCount: nat
    var partialClaimants: seq<TalitClaimant>
    var fullClaimants: seq<TalitClaimant>

    /** No claimant object is listed twice, in one list or across the two. */
    predicate Valid()
      reads this
    {
      Distinct(partialClaimants + fullClaimants)
    }

    function State(): DisputeState
      reads this, talit, partialClaimants, fullClaimants
    {
      DisputeState(talit.remainder, States(partialClaimants), States(fullClaimants), claimantCount)
    }

    /** `__init__`: one claimant per claim, numbered in order of the claims sorted from the
        largest down, all partial at first; then the statuses are updated. */
    constructor (talit: Talit, claims: seq<Unit>)
      ensures Valid() && this.talit == talit
      ensures State() == UpdateStatusesOf(DisputeState(talit.remainder, InitialStates(SortedClaims(claims)), [], |claims|))
      ensures forall c :: c in partialClaimants + fullClaimants ==> fresh(c)
    {
      this.talit := talit;
      claimantCount := |claims|;
      var cs := CreateClaimants(SortedClaims(claims));
      partialClaimants := cs;
      fullClaimants := [];
      new;
      assert partialClaimants + fullClaimants == cs;
      assert State() == DisputeState(talit.remainder, InitialStates(SortedClaims(claims)), [], |claims|);
      UpdateClaimantStatuses();
      forall c | c in partialClaimants + fullClaimants
        ensures c in cs
      {
        assert c in multiset(partialClaimants) + multiset(fullClaimants);
      }
    }

    /** `update_claimant_statuses`. */
    method UpdateClaimantStatuses()
      requires Valid()
      modifies this`partialClaimants, this`fullClaimants
      ensures Valid()
      ensures multiset(partialClaimants) + multiset(fullClaimants) == old(multiset(partialClaimants) + multiset(fullClaimants))
      ensures State() == UpdateStatusesOf(old(State()))
    {
      var split := UpdatePartialClaimants(partialClaimants);
      StatusUpdateLists(partialClaimants, fullClaimants);
      partialClaimants, fullClaimants := split.0, fullClaimants + split.1;
    }

    /** `split_remainder_equally`. */
    method SplitRemainderEqually() returns (outcome: Outcome)
      requires Valid()
      modifies talit, fullClaimants
      ensures Valid()
      ensures partialClaimants == old(partialClaimants) && fullClaimants == old(fullClaimants)
      ensures outcome == SplitRemainderOf(old(State())).outcome
      ensures State() == SplitRemainderOf(old(State())).state
    {
      DistinctSplit(partialClaimants, fullClaimants);
      var share := TrueDiv(talit.remainder, claimantCount as real);
      if share.Err? {
        return Fail(share.error);
      }
      var emptied := talit.Allocate(talit.remainder);
      outcome := DistributeToClaimants(share.value, fullClaimants);
    }

    /** `distribute_concession`. */
    method DistributeConcession(d: Distribution) returns (outcome: Outcome)
      requires Valid()
      modifies partialClaimants, fullClaimants
      ensures outcome == DistributeConcessionOf(old(State()), d).outcome
      ensures State() == DistributeConcessionOf(old(State()), d).state
    {
      DistinctSplit(partialClaimants, fullClaimants);
      ghost var s0 := State();
      label Start:
      outcome := ConcedeFromClaimants(d.concession, partialClaimants);
      StatesUnchanged@Start(fullClaimants);
      ghost var conceded := ApplyToAll(s0.partials, ConcedeOp(d.concession));
      if outcome.Fail? {
        return;
      }
      label Conceded:
      outcome := DistributeToClaimants(d.fullShare, fullClaimants);
      StatesUnchanged@Conceded(partialClaimants);
      ghost var fullsPaid := ApplyToAll(s0.fulls, CollectOp(d.fullShare));
      if outcome.Fail? {
        return;
      }
      label FullsPaid:
      outcome := DistributeToClaimants(d.partialShare, partialClaimants);
      StatesUnchanged@FullsPaid(fullClaimants);
      if outcome.Fail? {
        return;
      }
      var extra := Mul(d.partialShare, |partialClaimants| as real);
      if extra.Err? {
        return Fail(extra.error);
      }
      label PartialsPaid:
      outcome := DistributeToClaimants(extra.value, fullClaimants);
      StatesUnchanged@PartialsPaid(partialClaimants);
    }

    /** `handle_distribution`. */
    method HandleDistribution(concession: Unit) returns (outcome: Outcome)
      requires Valid()
      modifies this`partialClaimants, this`fullClaimants, talit, partialClaimants, fullClaimants
      ensures Valid()
      ensures multiset(partialClaimants) + multiset(fullClaimants) == old(multiset(partialClaimants) + multiset(fullClaimants))
      ensures outcome == HandleDistributionOf(old(State()), concession).outcome
      ensures State() == HandleDistributionOf(old(State()), concession).state
    {
      var d := NewDistribution(concession, claimantCount, |fullClaimants|);
      if d.Err? {
        return Fail(d.error);
      }
      var amount := Mul(d.value.fullShare, claimantCount as real);
      if amount.Err? {
        return Fail(amount.error);
      }
      label Start:
      outcome := talit.Allocate(amount.value);
      StatesUnchanged@Start(partialClaimants);
      StatesUnchanged@Start(fullClaimants);
      if outcome.Fail? {
        return;
      }
      outcome := DistributeConcession(d.value);
      if outcome.Fail? {
        return;
      }
      UpdateClaimantStatuses();
    }
  }
}
