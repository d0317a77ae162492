/** resolution: the driver. While some claimant is still partial, a round is run with the
    concession of the first partial claimant (the largest claim among them, hence the smallest
    concession); then whatever is left of the Talit is split among everyone. */
module Resolution {
  import opened Errors
  import opened DisputeFractions
  import opened TalitClaimants
  import opened Talits
  import opened ClaimantManager
  import opened Disputes
  import opened Sequences
  import opened Decimal

  /** `apply_the_talmudic_principles` on values: rounds until no claimant is partial, then
      `split_remainder_equally`; the first raise ends it with the state reached so far. Every
      completed round moves at least one claimant to the full list, so there are at most as
      many rounds as partial claimants. */
  function ApplyPrinciplesOf(s: DisputeState): (r: Attempt<DisputeState>)
    ensures r.state.claimantCount == s.claimantCount
    decreases |s.partials|
  {
    if s.partials == [] then SplitRemainderOf(s)
    else
      var round := HandleDistributionOf(s, s.partials[0].concession);
      if round.outcome.Fail? then round
      else
        RoundShrinksPartials(s);
        ApplyPrinciplesOf(round.state)
  }

  /** One step of the resolution: a round that raises ends it, a completed round leaves the
      rest of the resolution to start from the round's result, and an empty partial list
      leaves only the split. */
  lemma ApplyPrinciplesUnfold(s: DisputeState)
    ensures s.partials == [] ==> ApplyPrinciplesOf(s) == SplitRemainderOf(s)
    ensures s.partials != [] ==>
      var round := HandleDistributionOf(s, s.partials[0].concession);
      ApplyPrinciplesOf(s) == (if round.outcome.Fail? then round else ApplyPrinciplesOf(round.state))
  {
  }

  /** The shape of a dispute under way: the two lists hold every claimant and the partial
      claimants are aligned (claim-descending, with equal claim + concession). */
  predicate Resolving(s: DisputeState) {
    Complete(s) && Aligned(s.partials)
  }

  /** What the resolution delivers. It never makes a claimant concede more than it has left;
      when it completes, nobody is partial, the Talit is used up, all claimants are in the
      full list and together they collected what the Talit and the claimants held at the
      start. It may still raise (a share out of range, a remainder too small to allocate, a
      collect beyond a claim, a dispute without claimants). */
  lemma {:induction false} ApplyPrinciplesResult(s: DisputeState)
    requires Resolving(s)
    ensures var r := ApplyPrinciplesOf(s);
      r.outcome != Fail(FractionOperationError(ConcedeMoreThanConcession)) &&
      (r.outcome == Pass ==>
        r.state.partials == [] && r.state.remainder == 0.0 &&
        |r.state.fulls| == s.claimantCount && TotalCollected(r.state.fulls) == Total(s))
    decreases |s.partials|
  {
    if s.partials == [] {
      if s.claimantCount > 0 {
        CollectAllErrors(s.fulls, s.remainder / s.claimantCount as real);
      }
      if SplitRemainderOf(s).outcome == Pass {
        SplitRemainderConserves(s);
      }
    } else {
      var c := s.partials[0].concession;
      RoundKeepsAlignment(s);
      var round := HandleDistributionOf(s, c);
      if round.outcome == Pass {
        HandleDistributionConserves(s, c);
        RoundShrinksPartials(s);
        ApplyPrinciplesResult(round.state);
      }
    }
  }

  // ---- create_dispute ----

  /** The state `create_dispute(claims)` sets up: a whole Talit, one claimant per claim in
      order of the claims from the largest down, statuses updated. */
  function InitialDisputeState(claims: seq<Unit>): DisputeState {
    UpdateStatusesOf(DisputeState(1.0, InitialStates(SortedClaims(claims)), [], |claims|))
  }

  lemma {:induction false} NothingCollected(s: seq<ClaimantState>)
    requires forall i :: 0 <= i < |s| ==> s[i].collected == 0.0
    ensures TotalCollected(s) == 0.0
  {
    if s != [] {
      NothingCollected(s[1..]);
    }
  }

  /** A new dispute is ready for the rounds: every claimant is in one list, the partial ones
      are aligned and still concede something, the full ones claim the whole Talit, and
      nothing is collected yet. */
  lemma InitialDisputeReady(claims: seq<Unit>)
    ensures var s := InitialDisputeState(claims);
      Resolving(s) && Total(s) == 1.0 && s.remainder == 1.0 && s.claimantCount == |claims| &&
      (forall c :: c in s.partials ==> c.concession != 0.0) &&
      (forall c :: c in s.fulls ==> c.claim == 1.0)
  {
    var p := InitialStates(SortedClaims(claims));
    var before := DisputeState(1.0, p, [], |claims|);
    InitialClaimantsReady(claims);
    assert Total(before) == 1.0;
    PartialsKeepAlignment(p);
    PartitionKinds(p);
    var s := InitialDisputeState(claims);
    assert s == UpdateStatusesOf(before);
    assert [] + Fulls(p) == Fulls(p);
    assert s.partials == Partials(p) && s.fulls == Fulls(p);
  }

  /** The claimants of a new dispute, before the statuses are updated: aligned, nothing
      collected, and those conceding nothing claim the whole Talit. */
  lemma InitialClaimantsReady(claims: seq<Unit>)
    ensures var p := InitialStates(SortedClaims(claims));
      Aligned(p) && TotalCollected(p) == 0.0 && forall c :: c in Fulls(p) ==> c.claim == 1.0
  {
    var sorted := SortedClaims(claims);
    var p := InitialStates(sorted);
    NothingCollected(p);
    forall i, j | 0 <= i < j < |p|
      ensures p[i].claim >= p[j].claim
    {
      SortedPairs(sorted, i, j);
    }
    PartitionKinds(p);
    forall c | c in Fulls(p)
      ensures c.claim == 1.0
    {
      FullsAreFrom(p);
    }
  }

  /** In a descending list every earlier element is at least every later one. */
  lemma SortedPairs(s: seq<real>, i: nat, j: nat)
    requires SortedDescending(s) && i < j < |s|
    ensures s[i] >= s[j]
  {
  }

  lemma {:induction false} FullsAreFrom(s: seq<ClaimantState>)
    ensures forall c :: c in Fulls(s) ==> c in s
  {
    if s != [] {
      FullsAreFrom(s[1..]);
    }
  }

  /** `create_dispute`: a new Talit and a new Dispute over the claims. */
  method CreateDispute(claims: seq<Unit>) returns (dispute: Dispute)
    ensures fresh(dispute) && fresh(dispute.talit) && dispute.Valid()
    ensures forall c :: c in dispute.partialClaimants + dispute.fullClaimants ==> fresh(c)
    ensures dispute.State() == InitialDisputeState(claims)
  {
    var talit := new Talit();
    dispute := new Dispute(talit, claims);
  }

  /** Lists holding the same claimant objects hold each one in one of them. */
  lemma SameMembers(p: seq<TalitClaimant>, f: seq<TalitClaimant>, p0: seq<TalitClaimant>, f0: seq<TalitClaimant>)
    requires multiset(p) + multiset(f) == multiset(p0) + multiset(f0)
    ensures forall i :: 0 <= i < |p| ==> p[i] in p0 || p[i] in f0
    ensures forall i :: 0 <= i < |f| ==> f[i] in p0 || f[i] in f0
  {
    forall c | c in p || c in f
      ensures c in p0 || c in f0
    {
      assert c in multiset(p) + multiset(f);
    }
  }

  /** `apply_the_talmudic_principles`, in place: returns the full claimants once the Talit is
      split; a raise ends the run with the dispute in the state it reached. */
  method ApplyTheTalmudicPrinciples(dispute: Dispute) returns (outcome: Outcome, resolution: seq<TalitClaimant>)
    requires dispute.Valid()
    modifies dispute, dispute.talit, dispute.partialClaimants, dispute.fullClaimants
    ensures outcome == ApplyPrinciplesOf(old(dispute.State())).outcome
    ensures dispute.State() == ApplyPrinciplesOf(old(dispute.State())).state
    ensures outcome == Pass ==> resolution == dispute.fullClaimants
    ensures dispute.Valid()
    ensures multiset(dispute.partialClaimants) + multiset(dispute.fullClaimants)
      == old(multiset(dispute.partialClaimants) + multiset(dispute.fullClaimants))
    ensures outcome == Pass ==>
      dispute.partialClaimants == [] && Distinct(resolution) &&
      multiset(resolution) == old(multiset(dispute.partialClaimants) + multiset(dispute.fullClaimants))
  {
    ghost var p0, f0 := dispute.partialClaimants, dispute.fullClaimants;
    ghost var members := multiset(p0) + multiset(f0);
    assert members == old(multiset(dispute.partialClaimants) + multiset(dispute.fullClaimants));
    while dispute.partialClaimants != []
      invariant dispute.Valid()
      invariant multiset(dispute.partialClaimants) + multiset(dispute.fullClaimants) == members
      invariant ApplyPrinciplesOf(dispute.State()) == ApplyPrinciplesOf(old(dispute.State()))
      decreases |dispute.partialClaimants|
    {
      ghost var s := dispute.State();
      var concession := dispute.partialClaimants[0].concession;
      assert concession == s.partials[0].concession;
      SameMembers(dispute.partialClaimants, dispute.fullClaimants, p0, f0);
      outcome := dispute.HandleDistribution(concession);
      ApplyPrinciplesUnfold(s);
      if outcome.Fail? {
        return outcome, [];
      }
      RoundShrinksPartials(s);
    }
    ApplyPrinciplesUnfold(dispute.State());
    SameMembers(dispute.partialClaimants, dispute.fullClaimants, p0, f0);
    outcome := dispute.SplitRemainderEqually();
    resolution := dispute.fullClaimants;
    assert dispute.partialClaimants == [] && dispute.partialClaimants + resolution == resolution;
    assert multiset(resolution) == members;
  }
  // ---- worked examples ----

  /** A walk over one claimant that accepts the call. */
  lemma WalkOne(c: ClaimantState, op: Op)
    requires Apply(c, op).Ok?
    ensures ApplyToAll([c], op) == Attempt([Apply(c, op).value], Pass)
  {
    assert [c][1..] == [];
    assert ApplyToAll([], op) == Attempt([], Pass);
    assert [Apply(c, op).value] + [] == [Apply(c, op).value];
  }

  /** A walk over two claimants that both accept the call. */
  lemma WalkTwo(c: ClaimantState, e: ClaimantState, op: Op)
    requires Apply(c, op).Ok? && Apply(e, op).Ok?
    ensures ApplyToAll([c, e], op) == Attempt([Apply(c, op).value, Apply(e, op).value], Pass)
  {
    assert [c, e][1..] == [e];
    WalkOne(e, op);
    assert [Apply(c, op).value] + [Apply(e, op).value] == [Apply(c, op).value, Apply(e, op).value];
  }

  /** A walk over three claimants that all accept the call. */
  lemma WalkThree(c: ClaimantState, e: ClaimantState, g: ClaimantState, op: Op)
    requires Apply(c, op).Ok? && Apply(e, op).Ok? && Apply(g, op).Ok?
    ensures ApplyToAll([c, e, g], op)
      == Attempt([Apply(c, op).value, Apply(e, op).value, Apply(g, op).value], Pass)
  {
    assert [c, e, g][1..] == [e, g];
    WalkTwo(e, g, op);
    assert [Apply(c, op).value] + [Apply(e, op).value, Apply(g, op).value]
      == [Apply(c, op).value, Apply(e, op).value, Apply(g, op).value];
  }

  /** The partition of one, two or three claimants. */
  lemma PartitionOne(c: ClaimantState)
    ensures Partials([c]) == (if c.concession != 0.0 then [c] else [])
    ensures Fulls([c]) == (if c.concession != 0.0 then [] else [c])
  {
    assert [c][1..] == [];
  }

  lemma PartitionTwo(c: ClaimantState, e: ClaimantState)
    ensures Partials([c, e]) == (if c.concession != 0.0 then [c] else []) + (if e.concession != 0.0 then [e] else [])
    ensures Fulls([c, e]) == (if c.concession != 0.0 then [] else [c]) + (if e.concession != 0.0 then [] else [e])
  {
    assert [c, e][1..] == [e];
    PartitionOne(e);
  }

  lemma PartitionThree(c: ClaimantState, e: ClaimantState, g: ClaimantState)
    requires c.concession != 0.0 && e.concession != 0.0 && g.concession != 0.0
    ensures Partials([c, e, g]) == [c, e, g] && Fulls([c, e, g]) == []
  {
    assert [c, e, g][1..] == [e, g];
    PartitionTwo(e, g);
    assert [c] + [e, g] == [c, e, g];
  }

  /** The claims of the Classic example, 1 and 1/2, are already sorted from the largest down,
      and its claimants are numbered "1" and "2". */
  lemma ClassicClaimants()
    ensures InitialStates(SortedClaims([1.0, 1.0 / 2.0]))
      == [ClaimantState("1", 1.0, 0.0, 0.0), ClaimantState("2", 1.0 / 2.0, 1.0 / 2.0, 0.0)]
  {
    var claims: seq<Unit> := [1.0, 1.0 / 2.0];
    assert claims[1..] == [1.0 / 2.0] && claims[1..][1..] == [];
    assert SortDescending(claims[1..]) == [1.0 / 2.0];
    assert SortedClaims(claims) == claims;
    assert NatToString(1) == [Digit(1)] == "1";
    assert NatToString(2) == [Digit(2)] == "2";
    var s := InitialStates(claims);
    assert s[0] == ClaimantState("1", 1.0, 0.0, 0.0);
    assert s[1] == ClaimantState("2", 1.0 / 2.0, 1.0 / 2.0, 0.0);
  }

  /** The Classic example starts with claimant "1", who claims everything and concedes
      nothing, full; and claimant "2" partial, conceding 1/2. */
  lemma ClassicStart()
    ensures InitialDisputeState([1.0, 1.0 / 2.0]) == DisputeState(1.0,
      [ClaimantState("2", 1.0 / 2.0, 1.0 / 2.0, 0.0)], [ClaimantState("1", 1.0, 0.0, 0.0)], 2)
  {
    ClassicClaimants();
    var c1 := ClaimantState("1", 1.0, 0.0, 0.0);
    var c2 := ClaimantState("2", 1.0 / 2.0, 1.0 / 2.0, 0.0);
    PartitionTwo(c1, c2);
    assert [] + [c1] == [c1];
  }

  /** The only round of the Classic example: claimant "2" concedes its 1/2, which is shared
      between the two claimants; the full claimant "1" also takes a share of the partial
      portion, ending with 3/4, and claimant "2" ends with 1/4. The Talit is used up. */
  lemma ClassicRound()
    ensures HandleDistributionOf(DisputeState(1.0,
      [ClaimantState("2", 1.0 / 2.0, 1.0 / 2.0, 0.0)], [ClaimantState("1", 1.0, 0.0, 0.0)], 2), 1.0 / 2.0)
      == Attempt(DisputeState(0.0, [],
        [ClaimantState("1", 1.0, 0.0, 3.0 / 4.0), ClaimantState("2", 1.0 / 2.0, 0.0, 1.0 / 4.0)], 2), Pass)
  {
    var c1 := ClaimantState("1", 1.0, 0.0, 0.0);
    var c2 := ClaimantState("2", 1.0 / 2.0, 1.0 / 2.0, 0.0);
    var s := DisputeState(1.0, [c2], [c1], 2);
    var d := Distribution(1.0 / 2.0, 2, 1, 1.0 / 2.0, 1.0 / 4.0);
    assert NewDistribution(1.0 / 2.0, 2, 1) == Ok(d);
    assert Mul(1.0 / 2.0, 2.0) == Ok(1.0);
    assert Allocation(1.0, 1.0) == Ok(0.0);
    var s1 := s.(remainder := 0.0);
    var conceded := c2.(concession := 0.0);
    assert Sub(1.0 / 2.0, 1.0 / 2.0) == Ok(0.0);
    WalkOne(c2, ConcedeOp(1.0 / 2.0));
    assert Add(0.0, 1.0 / 2.0) == Ok(1.0 / 2.0);
    WalkOne(c1, CollectOp(1.0 / 2.0));
    assert Add(0.0, 1.0 / 4.0) == Ok(1.0 / 4.0);
    WalkOne(conceded, CollectOp(1.0 / 4.0));
    assert Mul(1.0 / 4.0, 1.0) == Ok(1.0 / 4.0);
    assert Add(1.0 / 2.0, 1.0 / 4.0) == Ok(3.0 / 4.0);
    WalkOne(c1.(collected := 1.0 / 2.0), CollectOp(1.0 / 4.0));
    var a := DistributeConcessionOf(s1, d);
    assert a == Attempt(DisputeState(0.0, [conceded.(collected := 1.0 / 4.0)], [c1.(collected := 3.0 / 4.0)], 2), Pass);
    PartitionOne(conceded.(collected := 1.0 / 4.0));
    assert UpdateStatusesOf(a.state).fulls
      == [c1.(collected := 3.0 / 4.0)] + [conceded.(collected := 1.0 / 4.0)]
      == [c1.(collected := 3.0 / 4.0), conceded.(collected := 1.0 / 4.0)];
  }

  /** The Classic example resolves: one round and the split of an empty Talit leave claimant
      "1" with 3/4 and claimant "2" with 1/4, both full. */
  lemma ClassicResolution()
    ensures ApplyPrinciplesOf(InitialDisputeState([1.0, 1.0 / 2.0])) == Attempt(DisputeState(0.0, [],
      [ClaimantState("1", 1.0, 0.0, 3.0 / 4.0), ClaimantState("2", 1.0 / 2.0, 0.0, 1.0 / 4.0)], 2), Pass)
  {
    ClassicStart();
    ClassicRound();
    var r := DisputeState(0.0, [],
      [ClaimantState("1", 1.0, 0.0, 3.0 / 4.0), ClaimantState("2", 1.0 / 2.0, 0.0, 1.0 / 4.0)], 2);
    assert TrueDiv(0.0, 2.0) == Ok(0.0);
    assert Allocation(0.0, 0.0) == Ok(0.0);
    assert Add(3.0 / 4.0, 0.0) == Ok(3.0 / 4.0) && Add(1.0 / 4.0, 0.0) == Ok(1.0 / 4.0);
    WalkTwo(r.fulls[0], r.fulls[1], CollectOp(0.0));
    assert SplitRemainderOf(r) == Attempt(r, Pass);
  }

  /** Claims 1/2, 1/3 and 1/4 are already sorted from the largest down. */
  lemma ThreeClaimsSorted()
    ensures SortedClaims([1.0 / 2.0, 1.0 / 3.0, 1.0 / 4.0]) == [1.0 / 2.0, 1.0 / 3.0, 1.0 / 4.0]
  {
    var claims: seq<real> := [1.0 / 2.0, 1.0 / 3.0, 1.0 / 4.0];
    assert claims[1..] == [1.0 / 3.0, 1.0 / 4.0] && claims[1..][1..] == [1.0 / 4.0];
    assert claims[1..][1..][1..] == [];
    assert SortDescending(claims[1..][1..]) == Insert(1.0 / 4.0, []) == [1.0 / 4.0];
    assert SortDescending(claims[1..]) == Insert(1.0 / 3.0, [1.0 / 4.0]) == [1.0 / 3.0, 1.0 / 4.0];
    assert SortDescending(claims) == Insert(1.0 / 2.0, [1.0 / 3.0, 1.0 / 4.0]) == claims;
  }

  /** Their claimants are numbered "1", "2" and "3" and concede what they do not claim. */
  lemma ThreeClaimsNumbered()
    ensures InitialStates([1.0 / 2.0, 1.0 / 3.0, 1.0 / 4.0])
      == [ClaimantState("1", 1.0 / 2.0, 1.0 / 2.0, 0.0), ClaimantState("2", 1.0 / 3.0, 2.0 / 3.0, 0.0),
          ClaimantState("3", 1.0 / 4.0, 3.0 / 4.0, 0.0)]
  {
    assert NatToString(1) == [Digit(1)] == "1";
    assert NatToString(2) == [Digit(2)] == "2";
    assert NatToString(3) == [Digit(3)] == "3";
    var s := InitialStates([1.0 / 2.0, 1.0 / 3.0, 1.0 / 4.0]);
    assert s[0] == ClaimantState("1", 1.0 / 2.0, 1.0 / 2.0, 0.0);
    assert s[1] == ClaimantState("2", 1.0 / 3.0, 2.0 / 3.0, 0.0);
    assert s[2] == ClaimantState("3", 1.0 / 4.0, 3.0 / 4.0, 0.0);
  }

  /** Claims 1/2, 1/3 and 1/4 all start partial. */
  lemma ThreeClaimsStart()
    ensures InitialDisputeState([1.0 / 2.0, 1.0 / 3.0, 1.0 / 4.0]) == DisputeState(1.0,
      [ClaimantState("1", 1.0 / 2.0, 1.0 / 2.0, 0.0), ClaimantState("2", 1.0 / 3.0, 2.0 / 3.0, 0.0),
       ClaimantState("3", 1.0 / 4.0, 3.0 / 4.0, 0.0)], [], 3)
  {
    ThreeClaimsSorted();
    ThreeClaimsNumbered();
    PartitionThree(ClaimantState("1", 1.0 / 2.0, 1.0 / 2.0, 0.0), ClaimantState("2", 1.0 / 3.0, 2.0 / 3.0, 0.0),
      ClaimantState("3", 1.0 / 4.0, 3.0 / 4.0, 0.0));
  }

  /** `distribute_concession` in the first round: each of the three concedes 1/2 and collects
      1/4; there is no full claimant to pay. */
  lemma ThreeClaimsFirstHandOut()
    ensures DistributeConcessionOf(DisputeState(1.0 / 4.0,
      [ClaimantState("1", 1.0 / 2.0, 1.0 / 2.0, 0.0), ClaimantState("2", 1.0 / 3.0, 2.0 / 3.0, 0.0),
       ClaimantState("3", 1.0 / 4.0, 3.0 / 4.0, 0.0)], [], 3), Distribution(1.0 / 2.0, 3, 0, 1.0 / 4.0, 1.0 / 4.0))
      == Attempt(DisputeState(1.0 / 4.0,
        [ClaimantState("1", 1.0 / 2.0, 0.0, 1.0 / 4.0), ClaimantState("2", 1.0 / 3.0, 1.0 / 6.0, 1.0 / 4.0),
         ClaimantState("3", 1.0 / 4.0, 1.0 / 4.0, 1.0 / 4.0)], [], 3), Pass)
  {
    var a1 := ClaimantState("1", 1.0 / 2.0, 1.0 / 2.0, 0.0);
    var a2 := ClaimantState("2", 1.0 / 3.0, 2.0 / 3.0, 0.0);
    var a3 := ClaimantState("3", 1.0 / 4.0, 3.0 / 4.0, 0.0);
    var b1 := a1.(concession := 0.0);
    var b2 := a2.(concession := 1.0 / 6.0);
    var b3 := a3.(concession := 1.0 / 4.0);
    assert Sub(1.0 / 2.0, 1.0 / 2.0) == Ok(0.0);
    assert Sub(2.0 / 3.0, 1.0 / 2.0) == Ok(1.0 / 6.0);
    assert Sub(3.0 / 4.0, 1.0 / 2.0) == Ok(1.0 / 4.0);
    WalkThree(a1, a2, a3, ConcedeOp(1.0 / 2.0));
    assert Add(0.0, 1.0 / 4.0) == Ok(1.0 / 4.0);
    WalkThree(b1, b2, b3, CollectOp(1.0 / 4.0));
    assert Mul(1.0 / 4.0, 3.0) == Ok(3.0 / 4.0);
  }

  /** First round, the concession 1/2 of claimant "1": 3/4 of the Talit is handed out and
      claimant "1" becomes full; 1/4 is left. */
  lemma ThreeClaimsFirstRound()
    ensures HandleDistributionOf(DisputeState(1.0,
      [ClaimantState("1", 1.0 / 2.0, 1.0 / 2.0, 0.0), ClaimantState("2", 1.0 / 3.0, 2.0 / 3.0, 0.0),
       ClaimantState("3", 1.0 / 4.0, 3.0 / 4.0, 0.0)], [], 3), 1.0 / 2.0)
      == Attempt(DisputeState(1.0 / 4.0,
        [ClaimantState("2", 1.0 / 3.0, 1.0 / 6.0, 1.0 / 4.0), ClaimantState("3", 1.0 / 4.0, 1.0 / 4.0, 1.0 / 4.0)],
        [ClaimantState("1", 1.0 / 2.0, 0.0, 1.0 / 4.0)], 3), Pass)
  {
    assert NewDistribution(1.0 / 2.0, 3, 0) == Ok(Distribution(1.0 / 2.0, 3, 0, 1.0 / 4.0, 1.0 / 4.0));
    assert Mul(1.0 / 4.0, 3.0) == Ok(3.0 / 4.0);
    assert Allocation(1.0, 3.0 / 4.0) == Ok(1.0 / 4.0);
    ThreeClaimsFirstHandOut();
    var paid := [ClaimantState("1", 1.0 / 2.0, 0.0, 1.0 / 4.0), ClaimantState("2", 1.0 / 3.0, 1.0 / 6.0, 1.0 / 4.0),
      ClaimantState("3", 1.0 / 4.0, 1.0 / 4.0, 1.0 / 4.0)];
    assert paid[1..] == [paid[1], paid[2]];
    PartitionTwo(paid[1], paid[2]);
    assert Partials(paid) == [paid[1], paid[2]];
    assert Fulls(paid) == [paid[0]];
  }

  /** `distribute_concession` in the second round: claimants "2" and "3" concede 1/6 and
      collect 1/24; claimant "1" collects 1/12, then another 1/12 for the two partial shares. */
  lemma ThreeClaimsSecondHandOut()
    ensures DistributeConcessionOf(DisputeState(0.0,
      [ClaimantState("2", 1.0 / 3.0, 1.0 / 6.0, 1.0 / 4.0), ClaimantState("3", 1.0 / 4.0, 1.0 / 4.0, 1.0 / 4.0)],
      [ClaimantState("1", 1.0 / 2.0, 0.0, 1.0 / 4.0)], 3), Distribution(1.0 / 6.0, 3, 1, 1.0 / 12.0, 1.0 / 24.0))
      == Attempt(DisputeState(0.0,
        [ClaimantState("2", 1.0 / 3.0, 0.0, 7.0 / 24.0), ClaimantState("3", 1.0 / 4.0, 1.0 / 12.0, 7.0 / 24.0)],
        [ClaimantState("1", 1.0 / 2.0, 0.0, 5.0 / 12.0)], 3), Pass)
  {
    var b1 := ClaimantState("1", 1.0 / 2.0, 0.0, 1.0 / 4.0);
    var b2 := ClaimantState("2", 1.0 / 3.0, 1.0 / 6.0, 1.0 / 4.0);
    var b3 := ClaimantState("3", 1.0 / 4.0, 1.0 / 4.0, 1.0 / 4.0);
    var e2 := b2.(concession := 0.0);
    var e3 := b3.(concession := 1.0 / 12.0);
    assert Sub(1.0 / 6.0, 1.0 / 6.0) == Ok(0.0);
    assert Sub(1.0 / 4.0, 1.0 / 6.0) == Ok(1.0 / 12.0);
    WalkTwo(b2, b3, ConcedeOp(1.0 / 6.0));
    assert Add(1.0 / 4.0, 1.0 / 12.0) == Ok(1.0 / 3.0);
    WalkOne(b1, CollectOp(1.0 / 12.0));
    assert Add(1.0 / 4.0, 1.0 / 24.0) == Ok(7.0 / 24.0);
    WalkTwo(e2, e3, CollectOp(1.0 / 24.0));
    assert Mul(1.0 / 24.0, 2.0) == Ok(1.0 / 12.0);
    assert Add(1.0 / 3.0, 1.0 / 12.0) == Ok(5.0 / 12.0);
    WalkOne(b1.(collected := 1.0 / 3.0), CollectOp(1.0 / 12.0));
  }

  /** Second round, the concession 1/6 of claimant "2": the last 1/4 of the Talit is handed
      out and claimant "2" becomes full. */
  lemma ThreeClaimsSecondRound()
    ensures HandleDistributionOf(DisputeState(1.0 / 4.0,
      [ClaimantState("2", 1.0 / 3.0, 1.0 / 6.0, 1.0 / 4.0), ClaimantState("3", 1.0 / 4.0, 1.0 / 4.0, 1.0 / 4.0)],
      [ClaimantState("1", 1.0 / 2.0, 0.0, 1.0 / 4.0)], 3), 1.0 / 6.0)
      == Attempt(DisputeState(0.0,
        [ClaimantState("3", 1.0 / 4.0, 1.0 / 12.0, 7.0 / 24.0)],
        [ClaimantState("1", 1.0 / 2.0, 0.0, 5.0 / 12.0), ClaimantState("2", 1.0 / 3.0, 0.0, 7.0 / 24.0)], 3), Pass)
  {
    assert NewDistribution(1.0 / 6.0, 3, 1) == Ok(Distribution(1.0 / 6.0, 3, 1, 1.0 / 12.0, 1.0 / 24.0));
    assert Mul(1.0 / 12.0, 3.0) == Ok(1.0 / 4.0);
    assert Allocation(1.0 / 4.0, 1.0 / 4.0) == Ok(0.0);
    ThreeClaimsSecondHandOut();
    var c1 := ClaimantState("1", 1.0 / 2.0, 0.0, 5.0 / 12.0);
    var c2 := ClaimantState("2", 1.0 / 3.0, 0.0, 7.0 / 24.0);
    var c3 := ClaimantState("3", 1.0 / 4.0, 1.0 / 12.0, 7.0 / 24.0);
    PartitionTwo(c2, c3);
    assert Partials([c2, c3]) == [] + [c3] == [c3];
    assert Fulls([c2, c3]) == [c2] + [] == [c2];
    assert [c1] + [c2] == [c1, c2];
  }

  /** Third round, the concession 1/12 of claimant "3": it would take 1/8 from a Talit that is
      already used up, so `allocate` raises. */
  lemma ThreeClaimsThirdRound()
    ensures HandleDistributionOf(DisputeState(0.0,
      [ClaimantState("3", 1.0 / 4.0, 1.0 / 12.0, 7.0 / 24.0)],
      [ClaimantState("1", 1.0 / 2.0, 0.0, 5.0 / 12.0), ClaimantState("2", 1.0 / 3.0, 0.0, 7.0 / 24.0)], 3), 1.0 / 12.0)
      .outcome == Fail(FractionOperationError(AllocateMoreThanRemainder))
  {
    assert NewDistribution(1.0 / 12.0, 3, 2) == Ok(Distribution(1.0 / 12.0, 3, 2, 1.0 / 24.0, 1.0 / 72.0));
    assert Mul(1.0 / 24.0, 3.0) == Ok(1.0 / 8.0);
  }

  /** Claims 1/2, 1/3 and 1/4 do not resolve in the object version: the whole Talit is handed
      out in two rounds while claimant "3" is still partial, and the third round raises with
      the claimants holding 5/12, 7/24 and 7/24. (The value-only resolver instead lets the
      remainder go negative, to -1/8, and ends with 31/72, 11/36 and 19/72.) */
  lemma ThreeClaimsRaise()
    ensures ApplyPrinciplesOf(InitialDisputeState([1.0 / 2.0, 1.0 / 3.0, 1.0 / 4.0])) == Attempt(DisputeState(0.0,
      [ClaimantState("3", 1.0 / 4.0, 1.0 / 12.0, 7.0 / 24.0)],
      [ClaimantState("1", 1.0 / 2.0, 0.0, 5.0 / 12.0), ClaimantState("2", 1.0 / 3.0, 0.0, 7.0 / 24.0)], 3),
      Fail(FractionOperationError(AllocateMoreThanRemainder)))
  {
    ThreeClaimsStart();
    ThreeClaimsFirstRound();
    ThreeClaimsSecondRound();
    ThreeClaimsThirdRound();
  }
}
