/** ClaimantManager: builds the claimants from the claims, runs one call on every claimant of a
    list, and splits a list into the claimants still conceding something (partial) and those
    whose concession is used up (full). The factory it is given is always the TalitClaimant
    constructor, so that is what it calls here. */
module ClaimantManager {
  import opened Errors
  import opened DisputeFractions
  import opened TalitClaimants
  import opened Sequences
  import opened Decimal

  /** The fields of every claimant of a list, in list order. */
  function States(cs: seq<TalitClaimant>): (s: seq<ClaimantState>)
    reads cs
    ensures |s| == |cs|
    ensures forall i :: 0 <= i < |cs| ==> s[i] == cs[i].State()
  {
    seq(|cs|, i reads cs requires 0 <= i < |cs| => cs[i].State())
  }

  /** Total collected by the claimants of a list. */
  function TotalCollected(s: seq<ClaimantState>): real {
    if s == [] then 0.0 else s[0].collected + TotalCollected(s[1..])
  }

  lemma {:induction false} TotalCollectedAppend(a: seq<ClaimantState>, b: seq<ClaimantState>)
    ensures TotalCollected(a + b) == TotalCollected(a) + TotalCollected(b)
  {
    if a == [] {
      assert a + b == b;
    } else {
      assert (a + b)[0] == a[0];
      assert (a + b)[1..] == a[1..] + b;
      TotalCollectedAppend(a[1..], b);
    }
  }

  // ---- one call on every claimant of a list ----

  /** `op` called on each claimant in turn; the first raise stops the walk, leaving the
      claimants before it updated and the rest as they were. */
  function ApplyToAll(s: seq<ClaimantState>, op: Op): (r: Attempt<seq<ClaimantState>>)
    ensures |r.state| == |s|
  {
    if s == [] then Attempt([], Pass)
    else
      match Apply(s[0], op)
      case Err(e) => Attempt(s, Fail(e))
      case Ok(c) =>
        var rest := ApplyToAll(s[1..], op);
        Attempt([c] + rest.state, rest.outcome)
  }

  /** How many claimants, from the front, accept `op` before the first one that raises. */
  function Accepted(s: seq<ClaimantState>, op: Op): (k: nat)
    ensures k <= |s|
    ensures forall i :: 0 <= i < k ==> Apply(s[i], op).Ok?
    ensures k < |s| ==> Apply(s[k], op).Err?
  {
    if s == [] || Apply(s[0], op).Err? then 0 else 1 + Accepted(s[1..], op)
  }

  /** A claimant after `op`: updated when the call completes, untouched when it raises. */
  function Applied(c: ClaimantState, op: Op): ClaimantState {
    StateAfter(c, Apply(c, op))
  }

  /** The list with its first `i` claimants put through `op` and the rest untouched. */
  function Updated(s: seq<ClaimantState>, op: Op, i: nat): (r: seq<ClaimantState>)
    requires i <= |s|
    ensures |r| == |s|
    ensures forall k :: 0 <= k < |s| ==> r[k] == if k < i then Applied(s[k], op) else s[k]
  {
    seq(|s|, k requires 0 <= k < |s| => if k < i then Applied(s[k], op) else s[k])
  }

  /** The bulk calls are not atomic: the claimants before the first raise are updated, the
      raising one and all after it are untouched, and the raise is what the walk reports. */
  lemma {:induction false} ApplyToAllPrefix(s: seq<ClaimantState>, op: Op)
    ensures ApplyToAll(s, op).state == Updated(s, op, Accepted(s, op))
    ensures ApplyToAll(s, op).outcome ==
      if Accepted(s, op) == |s| then Pass else Fail(Apply(s[Accepted(s, op)], op).error)
  {
    var k := Accepted(s, op);
    var r := ApplyToAll(s, op);
    if s != [] && Apply(s[0], op).Ok? {
      ApplyToAllPrefix(s[1..], op);
      var rest := ApplyToAll(s[1..], op);
      assert k == 1 + Accepted(s[1..], op);
      assert r == Attempt([Apply(s[0], op).value] + rest.state, rest.outcome);
      forall j | 0 <= j < |s|
        ensures r.state[j] == Updated(s, op, k)[j]
      {
        if j > 0 {
          assert s[1..][j - 1] == s[j];
          assert r.state[j] == rest.state[j - 1];
        }
      }
      if k < |s| {
        assert s[1..][k - 1] == s[k];
      }
    } else {
      assert k == 0;
      assert r.state == s;
      forall j | 0 <= j < |s|
        ensures r.state[j] == Updated(s, op, k)[j]
      {
      }
    }
  }

  /** `op` succeeds on the whole list exactly when it succeeds on every claimant, and then
      each claimant is updated as `op` alone would update it. */
  lemma ApplyToAllPass(s: seq<ClaimantState>, op: Op)
    ensures ApplyToAll(s, op).outcome == Pass <==> forall i :: 0 <= i < |s| ==> Apply(s[i], op).Ok?
    ensures ApplyToAll(s, op).outcome == Pass ==>
      forall i :: 0 <= i < |s| ==> ApplyToAll(s, op).state[i] == Apply(s[i], op).value
  {
    ApplyToAllPrefix(s, op);
  }

  /** One claimant of a completed walk. */
  lemma ApplyToAllPassAt(s: seq<ClaimantState>, op: Op, i: nat)
    requires ApplyToAll(s, op).outcome == Pass && i < |s|
    ensures Apply(s[i], op).Ok? && ApplyToAll(s, op).state[i] == Apply(s[i], op).value
  {
    ApplyToAllPass(s, op);
  }

  /** A completed collect walk adds the amount once per claimant to the total collected. */
  lemma {:induction false} CollectAllTotal(s: seq<ClaimantState>, amount: Unit)
    requires ApplyToAll(s, CollectOp(amount)).outcome == Pass
    ensures TotalCollected(ApplyToAll(s, CollectOp(amount)).state) == TotalCollected(s) + Times(|s|, amount)
  {
    if s != [] {
      CollectAllTotal(s[1..], amount);
    }
  }

  /** A collect walk only ever stops on a collect error: a claim exceeded or a sum out of range. */
  lemma {:induction false} CollectAllErrors(s: seq<ClaimantState>, amount: Unit)
    ensures var o := ApplyToAll(s, CollectOp(amount)).outcome;
      o.Fail? ==> o.error == FractionOperationError(CollectMoreThanClaim) || o.error == FractionRangeError
  {
    if s != [] && Apply(s[0], CollectOp(amount)).Ok? {
      CollectAllErrors(s[1..], amount);
    }
  }

  /** A completed concede walk lowers every concession by the amount and changes nothing else. */
  lemma {:induction false} ConcedeAllEffect(s: seq<ClaimantState>, amount: Unit)
    requires ApplyToAll(s, ConcedeOp(amount)).outcome == Pass
    ensures forall i :: 0 <= i < |s| ==>
      var c := ApplyToAll(s, ConcedeOp(amount)).state[i];
      c.identifier == s[i].identifier && c.claim == s[i].claim &&
      c.concession == s[i].concession - amount && c.collected == s[i].collected
    ensures TotalCollected(ApplyToAll(s, ConcedeOp(amount)).state) == TotalCollected(s)
  {
    ApplyToAllPass(s, ConcedeOp(amount));
    if s != [] {
      ConcedeAllEffect(s[1..], amount);
    }
  }

  /** A walk that stopped at claimant `i`, seen from outside: the claimants before `i` were
      updated, the others were not, and the walk reports the raise of claimant `i`. */
  lemma WalkResult(s: seq<ClaimantState>, now: seq<ClaimantState>, op: Op, i: nat)
    requires i <= |s| == |now|
    requires forall k :: 0 <= k < i ==> Apply(s[k], op).Ok? && now[k] == Applied(s[k], op)
    requires forall k :: i <= k < |s| ==> now[k] == s[k]
    requires i < |s| ==> Apply(s[i], op).Err?
    ensures ApplyToAll(s, op).state == now
    ensures ApplyToAll(s, op).outcome == if i == |s| then Pass else Fail(Apply(s[i], op).error)
  {
    ApplyToAllPrefix(s, op);
    assert Accepted(s, op) == i;
    assert now == Updated(s, op, i);
  }

  /** One call on one claimant. */
  method CallOn(c: TalitClaimant, op: Op) returns (outcome: Outcome)
    modifies c
    ensures outcome == OutcomeOf(Apply(old(c.State()), op))
    ensures c.State() == Applied(old(c.State()), op)
  {
    match op {
      case CollectOp(a) =>
        outcome := c.Collect(a);
      case ConcedeOp(a) =>
        outcome := c.Concede(a);
    }
  }

  /** One call on each claimant of the list, in order, stopping at the first raise. */
  method CallOnEach(claimants: seq<TalitClaimant>, op: Op) returns (outcome: Outcome)
    requires Distinct(claimants)
    modifies claimants
    ensures outcome == ApplyToAll(old(States(claimants)), op).outcome
    ensures States(claimants) == ApplyToAll(old(States(claimants)), op).state
  {
    ghost var s0 := States(claimants);
    var i := 0;
    while i < |claimants|
      invariant 0 <= i <= |claimants|
      invariant forall k :: 0 <= k < i ==> Apply(s0[k], op).Ok? && claimants[k].State() == Applied(s0[k], op)
      invariant forall k :: i <= k < |claimants| ==> claimants[k].State() == s0[k]
    {
      ghost var before := States(claimants);
      var o := CallOn(claimants[i], op);
      forall k | 0 <= k < |claimants| && k != i
        ensures claimants[k].State() == before[k]
      {
        assert claimants[k] != claimants[i];
      }
      if o.Fail? {
        WalkResult(s0, States(claimants), op, i);
        return o;
      }
      i := i + 1;
    }
    WalkResult(s0, States(claimants), op, i);
    outcome := Pass;
  }

  /** `distribute_to_claimants`: every listed claimant collects `amount`, in order. */
  method DistributeToClaimants(amount: Unit, claimants: seq<TalitClaimant>) returns (outcome: Outcome)
    requires Distinct(claimants)
    modifies claimants
    ensures outcome == ApplyToAll(old(States(claimants)), CollectOp(amount)).outcome
    ensures States(claimants) == ApplyToAll(old(States(claimants)), CollectOp(amount)).state
  {
    outcome := CallOnEach(claimants, CollectOp(amount));
  }

  /** `concede_from_claimants`: every listed claimant concedes `amount`, in order. */
  method ConcedeFromClaimants(amount: Unit, claimants: seq<TalitClaimant>) returns (outcome: Outcome)
    requires Distinct(claimants)
    modifies claimants
    ensures outcome == ApplyToAll(old(States(claimants)), ConcedeOp(amount)).outcome
    ensures States(claimants) == ApplyToAll(old(States(claimants)), ConcedeOp(amount)).state
  {
    outcome := CallOnEach(claimants, ConcedeOp(amount));
  }

  // ---- creating the claimants ----

  /** The claimants `create_claimants` builds: one per claim, in the order given, numbered
      "1", "2", ... from the first. */
  function InitialStates(claims: seq<Unit>): (s: seq<ClaimantState>)
    ensures |s| == |claims|
    ensures forall i :: 0 <= i < |claims| ==>
      s[i].identifier == NatToString(i + 1) && s[i].claim == claims[i] &&
      s[i].concession == 1.0 - claims[i] && s[i].collected == 0.0
  {
    seq(|claims|, i requires 0 <= i < |claims| => NewClaimantState(NatToString(i + 1), claims[i]))
  }

  /** No two created claimants share an identifier. */
  lemma InitialIdentifiersDistinct(claims: seq<Unit>, i: nat, j: nat)
    requires i < j < |claims|
    ensures InitialStates(claims)[i].identifier != InitialStates(claims)[j].identifier
  {
    NatToStringInjective(i + 1, j + 1);
  }

  /** `create_claimants`: one fresh TalitClaimant per claim. */
  method CreateClaimants(claims: seq<Unit>) returns (cs: seq<TalitClaimant>)
    ensures Distinct(cs)
    ensures forall i :: 0 <= i < |cs| ==> fresh(cs[i])
    ensures States(cs) == InitialStates(claims)
  {
    cs := [];
    var i := 0;
    while i < |claims|
      invariant 0 <= i <= |claims| && |cs| == i
      invariant Distinct(cs)
      invariant forall k :: 0 <= k < i ==> fresh(cs[k])
      invariant States(cs) == InitialStates(claims)[..i]
    {
      var c := new TalitClaimant(NatToString(i + 1), claims[i]);
      cs := cs + [c];
      i := i + 1;
    }
  }

  // ---- partial and full claimants ----

  /** The claimants still conceding something, in their original order. */
  function Partials(s: seq<ClaimantState>): seq<ClaimantState> {
    if s == [] then []
    else if s[0].concession != 0.0 then [s[0]] + Partials(s[1..])
    else Partials(s[1..])
  }

  /** The claimants whose concession is used up, in their original order. */
  function Fulls(s: seq<ClaimantState>): seq<ClaimantState> {
    if s == [] then []
    else if s[0].concession != 0.0 then Fulls(s[1..])
    else [s[0]] + Fulls(s[1..])
  }

  /** Each claimant lands in exactly one of the two lists, by its concession, and the split
      loses nothing of what was collected. */
  lemma PartitionSpec(s: seq<ClaimantState>)
    ensures multiset(Partials(s)) + multiset(Fulls(s)) == multiset(s)
    ensures |Partials(s)| + |Fulls(s)| == |s|
    ensures forall c :: c in Partials(s) ==> c.concession != 0.0
    ensures forall c :: c in Fulls(s) ==> c.concession == 0.0
    ensures TotalCollected(Partials(s)) + TotalCollected(Fulls(s)) == TotalCollected(s)
  {
    PartitionCounts(s);
    PartitionKinds(s);
    PartitionTotals(s);
  }

  lemma {:induction false} PartitionCounts(s: seq<ClaimantState>)
    ensures multiset(Partials(s)) + multiset(Fulls(s)) == multiset(s)
    ensures |Partials(s)| + |Fulls(s)| == |s|
  {
    if s != [] {
      PartitionCounts(s[1..]);
      assert s == [s[0]] + s[1..];
    }
  }

  lemma {:induction false} PartitionKinds(s: seq<ClaimantState>)
    ensures forall c :: c in Partials(s) ==> c.concession != 0.0
    ensures forall c :: c in Fulls(s) ==> c.concession == 0.0
  {
    if s != [] {
      PartitionKinds(s[1..]);
    }
  }

  lemma {:induction false} PartitionTotals(s: seq<ClaimantState>)
    ensures TotalCollected(Partials(s)) + TotalCollected(Fulls(s)) == TotalCollected(s)
  {
    if s != [] {
      PartitionTotals(s[1..]);
    }
  }

  /** The split keeps relative order: a list ordered by claim, largest first, stays so. */
  lemma {:induction false} PartialsKeepOrder(s: seq<ClaimantState>)
    requires forall i, j :: 0 <= i < j < |s| ==> s[i].claim >= s[j].claim
    ensures forall i, j :: 0 <= i < j < |Partials(s)| ==> Partials(s)[i].claim >= Partials(s)[j].claim
  {
    if s != [] {
      PartialsKeepOrder(s[1..]);
      PartialsAreFrom(s[1..]);
      var p := Partials(s);
      if s[0].concession != 0.0 {
        forall i, j | 0 <= i < j < |p|
          ensures p[i].claim >= p[j].claim
        {
          assert p[j] == Partials(s[1..])[j - 1];
          if i == 0 {
            assert p[j] in s[1..];
          } else {
            assert p[i] == Partials(s[1..])[i - 1];
          }
        }
      }
    }
  }

  /** Every claimant in the partial list comes from the input list. */
  lemma {:induction false} PartialsAreFrom(s: seq<ClaimantState>)
    ensures forall c :: c in Partials(s) ==> c in s
  {
    if s != [] {
      PartialsAreFrom(s[1..]);
    }
  }

  /** How the fields of a list's claimants split at its head. */
  lemma StatesCons(cs: seq<TalitClaimant>)
    requires cs != []
    ensures States(cs) == [cs[0].State()] + States(cs[1..])
  {
    assert States(cs)[1..] == States(cs[1..]);
  }

  /** Claimant objects that a call left alone hold the states they held before it. */
  twostate lemma StatesUnchanged(cs: seq<TalitClaimant>)
    requires forall c :: c in cs ==> unchanged(c)
    ensures States(cs) == old(States(cs))
  {
    forall i | 0 <= i < |cs|
      ensures States(cs)[i] == old(States(cs))[i]
    {
      assert cs[i] in cs;
    }
  }

  lemma StatesAppend(a: seq<TalitClaimant>, b: seq<TalitClaimant>)
    ensures States(a + b) == States(a) + States(b)
  {
    forall i | 0 <= i < |a + b|
      ensures States(a + b)[i] == (States(a) + States(b))[i]
    {
      if i >= |a| {
        assert (a + b)[i] == b[i - |a|];
      }
    }
  }

  /** The claimant objects that still concede something, in order. */
  function PartialClaimants(cs: seq<TalitClaimant>): (r: seq<TalitClaimant>)
    reads cs
    ensures forall c :: c in r ==> c in cs
    ensures States(r) == Partials(States(cs))
  {
    if cs == [] then []
    else
      var rest := PartialClaimants(cs[1..]);
      StatesCons(cs);
      if cs[0].concession != 0.0 then
        StatesCons([cs[0]] + rest);
        assert ([cs[0]] + rest)[1..] == rest;
        [cs[0]] + rest
      else rest
  }

  /** The claimant objects whose concession is used up, in order. */
  function FullClaimants(cs: seq<TalitClaimant>): (r: seq<TalitClaimant>)
    reads cs
    ensures forall c :: c in r ==> c in cs
    ensures States(r) == Fulls(States(cs))
  {
    if cs == [] then []
    else
      var rest := FullClaimants(cs[1..]);
      StatesCons(cs);
      if cs[0].concession != 0.0 then rest
      else
        StatesCons([cs[0]] + rest);
        assert ([cs[0]] + rest)[1..] == rest;
        [cs[0]] + rest
  }

  /** The two object lists hold every claimant of the input exactly as often as it occurs there. */
  lemma {:induction false} ClaimantsPartitioned(cs: seq<TalitClaimant>)
    ensures multiset(PartialClaimants(cs)) + multiset(FullClaimants(cs)) == multiset(cs)
  {
    if cs != [] {
      ClaimantsPartitioned(cs[1..]);
      assert cs == [cs[0]] + cs[1..];
    }
  }

  /** `update_partial_claimants`: the same claimant objects, split into (partial, full); no
      claimant is changed. */
  function UpdatePartialClaimants(cs: seq<TalitClaimant>): (r: (seq<TalitClaimant>, seq<TalitClaimant>))
    reads cs
    ensures multiset(r.0) + multiset(r.1) == multiset(cs)
    ensures States(r.0) == Partials(States(cs)) && States(r.1) == Fulls(States(cs))
  {
    ClaimantsPartitioned(cs);
    (PartialClaimants(cs), FullClaimants(cs))
  }
}
