# Talmudic dispute resolver, modelled in Dafny

The repository divides one disputed resource (a garment, the *talit*) among claimants whose
claims, fractions of the whole between 0 and 1, may add up to more than the whole. Each
claimant concedes `1 - claim`. The conceded parts are settled from the smallest concession
upward, round by round:

- each round's concession is shared among the other claimants;
- a claimant still partial (conceding something) shares its portion with the claimants
  already full;
- once nobody is partial, whatever is left is split evenly.

The repository implements this rule three times, and this project models all three.

- **Python, object version** (`talmudic_dispute_resolver_python`).
  - `DisputeFraction` is an exact rational that must stay within [0, 1].
  - `TalitClaimant` has guarded `collect` and `concede`.
  - `Talit` has a guarded `allocate`.
  - `ClaimantManager` runs bulk calls and partitions the claimants.
  - `Distribution` and `Dispute` run one round.
  - `resolution.py` has the driver loop.

  Modules: `DisputeFractions`, `TalitClaimants`, `Talits`, `ClaimantManager`, `Disputes`,
  `Resolution`, plus `Errors` (the exceptions as values) and `Decimal` (Python's `str` on
  naturals).

  Python's `Fraction` is exact, so a rational is a Dafny `real` and a `DisputeFraction` is the
  subset type `Unit` (`0.0 <= r <= 1.0`). Exceptions become `Result`/`Outcome` values. The
  objects whose fields the source updates in place are classes:
  - `TalitClaimant`;
  - `Talit`;
  - `Dispute`, whose partial and full lists are `seq` fields it reassigns.

  Each class has a value-level twin (`ClaimantState`, `DisputeState`). Its methods are proved
  to leave `State()` equal to a function of the old state, and the lemmas about the rounds are
  proved on those functions.

  Two runs are worked through to the end. The `Classic` example (claims 1 and 1/2) resolves
  in one round, giving 3/4 and 1/4. Claims 1/2, 1/3 and 1/4 do not resolve: the Talit is used
  up after two rounds while one claimant is still partial, and the third round's `allocate`
  raises. On the same claims the single-function version lets its remainder go negative
  instead.

- **Python, single-function version** (`core_algorithm_python/dispute_resolver.py`), in module
  `DisputeResolver`. The method `DistributeBasedOnConcessions` keeps the source's `for` loop.
  It is proved equal to the closed form `Resolve`, and the properties are lemmas about
  `Resolve`.

- **C version** (`talmudic_dispute_resolver_c`).
  - `CIntegers`: C's truncating `/` and `%`.
  - `CFractions`: `fraction.c`, with fractions as `{numerator, denominator, isValid}` and the
    value `Val(f) = numerator / denominator`.
  - `CClaimants`, `CDistributions`: `claimant.c` and `distribution.c`.
  - `CDisputes`: `dispute.c`, with a `Dispute` class over a claimant `array`.
  - `CMain`: `applyTalmudicPrincipal`.

  Integers are unbounded. Division and remainder follow C and truncate toward zero, so
  Euclid's algorithm can return a negative gcd. `simplify` then moves the sign of a negative
  value into the denominator: `createFraction(-1, 8)` is `1/-8`.

  The dispute invariant `CDisputes.Valid` says:
  - every concession is a fraction from 0 to 1 over a positive denominator;
  - a claimant is partial exactly when its concession is positive;
  - `partialsCount` counts the partial claimants;
  - a lone claimant is never left partial.

  Under this invariant every round keeps `remainder + Σ collects`, and the driver ends with a
  remainder whose numerator is not positive.

## Model

| member | source | states |
|---|---|---|
| DisputeFractions.Validate | talmudic_dispute_resolver_python/src/models/dispute_fraction.py:40-42 | succeeds exactly when the value lies in [0, 1], returning it unchanged; otherwise FractionRangeError |
| DisputeFractions.FromRatio | talmudic_dispute_resolver_python/src/models/dispute_fraction.py:32-42 | a zero denominator raises ZeroDivisionError; otherwise the result is n/d when it lies in [0, 1] and FractionRangeError when not |
| DisputeFractions.Add | talmudic_dispute_resolver_python/src/models/dispute_fraction.py:45-53 | the exact sum when it lies in [0, 1], otherwise FractionRangeError |
| DisputeFractions.Sub | talmudic_dispute_resolver_python/src/models/dispute_fraction.py:55-56 | the exact difference self - other when it lies in [0, 1], otherwise FractionRangeError |
| DisputeFractions.Mul | talmudic_dispute_resolver_python/src/models/dispute_fraction.py:58-59 | the exact product when it lies in [0, 1], otherwise FractionRangeError |
| DisputeFractions.TrueDiv | talmudic_dispute_resolver_python/src/models/dispute_fraction.py:61-64 | a zero divisor raises ZeroDivisionError before anything is computed; otherwise the exact quotient, range-checked |
| DisputeFractions.RAdd | talmudic_dispute_resolver_python/src/models/dispute_fraction.py:67-68 | other + self, range-checked |
| DisputeFractions.RSub | talmudic_dispute_resolver_python/src/models/dispute_fraction.py:70-71 | other - self (the reflected order), range-checked |
| DisputeFractions.RMul | talmudic_dispute_resolver_python/src/models/dispute_fraction.py:73-74 | other * self, range-checked |
| DisputeFractions.RTrueDiv | talmudic_dispute_resolver_python/src/models/dispute_fraction.py:76-79 | a zero self raises ZeroDivisionError; otherwise other / self, range-checked |
| DisputeFractions.ValidateClaim | talmudic_dispute_resolver_python/src/models/dispute_fraction.py:88-109 | a DisputeFraction comes back unchanged; a plain Fraction comes back with the same value or raises FractionRangeError; an out-of-range int surfaces as TypeError, because the range error is a ValueError |
| DisputeFractions.ValidateClaimIdempotent | talmudic_dispute_resolver_python/src/models/dispute_fraction.py:107-108 | validating an already validated claim gives the same result |
| DisputeFractions.OperatorExamples | talmudic_dispute_resolver_python/tests/test_dispute_fraction.py:11-67 | the unit-test expectations: 1/4+1/4=1/2, 3/4-1/4=1/2, 1/2·1/2=1/4, (1/2)/(1/2)=1, the reflected forms with 0.5 on the left (0.5/(1/4) raises a range error), division by zero, 1/2+3/4 raising |
| TalitClaimants.NewClaimantState | talmudic_dispute_resolver_python/src/models/talit_claimant.py:55-60 | a new claimant keeps its identifier and claim, concedes 1 - claim and has collected 0 |
| TalitClaimants.CollectStep | talmudic_dispute_resolver_python/src/models/talit_claimant.py:63-79 | an amount above the claim (not claim - collected) raises FractionOperationError and changes nothing; otherwise collected grows by exactly the amount, or FractionRangeError when it would pass 1 |
| TalitClaimants.ConcedeStep | talmudic_dispute_resolver_python/src/models/talit_claimant.py:82-98 | succeeds exactly when the amount is at most the concession, lowering it by exactly the amount; otherwise FractionOperationError and no change |
| TalitClaimants.ApplyAllAccounts | talmudic_dispute_resolver_python/src/models/talit_claimant.py:63-98 | across any run of successful calls, collected is the start plus everything collected and concession the start minus everything conceded; collected never falls and concession never rises |
| TalitClaimants.TalitClaimant.constructor | talmudic_dispute_resolver_python/src/models/talit_claimant.py:50-60 | the object's fields are those of NewClaimantState |
| TalitClaimants.TalitClaimant.Collect | talmudic_dispute_resolver_python/src/models/talit_claimant.py:63-80 | changes only `collected`, exactly as CollectStep says, and reports whether it raised |
| TalitClaimants.TalitClaimant.Concede | talmudic_dispute_resolver_python/src/models/talit_claimant.py:82-104 | changes only `concession`, exactly as ConcedeStep says, and reports whether it raised |
| Talits.Allocation | talmudic_dispute_resolver_python/src/models/talit.py:46-65 | an amount above the remainder raises FractionOperationError; otherwise the remainder falls by exactly the amount and never rises |
| Talits.AllocateRemainderEmpties | talmudic_dispute_resolver_python/src/models/talit.py:57-65 | allocating the whole remainder leaves exactly 0 |
| Talits.AllocateQuarterExample | talmudic_dispute_resolver_python/src/models/talit.py:39-43 | the docstring example: a fresh Talit allocating 1/4 keeps 3/4 |
| Talits.Talit.constructor | talmudic_dispute_resolver_python/src/base/disputed_resource.py:39 | a new Talit has remainder 1 |
| Talits.Talit.Allocate | talmudic_dispute_resolver_python/src/models/talit.py:46-65 | the remainder changes exactly as Allocation says; a raise leaves it unchanged |
| ClaimantManager.InitialStates | talmudic_dispute_resolver_python/src/controllers/claimant_manager.py:36-39 | one claimant per claim, in input order, identified "1".."n", holding its claim, conceding 1 - claim, with nothing collected |
| ClaimantManager.InitialIdentifiersDistinct | talmudic_dispute_resolver_python/src/controllers/claimant_manager.py:36-39 | no two created claimants share an identifier |
| Decimal.NatToString | talmudic_dispute_resolver_python/src/controllers/claimant_manager.py:38 | `str(i + 1)` on a natural: a non-empty string of decimal digits |
| Decimal.ParseNatToString | talmudic_dispute_resolver_python/src/controllers/claimant_manager.py:38 | reading the digits back gives the number, so the identifier names its position |
| Decimal.NatToStringInjective | talmudic_dispute_resolver_python/src/controllers/claimant_manager.py:38 | different numbers give different strings |
| ClaimantManager.CreateClaimants | talmudic_dispute_resolver_python/src/controllers/claimant_manager.py:36-39 | creates distinct fresh TalitClaimant objects whose states are InitialStates(claims) |
| ClaimantManager.ApplyToAll | talmudic_dispute_resolver_python/src/controllers/claimant_manager.py:41-53 | the bulk call on states: it keeps the list length; its meaning is stated by ApplyToAllPrefix and ApplyToAllPass |
| ClaimantManager.ApplyToAllPrefix | talmudic_dispute_resolver_python/src/controllers/claimant_manager.py:41-53 | a bulk call is not atomic: the claimants before the first failing one are updated, that one and the rest are untouched, and the outcome is that claimant's error |
| ClaimantManager.ApplyToAllPass | talmudic_dispute_resolver_python/src/controllers/claimant_manager.py:41-53 | a bulk call completes exactly when every claimant accepts the call, and then each claimant holds the result of its own call |
| ClaimantManager.CollectAllTotal | talmudic_dispute_resolver_python/src/controllers/claimant_manager.py:41-46 | a completed `distribute_to_claimants` raises the total collected by the amount once per claimant |
| ClaimantManager.CollectAllErrors | talmudic_dispute_resolver_python/src/controllers/claimant_manager.py:41-46 | a failed `distribute_to_claimants` raised either the collect-more-than-claim error or a range error |
| ClaimantManager.ConcedeAllEffect | talmudic_dispute_resolver_python/src/controllers/claimant_manager.py:48-53 | a completed `concede_from_claimants` lowers every listed claimant's concession by the amount and changes nothing else |
| ClaimantManager.CallOn | talmudic_dispute_resolver_python/src/controllers/claimant_manager.py:45 | one call on one claimant object: its state and outcome are those of the single collect or concede |
| ClaimantManager.CallOnEach | talmudic_dispute_resolver_python/src/controllers/claimant_manager.py:41-53 | the loop over the list leaves the claimants' states and the outcome exactly as ApplyToAll says |
| ClaimantManager.DistributeToClaimants | talmudic_dispute_resolver_python/src/controllers/claimant_manager.py:41-46 | `collect` on every listed claimant in order, as ApplyToAll with a collect |
| ClaimantManager.ConcedeFromClaimants | talmudic_dispute_resolver_python/src/controllers/claimant_manager.py:48-53 | `concede` on every listed claimant in order, as ApplyToAll with a concede |
| ClaimantManager.PartitionSpec | talmudic_dispute_resolver_python/src/controllers/claimant_manager.py:55-62 | every claimant lands in exactly one of the two lists (as multisets), partials have a non-zero concession, fulls a zero one, and the totals collected add up |
| ClaimantManager.PartitionCounts | talmudic_dispute_resolver_python/src/controllers/claimant_manager.py:55-62 | the two lists together are the input as a multiset, and their lengths add up |
| ClaimantManager.PartitionKinds | talmudic_dispute_resolver_python/src/controllers/claimant_manager.py:55-62 | partials have a non-zero concession, fulls a zero one |
| ClaimantManager.PartitionTotals | talmudic_dispute_resolver_python/src/controllers/claimant_manager.py:55-62 | the totals collected by the two lists add up to the whole |
| ClaimantManager.PartialClaimants | talmudic_dispute_resolver_python/src/controllers/claimant_manager.py:56-58 | the objects with a non-zero concession, drawn from the input, whose states are the Partials of the input states |
| ClaimantManager.FullClaimants | talmudic_dispute_resolver_python/src/controllers/claimant_manager.py:59-61 | the objects with a zero concession, drawn from the input, whose states are the Fulls of the input states |
| ClaimantManager.PartialsKeepOrder | talmudic_dispute_resolver_python/src/controllers/claimant_manager.py:56-58 | filtering keeps a claim-descending order |
| ClaimantManager.UpdatePartialClaimants | talmudic_dispute_resolver_python/src/controllers/claimant_manager.py:55-62 | returns the non-zero-concession and zero-concession claimants, in their relative order, together exactly the input objects |
| ClaimantManager.ClaimantsPartitioned | talmudic_dispute_resolver_python/src/controllers/claimant_manager.py:55-62 | the two object lists together are the input list as a multiset |
| Disputes.NewDistribution | talmudic_dispute_resolver_python/src/controllers/dispute.py:37-39 | full_share·(count-1) = concession and partial_share·(fulls+1) = full_share; a claimant count of 1 raises ZeroDivisionError; two or more claimants always succeed |
| Disputes.DistributionIdentity | talmudic_dispute_resolver_python/src/controllers/dispute.py:37-39 | fulls·(full_share + partials·partial_share) + partials·partial_share = (partials+fulls)·full_share |
| Disputes.UpdateStatusesOf | talmudic_dispute_resolver_python/src/controllers/dispute.py:103-106 | keeps the union of the two lists and the total, extends the full list at its end only, and leaves only non-zero concessions among the partials |
| Disputes.DistributeConcessionSteps | talmudic_dispute_resolver_python/src/controllers/dispute.py:91-101 | a completed `distribute_concession` is the four bulk calls in source order |
| Disputes.DistributeConcessionOf | talmudic_dispute_resolver_python/src/controllers/dispute.py:91-101 | a round of collects and concedes never touches the remainder or the claimant count and keeps both list lengths |
| Disputes.DistributeConcessionEffect | talmudic_dispute_resolver_python/src/controllers/dispute.py:91-101 | every partial concedes the concession and collects partial_share; every full collects full_share plus partial_share per partial; identifiers and claims stay |
| Disputes.DistributeConcessionTotal | talmudic_dispute_resolver_python/src/controllers/dispute.py:91-101 | the partials' total grows by partial_share each, the fulls' by full_share + partials·partial_share each |
| Disputes.DistributeConcessionAddsUp | talmudic_dispute_resolver_python/src/controllers/dispute.py:91-101 | a round's collections add up to exactly full_share·claimant_count, the amount allocated |
| Disputes.RoundHandsOut | talmudic_dispute_resolver_python/src/controllers/dispute.py:108-111 | what the fulls and partials receive equals the DisputeFraction product full_share·claimant_count |
| Disputes.HandleDistributionSteps | talmudic_dispute_resolver_python/src/controllers/dispute.py:108-112 | a completed round builds the Distribution, allocates before any claimant changes, distributes, then updates the statuses |
| Disputes.HandleDistributionOf | talmudic_dispute_resolver_python/src/controllers/dispute.py:108-112 | a round keeps the claimant count; its effect is stated by the lemmas beside it |
| Disputes.HandleDistributionConserves | talmudic_dispute_resolver_python/src/controllers/dispute.py:108-112 | a completed round keeps remainder + Σ collected and the completeness of the two lists |
| Disputes.RoundShrinksPartials | talmudic_dispute_resolver_python/src/controllers/dispute.py:108-112 | a completed round on the first partial's concession shortens the partial list |
| Disputes.SplitRemainderOf | talmudic_dispute_resolver_python/src/controllers/dispute.py:84-89 | with no claimants it raises ZeroDivisionError before changing anything; otherwise the remainder becomes 0 and the partial list is untouched |
| Disputes.SplitRemainderConserves | talmudic_dispute_resolver_python/src/controllers/dispute.py:84-89 | once nobody is partial, a completed split moves the whole remainder to the full claimants |
| Disputes.DistributeConcessionNeverOverConcedes | talmudic_dispute_resolver_python/src/controllers/dispute.py:91-92 | a concession no larger than any partial's never raises the over-concede error |
| Disputes.HandleDistributionNeverOverConcedes | talmudic_dispute_resolver_python/src/controllers/dispute.py:108-111 | the same for a whole round |
| Disputes.AlignedFirstConcedesLeast | talmudic_dispute_resolver_python/resolution.py:48-49 | in a claim-descending partial list with equal claim + concession, the first partial concedes least |
| Disputes.RoundAligned | talmudic_dispute_resolver_python/src/controllers/dispute.py:108-112 | a completed round on the first partial's concession leaves the partial list aligned (claims descending, claim + concession equal) |
| Disputes.RoundKeepsAlignment | talmudic_dispute_resolver_python/resolution.py:48-50 | a round on the first partial's concession never over-concedes and keeps the partial list aligned |
| Disputes.PartialsKeepAlignment | talmudic_dispute_resolver_python/src/controllers/claimant_manager.py:56-58 | filtering the partials keeps them aligned |
| Disputes.SortedClaims | talmudic_dispute_resolver_python/src/controllers/dispute.py:78 | `sorted(claims, reverse=True)`: descending and a permutation of the claims |
| Disputes.StatusUpdateLists | talmudic_dispute_resolver_python/src/controllers/dispute.py:103-106 | on objects: the new partial and full lists hold exactly the old objects, still distinct, with the fulls extended by the newly full |
| Disputes.Dispute.constructor | talmudic_dispute_resolver_python/src/controllers/dispute.py:65-82 | claimants are created from the claims sorted descending, then partitioned; the state is that of UpdateStatusesOf on the fresh claimants |
| Disputes.Dispute.UpdateClaimantStatuses | talmudic_dispute_resolver_python/src/controllers/dispute.py:103-106 | the state becomes UpdateStatusesOf of the old one, with the same claimant objects |
| Disputes.Dispute.SplitRemainderEqually | talmudic_dispute_resolver_python/src/controllers/dispute.py:84-89 | state and outcome as SplitRemainderOf; the two lists keep the same objects |
| Disputes.Dispute.DistributeConcession | talmudic_dispute_resolver_python/src/controllers/dispute.py:91-101 | state and outcome as DistributeConcessionOf |
| Disputes.Dispute.HandleDistribution | talmudic_dispute_resolver_python/src/controllers/dispute.py:108-112 | state and outcome as HandleDistributionOf, with the same claimant objects |
| Resolution.ApplyPrinciplesUnfold | talmudic_dispute_resolver_python/resolution.py:48-53 | rounds on the first partial's concession while partials remain, stopping at the first raise, then the split |
| Resolution.ApplyPrinciplesOf | talmudic_dispute_resolver_python/resolution.py:48-53 | the rounds and the split keep the claimant count; they end because each completed round shortens the partial list |
| Resolution.ApplyPrinciplesResult | talmudic_dispute_resolver_python/resolution.py:48-53 | never raises the over-concede error; on success nobody is partial, the remainder is 0, all claimants are in the full list and they collected the starting total |
| Resolution.InitialDisputeReady | talmudic_dispute_resolver_python/resolution.py:56-73 | a new dispute has remainder 1, total 1, every claimant in one list, partials aligned and non-zero, fulls claiming 1 |
| Resolution.InitialClaimantsReady | talmudic_dispute_resolver_python/src/controllers/dispute.py:65-82 | the fresh claimants, before the statuses are updated, are ordered by claim and aligned, have collected nothing, and those conceding nothing claim 1 |
| Resolution.CreateDispute | talmudic_dispute_resolver_python/resolution.py:56-73 | builds a fresh Talit and Dispute whose state is InitialDisputeState(claims) |
| Resolution.ApplyTheTalmudicPrinciples | talmudic_dispute_resolver_python/resolution.py:34-53 | the loop leaves the dispute as ApplyPrinciplesOf says, with no claimant object in both lists and the same objects as before between them; on success the partial list is empty and the returned full list holds every claimant object exactly once |
| Resolution.ClassicClaimants | talmudic_dispute_resolver_python/resolution.py:97-104 | claims 1 and 1/2 are already sorted; their claimants are "1", conceding 0, and "2", conceding 1/2 |
| Resolution.ClassicStart | talmudic_dispute_resolver_python/resolution.py:97-104 | the new Classic dispute has claimant "1" full and claimant "2" partial, with the whole Talit left |
| Resolution.ClassicRound | talmudic_dispute_resolver_python/resolution.py:97-105 | its only round uses the Talit up: claimant "1" collects 3/4, claimant "2" collects 1/4, and both are full |
| Resolution.ClassicResolution | talmudic_dispute_resolver_python/resolution.py:97-105 | the Classic example resolves without raising, to 3/4 and 1/4 |
| Resolution.ThreeClaimsSorted | talmudic_dispute_resolver_python/src/controllers/dispute.py:65-82 | claims 1/2, 1/3, 1/4 are already sorted from the largest down |
| Resolution.ThreeClaimsNumbered | talmudic_dispute_resolver_python/src/controllers/dispute.py:65-82 | their claimants are "1", "2", "3", conceding 1/2, 2/3, 3/4 and holding nothing |
| Resolution.ThreeClaimsStart | talmudic_dispute_resolver_python/resolution.py:56-73 | all three start partial, with the whole Talit left |
| Resolution.ThreeClaimsFirstHandOut | talmudic_dispute_resolver_python/src/controllers/dispute.py:91-101 | in the first round each concedes 1/2 and collects 1/4 |
| Resolution.ThreeClaimsFirstRound | talmudic_dispute_resolver_python/src/controllers/dispute.py:108-112 | the first round takes 3/4 from the Talit and makes claimant "1" full |
| Resolution.ThreeClaimsSecondHandOut | talmudic_dispute_resolver_python/src/controllers/dispute.py:91-101 | in the second round "2" and "3" concede 1/6 and collect 1/24, and "1" collects 1/12 twice |
| Resolution.ThreeClaimsSecondRound | talmudic_dispute_resolver_python/src/controllers/dispute.py:108-112 | the second round takes the last 1/4 and makes claimant "2" full |
| Resolution.ThreeClaimsThirdRound | talmudic_dispute_resolver_python/src/models/talit.py:46-60 | the third round asks the empty Talit for 1/8, so `allocate` raises AllocateMoreThanRemainder |
| Resolution.ThreeClaimsRaise | talmudic_dispute_resolver_python/resolution.py:48-53 | claims 1/2, 1/3, 1/4 end in that raise, with claimant "3" still partial and the claimants holding 5/12, 7/24, 7/24 |
| DisputeResolver.DistributeBasedOnConcessions | core_algorithm_python/dispute_resolver.py:17-97 | the loop and the comprehensions compute exactly Resolve(claims) |
| DisputeResolver.ResolveEntries | core_algorithm_python/dispute_resolver.py:58-95 | one entry per claim, claims sorted descending and a permutation of the input; identifiers 1..n in the shortcut branch, 0..n-1 in the dispute branch |
| DisputeResolver.ResolveFails | core_algorithm_python/dispute_resolver.py:61-76 | it raises ZeroDivisionError exactly for a single claim above 1 |
| DisputeResolver.InRangeClaimsResolve | core_algorithm_python/dispute_resolver.py:61-76 | claims in [0, 1] never divide by zero |
| DisputeResolver.NoDisputeKeepsClaims | core_algorithm_python/dispute_resolver.py:61-62 | when the claims add up to at most 1, each allocation is its claim |
| DisputeResolver.RemainingNonNegative | core_algorithm_python/dispute_resolver.py:72-74 | with descending claims, each remaining concession is non-negative |
| DisputeResolver.FullGetsAtLeastPartial | core_algorithm_python/dispute_resolver.py:79-80 | when the per-claim share is non-negative, a full claimant's portion is at least a partial one's |
| DisputeResolver.AllocationsSumToOne | core_algorithm_python/dispute_resolver.py:86-95 | the dispute-branch allocations add up to exactly 1 |
| DisputeResolver.ResolveConserves | core_algorithm_python/dispute_resolver.py:86-95 | on claims adding up to more than 1, the result's allocations add up to 1 |
| DisputeResolver.AdjacentAllocations | core_algorithm_python/dispute_resolver.py:86-95 | neighbouring allocations differ by the full portion minus the partial portion of the later claim's round |
| DisputeResolver.TieFreesNothing | core_algorithm_python/dispute_resolver.py:72-80 | a claim equal to the previous one frees no concession, so its round hands out nothing |
| DisputeResolver.EqualClaimsEqualAllocations | core_algorithm_python/dispute_resolver.py:86-95 | equal claims get equal allocations |
| DisputeResolver.AllocationsFollowClaims | core_algorithm_python/dispute_resolver.py:58-95 | allocations are descending like the claims |
| DisputeResolver.ThreeClaimsExample | core_algorithm_python/dispute_resolver.py:48-55 | the documented example 1/2, 1/3, 1/4 gives 31/72, 11/36, 19/72, through a remainder of -1/8 |
| DisputeResolver.WholeAndHalfExample | core_algorithm_python/dispute_resolver.py:118 | claims 1 and 1/2 give 3/4 and 1/4 |
| CFractions.GreatestCommonDivisor | talmudic_dispute_resolver_c/src/fraction.c:20-29 | the loop computes Gcd, a non-zero common divisor (in absolute value) of inputs not both 0 |
| CFractions.GcdIsGreatest | talmudic_dispute_resolver_c/src/fraction.c:20-29 | for non-negative inputs not both 0 the result is the positive greatest common divisor |
| CFractions.GcdDivisors | talmudic_dispute_resolver_c/src/fraction.c:20-29 | the common divisors of the inputs are exactly the divisors of the result |
| CFractions.GcdOfZero | talmudic_dispute_resolver_c/src/fraction.c:20-29 | gcd(0, d) = d |
| CFractions.GcdCanBeNegative | talmudic_dispute_resolver_c/src/fraction.c:20-29 | with C's remainder the result can be negative: gcd(-1, 8) = -1 |
| CFractions.LowestCommonMultiple | talmudic_dispute_resolver_c/src/fraction.c:32-35 | a non-zero common multiple of both inputs, positive for positive inputs |
| CFractions.Simplify | talmudic_dispute_resolver_c/src/fraction.c:38-42 | keeps the value and the isValid flag, and keeps a natural fraction natural |
| CFractions.SimplifyLowestTerms | talmudic_dispute_resolver_c/src/fraction.c:38-42 | for n >= 0 and d > 0 the result is in lowest terms |
| CFractions.CreateFraction | talmudic_dispute_resolver_c/src/fraction.c:45-50 | the value is n/d; isValid holds exactly for a positive denominator and a value at most 1, with no lower bound; a zero denominator gives 1/0, invalid |
| CFractions.NegativeIsValid | talmudic_dispute_resolver_c/src/fraction.c:45-50 | -1/2 is flagged valid |
| CFractions.SignMovesToDenominator | talmudic_dispute_resolver_c/src/fraction.c:38-50 | createFraction(-1, 8) is 1/-8, flagged valid |
| CFractions.AdjustForOperation | talmudic_dispute_resolver_c/src/fraction.c:54-60 | both adjusted numerators over the common denominator keep their fraction's value; the denominator is positive for positive inputs |
| CFractions.Add | talmudic_dispute_resolver_c/src/fraction.c:64-68 | the exact sum; for positive denominators isValid ⇔ value <= 1, and a non-negative result is natural |
| CFractions.Subtract | talmudic_dispute_resolver_c/src/fraction.c:70-74 | the exact difference, with the same flag and sign facts |
| CFractions.Multiply | talmudic_dispute_resolver_c/src/fraction.c:76-79 | the exact product |
| CFractions.MultiplyByInt | talmudic_dispute_resolver_c/src/fraction.c:81-84 | the exact multiple; natural times a non-negative factor stays natural |
| CFractions.Divide | talmudic_dispute_resolver_c/src/fraction.c:86-89 | the exact quotient; a zero divisor gives denominator 0 and isValid false |
| CFractions.DivideByInt | talmudic_dispute_resolver_c/src/fraction.c:91-94 | the exact quotient; dividing by 0 gives denominator 0, invalid; natural over a positive int stays natural |
| CFractions.AreEqual | talmudic_dispute_resolver_c/src/fraction.c:103-106 | decides equality of values for any non-zero denominators |
| CFractions.IsGreaterThan | talmudic_dispute_resolver_c/src/fraction.c:108-111 | decides the order of values for positive denominators |
| CFractions.GreaterThanZeroLiteral | talmudic_dispute_resolver_c/src/fraction.c:108-111 | against {0, 1} only the numerator's sign counts, so a negative value held as 1/-8 compares greater than zero |
| CClaimants.NewClaimant | talmudic_dispute_resolver_c/src/claimant.c:5-10 | identifier and claim stored, collects 0/1, concession worth 1 - claim, partial exactly when the concession's numerator is positive; for a claim in [0, 1], partial ⇔ claim < 1 |
| CClaimants.OverClaimCountsAsPartial | talmudic_dispute_resolver_c/src/claimant.c:7-8 | a claim of 9/8 concedes 1/-8, negative, yet is flagged partial |
| CDistributions.NewDistribution | talmudic_dispute_resolver_c/src/distribution.c:3-16 | echoes the concession; per = concession/(N-1), split = per/(N-p+1), total = per + p·split; all natural for a natural concession |
| CDistributions.DistributionIdentity | talmudic_dispute_resolver_c/src/distribution.c:3-16 | fullsCount·totalForFulls + partialsCount·splitWithFulls = totalClaimants·perClaimantFraction |
| CDistributions.RoundValues | talmudic_dispute_resolver_c/src/distribution.c:3-16 | the three shares are well formed with values concession/(N-1), per/(N-p+1) and per + p·split |
| CDistributions.HandOut | talmudic_dispute_resolver_c/src/distribution.c:3-16 | f fulls taking totalForFulls and p partials taking splitWithFulls receive (p+f)·perClaimantFraction |
| CDisputes.NewClaimantsFacts | talmudic_dispute_resolver_c/src/dispute.c:20-29 | claimant i has identifier i and claim i, in input order; it concedes 1 - claim, is partial ⇔ claim < 1, and has collected nothing |
| CDisputes.CountPartials | talmudic_dispute_resolver_c/src/dispute.c:19-28 | the count of partial claimants, at most their number |
| CDisputes.SamePartials | talmudic_dispute_resolver_c/src/dispute.c:19-28 | claimants with the same partial flags have the same count |
| CDisputes.CreatedValid | talmudic_dispute_resolver_c/src/dispute.c:6-31 | for claims in [0, 1], a new dispute keeps the invariant and remainder + Σ collects = 1 |
| CDisputes.Dispute.CreateDispute | talmudic_dispute_resolver_c/src/dispute.c:6-31 | the loop fills a fresh array with one claimant per claim and counts the partial ones; the remainder is {1, 1} |
| CDisputes.LowestIsLeast | talmudic_dispute_resolver_c/src/dispute.c:42-55 | the scan's result is at most every partial concession; it is {1, 1} when nobody is partial, and otherwise equals some partial's concession, so it is the minimum |
| CDisputes.Dispute.FindLowestConcession | talmudic_dispute_resolver_c/src/dispute.c:42-55 | the loop returns LowestOf of the array: the minimum partial concession |
| CDisputes.Settle | talmudic_dispute_resolver_c/src/dispute.c:63-79 | a partial claimant collects splitWithFulls and concedes the lowest, becoming full exactly when nothing is left; a full one collects totalForFulls |
| CDisputes.SettleKept | talmudic_dispute_resolver_c/src/dispute.c:63-79 | settling keeps a claimant well formed, and it stays partial exactly when it was partial and is not promoted |
| CDisputes.CollectedGrows | talmudic_dispute_resolver_c/src/dispute.c:63-79 | adding a to each partial and b to each full raises the total collected by partials·a + fulls·b |
| CDisputes.SettleAllFacts | talmudic_dispute_resolver_c/src/dispute.c:60-80 | settling every claimant keeps each well formed with its identifier and claim, lowers the partial count by the number promoted, and adds splitWithFulls per partial and totalForFulls per full to what was collected |
| CDisputes.PartialsDrop | talmudic_dispute_resolver_c/src/dispute.c:68-73 | partialsCount falls once per promotion, so it keeps counting the partial claimants |
| CDisputes.PromotesOne | talmudic_dispute_resolver_c/src/dispute.c:68-73 | the claimant holding the lowest concession is promoted |
| CDisputes.DistributeKeepsValid | talmudic_dispute_resolver_c/src/dispute.c:57-84 | a round keeps the invariant (no concession goes negative) and every identifier and claim |
| CDisputes.RoundKeepsValid | talmudic_dispute_resolver_c/src/dispute.c:57-84 | a round whose lowest concession every partial can take keeps the invariant and every claim |
| CDisputes.DistributeShrinks | talmudic_dispute_resolver_c/src/dispute.c:57-84 | with a partial claimant, a round lowers partialsCount |
| CDisputes.DistributeConserves | talmudic_dispute_resolver_c/src/dispute.c:57-84 | the remainder falls by exactly what the claimants collect: remainder + Σ collects is kept |
| CDisputes.RoundConserves | talmudic_dispute_resolver_c/src/dispute.c:81-83 | any distribution satisfying the hand-out identity keeps the total |
| CDisputes.Dispute.DistributeLowestConcession | talmudic_dispute_resolver_c/src/dispute.c:57-84 | the array, count and remainder become DistributeOf of the old state |
| CDisputes.Dispute.SettleClaimants | talmudic_dispute_resolver_c/src/dispute.c:63-80 | the loop leaves the array as SettleAll and lowers partialsCount by the promotions |
| CDisputes.SplitConserves | talmudic_dispute_resolver_c/src/dispute.c:86-94 | with claimants, the split keeps the invariant and the total, and leaves a zero remainder |
| CDisputes.SplitAmongNobody | talmudic_dispute_resolver_c/src/dispute.c:86-94 | with no claimant, nothing is collected and the remainder is dropped |
| CDisputes.Dispute.SplitRemainderEqually | talmudic_dispute_resolver_c/src/dispute.c:86-94 | every claimant collects remainder/size and the remainder becomes {0, 1} |
| CMain.SplitKeepsValid | talmudic_dispute_resolver_c/src/main.c:14-18 | a split keeps the invariant, the claims and the count, and leaves {0, 1} |
| CMain.NothingLeftNothingDone | talmudic_dispute_resolver_c/src/main.c:11 | a remainder whose numerator is not positive changes nothing, in zero rounds |
| CMain.RoundsBound | talmudic_dispute_resolver_c/src/main.c:11-23 | the loop runs at most partialsCount + 1 rounds |
| CMain.ApplyKeepsValid | talmudic_dispute_resolver_c/src/main.c:8-25 | the rounds keep the invariant and the claims, and end with the remainder's numerator not positive; partial claimants may remain |
| CMain.ApplyConserves | talmudic_dispute_resolver_c/src/main.c:8-25 | with at least one claimant, remainder + Σ collects is the same at exit |
| CMain.ResolutionConserves | talmudic_dispute_resolver_c/src/main.c:8-25 | from createDispute on claims in [0, 1], remainder + Σ collects is 1 at exit |
| CMain.ApplyTalmudicPrincipal | talmudic_dispute_resolver_c/src/main.c:8-25 | the while loop leaves the dispute as ApplyOf of the old one; it passes Rounds(old state) times, at most partialsCount + 1 |

## Left out

- Printing, logging and demo drivers are console or file I/O:
  - `solve_and_print` and `main` of `dispute_resolver.py`;
  - `print_resolution`, `resolve_examples` and the logging set-up of `resolution.py`;
  - `printFraction`, `printClaimant`, `printDistribution` and `main` of the C version;
  - the module-level `print` of `dispute_fraction.py`.
- `toFloat` uses floating point. Float and string inputs to `DisputeFraction` and
  `validate_claim` rely on Python's conversions, so claims are exact rationals and ints here.
- Memory management (`malloc`/`exit` in `createDispute`, `destroyDispute`) is not modelled.
  The claimant array is a fresh Dafny array.
- C `int` overflow is not modelled; integers are unbounded. Truncating `/` and `%` are
  modelled.
- C division by zero is undefined behaviour, so the fraction functions require operands for
  which no `int` division by zero happens. A lone partial claimant would divide by zero in
  `newDistribution`, so `CDisputes.Valid` excludes it.
- `ClaimantManager`'s factory is always the TalitClaimant constructor, so it is called
  directly. `__repr__`/`__str__` and the dataclass machinery are not modelled.
- The abstract base classes hold no behaviour. Their fields are folded into the concrete
  classes.
- CDisputes.Dispute.DistributeLowestConcession: the settling loop sits in its own method,
  `SettleClaimants`, which keeps the source's statements and order. This keeps each proof
  small.
- CMain.ApplyKeepsValid: the loop may exit with partial claimants left. This is stated only
  by not claiming `partialsCount == 0`; no concrete C run is worked through.
- CDisputes.SplitAmongNobody: with no claimant the C split divides by zero in `int` terms only
  when the remainder is 0/1. The model requires a non-zero numerator or a claimant, so that
  case is excluded rather than modelled.
- The C loop stops on the numerator's sign, not on the value. A negative remainder whose sign
  sits in its denominator (1/-8) therefore keeps the loop running: it runs distributions while
  some claimant is partial, then a split that hands the negative amount back to the
  claimants. The model follows this; `GreaterThanZeroLiteral` states it.
- DisputeResolver: `sum(claims) <= 1` and the sort are taken on exact rationals. The
  shortcut's 1-based and the dispute branch's 0-based identifiers are kept as written.
