# Verification of the iMa probability and research engine

This project models the parts of iMa whose correctness is not visible in any one function, and proves what they
promise. Floats and Decimals are exact reals or integers throughout; every theorem quantifies over all inputs the
code accepts, and the code's error paths are part of the models.

* **Pools, settlement, scenarios, returns.** `PoolKernel` is sequential choice without replacement. `PoolProbabilities`
  and `PaidPositions` show that the permutation sums, the direct place and pair formulas and the one-pass accumulation
  measure the same events, and what each pool totals. `Settlement` gives dead heats a meaning in terms of tie-breaks.
  `JointScenarios` and `TicketProbabilities` close the circle: settling enumerated orders prices every ticket as the
  kernel does, at any sufficient depth and any scale. `PortfolioReturns` carries that to the return matrix and to
  settlement, `PricingMeanings` says when pricing refuses and what each outcome pays. `Sums` and `Enumerations` hold the
  arithmetic.
* **Chronological cross-fitting.** `GraphValidation` is the depth-first validation of the pipeline graph, `GraphMeanings`
  its contract relation by relation, `CrossFitting` the recursive fit and its freedom from leakage. `DryRun` says which
  frames can be fitted at all, `HistoryFacts` and `HistoryBound` how much history nested stages need, `HistoryWitnesses`
  holds the plans that need more. `GraphFitter` is the memoised builder with its fit budget, `FitRefusals` says of the
  graph itself what a fit refuses and what a successful one shows, `PositionRanges` is the report of excluded rows.
* **Typed formulas.** `UnitSignatures` and `FeatureExpressions` prove the unit checker sound for the evaluator,
  `UnitMeanings` reads powers of units as products, `ExpressionMeanings` formulas as ordinary arithmetic and objections
  one subformula at a time.
  `FormulaScheduling` and `FormulaEvaluation` add the two schedulers and the point-in-time mask, `FormulaNameClash`
  the names that defeat it, `FormulaMeanings` says when a run is accepted, `FormulaExamples` holds the smallest run.
* **Delta tables.** `RowGroups`, `DeltaTables` and `DeltaWrites` prove projected reads of a chain of column layers equal
  to materialising and selecting, and that a published layer reads back as written; `DeltaMeanings` says the same cell by
  cell.
* **As-of views and history features.** `CorrectionChains`, `AsOfViews` and `EventFeatures`, composed from raw events to
  features in `ArchivedEvents` (with a counterexample in `LateCorrections`). `EvidenceTimes` ties what is selected to the
  instants of the raw records, `EventMeanings` what is reported to counts and seconds. `HistoryFeatures` and
  `ResidualHistory` follow a horse's own past, read in its records by `HistoryMeanings` and `ResidualMeanings`;
  `StableSort`, `Bisection` and `PrefixSums` are shared.
* **Stakes.** `Stakes` proves Kelly optimality, the legality of physical stakes and the cash-cap repair, over `Products`.
* **Runs and traces.** `Transport` is the transport-evidence classifier, `TransportTexts` its verdicts in the recorded
  texts. `Billing` and `BillingFairness` are the bounded recovery of billing receipts across runs, `BillingMeanings` which
  attempts it asks about. `BenjaminiHochberg` is the step-up adjustment.

Functions of the outside world enter as parameters with their laws as hypotheses: the logarithm (`ln x <= x - 1` and
`ln xy = ln x + ln y`, predicate `IsLog`), real powers and square roots (`IsNumerics`), the exponential (`IsExp`), the
positive place-dependent weight `strength ** exponent` (`Field.Valid`), an estimator as a function of its training rows,
the provider's answer to a billing request, the catalogue's decision on a predictor, and the reading of a number as a
time (for the name clash alone: numbers within the first nanosecond read as the epoch, `ReadsEpoch`).

## What the proofs found

* The number of dates `min_train_dates + n_splits * depth` is enough for a learned stage exactly when its depth is at
  most `n_splits`, no ancestor is misconfigured, and `min_train_dates` is at least two where a distribution estimator
  lies under an innermost learned stage (`HistoryBoundIsExact`). Otherwise validated graphs fail on exactly that many
  dates: `n_splits + 1` calibrations (`DeepTower`), or one calibration over a distribution estimator whose first fold
  leaves it a single instant and so no residual window (`WindowTower`).
* The guard that skips folds with too little history counts distinct timestamps while the nested call counts distinct
  dates. A fold with enough timestamps but too few dates is kept and its nested fit fails (`IntradayStampsFail`,
  `CrowdedTower`). At learned depth two this is the only way to fail besides a refused frame or no kept fold
  (`DepthTwoExactly`); up to depth one the guard plays no part (`ShallowExactly`); deeper, the bound asks at every level
  for no such fold (`FitSucceeds`), which one timestamp per date guarantees (`OneStampGuard`).
* A formula may be named after an availability column that the frame lacks. Later formulas then read its numbers as
  times, and a constant zero makes every row count as available since 1970, so values nobody knew in time reach the
  features (`NameClashLeaks`). Exactly the names that track no input are safe (`NameClashExactly`).
* Corrections are resolved over the whole archive, later events included. An event that was excluded because its parent
  was missing becomes usable, and joins an older event's group, when the parent is captured after the race; features of
  past races change (`LateParentRewrites`). What is known before a cutoff is final exactly when no early event is
  waiting for a parent (`FinalExactly`).
* `write_feature_delta` accepts frames with columns that are neither the parent's nor declared as far as its own checks
  go, but its read-back then always fails (`WrittenReadsBack` gives the exact condition).
* With duplicate event ids whose events disagree on the group the outcome of correction resolution depends on list order
  (`DuplicateIdsDependOnOrder`); where they agree on all a chain reads it does not (`OrderIndependent`).
* In the adjusted-speed history the mere existence of a later residual, the row's own included, turns a missing value
  into zero, though it never changes a present one (`LaterEntriesOnlyFillIn`, `OwnResultFillsIn`).
* Inserting a recorded verdict into a guarded preflight pair makes it unknown on replay (`MarkersIgnored`); the
  terminal events the client emits are unaffected (`Recorder.Finish`).

## Model

| member | source | states |
|---|---|---|
| `PoolKernel.BenterOrderProbability` | ima/pools.py:64-79 | The loop over places with its shrinking list of remaining runners computes the recursive sequential-choice probability of the order; a zero denominator is reported exactly when some reached place has one |
| `PoolKernel.TotalMass` | ima/pools.py:64-79 | The outcomes of any number of places carry total probability exactly one whenever that many strengths are nonzero |
| `PoolKernel.DepthIndependent` | ima/pools.py:64-79 | The expectation of anything decided by the first d places is the same at every larger depth |
| `PoolKernel.OrderIsLeaf` | ima/pools.py:64-79 | The product over one order is the probability of that leaf of the sequential-choice tree |
| `PoolKernel.FirstFour` | ima/pools.py:67-78 | The first four places of any field written out: the winner by plain strengths, the second by the second exponent, the third and fourth by the third, each divided by the total over the runners left |
| `PoolKernel.EnumerationIsExpectation` | ima/pools.py:211-217 | Summing the kernel over all permutations of a selection, each followed by a fixed tail, is an expectation over the tree |
| `PoolProbabilities.OrderedIsChance` | ima/pools.py:64-79 | An ordered ticket's probability is the chance of exactly that finishing order |
| `PoolProbabilities.UnorderedIsChance` | ima/pools.py:211-217 | Summing over all permutations of a combination gives the chance that exactly those runners fill the top places |
| `PoolProbabilities.PositionIsChance` | ima/pools.py:220-235 | Each of the three sums of the place formula is the chance of finishing first, second or third |
| `PoolProbabilities.PlaceIsChance` | ima/pools.py:220-235 | The direct place formula is the chance of finishing in the paid places |
| `PoolProbabilities.QplIsChance` | ima/pools.py:238-250 | The direct pair formula, for two and for three paid places, is the chance of both runners finishing in them |
| `PaidPositions.PaidPositionRankings` | ima/pools.py:120-142 | Accumulating each finish order once into the place list and the pair dictionary gives, for every runner and every pair, exactly the direct place and pair formulas |
| `PaidPositions.AddRunners` | ima/pools.py:129-130 | One order adds its probability once to each runner in it and to no other |
| `PaidPositions.AddPairs` | ima/pools.py:131-132 | One order adds its probability once to each pair it contains and to no other |
| `PaidPositions.OrderedTotal` | ima/pools.py:191-196 | The probabilities of all ordered tickets of a pool add up to one |
| `PaidPositions.UnorderedTotal` | ima/pools.py:197-206 | The probabilities of all unordered combinations of a pool add up to one |
| `PaidPositions.PlaceTotal` | ima/pools.py:220-235 | The place probabilities of a field add up to the number of paid places |
| `PaidPositions.QplTotal` | ima/pools.py:238-250 | The pair probabilities of a field add up to places choose two |
| `PaidPositions.NeverUndefined` | ima/pools.py:187-187 | With positive strengths the kernel never divides by zero |
| `Enumerations.PermutationsAreOrders` | ima/pools.py:127-127 | The enumeration of permutations lists exactly the repetition-free orders |
| `Enumerations.ExactlyOneCombination` | ima/pools.py:131-131 | Every set of the right size is listed by exactly one combination |
| `Enumerations.ExactlyOnePermutation` | ima/pools.py:127-127 | Every order of the right length is listed by exactly one permutation |
| `Settlement.TicketWins` | ima/betting_settlement.py:31-50 | Laying the tied groups out into slots in a loop and then reading them per pool decides the win rule, including scratches, abandonment and short finishes |
| `Settlement.OrderedMeaning` | ima/betting_settlement.py:31-50 | An ordered ticket wins if and only if it is the start of some strict tie-break of the finish |
| `Settlement.UnorderedMeaning` | ima/betting_settlement.py:31-50 | An unordered ticket wins if and only if it is exactly the top set of some tie-break |
| `Settlement.PaidMeaning` | ima/betting_settlement.py:31-50 | A PLACE or QPL ticket wins if and only if each of its runners separately can fall in the paid slots |
| `Settlement.StrictMeaning` | ima/betting_settlement.py:31-50 | Without ties each fixed-size pool is won by the first runners alone, in order or as a set |
| `Settlement.PoolWinners` | ima/betting_settlement.py:31-50 | Pool by pool, who wins in a race that ended without ties: the first in order, the first two, three or four as a list or as a set, or runners among the paid places |
| `Settlement.ExactlyOneWins` | ima/betting_settlement.py:31-50 | In a strict finish with enough runners exactly one of all listed orders or combinations of a field wins each fixed-size pool |
| `JointScenarios.ConditionalChoiceScenarios` | ima/betting_ev.py:97-127 | The input checks in order; otherwise one scenario per all-positive order with its kernel probability from the unscaled strengths, and the mass check never fires |
| `PricingMeanings.RejectionExactly` | ima/betting_ev.py:106-112 | Refused are exactly: unsound fields, else depths that are no number of places or whose orders outnumber the budget, else fields with fewer strong runners than places |
| `PricingMeanings.ScenarioOrders` | ima/betting_ev.py:116-121 | The scenarios are exactly the ways to fill the places with different runners of positive strength |
| `PricingMeanings.OrdersCounted` | ima/betting_ev.py:109-116 | The falling factorial compared with the budget is the number of orders enumerated |
| `JointScenarios.Normalize` | ima/betting_ev.py:113-113 | Dividing by the largest strength is a rescaling by a positive factor |
| `JointScenarios.ScaleInvariant` | ima/betting_ev.py:113-121 | Rescaling all strengths changes no order probability |
| `JointScenarios.DefinedToDepth` | ima/betting_ev.py:111-112 | At least as many nonzero strengths as places keep every denominator positive, whatever is picked |
| `JointScenarios.SkippedIsZero` | ima/betting_ev.py:118-119 | An order skipped for containing a zero-strength runner has probability zero |
| `JointScenarios.KeptChance` | ima/betting_ev.py:116-121 | Every event keeps its full chance when such orders are skipped |
| `JointScenarios.MassIsOne` | ima/betting_ev.py:26-32 | The kept orders carry mass exactly one without renormalising |
| `TicketProbabilities.SettledMassIsKernel` | ima/betting_ev.py:135-154 | Settling every enumerated order and adding the winning mass gives the pool kernel's probability of the ticket |
| `TicketProbabilities.ScenariosAgreeWithKernel` | ima/betting_ev.py:130-154 | For any list of tickets of every pool, at any depth at or above the required one, each ticket probability equals the pool kernel's; the cap at one never bites |
| `TicketProbabilities.DepthAndScaleIrrelevant` | ima/betting_ev.py:97-154 | Two enumerations at different sufficient depths and scales of the strengths price every ticket alike |
| `TicketProbabilities.RescaledScenarios` | ima/betting_ev.py:113-121 | The scenarios of rescaled strengths are exactly the scenarios of the original ones |
| `PricingMeanings.PricedExactly` | ima/betting_ev.py:135-152 | Tickets are priced if and only if they are on one race, the scenarios are long enough for every ticket that ran, and its runners are known; and which refusal comes first |
| `PortfolioReturns.JointReturnMatrix` | ima/betting_ev.py:211-249 | A matrix results if and only if the checks pass and every entry has its evidence; every entry is the ticket's return in that scenario (refund, scenario dividend, multiple or zero) |
| `PricingMeanings.EntryExactly` | ima/betting_ev.py:229-247 | What one entry says: a refund where the rules verify one, nothing for a loser, a winner's own scenario dividend at its convention, otherwise the quoted multiple unless there was a dead heat |
| `PricingMeanings.ComputableExactly` | ima/betting_ev.py:219-226 | The checks before any entry: priced tickets, one nonnegative multiple a ticket, one dividend table a scenario, no dead heat without tables |
| `PortfolioReturns.MatrixPricesLikeKernel` | ima/betting_ev.py:228-249 | Over conditional-choice scenarios the expected return of a ticket's column is its decimal return times the pool kernel's probability |
| `PortfolioReturns.SettlementMatchesMatrix` | ima/betting_settlement.py:63-93 | In the scenario that came true the settled gross return is the stake times the matrix entry at the final multiple, and a refund is unsupported in both or neither |
| `PricingMeanings.SettledExactly` | ima/betting_settlement.py:63-93 | Which outcome settlement reports and what it pays in each; it raises exactly for a late selection or a winner's wrong final evidence |
| `GraphValidation.Visit` | ima/pipeline_graph.py:138-153 | The depth-first visit keeps a topological finishing order of what it has visited, and refuses only faulty graphs; it terminates on any graph |
| `GraphValidation.VisitAll` | ima/pipeline_graph.py:136-156 | Visiting every node passes if and only if every node is sound, every input known, and there is no cycle |
| `GraphValidation.RankDecreases` | ima/pipeline_graph.py:138-153 | The finishing order is a measure: every input of a node ranks strictly below it |
| `GraphValidation.CompleteNotFaulty` | ima/pipeline_graph.py:136-156 | A graph with a complete finishing order has no cycle, unknown input or unsound node |
| `GraphValidation.Collect` | ima/pipeline_graph.py:162-166 | Collection terminates, adds only ancestors of the key, and fails only on a key without a node |
| `GraphValidation.CollectRoots` | ima/pipeline_graph.py:160-170 | What is collected from the roots is exactly their ancestries |
| `GraphValidation.MarketAncestorMeaning` | ima/pipeline_graph.py:224-225 | The recursive market test holds if and only if some ancestor, the node included, has a market output or is a market blend |
| `GraphValidation.Validate` | ima/pipeline_graph.py:120-230 | Validation passes if and only if the graph meets the whole declared contract |
| `GraphMeanings.AcceptedExactly` | ima/pipeline_graph.py:120-230 | Accepted graphs relation by relation: a valid protocol, no cycle, endpoints that are there, chosen estimators that some endpoint uses, nodes whose outputs, units, inputs, number of inputs and scopes compose, nothing relabelled, and no market output or blend above the fundamental output |
| `GraphMeanings.StageExactly` | ima/pipeline_graph.py:175-222 | The checks of each stage kind say exactly: so many inputs, inputs the stage may be fed with (pools, calibrations and pass-through stages only with their own contract), the right output, and forward scope for what learns downstream |
| `GraphValidation.MarketIsolation` | ima/pipeline_graph.py:200-229 | In an accepted graph a non-market node has no market output and no market blend anywhere in its ancestry |
| `CrossFitting.FitIsSafe` | ima/pipeline_graph.py:511-721 | Recursively: a fit uses only rows of the frame it was given, and every learned state below it was fitted on predictions of models all of whose fits used only strictly earlier rows |
| `CrossFitting.DayHolds` | ima/pipeline_graph.py:624-624 | A row's date is the day of 86400 seconds that holds its instant, before the epoch too |
| `CrossFitting.BlocksOrdered` | ima/pipeline_graph.py:635-638 | Every date of an earlier block precedes every date of a later one |
| `CrossFitting.BlocksCover` | ima/pipeline_graph.py:635-638 | The blocks hold exactly the dates after the first min_train_dates |
| `CrossFitting.BlockStarts` | ima/pipeline_graph.py:643-643 | The first date of a block is its least |
| `CrossFitting.DaysBefore` | ima/pipeline_graph.py:643-643 | The dates before the j-th distinct date are exactly the first j |
| `CrossFitting.HasLearnedMeansDepth` | ima/pipeline_graph.py:723-727 | A node has a learned stage in its ancestry if and only if its learned depth is positive |
| `FitRefusals.RefusalExactly` | ima/pipeline_graph.py:528-579 | A node is refused if and only if it gives one of the reasons: an empty view or one of unknown columns, a market column read by an estimator whose output is not market, an unknown option, a missing factory, a residual window on fewer than two instants |
| `FitRefusals.FittedIsClean` | ima/pipeline_graph.py:532-535 | A successful fit gave no market column to any estimator in its ancestry whose output is not market, and no ancestor gives any other reason |
| `FitRefusals.RefusedForCause` | ima/pipeline_graph.py:511-621 | A failed fit ran out of history or budget, or some ancestor gives the very reason it reports; in particular a market estimator is never refused for a market column |
| `DryRun.FitExactly` | ima/pipeline_graph.py:511-721 | A fit succeeds if and only if a dry run over dates and instants alone passes: no node refuses its frame (configuration, residual window), every learned stage keeps a fold, and its inputs pass on every fold it keeps; the leakage and output checks never fire |
| `DryRun.FoldIsPastOnly` | ima/prediction_store.py:35-46 | A scored block lies strictly after its training rows, so the artifact check never fires |
| `HistoryFacts.ReadyNecessary` | ima/pipeline_graph.py:528-579 | Wherever a fit succeeds, no ancestor is misconfigured, and every distribution estimator has the two instants of its residual window, on the frame itself and on the first min_train_dates dates where an innermost learned stage fits it |
| `HistoryFacts.ReadyFold` | ima/pipeline_graph.py:643-660 | A frame that nothing refuses gives its kept folds training frames that nothing refuses |
| `HistoryBound.FitSucceeds` | ima/pipeline_graph.py:635-716 | On a frame that nothing refuses, with learned depth at most n_splits, the documented number of dates, and no fold at any level that has the instants the guard asks for but not the dates, no nested call runs out of history or is left without a fold |
| `HistoryBound.ShallowExactly` | ima/pipeline_graph.py:633-660 | Up to learned depth one, whatever the timestamps, a fit succeeds if and only if nothing refuses the frame and, at depth one, there are min_train_dates + n_splits dates |
| `HistoryBound.DepthTwoExactly` | ima/pipeline_graph.py:633-660 | At learned depth two, whatever the timestamps, a fit succeeds if and only if nothing refuses the frame, some fold has min_train_dates + n_splits instants, and every fold that has them has as many dates |
| `HistoryBound.StageExactly` | ima/pipeline_graph.py:633-660 | Where the guard lets through no fold short of dates, a learned stage of depth D up to n_splits + 1 succeeds if and only if nothing refuses the frame and its last block starts after at least n_splits (D - 1) eligible dates |
| `HistoryBound.OneStampGuard` | ima/pipeline_graph.py:659-659 | One instant per date is enough for the guard to let through no fold short of dates, at any level |
| `HistoryBound.HistoryBoundIsExact` | ima/pipeline_graph.py:729-731 | The documented amount of history suffices for a learned stage if and only if its learned depth is at most n_splits, no ancestor is misconfigured, and min_train_dates is at least two where a distribution estimator lies under an innermost learned stage |
| `HistoryBound.DeepStageFails` | ima/pipeline_graph.py:729-731 | A deeper stage fails on every frame with exactly that many dates |
| `HistoryBound.IntradayStampsFail` | ima/pipeline_graph.py:659-660 | At any depth from two on, a fold with the instants the guard asks for but fewer than min_train_dates + n_splits dates is kept, and its nested fit fails |
| `HistoryWitnesses.TowerAccepted` | ima/pipeline_graph.py:120-230 | Towers of calibrations over an estimator, or over the adapter of a distribution estimator, are accepted by validation |
| `HistoryWitnesses.DeepTower` | ima/pipeline_graph.py:729-731 | For every n_splits and min_train_dates, n_splits + 1 calibrations over an estimator fail on the documented number of dates and succeed on one more |
| `HistoryWitnesses.CrowdedTower` | ima/pipeline_graph.py:659-660 | Two calibrations with n_splits 2 and min_train_dates 1 succeed on five or more single-race dates, and fail with three races on the first date however many dates follow |
| `HistoryWitnesses.WindowTower` | ima/pipeline_graph.py:558-560 | A calibration over the adapter of a distribution estimator fails with min_train_dates 1 on any number of single-race dates, and succeeds with 2 on the documented number |
| `HistoryBound.LastFoldKept` | ima/pipeline_graph.py:658-660 | The last fold is kept whenever its block starts after the dates its level needs, whatever the timestamps |
| `GraphFitter.Fitter.Build` | ima/pipeline_graph.py:511-621 | The memoised build returns the plain recursive fit or fails on the fit budget; every memoised component that learns was physically fitted exactly once, and the recursion terminates |
| `GraphFitter.Fitter.ForwardInputs` | ima/pipeline_graph.py:623-721 | The forward predictions are those of the plain definition, or the fit budget ran out |
| `GraphFitter.Fitter.LearnState` | ima/pipeline_graph.py:528-614 | What a node learns is the plain definition's state or its refusal, or the fit budget ran out, which an estimator finds before it refuses |
| `GraphFitter.Fitter.Record` | ima/pipeline_graph.py:501-509 | A fit is recorded once, under its own signature, within the budget |
| `GraphFitter.SameSignatureSameFit` | ima/pipeline_graph.py:515-520 | Two nodes with the same signature are fitted identically, so sharing a memo entry is harmless |
| `GraphFitter.NeverUnderItself` | ima/pipeline_graph.py:515-525 | A component's own signature cannot occur while its inputs are being built |
| `GraphFitter.AcceptedPlan` | ima/pipeline_graph.py:389-415 | Every validated graph can be run |
| `PositionRanges.Spans` | ima/pipeline_graph.py:743-751 | The spans are nonempty, ordered and untouching, and hold exactly the given positions |
| `PositionRanges.SpansUnique` | ima/pipeline_graph.py:743-751 | Such spans are determined by the positions |
| `UnitSignatures.MergeInto` | ima/feature_expressions.py:72-77 | Merging exponent dictionaries in place adds or subtracts exponents and drops what cancels |
| `UnitSignatures.Visit` | ima/feature_expressions.py:66-89 | The recursive visit with its merging loops computes the signature or the first objection |
| `UnitSignatures.SignatureKeepsWorth` | ima/feature_expressions.py:55-89 | A unit's scale and exponents are worth what the unit expression itself denotes, under any resizing of base units and conversion to base scale |
| `UnitSignatures.SignatureScalePositive` | ima/feature_expressions.py:55-89 | Every accepted unit has a positive scale |
| `UnitMeanings.PowerIsProduct` | ima/feature_expressions.py:78-86 | A unit to a whole power from one to eight has the signature of that many copies multiplied |
| `UnitMeanings.NegativePower` | ima/feature_expressions.py:78-86 | A negative power has the signature of one over the positive power |
| `UnitMeanings.LongestProduct` | ima/feature_expressions.py:64-65 | A product of copies of a named unit is short enough to be read if and only if there are at most sixteen |
| `UnitMeanings.LongestReciprocal` | ima/feature_expressions.py:64-65 | One over a product of copies is short enough if and only if there are at most fifteen |
| `UnitMeanings.DeepestTower` | ima/feature_expressions.py:64-65 | Powers of a named unit can be nested up to twenty deep, or twelve if they are negative |
| `UnitMeanings.UnknownName` | ima/feature_expressions.py:67-68 | A name that is no known unit is a dimension of its own |
| `FeatureExpressions.ValidateExpression` | ima/feature_expressions.py:101-147 | Accepted if and only if within the node and depth budgets and well typed; the report is the unit, exactly the names read, and the size |
| `FeatureExpressions.Checker.Visit` | ima/feature_expressions.py:106-144 | The visit with its running count and dependency set gives the type within budget and refuses beyond it |
| `FeatureExpressions.OnlyReadableInputsMatter` | ima/feature_expressions.py:111-120 | Outcomes, future, tainted and undated historical columns cannot reach the value of an accepted formula |
| `FeatureExpressions.DimensionalSoundness` | ima/feature_expressions.py:101-165 | Expressing every input of an accepted formula in other units multiplies its value by what its own unit is worth; undefined stays undefined and defined stays defined |
| `FeatureExpressions.ToBaseUnits` | ima/feature_expressions.py:97-98 | Converting every input to base units multiplies the value by the reported scale |
| `FeatureExpressions.RescaledBaseUnits` | ima/feature_expressions.py:92-94 | Resizing base units multiplies the value by their sizes raised to the reported dimensions |
| `ExpressionMeanings.EvaluatesArithmetic` | ima/feature_expressions.py:150-165 | On data without infinities a formula has the value of ordinary partial arithmetic on reals, where only a zero exponent and a base of one make up for a missing operand; no infinity arises on the way |
| `ExpressionMeanings.InfiniteOperand` | ima/feature_expressions.py:158-161 | Exactly which operations on an infinite operand still have a value, and which |
| `ExpressionMeanings.WellTypedExactly` | ima/feature_expressions.py:106-144 | A formula is well typed if and only if no subformula is objectionable: inputs readable with a sound unit, logarithms of pure numbers, sums and extremes of like units, constant exponents from -4 to 4 |
| `FormulaScheduling.RoundsFollow` | ima/feature_definitions.py:234-271 | The schedule lists exactly the given definitions, each after its inputs and parents |
| `FormulaScheduling.SchedulableExactly` | ima/feature_definitions.py:234-237 | A schedule is found if and only if the definitions can be ordered at all |
| `FormulaScheduling.ListOrderIrrelevant` | ima/feature_lifecycle.py:229-246 | The schedule does not depend on the order in which the definitions are listed |
| `FormulaEvaluation.EvaluateFormulas` | ima/feature_definitions.py:219-272 | The while-pending loop terminates and its result is that of applying the definitions in schedule order over one namespace of columns, outputs included, or a refusal exactly where scheduling or a step refuses |
| `FormulaEvaluation.PointInTimeOutputs` | ima/feature_definitions.py:251-259 | Where no formula writes an availability column, two tables that agree on the availability times and on everything available strictly before each row's cutoff give every formula the same value in every row, or both fail |
| `FormulaEvaluation.RunValues` | ima/feature_definitions.py:244-267 | In every row each formula has the value of its expression over the row with every tracked input missing unless its availability column reads as a time strictly below the cutoff, and keeps it unless a later formula writes the same column |
| `FormulaExamples.TrackedCopy` | ima/feature_definitions.py:252-259 | A copy of a tracked input shows the number exactly where its time lies strictly before the cutoff, and is refused without cutoffs |
| `FormulaMeanings.RunExactly` | ima/feature_definitions.py:225-258 | A run is accepted if and only if the definitions are distinct and can be scheduled, none takes the name of a column or of a known input, and each, when its turn comes, is small and well typed, reads exactly its declared inputs, has its declared unit and finds its inputs, availability columns and cutoffs |
| `FormulaMeanings.StepExactly` | ima/feature_definitions.py:265-267 | The outputs of a step are known to later formulas as untracked, untainted pre-race columns of the declared unit, and nothing else known changes |
| `FormulaNameClash.NameClashLeaks` | ima/feature_definitions.py:252-257 | A constant formula named after an availability column the frame lacks makes an input count as available: two frames that differ only in that input give different features |
| `FormulaNameClash.NameClashExactly` | ima/feature_definitions.py:238-257 | Runs whose formulas may write a given new name, and otherwise no availability column, are all point-in-time if and only if no known input is tracked by that name |
| `FormulaNameClash.SuppliedBuildsPointInTime` | ima/feature_lifecycle.py:237-238 | A build accepted against a parent that has every availability column is point-in-time, because outputs the parent already has are refused |
| `FormulaEvaluation.UnavailableInputsIrrelevant` | ima/feature_definitions.py:244-267 | The same for any order of definitions, including what later definitions read |
| `FormulaEvaluation.ValidateDefinitions` | ima/feature_lifecycle.py:221-247 | The lifecycle's loop accepts exactly 1 to 16 distinct definitions that schedule and check in that order, and returns that order |
| `FormulaEvaluation.AcceptedBuildsRun` | ima/feature_lifecycle.py:221-247 | What the lifecycle accepts, the evaluator runs, in the accepted order, on any table supplying the known inputs |
| `RowGroups.TakeRows` | ima/dataset_delta.py:158-182 | Skipping row groups, compact offsets and bisection together are plain indexing of the whole table, for repeated positions in any order and with empty groups anywhere |
| `RowGroups.SelectedGroups` | ima/dataset_delta.py:164-166 | A group is read if and only if it holds a requested position |
| `RowGroups.Compact` | ima/dataset_delta.py:167-176 | The compact table is the kept groups in order, and each kept group's offset is where it starts there |
| `Bisection.BisectRight` | ima/dataset_delta.py:179-179 | The insertion point after equal values of a sorted list |
| `Bisection.BisectLeft` | ima/feature_program.py:194-194 | The insertion point before equal values of a sorted list |
| `DeltaTables.ReadParquetPositions` | ima/dataset_delta.py:140-182 | A projected read of one file is the projection of plain indexing, with its refusals |
| `DeltaTables.ReadFeatureTable` | ima/dataset_delta.py:185-258 | The recursive reader, assigning delta columns one by one, computes the layered read |
| `DeltaTables.AssignColumns` | ima/dataset_delta.py:254-257 | Assigning the delta's columns over a copy of the parent's rows overlays exactly those columns |
| `DeltaTables.ProjectedRead` | ima/dataset_delta.py:185-258 | If some columns of a chain can be read, any distinct part of them can be read at any valid positions, and the result is the selection; invalid positions are refused |
| `DeltaTables.EveryProjection` | ima/dataset_delta.py:185-258 | Once a whole table reads, any other read succeeds if and only if its columns are known (and distinct above a layer) and its positions valid, and gives the selection |
| `DeltaTables.NewestLayerWins` | ima/dataset_delta.py:185-258 | Each cell of any successful read is the value of the newest layer holding that column at that position |
| `DeltaMeanings.ReadExactly` | ima/dataset_delta.py:140-258 | Cell by cell: any read of a readable table succeeds if and only if its columns are known and its positions lie from zero up to the number of rows, and then every cell is that of the whole table at the position asked for |
| `DeltaWrites.WriteFeatureDelta` | ima/dataset_delta.py:261-333 | Publication succeeds exactly when the declared checks pass, the frame has no undeclared extra column and the parent's identity declaration holds; the published path then reads as the written frame and nothing else in the store changed |
| `DeltaMeanings.DeclaredExactly` | ima/dataset_delta.py:272-292 | What may be written: some distinct, unprotected, vetted columns, the parent's own among them declared as replacements that keep their contract, over the same number of rows without a repeated runner, with every other column of the parent unchanged row by row |
| `DeltaWrites.WrittenReadsBack` | ima/dataset_delta.py:323-333 | The staged layer reads back as the frame if and only if the frame has no column that is neither the parent's nor declared, and the parent's identity declaration holds |
| `DeltaWrites.ReadUndisturbed` | ima/dataset_delta.py:261-333 | Adding a layer changes no successful read of any other path |
| `CorrectionChains.Resolve` | ima/historical_events.py:162-174 | The in-place loop terminates, gives every event the group its chain ends at in the original list, and refuses exactly when some chain runs into itself |
| `CorrectionChains.EndKeepsGroup` | ima/historical_events.py:174-174 | The event a chain ends at keeps its own group, so earlier updates never disturb later lookups |
| `CorrectionChains.CorrectionSharesGroup` | ima/historical_events.py:164-174 | A correction resolves to the same physical event as the observation it corrects |
| `CorrectionChains.RefusedExactlyWhenEndless` | ima/historical_events.py:165-168 | For unique ids a chain is refused if and only if following it would never end |
| `CorrectionChains.OrderIndependent` | ima/historical_events.py:162-174 | Where events that share an id agree on horse, family, parent and group, in particular for unique ids, every event resolves the same way wherever it stands in the list |
| `CorrectionChains.DuplicateIdsDependOnOrder` | ima/historical_events.py:162-162 | With duplicate ids whose events disagree the list order can decide a correction's group |
| `AsOfViews.SelectAsOf` | ima/historical_events.py:230-240 | Scanning sorted rows and stopping at the first ineligible one equals filtering everything |
| `AsOfViews.SelectedExactly` | ima/historical_events.py:230-240 | A view is selected if and only if it is eligible, still valid, and the latest-available version of its physical group |
| `AsOfViews.LaterEvidenceIrrelevant` | ima/historical_events.py:225-240 | Collections of views agreeing on what was eligible before the cutoff select the same views, wherever later views stand |
| `StableSort.SortBySorts` | ima/historical_events.py:225-226 | Sorting gives a sorted permutation |
| `StableSort.BelowSort` | ima/historical_events.py:225-234 | Sorting and keeping what lies below a bound commute |
| `EventFeatures.BuildEventFeatures` | ima/historical_events.py:243-320 | The no-evidence shortcut and the full loop give each runner the same row, so no runner's features depend on the cutoffs of the others |
| `EventFeatures.ShortcutAgrees` | ima/historical_events.py:264-273 | Without coverage and with nothing eligible before the latest cutoff every runner's features are zero support and otherwise missing |
| `EventFeatures.PointInTime` | ima/historical_events.py:274-320 | A runner's features depend only on views and coverage known strictly before its cutoff |
| `ArchivedEvents.EventViews` | ima/historical_events.py:162-227 | Resolving the whole archive in place and then looping over it gives every horse and family its sorted views, and fails exactly on an endless chain or a negative lag |
| `ArchivedEvents.PointInTimeExactly` | ima/historical_events.py:162-234 | Over raw events: later events, wherever they stand in the archive, leave everything known before a cutoff as it was if and only if they complete no broken chain of an event whose own evidence is early |
| `ArchivedEvents.PresentOrAbsent` | ima/historical_events.py:164-174 | It does so if every parent that the chain of an early event looks for is already present or stays absent |
| `ArchivedEvents.FinalExactly` | ima/historical_events.py:162-234 | What is known before a cutoff is final for every later archive if and only if no early event is waiting for a missing parent |
| `ArchivedEvents.FeaturesPointInTime` | ima/historical_events.py:243-320 | From raw events to features: without such a repair later events and coverage change no feature of the race |
| `EvidenceTimes.EligibleExactly` | ima/historical_events.py:199-224 | An event has a view eligible before a cutoff if and only if nothing excludes it and its occurrence, its effective availability (the recorded instant, or occurrence plus lag where a retrospective policy does not trust it) and the start of its validity all lie strictly before the cutoff |
| `EvidenceTimes.SelectedWasSeen` | ima/historical_events.py:230-240 | Whatever is selected for a race comes from an event of that horse and family seen in that sense before the cutoff and still valid at it |
| `EvidenceTimes.NewestIsSelected` | ima/historical_events.py:230-240 | Conversely, the version of a physical event that became available last among those seen is selected if it is still valid |
| `EvidenceTimes.LagRefusedExactly` | ima/historical_events.py:211-216 | The views are refused over a lag if and only if some event that would otherwise be evidence relies on a negative one |
| `EventMeanings.WindowCounts` | ima/historical_events.py:288-297 | A window reports how many selected events occurred in its last so many days of 86400 seconds, as a count only where one complete statement known before the cutoff spans exactly those days |
| `EventMeanings.WindowDays` | ima/historical_events.py:15-17 | Trackwork is counted over 7, 14, 30 and 90 days, barrier trials over 90, 180 and 365, everything else over 30, 90 and 365 |
| `EventMeanings.FamilyDates` | ima/historical_events.py:278-287 | Support is the number of selected events; the days and the distance are those of the latest of them |
| `EventMeanings.ConditionMeaning` | ima/historical_events.py:299-301 | The veterinary condition is open if and only if some selected finding occurred after every selected clearance |
| `EventMeanings.StayMeaning` | ima/historical_events.py:302-314 | The stays and the days since return follow from the latest movement: completed only by a return before the cutoff and not before the arrival |
| `EventMeanings.PlacingMeaning` | ima/historical_events.py:315-320 | The last placing is that of the latest selected trial |
| `LateCorrections.LateParentRewrites` | ima/historical_events.py:162-240 | An original and a correction of a correction that is captured only after the race: before its capture the original is selected, afterwards the early correction replaces it, and the features differ |
| `HistoryFeatures.DomainHistory` | ima/feature_program.py:185-207 | Grouping, sorting, insertion points, prefix sums and weights anchored at the group's latest record give each row the naive value over records strictly before its cutoff |
| `HistoryFeatures.FillGroup` | ima/feature_program.py:189-206 | One group's pass fills its own rows with their naive values and leaves the others alone |
| `HistoryFeatures.AnchorIrrelevant` | ima/feature_program.py:202-206 | A recency-weighted mean does not depend on the instant its weights are anchored at |
| `HistoryFeatures.LaterRecordsIrrelevant` | ima/feature_program.py:193-206 | Two record lists that agree on what is available before a row's cutoff give the row the same features, wherever later records stand |
| `HistoryFeatures.LatestMeaning` | ima/feature_program.py:196-199 | The record before the insertion point is the latest available one |
| `HistoryMeanings.KnownExactly` | ima/feature_program.py:189-195 | A row's history holds exactly the records of its group available strictly before its cutoff, each as often as it was recorded |
| `HistoryMeanings.SinceLatest` | ima/feature_program.py:196-199 | Elapsed days and weight change are counted from the latest past record, and are missing exactly where there is none or no weight to compare |
| `HistoryMeanings.MeanBalances` | ima/feature_program.py:201-206 | The mean measure is missing exactly where no past record has one, and otherwise balances the shares of the past records at the row's own cutoff |
| `HistoryMeanings.NewerCountsMore` | ima/feature_program.py:202-202 | Newer records have larger shares, by the exponential of the time between them over the decay time |
| `PrefixSums.Cumulate` | ima/feature_program.py:204-205 | The running totals are the sums of the prefixes |
| `PrefixSums.SumSort` | ima/feature_program.py:193-205 | Sorting changes no sum |
| `PrefixSums.PrefixIsBelow` | ima/feature_program.py:193-194 | The sorted records before the insertion point are exactly those below the cutoff |
| `ResidualHistory.Transform` | ima/feature_residuals.py:72-93 | Each row gets the shrunken mean of its group's earlier residuals in the combined history, stored entries taking precedence, and nothing without a group |
| `ResidualMeanings.ValueExactly` | ima/feature_residuals.py:76-92 | A row's value is missing exactly where its group has no residual in the combined list, and otherwise times the support (the number of residuals before the cutoff plus the shrinkage, one at least) it is their total, each runner's first entry alone |
| `ResidualHistory.LaterEntriesOnlyFillIn` | ima/feature_residuals.py:76-92 | Two histories that agree before the cutoff after de-duplication give the same value, or one gives zero and the other, which knows no residual of the group at all, nothing; the values agree exactly when both or neither know one |
| `ResidualHistory.FirstOfEarly` | ima/feature_residuals.py:76-77 | Where a runner's entries become available together, de-duplication commutes with dropping later entries, so these may stand anywhere |
| `ResidualHistory.AppendedEarly` | ima/feature_residuals.py:76-77 | Later entries at the end of the combined list displace no earlier entry |
| `ResidualHistory.OwnResultFillsIn` | ima/feature_residuals.py:83-91 | A row with no earlier start and its own result in the frame gets zero instead of missing |
| `BenjaminiHochberg.Adjust` | ima/feature_analysis.py:16-26 | Scaling, reversed running minimum, clipping and scatter give every finite position its step-up value and leave the others untouched |
| `BenjaminiHochberg.SignificantExactly` | ima/feature_analysis.py:16-26 | An adjusted value is at most alpha if and only if some rank k has p(k) at most alpha k / m and the position's p is at most p(k) |
| `BenjaminiHochberg.OrderPreserved` | ima/feature_analysis.py:16-26 | Smaller p-values never get larger adjusted values |
| `BenjaminiHochberg.AdjustedBounds` | ima/feature_analysis.py:16-26 | Adjusted probabilities lie between the p-value and one |
| `BenjaminiHochberg.TieOrderIrrelevant` | ima/feature_analysis.py:22-22 | However the sort breaks ties, every position gets the same adjusted value |
| `Stakes.LegalStake` | ima/betting_stakes.py:65-71 | A physical stake is a legal ticket within all three caps |
| `Stakes.LargestLegalStake` | ima/betting_stakes.py:65-71 | No larger legal ticket lies within them |
| `Stakes.KellyMaximises` | ima/betting_stakes.py:74-86 | Full Kelly maximises expected log growth over every fraction in [0, 1), for every p below one and d above one |
| `Stakes.BelowKellyNonNegative` | ima/betting_stakes.py:74-86 | Betting at most full Kelly never has negative expected log growth |
| `Stakes.SingleStakeGrows` | ima/betting_stakes.py:129-140 | The capped, fractional, rounded-down single stake is legal, within the cash cap, and never has negative expected log growth |
| `Stakes.SingleStakeIsLargest` | ima/betting_stakes.py:40-71 | The single stake is the largest legal ticket within the fraction of full Kelly, the ticket, race, cash and day caps and the room left by open exposure |
| `Stakes.RepairCap` | ima/betting_stakes.py:221-233 | The reverse loop ends within the cap, increases no stake, keeps every stake legal, changes nothing when the cap already holds, and touches only a suffix, cancelling all of it but its first, which keeps the largest legal stake the cap allows |
| `Stakes.TrimmedFacts` | ima/betting_stakes.py:229-232 | A trimmed stake is legal, no larger, and either gone or cut by at least the whole excess |
| `Transport.ClassifyTransportAttempt` | ima/openrouter_transport.py:10-84 | The event scan and the phase automaton with their early returns compute the verdict |
| `Transport.ScanPhases` | ima/openrouter_transport.py:64-84 | The pending-set loop accepts exactly when the automaton ends with nothing pending and a connect failure last |
| `Transport.UnsentExactly` | ima/openrouter_transport.py:49-84 | Outside the guarded preflight pair, not dispatched means exactly: one start and one failure around alternating lookups and connects, none still running, no connect completed, the last failure a connect with nothing started after it |
| `TransportTexts.KindExactly` | ima/openrouter_transport.py:66-83 | Which recorded text is the start, end or failure of which operation |
| `TransportTexts.UnsentInTexts` | ima/openrouter_transport.py:49-84 | The connect verdict over the recorded texts: no send text, one request start and failure around lookup, connect and close texts alone, starts and ends alternating in every prefix and even at the end, the last failing text that of a connect with no start after it |
| `TransportTexts.DispatchedInTexts` | ima/openrouter_transport.py:32-45 | Possibly dispatched if and only if some recorded text is a response text or a protocol, a sending or receiving operation and a state joined by dots |
| `TransportTexts.PreflightExactly` | ima/openrouter_transport.py:51-58 | The guarded refusal is exactly the two-event trace whose second event repeats the identity the guard wrote into the first |
| `Transport.MarkersIgnored` | ima/openrouter_transport.py:46-58 | A recorded verdict added anywhere keeps the verdict, except that the guarded preflight pair becomes unknown |
| `Transport.Recorder.Finish` | ima/openrouter_transport.py:115-127 | The verdict is recorded before the terminal event, and replaying the observed stream gives the live verdict |
| `Transport.ClassifyTransportAttempts` | ima/openrouter_transport.py:87-105 | The aggregate is proven unsent if and only if there is an attempt and every one is |
| `Transport.SentSiblingBlocks` | ima/openrouter_transport.py:90-93 | One sent attempt keeps the aggregate from being proven unsent |
| `Billing.Recovery.Reconcile` | ima/openrouter_billing.py:144-213 | One pass: the requested attempts are the eligible ones of a prefix of the rotation, within budget and stopping only at the budget; what is reported for each visited attempt; receipts only added, for requested and billed attempts; the cursor is the last request |
| `BillingMeanings.EligibleExactly` | ima/openrouter_billing.py:116-180 | An attempt is asked about if and only if it is readable under a proper name without a receipt, carries one well-formed generation and no other, ended in failure, and no other attempt or receipt carries that generation |
| `BillingMeanings.StandingExactly` | ima/openrouter_billing.py:154-175 | Skipped is exactly having a receipt under a proper path, passed over exactly carrying no generation or not having ended in failure |
| `BillingMeanings.ReportExactly` | ima/openrouter_billing.py:154-200 | What a pass reports: recovered are the visited attempts asked about and billed, unresolved those asked in vain or refused, skipped those with a receipt |
| `BillingFairness.RequestsAreFront` | ima/openrouter_billing.py:154-184 | A pass requests the front of the queue of eligible attempts |
| `BillingFairness.NoneTwice` | ima/openrouter_billing.py:154-184 | No attempt is asked about twice in one run |
| `BillingFairness.OthersKeepStanding` | ima/openrouter_billing.py:117-143 | Receipts written by a run change the standing of no other attempt |
| `BillingFairness.QueueAdvances` | ima/openrouter_billing.py:144-150 | Whoever a run did not reach is at the front of the next run's queue |
| `BillingFairness.RunOnce` | ima/openrouter_billing.py:144-213 | One call of the pass is a run in the sense of the many-run theorems |
| `BillingFairness.RunRepeatedly` | ima/openrouter_billing.py:144-213 | Calling the pass again and again, with any answers, requests everything eligible at the start once there were ceil(N / max_requests) passes, and replaces no receipt |
| `BillingFairness.EveryAttemptReached` | ima/openrouter_billing.py:144-213 | Over repeated runs every attempt eligible at the start is requested within ceil(N / max_requests) runs, whatever the provider answers |
| `BillingFairness.ReceiptsNeverReplaced` | ima/openrouter_billing.py:158-161 | Over any number of runs an existing receipt is never replaced |

## Left out

- Floating-point rounding, the clip of strengths at 1e-12, the rounding of sort keys to 12 decimals and the dynamic-range check after normalising: all arithmetic is exact, and positivity is a precondition where the code clips.
- The sorting of ranked combinations and the parsing of pool aliases.
- The fitting of order exponents, the portfolio optimiser before the cap-repair loop, and the expected-value report: numerical solvers or single branches.
- Estimator internals and predictions: an estimator is a function of its training rows. The raises of `build` itself are modelled (feature views, market columns, unknown options, missing factories, short residual windows); those of the model libraries, of missing columns, of unavailable market quotes and of `predict` (shapes, finiteness, pool weights, complete fields) are not.
- The checks of the whole frame before the first build: keys present, no duplicates, one date a race, a positive budget.
- The nested-selection branch of the pipeline graph and the persistent prediction store; fits are compared without them.
- CrossFitting.FitIsSafe: does not cover nested selection, because its selection artifact comes from code outside this model.
- GraphFitter.Fitter.ForwardInputs: always fits, because the persistent prediction store only replaces a fit by its stored predictions.
- GraphFitter.Fitter.Build: compares node parameters as a record of the parts `build` reads and one opaque rest.
- HistoryBound.FitSucceeds: beyond depth two asks more of the guard than the code needs, because a nested stage can succeed on fewer dates than documented; `FitExactly` is the exact condition at every depth.
- HistoryBound.StageExactly: stops at depth `n_splits + 1`, because beyond it some kept folds are short for their own level; `FitExactly` covers them.
- Parsing of unit strings: units start from trees of names, one, products, quotients and powers; other syntax is a malformed node with its size.
- The cast of formula results to float32 and the order of a report's dependency list.
- Filesystem, locks, fsync, storage admission and temporary files: tables are sequences of rows, files sequences of row groups, receipt directories maps.
- DeltaTables.ReadFeatureTable: compares checksums as opaque values and does not model files changing during a read, because the store is a value here.
- DeltaTables.ReadParquetPositions: takes positions as integers, so the refusal of booleans and other types is not modelled.
- DeltaWrites.WriteFeatureDelta: takes the catalogue's decision on each predictor as given, beyond the protected names, because it is a list of independent field checks.
- The normalisation of raw event records before correction resolution, the de-duplication by source observation after it, and calendar and time-zone handling: instants are integers.
- Event and attempt identifiers that only matter through their sort order are integers in that order.
- The Featuretools aggregates, the sequence windows and the race-relative features of the feature program; the fitting side of the adjusted-speed history.
- HistoryFeatures.DomainHistory: covers the elapsed-days, weight-change, plain-mean and recency-mean operations with grouping keys already formed, because the contexts differ only in how the key is built.
- FormulaEvaluation.PointInTimeOutputs: compares tables with equal availability times, because those decide what was known.
- ArchivedEvents.PointInTimeExactly: takes events that share an id to agree on horse, family, parent and group, and both archives as free of endless chains; with disagreeing duplicates list order already matters, and a later event that closes a cycle makes the whole resolution raise.
- FormulaEvaluation.EvaluateFormulas: does not tell apart the reasons for refusing, because the order in which several are found depends on the round.
- The HTTP exchange itself, the validation of a billing payload and a receipt appearing during a run: a request either yields a final charge for the attempt's own generation or does not.
- Billing.Recovery.Reconcile: does not model another process writing the same receipt at the same time, because a run here is the only writer.
- Rules-effective intervals, currencies of tickets and the age of quotes, beyond what settlement and the return matrix compare.
