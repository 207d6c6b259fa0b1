# Verified model of the financial-proof domain core

This Dafny project models the deterministic core of the repository and proves what it is for. Its parts are:

- **Simulate, attack, shrink.** A payment and an order are driven together through a stream of events. Adversarial
  scenarios duplicate and move events. Three shrinkers minimise failing inputs. The main results: every failing stream,
  whatever its length and its initial states, chunk-shrinks to one of a few event words (six from created states, and
  none of them can be left out); every executed scenario with a duplicate in it is rejected; a lone duplicate or a lone
  move is rejected at a known index and shrinks to a known word; prefix shrinking it is minimal exactly when it touches
  the first event; the counterexample of the demo pipeline is always a minimal one of two events.
- **Exactly-once execution.** The registry and its service are classes. A step-by-step protocol with any number of
  threads, any services and any schedule shows that every schedule in which no two locks are ever held at once gives a
  linearizable log, whichever services it runs on, and that every key executes at most once under all schedules
  exactly when different threads never call different services.
- **Replay, diff and accounting.** Transition replay accepts exactly the recorder's histories. A snapshot comparison is
  an exact patch. Evaluating a contract, analyzing the result and summing it by currency gives the direct sum over the
  failed constraints in each currency, and these sums add up to the whole exposure.
- **Small decision cores.** The proof evaluator's ready decision, and the bounds on tool arguments.

## How the model is built

- A raised exception is a value: `Result`, `Option`, or the `Rejected` outcome of a run with its error and the index of
  the rejected event. Constructor checks are subset types (`PaymentSimulation`, `AdversarialScenario`,
  `Counterexample`, `FinancialContract`, `ConfidenceScore`, ...), so a value of the type is one that the constructor
  accepted, and every rebuilt simulation or candidate scenario is proved to be one.
- Code that works step by step is a method with a loop. Its `ensures` equates its result with a specification
  function, and the lemmas are about that function: what it computes is stated a second time on the inputs' own fields
  (`ContractMeanings`, `ScenarioExecution`, `ComparisonReport`, and lemmas beside the others). `IdempotencyService` and `IdempotentExecutionService` are classes.
- A failure predicate is any total function on simulations or on scenarios. `Runner.Rejects` is the demo pipeline's
  predicate: the run raises one of the two transition errors.
- UUIDs and datetimes are integers; fresh ids and clock values are parameters where they are stored. Counterexample ids
  in snapshots are their canonical texts, which sort as the ids do. Decimals are exact reals.
- The contract validator is a parameter of the evaluator, as it is in the source, so the results hold for any validator.

## Where the code and its documentation differ

- `counterexample_shrinker.py:45` promises the shortest failing prefix. The loop stops at the first prefix that passes,
  so the promise holds exactly when failure is stable under appending (`ResultIsShortestIffStable`), and fails
  otherwise (`ResultNeedNotBeShortest`). The runner's failure is stable, for all initial states.
- `counterexample_shrinker.py:14` speaks of minimizing a failing simulation, but only prefixes are tried. Called with
  the runner's failure, as `api/routes/financial_simulation.py:303-307` does, it is one-minimal exactly when the stream
  up to its first rejected event is one of the listed words (`PrefixShrunkIsMinimalIffMinimalWord`), which for that
  route's single attacks means exactly when the attack touches the first event
  (`LoneAttackShrinksMinimallyIffItTouchesTheFirst`). The baseline AUTHORIZE, CAPTURE with its second event duplicated
  is an input for which it is not (`PrefixShrunkNeedNotBeMinimal`). The demo pipeline only ever duplicates the first
  event, so it keeps its promise of a minimal counterexample (`ShrinkDemoCounterexample`).
- `adversarial_scenario_shrinker.py:25` removes components in a single pass. On a given scenario that is one-minimal
  for every predicate exactly when all its components are equal (`OnePassSufficesIffComponentsAreEqual`). On any two
  different components a predicate misleads it (`OnePassNeedNotBeMinimal`), and so does the executor's own failure: on
  every accepted baseline with an event, three duplicates are shrunk to two although the first alone fails
  (`OnePassKeepsAnIdleDuplicate`). It is minimal on every scenario for every
  predicate that is preserved when components are added (`MonotoneShrinkingIsMinimal`).
- `adversarial_scenario_composer.py:9` builds deterministic scenarios. They are independent of the argument order
  exactly when no two different stale-worker components share an incoming sequence
  (`CompositionIgnoresOrderIffUnambiguous`).
- `idempotent_execution.py:9` promises exactly-once execution under concurrent retries. The lock belongs to a service
  and not to the registry, so the promise holds exactly when different threads never call different services
  (`ExecutesOnceIffOneLock`). Services that hand the registry over one after the other, as in
  `backend/tests/__init__.py`, keep it (`HandoverIsLinearizable`).

## Model

| member | source | states |
|---|---|---|
| Payments.ReachIsTheListedLanguage | backend/app/domain/services/payment_state_machine.py:20-34 | the words the payment table accepts, with their end states, are exactly ten listed shapes |
| Payments.AcceptedWordsNeverRepeat | backend/app/domain/services/payment_state_machine.py:20-34 | no accepted run has more than three events or applies one event kind twice |
| Payments.AcceptedWordsAreDeterminedByTheirEvents | backend/app/domain/services/payment_state_machine.py:20-34 | two accepted runs from one state with the same multiset of events are the same word |
| Runner.Run | backend/app/domain/services/payment_simulation_runner.py:86-160 | the loop returns the completed result with trace and snapshots, or the first error and its index |
| Runner.StoppedAtItsIndex | backend/app/domain/services/payment_simulation_runner.py:113-124 | a rejected run had completed every event before the index it names, and stops on the one at it |
| Lockstep.CompletedRunIsReplay | backend/app/domain/services/payment_simulation_runner.py:78-84 | a completed run ends in payment replay of its word and order replay of its word without refunds |
| Lockstep.CompletedRunEchoesTheSimulation | backend/app/domain/services/payment_simulation_runner.py:147-160 | a completed result carries the id, seed and initial states of its simulation, ends in the replays of the whole stream, and has an entry and a snapshot per event |
| Lockstep.CompletedRunIsAPaymentWord | backend/app/domain/services/payment_simulation_runner.py:113-124 | from any initial states a completed run is an accepted payment word, and moves nothing of the payment but its state |
| Lockstep.RejectedRunLeavesTheLanguage | backend/app/domain/services/payment_simulation_runner.py:113-124 | from any initial states the events before the rejected one are an accepted word, and the error is the payment's if and only if the rejected event leaves the language, and the order's otherwise |
| Lockstep.TraceIsReplayOfEveryPrefix | backend/app/domain/services/payment_simulation_runner.py:126-145 | every trace entry and snapshot shows the replays of the events before it and up to it, with that event's sequence, kind and time |
| Lockstep.TraceChains | backend/app/domain/services/payment_simulation_runner.py:126-160 | trace entries chain from the initial to the final payment and order |
| Lockstep.OrderTableIsTheProjectedPaymentTable | backend/app/domain/services/payment_state_machine.py:67-81 | through the projection the order table is the payment table, except that only payments refund and only orders cancel |
| Lockstep.RunFollowsThePayment | backend/app/domain/services/payment_simulation_runner.py:113-124 | from states in step, the order stays the projection of the payment, identities and amounts are kept, and a run stops with a payment error at the first event that leaves the payment language |
| Lockstep.OrderErrorsNeverEscapeIffInStep | backend/app/domain/services/payment_simulation_runner.py:77-84 | an order error can escape some run if and only if the initial states are out of step |
| Lockstep.OutOfStepRunsAreShort | backend/app/domain/services/payment_simulation_runner.py:77-124 | from states out of step nothing completes but the empty stream and a single FAIL |
| Lockstep.RejectionIsAPropertyOfTheWord | backend/app/domain/services/payment_simulation_runner.py:87-124 | from states in step a simulation is rejected if and only if the payment table rejects its word, and from other states if and only if its word is more than a FAIL that the order accepts |
| Replay.ReplayPayment | backend/app/domain/services/payment_replay.py:30-41 | the loop returns the payment after the word, or the first error |
| Replay.ReplayOrder | backend/app/domain/services/payment_replay.py:48-59 | the loop returns the order after the word, or the first error |
| Replay.PaymentReplayIsReach | backend/app/domain/services/payment_replay.py:30-41 | replay changes nothing but the state field, which moves as the payment language says |
| Replay.OrderReplayIsTheListedLanguage | backend/app/domain/services/payment_state_machine.py:67-81 | order replay accepts exactly eight listed shapes, changes nothing but the state, and otherwise raises the order's error |
| TransitionHistory.ReplayHistory | backend/app/domain/services/payment_transition_replay.py:18-48 | the loop returns the reconstructed payment, or the first of the four inconsistencies |
| TransitionHistory.RecorderAgreesWithEventReplay | backend/app/domain/services/payment_transition_recorder.py:18-35 | recording a word moves the payment exactly as event replay does, and fails exactly when it fails |
| TransitionHistory.ReplayAcceptsExactlyRecordedHistories | backend/app/domain/services/payment_transition_replay.py:24-48 | replay accepts a history if and only if the recorder writes it, up to ids and times, and then returns what event replay returns |
| TransitionHistory.ReplayNamesTheFirstInconsistency | backend/app/domain/services/payment_transition_replay.py:24-46 | a refused history replays up to some transition, and the error says which of the four things is wrong with that one |
| TransitionHistory.RecordedTransitionsShowEachStep | backend/app/domain/services/payment_transition_recorder.py:18-35 | each recorded transition has the payment's id, the event, the stamp, and the states that the payment language reaches before and after it |
| PrefixShrinker.ShrinkPrefix | backend/app/domain/services/counterexample_shrinker.py:59-101 | refuses an input that does not reproduce, else returns the shrunk prefix within the stated number of predicate calls |
| PrefixShrinker.ShrinkingStopsAtTheFirstGap | backend/app/domain/services/counterexample_shrinker.py:79-92 | for every predicate, the result and all longer prefixes reproduce and the next shorter one does not |
| PrefixShrinker.ResultIsShortestIffStable | backend/app/domain/services/counterexample_shrinker.py:45-101 | the result is the shortest failing prefix if and only if failure is stable under appending |
| PrefixShrinker.ResultNeedNotBeShortest | backend/app/domain/services/counterexample_shrinker.py:45-101 | a predicate for which any two-event simulation is left alone although its empty prefix fails |
| ChunkShrinker.TryChunks | backend/app/domain/services/counterexample_chunk_shrinker.py:93-111 | one pass finds the first removable chunk of a size, if there is one |
| ChunkShrinker.RemoveChunks | backend/app/domain/services/counterexample_chunk_shrinker.py:88-117 | the removal loop returns the specified simulation; its passes are bounded by removed events plus halvings plus one |
| ChunkShrinker.Shrink | backend/app/domain/services/counterexample_chunk_shrinker.py:63-126 | terminates with the shrunk simulation; with n events, m after the prefix phase and k at the end, at most n + 2 + m(m - k + halvings + 1) predicate calls, hence at most n + 2 + m(m + max(1, m/2)) |
| ChunkShrinker.ShrunkIsOneMinimal | backend/app/domain/services/counterexample_chunk_shrinker.py:83-117 | for every predicate the result reproduces, is a renumbered order-preserving subsequence by kind, time and id, and loses the failure when any single event is deleted |
| ChunkShrinker.ShrunkIsTheEndOfARun | backend/app/domain/services/counterexample_chunk_shrinker.py:83-117 | the result is what a run of passes ends in: from half the events, each pass removes the first removable chunk or halves the size, down to one |
| ChunkShrinker.HalvingsAreTheLogarithm | backend/app/domain/services/counterexample_chunk_shrinker.py:113-117 | the halvings in the call budget are the binary logarithm of the first chunk size, rounded down |
| MinimalFailures.RejectionIsStable | backend/app/demo/pipeline.py:256-265 | the runner's failure survives appending events, from any initial states |
| MinimalFailures.PrefixShrunkEndsAtTheRejectedEvent | backend/app/domain/services/counterexample_shrinker.py:79-92 | for the runner's failure the result is the shortest failing prefix, ending in the first rejected event with the same error |
| MinimalFailures.PrefixShrunkHasAtMostFourEvents | backend/app/domain/services/counterexample_shrinker.py:79-92 | from any initial states that result has one to four events |
| MinimalFailures.MinimalWordsAreTheMinimallyRejected | backend/app/domain/services/payment_state_machine.py:20-81 | from any initial states the listed words are exactly those that are rejected and run through without any one of their events |
| MinimalFailures.ChunkShrinkingReachesTheMinimalWords | backend/app/domain/services/counterexample_chunk_shrinker.py:83-117 | every failing stream, of any length and from any initial states, shrinks to one of the listed words, six of them from created states |
| MinimalFailures.FixedPointsAreTheMinimalWords | backend/app/domain/services/counterexample_chunk_shrinker.py:83-117 | the failing streams that shrinking leaves alone are exactly the streams of the listed words |
| MinimalFailures.MinimalityIsAPropertyOfTheWord | backend/app/domain/services/counterexample_chunk_shrinker.py:99-111 | from any initial states a simulation fails and is one-minimal if and only if its word is listed |
| MinimalFailures.PrefixShrunkIsMinimalIffMinimalWord | backend/app/domain/services/counterexample_shrinker.py:14-101 | for the runner's failure the prefix shrinker's result is one-minimal if and only if the stream up to its first rejected event is a listed word |
| MinimalFailures.ShrinkersAgreeWherePrefixesAreMinimal | backend/app/domain/services/counterexample_chunk_shrinker.py:63-126 | where the prefix shrinker's result is one-minimal the chunk shrinker returns the same |
| Counterexamples.ShrinkCounterexample | backend/app/demo/pipeline.py:296-307 | building the minimized counterexample never raises: it succeeds if and only if the simulation fails, and never counts more events than before |
| Counterexamples.CounterexamplesAreCheckedInOrder | backend/app/domain/models/counterexample.py:17-46 | a counterexample is accepted if and only if it is of its own simulation, named and counts its events; otherwise the first fault is raised |
| Text.BlankMeansAllWhitespace | backend/app/domain/models/counterexample.py:23 | a text strips to nothing if and only if all of its characters are whitespace |
| Text.WhitespaceIsListed | backend/app/domain/models/counterexample.py:23 | the whitespace characters are the twenty-nine that `str.strip` removes |
| DemoPipeline.SimulationsCarryTheirSeed | backend/app/demo/seed.py:84-112 | the built simulation has the seed's stream and ids, and a created payment and order of one amount that belong together |
| DemoPipeline.RunAttack | backend/app/demo/pipeline.py:143-165 | the attack executes if and only if the seed's stream is contiguous, not empty and accepted, and gives the first event twice |
| DemoPipeline.BuildVerification | backend/app/demo/pipeline.py:178-253 | succeeds if and only if the seed is sound and the contract can be evaluated; the comparison shows one event more, the new codes and a failure; the verification passes if and only if the evaluation does; the counterexample carries the first of the codes |
| DemoPipeline.FirstEventTwiceIsMinimal | backend/app/demo/pipeline.py:296-299 | for every accepted created stream the prefix-shrunk attack is one-minimal, two copies of the first event, AUTHORIZE or FAIL, and what the chunk shrinker gives |
| DemoPipeline.ShrinkDemoCounterexample | backend/app/demo/pipeline.py:284-307 | returns a counterexample if and only if the seed is sound and the contract is evaluated and violated, and then a one-minimal one of exactly two events under the first violation code |
| Streams.MovingBackRestores | backend/app/domain/services/adversarial_scenario_executor.py:87-90 | moving s to t and then t to s restores the stream |
| Streams.MovingConserves | backend/app/domain/services/adversarial_scenario_executor.py:87-95 | a move keeps the multiset of events |
| Streams.DuplicatingAddsOneCopy | backend/app/domain/services/adversarial_scenario_executor.py:111-114 | a duplicate adds exactly one copy of its target |
| Scenarios.MakeScenario | backend/app/domain/models/adversarial_scenario.py:28-52 | the constructor accepts exactly the scenarios of one simulation with ordered stale workers and distinct targets, and names the first fault otherwise |
| Scenarios.ValidScenarioOnItsFields | backend/app/domain/models/adversarial_scenario.py:28-52 | the valid scenarios are those of one simulation, without a stale worker whose incoming sequence is newer, and without two equal targets |
| Scenarios.TypeNamesAreClassNames | backend/app/domain/services/adversarial_scenario_executor.py:184-190 | the type name of a component is the name of its class, written out for all nine classes |
| Executor.ApplyOutOfOrder | backend/app/domain/services/adversarial_scenario_executor.py:81-103 | pop and insert give the stream described position by position by the move |
| Executor.ApplyDuplicate | backend/app/domain/services/adversarial_scenario_executor.py:105-127 | insert gives the stream described position by position by the duplicate |
| Executor.ApplyComponent | backend/app/domain/services/adversarial_scenario_executor.py:129-182 | one component is checked against the current stream and applied, passed over, or refused |
| Executor.Execute | backend/app/domain/services/adversarial_scenario_executor.py:139-198 | runs the baseline, applies the components in order and records an outcome for each, or returns the first error |
| ScenarioExecution.ScenarioExecutesIffEveryComponentFits | backend/app/domain/services/adversarial_scenario_executor.py:129-182 | a scenario executes if and only if it is the accepted simulation's own and every component is supported and in range in the stream as the earlier ones left it; otherwise the error is that of the first one that is not |
| ScenarioExecution.OutcomesNameTheComponents | backend/app/domain/services/adversarial_scenario_executor.py:184-198 | outcome i carries the class name of component i and its target, incoming sequence or nothing, and the result carries the simulation, the scenario and the baseline's run |
| ScenarioExecution.LoneSemanticFaultChangesNothing | backend/app/domain/services/adversarial_scenario_executor.py:154-175 | a lone semantic fault executes if and only if its sequence lies in the stream, and leaves the simulation as it was |
| ScenarioExecution.SemanticFaultsCanBeDropped | backend/app/domain/services/adversarial_scenario_executor.py:162-175 | dropping a semantic fault from an executed component list changes nothing about the attacked simulation |
| Injectors.InjectOutOfOrder | backend/app/domain/services/out_of_order_event_injector.py:12-69 | refuses exactly the bad positions and otherwise gives the stream that the executor gives |
| Injectors.InjectDelay | backend/app/domain/services/delayed_event_injector.py:12-64 | a delay is the executor's move by one place, and the identity on the last event |
| Injectors.DuplicateInjectorAgreesWithTheExecutor | backend/app/domain/services/duplicate_event_injector.py:27-57 | the injected stream is the executor's but for the copy's fresh id |
| Injectors.DuplicateInjectorRefusesBadTargets | backend/app/domain/services/duplicate_event_injector.py:20-57 | negative targets and those behind the stream are refused, all others accepted |
| Injectors.ExecutedMoveIsUndoneByTheMoveBack | backend/app/domain/services/adversarial_scenario_executor.py:81-103 | executing a move and the move back gives the original simulation |
| Attacks.ScenariosConserveEvents | backend/app/domain/services/adversarial_scenario_executor.py:154-190 | whatever the scenario, the events afterwards are the events before plus one copy of an original event per duplicate, in a contiguous stream |
| Attacks.ScenarioWithADuplicateIsRejected | backend/app/domain/services/adversarial_scenario_executor.py:59-63 | from any initial states, every executed scenario of an accepted baseline with at least one duplicate, mixed with anything, makes the run raise InvalidPaymentTransition |
| Attacks.ShrunkAttacksKeepBaselineEvents | backend/app/domain/services/counterexample_chunk_shrinker.py:99-111 | attacking and shrinking never bring in an event kind that the baseline did not have |
| Attacks.DuplicateScenariosShrinkToFiveWords | backend/app/domain/services/counterexample_chunk_shrinker.py:83-117 | for every accepted baseline and executed scenario with a duplicate, shrinking ends in a listed word and never in the cancellation; from created states it ends in one of five words |
| LoneAttacks.LoneDuplicateIsRejectedAtItsCopy | backend/app/domain/services/adversarial_scenario_executor.py:105-127 | from any initial states the scenario of a duplicate at t executes, is rejected at index t + 1, and prefix shrinking returns t + 2 events |
| LoneAttacks.LoneMoveIsRejected | backend/app/domain/services/adversarial_scenario_executor.py:81-103 | from any initial states the scenario of an in-range move of an accepted baseline executes and is rejected at its first displaced position, or one later for AUTHORIZE, FAIL |
| LoneAttacks.LoneAttackFailsIffItRewrites | backend/app/domain/services/adversarial_scenario_executor.py:129-198 | a scenario of one component makes an accepted baseline fail if and only if it is a duplicate or a move with its positions in the stream |
| LoneAttacks.LoneAttackShrinksMinimallyIffItTouchesTheFirst | backend/app/api/routes/financial_simulation.py:274-307 | from any initial states the prefix shrinker's counterexample of a single attack is one-minimal if and only if the attack touches the first event |
| LoneAttacks.PrefixShrunkNeedNotBeMinimal | backend/app/api/routes/financial_simulation.py:274-307 | AUTHORIZE, CAPTURE with the second event duplicated is returned unchanged although it is not minimal |
| LoneAttacks.LoneDuplicateShrinksToItsEvent | backend/app/domain/services/counterexample_chunk_shrinker.py:83-117 | from any initial states chunk shrinking a lone duplicate ends in its event, once if the initial state rejects it and else twice |
| LoneAttacks.LoneMoveShrinksToTheFirstDisplacedEvent | backend/app/domain/services/counterexample_chunk_shrinker.py:83-117 | from any initial states chunk shrinking a lone move ends in the first displaced event, or in FAIL, AUTHORIZE when AUTHORIZE, FAIL are exchanged |
| LoneAttacks.EachOfTheFiveWordsIsReached | backend/app/domain/services/counterexample_chunk_shrinker.py:83-117 | for each of the five words there is a created baseline and an executed scenario with a duplicate that shrinks to it |
| Sorting.SortingIsStable | backend/app/domain/services/adversarial_scenario_composer.py:33-38 | elements with equal keys keep their order |
| Sorting.StringAtMostMeansPrecedes | backend/app/domain/services/adversarial_scenario_composer.py:33-38 | a string is at most another if and only if it is the same, ends first, or has the smaller character where they first differ |
| Sorting.OrderedListsOfTheSameElementsAgree | backend/app/domain/services/adversarial_scenario_composer.py:33-38 | when keys identify elements there is one ordered list of them |
| Composer.Compose | backend/app/domain/services/adversarial_scenario_composer.py:22-43 | returns the ordered scenario, or the first check that refuses the components |
| Composer.ComposedListIsInOrder | backend/app/domain/services/adversarial_scenario_composer.py:12-43 | the composed list has the given components in ascending order of target or incoming sequence (0 for a bare attack), then of class name, and equal ones in argument order |
| Composer.CompositionFailsOnTheFirstFault | backend/app/domain/services/adversarial_scenario_composer.py:22-43 | composition refuses foreign components, then stale workers with a newer incoming sequence, then shared targets, and nothing else |
| Composer.CompositionIgnoresOrderIffUnambiguous | backend/app/domain/services/adversarial_scenario_composer.py:12-43 | all permutations of a valid list compose alike if and only if stale workers with one incoming sequence are the same component |
| ScenarioShrinker.ShrinkScenario | backend/app/domain/services/adversarial_scenario_shrinker.py:19-51 | refuses an input that does not reproduce, else returns the one-pass result after exactly one call per component and one more |
| ScenarioShrinker.SubscenariosAreValid | backend/app/domain/models/adversarial_scenario.py:28-52 | every sub-scenario of a valid scenario is valid, so no candidate's construction raises |
| ScenarioShrinker.ScenarioShrinkingIsSound | backend/app/domain/services/adversarial_scenario_shrinker.py:32-51 | for every predicate the result reproduces and keeps an order-preserving part of the components |
| ScenarioShrinker.MonotoneShrinkingIsMinimal | backend/app/domain/services/adversarial_scenario_shrinker.py:32-51 | for a predicate preserved under adding components no proper sub-scenario of the result reproduces |
| ScenarioShrinker.OnePassSufficesIffComponentsAreEqual | backend/app/domain/services/adversarial_scenario_shrinker.py:25-51 | on a scenario one pass gives a one-minimal result for every predicate if and only if all its components are equal |
| ScenarioFailures.DuplicatesBreak | backend/app/domain/services/adversarial_scenario_executor.py:154-190 | a scenario of duplicates makes an accepted baseline fail if and only if each target lies in the stream as the ones before it have left it |
| ScenarioFailures.OnePassKeepsAnIdleDuplicate | backend/app/domain/services/adversarial_scenario_shrinker.py:32-51 | on every accepted baseline of n > 0 events, duplicates at 0, n, n + 1 are shrunk to those at 0, n although the one at 0 alone fails |
| ScenarioFailures.OnePassSufficesIffNothingCanBreak | backend/app/domain/services/adversarial_scenario_shrinker.py:25-51 | for the executor's failure one pass is one-minimal on every scenario if and only if the baseline is rejected or empty |
| ScenarioShrinker.OnePassNeedNotBeMinimal | backend/app/domain/services/adversarial_scenario_shrinker.py:32-51 | for any two different components, a predicate for which one pass keeps the first although the empty scenario reproduces |
| Idempotency.IdempotencyService.constructor | backend/app/domain/services/idempotency.py:14-15 | a new registry is empty |
| Idempotency.IdempotencyService.Lookup | backend/app/domain/services/idempotency.py:17-23 | returns the record under the key, if there is one |
| Idempotency.IdempotencyService.Record | backend/app/domain/services/idempotency.py:25-43 | stores a record under a new key, returns an equal one, raises on a different one, and never overwrites |
| Idempotency.IdempotentExecutionService.constructor | backend/app/domain/services/idempotent_execution.py:11-13 | the service uses the registry it is given |
| Idempotency.IdempotentExecutionService.Execute | backend/app/domain/services/idempotent_execution.py:15-44 | one uninterrupted call: the new registry and the outcome; the duplicate-key error never escapes |
| Idempotency.RecordsPersist | backend/app/domain/services/idempotency.py:31-43 | a record is never changed or dropped by later calls |
| Idempotency.ExactlyOnce | backend/app/domain/services/idempotent_execution.py:20-44 | of two returning calls on one key the later one is a replay with the earlier one's fingerprint, so a key executes at most once |
| Idempotency.OutcomesFollowFromTheEarlierCalls | backend/app/domain/services/idempotent_execution.py:20-44 | the first call on a key executes unless its fingerprint is blank; after a call that returned, one with its fingerprint is a replay and one with another is refused |
| Idempotency.ReplaysFollowAnExecution | backend/app/domain/services/idempotent_execution.py:23-32 | every replay has an earlier execution of its key with that fingerprint |
| Idempotency.RaisingCallsChangeNothing | backend/app/domain/services/idempotent_execution.py:23-37 | a raising call leaves the registry as it was and never raises the duplicate-key error |
| LockProtocol.LocksStayExclusive | backend/app/domain/services/idempotent_execution.py:20 | on every schedule of every deployment a thread is inside a service's lock if and only if it holds it |
| LockProtocol.NoDeadlock | backend/app/domain/services/idempotent_execution.py:20 | in every deployment, while some thread is in a call some thread can take a step |
| LockProtocol.HandoverIsLinearizable | backend/tests/__init__.py:6-71 | in every deployment, a schedule in which no two locks are ever held at once finishes the calls of a sequential caller, and the registry is theirs up to the call in flight |
| LockProtocol.OneLockIsLinearizable | backend/app/domain/services/idempotent_execution.py:20-44 | when different threads never call different services, every schedule finishes the calls of a sequential caller, and the registry is theirs up to the call in flight |
| LockProtocol.DuplicateKeyIsUnreachable | backend/app/domain/services/idempotency.py:31-40 | in every deployment, no schedule in which no two locks are held at once reaches the duplicate-key error |
| LockProtocol.BothThenExecute | backend/app/domain/services/idempotent_execution.py:13 | after two threads on two locks both looked a key up, both report that they executed it |
| LockProtocol.ExecutesOnceIffOneLock | backend/app/domain/services/idempotent_execution.py:13-44 | every schedule executes each key at most once if and only if different threads never call different services |
| LockProtocol.DuplicateKeyNeverRaisedIffOneLock | backend/app/domain/services/idempotency.py:31-40 | no schedule ends a call in the duplicate-key error if and only if different threads never call different services |
| StringSets.SortedSetIsInOrder | backend/app/domain/services/verification_comparison.py:25-27 | the listing of a set is in order and has one place per element |
| Comparison.Compare | backend/app/domain/services/verification_comparison.py:17-112 | the loops give the specified comparison |
| ComparisonReport.ComparisonNamesItsSnapshots | backend/app/domain/services/verification_comparison.py:95-108 | ids are those of the two arguments in turn, a version flag is off if and only if the versions are the same, and a regression is a new violation |
| ComparisonReport.ListsAreAscendingDifferences | backend/app/domain/services/verification_comparison.py:46-93 | every list is strictly ascending and has exactly the members of one side that the other lacks |
| ComparisonReport.ChangesShowTheDifferences | backend/app/domain/services/verification_comparison.py:29-69 | a change is listed if and only if it shows a field's two different values, or a violation absent before and present after, or conversely |
| ComparisonReport.ChangesAscendByField | backend/app/domain/services/verification_comparison.py:71 | the changes ascend by field; at one field a baseline change comes before a violation, and none is repeated |
| ComparisonReport.ComparingWithItselfFindsNothing | backend/app/domain/services/verification_comparison.py:17-109 | a snapshot compared with itself lists nothing and raises no flag |
| Comparison.ChangesAreExactlyTheDifferences | backend/app/domain/services/verification_comparison.py:29-71 | a change is listed if and only if it is a baseline value that differs, an introduced or a resolved violation |
| Comparison.ComparisonIsAPatch | backend/app/domain/services/verification_comparison.py:25-83 | the old baseline patched with the comparison is the new baseline, keys whose value is None included |
| Comparison.ComparisonPatchesTheSets | backend/app/domain/services/verification_comparison.py:43-93 | the violation and counterexample lists turn the old sets into the new ones |
| Comparison.ComparingBackwardsReversesChanges | backend/app/domain/services/verification_comparison.py:29-71 | a change is listed one way if and only if its reverse is listed the other way |
| Comparison.ComparingBackwardsSwaps | backend/app/domain/services/verification_comparison.py:43-109 | swapping the arguments swaps the violation, key and counterexample lists and the snapshot ids, keeps the two version flags and undoes the patch |
| Comparison.PassingMeansNoNewViolation | backend/app/domain/services/verification.py:26-42 | verification passes if and only if the new violations are among the old ones, and reports exactly the new ones |
| ComparisonReport.VerificationListsTheIntroducedViolations | backend/app/domain/services/verification.py:26-49 | verification names both snapshots and lists the introduced violations in ascending order |
| Comparison.PassingIsTransitive | backend/app/domain/services/verification.py:26-42 | passing each step of a chain of snapshots passes from its first to its last |
| Contracts.EvaluateConditions | backend/app/domain/services/contract_evaluator.py:75-97 | appends a violation for each failed rule in order, or raises on unordered values |
| Contracts.EvaluateFinancialConstraints | backend/app/domain/services/contract_evaluator.py:144-163 | appends a violation for each failed constraint in order, or raises on unordered values |
| Contracts.EvaluateAuthorizations | backend/app/domain/services/contract_evaluator.py:195-221 | appends a violation for each authorization that the context does not meet |
| Contracts.EvaluateTemporalRules | backend/app/domain/services/contract_evaluator.py:249-283 | appends a violation for each rule without a datetime or outside its range |
| Contracts.Evaluate | backend/app/domain/services/contract_evaluator.py:33-73 | a refused contract is not evaluated further; an accepted one is, section by section, and passes when nothing is violated |
| Contracts.ConstraintsCompareAmounts | backend/app/domain/services/contract_evaluator.py:165-193 | a constraint compares a number's amount as its operator says, fails on a missing field, and raises when it orders another kind |
| ContractMeanings.ConditionsMeanWhatTheirOperatorsSay | backend/app/domain/services/contract_evaluator.py:99-142 | a condition holds if and only if its operator is satisfied by the context value: presence, equality, order by amount, code points or time, membership; it raises if and only if it orders a present value against one without an order |
| ContractMeanings.ConditionsCompareAmounts | backend/app/domain/services/contract_evaluator.py:99-142 | on two numbers, of whatever kinds, a condition compares the context's amount with its own |
| ContractMeanings.ConstraintsMeanWhatTheirOperatorsSay | backend/app/domain/services/contract_evaluator.py:164-193 | a constraint holds if and only if the value is a number whose amount fits, or no number and the operator is NOT_EQUALS; it raises if and only if it orders another kind |
| ContractMeanings.AuthorizationsMeanTheirThreeParts | backend/app/domain/services/contract_evaluator.py:223-247 | an authorization matches if and only if actor, action and resource of the context are its own |
| ContractMeanings.TemporalRulesMeanTheirRelations | backend/app/domain/services/contract_evaluator.py:285-308 | a temporal rule matches if and only if the datetime stands before, at or after its start as the relation allows, and not behind the end of an interval |
| ContractMeanings.EvaluationPassesIffEverythingIsMet | backend/app/domain/services/contract_evaluator.py:33-73 | an evaluation passes if and only if the validator finds nothing and every condition, constraint, authorization and temporal rule is satisfied by the context values |
| ContractMeanings.EvaluationReportsTheUnmetParts | backend/app/domain/services/contract_evaluator.py:50-97 | the violations of an accepted contract are those of its unsatisfied parts, each once, in order and with its own rule, field and reason |
| ContractMeanings.EvaluationRaisesIffSomethingHasNoOrder | backend/app/domain/services/contract_evaluator.py:33-73 | an evaluation raises if and only if the contract is accepted and some condition or constraint orders values that have no order |
| ContractMeanings.RefusedContractsReportTheirErrors | backend/app/domain/services/contract_evaluator.py:38-48 | a refused contract fails with one validation violation for each error |
| BlastRadius.Analyze | backend/app/domain/services/financial_blast_radius.py:16-75 | the exposures of the violations, each of which meets the exposure record's own checks |
| BlastRadius.TotalsByCurrency | backend/app/domain/models/financial_blast_radius.py:91-111 | the dictionary has exactly the currencies that occur, each with the sum of its amounts, and its values and the amounts without a currency add up to the total exposure |
| BlastRadius.CurrencyTotalsAddUp | backend/app/domain/models/financial_blast_radius.py:91-111 | over any list that has each occurring currency once, the currency totals and the amounts without a currency add up to the total exposure |
| BlastRadius.EvaluateThenAnalyze | backend/app/domain/services/financial_blast_radius.py:28-71 | in every currency the exposure is the direct sum of absolute actual values over the failed constraints with a Decimal, each once; a refused contract exposes nothing |
| BlastRadius.AnalysisListsTheLosses | backend/app/domain/services/financial_blast_radius.py:28-71 | each constraint with a currency that a Decimal does not meet gives one exposure, in order: its magnitude, all of it direct loss, actual and maximum |
| BlastRadius.CalculateFinancialExposure | backend/app/demo/pipeline.py:267-282 | evaluating, analyzing and summing gives a dictionary of the currencies in which a constraint on a Decimal failed, each with the direct sum over the failed constraints; its values add up to the total exposure; a refused contract exposes nothing |
| ProofEvaluation.Evaluate | backend/app/domain/services/proof_evaluator.py:96-184 | returns the specified evaluation; READY if and only if all claims are verified or supported and their confidences add up to the ready threshold for each; INVALID if and only if a claim is contradicted; the confidence is the mean |
| ProofEvaluation.ReadyMeansSupportedAndConfident | backend/app/domain/services/proof_evaluator.py:112-184 | a list is ready if and only if all claims are verified or supported and the sum of confidences reaches the ready threshold times their number |
| ProofEvaluation.ReasonsAreThoseThatApply | backend/app/domain/services/proof_evaluator.py:101-178 | each reason is given if and only if its condition on the claims holds, in the fixed order; no claims, a contradiction or nothing amiss give their one reason |
| ProofEvaluation.MeanComparesAsTheSumDoes | backend/app/domain/services/proof_evaluator.py:187-196 | the mean, once for each claim, gives the sum of confidences, and is below a threshold if and only if the sum is below that many thresholds |
| ProofEvaluation.MeanLiesBetweenTheConfidences | backend/app/domain/services/proof_evaluator.py:187-196 | the mean lies between any bounds on the confidences |
| ProofEvaluation.TotalsAddUp | backend/app/domain/services/proof_evaluator.py:191-194 | the sum of confidences is a single claim's confidence, and additive |
| ProofEvaluation.SupportedCountsAddUp | backend/app/domain/services/proof_evaluator.py:203-210 | the supported count is one for a verified or supported claim and zero for another, and additive |
| ProofEvaluation.OnlyTheReadyThresholdMatters | backend/app/domain/services/proof_evaluator.py:141-178 | the ratio and review thresholds never change the status |
| ProofEvaluation.EvaluationIgnoresClaimOrder | backend/app/domain/services/proof_evaluator.py:96-212 | the evaluation is the same for every order of the claims |
| ProofEvaluation.MeanAndRatioLieInTheUnitInterval | backend/app/domain/services/proof_evaluator.py:187-212 | the mean confidence and the supported ratio of any claims lie in the unit interval, and the ratio is one if and only if every claim is supported |
| ToolSecurity.AcceptedValuesAreSmall | backend/app/application/ai_investigation/security.py:71-120 | an accepted value has at most 33,825 nodes |
| ToolSecurity.SomeValueMeetsTheBound | backend/app/application/ai_investigation/security.py:16-20 | the bound is reached by an accepted value |
| ToolSecurity.AcceptedIffWithinLimitsAndShallow | backend/app/application/ai_investigation/security.py:71-120 | a value is accepted if and only if every string, name, collection and type in it is within the limits and nothing lies more than three levels deep |
| ToolSecurity.AcceptedRequestsCarryAtMostOneValue | backend/app/application/ai_investigation/security.py:22-69 | an accepted request carries no argument, or one bounded value for the contract inspection |
| ToolSecurity.RequestsAreAcceptedIffEveryArgumentIsTaken | backend/app/application/ai_investigation/security.py:34-69 | a request is accepted if and only if it has at most 16 arguments and each is the contract inspection's flag with a value within the limits |
| ToolSecurity.RefusalsNameTheFirstBadArgument | backend/app/application/ai_investigation/security.py:34-120 | a refusal names too many arguments, or something that is wrong with the first argument that is not taken |

## Left out

- The routes, schemas, persistence, gateway, guardian and AI orchestration layers are not part of this model, nor is
  the demo pipeline's compilation of its contract and its investigation.
- Logging, metrics and observability calls inside the modelled functions have no effect on their results.
- `create_events` draws from a random generator; simulations here carry their events.
- The amount and currency checks of payments and orders: a transition copies those fields, so it cannot fail them.
- The concrete contract validator is the evaluator's parameter; its checks of names, versions and duplicates are not modelled.
- Messages, violation ids and explanations, which no modelled decision reads.
- Decimal rounding and NaN, floats, and datetimes with mixed time zones in contract contexts.
- Context values that are collections; collections occur only as the right side of membership conditions.
- Nested mappings of tool arguments are lists of entries; that their keys are distinct is not used.
- Snapshot baseline values are compared by Python's equality, which is a parameter type here.
- The inner loop of the chunk shrinker, its removal passes, the executor's loop body and the comparison's loops are
  methods of their own here; in the source each is a part of one method.
- Constructor checks of names in conditions, rules, authorizations and temporal rules, and of temporal ends:
  evaluation needs none of them.
- Timestamps and ids of evaluation results, and the proof record that copies an evaluation.
- LockProtocol.OneLockIsLinearizable: says nothing about fairness or about a thread that dies while it holds the lock.
