/** The demo pipeline from its seed to the minimised counterexample. */
module DemoPipeline {
  import opened Results
  import opened Text
  import opened Payments
  import opened Simulations
  import opened Runner
  import opened Streams
  import opened Sorting
  import opened StringSets
  import opened Scenarios
  import opened Executor
  import opened PrefixShrinker
  import opened ChunkShrinker
  import opened MinimalFailures
  import opened Counterexamples
  import opened LoneAttacks
  import Composer
  import Comparison
  import ComparisonReport
  import Contracts
  import Lockstep

  datatype DemoSeed = DemoSeed(
    seed: int, orderId: Uuid, paymentId: Uuid, simulationId: Uuid, amountMinor: int, currency: string,
    startTime: Timestamp, events: seq<SimulationEvent>)

  /** What a run of the pipeline takes from outside: versions, fresh ids, and the contract with its validator. */
  datatype Setting = Setting(
    contract: Contracts.FinancialContract, context: Contracts.Context, validator: Contracts.Validator,
    contractVersion: string, systemVersion: string, beforeId: Uuid, afterId: Uuid, counterexampleId: string)

  datatype DemoError =
    | StreamNotContiguous
    | BaselineNotRun(transition: TransitionError)
    | NotComposed(composition: ScenarioError)
    | NotExecuted(execution: ExecutionError)
    | NotEvaluated(evaluation: Contracts.EvaluationError)
    | NotRecorded(construction: CounterexampleError)
    | PassingVerification
    | NotMinimized(pipeline: PipelineError)

  /** The seed's simulation: its payment and its order are created anew. */
  function SimulationOf(seed: DemoSeed): PaymentSimulation
    requires Contiguous(seed.events)
  {
    SimulationFields(
      seed.seed,
      Payment(seed.orderId, seed.amountMinor, seed.currency, PaymentState.Created, seed.paymentId, seed.startTime),
      PaymentOrder(seed.amountMinor, seed.currency, OrderState.Created, seed.orderId, seed.startTime),
      seed.events, seed.simulationId)
  }

  /** The simulation has the seed's stream, and a created payment and order of one amount that belong together. */
  lemma SimulationsCarryTheirSeed(seed: DemoSeed)
    requires Contiguous(seed.events)
    ensures var s := SimulationOf(seed);
            && s.id == seed.simulationId && s.seed == seed.seed && s.events == seed.events
            && s.initialPayment.id == seed.paymentId && s.initialPayment.orderId == s.initialOrder.id == seed.orderId
            && s.initialPayment.amountMinor == s.initialOrder.amountMinor == seed.amountMinor
            && s.initialPayment.currency == s.initialOrder.currency == seed.currency
            && s.initialPayment.createdAt == s.initialOrder.createdAt == seed.startTime
            && StartsCreated(s)
  {
  }

  /** The seed's stream is a stream, has an event and is accepted. */
  predicate Sound(seed: DemoSeed) {
    Contiguous(seed.events) && seed.events != [] && !Rejects(SimulationOf(seed))
  }

  /** The seed's simulation with its first event delivered twice. */
  function AttackedSimulation(seed: DemoSeed): PaymentSimulation
    requires Contiguous(seed.events) && seed.events != []
  {
    WithEvents(SimulationOf(seed), Duplicated(seed.events, 0))
  }

  method BuildSimulation(seed: DemoSeed) returns (r: Result<PaymentSimulation, DemoError>)
    ensures r == if Contiguous(seed.events) then Ok(SimulationOf(seed)) else Err(StreamNotContiguous)
  {
    if Contiguous(seed.events) {
      r := Ok(SimulationOf(seed));
    } else {
      r := Err(StreamNotContiguous);
    }
  }

  lemma ComposingOneComponent(simulationId: Uuid, c: Component)
    requires Belongs(simulationId, c)
    ensures Composer.Composed(simulationId, [c]) == Ok(LoneScenario(c))
  {
    assert Sorted([c], Composer.OrderingKey) == [c];
  }

  /** The attack always succeeds on a sound seed, and on no other. */
  method RunAttack(seed: DemoSeed) returns (r: Result<ExecutionResult, DemoError>)
    ensures r.Ok? <==> Sound(seed)
    ensures r.Ok? ==> r.value.adversarialSimulation == AttackedSimulation(seed)
    ensures r.Ok? ==>
              Executed(SimulationOf(seed), LoneScenario(DuplicateEvent(seed.simulationId, 0))) == Ok(r.value)
  {
    var built := BuildSimulation(seed);
    if built.Err? {
      return Err(built.error);
    }
    var simulation := built.value;
    var attack := DuplicateEvent(simulation.id, 0);
    ComposingOneComponent(simulation.id, attack);
    if !Rejects(simulation) {
      LoneAttackIsItsRewriting(simulation, attack);
    }
    var composed := Composer.Compose(simulation, [attack]);
    match composed
    case Err(error) => r := Err(NotComposed(error));
    case Ok(scenario) =>
      var executed := Execute(simulation, scenario);
      match executed
      case Err(error) => r := Err(NotExecuted(error));
      case Ok(execution) => r := Ok(execution);
  }

  /** The text of a reason code. */
  function ReasonText(code: Contracts.ReasonCode): (s: string)
    ensures !Blank(s)
  {
    match code
    case ContractValidation => "contract_validation"
    case RuleFailed(Precondition) => "precondition_failed"
    case RuleFailed(Invariant) => "invariant_failed"
    case RuleFailed(Postcondition) => "postcondition_failed"
    case FinancialConstraintFailed => "financial_constraint_failed"
    case AuthorizationFailed => "authorization_failed"
    case TemporalValueMissing => "temporal_value_missing"
    case TemporalRuleFailed => "temporal_rule_failed"
  }

  /** The text is that of the reason code. */
  predicate Reads(code: Contracts.ReasonCode, text: string) {
    || (code.ContractValidation? && text == "contract_validation")
    || (code.RuleFailed? && code.ruleType.Precondition? && text == "precondition_failed")
    || (code.RuleFailed? && code.ruleType.Invariant? && text == "invariant_failed")
    || (code.RuleFailed? && code.ruleType.Postcondition? && text == "postcondition_failed")
    || (code.FinancialConstraintFailed? && text == "financial_constraint_failed")
    || (code.AuthorizationFailed? && text == "authorization_failed")
    || (code.TemporalValueMissing? && text == "temporal_value_missing")
    || (code.TemporalRuleFailed? && text == "temporal_rule_failed")
  }

  /** The text is the first, in ascending order, among those of the violations. */
  ghost predicate IsFirstCode(text: string, violations: seq<Contracts.Violation>) {
    && (exists v :: v in violations && Reads(v.reasonCode, text))
    && forall v, other | v in violations && Reads(v.reasonCode, other) :: text == other || Precedes(text, other)
  }

  lemma TextsAreRead(code: Contracts.ReasonCode, text: string)
    ensures Reads(code, text) <==> text == ReasonText(code)
  {
  }

  lemma SmallestCodeIsFirst(violations: seq<Contracts.Violation>, sorted: seq<string>)
    requires sorted == Sorted(Codes(violations), StringKey) && sorted != []
    ensures IsFirstCode(sorted[0], violations)
  {
    var codes := Codes(violations);
    SortingPermutes(codes, StringKey);
    SortingSorts(codes, StringKey);
    SameElements(codes, sorted, sorted[0]);
    var i :| 0 <= i < |codes| && codes[i] == sorted[0];
    TextsAreRead(violations[i].reasonCode, sorted[0]);
    assert violations[i] in violations;
    forall v, other | v in violations && Reads(v.reasonCode, other)
      ensures sorted[0] == other || Precedes(sorted[0], other)
    {
      TextsAreRead(v.reasonCode, other);
      var k :| 0 <= k < |violations| && violations[k] == v;
      assert codes[k] == other;
      SameElements(codes, sorted, other);
      SmallestIsFirst(sorted, StringKey, other);
      StringAtMostMeansPrecedes(sorted[0], other);
    }
  }

  function Codes(violations: seq<Contracts.Violation>): (r: seq<string>)
    ensures |r| == |violations| && forall code | code in r :: !Blank(code)
  {
    seq(|violations|, i requires 0 <= i < |violations| => ReasonText(violations[i].reasonCode))
  }

  /** A baseline value of the two snapshots. */
  datatype Observed = Identifier(id: Uuid) | Count(events: nat) | Passed(on: bool)

  function SnapshotOf(
    setting: Setting, snapshotId: Uuid, simulationId: Uuid, events: nat, passed: bool,
    violations: seq<string>, counterexampleIds: seq<string>): Comparison.Snapshot<Observed>
  {
    Comparison.Snapshot(
      snapshotId, setting.contractVersion, setting.systemVersion,
      map["simulation_id" := Some(Identifier(simulationId)), "event_count" := Some(Count(events)),
          "passed" := Some(Passed(passed))],
      violations, counterexampleIds)
  }

  lemma EvaluationPassesWithoutViolations(setting: Setting)
    requires Contracts.Evaluated(setting.contract, setting.context, setting.validator).Ok?
    ensures var evaluation := Contracts.Evaluated(setting.contract, setting.context, setting.validator).value;
            evaluation.passed <==> evaluation.violations == []
  {
  }

  /** The sorted codes of an evaluation: none of them is blank, and there are none exactly without violations. */
  function SortedCodes(violations: seq<Contracts.Violation>): (r: seq<string>)
    ensures r == [] <==> violations == []
    ensures r != [] ==> !Blank(r[0]) && IsFirstCode(r[0], violations)
  {
    var codes := Codes(violations);
    SortingPermutes(codes, StringKey);
    var r := Sorted(codes, StringKey);
    if r == [] then r
    else
      SameElements(codes, r, r[0]);
      SmallestCodeIsFirst(violations, r);
      r
  }

  lemma VerificationPassesWithoutCodes(before: Comparison.Snapshot<Observed>, after: Comparison.Snapshot<Observed>)
    requires before.violations == []
    ensures Comparison.Verified(Comparison.Compared(before, after)).passed <==> after.violations == []
  {
    Comparison.PassingMeansNoNewViolation(before, after);
    if after.violations != [] {
      assert after.violations[0] in SetOf(after.violations);
    }
  }

  type DemoComparison = Comparison.SnapshotComparison<Observed>

  /** What the comparison of a baseline with its attack may list of the observed values: one event more, and a failure. */
  ghost predicate ShowsTheAttack(c: DemoComparison, setting: Setting, events: nat, passed: bool, codes: seq<string>) {
    && c.beforeId == setting.beforeId && c.afterId == setting.afterId
    && !c.contractVersionChanged && !c.systemVersionChanged
    && c.addedCounterexampleIds == [setting.counterexampleId] && c.removedCounterexampleIds == []
    && (forall code :: code in c.introducedViolations <==> code in codes) && c.resolvedViolations == []
    && (forall change: Comparison.Change<Observed> | change.changeType == Comparison.BaselineFieldChanged ::
          change in c.changes
          <==> || change == Observation("event_count", Count(events), Count(events + 1))
               || (!passed && change == Observation("passed", Passed(true), Passed(false))))
  }

  function Observation(field: string, before: Observed, after: Observed): Comparison.Change<Observed> {
    Comparison.Change(
      field, Comparison.Field(Some(before)), Comparison.Field(Some(after)), Comparison.BaselineFieldChanged)
  }

  lemma EmptyOrNot(xs: seq<string>)
    ensures xs == [] || exists x :: x in xs
  {
    if xs != [] {
      assert xs[0] in xs;
    }
  }

  /** The lists of the comparison: one new counterexample, and all codes as new violations. */
  lemma ListsShowTheAttack(
    setting: Setting, before: Comparison.Snapshot<Observed>, after: Comparison.Snapshot<Observed>, codes: seq<string>)
    requires before.violations == [] && before.counterexampleIds == []
    requires after.violations == codes && after.counterexampleIds == [setting.counterexampleId]
    ensures var c := Comparison.Compared(before, after);
            && c.addedCounterexampleIds == [setting.counterexampleId] && c.removedCounterexampleIds == []
            && (forall code :: code in c.introducedViolations <==> code in codes) && c.resolvedViolations == []
  {
    var c := Comparison.Compared(before, after);
    forall x
      ensures x in c.introducedViolations <==> x in codes
      ensures x !in c.resolvedViolations
      ensures x in c.addedCounterexampleIds <==> x == setting.counterexampleId
      ensures x !in c.removedCounterexampleIds
    {
      ComparisonReport.ListsAreAscendingDifferences(before, after, x);
    }
    OneAscendingElement(c.addedCounterexampleIds, setting.counterexampleId, before, after);
    EmptyOrNot(c.resolvedViolations);
    EmptyOrNot(c.removedCounterexampleIds);
  }

  /** A snapshot's observed value of a field, if it has the field. */
  function ObservedAt(simulationId: Uuid, events: nat, passed: bool, field: string): Option<Observed> {
    if field == "simulation_id" then Some(Identifier(simulationId))
    else if field == "event_count" then Some(Count(events))
    else if field == "passed" then Some(Passed(passed))
    else None
  }

  lemma SnapshotsShowWhatIsObserved(
    setting: Setting, snapshotId: Uuid, simulationId: Uuid, events: nat, passed: bool, violations: seq<string>,
    counterexampleIds: seq<string>, field: string)
    ensures var s := SnapshotOf(setting, snapshotId, simulationId, events, passed, violations, counterexampleIds);
            (if field in s.baseline then s.baseline[field] else None) == ObservedAt(simulationId, events, passed, field)
  {
    assert |"simulation_id"| == 13 && |"event_count"| == 11 && |"passed"| == 6;
  }

  lemma ObservationsThatDiffer(
    simulationId: Uuid, events: nat, passed: bool, change: Comparison.Change<Observed>)
    requires change.changeType == Comparison.BaselineFieldChanged
    ensures (&& change.before == Comparison.Field(ObservedAt(simulationId, events, true, change.field))
             && change.after == Comparison.Field(ObservedAt(simulationId, events + 1, passed, change.field))
             && change.before != change.after)
            <==> || change == Observation("event_count", Count(events), Count(events + 1))
                 || (!passed && change == Observation("passed", Passed(true), Passed(false)))
  {
    assert |"simulation_id"| == 13 && |"event_count"| == 11 && |"passed"| == 6;
  }

  lemma ComparisonShowsTheAttack(
    setting: Setting, before: Comparison.Snapshot<Observed>, after: Comparison.Snapshot<Observed>,
    simulationId: Uuid, events: nat, passed: bool, codes: seq<string>)
    requires before == SnapshotOf(setting, setting.beforeId, simulationId, events, true, [], [])
    requires after == SnapshotOf(
                        setting, setting.afterId, simulationId, events + 1, passed, codes, [setting.counterexampleId])
    ensures ShowsTheAttack(Comparison.Compared(before, after), setting, events, passed, codes)
  {
    ComparisonReport.ComparisonNamesItsSnapshots(before, after);
    ListsShowTheAttack(setting, before, after, codes);
    forall change: Comparison.Change<Observed> | change.changeType == Comparison.BaselineFieldChanged
      ensures change in Comparison.Compared(before, after).changes
              <==> || change == Observation("event_count", Count(events), Count(events + 1))
                   || (!passed && change == Observation("passed", Passed(true), Passed(false)))
    {
      ComparisonReport.ChangesShowTheDifferences(before, after, change);
      SnapshotsShowWhatIsObserved(setting, setting.beforeId, simulationId, events, true, [], [], change.field);
      SnapshotsShowWhatIsObserved(
        setting, setting.afterId, simulationId, events + 1, passed, codes, [setting.counterexampleId], change.field);
      ObservationsThatDiffer(simulationId, events, passed, change);
    }
  }

  lemma OneAscendingElement(
    xs: seq<string>, x: string, before: Comparison.Snapshot<Observed>, after: Comparison.Snapshot<Observed>)
    requires xs == Comparison.Compared(before, after).addedCounterexampleIds && forall y :: y in xs <==> y == x
    ensures xs == [x]
  {
    ComparisonReport.ListsAreAscendingDifferences(before, after, x);
    assert x in xs;
    if |xs| > 1 {
      assert xs[0] in xs && xs[1] in xs && Precedes(xs[0], xs[1]);
      PrecedingDiffers(xs[0], xs[1]);
      assert false;
    }
  }

  /** The two snapshots compared: the one of the baseline has no violations. */
  method VerifyAgainstBaseline(
    setting: Setting, baseline: SimulationResult, attack: ExecutionResult, passed: bool, codes: seq<string>)
    returns (comparison: DemoComparison, r: Comparison.VerificationResult)
    requires attack.simulationId == baseline.simulationId
    requires |attack.adversarialSimulation.events| == |baseline.trace| + 1
    ensures ShowsTheAttack(comparison, setting, |baseline.trace|, passed, codes)
    ensures r == Comparison.Verified(comparison) && (r.passed <==> codes == [])
    ensures r.beforeId == setting.beforeId && r.afterId == setting.afterId
  {
    var before := SnapshotOf(setting, setting.beforeId, baseline.simulationId, |baseline.trace|, true, [], []);
    var after := SnapshotOf(
      setting, setting.afterId, attack.simulationId, |attack.adversarialSimulation.events|, passed, codes,
      [setting.counterexampleId]);
    comparison := Comparison.Compare(before, after);
    r := Comparison.Verified(comparison);
    VerificationPassesWithoutCodes(before, after);
    ComparisonShowsTheAttack(setting, before, after, baseline.simulationId, |baseline.trace|, passed, codes);
  }

  /** The counterexample before shrinking; its constructor accepts it. */
  method RecordAttack(attacked: PaymentSimulation, codes: seq<string>)
    returns (r: Result<Counterexample, CounterexampleError>)
    requires codes != [] ==> !Blank(codes[0])
    ensures r.Ok? && r.value.simulation == attacked
    ensures r.value.violationCode == if codes != [] then codes[0] else "verification_regression"
    ensures r.value.originalEventCount == r.value.minimizedEventCount == |attacked.events|
  {
    r := MakeCounterexample(CounterexampleFields(
                              attacked.id, attacked, if codes != [] then codes[0] else "verification_regression",
                              |attacked.events|, |attacked.events|));
  }

  /** Baseline and attack are run and compared: verification passes exactly when the evaluation does. */
  method BuildVerification(seed: DemoSeed, setting: Setting)
    returns (r: Result<(DemoComparison, Comparison.VerificationResult, Counterexample), DemoError>)
    ensures r.Ok? <==> Sound(seed) && Contracts.Evaluated(setting.contract, setting.context, setting.validator).Ok?
    ensures r.Ok? ==>
              && r.value.1.passed
                 == Contracts.Evaluated(setting.contract, setting.context, setting.validator).value.passed
              && r.value.2.simulation == AttackedSimulation(seed)
              && r.value.2.originalEventCount == r.value.2.minimizedEventCount == |seed.events| + 1
              && r.value.1.beforeId == setting.beforeId && r.value.1.afterId == setting.afterId
    ensures r.Ok? ==>
              var evaluation := Contracts.Evaluated(setting.contract, setting.context, setting.validator).value;
              ShowsTheAttack(
                r.value.0, setting, |seed.events|, evaluation.passed, SortedCodes(evaluation.violations))
    ensures r.Ok? ==>
              var evaluation := Contracts.Evaluated(setting.contract, setting.context, setting.validator).value;
              if evaluation.passed then r.value.2.violationCode == "verification_regression"
              else IsFirstCode(r.value.2.violationCode, evaluation.violations)
  {
    var built := BuildSimulation(seed);
    if built.Err? {
      return Err(built.error);
    }
    var baseline := Run(built.value);
    if baseline.Rejected? {
      return Err(BaselineNotRun(baseline.error));
    }
    var attack := RunAttack(seed);
    if attack.Err? {
      return Err(attack.error);
    }
    var evaluated := Contracts.Evaluate(setting.contract, setting.context, setting.validator);
    if evaluated.Err? {
      return Err(NotEvaluated(evaluated.error));
    }
    EvaluationPassesWithoutViolations(setting);
    var codes := SortedCodes(evaluated.value.violations);
    Lockstep.CompletedRunEchoesTheSimulation(built.value);
    var comparison, verification := VerifyAgainstBaseline(
      setting, baseline.result, attack.value, evaluated.value.passed, codes);
    var recorded := RecordAttack(attack.value.adversarialSimulation, codes);
    match recorded
    case Err(error) => r := Err(NotRecorded(error));
    case Ok(counterexample) => r := Ok((comparison, verification, counterexample));
  }

  /** On an accepted created stream the duplicate of the first event is the minimal counterexample. */
  lemma FirstEventTwiceIsMinimal(simulation: PaymentSimulation)
    requires StartsCreated(simulation) && !Rejects(simulation) && simulation.events != []
    ensures var attacked := WithEvents(simulation, Duplicated(simulation.events, 0));
            var shrunk := PrefixShrunk(attacked, Rejects);
            && Rejects(attacked) && Rejects(shrunk) && OneMinimal(shrunk, Rejects)
            && Payloads(shrunk.events) == [PayloadOf(simulation.events[0]), PayloadOf(simulation.events[0])]
            && (Word(shrunk.events) == [Authorize, Authorize] || Word(shrunk.events) == [Fail, Fail])
            && Shrunk(attacked, Rejects) == shrunk
  {
    var attacked := WithEvents(simulation, Duplicated(simulation.events, 0));
    LoneDuplicateIsRejectedAtItsCopy(simulation, 0);
    LoneDuplicateShrinksMinimallyIffFirst(simulation, 0);
    LoneDuplicateShrinksToItsEvent(simulation, 0);
    ShrinkersAgreeWherePrefixesAreMinimal(attacked);
    ShrinkingStopsAtTheFirstGap(attacked, Rejects);
    MinimalityIsAPropertyOfTheWord(PrefixShrunk(attacked, Rejects));
  }

  /**
   * The pipeline's promise: it gives a counterexample exactly when the seed is sound and the contract is evaluated
   * and violated, and that is a minimal one, the first event twice.
   */
  method ShrinkDemoCounterexample(seed: DemoSeed, setting: Setting) returns (r: Result<Counterexample, DemoError>)
    ensures r.Ok? <==>
            && Sound(seed)
            && Contracts.Evaluated(setting.contract, setting.context, setting.validator).Ok?
            && !Contracts.Evaluated(setting.contract, setting.context, setting.validator).value.passed
    ensures r.Ok? ==>
              && Rejects(r.value.simulation) && OneMinimal(r.value.simulation, Rejects)
              && Payloads(r.value.simulation.events) == [PayloadOf(seed.events[0]), PayloadOf(seed.events[0])]
              && r.value.minimizedEventCount == 2 && r.value.originalEventCount == |seed.events| + 1
              && IsFirstCode(r.value.violationCode,
                             Contracts.Evaluated(setting.contract, setting.context, setting.validator).value.violations)
  {
    var built := BuildVerification(seed, setting);
    if built.Err? {
      return Err(built.error);
    }
    var (_, verification, counterexample) := built.value;
    if verification.passed {
      return Err(PassingVerification);
    }
    FirstEventTwiceIsMinimal(SimulationOf(seed));
    var minimized := ShrinkCounterexample(counterexample, Rejects);
    match minimized
    case Err(error) => r := Err(NotMinimized(error));
    case Ok(shrunk) => r := Ok(shrunk);
  }
}
