/** Execution of adversarial scenarios against a simulation's event stream. */
module Executor {
  import opened Results
  import opened Payments
  import opened Simulations
  import opened Runner
  import opened Sequences
  import opened Streams
  import opened Scenarios

  datatype ComponentOutcome = Applied(componentType: string, targetSequence: Option<int>)

  datatype ExecutionResult = ExecutionResult(
    simulationId: Uuid, baseline: SimulationResult, adversarialSimulation: PaymentSimulation,
    scenario: AdversarialScenario, outcomes: seq<ComponentOutcome>)

  datatype ExecutionError =
    | ScenarioOfAnotherSimulation
    | BaselineRejected(error: TransitionError, index: nat)
    | NonexistentSequence(sequence: int)
    | SourceOutOfRange(source: int)
    | UnsupportedComponent(componentType: string)

  /** The sequence the executor checks: the target, or a stale worker's incoming sequence. */
  function CheckedSequence(c: Component): Option<int> {
    if c.StaleWorkerState? then Some(c.incomingSequence) else Target(c)
  }

  /** What one component does to the current simulation. */
  function Attacked(simulation: PaymentSimulation, c: Component): Result<PaymentSimulation, ExecutionError> {
    var sequence := CheckedSequence(c);
    var n := |simulation.events|;
    if sequence.Some? && sequence.value >= n then Err(NonexistentSequence(sequence.value))
    else
      match c
      case OutOfOrderEvent(_, source, target) =>
        if source >= n then Err(SourceOutOfRange(source))
        else Ok(WithEvents(simulation, Moved(simulation.events, source, target)))
      case DuplicateEvent(_, target) => Ok(WithEvents(simulation, Duplicated(simulation.events, target)))
      case DelayedEvent(_, _, _) => Err(UnsupportedComponent(TypeName(c)))
      case BareAttack(_) => Err(UnsupportedComponent(TypeName(c)))
      case _ => Ok(simulation)
  }

  /** What a list of components does, one after the other. */
  function AllAttacked(simulation: PaymentSimulation, components: seq<Component>)
    : Result<PaymentSimulation, ExecutionError>
  {
    if components == [] then Ok(simulation)
    else
      match AllAttacked(simulation, components[..|components| - 1])
      case Err(error) => Err(error)
      case Ok(current) => Attacked(current, components[|components| - 1])
  }

  function OutcomesOf(components: seq<Component>): seq<ComponentOutcome> {
    seq(|components|, i requires 0 <= i < |components| =>
      Applied(TypeName(components[i]), CheckedSequence(components[i])))
  }

  function Executed(simulation: PaymentSimulation, scenario: AdversarialScenario)
    : Result<ExecutionResult, ExecutionError>
  {
    if scenario.simulationId != simulation.id then Err(ScenarioOfAnotherSimulation)
    else
      match OutcomeOf(simulation)
      case Rejected(error, index) => Err(BaselineRejected(error, index))
      case Completed(baseline) =>
        match AllAttacked(simulation, scenario.components)
        case Err(error) => Err(error)
        case Ok(current) =>
          Ok(ExecutionResult(simulation.id, baseline, current, scenario, OutcomesOf(scenario.components)))
  }

  lemma {:induction false} AttackErrorsAreSticky(simulation: PaymentSimulation, components: seq<Component>, k: nat)
    requires k <= |components|
    ensures AllAttacked(simulation, components[..k]).Err?
            ==> AllAttacked(simulation, components) == AllAttacked(simulation, components[..k])
    decreases |components|
  {
    if k == |components| {
      assert components[..k] == components;
    } else {
      AttackErrorsAreSticky(simulation, components[..|components| - 1], k);
      assert components[..|components| - 1][..k] == components[..k];
    }
  }

  lemma AttacksOfOneMore(simulation: PaymentSimulation, components: seq<Component>, i: nat)
    requires i < |components| && AllAttacked(simulation, components[..i]).Ok?
    ensures AllAttacked(simulation, components[..i + 1])
            == Attacked(AllAttacked(simulation, components[..i]).value, components[i])
    ensures AllAttacked(simulation, components[..i + 1]).Err?
            ==> AllAttacked(simulation, components) == AllAttacked(simulation, components[..i + 1])
    ensures OutcomesOf(components[..i + 1])
            == OutcomesOf(components[..i]) + [Applied(TypeName(components[i]), CheckedSequence(components[i]))]
  {
    assert components[..i + 1][..i] == components[..i];
    AttackErrorsAreSticky(simulation, components, i + 1);
  }

  method ApplyOutOfOrder(simulation: PaymentSimulation, source: nat, target: nat) returns (r: PaymentSimulation)
    requires source < |simulation.events| && target < |simulation.events|
    ensures r == WithEvents(simulation, Moved(simulation.events, source, target))
  {
    var events := simulation.events;
    var movedEvent := events[source];
    events := Popped(events, source);
    events := Inserted(events, target, movedEvent);
    PopThenInsertMoves(simulation.events, source, target);
    r := WithEvents(simulation, events);
  }

  method ApplyDuplicate(simulation: PaymentSimulation, target: nat) returns (r: PaymentSimulation)
    requires target < |simulation.events|
    ensures r == WithEvents(simulation, Duplicated(simulation.events, target))
  {
    var events := simulation.events;
    var duplicated := events[target];
    events := Inserted(events, target + 1, duplicated);
    InsertAfterDuplicates(simulation.events, target);
    r := WithEvents(simulation, events);
  }

  /** One turn of the executor's loop: check the target, then dispatch on the component. */
  method ApplyComponent(current: PaymentSimulation, component: Component)
    returns (r: Result<PaymentSimulation, ExecutionError>)
    ensures r == Attacked(current, component)
  {
    var sequence := CheckedSequence(component);
    if sequence.Some? && sequence.value >= |current.events| {
      return Err(NonexistentSequence(sequence.value));
    }
    match component
    case OutOfOrderEvent(_, source, target) =>
      if source >= |current.events| {
        return Err(SourceOutOfRange(source));
      }
      var moved := ApplyOutOfOrder(current, source, target);
      r := Ok(moved);
    case DuplicateEvent(_, target) =>
      var duplicated := ApplyDuplicate(current, target);
      r := Ok(duplicated);
    case DelayedEvent(_, _, _) => r := Err(UnsupportedComponent(TypeName(component)));
    case BareAttack(_) => r := Err(UnsupportedComponent(TypeName(component)));
    case _ => r := Ok(current);
  }

  method Execute(simulation: PaymentSimulation, scenario: AdversarialScenario)
    returns (r: Result<ExecutionResult, ExecutionError>)
    ensures r == Executed(simulation, scenario)
  {
    if scenario.simulationId != simulation.id {
      return Err(ScenarioOfAnotherSimulation);
    }
    var run := Run(simulation);
    if run.Rejected? {
      return Err(BaselineRejected(run.error, run.index));
    }
    var current := simulation;
    var outcomes: seq<ComponentOutcome> := [];
    var components := scenario.components;
    for i := 0 to |components|
      invariant AllAttacked(simulation, components[..i]) == Ok(current)
      invariant outcomes == OutcomesOf(components[..i])
    {
      var component := components[i];
      AttacksOfOneMore(simulation, components, i);
      var attacked := ApplyComponent(current, component);
      if attacked.Err? {
        return Err(attacked.error);
      }
      current := attacked.value;
      outcomes := outcomes + [Applied(TypeName(component), CheckedSequence(component))];
    }
    assert components[..|components|] == components;
    r := Ok(ExecutionResult(simulation.id, run.result, current, scenario, outcomes));
  }
}
