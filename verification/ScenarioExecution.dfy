/** Which scenarios execute, how the others are refused, and what an execution reports of each component. */
module ScenarioExecution {
  import opened Results
  import opened Simulations
  import opened Runner
  import opened Sequences
  import opened Scenarios
  import opened Executor
  import opened Attacks
  import opened LoneAttacks

  /** The component can be applied to a stream of `n` events. */
  predicate Fits(c: Component, n: nat) {
    match c
    case DuplicateEvent(_, target) => target < n
    case OutOfOrderEvent(_, source, target) => source < n && target < n
    case DelayedEvent(_, _, _) => false
    case LostResponse(_, target, _) => target < n
    case PartialFailure(_, target, _, _) => target < n
    case Retry(_, target, _) => target < n
    case WorkerCrash(_, target, _) => target < n
    case StaleWorkerState(_, _, incoming) => incoming < n
    case BareAttack(_) => false
  }

  /** The error of a component that cannot: first its sequence is checked, then a move's source or the type. */
  ghost predicate RefusedWith(c: Component, n: nat, error: ExecutionError) {
    if exists sequence :: CarriesSequence(c, Some(sequence)) && sequence >= n then
      error.NonexistentSequence? && CarriesSequence(c, Some(error.sequence))
    else
      match c
      case OutOfOrderEvent(_, source, _) => source >= n && error == SourceOutOfRange(source)
      case DelayedEvent(_, _, _) => error == UnsupportedComponent("DelayedEventAttack")
      case BareAttack(_) => error == UnsupportedComponent("AdversarialAttack")
      case _ => false
  }

  /** Faults that a worker or the network shows without touching the stream. */
  predicate Semantic(c: Component) {
    c.LostResponse? || c.PartialFailure? || c.Retry? || c.WorkerCrash? || c.StaleWorkerState?
  }

  lemma ComponentIsAppliedOrRefused(current: PaymentSimulation, c: Component)
    ensures Attacked(current, c).Ok? <==> Fits(c, |current.events|)
    ensures Attacked(current, c).Ok? ==>
              |Attacked(current, c).value.events| == |current.events| + if c.DuplicateEvent? then 1 else 0
    ensures Attacked(current, c).Ok? && Semantic(c) ==> Attacked(current, c).value == current
    ensures Attacked(current, c).Err? ==> RefusedWith(c, |current.events|, Attacked(current, c).error)
  {
    var sequence := CheckedSequence(c);
    assert CarriesSequence(c, sequence);
    assert forall s :: CarriesSequence(c, s) ==> s == sequence;
  }

  /** The length of the stream when the component at `i` has its turn: one more for each duplicate before it. */
  function LengthBefore(simulation: PaymentSimulation, components: seq<Component>, i: nat): nat
    requires i <= |components|
  {
    |simulation.events| + DuplicateCount(components[..i])
  }

  /** The first `k` components fit the stream as the ones before them have left it. */
  predicate FirstFit(simulation: PaymentSimulation, components: seq<Component>, k: nat)
    requires k <= |components|
  {
    forall j | 0 <= j < k :: Fits(components[j], LengthBefore(simulation, components, j))
  }

  /** The error is that of the first component that does not fit. */
  ghost predicate FirstRefusal(simulation: PaymentSimulation, components: seq<Component>, error: ExecutionError) {
    exists i | 0 <= i < |components| ::
      FirstFit(simulation, components, i) && RefusedWith(components[i], LengthBefore(simulation, components, i), error)
  }

  lemma RefusedDoesNotFit(c: Component, n: nat, error: ExecutionError)
    requires RefusedWith(c, n, error)
    ensures !Fits(c, n)
  {
  }

  lemma InitialComponentsFitAlike(simulation: PaymentSimulation, components: seq<Component>, k: nat)
    requires k < |components|
    ensures LengthBefore(simulation, components[..|components| - 1], k) == LengthBefore(simulation, components, k)
    ensures FirstFit(simulation, components[..|components| - 1], k) <==> FirstFit(simulation, components, k)
  {
    var init := components[..|components| - 1];
    forall j | 0 <= j <= k
      ensures LengthBefore(simulation, init, j) == LengthBefore(simulation, components, j)
    {
      assert init[..j] == components[..j];
    }
  }

  lemma EarlierRefusalsStand(simulation: PaymentSimulation, components: seq<Component>, error: ExecutionError)
    requires components != [] && FirstRefusal(simulation, components[..|components| - 1], error)
    ensures FirstRefusal(simulation, components, error) && !FirstFit(simulation, components, |components|)
  {
    var init := components[..|components| - 1];
    var i :| 0 <= i < |init| && FirstFit(simulation, init, i)
      && RefusedWith(init[i], LengthBefore(simulation, init, i), error);
    InitialComponentsFitAlike(simulation, components, i);
    RefusedDoesNotFit(components[i], LengthBefore(simulation, components, i), error);
  }

  lemma LastComponentHasItsTurn(simulation: PaymentSimulation, components: seq<Component>)
    requires components != [] && FirstFit(simulation, components, |components| - 1)
    requires AllAttacked(simulation, components[..|components| - 1]).Ok?
    requires |AllAttacked(simulation, components[..|components| - 1]).value.events|
             == LengthBefore(simulation, components, |components| - 1)
    ensures AllAttacked(simulation, components).Ok? <==> FirstFit(simulation, components, |components|)
    ensures AllAttacked(simulation, components).Ok? ==>
              |AllAttacked(simulation, components).value.events|
              == LengthBefore(simulation, components, |components|)
    ensures AllAttacked(simulation, components).Err? ==>
              FirstRefusal(simulation, components, AllAttacked(simulation, components).error)
  {
    var n := |components| - 1;
    assert components[..n + 1] == components;
    ComponentIsAppliedOrRefused(AllAttacked(simulation, components[..n]).value, components[n]);
  }

  lemma {:induction false} ComponentsAreAppliedInTurn(simulation: PaymentSimulation, components: seq<Component>)
    ensures AllAttacked(simulation, components).Ok? <==> FirstFit(simulation, components, |components|)
    ensures AllAttacked(simulation, components).Ok? ==>
              |AllAttacked(simulation, components).value.events|
              == LengthBefore(simulation, components, |components|)
    ensures AllAttacked(simulation, components).Err? ==>
              FirstRefusal(simulation, components, AllAttacked(simulation, components).error)
    decreases |components|
  {
    assert components[..|components|] == components;
    if components != [] {
      var n := |components| - 1;
      var init := components[..n];
      ComponentsAreAppliedInTurn(simulation, init);
      InitialComponentsFitAlike(simulation, components, n);
      assert init[..n] == init;
      if AllAttacked(simulation, init).Ok? {
        LastComponentHasItsTurn(simulation, components);
      } else {
        EarlierRefusalsStand(simulation, components, AllAttacked(simulation, init).error);
      }
    }
  }

  /**
   * A scenario executes on its own accepted simulation exactly when every component fits the stream as the ones
   * before it have left it; otherwise the first one that does not is what the executor complains about.
   */
  lemma ScenarioExecutesIffEveryComponentFits(simulation: PaymentSimulation, scenario: AdversarialScenario)
    ensures var components := scenario.components;
            Executed(simulation, scenario).Ok?
            <==> && scenario.simulationId == simulation.id && !Rejects(simulation)
                 && forall i | 0 <= i < |components| :: Fits(components[i], LengthBefore(simulation, components, i))
    ensures Executed(simulation, scenario).Err? ==>
              var components, error := scenario.components, Executed(simulation, scenario).error;
              if scenario.simulationId != simulation.id then error == ScenarioOfAnotherSimulation
              else if Rejects(simulation) then
                error == BaselineRejected(OutcomeOf(simulation).error, OutcomeOf(simulation).index)
              else
                exists i :: 0 <= i < |components|
                  && (forall j | 0 <= j < i :: Fits(components[j], LengthBefore(simulation, components, j)))
                  && RefusedWith(components[i], LengthBefore(simulation, components, i), error)
  {
    ComponentsAreAppliedInTurn(simulation, scenario.components);
  }

  /** An execution reports each component under its class and with the sequence it carries, and the baseline's run. */
  lemma OutcomesNameTheComponents(simulation: PaymentSimulation, scenario: AdversarialScenario)
    requires Executed(simulation, scenario).Ok?
    ensures var r := Executed(simulation, scenario).value;
            && r.simulationId == simulation.id && r.scenario == scenario
            && OutcomeOf(simulation) == Completed(r.baseline)
            && |r.outcomes| == |scenario.components|
            && forall i | 0 <= i < |r.outcomes| ::
                 && IsClass(scenario.components[i], r.outcomes[i].componentType)
                 && CarriesSequence(scenario.components[i], r.outcomes[i].targetSequence)
  {
    forall i | 0 <= i < |scenario.components|
      ensures IsClass(scenario.components[i], TypeName(scenario.components[i]))
    {
      TypeNamesAreClassNames(scenario.components[i], TypeName(scenario.components[i]));
    }
  }

  /** A lone semantic fault executes exactly when its sequence lies in the stream, and changes nothing. */
  lemma LoneSemanticFaultChangesNothing(simulation: PaymentSimulation, c: Component)
    requires !Rejects(simulation) && Belongs(simulation.id, c) && Semantic(c)
    ensures Executed(simulation, LoneScenario(c)).Ok?
            <==> (if c.StaleWorkerState? then c.incomingSequence else c.targetSequence) < |simulation.events|
    ensures Executed(simulation, LoneScenario(c)).Ok? ==>
              Executed(simulation, LoneScenario(c)).value.adversarialSimulation == simulation
    ensures Executed(simulation, LoneScenario(c)).Err? ==>
              Executed(simulation, LoneScenario(c)).error
              == NonexistentSequence(if c.StaleWorkerState? then c.incomingSequence else c.targetSequence)
  {
    LoneAttackIsItsRewriting(simulation, c);
    ComponentIsAppliedOrRefused(simulation, c);
    assert [c][..0] == [];
    assert AllAttacked(simulation, [c]) == Attacked(simulation, c);
  }

  /** Anywhere in a scenario a semantic fault leaves the stream to the other components. */
  lemma {:induction false} SemanticFaultsCanBeDropped(
    simulation: PaymentSimulation, components: seq<Component>, i: nat)
    requires i < |components| && Semantic(components[i]) && AllAttacked(simulation, components).Ok?
    ensures AllAttacked(simulation, Popped(components, i)) == AllAttacked(simulation, components)
    decreases |components|
  {
    var n := |components| - 1;
    var init, last := components[..n], components[n];
    if i == n {
      ComponentIsAppliedOrRefused(AllAttacked(simulation, init).value, last);
      assert Popped(components, i) == init;
    } else {
      SemanticFaultsCanBeDropped(simulation, init, i);
      assert Popped(components, i) == Popped(init, i) + [last];
      assert (Popped(init, i) + [last])[..n - 1] == Popped(init, i);
    }
  }
}
