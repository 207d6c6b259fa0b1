/** The scenario shrinker on the executor's own failure: the scenario executes, and the run of the result raises. */
module ScenarioFailures {
  import opened Simulations
  import opened Runner
  import opened Scenarios
  import opened Executor
  import opened Attacks
  import opened ScenarioShrinker

  /** The scenario executes on the simulation, and the run of the result raises. */
  predicate Breaks(scenario: AdversarialScenario, simulation: PaymentSimulation) {
    Executed(simulation, scenario).Ok? && Rejects(Executed(simulation, scenario).value.adversarialSimulation)
  }

  function BreakingOf(simulation: PaymentSimulation): ScenarioPredicate {
    (scenario: AdversarialScenario) => Breaks(scenario, simulation)
  }

  /** Duplicates at the given targets. */
  function Duplicates(simulation: PaymentSimulation, targets: seq<nat>): AdversarialScenario
    requires forall i, j | 0 <= i < j < |targets| :: targets[i] != targets[j]
  {
    ScenarioFields(
      simulation.id,
      seq(|targets|, i requires 0 <= i < |targets| => DuplicateEvent(simulation.id, targets[i])))
  }

  /** Which lists of duplicates execute: each target must lie in the stream as its predecessors have left it. */
  lemma {:induction false} DuplicatesExecute(simulation: PaymentSimulation, components: seq<Component>)
    requires forall i | 0 <= i < |components| :: components[i].DuplicateEvent?
    ensures AllAttacked(simulation, components).Ok?
            <==> forall i | 0 <= i < |components| :: components[i].targetSequence < |simulation.events| + i
    ensures AllAttacked(simulation, components).Ok? ==>
              |AllAttacked(simulation, components).value.events| == |simulation.events| + |components|
    decreases |components|
  {
    if components != [] {
      var init, last := components[..|components| - 1], components[|components| - 1];
      DuplicatesExecute(simulation, init);
      assert forall i | 0 <= i < |init| :: init[i] == components[i];
    }
  }

  /** Duplicates break an accepted simulation exactly when they execute and there are any. */
  lemma DuplicatesBreak(simulation: PaymentSimulation, scenario: AdversarialScenario)
    requires !Rejects(simulation) && scenario.simulationId == simulation.id && scenario.components != []
    requires forall i | 0 <= i < |scenario.components| :: scenario.components[i].DuplicateEvent?
    ensures Breaks(scenario, simulation)
            <==> forall i | 0 <= i < |scenario.components| ::
                   scenario.components[i].targetSequence < |simulation.events| + i
  {
    DuplicatesExecute(simulation, scenario.components);
    if Executed(simulation, scenario).Ok? {
      assert scenario.components[0].DuplicateEvent?;
      ScenarioWithADuplicateIsRejected(simulation, scenario);
    }
  }

  lemma DuplicatesAtTargetsBreak(simulation: PaymentSimulation, targets: seq<nat>)
    requires !Rejects(simulation) && targets != []
    requires forall i, j | 0 <= i < j < |targets| :: targets[i] != targets[j]
    ensures Breaks(Duplicates(simulation, targets), simulation)
            <==> forall i | 0 <= i < |targets| :: targets[i] < |simulation.events| + i
  {
    var scenario := Duplicates(simulation, targets);
    assert forall i | 0 <= i < |targets| :: scenario.components[i] == DuplicateEvent(simulation.id, targets[i]);
    DuplicatesBreak(simulation, scenario);
  }

  /** Which parts of the duplicates at 0, n and n + 1 there are. */
  lemma PartsOfTheDuplicates(simulation: PaymentSimulation, n: nat)
    requires n > 0
    ensures var scenario, kept := Duplicates(simulation, [0, n, n + 1]), Duplicates(simulation, [0, n]);
            && WithoutComponent(scenario, 0) == Duplicates(simulation, [n, n + 1])
            && WithoutComponent(scenario, 1) == Duplicates(simulation, [0, n + 1])
            && WithoutComponent(scenario, 2) == kept
            && WithoutComponent(kept, 1) == Duplicates(simulation, [0])
  {
    var scenario, kept := Duplicates(simulation, [0, n, n + 1]), Duplicates(simulation, [0, n]);
    assert WithoutComponent(scenario, 0).components == Duplicates(simulation, [n, n + 1]).components;
    assert WithoutComponent(scenario, 1).components == Duplicates(simulation, [0, n + 1]).components;
    assert WithoutComponent(scenario, 2).components == kept.components;
    assert WithoutComponent(kept, 1).components == Duplicates(simulation, [0]).components;
  }

  /** Which of them break the simulation: those whose every target exists when its turn comes. */
  lemma PartsThatBreak(simulation: PaymentSimulation)
    requires !Rejects(simulation) && simulation.events != []
    ensures var n := |simulation.events|;
            && Breaks(Duplicates(simulation, [0, n, n + 1]), simulation)
            && !Breaks(Duplicates(simulation, [n, n + 1]), simulation)
            && !Breaks(Duplicates(simulation, [0, n + 1]), simulation)
            && Breaks(Duplicates(simulation, [0, n]), simulation)
            && Breaks(Duplicates(simulation, [0]), simulation)
  {
    var n := |simulation.events|;
    DuplicatesAtTargetsBreak(simulation, [0, n, n + 1]);
    DuplicatesAtTargetsBreak(simulation, [n, n + 1]);
    assert [n, n + 1][0] == n;
    DuplicatesAtTargetsBreak(simulation, [0, n + 1]);
    assert [0, n + 1][1] == n + 1;
    DuplicatesAtTargetsBreak(simulation, [0, n]);
    DuplicatesAtTargetsBreak(simulation, [0]);
  }

  /**
   * On every accepted baseline with an event, three duplicates mislead the pass: it keeps the first two,
   * although the first alone breaks the baseline.
   */
  lemma OnePassKeepsAnIdleDuplicate(simulation: PaymentSimulation) returns (scenario: AdversarialScenario)
    requires !Rejects(simulation) && simulation.events != []
    ensures var n := |simulation.events|;
            && scenario == Duplicates(simulation, [0, n, n + 1])
            && Breaks(scenario, simulation)
            && ScenarioShrunk(scenario, BreakingOf(simulation), 0) == Duplicates(simulation, [0, n])
            && Breaks(Duplicates(simulation, [0]), simulation)
    ensures !OnePassSuffices(scenario, BreakingOf(simulation))
  {
    var n := |simulation.events|;
    var breaks, kept := BreakingOf(simulation), Duplicates(simulation, [0, n]);
    scenario := Duplicates(simulation, [0, n, n + 1]);
    PartsOfTheDuplicates(simulation, n);
    PartsThatBreak(simulation);
    assert ScenarioShrunk(kept, breaks, 2) == kept;
    assert ScenarioShrunk(scenario, breaks, 2) == kept;
    assert ScenarioShrunk(scenario, breaks, 1) == kept;
    assert breaks(WithoutComponent(kept, 1));
  }

  /** Nothing that executes on an empty stream changes it. */
  lemma {:induction false} NothingChangesTheEmptyStream(simulation: PaymentSimulation, components: seq<Component>)
    requires simulation.events == []
    ensures AllAttacked(simulation, components).Ok? ==> AllAttacked(simulation, components).value == simulation
    decreases |components|
  {
    if components != [] {
      NothingChangesTheEmptyStream(simulation, components[..|components| - 1]);
    }
  }

  lemma NothingBreaksARejectedOrEmptyStream(simulation: PaymentSimulation, scenario: AdversarialScenario)
    requires Rejects(simulation) || simulation.events == []
    ensures !Breaks(scenario, simulation)
  {
    if simulation.events == [] {
      NothingChangesTheEmptyStream(simulation, scenario.components);
    }
  }

  /** One pass is enough for every scenario exactly on the baselines that no scenario breaks. */
  lemma OnePassSufficesIffNothingCanBreak(simulation: PaymentSimulation)
    ensures (forall scenario: AdversarialScenario :: OnePassSuffices(scenario, BreakingOf(simulation)))
            <==> Rejects(simulation) || simulation.events == []
  {
    if Rejects(simulation) || simulation.events == [] {
      forall scenario: AdversarialScenario
        ensures OnePassSuffices(scenario, BreakingOf(simulation))
      {
        NothingBreaksARejectedOrEmptyStream(simulation, scenario);
      }
    } else {
      var scenario := OnePassKeepsAnIdleDuplicate(simulation);
    }
  }
}
