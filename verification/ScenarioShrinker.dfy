/** One-pass removal of adversarial components. */
module ScenarioShrinker {
  import opened Results
  import opened Sequences
  import opened Subsequences
  import opened Scenarios
  import opened PrefixShrinker

  type ScenarioPredicate = AdversarialScenario -> bool

  lemma SubscenariosAreValid(scenario: AdversarialScenario, components: seq<Component>)
    requires SubsequenceOf(components, scenario.components)
    ensures ValidScenario(ScenarioFields(scenario.simulationId, components))
  {
    var f: seq<nat> :| Embeds(f, components, scenario.components);
    forall i, j | 0 <= i < j < |components| && Target(components[i]).Some?
      ensures Target(components[i]) != Target(components[j])
    {
      assert f[i] < f[j] < |scenario.components|;
    }
  }

  /** The scenario without one of its components, which is again a valid scenario. */
  function WithoutComponent(scenario: AdversarialScenario, k: nat): AdversarialScenario
    requires k < |scenario.components|
  {
    CutIsSubsequence(scenario.components, k, 1);
    SubscenariosAreValid(scenario, Popped(scenario.components, k));
    ScenarioFields(scenario.simulationId, Popped(scenario.components, k))
  }

  function ScenarioShrunk(scenario: AdversarialScenario, reproduces: ScenarioPredicate, index: nat): AdversarialScenario
    decreases |scenario.components| - index
  {
    if index >= |scenario.components| then scenario
    else if reproduces(WithoutComponent(scenario, index))
    then ScenarioShrunk(WithoutComponent(scenario, index), reproduces, index)
    else ScenarioShrunk(scenario, reproduces, index + 1)
  }

  method ShrinkScenario(scenario: AdversarialScenario, reproduces: ScenarioPredicate)
    returns (r: Result<AdversarialScenario, ShrinkError>, ghost calls: nat)
    ensures r == if reproduces(scenario) then Ok(ScenarioShrunk(scenario, reproduces, 0)) else Err(InputDoesNotReproduce)
    ensures calls == if reproduces(scenario) then |scenario.components| + 1 else 1
  {
    calls := 1;
    if !reproduces(scenario) {
      return Err(InputDoesNotReproduce), calls;
    }
    var current := scenario;
    var index := 0;
    while index < |current.components|
      invariant index <= |current.components|
      invariant ScenarioShrunk(current, reproduces, index) == ScenarioShrunk(scenario, reproduces, 0)
      invariant calls + |current.components| == 1 + |scenario.components| + index
      decreases |current.components| - index
    {
      var candidate := WithoutComponent(current, index);
      calls := calls + 1;
      if reproduces(candidate) {
        current := candidate;
      } else {
        index := index + 1;
      }
    }
    r := Ok(current);
  }

  /** `sub` keeps some of the components of `scenario`, in their order. */
  ghost predicate Subscenario(sub: AdversarialScenario, scenario: AdversarialScenario) {
    sub.simulationId == scenario.simulationId && SubsequenceOf(sub.components, scenario.components)
  }

  /** Adding components never loses the failure. */
  ghost predicate Monotone(reproduces: ScenarioPredicate) {
    forall small: AdversarialScenario, large: AdversarialScenario ::
      Subscenario(small, large) && reproduces(small) ==> reproduces(large)
  }

  ghost predicate OneMinimalScenario(scenario: AdversarialScenario, reproduces: ScenarioPredicate) {
    forall k | 0 <= k < |scenario.components| :: !reproduces(WithoutComponent(scenario, k))
  }

  ghost predicate KeptUpTo(scenario: AdversarialScenario, reproduces: ScenarioPredicate, index: nat) {
    forall k | 0 <= k < index && k < |scenario.components| :: !reproduces(WithoutComponent(scenario, k))
  }

  /** For every predicate the result reproduces the failure and keeps a subsequence of the components. */
  lemma {:induction false} ScenarioShrinkingIsSound(
    scenario: AdversarialScenario, reproduces: ScenarioPredicate, index: nat)
    requires reproduces(scenario)
    ensures var r := ScenarioShrunk(scenario, reproduces, index);
            reproduces(r) && Subscenario(r, scenario)
    decreases |scenario.components| - index
  {
    SubsequenceReflexive(scenario.components);
    if index < |scenario.components| {
      var candidate := WithoutComponent(scenario, index);
      if reproduces(candidate) {
        ScenarioShrinkingIsSound(candidate, reproduces, index);
        CutIsSubsequence(scenario.components, index, 1);
        SubsequenceTransitive(
          ScenarioShrunk(candidate, reproduces, index).components, candidate.components, scenario.components);
      } else {
        ScenarioShrinkingIsSound(scenario, reproduces, index + 1);
      }
    }
  }

  lemma RemovingTwice(scenario: AdversarialScenario, k: nat, index: nat)
    requires k < index < |scenario.components|
    ensures Subscenario(WithoutComponent(WithoutComponent(scenario, index), k), WithoutComponent(scenario, k))
  {
    var once := WithoutComponent(scenario, k).components;
    CutIsSubsequence(once, index - 1, 1);
    PoppingTwice(scenario.components, k, index);
  }

  lemma {:induction false} MonotoneShrinkingIsOneMinimal(
    scenario: AdversarialScenario, reproduces: ScenarioPredicate, index: nat)
    requires Monotone(reproduces) && KeptUpTo(scenario, reproduces, index)
    ensures OneMinimalScenario(ScenarioShrunk(scenario, reproduces, index), reproduces)
    decreases |scenario.components| - index
  {
    if index < |scenario.components| {
      var candidate := WithoutComponent(scenario, index);
      if reproduces(candidate) {
        forall k | 0 <= k < index && k < |candidate.components|
          ensures !reproduces(WithoutComponent(candidate, k))
        {
          RemovingTwice(scenario, k, index);
          assert !reproduces(WithoutComponent(scenario, k));
        }
        MonotoneShrinkingIsOneMinimal(candidate, reproduces, index);
      } else {
        MonotoneShrinkingIsOneMinimal(scenario, reproduces, index + 1);
      }
    }
  }

  /** For a monotone predicate no proper part of the result reproduces the failure. */
  lemma MonotoneShrinkingIsMinimal(
    scenario: AdversarialScenario, reproduces: ScenarioPredicate, part: AdversarialScenario)
    requires Monotone(reproduces)
    requires Subscenario(part, ScenarioShrunk(scenario, reproduces, 0))
    requires part != ScenarioShrunk(scenario, reproduces, 0)
    ensures !reproduces(part)
  {
    var r := ScenarioShrunk(scenario, reproduces, 0);
    MonotoneShrinkingIsOneMinimal(scenario, reproduces, 0);
    var k := ProperSubsequenceMissesAnIndex(part.components, r.components);
    assert Subscenario(part, WithoutComponent(r, k));
  }

  /** A pass changes nothing exactly when it finds nothing to remove. */
  lemma {:induction false} UnchangedIffNothingIsRemovable(
    scenario: AdversarialScenario, reproduces: ScenarioPredicate, index: nat)
    ensures |ScenarioShrunk(scenario, reproduces, index).components| <= |scenario.components|
    ensures ScenarioShrunk(scenario, reproduces, index) == scenario
            <==> forall k | index <= k < |scenario.components| :: !reproduces(WithoutComponent(scenario, k))
    decreases |scenario.components| - index
  {
    if index < |scenario.components| {
      if reproduces(WithoutComponent(scenario, index)) {
        UnchangedIffNothingIsRemovable(WithoutComponent(scenario, index), reproduces, index);
      } else {
        UnchangedIffNothingIsRemovable(scenario, reproduces, index + 1);
      }
    }
  }

  /** One pass gives a one-minimal result whenever there is a failure to shrink. */
  ghost predicate OnePassSuffices(scenario: AdversarialScenario, reproduces: ScenarioPredicate) {
    reproduces(scenario) ==> OneMinimalScenario(ScenarioShrunk(scenario, reproduces, 0), reproduces)
  }

  predicate AllEqual(components: seq<Component>) {
    forall i, j | 0 <= i < |components| && 0 <= j < |components| :: components[i] == components[j]
  }

  lemma RemovalsFromEqualComponentsAgree(scenario: AdversarialScenario, k: nat)
    requires AllEqual(scenario.components) && k < |scenario.components|
    ensures WithoutComponent(scenario, k) == WithoutComponent(scenario, 0)
    ensures AllEqual(WithoutComponent(scenario, k).components)
  {
    assert Popped(scenario.components, k) == Popped(scenario.components, 0);
  }

  lemma {:induction false} OnePassSufficesForEqualComponents(scenario: AdversarialScenario, reproduces: ScenarioPredicate)
    requires AllEqual(scenario.components)
    ensures OneMinimalScenario(ScenarioShrunk(scenario, reproduces, 0), reproduces)
    decreases |scenario.components|
  {
    if scenario.components != [] {
      RemovalsFromEqualComponentsAgree(scenario, 0);
      if reproduces(WithoutComponent(scenario, 0)) {
        OnePassSufficesForEqualComponents(WithoutComponent(scenario, 0), reproduces);
      } else {
        forall k | 0 <= k < |scenario.components|
          ensures !reproduces(WithoutComponent(scenario, k))
        {
          RemovalsFromEqualComponentsAgree(scenario, k);
        }
        UnchangedIffNothingIsRemovable(scenario, reproduces, 0);
      }
    }
  }

  /** The last place where two neighbours differ: from the next place on all components are equal. */
  lemma LastChange(components: seq<Component>) returns (i: nat)
    requires !AllEqual(components)
    ensures i + 1 < |components| && components[i] != components[i + 1]
    ensures forall j | i < j < |components| :: components[j] == components[i + 1]
  {
    var start := |components| - 1;
    while start > 0 && components[start - 1] == components[start]
      invariant 0 <= start < |components|
      invariant forall j | start <= j < |components| :: components[j] == components[start]
    {
      start := start - 1;
    }
    assert start != 0 by {
      assert AllEqual(components) || start != 0;
    }
    i := start - 1;
  }

  lemma {:induction false} NothingIsRemovedBetween(
    scenario: AdversarialScenario, reproduces: ScenarioPredicate, low: nat, high: nat)
    requires low <= high <= |scenario.components|
    requires forall k | low <= k < high :: !reproduces(WithoutComponent(scenario, k))
    ensures ScenarioShrunk(scenario, reproduces, low) == ScenarioShrunk(scenario, reproduces, high)
    decreases high - low
  {
    if low < high {
      NothingIsRemovedBetween(scenario, reproduces, low + 1, high);
    }
  }

  /** Removing at two places gives different lists when some step between them changes the component. */
  lemma RemovalsDiffer(components: seq<Component>, k: nat, l: nat, i: nat)
    requires k <= i < l < |components| && components[i] != components[i + 1]
    ensures Popped(components, k) != Popped(components, l)
  {
    assert Popped(components, k)[i] == components[i + 1] && Popped(components, l)[i] == components[i];
  }

  /** Reproduces on the scenario, without the component after `i`, and without that one and the one at `i`. */
  function LateRemoval(scenario: AdversarialScenario, i: nat): ScenarioPredicate
    requires i + 1 < |scenario.components|
  {
    var without := WithoutComponent(scenario, i + 1);
    (s: AdversarialScenario) => s == scenario || s == without || s == WithoutComponent(without, i)
  }

  lemma NothingIsRemovedBefore(scenario: AdversarialScenario, i: nat)
    requires i + 1 < |scenario.components| && scenario.components[i] != scenario.components[i + 1]
    ensures forall k | 0 <= k <= i :: !LateRemoval(scenario, i)(WithoutComponent(scenario, k))
  {
    forall k | 0 <= k <= i
      ensures !LateRemoval(scenario, i)(WithoutComponent(scenario, k))
    {
      RemovalsDiffer(scenario.components, k, i + 1, i);
    }
  }

  lemma NothingIsRemovedAfter(scenario: AdversarialScenario, i: nat)
    requires i + 1 < |scenario.components| && scenario.components[i] != scenario.components[i + 1]
    requires forall j | i < j < |scenario.components| :: scenario.components[j] == scenario.components[i + 1]
    ensures var without := WithoutComponent(scenario, i + 1);
            forall k | i + 1 <= k < |without.components| :: !LateRemoval(scenario, i)(WithoutComponent(without, k))
  {
    var without := WithoutComponent(scenario, i + 1);
    forall k | i + 1 <= k < |without.components|
      ensures !LateRemoval(scenario, i)(WithoutComponent(without, k))
    {
      assert without.components[i] == scenario.components[i] && without.components[i + 1] == scenario.components[i + 2];
      RemovalsDiffer(without.components, i, k, i);
    }
  }

  /** The pass removes the later component alone, although the earlier one could go after it. */
  lemma OnePassMissesALateRemoval(scenario: AdversarialScenario, i: nat)
    requires i + 1 < |scenario.components| && scenario.components[i] != scenario.components[i + 1]
    requires forall j | i < j < |scenario.components| :: scenario.components[j] == scenario.components[i + 1]
    ensures ScenarioShrunk(scenario, LateRemoval(scenario, i), 0) == WithoutComponent(scenario, i + 1)
    ensures !OnePassSuffices(scenario, LateRemoval(scenario, i))
  {
    var reproduces, without := LateRemoval(scenario, i), WithoutComponent(scenario, i + 1);
    NothingIsRemovedBefore(scenario, i);
    NothingIsRemovedBetween(scenario, reproduces, 0, i + 1);
    NothingIsRemovedAfter(scenario, i);
    UnchangedIffNothingIsRemovable(without, reproduces, i + 1);
    assert reproduces(WithoutComponent(without, i));
  }

  /** On two different components a pass can keep the first although the empty scenario reproduces as well. */
  lemma OnePassNeedNotBeMinimal(scenario: AdversarialScenario)
    requires |scenario.components| == 2 && scenario.components[0] != scenario.components[1]
    ensures var reproduces := LateRemoval(scenario, 0);
            var shrunk := ScenarioShrunk(scenario, reproduces, 0);
            && reproduces(scenario) && shrunk.components == [scenario.components[0]]
            && reproduces(WithoutComponent(shrunk, 0)) && !OneMinimalScenario(shrunk, reproduces)
  {
    OnePassMissesALateRemoval(scenario, 0);
  }

  /** One pass is enough for every predicate exactly on the scenarios whose components are all equal. */
  lemma OnePassSufficesIffComponentsAreEqual(scenario: AdversarialScenario)
    ensures (forall reproduces: ScenarioPredicate :: OnePassSuffices(scenario, reproduces))
            <==> AllEqual(scenario.components)
  {
    if AllEqual(scenario.components) {
      forall reproduces: ScenarioPredicate
        ensures OnePassSuffices(scenario, reproduces)
      {
        OnePassSufficesForEqualComponents(scenario, reproduces);
      }
    } else {
      var i := LastChange(scenario.components);
      OnePassMissesALateRemoval(scenario, i);
    }
  }
}
