/** Composition of components into a scenario by a deterministic order. */
module Composer {
  import opened Results
  import opened Payments
  import opened Simulations
  import opened Scenarios
  import opened Sorting
  import opened Sequences

  function OrderingKey(c: Component): Key {
    (if c.StaleWorkerState? then c.incomingSequence
     else if c.BareAttack? then 0
     else c.targetSequence,
     TypeName(c))
  }

  predicate AllBelong(simulationId: Uuid, components: seq<Component>) {
    forall i | 0 <= i < |components| :: Belongs(simulationId, components[i])
  }

  /** The scenario of a component list, or the first check that refuses it. */
  function Composed(simulationId: Uuid, components: seq<Component>): Result<AdversarialScenario, ScenarioError> {
    var ordered := Sorted(components, OrderingKey);
    if exists i :: 0 <= i < |components| && components[i].simulationId != simulationId then Err(DifferentSimulation)
    else if !AllBelong(simulationId, ordered) then Err(IncomingNewerThanWorker)
    else if !TargetsDistinct(ordered) then Err(SharedTarget)
    else Ok(ScenarioFields(simulationId, ordered))
  }

  method Compose(simulation: PaymentSimulation, components: seq<Component>)
    returns (r: Result<AdversarialScenario, ScenarioError>)
    ensures r == Composed(simulation.id, components)
  {
    for i := 0 to |components|
      invariant forall j | 0 <= j < i :: components[j].simulationId == simulation.id
    {
      if components[i].simulationId != simulation.id {
        return Err(DifferentSimulation);
      }
    }
    var ordered := Sorted(components, OrderingKey);
    SortingPermutes(components, OrderingKey);
    forall i | 0 <= i < |ordered|
      ensures ordered[i].simulationId == simulation.id
    {
      SameElements(components, ordered, ordered[i]);
    }
    r := MakeScenario(simulation.id, ordered);
  }

  lemma TypeNamesIdentifyTypes(a: Component, b: Component)
    requires TypeName(a) == TypeName(b)
    ensures a.StaleWorkerState? <==> b.StaleWorkerState?
    ensures a.BareAttack? <==> b.BareAttack?
  {
    assert |TypeName(a)| == |TypeName(b)| && TypeName(a)[0] == TypeName(b)[0];
  }

  /** Stale workers with the same incoming sequence are the same component. */
  predicate StaleWorkersUnambiguous(components: seq<Component>) {
    forall i, j | 0 <= i < j < |components| ::
      components[i].StaleWorkerState? && components[j].StaleWorkerState?
      && components[i].incomingSequence == components[j].incomingSequence
      ==> components[i] == components[j]
  }

  lemma UnambiguousListsAreIdentifiedByKeys(simulationId: Uuid, components: seq<Component>)
    requires Composed(simulationId, components).Ok? && StaleWorkersUnambiguous(components)
    ensures KeysIdentify(Sorted(components, OrderingKey), OrderingKey)
  {
    var ordered := Sorted(components, OrderingKey);
    SortingPermutes(components, OrderingKey);
    forall i, j | 0 <= i < |ordered| && 0 <= j < |ordered| && OrderingKey(ordered[i]) == OrderingKey(ordered[j])
      ensures ordered[i] == ordered[j]
    {
      TypeNamesIdentifyTypes(ordered[i], ordered[j]);
      if ordered[i].StaleWorkerState? {
        SameElements(components, ordered, ordered[i]);
        SameElements(components, ordered, ordered[j]);
        var k :| 0 <= k < |components| && components[k] == ordered[i];
        var l :| 0 <= l < |components| && components[l] == ordered[j];
        assert components[k] == components[l];
      } else if !ordered[i].BareAttack? && i != j {
        assert false;
      } else {
        assert Belongs(simulationId, ordered[i]) && Belongs(simulationId, ordered[j]);
      }
    }
  }

  lemma PermutationsComposeAlike(simulationId: Uuid, components: seq<Component>, others: seq<Component>)
    requires Composed(simulationId, components).Ok? && StaleWorkersUnambiguous(components)
    requires multiset(others) == multiset(components)
    ensures Composed(simulationId, others) == Composed(simulationId, components)
  {
    SortingPermutes(components, OrderingKey);
    SortingPermutes(others, OrderingKey);
    SortingSorts(components, OrderingKey);
    SortingSorts(others, OrderingKey);
    UnambiguousListsAreIdentifiedByKeys(simulationId, components);
    OrderedListsOfTheSameElementsAgree(Sorted(components, OrderingKey), Sorted(others, OrderingKey), OrderingKey);
    forall i | 0 <= i < |others|
      ensures others[i].simulationId == simulationId
    {
      SameElements(components, others, others[i]);
    }
  }

  lemma SwappingPermutes<T>(xs: seq<T>, i: nat, j: nat)
    requires i < j < |xs|
    ensures multiset(xs[i := xs[j]][j := xs[i]]) == multiset(xs)
  {
  }

  lemma AmbiguousStaleWorkersComposeDifferently(simulationId: Uuid, components: seq<Component>, i: nat, j: nat)
    requires Composed(simulationId, components).Ok?
    requires i < j < |components| && components[i] != components[j]
    requires components[i].StaleWorkerState? && components[j].StaleWorkerState?
    requires components[i].incomingSequence == components[j].incomingSequence
    ensures Composed(simulationId, components[i := components[j]][j := components[i]])
            != Composed(simulationId, components)
  {
    var swapped := components[i := components[j]][j := components[i]];
    var k := OrderingKey(components[i]);
    assert swapped[..i] == components[..i];
    ReplacementShowsInTheKeysList(components, swapped, i, OrderingKey);
    SortingIsStable(components, OrderingKey, k);
    SortingIsStable(swapped, OrderingKey, k);
  }

  /** Composition ignores the argument order exactly when no two different stale workers share an incoming sequence. */
  lemma CompositionIgnoresOrderIffUnambiguous(simulationId: Uuid, components: seq<Component>)
    requires Composed(simulationId, components).Ok?
    ensures StaleWorkersUnambiguous(components)
            <==> forall others | multiset(others) == multiset(components) ::
                   Composed(simulationId, others) == Composed(simulationId, components)
  {
    if StaleWorkersUnambiguous(components) {
      forall others | multiset(others) == multiset(components)
        ensures Composed(simulationId, others) == Composed(simulationId, components)
      {
        PermutationsComposeAlike(simulationId, components, others);
      }
    } else {
      var i, j :| 0 <= i < j < |components| && components[i].StaleWorkerState? && components[j].StaleWorkerState?
        && components[i].incomingSequence == components[j].incomingSequence && components[i] != components[j];
      SwappingPermutes(components, i, j);
      AmbiguousStaleWorkersComposeDifferently(simulationId, components, i, j);
    }
  }

  /** Where the composer puts a component: at the sequence it carries, or at zero. */
  predicate StandsAt(c: Component, position: int) {
    CarriesSequence(c, Some(position)) || (CarriesSequence(c, None) && position == 0)
  }

  /** One component may come before another: it stands earlier, or at the same place with no later class name. */
  ghost predicate MayPrecede(c: Component, d: Component) {
    forall p, q, m, n | StandsAt(c, p) && StandsAt(d, q) && IsClass(c, m) && IsClass(d, n) ::
      p < q || (p == q && (m == n || Precedes(m, n)))
  }

  /** The components at one place and of one class, in order. */
  function AtPlace(components: seq<Component>, position: int, name: string): seq<Component> {
    if components == [] then []
    else
      (if StandsAt(components[0], position) && IsClass(components[0], name) then [components[0]] else [])
      + AtPlace(components[1..], position, name)
  }

  lemma KeysArePlaces(c: Component, position: int, name: string)
    ensures OrderingKey(c) == (position, name) <==> StandsAt(c, position) && IsClass(c, name)
  {
    TypeNamesAreClassNames(c, name);
  }

  lemma {:induction false} PlacesAreKeys(components: seq<Component>, position: int, name: string)
    ensures AtPlace(components, position, name) == OfKey(components, OrderingKey, (position, name))
    decreases |components|
  {
    if components != [] {
      PlacesAreKeys(components[1..], position, name);
      KeysArePlaces(components[0], position, name);
    }
  }

  lemma KeyOrderMeansMayPrecede(c: Component, d: Component)
    requires AtMost(OrderingKey(c), OrderingKey(d))
    ensures MayPrecede(c, d)
  {
    forall p, q, m, n | StandsAt(c, p) && StandsAt(d, q) && IsClass(c, m) && IsClass(d, n)
      ensures p < q || (p == q && (m == n || Precedes(m, n)))
    {
      KeysArePlaces(c, p, m);
      KeysArePlaces(d, q, n);
      StringAtMostMeansPrecedes(m, n);
    }
  }

  /**
   * The composed list has the given components, in ascending order of their sequences and then of their class names,
   * and those at one place and of one class in the order in which they were given.
   */
  lemma ComposedListIsInOrder(simulationId: Uuid, components: seq<Component>)
    requires Composed(simulationId, components).Ok?
    ensures var r := Composed(simulationId, components).value;
            && r.simulationId == simulationId
            && multiset(r.components) == multiset(components)
            && (forall i, j | 0 <= i < j < |r.components| :: MayPrecede(r.components[i], r.components[j]))
            && (forall position, name :: AtPlace(r.components, position, name) == AtPlace(components, position, name))
  {
    var ordered := Sorted(components, OrderingKey);
    SortingPermutes(components, OrderingKey);
    SortingSorts(components, OrderingKey);
    forall i, j | 0 <= i < j < |ordered|
      ensures MayPrecede(ordered[i], ordered[j])
    {
      KeyOrderMeansMayPrecede(ordered[i], ordered[j]);
    }
    forall position, name
      ensures AtPlace(ordered, position, name) == AtPlace(components, position, name)
    {
      PlacesAreKeys(ordered, position, name);
      PlacesAreKeys(components, position, name);
      SortingIsStable(components, OrderingKey, (position, name));
    }
  }

  /** Two components with one target are found in every permutation of the list. */
  lemma SharedTargetIsFound(components: seq<Component>, others: seq<Component>, i: nat, j: nat)
    returns (k: nat, l: nat)
    requires multiset(components) == multiset(others) && i < j < |others| && Target(others[i]) == Target(others[j])
    ensures k < l < |components| && Target(components[k]) == Target(components[l]) == Target(others[i])
  {
    SameElements(components, others, others[i]);
    SameElements(components, others, others[j]);
    if others[i] == others[j] {
      assert others == others[..j] + [others[j]] + others[j + 1..] && others[..j][i] == others[i];
      assert others[i] in multiset(others[..j]);
      k, l := TwiceInASequence(components, others[i]);
    } else {
      k :| 0 <= k < |components| && components[k] == others[i];
      l :| 0 <= l < |components| && components[l] == others[j];
      if l < k {
        k, l := l, k;
      }
    }
  }

  /** The order of the components does not matter to their targets. */
  lemma PermutationsShareTargetsAlike(components: seq<Component>, others: seq<Component>)
    requires multiset(components) == multiset(others) && TargetsDistinct(components)
    ensures TargetsDistinct(others)
  {
    forall i, j | 0 <= i < j < |others| && Target(others[i]).Some?
      ensures Target(others[i]) != Target(others[j])
    {
      if Target(others[i]) == Target(others[j]) {
        var k, l := SharedTargetIsFound(components, others, i, j);
        assert false;
      }
    }
  }

  /** The composer refuses foreign components first, then stale workers out of order, then shared targets. */
  lemma CompositionFailsOnTheFirstFault(simulationId: Uuid, components: seq<Component>)
    ensures var foreign := exists c :: c in components && c.simulationId != simulationId;
            var late := exists c :: c in components && c.StaleWorkerState? && c.incomingSequence > c.workerSequence;
            match Composed(simulationId, components)
            case Err(DifferentSimulation) => foreign
            case Err(IncomingNewerThanWorker) => !foreign && late
            case Err(SharedTarget) => !foreign && !late && !TargetsDistinct(components)
            case Ok(_) => !foreign && !late && TargetsDistinct(components)
  {
    var ordered := Sorted(components, OrderingKey);
    SortingPermutes(components, OrderingKey);
    forall c
      ensures c in components <==> c in ordered
    {
      SameElements(components, ordered, c);
    }
    if TargetsDistinct(components) {
      PermutationsShareTargetsAlike(components, ordered);
    }
    if TargetsDistinct(ordered) {
      PermutationsShareTargetsAlike(ordered, components);
    }
  }
}
