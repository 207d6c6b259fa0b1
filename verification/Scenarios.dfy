/** Adversarial components and their composition into scenarios. */
module Scenarios {
  import opened Results
  import opened Payments
  import opened Sequences

  datatype ComponentFields =
    | DuplicateEvent(simulationId: Uuid, targetSequence: int)
    | OutOfOrderEvent(simulationId: Uuid, sourceSequence: int, targetSequence: int)
    | DelayedEvent(simulationId: Uuid, targetSequence: int, deliveryDelaySeconds: int)
    | LostResponse(simulationId: Uuid, targetSequence: int, responseLost: bool)
    | PartialFailure(simulationId: Uuid, targetSequence: int, started: bool, completed: bool)
    | Retry(simulationId: Uuid, targetSequence: int, retryCount: int)
    | WorkerCrash(simulationId: Uuid, targetSequence: int, restarted: bool)
    | StaleWorkerState(simulationId: Uuid, workerSequence: int, incomingSequence: int)
    | BareAttack(simulationId: Uuid)

  /** The component constructors' own checks; the four semantic scenarios check nothing. */
  predicate Constructible(c: ComponentFields) {
    match c
    case DuplicateEvent(_, target) => target >= 0
    case OutOfOrderEvent(_, source, target) => source >= 0 && target >= 0 && source != target
    case DelayedEvent(_, target, delay) => target >= 0 && delay > 0
    case StaleWorkerState(_, worker, incoming) => worker >= 0 && incoming >= 0
    case _ => true
  }

  type Component = c: ComponentFields | Constructible(c) witness BareAttack(0)

  /** The `target_sequence` attribute, which stale workers and bare attacks do not have. */
  function Target(c: Component): Option<int> {
    if c.StaleWorkerState? || c.BareAttack? then None else Some(c.targetSequence)
  }

  function TypeName(c: Component): string {
    match c
    case DuplicateEvent(_, _) => "DuplicateEventAttack"
    case OutOfOrderEvent(_, _, _) => "OutOfOrderEventAttack"
    case DelayedEvent(_, _, _) => "DelayedEventAttack"
    case LostResponse(_, _, _) => "LostResponseScenario"
    case PartialFailure(_, _, _, _) => "PartialFailureScenario"
    case Retry(_, _, _) => "RetryScenario"
    case WorkerCrash(_, _, _) => "WorkerCrashScenario"
    case StaleWorkerState(_, _, _) => "StaleWorkerStateAttack"
    case BareAttack(_) => "AdversarialAttack"
  }

  /** The Python class of a component. */
  predicate IsClass(c: Component, name: string) {
    || (c.DuplicateEvent? && name == "DuplicateEventAttack")
    || (c.OutOfOrderEvent? && name == "OutOfOrderEventAttack")
    || (c.DelayedEvent? && name == "DelayedEventAttack")
    || (c.LostResponse? && name == "LostResponseScenario")
    || (c.PartialFailure? && name == "PartialFailureScenario")
    || (c.Retry? && name == "RetryScenario")
    || (c.WorkerCrash? && name == "WorkerCrashScenario")
    || (c.StaleWorkerState? && name == "StaleWorkerStateAttack")
    || (c.BareAttack? && name == "AdversarialAttack")
  }

  /** The sequence that a component carries: its target, a stale worker's incoming sequence, nothing for a bare attack. */
  predicate CarriesSequence(c: Component, sequence: Option<int>) {
    match c
    case DuplicateEvent(_, target) => sequence == Some(target)
    case OutOfOrderEvent(_, _, target) => sequence == Some(target)
    case DelayedEvent(_, target, _) => sequence == Some(target)
    case LostResponse(_, target, _) => sequence == Some(target)
    case PartialFailure(_, target, _, _) => sequence == Some(target)
    case Retry(_, target, _) => sequence == Some(target)
    case WorkerCrash(_, target, _) => sequence == Some(target)
    case StaleWorkerState(_, _, incoming) => sequence == Some(incoming)
    case BareAttack(_) => sequence == None
  }

  /** Every component has one class name, and the name gives its class. */
  lemma TypeNamesAreClassNames(c: Component, name: string)
    ensures TypeName(c) == name <==> IsClass(c, name)
  {
  }

  datatype ScenarioFields = ScenarioFields(simulationId: Uuid, components: seq<Component>)

  predicate Belongs(simulationId: Uuid, c: Component) {
    c.simulationId == simulationId && (c.StaleWorkerState? ==> c.incomingSequence <= c.workerSequence)
  }

  /** No two components share a target sequence. */
  predicate TargetsDistinct(components: seq<Component>) {
    forall i, j | 0 <= i < j < |components| ::
      Target(components[i]).Some? ==> Target(components[i]) != Target(components[j])
  }

  predicate ValidScenario(f: ScenarioFields) {
    && (forall i | 0 <= i < |f.components| :: Belongs(f.simulationId, f.components[i]))
    && TargetsDistinct(f.components)
  }

  /** A scenario that its constructor accepts. */
  type AdversarialScenario = f: ScenarioFields | ValidScenario(f) witness ScenarioFields(0, [])

  datatype ScenarioError = DifferentSimulation | IncomingNewerThanWorker | SharedTarget

  /** A valid scenario's components are its simulation's, in worker order, and share no target. */
  lemma ValidScenarioOnItsFields(f: ScenarioFields)
    ensures ValidScenario(f)
            <==> && (forall i | 0 <= i < |f.components| :: f.components[i].simulationId == f.simulationId)
                 && (forall i | 0 <= i < |f.components| && f.components[i].StaleWorkerState? ::
                       !(f.components[i].incomingSequence > f.components[i].workerSequence))
                 && (forall i, j, s | 0 <= i < j < |f.components|
                                      && !f.components[i].StaleWorkerState? && !f.components[j].StaleWorkerState? ::
                       !(CarriesSequence(f.components[i], Some(s)) && CarriesSequence(f.components[j], Some(s))))
  {
    forall c: Component, s: int
      ensures !c.StaleWorkerState? ==> (CarriesSequence(c, Some(s)) <==> Target(c) == Some(s))
      ensures c.StaleWorkerState? ==> Target(c) == None
    {
    }
    assert ValidScenario(f) ==> TargetsDistinct(f.components);
  }

  /** The targets of a component list, in order. */
  function Targets(components: seq<Component>): seq<int> {
    if components == [] then []
    else
      var last := components[|components| - 1];
      Targets(components[..|components| - 1]) + if Target(last).Some? then [Target(last).value] else []
  }

  lemma TargetsDistinctOfOneMore(components: seq<Component>, c: Component)
    ensures TargetsDistinct(components + [c])
            <==> TargetsDistinct(components)
                 && (Target(c).Some? ==> forall i | 0 <= i < |components| :: Target(components[i]) != Target(c))
  {
    var more := components + [c];
    assert forall i | 0 <= i < |components| :: more[i] == components[i];
    if TargetsDistinct(more) && Target(c).Some? {
      forall i | 0 <= i < |components|
        ensures Target(components[i]) != Target(c)
      {
        assert Target(more[i]).Some? ==> Target(more[i]) != Target(more[|components|]);
      }
    }
  }

  lemma {:induction false} TargetsListTheTargets(components: seq<Component>, t: int)
    ensures t in Targets(components) <==> exists i :: 0 <= i < |components| && Target(components[i]) == Some(t)
    decreases |components|
  {
    if components != [] {
      var n := |components| - 1;
      var init := components[..n];
      TargetsListTheTargets(init, t);
      if t in Targets(init) {
        var i :| 0 <= i < |init| && Target(init[i]) == Some(t);
        assert Target(components[i]) == Some(t);
      }
      if i :| 0 <= i < |components| && Target(components[i]) == Some(t) {
        assert i < n ==> Target(init[i]) == Some(t);
      }
    }
  }

  lemma {:induction false} TargetsAreDistinctTogether(components: seq<Component>)
    ensures Distinct(Targets(components)) <==> TargetsDistinct(components)
    decreases |components|
  {
    if components != [] {
      var init, last := components[..|components| - 1], components[|components| - 1];
      TargetsAreDistinctTogether(init);
      assert components == init + [last];
      TargetsDistinctOfOneMore(init, last);
      if Target(last).Some? {
        DistinctOfOneMore(Targets(init), Target(last).value);
        TargetsListTheTargets(init, Target(last).value);
      } else {
        assert Targets(components) == Targets(init);
      }
    }
  }

  /** The scenario constructor: it accepts exactly the valid scenarios. */
  method MakeScenario(simulationId: Uuid, components: seq<Component>)
    returns (r: Result<AdversarialScenario, ScenarioError>)
    ensures r.Ok? <==> ValidScenario(ScenarioFields(simulationId, components))
    ensures r.Ok? ==> r.value == ScenarioFields(simulationId, components)
    ensures r == Err(SharedTarget) ==>
              (forall i | 0 <= i < |components| :: Belongs(simulationId, components[i])) && !TargetsDistinct(components)
    ensures r.Err? && r.error != SharedTarget ==>
              exists i :: 0 <= i < |components| && !Belongs(simulationId, components[i])
                && (forall j | 0 <= j < i :: Belongs(simulationId, components[j]))
                && (r.error == DifferentSimulation <==> components[i].simulationId != simulationId)
  {
    for i := 0 to |components|
      invariant forall j | 0 <= j < i :: Belongs(simulationId, components[j])
    {
      var component := components[i];
      if component.simulationId != simulationId {
        return Err(DifferentSimulation);
      }
      if component.StaleWorkerState? {
        if component.incomingSequence > component.workerSequence {
          return Err(IncomingNewerThanWorker);
        }
      }
    }
    var targets: seq<int> := [];
    for i := 0 to |components|
      invariant targets == Targets(components[..i])
    {
      assert components[..i + 1][..i] == components[..i];
      var target := Target(components[i]);
      if target.Some? {
        targets := targets + [target.value];
      }
    }
    assert components[..|components|] == components;
    TargetsAreDistinctTogether(components);
    DistinctIffNoneCollapse(targets);
    if |targets| != |set t | t in targets| {
      return Err(SharedTarget);
    }
    r := Ok(ScenarioFields(simulationId, components));
  }
}
