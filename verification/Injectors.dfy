/** The stand-alone injectors, which rewrite streams on their own and agree with the scenario executor. */
module Injectors {
  import opened Results
  import opened Payments
  import opened Simulations
  import opened Sequences
  import opened Streams
  import opened Scenarios
  import opened Executor

  datatype InjectorError =
    | NegativeSequence | SourceOutside | TargetOutside | SameSequences | DelayNotPositive

  datatype AdversarialSimulation = AdversarialSimulation(
    source: PaymentSimulation, attack: Component, simulation: PaymentSimulation)

  lemma PopAndInsertIsTheExecutedMove(simulation: PaymentSimulation, source: nat, target: nat)
    requires source < |simulation.events| && target < |simulation.events| && source != target
    ensures Attacked(simulation, OutOfOrderEvent(simulation.id, source, target))
            == Ok(WithEvents(
                    simulation, Inserted(Popped(simulation.events, source), target, simulation.events[source])))
  {
    PopThenInsertMoves(simulation.events, source, target);
  }

  /** The out-of-order injector produces the executor's stream, and refuses exactly the bad positions. */
  method InjectOutOfOrder(simulation: PaymentSimulation, source: int, target: int)
    returns (r: Result<AdversarialSimulation, InjectorError>)
    ensures r.Ok? <==> 0 <= source < |simulation.events| && 0 <= target < |simulation.events| && source != target
    ensures r.Ok? ==>
              && r.value.source == simulation
              && r.value.attack == OutOfOrderEvent(simulation.id, source, target)
              && Attacked(simulation, r.value.attack) == Ok(r.value.simulation)
    ensures r.Err? ==>
              match r.error
              case NegativeSequence => source < 0 || target < 0
              case SourceOutside => 0 <= target && |simulation.events| <= source
              case TargetOutside => 0 <= source < |simulation.events| <= target
              case SameSequences => 0 <= source == target < |simulation.events|
              case DelayNotPositive => false
  {
    if source < 0 || target < 0 {
      return Err(NegativeSequence);
    }
    var eventCount := |simulation.events|;
    if source >= eventCount {
      return Err(SourceOutside);
    }
    if target >= eventCount {
      return Err(TargetOutside);
    }
    if source == target {
      return Err(SameSequences);
    }
    var events := simulation.events;
    var movedEvent := events[source];
    events := Popped(events, source);
    events := Inserted(events, target, movedEvent);
    PopAndInsertIsTheExecutedMove(simulation, source, target);
    r := Ok(AdversarialSimulation(
              simulation, OutOfOrderEvent(simulation.id, source, target), WithEvents(simulation, events)));
  }

  lemma MovingNowhereIsTheIdentity(events: seq<SimulationEvent>, k: nat)
    requires k < |events|
    ensures Moved(events, k, k) == events
  {
  }

  lemma RebuildingIsTheIdentity(simulation: PaymentSimulation)
    ensures WithEvents(simulation, simulation.events) == simulation
  {
    assert Renumber(simulation.events) == simulation.events;
  }

  /** A delay swaps the event with its successor, and changes nothing at the end of the stream. */
  method InjectDelay(simulation: PaymentSimulation, target: int, delaySeconds: int)
    returns (r: Result<AdversarialSimulation, InjectorError>)
    ensures r.Ok? <==> 0 <= target < |simulation.events| && delaySeconds > 0
    ensures r.Ok? ==>
              && r.value.source == simulation
              && r.value.attack == DelayedEvent(simulation.id, target, delaySeconds)
              && (target + 1 < |simulation.events| ==>
                    Attacked(simulation, OutOfOrderEvent(simulation.id, target, target + 1)) == Ok(r.value.simulation))
              && (target + 1 == |simulation.events| ==> r.value.simulation == simulation)
    ensures r.Err? ==>
              match r.error
              case NegativeSequence => target < 0
              case DelayNotPositive => 0 <= target && delaySeconds <= 0
              case TargetOutside => |simulation.events| <= target && delaySeconds > 0
              case _ => false
  {
    if target < 0 {
      return Err(NegativeSequence);
    }
    if delaySeconds <= 0 {
      return Err(DelayNotPositive);
    }
    if target >= |simulation.events| {
      return Err(TargetOutside);
    }
    var events := simulation.events;
    var delayedEvent := events[target];
    events := Popped(events, target);
    var insertion := if target + 1 < |events| then target + 1 else |events|;
    events := Inserted(events, insertion, delayedEvent);
    if insertion == target {
      PopThenInsertMoves(simulation.events, target, insertion);
      MovingNowhereIsTheIdentity(simulation.events, target);
      RebuildingIsTheIdentity(simulation);
    } else {
      PopAndInsertIsTheExecutedMove(simulation, target, insertion);
    }
    r := Ok(AdversarialSimulation(
              simulation, DelayedEvent(simulation.id, target, delaySeconds), WithEvents(simulation, events)));
  }

  /** The duplicate injector: a fresh event between the events kept and the events shifted by one. */
  function InjectDuplicate(simulation: PaymentSimulation, target: int, freshId: Uuid)
    : Result<AdversarialSimulation, InjectorError>
  {
    if target < 0 then Err(NegativeSequence)
    else if target >= |simulation.events| then Err(TargetOutside)
    else
      var events := simulation.events;
      var duplicated := SimulationEvent(target + 1, events[target].event, events[target].occurredAt, freshId);
      var shifted := seq(|events|, i requires 0 <= i < |events| =>
                           if events[i].sequence <= target then events[i]
                           else events[i].(sequence := events[i].sequence + 1));
      var transformed := shifted[..target + 1] + [duplicated] + shifted[target + 1..];
      Ok(AdversarialSimulation(
           simulation, DuplicateEvent(simulation.id, target), simulation.(events := transformed)))
  }

  /** The duplicate injector differs from the executor in nothing but the copy's fresh id. */
  lemma DuplicateInjectorAgreesWithTheExecutor(simulation: PaymentSimulation, target: nat, freshId: Uuid)
    requires target < |simulation.events|
    ensures var injected := InjectDuplicate(simulation, target, freshId);
            && injected.Ok?
            && Attacked(simulation, injected.value.attack).Ok?
            && var attacked := Attacked(simulation, injected.value.attack).value;
            && injected.value.simulation
               == attacked.(events := attacked.events[target + 1 := attacked.events[target + 1].(id := freshId)])
  {
    var injected := InjectDuplicate(simulation, target, freshId).value;
    var attacked := Attacked(simulation, injected.attack).value;
    assert injected.simulation.events == attacked.events[target + 1 := attacked.events[target + 1].(id := freshId)];
  }

  /** The duplicate injector refuses negative targets and those behind the stream. */
  lemma DuplicateInjectorRefusesBadTargets(simulation: PaymentSimulation, target: int, freshId: Uuid)
    ensures match InjectDuplicate(simulation, target, freshId)
            case Err(NegativeSequence) => target < 0
            case Err(TargetOutside) => |simulation.events| <= target
            case Err(_) => false
            case Ok(injected) =>
              && 0 <= target < |simulation.events|
              && injected.source == simulation && injected.attack == DuplicateEvent(simulation.id, target)
  {
  }

  /** In the executor too, moving an event back undoes the move. */
  lemma ExecutedMoveIsUndoneByTheMoveBack(simulation: PaymentSimulation, there: Component, back: Component)
    requires there.OutOfOrderEvent?
    requires back == OutOfOrderEvent(there.simulationId, there.targetSequence, there.sourceSequence)
    requires AllAttacked(simulation, [there]).Ok?
    ensures AllAttacked(simulation, [there, back]) == Ok(simulation)
  {
    var source, target := there.sourceSequence, there.targetSequence;
    assert [there][..0] == [] && [there, back][..1] == [there];
    var moved := Attacked(simulation, there).value;
    MovingBackRestores(simulation.events, source, target);
    forall k | 0 <= k < |simulation.events|
      ensures Renumber(Moved(moved.events, target, source))[k] == simulation.events[k]
    {
      assert MovedFrom(source, target, MovedFrom(target, source, k)) == k;
    }
    assert Renumber(Moved(moved.events, target, source)) == simulation.events;
  }
}
