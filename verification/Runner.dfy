/** Deterministic execution of a simulation, payment and order driven together. */
module Runner {
  import opened Results
  import opened Payments
  import opened Simulations

  datatype TraceEntry = TraceEntry(
    sequence: int, event: PaymentEvent, occurredAt: Timestamp,
    paymentBefore: Payment, paymentAfter: Payment, orderBefore: PaymentOrder, orderAfter: PaymentOrder)

  datatype Snapshot = Snapshot(sequence: int, occurredAt: Timestamp, payment: Payment, order: PaymentOrder)

  datatype SimulationResult = SimulationResult(
    simulationId: Uuid, seed: int, initialPayment: Payment, initialOrder: PaymentOrder,
    finalPayment: Payment, finalOrder: PaymentOrder, trace: seq<TraceEntry>, snapshots: seq<Snapshot>)

  /** A run returns its result, or raises a transition error at some event. */
  datatype RunOutcome = Completed(result: SimulationResult) | Rejected(error: TransitionError, index: nat)

  /** The state of a run after some of its events. */
  datatype Progress =
    | Running(payment: Payment, order: PaymentOrder, trace: seq<TraceEntry>, snapshots: seq<Snapshot>)
    | Stopped(error: TransitionError, index: nat)

  /** A refund belongs to the payment alone. */
  function TransitionRunOrder(order: PaymentOrder, event: PaymentEvent): Result<PaymentOrder, TransitionError> {
    if event == Refund then Ok(order) else TransitionOrder(order, event)
  }

  /** The run of one more event, the payment first. */
  function Step(before: Progress, event: SimulationEvent, index: nat): Progress
    requires before.Running?
  {
    match TransitionPayment(before.payment, event.event)
    case Err(error) => Stopped(error, index)
    case Ok(payment) =>
      match TransitionRunOrder(before.order, event.event)
      case Err(error) => Stopped(error, index)
      case Ok(order) =>
        Running(
          payment, order,
          before.trace + [TraceEntry(event.sequence, event.event, event.occurredAt,
                                     before.payment, payment, before.order, order)],
          before.snapshots + [Snapshot(event.sequence, event.occurredAt, payment, order)])
  }

  /** The run of a stream; the first rejected event stops it. */
  function Advance(payment: Payment, order: PaymentOrder, events: seq<SimulationEvent>): Progress {
    if events == [] then Running(payment, order, [], [])
    else
      var last := |events| - 1;
      var before := Advance(payment, order, events[..last]);
      if before.Stopped? then before else Step(before, events[last], last)
  }

  function OutcomeOf(simulation: PaymentSimulation): RunOutcome {
    match Advance(simulation.initialPayment, simulation.initialOrder, simulation.events)
    case Stopped(error, index) => Rejected(error, index)
    case Running(payment, order, trace, snapshots) =>
      Completed(SimulationResult(
                  simulation.id, simulation.seed, simulation.initialPayment, simulation.initialOrder,
                  payment, order, trace, snapshots))
  }

  /** The failure predicate of the demo pipeline: the run raises a transition error. */
  predicate Rejects(simulation: PaymentSimulation) {
    OutcomeOf(simulation).Rejected?
  }

  lemma {:induction false} AdvanceOfPrefix(
    payment: Payment, order: PaymentOrder, events: seq<SimulationEvent>, k: nat)
    requires k <= |events|
    ensures Advance(payment, order, events[..k]).Stopped?
            ==> Advance(payment, order, events) == Advance(payment, order, events[..k])
    decreases |events|
  {
    if k == |events| {
      assert events[..k] == events;
    } else {
      var init := events[..|events| - 1];
      AdvanceOfPrefix(payment, order, init, k);
      assert init[..k] == events[..k];
    }
  }

  /** A stopped run had run through every event before the one it names. */
  lemma {:induction false} StoppedAtItsIndex(payment: Payment, order: PaymentOrder, events: seq<SimulationEvent>)
    requires Advance(payment, order, events).Stopped?
    ensures var stop := Advance(payment, order, events);
            && stop.index < |events|
            && Advance(payment, order, events[..stop.index]).Running?
            && Advance(payment, order, events[..stop.index + 1]) == stop
    decreases |events|
  {
    var last := |events| - 1;
    var init := events[..last];
    if Advance(payment, order, init).Stopped? {
      StoppedAtItsIndex(payment, order, init);
      var index := Advance(payment, order, init).index;
      assert Advance(payment, order, events).index == index;
      assert events[..last][..index] == events[..index];
      assert events[..last][..index + 1] == events[..index + 1];
    } else {
      assert events[..last + 1] == events;
    }
  }

  method Run(simulation: PaymentSimulation) returns (outcome: RunOutcome)
    ensures outcome == OutcomeOf(simulation)
  {
    var payment, order := simulation.initialPayment, simulation.initialOrder;
    var trace, snapshots := [], [];
    var events := simulation.events;
    for i := 0 to |events|
      invariant Advance(simulation.initialPayment, simulation.initialOrder, events[..i])
                == Running(payment, order, trace, snapshots)
    {
      var event := events[i];
      assert events[..i + 1][..i] == events[..i];
      AdvanceOfPrefix(simulation.initialPayment, simulation.initialOrder, events, i + 1);
      var paymentBefore, orderBefore := payment, order;
      match TransitionPayment(payment, event.event)
      case Err(error) => return Rejected(error, i);
      case Ok(next) => payment := next;
      match TransitionRunOrder(order, event.event)
      case Err(error) => return Rejected(error, i);
      case Ok(next) => order := next;
      trace := trace + [TraceEntry(event.sequence, event.event, event.occurredAt,
                                   paymentBefore, payment, orderBefore, order)];
      snapshots := snapshots + [Snapshot(event.sequence, event.occurredAt, payment, order)];
    }
    assert events[..|events|] == events;
    outcome := Completed(SimulationResult(
                           simulation.id, simulation.seed, simulation.initialPayment, simulation.initialOrder,
                           payment, order, trace, snapshots));
  }
}
