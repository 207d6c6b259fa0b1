/** Simulations: an initial payment and order with a contiguous stream of events. */
module Simulations {
  import opened Payments

  datatype SimulationEvent = SimulationEvent(sequence: int, event: PaymentEvent, occurredAt: Timestamp, id: Uuid)

  datatype SimulationFields = SimulationFields(
    seed: int, initialPayment: Payment, initialOrder: PaymentOrder, events: seq<SimulationEvent>, id: Uuid)

  /** The constructor's check: sequences are exactly 0, 1, 2, ... */
  predicate Contiguous(events: seq<SimulationEvent>) {
    forall i | 0 <= i < |events| :: events[i].sequence == i
  }

  /** A simulation that its constructor accepts. */
  type PaymentSimulation = s: SimulationFields | Contiguous(s.events)
    witness SimulationFields(
              0, Payment(0, 1, "INR", PaymentState.Created, 0, 0),
              PaymentOrder(1, "INR", OrderState.Created, 0, 0), [], 0)

  /** What an event carries besides its position. */
  datatype Payload = Payload(event: PaymentEvent, occurredAt: Timestamp, id: Uuid)

  function PayloadOf(event: SimulationEvent): Payload {
    Payload(event.event, event.occurredAt, event.id)
  }

  function Payloads(events: seq<SimulationEvent>): (r: seq<Payload>)
    ensures |r| == |events|
  {
    seq(|events|, i requires 0 <= i < |events| => PayloadOf(events[i]))
  }

  /** The event kinds of a stream, in order. */
  function Word(events: seq<SimulationEvent>): (r: seq<PaymentEvent>)
    ensures |r| == |events|
  {
    seq(|events|, i requires 0 <= i < |events| => events[i].event)
  }

  /** The events with sequences 0, 1, 2, ..., everything else kept. */
  function Renumber(events: seq<SimulationEvent>): (r: seq<SimulationEvent>)
    ensures |r| == |events| && Contiguous(r)
    ensures Payloads(r) == Payloads(events) && Word(r) == Word(events)
  {
    seq(|events|, i requires 0 <= i < |events| => events[i].(sequence := i))
  }

  /** The simulation rebuilt on another event list. */
  function WithEvents(simulation: PaymentSimulation, events: seq<SimulationEvent>): PaymentSimulation {
    simulation.(events := Renumber(events))
  }

  /** The simulation cut down to its first `k` events. */
  function Prefix(simulation: PaymentSimulation, k: nat): PaymentSimulation
    requires k <= |simulation.events|
  {
    simulation.(events := simulation.events[..k])
  }

  lemma RebuildingAPrefixIsTheIdentity(simulation: PaymentSimulation, k: nat)
    requires k <= |simulation.events|
    ensures WithEvents(simulation, simulation.events[..k]) == Prefix(simulation, k)
  {
    assert Renumber(simulation.events[..k]) == simulation.events[..k];
  }
}
