/** What every run keeps: the order follows the payment, and the trace is the replay of each prefix. */
module Lockstep {
  import opened Results
  import opened Payments
  import opened Simulations
  import opened Runner
  import opened Replay

  predicate Coupled(payment: Payment, order: PaymentOrder) {
    order.state == Projection(payment.state)
  }

  /** Wherever the payment can still move the order, the order stands where the payment does. */
  predicate InStep(payment: Payment, order: PaymentOrder) {
    && (payment.state == PaymentState.Created ==> order.state == OrderState.Created)
    && (payment.state == PaymentState.Authorized ==> order.state == OrderState.Authorized)
  }

  /** The order's own events: a word with its refunds dropped. */
  function WithoutRefunds(word: seq<PaymentEvent>): seq<PaymentEvent> {
    if word == [] then []
    else
      var last := word[|word| - 1];
      WithoutRefunds(word[..|word| - 1]) + if last == Refund then [] else [last]
  }

  /** The two replays of a stream, equal to the given states. */
  predicate ReplaysTo(
    payment: Payment, order: PaymentOrder, events: seq<SimulationEvent>, paymentAfter: Payment, orderAfter: PaymentOrder)
  {
    && ReplayedPayment(payment, Word(events)) == Ok(paymentAfter)
    && ReplayedOrder(order, WithoutRefunds(Word(events))) == Ok(orderAfter)
  }

  /** A trace entry that shows the replays of the events before it and up to it. */
  predicate EntryIsReplay(
    payment: Payment, order: PaymentOrder, events: seq<SimulationEvent>, i: nat, entry: TraceEntry, snapshot: Snapshot)
    requires i < |events|
  {
    && entry.sequence == snapshot.sequence == events[i].sequence
    && entry.event == events[i].event
    && entry.occurredAt == snapshot.occurredAt == events[i].occurredAt
    && ReplaysTo(payment, order, events[..i], entry.paymentBefore, entry.orderBefore)
    && ReplaysTo(payment, order, events[..i + 1], entry.paymentAfter, entry.orderAfter)
    && snapshot.payment == entry.paymentAfter && snapshot.order == entry.orderAfter
  }

  lemma WordOfPrefix(events: seq<SimulationEvent>, k: nat)
    requires k <= |events|
    ensures Word(events[..k]) == Word(events)[..k]
  {
  }

  lemma ReplayOfOneMore(payment: Payment, order: PaymentOrder, word: seq<PaymentEvent>, event: PaymentEvent)
    requires ReplayedPayment(payment, word).Ok? && ReplayedOrder(order, WithoutRefunds(word)).Ok?
    ensures ReplayedPayment(payment, word + [event])
            == TransitionPayment(ReplayedPayment(payment, word).value, event)
    ensures ReplayedOrder(order, WithoutRefunds(word + [event]))
            == TransitionRunOrder(ReplayedOrder(order, WithoutRefunds(word)).value, event)
  {
    var more := word + [event];
    assert more[..|more| - 1] == word;
    var kept := WithoutRefunds(word);
    if event == Refund {
      assert WithoutRefunds(more) == kept;
    } else {
      assert WithoutRefunds(more) == kept + [event];
      assert WithoutRefunds(more)[..|kept|] == kept;
    }
  }

  lemma WordOfOneMore(events: seq<SimulationEvent>)
    requires events != []
    ensures Word(events) == Word(events[..|events| - 1]) + [events[|events| - 1].event]
  {
  }

  lemma ReplaysOfOneMore(
    payment: Payment, order: PaymentOrder, events: seq<SimulationEvent>,
    paymentBefore: Payment, orderBefore: PaymentOrder, paymentAfter: Payment, orderAfter: PaymentOrder)
    requires events != []
    requires ReplaysTo(payment, order, events[..|events| - 1], paymentBefore, orderBefore)
    requires TransitionPayment(paymentBefore, events[|events| - 1].event) == Ok(paymentAfter)
    requires TransitionRunOrder(orderBefore, events[|events| - 1].event) == Ok(orderAfter)
    ensures ReplaysTo(payment, order, events, paymentAfter, orderAfter)
  {
    ReplayOfOneMore(payment, order, Word(events[..|events| - 1]), events[|events| - 1].event);
    WordOfOneMore(events);
  }

  /** A completed run ends in the two replays. */
  lemma {:induction false} CompletedRunIsReplay(payment: Payment, order: PaymentOrder, events: seq<SimulationEvent>)
    requires Advance(payment, order, events).Running?
    ensures var run := Advance(payment, order, events);
            && ReplaysTo(payment, order, events, run.payment, run.order)
            && |run.trace| == |run.snapshots| == |events|
    decreases |events|
  {
    if events != [] {
      var init := events[..|events| - 1];
      var before, run := Advance(payment, order, init), Advance(payment, order, events);
      CompletedRunIsReplay(payment, order, init);
      ReplaysOfOneMore(payment, order, events, before.payment, before.order, run.payment, run.order);
    }
  }

  lemma EntryOfLongerStream(
    payment: Payment, order: PaymentOrder, events: seq<SimulationEvent>, k: nat, i: nat,
    entry: TraceEntry, snapshot: Snapshot)
    requires i < k <= |events|
    requires EntryIsReplay(payment, order, events[..k], i, entry, snapshot)
    ensures EntryIsReplay(payment, order, events, i, entry, snapshot)
  {
    assert events[..k][..i] == events[..i] && events[..k][..i + 1] == events[..i + 1];
  }

  lemma LastEntryIsReplay(payment: Payment, order: PaymentOrder, events: seq<SimulationEvent>)
    requires events != [] && Advance(payment, order, events).Running?
    ensures var run := Advance(payment, order, events);
            var before := Advance(payment, order, events[..|events| - 1]);
            && before.Running?
            && |before.trace| == |before.snapshots| == |events| - 1
            && |run.trace| == |run.snapshots| == |events|
            && run.trace[..|events| - 1] == before.trace && run.snapshots[..|events| - 1] == before.snapshots
            && EntryIsReplay(payment, order, events, |events| - 1, run.trace[|events| - 1], run.snapshots[|events| - 1])
  {
    CompletedRunIsReplay(payment, order, events[..|events| - 1]);
    CompletedRunIsReplay(payment, order, events);
    assert events[..|events|] == events;
  }

  /** Every trace entry and snapshot of a completed run shows the replay of its prefix. */
  lemma {:induction false} TraceIsReplayOfEveryPrefix(
    payment: Payment, order: PaymentOrder, events: seq<SimulationEvent>, i: nat)
    requires Advance(payment, order, events).Running? && i < |events|
    ensures var run := Advance(payment, order, events);
            && |run.trace| == |run.snapshots| == |events|
            && EntryIsReplay(payment, order, events, i, run.trace[i], run.snapshots[i])
    decreases |events|
  {
    LastEntryIsReplay(payment, order, events);
    var last := |events| - 1;
    if i < last {
      var before := Advance(payment, order, events[..last]);
      TraceIsReplayOfEveryPrefix(payment, order, events[..last], i);
      EntryOfLongerStream(payment, order, events, last, i, before.trace[i], before.snapshots[i]);
    }
  }

  /** Through the projection the tables differ in nothing but REFUND, for payments only, and CANCEL, for orders only. */
  lemma OrderTableIsTheProjectedPaymentTable(state: PaymentState, event: PaymentEvent)
    ensures event !in {Refund, Cancel} ==>
              NextOrderState(Projection(state), event)
              == match NextPaymentState(state, event) case None => None case Some(next) => Some(Projection(next))
    ensures NextOrderState(Projection(state), Refund).None? && NextPaymentState(state, Cancel).None?
    ensures NextPaymentState(state, Refund).Some? ==>
              Projection(NextPaymentState(state, Refund).value) == Projection(state)
    ensures NextOrderState(Projection(state), Cancel)
            == if state == PaymentState.Created then Some(OrderState.Cancelled) else None
  {
  }

  lemma OneStepStaysInStep(payment: Payment, order: PaymentOrder, event: PaymentEvent)
    requires InStep(payment, order) && TransitionPayment(payment, event).Ok?
    ensures TransitionRunOrder(order, event).Ok?
    ensures var p, o := TransitionPayment(payment, event).value, TransitionRunOrder(order, event).value;
            && InStep(p, o) && (Coupled(payment, order) ==> Coupled(p, o))
            && p == payment.(state := p.state) && o == order.(state := o.state)
            && NextPaymentState(payment.state, event) == Some(p.state)
  {
  }

  /** From any states a completed run is an accepted payment word, and moves nothing of the payment but its state. */
  lemma CompletedRunIsAPaymentWord(payment: Payment, order: PaymentOrder, events: seq<SimulationEvent>)
    requires Advance(payment, order, events).Running?
    ensures var p := Advance(payment, order, events).payment;
            Reach(payment.state, Word(events)) == Some(p.state) && p == payment.(state := p.state)
  {
    CompletedRunIsReplay(payment, order, events);
    PaymentReplayIsReach(payment, Word(events));
  }

  /**
   * From any states the events before a rejected one are an accepted word, and the error is the payment's exactly
   * when that event leaves the language.
   */
  lemma RejectedRunLeavesTheLanguage(payment: Payment, order: PaymentOrder, events: seq<SimulationEvent>)
    requires Advance(payment, order, events).Stopped?
    ensures var stop := Advance(payment, order, events);
            && stop.index < |events|
            && Reach(payment.state, Word(events)[..stop.index]).Some?
            && (stop.error == InvalidPaymentTransition
                <==> Reach(payment.state, Word(events)[..stop.index + 1]).None?)
  {
    StoppedAtItsIndex(payment, order, events);
    var index := Advance(payment, order, events).index;
    var longer := events[..index + 1];
    CompletedRunIsAPaymentWord(payment, order, events[..index]);
    WordOfPrefix(events, index);
    WordOfPrefix(events, index + 1);
    assert longer[..index] == events[..index];
    assert Word(longer)[..|longer| - 1] == Word(events[..index]);
  }

  /** From states in step a run stays in step, and the payment machine is the only one that rejects. */
  lemma {:induction false} RunStaysInStep(payment: Payment, order: PaymentOrder, events: seq<SimulationEvent>)
    requires InStep(payment, order)
    ensures match Advance(payment, order, events)
            case Running(p, o, _, _) =>
              InStep(p, o) && (Coupled(payment, order) ==> Coupled(p, o)) && o == order.(state := o.state)
            case Stopped(error, _) => error == InvalidPaymentTransition
    decreases |events|
  {
    if events != [] {
      var last := |events| - 1;
      RunStaysInStep(payment, order, events[..last]);
      var before := Advance(payment, order, events[..last]);
      if before.Running? && TransitionPayment(before.payment, events[last].event).Ok? {
        OneStepStaysInStep(before.payment, before.order, events[last].event);
      }
    }
  }

  /**
   * From states in step only the payment machine ever rejects, at its first rejected event, and the order
   * remains the projection of the payment if it was to begin with.
   */
  lemma RunFollowsThePayment(payment: Payment, order: PaymentOrder, events: seq<SimulationEvent>)
    requires InStep(payment, order)
    ensures match Advance(payment, order, events)
            case Running(p, o, _, _) =>
              && InStep(p, o) && (Coupled(payment, order) ==> Coupled(p, o))
              && p == payment.(state := p.state) && o == order.(state := o.state)
              && Reach(payment.state, Word(events)) == Some(p.state)
            case Stopped(error, index) =>
              && error == InvalidPaymentTransition
              && index < |events|
              && Reach(payment.state, Word(events)[..index]).Some?
              && Reach(payment.state, Word(events)[..index + 1]).None?
              && Reach(payment.state, Word(events)).None?
  {
    RunStaysInStep(payment, order, events);
    if Advance(payment, order, events).Running? {
      CompletedRunIsAPaymentWord(payment, order, events);
    } else {
      RejectedRunLeavesTheLanguage(payment, order, events);
      ReachOfPrefix(payment.state, Word(events), Advance(payment, order, events).index + 1);
    }
  }

  /** Out of step nothing completes but the empty stream and a single FAIL. */
  lemma OutOfStepRunsAreShort(payment: Payment, order: PaymentOrder, events: seq<SimulationEvent>)
    requires !InStep(payment, order) && Advance(payment, order, events).Running?
    ensures Word(events) == [] || Word(events) == [Fail]
  {
    if events != [] {
      CompletedRunIsAPaymentWord(payment, order, events);
      ReachedIsListed(payment.state, Word(events));
      AdvanceOfPrefix(payment, order, events, 1);
      var first := events[..1];
      assert first[..0] == [] && first[0] == events[0] == events[..1][0];
      assert Advance(payment, order, first) == Step(Advance(payment, order, []), events[0], 0);
      assert Word(events)[0] == events[0].event == Fail;
    }
  }

  /** Consecutive trace entries chain, the first starts at the inputs and the last ends at the outputs. */
  lemma TraceChains(simulation: PaymentSimulation)
    requires OutcomeOf(simulation).Completed?
    requires simulation.events != []
    ensures var r := OutcomeOf(simulation).result;
            && r.trace[0].paymentBefore == simulation.initialPayment
            && r.trace[0].orderBefore == simulation.initialOrder
            && (forall i | 0 < i < |r.trace| ::
                  && r.trace[i].paymentBefore == r.trace[i - 1].paymentAfter
                  && r.trace[i].orderBefore == r.trace[i - 1].orderAfter)
            && r.trace[|r.trace| - 1].paymentAfter == r.finalPayment
            && r.trace[|r.trace| - 1].orderAfter == r.finalOrder
  {
    CompletedRunIsReplay(simulation.initialPayment, simulation.initialOrder, simulation.events);
    var r := OutcomeOf(simulation).result;
    var payment, order, events := simulation.initialPayment, simulation.initialOrder, simulation.events;
    TraceIsReplayOfEveryPrefix(payment, order, events, 0);
    TraceIsReplayOfEveryPrefix(payment, order, events, |events| - 1);
    assert events[..|events|] == events;
    forall i | 0 < i < |r.trace|
      ensures r.trace[i].paymentBefore == r.trace[i - 1].paymentAfter
      ensures r.trace[i].orderBefore == r.trace[i - 1].orderAfter
    {
      TraceIsReplayOfEveryPrefix(payment, order, events, i - 1);
      TraceIsReplayOfEveryPrefix(payment, order, events, i);
    }
  }

  /** The words that run without an error: the payment language in step, next to nothing out of step. */
  predicate RunsThrough(payment: Payment, order: PaymentOrder, word: seq<PaymentEvent>) {
    if InStep(payment, order) then Reach(payment.state, word).Some?
    else word == [] || (word == [Fail] && TransitionOrder(order, Fail).Ok?)
  }

  lemma LoneFailure(payment: Payment, order: PaymentOrder, events: seq<SimulationEvent>)
    requires !InStep(payment, order) && Word(events) == [Fail]
    ensures Advance(payment, order, events).Running? <==> TransitionOrder(order, Fail).Ok?
  {
    assert |events| == |Word(events)| == 1 && events[0].event == Word(events)[0];
    assert events[..0] == [];
  }

  /** From any states a simulation is rejected exactly when its word does not run through. */
  lemma RejectionIsAPropertyOfTheWord(simulation: PaymentSimulation)
    ensures Rejects(simulation)
            <==> !RunsThrough(simulation.initialPayment, simulation.initialOrder, Word(simulation.events))
  {
    var payment, order, events := simulation.initialPayment, simulation.initialOrder, simulation.events;
    if InStep(payment, order) {
      RunFollowsThePayment(payment, order, events);
    } else {
      if Advance(payment, order, events).Running? {
        OutOfStepRunsAreShort(payment, order, events);
      }
      if Word(events) == [Fail] {
        LoneFailure(payment, order, events);
      }
    }
  }

  predicate OrderErrorEscapes(payment: Payment, order: PaymentOrder, events: seq<SimulationEvent>) {
    var run := Advance(payment, order, events);
    run.Stopped? && run.error == InvalidOrderTransition
  }

  /** An order error can escape some run exactly when the initial states are out of step. */
  lemma OrderErrorsNeverEscapeIffInStep(payment: Payment, order: PaymentOrder)
    ensures InStep(payment, order) <==> forall events :: !OrderErrorEscapes(payment, order, events)
  {
    if InStep(payment, order) {
      forall events
        ensures !OrderErrorEscapes(payment, order, events)
      {
        RunFollowsThePayment(payment, order, events);
      }
    } else {
      var event := if payment.state == PaymentState.Created then Authorize else Capture;
      var events := [SimulationEvent(0, event, 0, 0)];
      assert events[..0] == [];
      assert OrderErrorEscapes(payment, order, events);
    }
  }

  /** A completed run's result carries the simulation it ran, and ends in the replays of its whole stream. */
  lemma CompletedRunEchoesTheSimulation(simulation: PaymentSimulation)
    requires OutcomeOf(simulation).Completed?
    ensures var r := OutcomeOf(simulation).result;
            && r.simulationId == simulation.id && r.seed == simulation.seed
            && r.initialPayment == simulation.initialPayment && r.initialOrder == simulation.initialOrder
            && ReplaysTo(r.initialPayment, r.initialOrder, simulation.events, r.finalPayment, r.finalOrder)
            && |r.trace| == |r.snapshots| == |simulation.events|
  {
    CompletedRunIsReplay(simulation.initialPayment, simulation.initialOrder, simulation.events);
  }
}
