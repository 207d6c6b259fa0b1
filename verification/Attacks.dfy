/** What adversarial scenarios do to accepted baselines. */
module Attacks {
  import opened Results
  import opened Payments
  import opened Simulations
  import opened Runner
  import opened Lockstep
  import opened Sequences
  import opened Streams
  import opened Scenarios
  import opened Executor
  import opened Subsequences
  import opened PrefixShrinker
  import opened ChunkShrinker
  import opened MinimalFailures

  /** What attacks with a duplicate among them shrink to, from created states. */
  const FIVE_WORDS: set<seq<PaymentEvent>> :=
    {[Capture], [Refund], [Authorize, Authorize], [Fail, Authorize], [Fail, Fail]}

  predicate HasDuplicate(components: seq<Component>) {
    exists i :: 0 <= i < |components| && components[i].DuplicateEvent?
  }

  function DuplicateCount(components: seq<Component>): nat {
    if components == [] then 0
    else
      DuplicateCount(components[..|components| - 1])
      + if components[|components| - 1].DuplicateEvent? then 1 else 0
  }

  /** The events that the duplicate attacks of a scenario deliver again. */
  ghost function Copies(simulation: PaymentSimulation, components: seq<Component>): multiset<Payload>
    requires AllAttacked(simulation, components).Ok?
  {
    if components == [] then multiset{}
    else
      var init, last := components[..|components| - 1], components[|components| - 1];
      var current := AllAttacked(simulation, init).value;
      Copies(simulation, init)
      + if last.DuplicateEvent? then multiset{PayloadOf(current.events[last.targetSequence])} else multiset{}
  }

  lemma PayloadsOfMoved(events: seq<SimulationEvent>, source: nat, target: nat)
    requires source < |events| && target < |events|
    ensures Payloads(Moved(events, source, target)) == Moved(Payloads(events), source, target)
  {
  }

  lemma PayloadsOfDuplicated(events: seq<SimulationEvent>, target: nat)
    requires target < |events|
    ensures Payloads(Duplicated(events, target)) == Duplicated(Payloads(events), target)
  {
  }

  lemma OneAttackConserves(simulation: PaymentSimulation, c: Component)
    requires Attacked(simulation, c).Ok?
    ensures var r := Attacked(simulation, c).value;
            && r == simulation.(events := r.events)
            && multiset(Payloads(r.events)) == multiset(Payloads(simulation.events))
                 + if c.DuplicateEvent? then multiset{PayloadOf(simulation.events[c.targetSequence])} else multiset{}
  {
    if c.OutOfOrderEvent? {
      PayloadsOfMoved(simulation.events, c.sourceSequence, c.targetSequence);
      MovingConserves(Payloads(simulation.events), c.sourceSequence, c.targetSequence);
    } else if c.DuplicateEvent? {
      PayloadsOfDuplicated(simulation.events, c.targetSequence);
      DuplicatingAddsOneCopy(Payloads(simulation.events), c.targetSequence);
    }
  }

  /**
   * A scenario loses and invents nothing: the events afterwards are the events before plus exactly one
   * copy of some original event per duplicate attack.
   */
  lemma {:induction false} ScenariosConserveEvents(simulation: PaymentSimulation, components: seq<Component>)
    requires AllAttacked(simulation, components).Ok?
    ensures var r := AllAttacked(simulation, components).value;
            && r == simulation.(events := r.events)
            && multiset(Payloads(r.events)) == multiset(Payloads(simulation.events)) + Copies(simulation, components)
            && |Copies(simulation, components)| == DuplicateCount(components)
            && (forall p | p in Copies(simulation, components) :: p in Payloads(simulation.events))
    decreases |components|
  {
    if components != [] {
      var init, last := components[..|components| - 1], components[|components| - 1];
      ScenariosConserveEvents(simulation, init);
      var current := AllAttacked(simulation, init).value;
      OneAttackConserves(current, last);
      if last.DuplicateEvent? {
        var copy := PayloadOf(current.events[last.targetSequence]);
        assert copy == Payloads(current.events)[last.targetSequence];
        assert copy in multiset(Payloads(current.events));
        assert copy in multiset(Payloads(simulation.events));
      }
    }
  }

  lemma DuplicatesAreCounted(components: seq<Component>)
    requires HasDuplicate(components)
    ensures DuplicateCount(components) > 0
  {
    var i :| 0 <= i < |components| && components[i].DuplicateEvent?;
    if i < |components| - 1 {
      assert components[..|components| - 1][i].DuplicateEvent?;
      DuplicatesAreCounted(components[..|components| - 1]);
    }
  }

  lemma NoEventIsAcceptedTwiceInARow(payment: Payment, event: PaymentEvent)
    requires TransitionPayment(payment, event).Ok?
    ensures TransitionPayment(TransitionPayment(payment, event).value, event) == Err(InvalidPaymentTransition)
  {
  }

  /** Two equal events at the front of a stream, the first of them accepted, stop the run at the second. */
  lemma RepeatedFirstEventIsRejected(payment: Payment, order: PaymentOrder, events: seq<SimulationEvent>)
    requires |events| >= 2 && events[0].event == events[1].event
    requires Advance(payment, order, events[..1]).Running?
    ensures Advance(payment, order, events) == Stopped(InvalidPaymentTransition, 1)
  {
    var two := events[..2];
    assert two[..1] == events[..1] && events[..1][..0] == [];
    NoEventIsAcceptedTwiceInARow(payment, events[0].event);
    assert Advance(payment, order, two) == Stopped(InvalidPaymentTransition, 1);
    AdvanceOfPrefix(payment, order, events, 2);
  }

  /** Whether a first event is accepted depends on nothing but its kind. */
  lemma FirstEventsOfOneKindAgree(
    payment: Payment, order: PaymentOrder, left: SimulationEvent, right: SimulationEvent)
    requires left.event == right.event && Advance(payment, order, [left]).Running?
    ensures Advance(payment, order, [right]).Running?
  {
    assert [left][..0] == [] && [right][..0] == [];
  }

  /** Attacking a stream of FAIL events with a duplicate among the attacks gives two or more FAIL events. */
  lemma DuplicatedFailuresAreFailures(simulation: PaymentSimulation, components: seq<Component>)
    requires AllAttacked(simulation, components).Ok? && HasDuplicate(components)
    requires Word(simulation.events) == [] || Word(simulation.events) == [Fail]
    ensures var r := AllAttacked(simulation, components).value;
            && Word(simulation.events) == [Fail] && |r.events| >= 2
            && (forall i | 0 <= i < |r.events| :: r.events[i].event == Fail)
  {
    var r := AllAttacked(simulation, components).value;
    ScenariosConserveEvents(simulation, components);
    DuplicatesAreCounted(components);
    var copy :| copy in Copies(simulation, components);
    assert |multiset(Payloads(r.events))| == |Payloads(r.events)|;
    assert |multiset(Payloads(simulation.events))| == |Payloads(simulation.events)|;
    forall i | 0 <= i < |r.events|
      ensures r.events[i].event == Fail
    {
      var payload := Payloads(r.events)[i];
      assert payload in multiset(Payloads(r.events));
      assert payload in Payloads(simulation.events);
      var k :| 0 <= k < |simulation.events| && Payloads(simulation.events)[k] == payload;
      assert Word(simulation.events)[k] == Fail;
    }
  }

  /** With a duplicate among the attacks some event kind occurs twice, so no payment accepts the stream. */
  lemma DuplicatedWordsAreNotAccepted(simulation: PaymentSimulation, components: seq<Component>, start: PaymentState)
    requires AllAttacked(simulation, components).Ok? && HasDuplicate(components)
    ensures Reach(start, Word(AllAttacked(simulation, components).value.events)).None?
  {
    var r := AllAttacked(simulation, components).value;
    ScenariosConserveEvents(simulation, components);
    DuplicatesAreCounted(components);
    var copy :| copy in Copies(simulation, components);
    assert copy in multiset(Payloads(simulation.events));
    var i, j := TwiceInASequence(Payloads(r.events), copy);
    assert Word(r.events)[i] == copy.event == Word(r.events)[j];
    if Reach(start, Word(r.events)).Some? {
      AcceptedWordsNeverRepeat(start, Word(r.events));
      assert false;
    }
  }

  /** From any initial states, every executed scenario with a duplicate in it makes the payment reject the stream. */
  lemma ScenarioWithADuplicateIsRejected(simulation: PaymentSimulation, scenario: AdversarialScenario)
    requires Executed(simulation, scenario).Ok?
    requires HasDuplicate(scenario.components)
    ensures var outcome := OutcomeOf(Executed(simulation, scenario).value.adversarialSimulation);
            outcome.Rejected? && outcome.error == InvalidPaymentTransition
  {
    var payment, order, events := simulation.initialPayment, simulation.initialOrder, simulation.events;
    var r := AllAttacked(simulation, scenario.components).value;
    ScenariosConserveEvents(simulation, scenario.components);
    if InStep(payment, order) {
      DuplicatedWordsAreNotAccepted(simulation, scenario.components, payment.state);
      RunFollowsThePayment(payment, order, r.events);
    } else {
      OutOfStepRunsAreShort(payment, order, events);
      DuplicatedFailuresAreFailures(simulation, scenario.components);
      assert |Word(events)| == 1 && events == [events[0]] && events[0].event == Word(events)[0] == Fail;
      FirstEventsOfOneKindAgree(payment, order, events[0], r.events[0]);
      assert r.events[..1] == [r.events[0]];
      RepeatedFirstEventIsRejected(payment, order, r.events);
    }
  }

  /** Neither attacking nor shrinking brings in an event that the baseline did not have. */
  lemma ShrunkAttacksKeepBaselineEvents(
    simulation: PaymentSimulation, components: seq<Component>, reproduces: FailurePredicate, k: nat)
    requires AllAttacked(simulation, components).Ok?
    requires reproduces(AllAttacked(simulation, components).value)
    requires k < |Shrunk(AllAttacked(simulation, components).value, reproduces).events|
    ensures Word(Shrunk(AllAttacked(simulation, components).value, reproduces).events)[k] in Word(simulation.events)
  {
    var attacked := AllAttacked(simulation, components).value;
    var r := Shrunk(attacked, reproduces);
    ShrunkIsOneMinimal(attacked, reproduces);
    ScenariosConserveEvents(simulation, components);
    var payload := Payloads(r.events)[k];
    SubsequenceMembers(Payloads(r.events), Payloads(attacked.events), payload);
    assert payload in multiset(Payloads(attacked.events));
    assert payload in Payloads(simulation.events);
    var i :| 0 <= i < |simulation.events| && Payloads(simulation.events)[i] == payload;
    assert Word(simulation.events)[i] == payload.event == Word(r.events)[k];
  }

  lemma AcceptedWordsNeverCancel(start: PaymentState, word: seq<PaymentEvent>)
    requires Reach(start, word).Some?
    ensures Cancel !in word
  {
    ReachedIsListed(start, word);
  }

  /**
   * Whatever accepted baseline and whatever executed scenario with a duplicate, chunk shrinking ends in one of
   * the listed words, and never in the cancellation: from created states, in one of five words.
   */
  lemma DuplicateScenariosShrinkToFiveWords(simulation: PaymentSimulation, scenario: AdversarialScenario)
    requires Executed(simulation, scenario).Ok?
    requires HasDuplicate(scenario.components)
    ensures var attacked := Executed(simulation, scenario).value.adversarialSimulation;
            && Word(Shrunk(attacked, Rejects).events) in MinimalWordsOf(simulation) - {[Cancel]}
            && (StartsCreated(simulation) ==> Word(Shrunk(attacked, Rejects).events) in FIVE_WORDS)
  {
    var attacked := AllAttacked(simulation, scenario.components).value;
    ScenarioWithADuplicateIsRejected(simulation, scenario);
    ScenariosConserveEvents(simulation, scenario.components);
    ChunkShrinkingReachesTheMinimalWords(attacked);
    CompletedRunIsAPaymentWord(simulation.initialPayment, simulation.initialOrder, simulation.events);
    AcceptedWordsNeverCancel(simulation.initialPayment.state, Word(simulation.events));
    if Word(Shrunk(attacked, Rejects).events) == [Cancel] {
      ShrunkAttacksKeepBaselineEvents(simulation, scenario.components, Rejects, 0);
      assert false;
    }
  }
}
