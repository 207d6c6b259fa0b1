/** Scenarios of one component: where they fail and what their counterexamples are. */
module LoneAttacks {
  import opened Results
  import opened Payments
  import opened Simulations
  import opened Runner
  import opened Lockstep
  import opened Sequences
  import opened Subsequences
  import opened Streams
  import opened Scenarios
  import opened Executor
  import opened PrefixShrinker
  import opened ChunkShrinker
  import opened MinimalFailures
  import opened Attacks

  function LoneScenario(c: Component): AdversarialScenario
    requires Belongs(c.simulationId, c)
  {
    ScenarioFields(c.simulationId, [c])
  }

  /** The component alone executes, on an accepted baseline, to the given simulation. */
  predicate ExecutesTo(simulation: PaymentSimulation, c: Component, attacked: PaymentSimulation) {
    && Belongs(simulation.id, c)
    && Executed(simulation, LoneScenario(c)).Ok?
    && Executed(simulation, LoneScenario(c)).value.adversarialSimulation == attacked
  }

  lemma LoneAttackIsItsRewriting(simulation: PaymentSimulation, c: Component)
    requires Belongs(simulation.id, c) && !Rejects(simulation)
    ensures Executed(simulation, LoneScenario(c)).Ok? <==> Attacked(simulation, c).Ok?
    ensures Attacked(simulation, c).Ok? ==> ExecutesTo(simulation, c, Attacked(simulation, c).value)
  {
    assert [c][..0] == [];
    assert AllAttacked(simulation, [c]) == Attacked(simulation, c);
  }

  /** An accepted stream cut off behind an event stops at a copy of that event. */
  lemma CopyIsRejected(
    payment: Payment, order: PaymentOrder, events: seq<SimulationEvent>, t: nat, copy: SimulationEvent)
    requires t < |events| && Advance(payment, order, events).Running? && copy.event == events[t].event
    ensures Advance(payment, order, events[..t + 1] + [copy]) == Stopped(InvalidPaymentTransition, t + 1)
  {
    var upToEvent, upToCopy := events[..t + 1], events[..t + 1] + [copy];
    AdvanceOfPrefix(payment, order, events, t + 1);
    assert upToEvent[..t] == events[..t] && upToCopy[..t + 1] == upToEvent;
    NoEventIsAcceptedTwiceInARow(Advance(payment, order, events[..t]).payment, events[t].event);
  }

  lemma DuplicatedStreamStops(simulation: PaymentSimulation, t: nat)
    requires t < |simulation.events| && !Rejects(simulation)
    ensures OutcomeOf(WithEvents(simulation, Duplicated(simulation.events, t)))
            == Rejected(InvalidPaymentTransition, t + 1)
  {
    var payment, order, events := simulation.initialPayment, simulation.initialOrder, simulation.events;
    var attacked := WithEvents(simulation, Duplicated(events, t)).events;
    CopyIsRejected(payment, order, events, t, attacked[t + 1]);
    assert attacked[..t + 2] == events[..t + 1] + [attacked[t + 1]];
    AdvanceOfPrefix(payment, order, attacked, t + 2);
  }

  /** From any initial states, a lone duplicate of the event at `t` is rejected exactly at its second delivery. */
  lemma LoneDuplicateIsRejectedAtItsCopy(simulation: PaymentSimulation, t: nat)
    requires t < |simulation.events| && !Rejects(simulation)
    ensures var attacked := WithEvents(simulation, Duplicated(simulation.events, t));
            && ExecutesTo(simulation, DuplicateEvent(simulation.id, t), attacked)
            && OutcomeOf(attacked) == Rejected(InvalidPaymentTransition, t + 1)
            && |PrefixShrunk(attacked, Rejects).events| == t + 2
  {
    LoneAttackIsItsRewriting(simulation, DuplicateEvent(simulation.id, t));
    DuplicatedStreamStops(simulation, t);
    PrefixShrunkEndsAtTheRejectedEvent(WithEvents(simulation, Duplicated(simulation.events, t)));
  }

  lemma MovedWordsDiffer(word: seq<PaymentEvent>, source: nat, target: nat)
    requires Distinct(word) && source < |word| && target < |word| && source != target
    ensures Moved(word, source, target) != word
  {
    assert Moved(word, source, target)[target] == word[source] != word[target];
  }

  /** A lone move always takes an accepted word out of the payment language. */
  lemma MovedWordIsNotAccepted(start: PaymentState, word: seq<PaymentEvent>, source: nat, target: nat)
    requires Reach(start, word).Some?
    requires source < |word| && target < |word| && source != target
    ensures Reach(start, Moved(word, source, target)).None?
  {
    AcceptedWordsNeverRepeat(start, word);
    MovedWordsDiffer(word, source, target);
    MovingConserves(word, source, target);
    if Reach(start, Moved(word, source, target)).Some? {
      AcceptedWordsAreDeterminedByTheirEvents(start, word, Moved(word, source, target));
    }
  }

  /** How far a moved accepted word still runs: to the first displaced place, one more for AUTHORIZE, FAIL. */
  function MoveStopsAt(word: seq<PaymentEvent>, source: nat, target: nat): nat {
    (if source < target then source else target) + if word == [Authorize, Fail] then 1 else 0
  }

  lemma MovedShortWordStops(start: PaymentState, word: seq<PaymentEvent>, moved: seq<PaymentEvent>, stop: nat)
    requires Accepts(start, word, PaymentState.Captured) || Accepts(start, word, PaymentState.Refunded)
    requires stop < |moved| == |word| && moved[..stop] == word[..stop]
    requires moved[stop] in word && moved[stop] !in word[..stop + 1]
    ensures Reach(start, moved[..stop + 1]).None?
  {
    var longer := moved[..stop + 1];
    if Reach(start, longer).Some? {
      ReachedIsListed(start, longer);
      assert false;
    }
  }

  lemma MovedWordRunsUpTo(start: PaymentState, word: seq<PaymentEvent>, source: nat, target: nat)
    requires Reach(start, word).Some?
    requires source < |word| && target < |word| && source != target
    ensures var stop := MoveStopsAt(word, source, target);
            && stop < |word|
            && Reach(start, Moved(word, source, target)[..stop]).Some?
            && Reach(start, Moved(word, source, target)[..stop + 1]).None?
  {
    var moved, stop := Moved(word, source, target), MoveStopsAt(word, source, target);
    ReachedIsListed(start, word);
    if word == [Authorize, Fail] {
      MovedWordIsNotAccepted(start, word, source, target);
      assert moved == [Fail, Authorize];
      assert moved[..1] == [Fail];
      ListedIsReached(start, moved[..1], PaymentState.Failed);
      assert moved[..2] == moved;
    } else {
      AcceptedWordsNeverRepeat(start, word);
      ReachOfPrefix(start, word, stop);
      assert moved[..stop] == word[..stop];
      var k := MovedFrom(source, target, stop);
      assert moved[stop] == word[k] && k > stop;
      assert forall i | 0 <= i < stop + 1 :: word[..stop + 1][i] == word[i];
      MovedShortWordStops(start, word, moved, stop);
    }
  }

  /** A word is left at one index only. */
  lemma StopIsUnique(start: PaymentState, word: seq<PaymentEvent>, i: nat, j: nat)
    requires i < |word| && j < |word|
    requires Reach(start, word[..i]).Some? && Reach(start, word[..i + 1]).None?
    requires Reach(start, word[..j]).Some? && Reach(start, word[..j + 1]).None?
    ensures i == j
  {
    if i < j {
      assert word[..j][..i + 1] == word[..i + 1];
      ReachOfPrefix(start, word[..j], i + 1);
    } else if j < i {
      assert word[..i][..j + 1] == word[..j + 1];
      ReachOfPrefix(start, word[..i], j + 1);
    }
  }

  lemma MovedWordIsTheWordMoved(events: seq<SimulationEvent>, source: nat, target: nat)
    requires source < |events| && target < |events|
    ensures Word(Renumber(Moved(events, source, target))) == Moved(Word(events), source, target)
  {
  }

  /** In step, a run is rejected where its word leaves the payment language. */
  lemma RejectedWhereTheWordStops(payment: Payment, order: PaymentOrder, events: seq<SimulationEvent>, stop: nat)
    requires InStep(payment, order) && stop < |events|
    requires Reach(payment.state, Word(events)[..stop]).Some?
    requires Reach(payment.state, Word(events)[..stop + 1]).None?
    ensures Advance(payment, order, events) == Stopped(InvalidPaymentTransition, stop)
  {
    RunStaysInStep(payment, order, events);
    ReachOfPrefix(payment.state, Word(events), stop + 1);
    if Advance(payment, order, events).Running? {
      CompletedRunIsAPaymentWord(payment, order, events);
    } else {
      RejectedRunLeavesTheLanguage(payment, order, events);
      StopIsUnique(payment.state, Word(events), Advance(payment, order, events).index, stop);
    }
  }

  lemma AcceptedStreamsThatCanMoveAreInStep(simulation: PaymentSimulation)
    requires !Rejects(simulation) && |simulation.events| >= 2
    ensures InStep(simulation.initialPayment, simulation.initialOrder)
    ensures Reach(simulation.initialPayment.state, Word(simulation.events)).Some?
  {
    RejectionIsAPropertyOfTheWord(simulation);
    assert |Word(simulation.events)| == |simulation.events|;
  }

  /** From any initial states a lone in-range move of an accepted baseline is rejected where `MoveStopsAt` says. */
  lemma LoneMoveIsRejected(simulation: PaymentSimulation, source: nat, target: nat)
    requires source < |simulation.events| && target < |simulation.events| && source != target
    requires !Rejects(simulation)
    ensures var attacked := WithEvents(simulation, Moved(simulation.events, source, target));
            && ExecutesTo(simulation, OutOfOrderEvent(simulation.id, source, target), attacked)
            && OutcomeOf(attacked)
               == Rejected(InvalidPaymentTransition, MoveStopsAt(Word(simulation.events), source, target))
  {
    var payment, order, events := simulation.initialPayment, simulation.initialOrder, simulation.events;
    LoneAttackIsItsRewriting(simulation, OutOfOrderEvent(simulation.id, source, target));
    AcceptedStreamsThatCanMoveAreInStep(simulation);
    MovedWordRunsUpTo(payment.state, Word(events), source, target);
    MovedWordIsTheWordMoved(events, source, target);
    RejectedWhereTheWordStops(
      payment, order, Renumber(Moved(events, source, target)), MoveStopsAt(Word(events), source, target));
  }

  /** A component that rewrites a stream of `n` events: a duplicate or a move with its positions in range. */
  predicate Rewrites(c: Component, n: nat) {
    || (c.DuplicateEvent? && c.targetSequence < n)
    || (c.OutOfOrderEvent? && c.sourceSequence < n && c.targetSequence < n)
  }

  /** From any initial states, a lone component makes an accepted baseline fail exactly when it rewrites the stream. */
  lemma LoneAttackFailsIffItRewrites(simulation: PaymentSimulation, c: Component)
    requires Belongs(simulation.id, c) && !Rejects(simulation)
    ensures (exists attacked :: ExecutesTo(simulation, c, attacked) && Rejects(attacked))
            <==> Rewrites(c, |simulation.events|)
  {
    LoneAttackIsItsRewriting(simulation, c);
    if Rewrites(c, |simulation.events|) {
      if c.DuplicateEvent? {
        LoneDuplicateIsRejectedAtItsCopy(simulation, c.targetSequence);
      } else {
        LoneMoveIsRejected(simulation, c.sourceSequence, c.targetSequence);
      }
      assert ExecutesTo(simulation, c, Attacked(simulation, c).value) && Rejects(Attacked(simulation, c).value);
    }
  }

  /** The component duplicates the first event, moves it away, or moves another one into its place. */
  predicate TouchesTheFirst(c: Component) {
    || (c.DuplicateEvent? && c.targetSequence == 0)
    || (c.OutOfOrderEvent? && (c.sourceSequence == 0 || c.targetSequence == 0))
  }

  lemma DuplicatedWord(events: seq<SimulationEvent>, t: nat)
    requires t < |events|
    ensures Word(Renumber(Duplicated(events, t)))[..t + 2] == Word(events)[..t + 1] + [Word(events)[t]]
  {
  }

  /** The word that the run of a lone duplicate stops on. */
  lemma DuplicateStopsOn(simulation: PaymentSimulation, t: nat)
    requires t < |simulation.events| && !Rejects(simulation)
    ensures var attacked := WithEvents(simulation, Duplicated(simulation.events, t));
            var stopped := Word(simulation.events)[..t + 1] + [Word(simulation.events)[t]];
            && Rejects(attacked)
            && Word(PrefixShrunk(attacked, Rejects).events) == stopped
            && (OneMinimal(PrefixShrunk(attacked, Rejects), Rejects) <==> stopped in MinimalWordsOf(simulation))
  {
    DuplicatedStreamStops(simulation, t);
    PrefixShrunkIsMinimalIffMinimalWord(WithEvents(simulation, Duplicated(simulation.events, t)));
    DuplicatedWord(simulation.events, t);
  }

  /** The word that the run of a lone move stops on. */
  lemma MoveStopsOn(simulation: PaymentSimulation, source: nat, target: nat)
    requires source < |simulation.events| && target < |simulation.events| && source != target
    requires !Rejects(simulation)
    ensures var attacked := WithEvents(simulation, Moved(simulation.events, source, target));
            var moved := Moved(Word(simulation.events), source, target);
            var stop := MoveStopsAt(Word(simulation.events), source, target) + 1;
            && Rejects(attacked) && stop <= |moved|
            && Word(PrefixShrunk(attacked, Rejects).events) == moved[..stop]
            && (OneMinimal(PrefixShrunk(attacked, Rejects), Rejects) <==> moved[..stop] in MinimalWordsOf(simulation))
  {
    LoneMoveIsRejected(simulation, source, target);
    PrefixShrunkIsMinimalIffMinimalWord(WithEvents(simulation, Moved(simulation.events, source, target)));
    MovedWordIsTheWordMoved(simulation.events, source, target);
  }

  lemma DuplicatedPrefixIsMinimalIffFirst(payment: Payment, order: PaymentOrder, word: seq<PaymentEvent>, t: nat)
    requires RunsThrough(payment, order, word) && t < |word|
    ensures word[..t + 1] + [word[t]] in MinimalWords(payment, order) <==> t == 0
    ensures t == 0 ==> NextPaymentState(payment.state, word[t]).Some?
  {
    var stopped := word[..t + 1] + [word[t]];
    assert |stopped| == t + 2;
    if t == 0 {
      assert stopped == [word[0], word[0]];
      if InStep(payment, order) {
        ReachedIsListed(payment.state, word);
      }
    }
  }

  /** The word that a lone move shrinks to: the first displaced event, or AUTHORIZE, FAIL exchanged. */
  function Displaced(word: seq<PaymentEvent>, source: nat, target: nat): seq<PaymentEvent>
    requires source < |word| && target < |word|
  {
    if word == [Authorize, Fail] then [Fail, Authorize]
    else [Moved(word, source, target)[if source < target then source else target]]
  }

  lemma MovedPrefixes(start: PaymentState, word: seq<PaymentEvent>, source: nat, target: nat)
    requires Reach(start, word).Some? && source < |word| && target < |word| && source != target
    ensures var stop := MoveStopsAt(word, source, target) + 1;
            && stop <= |word|
            && Moved(word, source, target)[..stop]
               == if source == 0 || target == 0 then Displaced(word, source, target) else [Authorize, Refund]
    ensures source != 0 && target != 0 ==> start == PaymentState.Created && Displaced(word, source, target) == [Refund]
  {
    var moved, stop := Moved(word, source, target), MoveStopsAt(word, source, target) + 1;
    ReachedIsListed(start, word);
    if word == [Authorize, Fail] {
      assert moved[..stop] == [Fail, Authorize];
    } else if stop == 1 {
      assert moved[..stop] == [moved[0]];
    } else {
      assert moved[..stop] == [Authorize, Refund];
    }
  }

  lemma MovedPrefixIsMinimalIffFirst(
    payment: Payment, order: PaymentOrder, word: seq<PaymentEvent>, source: nat, target: nat)
    requires InStep(payment, order) && Reach(payment.state, word).Some?
    requires source < |word| && target < |word| && source != target
    ensures var stop := MoveStopsAt(word, source, target) + 1;
            && stop <= |word|
            && (Moved(word, source, target)[..stop] in MinimalWords(payment, order) <==> source == 0 || target == 0)
  {
    MovedPrefixes(payment.state, word, source, target);
    ReachedIsListed(payment.state, word);
  }

  lemma LoneDuplicateShrinksMinimallyIffFirst(simulation: PaymentSimulation, t: nat)
    requires t < |simulation.events| && !Rejects(simulation)
    ensures var attacked := WithEvents(simulation, Duplicated(simulation.events, t));
            Rejects(attacked) && (OneMinimal(PrefixShrunk(attacked, Rejects), Rejects) <==> t == 0)
  {
    DuplicateStopsOn(simulation, t);
    RejectionIsAPropertyOfTheWord(simulation);
    DuplicatedPrefixIsMinimalIffFirst(
      simulation.initialPayment, simulation.initialOrder, Word(simulation.events), t);
  }

  lemma LoneMoveShrinksMinimallyIffFirst(simulation: PaymentSimulation, source: nat, target: nat)
    requires source < |simulation.events| && target < |simulation.events| && source != target
    requires !Rejects(simulation)
    ensures var attacked := WithEvents(simulation, Moved(simulation.events, source, target));
            && Rejects(attacked)
            && (OneMinimal(PrefixShrunk(attacked, Rejects), Rejects) <==> source == 0 || target == 0)
  {
    MoveStopsOn(simulation, source, target);
    AcceptedStreamsThatCanMoveAreInStep(simulation);
    MovedPrefixIsMinimalIffFirst(
      simulation.initialPayment, simulation.initialOrder, Word(simulation.events), source, target);
  }

  /**
   * From any initial states, the prefix shrinker's counterexample of a lone attack is minimal exactly when the
   * attack touches the first event.
   */
  lemma LoneAttackShrinksMinimallyIffItTouchesTheFirst(simulation: PaymentSimulation, c: Component)
    requires Belongs(simulation.id, c) && !Rejects(simulation) && Rewrites(c, |simulation.events|)
    ensures Attacked(simulation, c).Ok? && ExecutesTo(simulation, c, Attacked(simulation, c).value)
    ensures var attacked := Attacked(simulation, c).value;
            Rejects(attacked) && (OneMinimal(PrefixShrunk(attacked, Rejects), Rejects) <==> TouchesTheFirst(c))
  {
    LoneAttackIsItsRewriting(simulation, c);
    if c.DuplicateEvent? {
      LoneDuplicateShrinksMinimallyIffFirst(simulation, c.targetSequence);
    } else {
      LoneMoveShrinksMinimallyIffFirst(simulation, c.sourceSequence, c.targetSequence);
    }
  }

  /** A baseline on which it is not: AUTHORIZE, CAPTURE with the second event delivered twice. */
  lemma PrefixShrunkNeedNotBeMinimal(simulation: PaymentSimulation)
    requires StartsCreated(simulation) && Word(simulation.events) == [Authorize, Capture]
    ensures var attacked := WithEvents(simulation, Duplicated(simulation.events, 1));
            && ExecutesTo(simulation, DuplicateEvent(simulation.id, 1), attacked)
            && Word(attacked.events) == [Authorize, Capture, Capture]
            && Rejects(attacked) && PrefixShrunk(attacked, Rejects) == attacked && !OneMinimal(attacked, Rejects)
  {
    RejectionIsAPropertyOfTheWord(simulation);
    ReachOfShortWords(PaymentState.Created, Word(simulation.events));
    assert |simulation.events| == |Word(simulation.events)| == 2;
    var attacked := WithEvents(simulation, Duplicated(simulation.events, 1));
    LoneDuplicateIsRejectedAtItsCopy(simulation, 1);
    ShrinkingStopsAtTheFirstGap(attacked, Rejects);
    assert PrefixShrunk(attacked, Rejects) == attacked;
    LoneAttackShrinksMinimallyIffItTouchesTheFirst(simulation, DuplicateEvent(simulation.id, 1));
    assert Word(attacked.events) == [Authorize, Capture, Capture];
  }

  lemma WordsOfReducedSimulations(r: PaymentSimulation, simulation: PaymentSimulation)
    requires ReducedFrom(r, simulation)
    ensures SubsequenceOf(Word(r.events), Word(simulation.events))
  {
    var f: seq<nat> :| Embeds(f, Payloads(r.events), Payloads(simulation.events));
    forall i | 0 <= i < |r.events|
      ensures Word(r.events)[i] == Word(simulation.events)[f[i]]
    {
      assert Payloads(r.events)[i] == Payloads(simulation.events)[f[i]];
    }
    assert Embeds(f, Word(r.events), Word(simulation.events));
  }

  /** Chunk removal from a failing simulation ends in a listed word that stands in the simulation's. */
  lemma ChunkShrunkWordIsEmbedded(simulation: PaymentSimulation, size: nat)
    requires Rejects(simulation) && size > 0
    ensures var word := Word(ChunkShrunk(simulation, Rejects, size).events);
            word in MinimalWordsOf(simulation) && SubsequenceOf(word, Word(simulation.events))
  {
    var r := ChunkShrunk(simulation, Rejects, size);
    ChunkShrinkingIsSound(simulation, Rejects, size);
    MinimalityIsAPropertyOfTheWord(r);
    WordsOfReducedSimulations(r, simulation);
  }

  lemma ListedWordsAreShort(payment: Payment, order: PaymentOrder, word: seq<PaymentEvent>)
    requires word in MinimalWords(payment, order)
    ensures 1 <= |word| <= 2
  {
  }

  /** What of one or two events stands in a word whose second event is repeated. */
  lemma EmbeddedShortWord(short: seq<PaymentEvent>, first: PaymentEvent, event: PaymentEvent)
    requires SubsequenceOf(short, [first, event, event]) && 1 <= |short| <= 2
    ensures short in {[first], [event], [first, event], [event, event]}
  {
    var f: seq<nat> :| Embeds(f, short, [first, event, event]);
    if |short| == 1 {
      assert short == [short[0]];
    } else {
      assert f[0] < f[1] && short == [short[0], short[1]];
    }
  }

  /** What a repeated event shrinks to: the event alone if the initial state rejects it, and else the pair. */
  function Repetition(start: PaymentState, event: PaymentEvent): seq<PaymentEvent> {
    if NextPaymentState(start, event).Some? then [event, event] else [event]
  }

  /** The only listed word in an accepted pair whose second event is repeated. */
  lemma ListedWordInADuplicatedPair(
    payment: Payment, order: PaymentOrder, first: PaymentEvent, event: PaymentEvent, short: seq<PaymentEvent>)
    requires InStep(payment, order) && Reach(payment.state, [first, event]).Some?
    requires short in MinimalWords(payment, order) && SubsequenceOf(short, [first, event, event])
    ensures short == Repetition(payment.state, event)
  {
    ListedWordsAreShort(payment, order, short);
    EmbeddedShortWord(short, first, event);
    ListedWordsAreMinimallyRejected(payment, order, short);
    ReachOfShortWords(payment.state, [first]);
    ReachOfShortWords(payment.state, [first, event]);
    ReachOfShortWords(payment.state, [event]);
    if short == [event, event] {
      assert RunsThrough(payment, order, short[..0] + short[1..]) && short[..0] + short[1..] == [event];
    }
  }

  lemma OneKindStays(short: seq<PaymentEvent>, word: seq<PaymentEvent>, event: PaymentEvent)
    requires SubsequenceOf(short, word) && forall i | 0 <= i < |word| :: word[i] == event
    ensures forall i | 0 <= i < |short| :: short[i] == event
  {
  }

  lemma OneRefundIsListed(payment: Payment, order: PaymentOrder, short: seq<PaymentEvent>)
    requires InStep(payment, order) && payment.state == PaymentState.Created
    requires short in MinimalWords(payment, order) && forall i | 0 <= i < |short| :: short[i] == Refund
    ensures short == [Refund]
  {
    ListedWordsAreShort(payment, order, short);
    assert short == if |short| == 1 then [Refund] else [Refund, Refund];
  }

  lemma RefundsShrinkToOne(simulation: PaymentSimulation, size: nat)
    requires size > 0 && Rejects(simulation) && Word(simulation.events) == [Refund, Refund]
    requires InStep(simulation.initialPayment, simulation.initialOrder)
    requires simulation.initialPayment.state == PaymentState.Created
    ensures Word(ChunkShrunk(simulation, Rejects, size).events) == [Refund]
  {
    var short := Word(ChunkShrunk(simulation, Rejects, size).events);
    ChunkShrunkWordIsEmbedded(simulation, size);
    OneKindStays(short, [Refund, Refund], Refund);
    OneRefundIsListed(simulation.initialPayment, simulation.initialOrder, short);
  }

  /** The longest duplicate: the first pass removes AUTHORIZE and CAPTURE together. */
  lemma DuplicatedRefundShrinks(simulation: PaymentSimulation)
    requires InStep(simulation.initialPayment, simulation.initialOrder)
    requires simulation.initialPayment.state == PaymentState.Created
    requires Word(simulation.events) == [Authorize, Capture, Refund, Refund] && Rejects(simulation)
    ensures Word(ChunkShrunk(simulation, Rejects, FirstChunkSize(simulation)).events) == [Refund]
  {
    assert |simulation.events| == |Word(simulation.events)| == 4;
    var rest := Without(simulation, 0, 2);
    assert Word(rest.events) == [Refund, Refund] by {
      assert Word(simulation.events[..0] + simulation.events[2..]) == Word(simulation.events)[2..];
    }
    ReachOfShortWords(PaymentState.Created, Word(rest.events));
    RejectionIsAPropertyOfTheWord(rest);
    assert FirstRemovable(simulation, Rejects, 2, 0) == Some(0);
    assert FirstChunkSize(simulation) == 2;
    RefundsShrinkToOne(rest, 2);
  }

  /** A later event repeated right after it was accepted shrinks to its repetition. */
  lemma RepeatedLaterEventShrinks(simulation: PaymentSimulation, word: seq<PaymentEvent>, t: nat)
    requires InStep(simulation.initialPayment, simulation.initialOrder)
    requires Reach(simulation.initialPayment.state, word).Some? && 1 <= t < |word|
    requires Word(simulation.events) == word[..t + 1] + [word[t]] && Rejects(simulation)
    ensures Word(ChunkShrunk(simulation, Rejects, FirstChunkSize(simulation)).events)
            == Repetition(simulation.initialPayment.state, word[t])
  {
    var payment, order := simulation.initialPayment, simulation.initialOrder;
    if t == 1 {
      ReachOfPrefix(payment.state, word, 2);
      assert word[..2] == [word[0], word[1]];
      assert Word(simulation.events) == [word[0], word[1], word[1]];
      ChunkShrunkWordIsEmbedded(simulation, FirstChunkSize(simulation));
      ListedWordInADuplicatedPair(
        payment, order, word[0], word[1], Word(ChunkShrunk(simulation, Rejects, FirstChunkSize(simulation)).events));
    } else {
      ReachedIsListed(payment.state, word);
      assert Word(simulation.events) == [Authorize, Capture, Refund, Refund];
      DuplicatedRefundShrinks(simulation);
    }
  }

  /**
   * From any initial states, chunk shrinking a lone duplicate leaves its event: once if the initial state
   * rejects it, and else twice.
   */
  lemma LoneDuplicateShrinksToItsEvent(simulation: PaymentSimulation, t: nat)
    requires t < |simulation.events| && !Rejects(simulation)
    ensures var attacked := WithEvents(simulation, Duplicated(simulation.events, t));
            && ExecutesTo(simulation, DuplicateEvent(simulation.id, t), attacked)
            && Word(Shrunk(attacked, Rejects).events)
               == Repetition(simulation.initialPayment.state, simulation.events[t].event)
  {
    var word := Word(simulation.events);
    var attacked := WithEvents(simulation, Duplicated(simulation.events, t));
    LoneDuplicateIsRejectedAtItsCopy(simulation, t);
    PrefixShrunkEndsAtTheRejectedEvent(attacked);
    DuplicateStopsOn(simulation, t);
    LoneDuplicateShrinksMinimallyIffFirst(simulation, t);
    if t == 0 {
      RejectionIsAPropertyOfTheWord(simulation);
      DuplicatedPrefixIsMinimalIffFirst(simulation.initialPayment, simulation.initialOrder, word, t);
      ShrinkersAgreeWherePrefixesAreMinimal(attacked);
      assert word[..1] + [word[0]] == [word[0], word[0]];
    } else {
      AcceptedStreamsThatCanMoveAreInStep(simulation);
      RepeatedLaterEventShrinks(PrefixShrunk(attacked, Rejects), word, t);
    }
  }

  /** The chunk shrinker drops AUTHORIZE from AUTHORIZE, REFUND. */
  lemma RefundTooEarlyShrinks(simulation: PaymentSimulation)
    requires InStep(simulation.initialPayment, simulation.initialOrder)
    requires simulation.initialPayment.state == PaymentState.Created
    requires Word(simulation.events) == [Authorize, Refund] && Rejects(simulation)
    ensures Word(ChunkShrunk(simulation, Rejects, FirstChunkSize(simulation)).events) == [Refund]
  {
    assert |simulation.events| == |Word(simulation.events)| == 2;
    var rest := Without(simulation, 0, 1);
    WordWithout(simulation, 0);
    assert Word(rest.events) == [Refund];
    ReachOfShortWords(PaymentState.Created, Word(rest.events));
    RejectionIsAPropertyOfTheWord(rest);
    assert FirstRemovable(simulation, Rejects, 1, 0) == Some(0);
    MinimalSimulationsAreLeftAlone(rest);
  }

  /**
   * From any initial states, chunk shrinking a lone move leaves the first displaced event, or both events when
   * AUTHORIZE, FAIL are exchanged.
   */
  lemma LoneMoveShrinksToTheFirstDisplacedEvent(simulation: PaymentSimulation, source: nat, target: nat)
    requires source < |simulation.events| && target < |simulation.events| && source != target
    requires !Rejects(simulation)
    ensures var attacked := WithEvents(simulation, Moved(simulation.events, source, target));
            && ExecutesTo(simulation, OutOfOrderEvent(simulation.id, source, target), attacked)
            && Word(Shrunk(attacked, Rejects).events) == Displaced(Word(simulation.events), source, target)
  {
    var attacked := WithEvents(simulation, Moved(simulation.events, source, target));
    LoneMoveIsRejected(simulation, source, target);
    PrefixShrunkEndsAtTheRejectedEvent(attacked);
    MoveStopsOn(simulation, source, target);
    LoneMoveShrinksMinimallyIffFirst(simulation, source, target);
    AcceptedStreamsThatCanMoveAreInStep(simulation);
    MovedPrefixes(simulation.initialPayment.state, Word(simulation.events), source, target);
    if source == 0 || target == 0 {
      ShrinkersAgreeWherePrefixesAreMinimal(attacked);
    } else {
      RefundTooEarlyShrinks(PrefixShrunk(attacked, Rejects));
    }
  }

  /** A created simulation of a word. */
  function Baseline(word: seq<PaymentEvent>): (simulation: PaymentSimulation)
    ensures StartsCreated(simulation) && Word(simulation.events) == word
  {
    SimulationFields(
      0, Payment(0, 1, "INR", PaymentState.Created, 0, 0), PaymentOrder(1, "INR", OrderState.Created, 0, 0),
      seq(|word|, i requires 0 <= i < |word| => SimulationEvent(i, word[i], i, i)), 0)
  }

  /** AUTHORIZE, FAIL exchanged, with AUTHORIZE then delivered twice. */
  lemma ExchangeAndDuplicate(simulation: PaymentSimulation, scenario: AdversarialScenario)
    requires StartsCreated(simulation) && Word(simulation.events) == [Authorize, Fail]
    requires scenario.simulationId == simulation.id
    requires scenario.components == [OutOfOrderEvent(simulation.id, 1, 0), DuplicateEvent(simulation.id, 1)]
    ensures Executed(simulation, scenario).Ok?
    ensures Word(Shrunk(Executed(simulation, scenario).value.adversarialSimulation, Rejects).events) == [Fail, Authorize]
  {
    assert |simulation.events| == |Word(simulation.events)| == 2;
    ReachOfShortWords(PaymentState.Created, Word(simulation.events));
    RejectionIsAPropertyOfTheWord(simulation);
    var exchanged := WithEvents(simulation, Moved(simulation.events, 1, 0));
    var attacked := WithEvents(exchanged, Duplicated(exchanged.events, 1));
    LoneMoveIsRejected(simulation, 1, 0);
    assert scenario.components[..1] == [scenario.components[0]];
    LoneAttackIsItsRewriting(simulation, scenario.components[0]);
    assert AllAttacked(simulation, scenario.components[..1]) == Ok(exchanged);
    assert AllAttacked(simulation, scenario.components) == Ok(attacked);
    assert attacked.events[..2] == exchanged.events;
    AdvanceOfPrefix(simulation.initialPayment, simulation.initialOrder, attacked.events, 2);
    MovedWordIsTheWordMoved(simulation.events, 1, 0);
    assert Word(attacked.events)[..2] == Word(exchanged.events) == [Fail, Authorize];
    PrefixShrunkIsMinimalIffMinimalWord(attacked);
    ShrinkersAgreeWherePrefixesAreMinimal(attacked);
  }

  /** The duplicate that shrinks to a word, on its baseline. */
  lemma DuplicateReaches(baseline: seq<PaymentEvent>, t: nat) returns (scenario: AdversarialScenario)
    requires Reach(PaymentState.Created, baseline).Some? && t < |baseline|
    ensures HasDuplicate(scenario.components) && Executed(Baseline(baseline), scenario).Ok?
    ensures Word(Shrunk(Executed(Baseline(baseline), scenario).value.adversarialSimulation, Rejects).events)
            == Repetition(PaymentState.Created, baseline[t])
  {
    var simulation := Baseline(baseline);
    RejectionIsAPropertyOfTheWord(simulation);
    assert |simulation.events| == |Word(simulation.events)| && simulation.events[t].event == baseline[t];
    var c := DuplicateEvent(simulation.id, t);
    scenario := LoneScenario(c);
    assert scenario.components[0].DuplicateEvent?;
    LoneDuplicateShrinksToItsEvent(simulation, t);
  }

  /** An accepted word that ends in an event. */
  lemma WordUpTo(event: PaymentEvent) returns (word: seq<PaymentEvent>)
    requires event != Cancel
    ensures word != [] && word[|word| - 1] == event && Reach(PaymentState.Created, word).Some?
  {
    match event
    case Authorize => word := [Authorize]; ListedIsReached(PaymentState.Created, word, PaymentState.Authorized);
    case Fail => word := [Fail]; ListedIsReached(PaymentState.Created, word, PaymentState.Failed);
    case Capture => word := [Authorize, Capture]; ListedIsReached(PaymentState.Created, word, PaymentState.Captured);
    case Refund =>
      word := [Authorize, Capture, Refund];
      ListedIsReached(PaymentState.Created, word, PaymentState.Refunded);
  }

  /** None of the five words can be left out: some scenario with a duplicate shrinks to it. */
  lemma EachOfTheFiveWordsIsReached(word: seq<PaymentEvent>)
    returns (simulation: PaymentSimulation, scenario: AdversarialScenario)
    requires word in FIVE_WORDS
    ensures StartsCreated(simulation) && HasDuplicate(scenario.components) && Executed(simulation, scenario).Ok?
    ensures Word(Shrunk(Executed(simulation, scenario).value.adversarialSimulation, Rejects).events) == word
  {
    if word == [Fail, Authorize] {
      simulation := Baseline([Authorize, Fail]);
      scenario := ScenarioFields(
        simulation.id, [OutOfOrderEvent(simulation.id, 1, 0), DuplicateEvent(simulation.id, 1)]);
      assert scenario.components[1].DuplicateEvent?;
      ExchangeAndDuplicate(simulation, scenario);
    } else {
      var baseline := WordUpTo(word[0]);
      simulation := Baseline(baseline);
      scenario := DuplicateReaches(baseline, |baseline| - 1);
    }
  }
}
