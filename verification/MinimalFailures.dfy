/** What the shrinkers return when the failure is a rejected transition. */
module MinimalFailures {
  import opened Results
  import opened Payments
  import opened Simulations
  import opened Runner
  import opened Lockstep
  import opened PrefixShrinker
  import opened ChunkShrinker

  /** A payment and an order that nothing has happened to yet. */
  predicate StartsCreated(simulation: PaymentSimulation) {
    simulation.initialPayment.state == PaymentState.Created && simulation.initialOrder.state == OrderState.Created
  }

  /** Rejection survives appending events, from any initial states. */
  lemma RejectionIsStable(simulation: PaymentSimulation)
    ensures StableUnderAppend(simulation, Rejects)
  {
    forall k | 0 <= k < |simulation.events|
      ensures StableAt(simulation, Rejects, k)
    {
      var longer := simulation.events[..k + 1];
      assert longer[..k] == simulation.events[..k];
      AdvanceOfPrefix(simulation.initialPayment, simulation.initialOrder, longer, k);
    }
  }

  lemma RejectionStartsAtTheRejectedEvent(simulation: PaymentSimulation)
    requires Rejects(simulation)
    ensures var index := OutcomeOf(simulation).index;
            && index < |simulation.events|
            && !Rejects(Prefix(simulation, index))
            && OutcomeOf(Prefix(simulation, index + 1)) == OutcomeOf(simulation)
  {
    StoppedAtItsIndex(simulation.initialPayment, simulation.initialOrder, simulation.events);
  }

  /** The prefix shrinker keeps the events up to and including the first rejected one. */
  lemma PrefixShrunkEndsAtTheRejectedEvent(simulation: PaymentSimulation)
    requires Rejects(simulation)
    ensures var r := PrefixShrunk(simulation, Rejects);
            && |r.events| == OutcomeOf(simulation).index + 1
            && IsShortestFailingPrefix(r, simulation, Rejects)
            && OutcomeOf(r) == OutcomeOf(simulation)
  {
    RejectionIsStable(simulation);
    RejectionStartsAtTheRejectedEvent(simulation);
    StableFailuresShrinkToTheirStart(simulation, Rejects, OutcomeOf(simulation).index + 1);
  }

  /** From any states no prefix-shrunk counterexample has more than four events. */
  lemma PrefixShrunkHasAtMostFourEvents(simulation: PaymentSimulation)
    requires Rejects(simulation)
    ensures 1 <= |PrefixShrunk(simulation, Rejects).events| <= 4
  {
    PrefixShrunkEndsAtTheRejectedEvent(simulation);
    RejectedRunLeavesTheLanguage(simulation.initialPayment, simulation.initialOrder, simulation.events);
    AcceptedWordsNeverRepeat(
      simulation.initialPayment.state, Word(simulation.events)[..OutcomeOf(simulation).index]);
  }

  const SINGLE_EVENTS: set<seq<PaymentEvent>> := {[Authorize], [Capture], [Refund], [Cancel], [Fail]}

  /** The words that chunk shrinking can return: six from created states, seven from authorized ones, five else. */
  function MinimalWords(payment: Payment, order: PaymentOrder): set<seq<PaymentEvent>> {
    if !InStep(payment, order) then
      if TransitionOrder(order, Fail).Ok? then {[Authorize], [Capture], [Refund], [Cancel], [Fail, Fail]}
      else SINGLE_EVENTS
    else
      match payment.state
      case Created => {[Capture], [Refund], [Cancel], [Authorize, Authorize], [Fail, Authorize], [Fail, Fail]}
      case Authorized =>
        {[Authorize], [Refund], [Cancel], [Capture, Capture], [Capture, Fail], [Fail, Capture], [Fail, Fail]}
      case Captured => {[Authorize], [Capture], [Cancel], [Fail], [Refund, Refund]}
      case _ => SINGLE_EVENTS
  }

  /** A word that does not run through, although it does without any one of its events. */
  ghost predicate MinimallyRejected(payment: Payment, order: PaymentOrder, word: seq<PaymentEvent>) {
    && !RunsThrough(payment, order, word)
    && forall k | 0 <= k < |word| :: RunsThrough(payment, order, word[..k] + word[k + 1..])
  }

  lemma ReachOfShortWords(start: PaymentState, word: seq<PaymentEvent>)
    ensures |word| == 1 ==> Reach(start, word) == NextPaymentState(start, word[0])
    ensures |word| == 2 ==>
              Reach(start, word) == match NextPaymentState(start, word[0])
                                    case None => None
                                    case Some(next) => NextPaymentState(next, word[1])
  {
    if |word| == 1 {
      assert word[..0] == [];
    } else if |word| == 2 {
      assert word[..1] == [word[0]] && word[..1][..0] == [];
    }
  }

  lemma ListedWordsAreMinimallyRejected(payment: Payment, order: PaymentOrder, word: seq<PaymentEvent>)
    requires word in MinimalWords(payment, order)
    ensures MinimallyRejected(payment, order, word)
  {
    ReachOfShortWords(payment.state, word);
    forall k | 0 <= k < |word|
      ensures RunsThrough(payment, order, word[..k] + word[k + 1..])
    {
      var rest := word[..k] + word[k + 1..];
      assert rest == if |word| == 1 then [] else [word[1 - k]];
      ReachOfShortWords(payment.state, rest);
    }
  }

  /** Words of three or more events are never minimal: their ends cannot both be accepted. */
  lemma AcceptedEndsMakeShortWords(start: PaymentState, word: seq<PaymentEvent>)
    requires |word| >= 2 && Reach(start, word[..|word| - 1]).Some? && Reach(start, word[1..]).Some?
    ensures |word| == 2
  {
    var init, tail := word[..|word| - 1], word[1..];
    ReachedIsListed(start, init);
    ReachedIsListed(start, tail);
    if |word| >= 3 {
      assert false;
    }
  }

  lemma MinimallyRejectedWordsAreListed(payment: Payment, order: PaymentOrder, word: seq<PaymentEvent>)
    requires MinimallyRejected(payment, order, word)
    ensures word in MinimalWords(payment, order)
  {
    assert word != [];
    var last := |word| - 1;
    var init, tail := word[..last], word[1..];
    assert RunsThrough(payment, order, word[..last] + word[last + 1..]) && init == word[..last] + word[last + 1..];
    assert RunsThrough(payment, order, word[..0] + word[0 + 1..]) && tail == word[..0] + word[0 + 1..];
    if |word| >= 2 && InStep(payment, order) {
      AcceptedEndsMakeShortWords(payment.state, word);
    }
    ReachOfShortWords(payment.state, word);
    ReachOfShortWords(payment.state, init);
    ReachOfShortWords(payment.state, tail);
    if |word| == 1 {
      assert word == [word[0]];
    } else {
      assert |word| == 2 && word == [word[0], word[1]] && init == [word[0]] && tail == [word[1]];
    }
  }

  /** From any states the listed words are exactly the minimally rejected ones. */
  lemma MinimalWordsAreTheMinimallyRejected(payment: Payment, order: PaymentOrder, word: seq<PaymentEvent>)
    ensures MinimallyRejected(payment, order, word) <==> word in MinimalWords(payment, order)
  {
    if MinimallyRejected(payment, order, word) {
      MinimallyRejectedWordsAreListed(payment, order, word);
    }
    if word in MinimalWords(payment, order) {
      ListedWordsAreMinimallyRejected(payment, order, word);
    }
  }

  /** The words that the simulation's initial states reject minimally. */
  function MinimalWordsOf(simulation: PaymentSimulation): set<seq<PaymentEvent>> {
    MinimalWords(simulation.initialPayment, simulation.initialOrder)
  }

  lemma WordWithout(simulation: PaymentSimulation, k: nat)
    requires k < |simulation.events|
    ensures Word(Without(simulation, k, 1).events)
            == Word(simulation.events)[..k] + Word(simulation.events)[k + 1..]
  {
    assert Word(simulation.events[..k] + simulation.events[k + 1..])
      == Word(simulation.events)[..k] + Word(simulation.events)[k + 1..];
  }

  /** From any states the one-minimal rejected simulations are those of the listed words. */
  lemma MinimalityIsAPropertyOfTheWord(simulation: PaymentSimulation)
    ensures Rejects(simulation) && OneMinimal(simulation, Rejects)
            <==> Word(simulation.events) in MinimalWordsOf(simulation)
  {
    var payment, order, word := simulation.initialPayment, simulation.initialOrder, Word(simulation.events);
    RejectionIsAPropertyOfTheWord(simulation);
    forall k | 0 <= k < |word|
      ensures Rejects(Without(simulation, k, 1)) <==> !RunsThrough(payment, order, word[..k] + word[k + 1..])
    {
      WordWithout(simulation, k);
      RejectionIsAPropertyOfTheWord(Without(simulation, k, 1));
    }
    MinimalWordsAreTheMinimallyRejected(payment, order, word);
  }

  /** Whatever the failing stream, its length and its initial states, chunk shrinking ends in one of the listed words. */
  lemma ChunkShrinkingReachesTheMinimalWords(simulation: PaymentSimulation)
    requires Rejects(simulation)
    ensures Word(Shrunk(simulation, Rejects).events) in MinimalWordsOf(simulation)
  {
    ShrunkIsOneMinimal(simulation, Rejects);
    MinimalityIsAPropertyOfTheWord(Shrunk(simulation, Rejects));
  }

  lemma MinimalSimulationsAreLeftAlone(simulation: PaymentSimulation)
    requires Word(simulation.events) in MinimalWordsOf(simulation)
    ensures ChunkShrunk(simulation, Rejects, FirstChunkSize(simulation)) == simulation
  {
    MinimalityIsAPropertyOfTheWord(simulation);
    assert |simulation.events| == |Word(simulation.events)| <= 2;
    assert FirstChunkSize(simulation) == 1;
    assert FirstRemovable(simulation, Rejects, 1, 0).None?;
  }

  /** None of the listed words can be left out: the streams that shrinking leaves alone are theirs. */
  lemma FixedPointsAreTheMinimalWords(simulation: PaymentSimulation)
    ensures Rejects(simulation) && Shrunk(simulation, Rejects) == simulation
            <==> Word(simulation.events) in MinimalWordsOf(simulation)
  {
    if Word(simulation.events) in MinimalWordsOf(simulation) {
      MinimalityIsAPropertyOfTheWord(simulation);
      var last := |simulation.events| - 1;
      RebuildingAPrefixIsTheIdentity(simulation, last);
      assert Without(simulation, last, 1) == Prefix(simulation, last) by {
        assert simulation.events[..last] + simulation.events[last + 1..] == simulation.events[..last];
      }
      assert PrefixShrunk(simulation, Rejects) == simulation;
      MinimalSimulationsAreLeftAlone(simulation);
    } else if Rejects(simulation) {
      ChunkShrinkingReachesTheMinimalWords(simulation);
    }
  }

  /** The prefix shrinker alone gives a minimal counterexample exactly for the streams that fail in a listed way. */
  lemma PrefixShrunkIsMinimalIffMinimalWord(simulation: PaymentSimulation)
    requires Rejects(simulation)
    ensures var stop := OutcomeOf(simulation).index + 1;
            && stop <= |simulation.events|
            && Word(PrefixShrunk(simulation, Rejects).events) == Word(simulation.events)[..stop]
            && (OneMinimal(PrefixShrunk(simulation, Rejects), Rejects)
                <==> Word(simulation.events)[..stop] in MinimalWordsOf(simulation))
  {
    var r := PrefixShrunk(simulation, Rejects);
    PrefixShrunkEndsAtTheRejectedEvent(simulation);
    WordOfPrefix(simulation.events, |r.events|);
    assert Rejects(r);
    MinimalityIsAPropertyOfTheWord(r);
  }

  /** Where the prefix shrinker's result is minimal, the chunk shrinker gives the same one. */
  lemma ShrinkersAgreeWherePrefixesAreMinimal(simulation: PaymentSimulation)
    requires Rejects(simulation) && OneMinimal(PrefixShrunk(simulation, Rejects), Rejects)
    ensures Shrunk(simulation, Rejects) == PrefixShrunk(simulation, Rejects)
  {
    var r := PrefixShrunk(simulation, Rejects);
    PrefixShrunkEndsAtTheRejectedEvent(simulation);
    assert Rejects(r);
    MinimalityIsAPropertyOfTheWord(r);
    MinimalSimulationsAreLeftAlone(r);
  }
}
