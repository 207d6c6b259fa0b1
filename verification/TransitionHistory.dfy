/** Recording of payment transitions, and replay that checks every recorded field. */
module TransitionHistory {
  import opened Results
  import opened Payments
  import opened Replay

  datatype PaymentTransition = PaymentTransition(
    paymentId: Uuid, fromState: PaymentState, event: PaymentEvent, toState: PaymentState,
    occurredAt: Timestamp, id: Uuid)

  /** The clock value and the fresh id that a recorded transition receives. */
  datatype Stamp = Stamp(occurredAt: Timestamp, id: Uuid)

  datatype ReplayError = DifferentPayment | FromStateMismatch | Rejected(error: TransitionError) | ToStateMismatch

  /** Apply one event and record the transition it made. */
  function RecordTransition(payment: Payment, event: PaymentEvent, stamp: Stamp)
    : Result<(Payment, PaymentTransition), TransitionError>
  {
    match TransitionPayment(payment, event)
    case Err(error) => Err(error)
    case Ok(next) =>
      Ok((next, PaymentTransition(payment.id, payment.state, event, next.state, stamp.occurredAt, stamp.id)))
  }

  /** The history that the recorder produces on a word of events. */
  function Recorded(payment: Payment, word: seq<PaymentEvent>, stamps: seq<Stamp>)
    : Result<(Payment, seq<PaymentTransition>), TransitionError>
    requires |stamps| == |word|
  {
    if word == [] then Ok((payment, []))
    else
      var last := |word| - 1;
      match Recorded(payment, word[..last], stamps[..last])
      case Err(error) => Err(error)
      case Ok((current, history)) =>
        match RecordTransition(current, word[last], stamps[last])
        case Err(error) => Err(error)
        case Ok((next, transition)) => Ok((next, history + [transition]))
  }

  /** One transition checked against the payment it claims to move. */
  function ReplayOne(current: Payment, transition: PaymentTransition): Result<Payment, ReplayError> {
    if transition.paymentId != current.id then Err(DifferentPayment)
    else if transition.fromState != current.state then Err(FromStateMismatch)
    else
      match TransitionPayment(current, transition.event)
      case Err(error) => Err(Rejected(error))
      case Ok(next) => if next.state != transition.toState then Err(ToStateMismatch) else Ok(next)
  }

  function ReplayedHistory(initial: Payment, history: seq<PaymentTransition>): Result<Payment, ReplayError> {
    if history == [] then Ok(initial)
    else
      match ReplayedHistory(initial, history[..|history| - 1])
      case Err(error) => Err(error)
      case Ok(current) => ReplayOne(current, history[|history| - 1])
  }

  lemma {:induction false} HistoryErrorsAreSticky(initial: Payment, history: seq<PaymentTransition>, k: nat)
    requires k <= |history|
    ensures ReplayedHistory(initial, history[..k]).Err?
            ==> ReplayedHistory(initial, history) == ReplayedHistory(initial, history[..k])
    decreases |history|
  {
    if k == |history| {
      assert history[..k] == history;
    } else {
      HistoryErrorsAreSticky(initial, history[..|history| - 1], k);
      assert history[..|history| - 1][..k] == history[..k];
    }
  }

  method ReplayHistory(initial: Payment, history: seq<PaymentTransition>) returns (r: Result<Payment, ReplayError>)
    ensures r == ReplayedHistory(initial, history)
  {
    var current := initial;
    for i := 0 to |history|
      invariant ReplayedHistory(initial, history[..i]) == Ok(current)
    {
      var transition := history[i];
      assert history[..i + 1][..i] == history[..i];
      HistoryErrorsAreSticky(initial, history, i + 1);
      if transition.paymentId != current.id {
        return Err(DifferentPayment);
      }
      if transition.fromState != current.state {
        return Err(FromStateMismatch);
      }
      match TransitionPayment(current, transition.event)
      case Err(error) => return Err(Rejected(error));
      case Ok(reconstructed) =>
        if reconstructed.state != transition.toState {
          return Err(ToStateMismatch);
        }
        current := reconstructed;
    }
    assert history[..|history|] == history;
    r := Ok(current);
  }

  function EventsOf(history: seq<PaymentTransition>): (r: seq<PaymentEvent>)
    ensures |r| == |history|
  {
    seq(|history|, i requires 0 <= i < |history| => history[i].event)
  }

  /** Equality of histories up to the stamps. */
  predicate SameTransitions(left: seq<PaymentTransition>, right: seq<PaymentTransition>) {
    && |left| == |right|
    && forall i | 0 <= i < |left| ::
         left[i].(occurredAt := right[i].occurredAt, id := right[i].id) == right[i]
  }

  lemma {:induction false} RecordedLength(payment: Payment, word: seq<PaymentEvent>, stamps: seq<Stamp>)
    requires |stamps| == |word|
    ensures Recorded(payment, word, stamps).Ok? ==> |Recorded(payment, word, stamps).value.1| == |word|
    decreases |word|
  {
    if word != [] {
      RecordedLength(payment, word[..|word| - 1], stamps[..|word| - 1]);
    }
  }

  /** The recorder moves the payment exactly as event replay does. */
  lemma {:induction false} RecorderAgreesWithEventReplay(payment: Payment, word: seq<PaymentEvent>, stamps: seq<Stamp>)
    requires |stamps| == |word|
    ensures Recorded(payment, word, stamps).Ok? <==> ReplayedPayment(payment, word).Ok?
    ensures Recorded(payment, word, stamps).Ok?
            ==> Recorded(payment, word, stamps).value.0 == ReplayedPayment(payment, word).value
    decreases |word|
  {
    if word != [] {
      RecorderAgreesWithEventReplay(payment, word[..|word| - 1], stamps[..|word| - 1]);
    }
  }

  /** Replay accepts exactly the histories that the recorder writes, whatever their stamps. */
  lemma {:induction false} ReplayAcceptsExactlyRecordedHistories(
    payment: Payment, history: seq<PaymentTransition>, stamps: seq<Stamp>)
    requires |stamps| == |history|
    ensures ReplayedHistory(payment, history).Ok?
            <==> (var recorded := Recorded(payment, EventsOf(history), stamps);
                  recorded.Ok? && SameTransitions(history, recorded.value.1))
    ensures ReplayedHistory(payment, history).Ok?
            ==> ReplayedPayment(payment, EventsOf(history)) == Ok(ReplayedHistory(payment, history).value)
    decreases |history|
  {
    RecorderAgreesWithEventReplay(payment, EventsOf(history), stamps);
    if history != [] {
      var last := |history| - 1;
      var init := history[..last];
      assert EventsOf(init) == EventsOf(history)[..last];
      ReplayAcceptsExactlyRecordedHistories(payment, init, stamps[..last]);
      RecordedLength(payment, EventsOf(init), stamps[..last]);
      RecorderAgreesWithEventReplay(payment, EventsOf(init), stamps[..last]);
      var before := Recorded(payment, EventsOf(init), stamps[..last]);
      var after := Recorded(payment, EventsOf(history), stamps);
      if after.Ok? {
        assert after.value.1[..last] == before.value.1;
        assert SameTransitions(history, after.value.1)
          <==> SameTransitions(init, before.value.1)
               && history[last].(occurredAt := after.value.1[last].occurredAt, id := after.value.1[last].id)
                  == after.value.1[last] by {
          if SameTransitions(history, after.value.1) {
            forall i | 0 <= i < last
              ensures init[i].(occurredAt := before.value.1[i].occurredAt, id := before.value.1[i].id) == before.value.1[i]
            {
              assert history[i] == init[i] && after.value.1[i] == before.value.1[i];
            }
          }
        }
      }
    }
  }

  /** What is wrong with a transition of a payment that stands in a state, checked in this order. */
  predicate IsInconsistent(payment: Payment, state: PaymentState, transition: PaymentTransition, error: ReplayError) {
    match error
    case DifferentPayment => transition.paymentId != payment.id
    case FromStateMismatch => transition.paymentId == payment.id && transition.fromState != state
    case Rejected(rejection) =>
      && transition.paymentId == payment.id && transition.fromState == state
      && rejection == InvalidPaymentTransition && NextPaymentState(state, transition.event).None?
    case ToStateMismatch =>
      && transition.paymentId == payment.id && transition.fromState == state
      && NextPaymentState(state, transition.event).Some?
      && NextPaymentState(state, transition.event) != Some(transition.toState)
  }

  /** A refused history was consistent up to a transition, and the error says what is wrong with that one. */
  lemma {:induction false} ReplayNamesTheFirstInconsistency(payment: Payment, history: seq<PaymentTransition>)
    returns (i: nat, state: PaymentState)
    requires ReplayedHistory(payment, history).Err?
    ensures i < |history| && ReplayedHistory(payment, history[..i]) == Ok(payment.(state := state))
    ensures Reach(payment.state, EventsOf(history[..i])) == Some(state)
    ensures IsInconsistent(payment, state, history[i], ReplayedHistory(payment, history).error)
    decreases |history|
  {
    var last := |history| - 1;
    var init := history[..last];
    if ReplayedHistory(payment, init).Err? {
      i, state := ReplayNamesTheFirstInconsistency(payment, init);
      assert init[..i] == history[..i];
    } else {
      ReplayAcceptsExactlyRecordedHistories(payment, init, seq(last, _ => Stamp(0, 0)));
      PaymentReplayIsReach(payment, EventsOf(init));
      i, state := last, ReplayedHistory(payment, init).value.state;
    }
  }

  /** Each recorded transition shows its payment, event and stamp, and the states that replay reaches around it. */
  lemma {:induction false} RecordedTransitionsShowEachStep(
    payment: Payment, word: seq<PaymentEvent>, stamps: seq<Stamp>, i: nat)
    requires |stamps| == |word| && Recorded(payment, word, stamps).Ok? && i < |word|
    ensures |Recorded(payment, word, stamps).value.1| == |word|
    ensures Reach(payment.state, word[..i]).Some? && Reach(payment.state, word[..i + 1]).Some?
    ensures Recorded(payment, word, stamps).value.1[i]
            == PaymentTransition(
                 payment.id, Reach(payment.state, word[..i]).value, word[i],
                 Reach(payment.state, word[..i + 1]).value, stamps[i].occurredAt, stamps[i].id)
    decreases |word|
  {
    var last := |word| - 1;
    RecordedLength(payment, word, stamps);
    RecordedLength(payment, word[..last], stamps[..last]);
    if i < last {
      RecordedTransitionsShowEachStep(payment, word[..last], stamps[..last], i);
      assert word[..last][..i] == word[..i] && word[..last][..i + 1] == word[..i + 1];
    } else {
      RecorderAgreesWithEventReplay(payment, word[..last], stamps[..last]);
      RecorderAgreesWithEventReplay(payment, word, stamps);
      PaymentReplayIsReach(payment, word[..last]);
      PaymentReplayIsReach(payment, word);
      assert word[..last + 1] == word;
    }
  }
}
