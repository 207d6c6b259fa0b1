/** Reconstruction of payments and orders from event words. */
module Replay {
  import opened Results
  import opened Payments

  /** The payment after a word of events, or the error of the first rejected event. */
  function ReplayedPayment(initial: Payment, word: seq<PaymentEvent>): Result<Payment, TransitionError> {
    if word == [] then Ok(initial)
    else
      match ReplayedPayment(initial, word[..|word| - 1])
      case Err(error) => Err(error)
      case Ok(current) => TransitionPayment(current, word[|word| - 1])
  }

  function ReplayedOrder(initial: PaymentOrder, word: seq<PaymentEvent>): Result<PaymentOrder, TransitionError> {
    if word == [] then Ok(initial)
    else
      match ReplayedOrder(initial, word[..|word| - 1])
      case Err(error) => Err(error)
      case Ok(current) => TransitionOrder(current, word[|word| - 1])
  }

  /** Payment replay is the payment language acting on the state field alone. */
  lemma {:induction false} PaymentReplayIsReach(initial: Payment, word: seq<PaymentEvent>)
    ensures ReplayedPayment(initial, word)
            == match Reach(initial.state, word)
               case Some(state) => Ok(initial.(state := state))
               case None => Err(InvalidPaymentTransition)
    decreases |word|
  {
    if word != [] {
      PaymentReplayIsReach(initial, word[..|word| - 1]);
    }
  }

  lemma {:induction false} PaymentErrorsAreSticky(initial: Payment, word: seq<PaymentEvent>, k: nat)
    requires k <= |word|
    ensures ReplayedPayment(initial, word[..k]).Err?
            ==> ReplayedPayment(initial, word) == ReplayedPayment(initial, word[..k])
    decreases |word|
  {
    if k == |word| {
      assert word[..k] == word;
    } else {
      PaymentErrorsAreSticky(initial, word[..|word| - 1], k);
      assert word[..|word| - 1][..k] == word[..k];
    }
  }

  lemma {:induction false} OrderErrorsAreSticky(initial: PaymentOrder, word: seq<PaymentEvent>, k: nat)
    requires k <= |word|
    ensures ReplayedOrder(initial, word[..k]).Err? ==> ReplayedOrder(initial, word) == ReplayedOrder(initial, word[..k])
    decreases |word|
  {
    if k == |word| {
      assert word[..k] == word;
    } else {
      OrderErrorsAreSticky(initial, word[..|word| - 1], k);
      assert word[..|word| - 1][..k] == word[..k];
    }
  }

  method ReplayPayment(initial: Payment, word: seq<PaymentEvent>) returns (r: Result<Payment, TransitionError>)
    ensures r == ReplayedPayment(initial, word)
  {
    var current := initial;
    for i := 0 to |word|
      invariant ReplayedPayment(initial, word[..i]) == Ok(current)
    {
      assert word[..i + 1][..i] == word[..i];
      PaymentErrorsAreSticky(initial, word, i + 1);
      match TransitionPayment(current, word[i])
      case Err(error) => return Err(error);
      case Ok(next) => current := next;
    }
    assert word[..|word|] == word;
    r := Ok(current);
  }

  method ReplayOrder(initial: PaymentOrder, word: seq<PaymentEvent>) returns (r: Result<PaymentOrder, TransitionError>)
    ensures r == ReplayedOrder(initial, word)
  {
    var current := initial;
    for i := 0 to |word|
      invariant ReplayedOrder(initial, word[..i]) == Ok(current)
    {
      assert word[..i + 1][..i] == word[..i];
      OrderErrorsAreSticky(initial, word, i + 1);
      match TransitionOrder(current, word[i])
      case Err(error) => return Err(error);
      case Ok(next) => current := next;
    }
    assert word[..|word|] == word;
    r := Ok(current);
  }

  /** Every accepted order word, its start and its end. */
  predicate OrderAccepts(start: OrderState, word: seq<PaymentEvent>, end: OrderState) {
    || (word == [] && end == start)
    || (start == OrderState.Created && word == [Authorize] && end == OrderState.Authorized)
    || (start == OrderState.Created && word == [Authorize, Capture] && end == OrderState.Captured)
    || (start == OrderState.Created && word == [Authorize, Fail] && end == OrderState.Failed)
    || (start == OrderState.Created && word == [Fail] && end == OrderState.Failed)
    || (start == OrderState.Created && word == [Cancel] && end == OrderState.Cancelled)
    || (start == OrderState.Authorized && word == [Capture] && end == OrderState.Captured)
    || (start == OrderState.Authorized && word == [Fail] && end == OrderState.Failed)
  }

  lemma OrderWordsExtend(start: OrderState, word: seq<PaymentEvent>, reached: OrderState, event: PaymentEvent)
    requires OrderAccepts(start, word, reached)
    ensures forall end :: OrderAccepts(start, word + [event], end) <==> NextOrderState(reached, event) == Some(end)
  {
    if word == [] {
      assert word + [event] == [event];
    } else if |word| == 1 {
      assert word + [event] == [word[0], event];
    } else {
      assert |word + [event]| == 3;
    }
  }

  lemma OrderWordsHaveAcceptedPrefixes(start: OrderState, word: seq<PaymentEvent>, end: OrderState)
    returns (reached: OrderState)
    requires word != [] && OrderAccepts(start, word, end)
    ensures OrderAccepts(start, word[..|word| - 1], reached)
  {
    reached := if |word| == 1 then start else OrderState.Authorized;
    assert word[..|word| - 1] == if |word| == 1 then [] else [word[0]];
  }

  /** Order replay is the listed order language acting on the state field alone. */
  lemma {:induction false} OrderReplayIsTheListedLanguage(initial: PaymentOrder, word: seq<PaymentEvent>)
    ensures match ReplayedOrder(initial, word)
            case Ok(order) => order == initial.(state := order.state) && OrderAccepts(initial.state, word, order.state)
            case Err(error) => error == InvalidOrderTransition && forall end :: !OrderAccepts(initial.state, word, end)
    decreases |word|
  {
    if word != [] {
      var init, last := word[..|word| - 1], word[|word| - 1];
      OrderReplayIsTheListedLanguage(initial, init);
      assert init + [last] == word;
      match ReplayedOrder(initial, init)
      case Ok(order) => OrderWordsExtend(initial.state, init, order.state, last);
      case Err(_) =>
        forall end
          ensures !OrderAccepts(initial.state, word, end)
        {
          if OrderAccepts(initial.state, word, end) {
            var reached := OrderWordsHaveAcceptedPrefixes(initial.state, word, end);
            assert false;
          }
        }
    }
  }
}
