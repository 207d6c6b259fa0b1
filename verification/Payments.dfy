/** Payment and order aggregates with their table-driven state machines. */
module Payments {
  import opened Results

  type Uuid = nat
  type Timestamp = int

  datatype PaymentEvent = Authorize | Capture | Refund | Fail | Cancel

  datatype PaymentState = Created | Authorized | Captured | Refunded | Failed | Cancelled

  datatype OrderState = Created | Authorized | Captured | Failed | Cancelled

  datatype TransitionError = InvalidPaymentTransition | InvalidOrderTransition

  datatype Payment = Payment(
    orderId: Uuid, amountMinor: int, currency: string,
    state: PaymentState, id: Uuid, createdAt: Timestamp)

  datatype PaymentOrder = PaymentOrder(
    amountMinor: int, currency: string, state: OrderState, id: Uuid, createdAt: Timestamp)

  /** The payment transition table; `None` is a missing key. */
  function NextPaymentState(state: PaymentState, event: PaymentEvent): Option<PaymentState> {
    match (state, event)
    case (Created, Authorize) => Some(PaymentState.Authorized)
    case (Created, Fail) => Some(PaymentState.Failed)
    case (Authorized, Capture) => Some(PaymentState.Captured)
    case (Authorized, Fail) => Some(PaymentState.Failed)
    case (Captured, Refund) => Some(PaymentState.Refunded)
    case _ => None
  }

  /** The order transition table; `None` is a missing key. */
  function NextOrderState(state: OrderState, event: PaymentEvent): Option<OrderState> {
    match (state, event)
    case (Created, Authorize) => Some(OrderState.Authorized)
    case (Created, Fail) => Some(OrderState.Failed)
    case (Authorized, Capture) => Some(OrderState.Captured)
    case (Authorized, Fail) => Some(OrderState.Failed)
    case (Created, Cancel) => Some(OrderState.Cancelled)
    case _ => None
  }

  function TransitionPayment(payment: Payment, event: PaymentEvent): Result<Payment, TransitionError> {
    match NextPaymentState(payment.state, event)
    case Some(next) => Ok(payment.(state := next))
    case None => Err(InvalidPaymentTransition)
  }

  function TransitionOrder(order: PaymentOrder, event: PaymentEvent): Result<PaymentOrder, TransitionError> {
    match NextOrderState(order.state, event)
    case Some(next) => Ok(order.(state := next))
    case None => Err(InvalidOrderTransition)
  }

  /** The order state that belongs to a payment state: a refund leaves the order captured. */
  function Projection(state: PaymentState): OrderState {
    match state
    case Created => OrderState.Created
    case Authorized => OrderState.Authorized
    case Captured => OrderState.Captured
    case Refunded => OrderState.Captured
    case Failed => OrderState.Failed
    case Cancelled => OrderState.Cancelled
  }

  /** The payment state reached by a word of events, `None` once an event is rejected. */
  function Reach(state: PaymentState, word: seq<PaymentEvent>): Option<PaymentState> {
    if word == [] then Some(state)
    else
      match Reach(state, word[..|word| - 1])
      case None => None
      case Some(reached) => NextPaymentState(reached, word[|word| - 1])
  }

  /** Every accepted word, its start and its end: a reference listing of the payment language. */
  predicate Accepts(start: PaymentState, word: seq<PaymentEvent>, end: PaymentState) {
    || (word == [] && end == start)
    || (start == PaymentState.Created && word == [Authorize] && end == PaymentState.Authorized)
    || (start == PaymentState.Created && word == [Authorize, Capture] && end == PaymentState.Captured)
    || (start == PaymentState.Created && word == [Authorize, Capture, Refund] && end == PaymentState.Refunded)
    || (start == PaymentState.Created && word == [Authorize, Fail] && end == PaymentState.Failed)
    || (start == PaymentState.Created && word == [Fail] && end == PaymentState.Failed)
    || (start == PaymentState.Authorized && word == [Capture] && end == PaymentState.Captured)
    || (start == PaymentState.Authorized && word == [Capture, Refund] && end == PaymentState.Refunded)
    || (start == PaymentState.Authorized && word == [Fail] && end == PaymentState.Failed)
    || (start == PaymentState.Captured && word == [Refund] && end == PaymentState.Refunded)
  }

  lemma ListedWordsExtend(start: PaymentState, word: seq<PaymentEvent>, reached: PaymentState, event: PaymentEvent)
    requires Accepts(start, word, reached) && NextPaymentState(reached, event).Some?
    ensures Accepts(start, word + [event], NextPaymentState(reached, event).value)
  {
    if word == [] {
      assert word + [event] == [event];
    } else if |word| == 1 {
      assert word + [event] == [word[0], event];
    } else {
      assert word + [event] == [word[0], word[1], event];
    }
  }

  lemma {:induction false} ReachedIsListed(start: PaymentState, word: seq<PaymentEvent>)
    requires Reach(start, word).Some?
    ensures Accepts(start, word, Reach(start, word).value)
    decreases |word|
  {
    if word != [] {
      var init, last := word[..|word| - 1], word[|word| - 1];
      ReachedIsListed(start, init);
      ListedWordsExtend(start, init, Reach(start, init).value, last);
      assert init + [last] == word;
    }
  }

  lemma {:induction false} ListedIsReached(start: PaymentState, word: seq<PaymentEvent>, end: PaymentState)
    requires Accepts(start, word, end)
    ensures Reach(start, word) == Some(end)
    decreases |word|
  {
    if word != [] {
      var init := word[..|word| - 1];
      var middle := if |word| == 1 then start
                    else if |word| == 2 && start == PaymentState.Created then PaymentState.Authorized
                    else PaymentState.Captured;
      assert |word| == 1 ==> init == [];
      assert |word| == 2 ==> init == [word[0]];
      assert |word| == 3 ==> init == [word[0], word[1]];
      ListedIsReached(start, init, middle);
    }
  }

  lemma ReachIsTheListedLanguage(start: PaymentState, word: seq<PaymentEvent>, end: PaymentState)
    ensures Reach(start, word) == Some(end) <==> Accepts(start, word, end)
  {
    if Reach(start, word) == Some(end) {
      ReachedIsListed(start, word);
    }
    if Accepts(start, word, end) {
      ListedIsReached(start, word, end);
    }
  }

  lemma {:induction false} ReachOfPrefix(start: PaymentState, word: seq<PaymentEvent>, k: nat)
    requires k <= |word|
    ensures Reach(start, word).Some? ==> Reach(start, word[..k]).Some?
    decreases |word|
  {
    if k == |word| {
      assert word[..k] == word;
    } else {
      var init := word[..|word| - 1];
      ReachOfPrefix(start, init, k);
      assert init[..k] == word[..k];
    }
  }

  /** No accepted run applies an event kind twice, and it has at most three events. */
  lemma AcceptedWordsNeverRepeat(start: PaymentState, word: seq<PaymentEvent>)
    requires Reach(start, word).Some?
    ensures |word| <= 3
    ensures forall i, j | 0 <= i < j < |word| :: word[i] != word[j]
  {
    ReachIsTheListedLanguage(start, word, Reach(start, word).value);
  }

  /** Accepted runs from one state are determined by the multiset of their events. */
  lemma AcceptedWordsAreDeterminedByTheirEvents(
    start: PaymentState, left: seq<PaymentEvent>, right: seq<PaymentEvent>)
    requires Reach(start, left).Some? && Reach(start, right).Some?
    requires multiset(left) == multiset(right)
    ensures left == right
  {
    ReachIsTheListedLanguage(start, left, Reach(start, left).value);
    ReachIsTheListedLanguage(start, right, Reach(start, right).value);
    assert |left| == |multiset(left)| == |multiset(right)| == |right|;
    assert Fail in left <==> Fail in multiset(left);
    assert Fail in right <==> Fail in multiset(right);
  }
}
