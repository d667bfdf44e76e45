/** Orders, order items and payments (app/order/models.py): the records,
    their defaults, the cost of an order item, the payment status choices and
    the settlement a payment-provider notification applies to an order and
    its payment (app/order/views.py, `YookassaWebhookView.post`). Amounts are
    integer cents, times microseconds. */
module Orders {
  import opened Outcomes
  import opened Catalog
  import opened Carts

  type OrderId = nat

  /** `Payment.STATUS_CHOICES` */
  datatype PaymentStatus = Pending | Succeeded | Canceled

  /** The one-letter code a status is stored as. */
  function StatusCode(s: PaymentStatus): (c: char)
    ensures c == 'P' || c == 'S' || c == 'C'
    ensures (c == 'P') == (s == Pending) && (c == 'S') == (s == Succeeded)
  {
    match s
    case Pending => 'P'
    case Succeeded => 'S'
    case Canceled => 'C'
  }

  /** Reading a stored code back: only the three choices are statuses, and
      each reads back as the status that is stored under it. */
  function StatusOfCode(c: char): (r: Option<PaymentStatus>)
    ensures r.Some? <==> c == 'P' || c == 'S' || c == 'C'
    ensures r.Some? ==> StatusCode(r.value) == c
  {
    if c == 'P' then Some(Pending)
    else if c == 'S' then Some(Succeeded)
    else if c == 'C' then Some(Canceled)
    else None
  }

  lemma StatusCodeRoundTrip(s: PaymentStatus)
    ensures StatusOfCode(StatusCode(s)) == Some(s)
  {
  }

  /** An Order row. `shippingAddress` is the user whose ShippingAddress it
      refers to (that table's primary key is its user), None once the address
      is deleted. */
  datatype Order = Order(user: UserId, shippingAddress: Option<UserId>, total: int, isPaid: bool, createdAt: int)

  /** An OrderItem row of one order. */
  datatype OrderItem = OrderItem(product: ProductId, quantity: int)

  /** The Payment row of one order (the one-to-one field makes the order its key). */
  datatype Payment = Payment(amount: int, currency: string, status: PaymentStatus, paymentMethod: string)

  const DefaultCurrency := "RUB"

  /** An order as `perform_create` saves it: `is_paid` keeps its default,
      false (it is read-only in the serializer). */
  function NewOrder(user: UserId, address: Option<UserId>, total: int, now: int): (o: Order)
    ensures !o.isPaid && o.user == user && o.shippingAddress == address
    ensures o.total == total && o.createdAt == now
  {
    Order(user, address, total, false, now)
  }

  /** `Payment.objects.create(order=order, amount=order.total)`: the other
      fields take their defaults. */
  function NewPayment(amount: int): (p: Payment)
    ensures p.amount == amount && p.status == Pending && StatusCode(p.status) == 'P'
    ensures p.currency == "RUB" && p.paymentMethod == ""
  {
    Payment(amount, DefaultCurrency, Pending, "")
  }

  /** `OrderItem.get_total_cost`: the same formula as a cart line. */
  function ItemCost(p: Product, item: OrderItem, today: int): (r: int)
    ensures r == FinalPrice(p, today) * item.quantity
    ensures ValidProduct(p) && item.quantity >= 1 ==> 0 <= r <= p.priceCents * item.quantity
  {
    LineCost(p, item.quantity, today)
  }

  /** Items the tables accept: the (order, product) pair is unique and
      `quantity >= 1`. */
  predicate ValidItems(items: seq<OrderItem>) {
    && (forall i, j :: 0 <= i < j < |items| ==> items[i].product != items[j].product)
    && (forall i :: 0 <= i < |items| ==> items[i].quantity >= 1)
  }

  /** Sum of the item costs of an order, first item first. */
  function ItemsTotal(catalog: map<ProductId, Product>, items: seq<OrderItem>, today: int): int
    requires forall i :: 0 <= i < |items| ==> items[i].product in catalog
  {
    if |items| == 0 then 0
    else ItemsTotal(catalog, items[..|items| - 1], today) + ItemCost(catalog[items[|items| - 1].product], items[|items| - 1], today)
  }

  /** The order items copying a cart line for line. */
  function ItemsOfCart(lines: seq<CartLine>): (r: seq<OrderItem>)
    ensures |r| == |lines|
    ensures forall i :: 0 <= i < |lines| ==> r[i] == OrderItem(lines[i].product, lines[i].quantity)
  {
    if |lines| == 0 then [] else ItemsOfCart(lines[..|lines| - 1]) + [OrderItem(lines[|lines| - 1].product, lines[|lines| - 1].quantity)]
  }

  /** Items copied from a cart cost, in total, what the cart totals. */
  lemma {:induction false} ItemsTotalOfCart(catalog: map<ProductId, Product>, lines: seq<CartLine>, today: int)
    requires forall i :: 0 <= i < |lines| ==> lines[i].product in catalog
    ensures ItemsTotal(catalog, ItemsOfCart(lines), today) == CartTotal(catalog, lines, today)
  {
    if |lines| > 0 {
      var init := lines[..|lines| - 1];
      ItemsTotalOfCart(catalog, init, today);
      assert ItemsOfCart(lines)[..|lines| - 1] == ItemsOfCart(init);
    }
  }

  /** Why a notification could not be settled (each is an error response
      before anything is saved). */
  datatype WebhookError =
    | Forbidden         // the client address is not in the allow-list
    | InvalidAddress    // the client address is no IP address: ValueError
    | MalformedPayload  // a key of the payload is missing: KeyError
    | NotFound          // no such order, or the order has no payment

  const SucceededEvent := "payment.succeeded"
  const CanceledEvent := "payment.canceled"

  /** The branch of `YookassaWebhookView.post` after both rows were found:
      "payment.succeeded" marks the payment succeeded with the payload's
      payment method type and the order paid; "payment.canceled" marks the
      payment canceled and leaves the order; any other event saves both
      unchanged. Nothing stops a status from leaving S or C. A missing event
      or a succeeded event without a method type raises before any save. */
  function ApplyEvent(order: Order, payment: Payment, event: Option<string>, methodType: Option<string>): (r: Result<(Order, Payment), WebhookError>)
    ensures event.None? ==> r == Err(MalformedPayload)
    ensures event == Some(SucceededEvent) ==>
      if methodType.None? then r == Err(MalformedPayload)
      else r == Ok((order.(isPaid := true), payment.(status := Succeeded, paymentMethod := methodType.value)))
    ensures event == Some(CanceledEvent) ==> r == Ok((order, payment.(status := Canceled)))
    ensures event.Some? && event.value != SucceededEvent && event.value != CanceledEvent ==> r == Ok((order, payment))
  {
    match event
    case None => Err(MalformedPayload)
    case Some(e) =>
      if e == SucceededEvent then
        match methodType
        case None => Err(MalformedPayload)
        case Some(m) => Ok((order.(isPaid := true), payment.(status := Succeeded, paymentMethod := m)))
      else if e == CanceledEvent then
        Ok((order, payment.(status := Canceled)))
      else
        Ok((order, payment))
  }

  /** A repeated "payment.succeeded" notification changes nothing more. */
  lemma SucceededIdempotent(order: Order, payment: Payment, m: string)
    ensures var once := ApplyEvent(order, payment, Some(SucceededEvent), Some(m));
      && once.Ok?
      && ApplyEvent(once.value.0, once.value.1, Some(SucceededEvent), Some(m)) == once
  {
  }

  /** Cancelation never touches `is_paid`: a paid order stays paid, even
      though its payment is then marked canceled. */
  lemma CancelKeepsPaid(order: Order, payment: Payment, methodType: Option<string>)
    ensures var r := ApplyEvent(order, payment, Some(CanceledEvent), methodType);
      r.Ok? && r.value.0.isPaid == order.isPaid && r.value.1.status == Canceled
  {
  }

  /** The status is not terminal: a canceled payment can still succeed. */
  lemma CanceledCanSucceed(order: Order, payment: Payment, m: string)
    requires payment.status == Canceled
    ensures var r := ApplyEvent(order, payment, Some(SucceededEvent), Some(m));
      r.Ok? && r.value.1.status == Succeeded && r.value.0.isPaid
  {
  }
}
