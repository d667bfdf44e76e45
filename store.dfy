/** The shop's tables and the requests and hooks that change them: the
    stock signals and the order walk (app/order/signals.py), the order,
    payment and notification views (app/order/views.py) with their
    permissions (app/order/permissions.py), the expiry sweep
    (app/order/management/commands/delete_unpaid_orders.py), and the writes
    of cart items, wishes and shipping addresses (app/user/models.py,
    app/user/serializers.py, app/user/views.py). Each request is one sequential step. */
module Store {
  import opened Outcomes
  import opened Text
  import opened Catalog
  import opened Carts
  import opened CartRules
  import opened Orders
  import opened Fulfilment
  import Permissions

  const NoAddressMessage := "User must have an address to make orders!"
  const EmptyCartMessage := "Your cart is empty!"
  const AlreadyPaidMessage := "This order is already paid!"
  const OneAddressMessage := "User can have only 1 shipping address!"
  const ExceedsStockDetail := "The quantity of ordered items exceeds product quantity in stock"

  /** The error responses of the order and payment views. */
  datatype OrderError =
    | NoAddress(message: string)                                  // DoesUserHaveAddress refused
    | EmptyCart(message: string)                                  // IsCartNotEmpty refused
    | StockShortfall(detail: string, products: map<string, string>) // raised by create_order_items
    | NotFound                                                    // get_object_or_404
    | AlreadyPaid(message: string)                                // IsOrderNotPaid refused
    | InvalidReturnUrl                                            // return_url is not a URL
    | ProviderFailure                                             // the provider created no payment

  /** The error responses of wishing a product. */
  datatype WishError = NoSuchProduct | AlreadyWished(message: string)

  /** The order view actions that `get_queryset` tells apart. */
  datatype Action = List | Retrieve | Destroy

  /** Index of the cart line of a product, if there is one. */
  function FindLine(cart: seq<CartLine>, product: ProductId): (r: Option<nat>)
    ensures r.None? <==> !InCart(cart, product)
    ensures r.Some? ==> r.value < |cart| && cart[r.value].product == product
  {
    if |cart| == 0 then None
    else if cart[|cart| - 1].product == product then Some(|cart| - 1)
    else
      assert forall i :: 0 <= i < |cart| - 1 ==> cart[..|cart| - 1][i] == cart[i];
      FindLine(cart[..|cart| - 1], product)
  }

  /** An order after the address of `user` is deleted: the reference to
      it becomes null and nothing else changes. */
  function DetachAddress(o: Order, user: UserId): (r: Order)
    ensures r.shippingAddress == if o.shippingAddress == Some(user) then None else o.shippingAddress
    ensures r.user == o.user && r.total == o.total && r.isPaid == o.isPaid && r.createdAt == o.createdAt
  {
    if o.shippingAddress == Some(user) then o.(shippingAddress := None) else o
  }

  class Shop {
    /** Products, with the stock of each in its own table since it is the
        one product field the order core writes. */
    var catalog: map<ProductId, Product>
    var stock: Stock
    /** The cart of every user (one per user), its lines in insertion order. */
    var carts: map<UserId, seq<CartLine>>
    var wishes: set<(UserId, ProductId)>
    /** Users with a shipping address (an address is keyed by its user). */
    var addresses: set<UserId>
    var orders: map<OrderId, Order>
    var orderItems: map<OrderId, seq<OrderItem>>
    /** The payment of an order, keyed by the order (one-to-one). */
    var payments: map<OrderId, Payment>
    var nextOrderId: OrderId

    /** The integrity the tables keep: every product has a non-negative
        stock, carts and order items satisfy their constraints, items and
        payments belong to existing orders, order totals are non-negative and
        an order's address, when set, exists. */
    ghost predicate Valid()
      reads this
    {
      Integrity(catalog, stock, carts, addresses, orders, orderItems, payments, nextOrderId)
    }

    /** The user-facing tables: products, carts, wishes and addresses. */
    twostate predicate SameUserTables()
      reads this
    {
      catalog == old(catalog) && carts == old(carts) && wishes == old(wishes) && addresses == old(addresses)
    }

    /** The order-side tables: orders, items, payments, the id counter and stock. */
    twostate predicate SameOrderTables()
      reads this
    {
      && orders == old(orders) && orderItems == old(orderItems) && payments == old(payments)
      && nextOrderId == old(nextOrderId) && stock == old(stock)
    }

    /** A shop with its catalog and stock, an empty cart for every user and
        no orders yet. */
    constructor (catalog: map<ProductId, Product>, stock: Stock, users: set<UserId>)
      requires stock.Keys == catalog.Keys
      requires forall p :: p in catalog ==> ValidProduct(catalog[p])
      requires forall p :: p in stock ==> stock[p] >= 0
      ensures Valid()
      ensures this.catalog == catalog && this.stock == stock && carts.Keys == users
      ensures forall u :: u in users ==> carts[u] == []
      ensures orders == map[] && orderItems == map[] && payments == map[] && nextOrderId == 0
      ensures wishes == {} && addresses == {}
    {
      this.catalog := catalog;
      this.stock := stock;
      carts := map u | u in users :: [];
      wishes := {};
      addresses := {};
      orders := map[];
      orderItems := map[];
      payments := map[];
      nextOrderId := 0;
    }

    /** `reserve_product_quantity`, run after an order item is saved: a new
        item takes its quantity from its product's stock; saving an existing
        item again changes nothing. */
    method ReserveProductQuantity(item: OrderItem, created: bool)
      requires item.product in stock
      modifies this`stock
      ensures created ==> stock == old(stock)[item.product := old(stock)[item.product] - item.quantity]
      ensures !created ==> stock == old(stock)
    {
      if created {
        stock := stock[item.product := stock[item.product] - item.quantity];
      }
    }

    /** `restore_product_quantity`, run after an order item is deleted: the
        quantity goes back to the product unless the order is paid. */
    method RestoreProductQuantity(order: OrderId, item: OrderItem)
      requires order in orders && item.product in stock
      modifies this`stock
      ensures orders[order].isPaid ==> stock == old(stock)
      ensures !orders[order].isPaid ==> stock == old(stock)[item.product := old(stock)[item.product] + item.quantity]
    {
      if orders[order].isPaid {
        return;
      }
      stock := stock[item.product := stock[item.product] + item.quantity];
    }

    /** The deletion of an order's items, one by one, each running
        `restore_product_quantity`. */
    method RestoreOrderStock(id: OrderId)
      requires id in orders && id in orderItems && ProductsIn(orderItems[id], stock)
      modifies this`stock
      ensures stock == if orders[id].isPaid then old(stock) else Release(old(stock), orderItems[id])
    {
      var items := orderItems[id];
      var k := 0;
      while k < |items|
        invariant 0 <= k <= |items|
        invariant stock == if orders[id].isPaid then old(stock) else Release(old(stock), items[..k])
      {
        assert items[..k + 1][..k] == items[..k];
        assert ProductsIn(items[..k], old(stock));
        RestoreProductQuantity(id, items[k]);
        k := k + 1;
      }
      assert items[..k] == items;
    }

    /** Deleting an order: its payment and items go with it (cascade), each
        item's deletion running `restore_product_quantity`. */
    method DeleteOrder(id: OrderId)
      requires Valid() && id in orders
      modifies this
      ensures Valid() && SameUserTables()
      ensures orders == old(orders) - {id} && orderItems == old(orderItems) - {id}
      ensures payments == old(payments) - {id} && nextOrderId == old(nextOrderId)
      ensures stock == if old(orders[id].isPaid) then old(stock) else Release(old(stock), old(orderItems[id]))
    {
      RestoreOrderStock(id);
      ReleaseKeepsNonNegative(old(stock), old(orderItems[id]));
      RemoveKeepsIntegrity(catalog, old(stock), carts, addresses, orders, orderItems, payments, nextOrderId, id, stock);
      orders := orders - {id};
      orderItems := orderItems - {id};
      payments := payments - {id};
    }

    /** The walk of `create_order_items` over the cart of the order's user,
        from the present stock. */
    ghost function CartWalk(id: OrderId): Materialized
      reads this
      requires Valid() && id in orders && orders[id].user in carts
    {
      assert ValidCart(catalog, carts[orders[id].user]);
      Materialize(catalog, carts[orders[id].user], stock)
    }

    /** `create_order_items`, run after every save of an order. Saving an
        order that already existed does nothing; for an order just created
        it is `ItemsForNewOrder`. */
    method CreateOrderItems(id: OrderId, created: bool) returns (r: Outcome<OrderError>)
      requires Valid() && id in orders
      requires created ==> orderItems[id] == [] && !orders[id].isPaid && orders[id].user in carts
      modifies this
      ensures Valid() && SameUserTables() && nextOrderId == old(nextOrderId)
      ensures !created ==> r == Pass && SameOrderTables()
      ensures created && old(CartWalk(id)).errors == map[] ==>
        && r == Pass
        && orders == old(orders) && payments == old(payments)
        && orderItems == old(orderItems)[id := old(CartWalk(id)).items] && stock == old(CartWalk(id)).stock
      ensures created && old(CartWalk(id)).errors != map[] ==>
        && r == Fail(StockShortfall(ExceedsStockDetail, old(CartWalk(id)).errors))
        && orders == old(orders) - {id} && orderItems == old(orderItems) - {id}
        && payments == old(payments) - {id} && stock == old(stock)
    {
      if !created {
        return Pass;
      }
      r := ItemsForNewOrder(id);
    }

    /** The body of `create_order_items` for a new order: it walks the
        user's cart (the walk `Materialize` specifies): lines within stock
        become items and take their stock, the others are collected by
        product name. If any line was short, the order is deleted, which
        gives back all it took, and the error names them. */
    method ItemsForNewOrder(id: OrderId) returns (r: Outcome<OrderError>)
      requires Valid() && id in orders && orderItems[id] == [] && !orders[id].isPaid && orders[id].user in carts
      modifies this
      ensures Valid() && SameUserTables() && nextOrderId == old(nextOrderId)
      ensures old(CartWalk(id)).errors == map[] ==>
        && r == Pass
        && orders == old(orders) && payments == old(payments)
        && orderItems == old(orderItems)[id := old(CartWalk(id)).items] && stock == old(CartWalk(id)).stock
      ensures old(CartWalk(id)).errors != map[] ==>
        && r == Fail(StockShortfall(ExceedsStockDetail, old(CartWalk(id)).errors))
        && orders == old(orders) - {id} && orderItems == old(orderItems) - {id}
        && payments == old(payments) - {id} && stock == old(stock)
    {
      ghost var walk := CartWalk(id);
      var outStockErrors := WalkOrder(id);
      assert orderItems[id] == walk.items && stock == walk.stock;
      if outStockErrors != map[] {
        var lines := carts[orders[id].user];
        RollbackRestoresStock(catalog, lines, old(stock));
        UpdateThenRemove(old(orderItems), id, walk.items);
        DeleteOrder(id);
        r := Fail(StockShortfall(ExceedsStockDetail, outStockErrors));
      } else {
        r := Pass;
      }
    }

    /** The walk over the order's cart, which keeps the tables' integrity:
        the new items satisfy the item constraints and no stock went negative. */
    method WalkOrder(id: OrderId) returns (outStockErrors: map<string, string>)
      requires Valid() && id in orders && orderItems[id] == [] && orders[id].user in carts
      modifies this`orderItems, this`stock
      ensures Valid()
      ensures orderItems == old(orderItems)[id := old(CartWalk(id)).items]
      ensures stock == old(CartWalk(id)).stock && outStockErrors == old(CartWalk(id)).errors
    {
      var lines := carts[orders[id].user];
      assert ValidCart(catalog, lines);
      outStockErrors := WalkCart(id, lines);
      WalkKeepsIntegrity(catalog, old(stock), carts, addresses, orders, old(orderItems), payments, nextOrderId, id);
    }

    /** The loop of `create_order_items` over the cart lines, one
        `WalkLine` per line; the items are saved under the order at the end. */
    method WalkCart(id: OrderId, lines: seq<CartLine>) returns (outStockErrors: map<string, string>)
      requires id in orderItems && orderItems[id] == [] && LinesKnown(catalog, lines, stock)
      modifies this`orderItems, this`stock
      ensures orderItems == old(orderItems)[id := Materialize(catalog, lines, old(stock)).items]
      ensures stock == Materialize(catalog, lines, old(stock)).stock
      ensures outStockErrors == Materialize(catalog, lines, old(stock)).errors
    {
      var products := catalog;
      var items: seq<OrderItem> := [];
      outStockErrors := map[];
      var i := 0;
      while i < |lines|
        invariant 0 <= i <= |lines|
        invariant orderItems == old(orderItems)
        invariant LinesKnown(products, lines[..i], old(stock))
        invariant Materialize(products, lines[..i], old(stock)) == Materialized(items, outStockErrors, stock)
      {
        MaterializeSnoc(products, lines, i, old(stock));
        items, outStockErrors := WalkLine(products, lines[i], items, outStockErrors);
        i := i + 1;
      }
      assert lines[..i] == lines;
      orderItems := orderItems[id := items];
    }

    /** One pass of that loop: a line above its product's stock is recorded
        under the product's name, any other becomes an item of the order,
        whose creation runs `reserve_product_quantity`. */
    method WalkLine(products: map<ProductId, Product>, line: CartLine, items: seq<OrderItem>, errors: map<string, string>)
      returns (items': seq<OrderItem>, errors': map<string, string>)
      requires line.product in products && line.product in stock
      modifies this`stock
      ensures Materialized(items', errors', stock) == Step(products, Materialized(items, errors, old(stock)), line)
    {
      if line.quantity > stock[line.product] {
        items', errors' := items, errors[products[line.product].name := Shortfall(line.quantity, stock[line.product])];
      } else {
        var item := OrderItem(line.product, line.quantity);
        items', errors' := items + [item], errors;
        ReserveProductQuantity(item, true);
      }
    }

    /** `DoesUserHaveAddress` */
    predicate DoesUserHaveAddress(user: UserId)
      reads this
    {
      user in addresses
    }

    /** `IsCartNotEmpty` */
    predicate IsCartNotEmpty(user: UserId)
      reads this
      requires user in carts
    {
      carts[user] != []
    }

    /** `OrderViewSet.create`: the permissions `get_permissions` adds for
        a create are checked in order (an address, then a non-empty cart);
        `perform_create` then saves an unpaid order of the requester with
        the requester's address and the cart's total at this moment, and
        the save runs `create_order_items`. On success the order holds the
        whole cart, item for item, its total is what its items cost, and
        each product's stock went down by what the order took of it. A
        shortfall removes the order again, leaves every stock as it was,
        and reports the short products. The cart itself is kept. */
    method CreateOrder(user: UserId, now: int, today: int) returns (r: Result<OrderId, OrderError>)
      requires Valid() && user in carts
      modifies this
      ensures Valid() && SameUserTables()
      ensures !old(DoesUserHaveAddress(user)) ==> r == Err(NoAddress(NoAddressMessage)) && SameOrderTables()
      ensures old(DoesUserHaveAddress(user)) && !old(IsCartNotEmpty(user)) ==>
        r == Err(EmptyCart(EmptyCartMessage)) && SameOrderTables()
      ensures old(DoesUserHaveAddress(user)) && old(IsCartNotEmpty(user)) && old(UserWalk(user)).errors == map[] ==>
        && r == Ok(old(nextOrderId)) && old(nextOrderId) !in old(orders)
        && orders == old(orders)[r.value := NewOrder(user, Some(user), old(CartTotal(catalog, carts[user], today)), now)]
        && orderItems == old(orderItems)[r.value := ItemsOfCart(old(carts[user]))]
        && payments == old(payments) && stock == old(UserWalk(user)).stock
      ensures old(DoesUserHaveAddress(user)) && old(IsCartNotEmpty(user)) && old(UserWalk(user)).errors != map[] ==>
        && r == Err(StockShortfall(ExceedsStockDetail, old(UserWalk(user)).errors))
        && orders == old(orders) && orderItems == old(orderItems) && payments == old(payments)
        && stock == old(stock)
    {
      if !DoesUserHaveAddress(user) {
        return Err(NoAddress(NoAddressMessage));
      }
      if !IsCartNotEmpty(user) {
        return Err(EmptyCart(EmptyCartMessage));
      }
      r := PerformCreate(user, now, today);
    }

    /** The walk of `create_order_items` over a user's cart, from the
        present stock. */
    ghost function UserWalk(user: UserId): Materialized
      reads this
      requires Valid() && user in carts
    {
      assert ValidCart(catalog, carts[user]);
      Materialize(catalog, carts[user], stock)
    }

    /** `perform_create` and the `create_order_items` it sets off. */
    method PerformCreate(user: UserId, now: int, today: int) returns (r: Result<OrderId, OrderError>)
      requires Valid() && user in carts && user in addresses
      modifies this
      ensures Valid() && SameUserTables()
      ensures old(UserWalk(user)).errors == map[] ==>
        && r == Ok(old(nextOrderId)) && old(nextOrderId) !in old(orders)
        && orders == old(orders)[r.value := NewOrder(user, Some(user), old(CartTotal(catalog, carts[user], today)), now)]
        && orderItems == old(orderItems)[r.value := ItemsOfCart(old(carts[user]))]
        && payments == old(payments) && stock == old(UserWalk(user)).stock
      ensures old(UserWalk(user)).errors != map[] ==>
        && r == Err(StockShortfall(ExceedsStockDetail, old(UserWalk(user)).errors))
        && orders == old(orders) && orderItems == old(orderItems) && payments == old(payments)
        && stock == old(stock)
    {
      ghost var walk := UserWalk(user);
      var lines := carts[user];
      var total := CartTotal(catalog, lines, today);
      var id := InsertOrder(user, total, now);
      assert CartWalk(id) == walk;
      ghost var inserted := NewOrder(user, Some(user), total, now);
      var created := CreateOrderItems(id, true);
      if created.Fail? {
        ForgetInserted(old(orders), id, inserted);
        ForgetInserted(old(orderItems), id, []);
        ForgetInserted(old(payments), id, NewPayment(0));
        return Err(created.error);
      }
      NoErrorsMeansWholeCart(catalog, lines, old(stock), today);
      UpdateTwice(old(orderItems), id, [], walk.items);
      r := Ok(id);
    }

    /** The save in `perform_create`: a new, unpaid order of the user with
        the user's address and the given total, still without items. */
    method InsertOrder(user: UserId, total: int, now: int) returns (id: OrderId)
      requires Valid() && user in addresses && total >= 0
      modifies this
      ensures Valid() && SameUserTables()
      ensures id == old(nextOrderId) && id !in old(orders) && id !in old(payments)
      ensures orders == old(orders)[id := NewOrder(user, Some(user), total, now)]
      ensures orderItems == old(orderItems)[id := []]
      ensures payments == old(payments) && stock == old(stock) && nextOrderId == old(nextOrderId) + 1
    {
      id := nextOrderId;
      orders := orders[id := NewOrder(user, Some(user), total, now)];
      orderItems := orderItems[id := []];
      nextOrderId := nextOrderId + 1;
    }

    /** `OrderViewSet.get_queryset`: the requester's orders, and of those
        only the unpaid ones when destroying. */
    function Queryset(user: UserId, action: Action): (r: set<OrderId>)
      reads this
      ensures r <= orders.Keys
      ensures forall id :: id in r ==> orders[id].user == user
      ensures action == Destroy ==> forall id :: id in r ==> !orders[id].isPaid
      ensures forall id :: id in orders && orders[id].user == user && (action == Destroy ==> !orders[id].isPaid) ==> id in r
    {
      set id | id in orders && orders[id].user == user && (action != Destroy || !orders[id].isPaid)
    }

    /** The list action, with the `is_paid` filter when the request gives one. */
    function ListOrders(user: UserId, isPaid: Option<bool>): (r: set<OrderId>)
      reads this
      ensures r <= Queryset(user, List)
      ensures forall id :: id in r ==> isPaid.None? || orders[id].isPaid == isPaid.value
      ensures forall id :: id in Queryset(user, List) && (isPaid.None? || orders[id].isPaid == isPaid.value) ==> id in r
    {
      set id | id in Queryset(user, List) && (isPaid.None? || orders[id].isPaid == isPaid.value)
    }

    /** The retrieve action: an order of another user is not found, like a
        missing one. */
    function RetrieveOrder(user: UserId, id: OrderId): (r: Result<Order, OrderError>)
      reads this
      ensures r.Ok? <==> id in orders && orders[id].user == user
      ensures r.Ok? ==> r.value == orders[id]
      ensures r.Err? ==> r.error == OrderError.NotFound
    {
      if id in Queryset(user, Retrieve) then Ok(orders[id]) else Err(OrderError.NotFound)
    }

    /** The destroy action: only the requester's unpaid orders can be
        deleted, which gives their stock back; any other id is not found. */
    method DestroyOrder(user: UserId, id: OrderId) returns (r: Outcome<OrderError>)
      requires Valid()
      modifies this
      ensures Valid() && SameUserTables() && nextOrderId == old(nextOrderId)
      ensures r.Pass? <==> id in old(orders) && old(orders[id].user) == user && !old(orders[id].isPaid)
      ensures r.Pass? ==>
        && orders == old(orders) - {id} && orderItems == old(orderItems) - {id}
        && payments == old(payments) - {id} && stock == Release(old(stock), old(orderItems[id]))
      ensures r.Fail? ==> r.error == OrderError.NotFound && SameOrderTables()
    {
      if id !in Queryset(user, Destroy) {
        return Fail(OrderError.NotFound);
      }
      DeleteOrder(id);
      r := Pass;
    }

    /** `IsOrderNotPaid`: the order of the URL must exist (404 otherwise)
        and be unpaid. It looks the order up among all orders, not only the
        requester's. */
    function IsOrderNotPaid(id: OrderId): (r: Outcome<OrderError>)
      reads this
      ensures r == Pass <==> id in orders && !orders[id].isPaid
      ensures id !in orders ==> r == Fail(OrderError.NotFound)
      ensures id in orders && orders[id].isPaid ==> r == Fail(AlreadyPaid(AlreadyPaidMessage))
    {
      if id !in orders then Fail(OrderError.NotFound)
      else if orders[id].isPaid then Fail(AlreadyPaid(AlreadyPaidMessage))
      else Pass
    }

    /** `PaymentCreateView.post` after its permissions: `returnUrlValid`
        says whether `return_url` is a URL and `confirmation` is what the
        provider answered (None when creating the remote payment failed).
        The local part replaces any payment of the order by a fresh pending
        one for the order's total. */
    method CreatePayment(user: UserId, id: OrderId, returnUrlValid: bool, confirmation: Option<string>) returns (r: Result<string, OrderError>)
      requires Valid()
      modifies this`payments
      ensures Valid()
      ensures IsOrderNotPaid(id).Fail? ==> r == Err(IsOrderNotPaid(id).error) && payments == old(payments)
      ensures IsOrderNotPaid(id).Pass? && !returnUrlValid ==> r == Err(InvalidReturnUrl) && payments == old(payments)
      ensures IsOrderNotPaid(id).Pass? && returnUrlValid && orders[id].user != user ==>
        r == Err(OrderError.NotFound) && payments == old(payments)
      ensures IsOrderNotPaid(id).Pass? && returnUrlValid && orders[id].user == user && confirmation.None? ==>
        r == Err(ProviderFailure) && payments == old(payments)
      ensures IsOrderNotPaid(id).Pass? && returnUrlValid && orders[id].user == user && confirmation.Some? ==>
        && r == Ok(confirmation.value)
        && payments == old(payments)[id := NewPayment(orders[id].total)]
    {
      var permitted := IsOrderNotPaid(id);
      if permitted.Fail? {
        return Err(permitted.error);
      }
      if !returnUrlValid {
        return Err(InvalidReturnUrl);
      }
      if id !in Queryset(user, Retrieve) {
        return Err(OrderError.NotFound);
      }
      if confirmation.None? {
        return Err(ProviderFailure);
      }
      payments := payments - {id};
      payments := payments[id := NewPayment(orders[id].total)];
      r := Ok(confirmation.value);
    }

    /** `YookassaWebhookView.post` behind `IsAllowedIP`: the payload's order
        id (None when a key on its path is missing), event and payment
        method type. The order and its payment must exist; `ApplyEvent`
        settles them and both are saved. Saving an existing order runs
        `create_order_items` with `created` false, which does nothing. */
    method Webhook(forwardedFor: Option<string>, remoteAddr: Option<string>, parseIpv6: string -> Option<nat>,
                   orderId: Option<OrderId>, event: Option<string>, methodType: Option<string>)
      returns (r: Outcome<WebhookError>)
      requires Valid()
      modifies this`orders, this`payments
      ensures Valid()
      ensures Permissions.HasPermission(forwardedFor, remoteAddr, parseIpv6).Err? ==>
        r == Fail(WebhookError.InvalidAddress) && orders == old(orders) && payments == old(payments)
      ensures Permissions.HasPermission(forwardedFor, remoteAddr, parseIpv6) == Ok(false) ==>
        r == Fail(Forbidden) && orders == old(orders) && payments == old(payments)
      ensures Permissions.HasPermission(forwardedFor, remoteAddr, parseIpv6) == Ok(true) && orderId.None? ==>
        r == Fail(MalformedPayload) && orders == old(orders) && payments == old(payments)
      ensures Permissions.HasPermission(forwardedFor, remoteAddr, parseIpv6) == Ok(true) && orderId.Some? ==>
        && r == old(SettleResult(orderId.value, event, methodType))
        && orders == old(SettledOrders(orderId.value, event, methodType))
        && payments == old(SettledPayments(orderId.value, event, methodType))
    {
      var allowed := Permissions.HasPermission(forwardedFor, remoteAddr, parseIpv6);
      if allowed.Err? {
        return Fail(WebhookError.InvalidAddress);
      }
      if !allowed.value {
        return Fail(Forbidden);
      }
      if orderId.None? {
        return Fail(MalformedPayload);
      }
      r := Settle(orderId.value, event, methodType);
    }

    /** The answer to a notification for an order once its origin is
        allowed: not found unless the order and its payment exist, else what
        `ApplyEvent` makes of them. */
    function SettleResult(id: OrderId, event: Option<string>, methodType: Option<string>): (r: Outcome<WebhookError>)
      reads this
      ensures id !in orders || id !in payments ==> r == Fail(WebhookError.NotFound)
      ensures id in orders && id in payments ==>
        (r == Pass <==> ApplyEvent(orders[id], payments[id], event, methodType).Ok?)
      ensures id in orders && id in payments && r.Fail? ==>
        r.error == ApplyEvent(orders[id], payments[id], event, methodType).error
    {
      if id !in orders || id !in payments then Fail(WebhookError.NotFound)
      else
        match ApplyEvent(orders[id], payments[id], event, methodType)
        case Err(e) => Fail(e)
        case Ok(_) => Pass
    }

    /** The order table after a notification: only a settled order changes. */
    function SettledOrders(id: OrderId, event: Option<string>, methodType: Option<string>): (r: map<OrderId, Order>)
      reads this
      ensures r.Keys == orders.Keys
      ensures forall k :: k in orders && k != id ==> r[k] == orders[k]
      ensures SettleResult(id, event, methodType).Fail? ==> r == orders
      ensures SettleResult(id, event, methodType).Pass? ==> r == orders[id := ApplyEvent(orders[id], payments[id], event, methodType).value.0]
    {
      if id in orders && id in payments && ApplyEvent(orders[id], payments[id], event, methodType).Ok? then
        orders[id := ApplyEvent(orders[id], payments[id], event, methodType).value.0]
      else orders
    }

    /** The payment table after a notification: only a settled payment changes. */
    function SettledPayments(id: OrderId, event: Option<string>, methodType: Option<string>): (r: map<OrderId, Payment>)
      reads this
      ensures r.Keys == payments.Keys
      ensures forall k :: k in payments && k != id ==> r[k] == payments[k]
      ensures SettleResult(id, event, methodType).Fail? ==> r == payments
      ensures SettleResult(id, event, methodType).Pass? ==> r == payments[id := ApplyEvent(orders[id], payments[id], event, methodType).value.1]
    {
      if id in orders && id in payments && ApplyEvent(orders[id], payments[id], event, methodType).Ok? then
        payments[id := ApplyEvent(orders[id], payments[id], event, methodType).value.1]
      else payments
    }

    /** The body of `YookassaWebhookView.post`: both rows are looked up,
        settled and saved. */
    method Settle(id: OrderId, event: Option<string>, methodType: Option<string>) returns (r: Outcome<WebhookError>)
      requires Valid()
      modifies this`orders, this`payments
      ensures Valid()
      ensures r == old(SettleResult(id, event, methodType))
      ensures orders == old(SettledOrders(id, event, methodType)) && payments == old(SettledPayments(id, event, methodType))
    {
      if id !in orders || id !in payments {
        return Fail(WebhookError.NotFound);
      }
      var settled := ApplyEvent(orders[id], payments[id], event, methodType);
      if settled.Err? {
        return Fail(settled.error);
      }
      payments := payments[id := settled.value.1];
      orders := orders[id := settled.value.0];
      r := Pass;
    }

    /** `delete_unpaid_orders`: counts the unpaid orders created strictly
        before three hours ago and deletes exactly them. Deleting each one
        takes its items and payment with it and, since it is unpaid, gives
        its items' quantities back to stock. */
    method DeleteUnpaidOrders(now: int) returns (count: nat)
      requires Valid()
      modifies this
      ensures Valid() && SameUserTables() && nextOrderId == old(nextOrderId)
      ensures count == |Expired(old(orders), now)|
      ensures orders == old(orders) - Expired(old(orders), now)
      ensures orderItems == old(orderItems) - Expired(old(orders), now)
      ensures payments == old(payments) - Expired(old(orders), now)
      ensures stock.Keys == old(stock).Keys
      ensures forall p :: p in stock ==> stock[p] == old(stock)[p] + ReleasedBy(old(orderItems), Expired(old(orders), now), p)
      ensures Expired(orders, now) == {}
    {
      var expired := Expired(orders, now);
      count := |expired|;
      DeleteOrders(expired);
      SweepLeavesNothingExpired(old(orders), now);
    }

    /** The bulk delete of a set of unpaid orders, one order at a time. */
    method DeleteOrders(ids: set<OrderId>)
      requires Valid() && ids <= orders.Keys
      requires forall id :: id in ids ==> !orders[id].isPaid
      modifies this
      ensures Valid() && SameUserTables() && nextOrderId == old(nextOrderId)
      ensures orders == old(orders) - ids && orderItems == old(orderItems) - ids
      ensures payments == old(payments) - ids
      ensures stock.Keys == old(stock).Keys
      ensures forall p :: p in stock ==> stock[p] == old(stock)[p] + ReleasedBy(old(orderItems), ids, p)
    {
      var remaining := ids;
      ghost var deleted: set<OrderId> := {};
      while remaining != {}
        invariant remaining + deleted == ids && remaining !! deleted
        invariant Valid() && SameUserTables() && nextOrderId == old(nextOrderId)
        invariant orders == old(orders) - deleted && orderItems == old(orderItems) - deleted
        invariant payments == old(payments) - deleted
        invariant stock.Keys == old(stock).Keys
        invariant forall p :: p in stock ==> stock[p] == old(stock)[p] + ReleasedBy(old(orderItems), deleted, p)
        decreases remaining
      {
        var id :| id in remaining;
        DeleteNext(id, deleted, old(orders), old(orderItems), old(payments), old(stock));
        deleted := deleted + {id};
        remaining := remaining - {id};
      }
    }

    /** One step of the bulk delete: the tables so far lack the `deleted`
        orders and stock holds their items again; then one more goes. */
    method DeleteNext(id: OrderId, ghost deleted: set<OrderId>, ghost orders0: map<OrderId, Order>,
                      ghost items0: map<OrderId, seq<OrderItem>>, ghost payments0: map<OrderId, Payment>, ghost stock0: Stock)
      requires Valid() && id in orders && !orders[id].isPaid && id !in deleted
      requires deleted + {id} <= items0.Keys
      requires orders == orders0 - deleted && orderItems == items0 - deleted && payments == payments0 - deleted
      requires stock.Keys == stock0.Keys
      requires forall p :: p in stock ==> stock[p] == stock0[p] + ReleasedBy(items0, deleted, p)
      modifies this
      ensures Valid() && SameUserTables() && nextOrderId == old(nextOrderId)
      ensures orders == orders0 - (deleted + {id}) && orderItems == items0 - (deleted + {id})
      ensures payments == payments0 - (deleted + {id})
      ensures stock.Keys == stock0.Keys
      ensures forall p :: p in stock ==> stock[p] == stock0[p] + ReleasedBy(items0, deleted + {id}, p)
    {
      assert orderItems[id] == items0[id];
      DeleteOrder(id);
      SweepStep(stock0, old(stock), items0, deleted, id);
      RemoveOneMore(orders0, deleted, id);
      RemoveOneMore(items0, deleted, id);
      RemoveOneMore(payments0, deleted, id);
    }

    /** `CartItem.save`: `clean` first, then the row is inserted (index
        None) or written over the line at `index`. The unique (cart,
        product) constraint is the caller's to respect. */
    method SaveCartLine(user: UserId, line: CartLine, index: Option<nat>) returns (r: Outcome<CartError>)
      requires Valid() && user in carts && line.product in catalog && line.quantity >= 1
      requires index.None? ==> !InCart(carts[user], line.product)
      requires index.Some? ==> index.value < |carts[user]| && carts[user][index.value].product == line.product
      modifies this`carts
      ensures Valid()
      ensures Clean(line.quantity, stock[line.product]).Fail? ==>
        r == Fail(CleanRejected(Clean(line.quantity, stock[line.product]).error)) && carts == old(carts)
      ensures Clean(line.quantity, stock[line.product]).Pass? && index.None? ==>
        r == Pass && carts == old(carts)[user := old(carts[user]) + [line]]
      ensures Clean(line.quantity, stock[line.product]).Pass? && index.Some? ==>
        r == Pass && carts == old(carts)[user := old(carts[user])[index.value := line]]
    {
      var cleaned := Clean(line.quantity, stock[line.product]);
      if cleaned.Fail? {
        return Fail(CleanRejected(cleaned.error));
      }
      var lines := carts[user];
      if index.None? {
        assert forall i :: 0 <= i < |lines| ==> lines[i].product != line.product;
        carts := carts[user := lines + [line]];
      } else {
        carts := carts[user := lines[index.value := line]];
      }
      r := Pass;
    }

    /** Creating a cart item: the product must exist and the quantity, when
        given, be at least 1; then `validate` for a create (with the model
        default for an omitted quantity) and the save, whose `clean` cannot
        refuse what `validate` admitted. */
    method AddCartItem(user: UserId, product: ProductId, quantity: Option<int>) returns (r: Outcome<CartError>)
      requires Valid() && user in carts
      modifies this`carts
      ensures Valid()
      ensures product !in catalog ==> r == Fail(UnknownProduct) && carts == old(carts)
      ensures product in catalog && ValidateQuantityField(quantity).Fail? ==> r == Fail(InvalidQuantity) && carts == old(carts)
      ensures product in catalog && ValidateQuantityField(quantity).Pass?
              && ValidateCreate(old(carts[user]), product, quantity, stock[product]).Fail? ==>
        r == ValidateCreate(old(carts[user]), product, quantity, stock[product]) && carts == old(carts)
      ensures product in catalog && ValidateQuantityField(quantity).Pass?
              && ValidateCreate(old(carts[user]), product, quantity, stock[product]).Pass? ==>
        r == Pass && carts == old(carts)[user := old(carts[user]) + [CartLine(product, quantity.GetOr(DefaultQuantity))]]
    {
      if product !in catalog {
        return Fail(UnknownProduct);
      }
      if ValidateQuantityField(quantity).Fail? {
        return Fail(InvalidQuantity);
      }
      var checked := ValidateCreate(carts[user], product, quantity, stock[product]);
      if checked.Fail? {
        return checked;
      }
      var line := CartLine(product, quantity.GetOr(DefaultQuantity));
      SerializerImpliesClean(line.quantity, stock[product]);
      r := SaveCartLine(user, line, None);
    }

    /** Updating a cart item of the user's cart, named by its product: the
        quantity, when given, must be at least 1; `validate` for an update
        checks the resulting quantity against the stock of the item's own
        product, which the update cannot change. */
    method UpdateCartItem(user: UserId, product: ProductId, quantity: Option<int>) returns (r: Outcome<CartError>)
      requires Valid() && user in carts
      modifies this`carts
      ensures Valid()
      ensures !InCart(old(carts[user]), product) ==> r == Fail(NotInCart) && carts == old(carts)
      ensures InCart(old(carts[user]), product) && ValidateQuantityField(quantity).Fail? ==>
        r == Fail(InvalidQuantity) && carts == old(carts)
      ensures InCart(old(carts[user]), product) && ValidateQuantityField(quantity).Pass? ==>
        && (r.Pass? <==> quantity.GetOr(old(carts[user])[FindLine(old(carts[user]), product).value].quantity) <= stock[product])
        && (r.Fail? ==> r.error.OutOfStock? && carts == old(carts))
        && (r.Pass? ==> carts == old(carts)[user := old(carts[user])[FindLine(old(carts[user]), product).value :=
              CartLine(product, quantity.GetOr(old(carts[user])[FindLine(old(carts[user]), product).value].quantity))]])
    {
      var index := FindLine(carts[user], product);
      if index.None? {
        return Fail(NotInCart);
      }
      if ValidateQuantityField(quantity).Fail? {
        return Fail(InvalidQuantity);
      }
      var existing := carts[user][index.value];
      var checked := ValidateUpdate(existing, quantity, stock[existing.product]);
      if checked.Fail? {
        return checked;
      }
      var line := CartLine(existing.product, quantity.GetOr(existing.quantity));
      SerializerImpliesClean(line.quantity, stock[product]);
      r := SaveCartLine(user, line, index);
    }

    /** Wishing a product: it must exist and not be wished by the user yet. */
    method AddWishItem(user: UserId, product: ProductId) returns (r: Outcome<WishError>)
      modifies this`wishes
      ensures product !in catalog ==> r == Fail(NoSuchProduct) && wishes == old(wishes)
      ensures product in catalog && (user, product) in old(wishes) ==>
        r == Fail(AlreadyWished(AlreadyWishedMessage)) && wishes == old(wishes)
      ensures product in catalog && (user, product) !in old(wishes) ==>
        r == Pass && wishes == old(wishes) + {(user, product)}
    {
      if product !in catalog {
        return Fail(NoSuchProduct);
      }
      var checked := ValidateWish(wishes, user, product);
      if checked.Fail? {
        return Fail(AlreadyWished(checked.error));
      }
      wishes := wishes + {(user, product)};
      r := Pass;
    }

    /** Creating a user's shipping address: a user has at most one, so a
        second one is refused. */
    method AddShippingAddress(user: UserId) returns (r: Outcome<string>)
      requires Valid()
      modifies this`addresses
      ensures Valid()
      ensures user in old(addresses) ==> r == Fail(OneAddressMessage) && addresses == old(addresses)
      ensures user !in old(addresses) ==> r == Pass && addresses == old(addresses) + {user}
    {
      if user in addresses {
        return Fail(OneAddressMessage);
      }
      addresses := addresses + {user};
      r := Pass;
    }

    /** Deleting a user's shipping address: orders that referred to it keep
        existing with no address (`on_delete=SET_NULL`). */
    method DeleteShippingAddress(user: UserId)
      requires Valid()
      modifies this`addresses, this`orders
      ensures Valid()
      ensures addresses == old(addresses) - {user}
      ensures orders.Keys == old(orders).Keys
      ensures forall id :: id in orders ==> orders[id] == DetachAddress(old(orders)[id], user)
    {
      orders := map id | id in orders :: DetachAddress(orders[id], user);
      addresses := addresses - {user};
    }
  }

  /** The integrity the tables keep: every product has a non-negative
      stock, carts and order items satisfy their constraints, items and
      payments belong to existing orders, order totals are non-negative and
      an order's address, when set, exists. */
  ghost predicate Integrity(catalog: map<ProductId, Product>, stock: Stock, carts: map<UserId, seq<CartLine>>,
                            addresses: set<UserId>, orders: map<OrderId, Order>, orderItems: map<OrderId, seq<OrderItem>>,
                            payments: map<OrderId, Payment>, nextOrderId: OrderId)
  {
      && stock.Keys == catalog.Keys
      && (forall p :: p in catalog ==> ValidProduct(catalog[p]))
      && (forall p :: p in stock ==> stock[p] >= 0)
      && (forall u :: u in carts ==> ValidCart(catalog, carts[u]))
      && orderItems.Keys == orders.Keys
      && payments.Keys <= orders.Keys
      && (forall id :: id in orderItems ==> ValidItems(orderItems[id]) && ProductsIn(orderItems[id], stock))
      && (forall id :: id in orders ==> id < nextOrderId && orders[id].total >= 0)
      && (forall id :: id in orders && orders[id].shippingAddress.Some? ==> orders[id].shippingAddress.value in addresses)
  }

  /** The walk over an order's cart keeps the integrity: the new items
      satisfy the item constraints and no stock went negative. */
  lemma WalkKeepsIntegrity(catalog: map<ProductId, Product>, stock: Stock, carts: map<UserId, seq<CartLine>>,
                           addresses: set<UserId>, orders: map<OrderId, Order>, orderItems: map<OrderId, seq<OrderItem>>,
                           payments: map<OrderId, Payment>, nextOrderId: OrderId, id: OrderId)
    requires Integrity(catalog, stock, carts, addresses, orders, orderItems, payments, nextOrderId)
    requires id in orders && orders[id].user in carts
    ensures LinesKnown(catalog, carts[orders[id].user], stock)
    ensures var m := Materialize(catalog, carts[orders[id].user], stock);
      Integrity(catalog, m.stock, carts, addresses, orders, orderItems[id := m.items], payments, nextOrderId)
  {
    var lines := carts[orders[id].user];
    assert ValidCart(catalog, lines);
    MaterializeValidItems(catalog, lines, stock);
    MaterializeKeepsStockNonNegative(catalog, lines, stock);
    var m := Materialize(catalog, lines, stock);
    assert m.stock.Keys == stock.Keys;
    assert forall o :: o in orderItems && o != id ==> orderItems[id := m.items][o] == orderItems[o];
  }

  /** Removing an order with its items and payment keeps the integrity,
      whatever stock it leaves behind as long as every product keeps a
      non-negative one. */
  lemma RemoveKeepsIntegrity(catalog: map<ProductId, Product>, stock: Stock, carts: map<UserId, seq<CartLine>>,
                             addresses: set<UserId>, orders: map<OrderId, Order>, orderItems: map<OrderId, seq<OrderItem>>,
                             payments: map<OrderId, Payment>, nextOrderId: OrderId, id: OrderId, left: Stock)
    requires Integrity(catalog, stock, carts, addresses, orders, orderItems, payments, nextOrderId)
    requires left.Keys == stock.Keys && forall p :: p in left ==> left[p] >= 0
    ensures Integrity(catalog, left, carts, addresses, orders - {id}, orderItems - {id}, payments - {id}, nextOrderId)
  {
  }

  /** Inserting a key a map lacks and removing it again gives the map back. */
  lemma ForgetInserted<K, V>(m: map<K, V>, k: K, v: V)
    requires k !in m
    ensures m[k := v] - {k} == m && m - {k} == m
  {
    assert m[k := v] - {k} == m;
  }

  /** A second update of a key overrides the first. */
  lemma UpdateTwice<K, V>(m: map<K, V>, k: K, v: V, w: V)
    ensures m[k := v][k := w] == m[k := w]
  {
  }

  /** Removing one more key from a map. */
  lemma RemoveOneMore<K, V>(m: map<K, V>, removed: set<K>, k: K)
    ensures (m - removed) - {k} == m - (removed + {k})
  {
  }

  /** Deleting one more expired order: its items' quantities join what the
      sweep has given back so far. */
  lemma SweepStep(initial: Stock, current: Stock, items: map<OrderId, seq<OrderItem>>, deleted: set<OrderId>, id: OrderId)
    requires deleted + {id} <= items.Keys && id !in deleted
    requires forall p :: p in current ==> p in initial && current[p] == initial[p] + ReleasedBy(items, deleted, p)
    requires ProductsIn(items[id], current)
    ensures forall p :: p in Release(current, items[id]) ==>
      Release(current, items[id])[p] == initial[p] + ReleasedBy(items, deleted + {id}, p)
  {
    forall p | p in Release(current, items[id])
      ensures Release(current, items[id])[p] == initial[p] + ReleasedBy(items, deleted + {id}, p)
    {
      ReleasedByRemove(items, deleted + {id}, id, p);
      assert (deleted + {id}) - {id} == deleted;
    }
  }

  /** After the sweep no order is expired any more, so a second sweep with
      the same clock deletes nothing. */
  lemma SweepLeavesNothingExpired(orders: map<OrderId, Order>, now: int)
    ensures Expired(orders - Expired(orders, now), now) == {}
  {
  }

  /** Removing a key undoes an update of it. */
  lemma UpdateThenRemove<K, V>(m: map<K, V>, k: K, v: V)
    ensures m[k := v] - {k} == m - {k}
  {
    assert (m[k := v] - {k}).Keys == (m - {k}).Keys;
  }

  /** One more line of the walk is one more `Step`. */
  lemma MaterializeSnoc(catalog: map<ProductId, Product>, lines: seq<CartLine>, i: nat, stock: Stock)
    requires LinesKnown(catalog, lines, stock) && i < |lines|
    ensures LinesKnown(catalog, lines[..i], stock) && LinesKnown(catalog, lines[..i + 1], stock)
    ensures Materialize(catalog, lines[..i + 1], stock) == Step(catalog, Materialize(catalog, lines[..i], stock), lines[i])
  {
    assert lines[..i + 1][..i] == lines[..i];
  }

  /** Giving back items of quantity at least 1 never makes stock negative. */
  lemma ReleaseKeepsNonNegative(stock: Stock, items: seq<OrderItem>)
    requires ProductsIn(items, stock) && ValidItems(items)
    requires forall p :: p in stock ==> stock[p] >= 0
    ensures forall p :: p in stock ==> Release(stock, items)[p] >= stock[p] >= 0
  {
    forall p | p in stock
      ensures Release(stock, items)[p] >= stock[p]
    {
      QtyOfNonNegative(items, p);
    }
  }

}
