# Order fulfilment of the shop, modelled in Dafny

This project models the order-fulfilment core of a Django shop. The shop sells products that may carry a time-limited discount. Users fill a cart, place an order from it, pay for the order through a payment provider, and have the provider's notification settle the order. Unpaid orders expire after three hours.

The model covers these parts:

- **Stock signals.** Creating an order item reserves stock. Deleting an item gives the stock back unless its order is paid.
- **`create_order_items`.** It turns a new order's cart into items. It collects the lines that are short of stock into a `{name: "q > s"}` map. It deletes the order again when that map is not empty.
- **The order views and their permissions.** These cover creating, listing, retrieving and destroying orders. They also cover the local part of creating a payment and the provider's webhook with its IP allow-list.
- **The expiry sweep.**
- **Pricing.** This covers whether a discount is current, the final price, the cost of a line and the total of a cart.
- **The admission rules of cart items, wishes and shipping addresses.**
- **The duplicate check on product property keys.**

The modules follow the program's structure:

| module | file | form |
|---|---|---|
| `Outcomes` | outcomes.dfy | `Option`, `Result`, `Outcome` (pass or fail with an error) |
| `Money` | money.dfy | Python `Decimal` values and `round(x, 2)` (half to even) |
| `Text` | text.dfy | `split`, `strip`, `lower` and integer formatting, on `seq<char>` |
| `Catalog` | catalog.dfy | product/models.py: prices in integer cents, discount percent in tenths |
| `Carts` | carts.dfy | user/models.py: cart lines, line cost, cart total, `CartItem.clean` |
| `CartRules` | cart_rules.dfy | user/serializers.py: cart item and wish validation |
| `Permissions` | permissions.dfy | order/permissions.py `IsAllowedIP`: addresses as (version, integer) |
| `Orders` | orders.dfy | order/models.py records and the webhook's settlement of one order |
| `Fulfilment` | fulfilment.dfy | what the signals and the sweep compute, as functions of the old state |
| `Store` | store.dfy | class `Shop`: the tables, and every request, hook and sweep as a method |

Each database table is a field of `Shop`. The ORM hooks are explicit method calls: saving an order item calls `ReserveProductQuantity`, and a cascade delete calls `RestoreProductQuantity` once per item. `Shop.Valid()` is the invariant that every state-changing method keeps:

- stock is never negative;
- carts and order items satisfy their uniqueness constraint and have quantity ≥ 1;
- items and payments belong to existing orders;
- totals are never negative;
- an order's address, when set, exists.

Units:

- Amounts are integer cents. A discount percent is in tenths of a percent.
- Times are in microseconds. Dates are day numbers.
- The clock (`now`, `today`) is a parameter.
- Parsing an IPv6 address is a parameter.
- The payment provider's answer is a parameter (`confirmation`, which is None when the remote call fails).
- A shipping address is keyed by its user, so the address table is a set of user ids.

Two behaviours of the code that a reader might not expect:

- The webhook (app/order/views.py:141-151) writes any event's status unconditionally. So a canceled payment can still succeed (`Orders.CanceledCanSucceed`), and a succeeded one can be canceled again.
- `IsOrderNotPaid` (app/order/permissions.py:35-40) looks the order up among all orders, not only the requester's. It runs before the ownership check of app/order/views.py:98-99. So a request for another user's paid order is answered with "This order is already paid!", not with not-found (`Store.Shop.CreatePayment`).

## Model

| member | source | states |
|---|---|---|
| Money.RoundHalfEven | app/product/models.py:82 | the result is the nearest integer to n/q, and an exact half goes to the even neighbour |
| Money.HalfEvenUnique | app/product/models.py:82 | at most one integer is the half-even rounding of n/q |
| Money.RoundScale | app/product/models.py:81-82 | scaling numerator and denominator by the same factor leaves the rounding unchanged |
| Money.RoundBounds | app/product/models.py:82 | rounding keeps a value between integer bounds lo and hi (lo·q ≤ n ≤ hi·q) |
| Money.RoundExact | app/user/models.py:134 | rounding an exact multiple of q gives its quotient back |
| Money.Round2 | app/product/models.py:82 | `round(x, 2)` of a decimal with any number of places is the half-even rounding of x to cents |
| Money.Round2OfCents | app/user/models.py:134 | `round(x, 2)` of a two-place value is that value |
| Text.Strip | app/order/permissions.py:64 | the result is a slice of the input, with only white space cut on either side, and it neither starts nor ends with white space |
| Text.Split | app/order/permissions.py:64 | at least one piece, no piece holds the separator, and joining the pieces with it gives the input back |
| Text.FirstField | app/order/permissions.py:64 | `split(sep)[0]`: the longest separator-free prefix, followed by the separator when it is shorter than the input |
| Text.JoinStartsWithFirst | app/order/permissions.py:64 | a joined string starts with its first piece, followed by the separator when there are more pieces |
| Text.NatToString | app/order/signals.py:45 | decimal digits, at least one, no leading zero, a single digit exactly for n < 10 |
| Text.DigitsOfNat | app/order/signals.py:45 | reading the digits of n back gives n |
| Text.CanonicalDigitsRoundTrip | app/order/permissions.py:70 | digits with no leading zero are exactly what `str` prints for the number they denote |
| Text.IntToStringCanonical | app/order/signals.py:45 | the f-string formatting of an integer: it starts with '-' exactly when the integer is negative, and the rest is the canonical decimal digits of its magnitude |
| Text.Lower | app/product/models.py:19 | the same length, with every character lower-cased |
| Text.LowerChar | app/product/models.py:19 | the result is never an upper-case ASCII letter, and it is the character itself or its other case |
| Text.LowerCharAgrees | app/product/models.py:19 | two characters lower to the same one exactly when they are equal or the two cases of one ASCII letter |
| Text.LowerAgrees | app/product/models.py:17-22 | two keys clash after lower-casing exactly when they have the same length and agree at every position up to the case of ASCII letters |
| Catalog.EndDateExclusive | app/product/models.py:125-128 | `is_current` is false on the end date, and true on the start date and the day before the end date of an active discount |
| Catalog.IsCurrent | app/product/models.py:125-128 | a discount is current exactly when it is active and today lies in `[start_date, end_date)` |
| Catalog.ValidDiscount | app/product/models.py:110-114 | `discount_percent` lies between 1 and 100 percent, in tenths |
| Catalog.ValidProduct | app/product/models.py:60-64 | `price` is at least 1 and has at most 8 digits with 2 places; its discount, if any, is valid |
| Catalog.FinalPrice | app/product/models.py:78-84 | with no discount or one that is not current, the price; else p·(1000−d)/1000 cents rounded half to even |
| Catalog.FinalPriceBounds | app/product/models.py:78-84 | for a product within its field bounds, the final price is between 0 and the price, a current discount lowers it, and a 100% discount gives 0 |
| Catalog.ValidateUniqueKeys | app/product/models.py:17-22 | it fails exactly when two keys are equal once lower-cased, and the error set is exactly the lower-cased keys that occur more than once |
| Catalog.LowerAll | app/product/models.py:19 | the key list lower-cased element by element |
| Catalog.CardinalityDetectsDuplicates | app/product/models.py:20 | `len(keys) != len(set(keys))` holds exactly when some key occurs twice |
| Catalog.CountAboveOne | app/product/models.py:21 | `keys.count(k) > 1` for a listed key holds exactly when k occurs at two positions |
| Catalog.CountPositive | app/product/models.py:21 | a positive count means the key occurs in the list |
| Catalog.ElementsBound | app/product/models.py:20 | a list has at least as many entries as its set |
| Carts.LineCost | app/user/models.py:149-154 | the line cost is the final price times the quantity, since the round of a two-place product changes nothing; for a valid product and quantity ≥ 1 it lies between 0 and the undiscounted cost |
| Carts.CartTotal | app/user/models.py:131-134 | the total is the plain sum of the line costs, so the outer round changes nothing; an empty cart totals 0; a valid cart never totals below 0 |
| Carts.SumLineCostsNonNegative | app/user/models.py:131-134 | the sum of line costs of a valid cart of valid products is at least 0 |
| Carts.Clean | app/user/models.py:164-169 | passes exactly when quantity ≤ stock, else fails with "You cannot buy more than we have! (q > s)" |
| CartRules.ValidateQuantityField | app/user/models.py:144 | an omitted quantity or one of at least 1 passes the field's validator, anything else fails |
| CartRules.ContainsProduct | app/user/serializers.py:151 | true exactly when the product is in the cart |
| CartRules.ValidateUniqueCartProduct | app/user/serializers.py:146-153 | fails, with "already added", exactly when the product is in the cart |
| CartRules.ValidateQuantityInStock | app/user/serializers.py:155-169 | passes exactly when quantity ≤ stock (equal passes), else fails with "Out of stock! (q > s)" |
| CartRules.ValidateCreateAsWritten | app/user/serializers.py:135-139 | a duplicate fails as already added; otherwise an omitted quantity fails with a type error, and a given one passes exactly when it is in stock |
| CartRules.OmittedQuantityRejected | app/user/serializers.py:159 | a create into an empty cart without a quantity fails as written, though the default quantity 1 is in stock; the corrected check passes it |
| CartRules.ValidateCreate | app/user/serializers.py:135-139 | a duplicate fails as already added; otherwise it passes exactly when the quantity (default 1 when omitted) is in stock, else fails with the out-of-stock message |
| CartRules.CreateAgreesWhenQuantityGiven | app/user/serializers.py:155-169 | the corrected create check agrees with the code whenever the request gives a quantity |
| CartRules.ValidateUpdate | app/user/serializers.py:141-142 | no duplicate check; it passes exactly when the given quantity, or the existing one when omitted, is within the item's own product's stock |
| CartRules.QuantityOr | app/user/serializers.py:165 | the requested quantity, or the item's existing one when it is omitted or falsy (0) |
| CartRules.SerializerImpliesClean | app/user/models.py:164-169 | a quantity the serializer admitted is also admitted by `clean` on save |
| CartRules.ValidateWish | app/user/serializers.py:97-106 | fails, with "You have already wished this product!", exactly when the user already wished the product |
| Permissions.PrefixMatch | app/order/permissions.py:69-72 | an address is in a network exactly when the versions agree and the top prefix bits are equal |
| Permissions.InNetwork | app/order/permissions.py:70-72 | `ip in ip_network(net)`: the same version, and the address with its host bits cleared is the network address |
| Permissions.HostNetworkHoldsOnlyItsAddress | app/order/permissions.py:52-53 | an entry without a prefix length is a full-width network that holds exactly its own address |
| Permissions.AllowListValid | app/order/permissions.py:48-56 | every listed network has its host bits zero and is within its version's width |
| Permissions.AllowListSpans | app/order/permissions.py:48-56 | the listed blocks have 32, 32, 128, 1, 1, 128 and 2^96 addresses |
| Permissions.AnyContains | app/order/permissions.py:69-72 | true exactly when some network of the list holds the address |
| Permissions.IsAllowedAddress | app/order/permissions.py:69-72 | allowed exactly when some network of the allow-list holds the address |
| Permissions.InsideFirstBlock | app/order/permissions.py:49-54 | 185.71.76.5, 77.75.156.11 and 77.75.154.255 are allowed |
| Permissions.NotListedIpv4 | app/order/permissions.py:48-56 | an IPv4 address outside all six IPv4 blocks is denied |
| Permissions.OutsideEveryBlock | app/order/permissions.py:49-54 | 185.71.76.40, 77.75.156.12 and 77.75.154.127 are denied |
| Permissions.VersionsNeverMix | app/order/permissions.py:55 | an IPv4 address never matches the IPv6 block, and an IPv6 address never matches an IPv4 block |
| Permissions.Ipv6BlockIsPrefix | app/order/permissions.py:55 | an IPv6 address is allowed exactly when its top 32 bits are 2a02:5180 |
| Permissions.ClientIp | app/order/permissions.py:60-67 | with a non-empty X-Forwarded-For, its first comma-separated entry, stripped; otherwise REMOTE_ADDR |
| Permissions.ForwardedAddressShape | app/order/permissions.py:64 | the selected address is a comma-free, unpadded slice of the header's first entry, with only white space around it |
| Permissions.ParseOctet | app/order/permissions.py:70 | a parsed octet is at most 255, and its text is exactly the decimal digits `str` prints for it: no sign, no leading zero, no padding |
| Permissions.ParseIpv4 | app/order/permissions.py:70 | a parsed dotted quad is a 32-bit value |
| Permissions.Ipv4Canonical | app/order/permissions.py:70 | only canonical text parses: accepted text is exactly the dotted quad `FormatIpv4` prints for the parsed value (with `Ipv4RoundTrip`, parsing and formatting are inverse) |
| Permissions.Ipv4RoundTrip | app/order/permissions.py:70 | parsing the dotted quad of any 32-bit value gives that value back |
| Permissions.OctetRoundTrip | app/order/permissions.py:70 | parsing the decimal digits of an octet gives it back |
| Permissions.SplitFourFields | app/order/permissions.py:70 | four dot-free fields joined by dots split back into those four fields |
| Permissions.ParseAddress | app/order/permissions.py:70 | a parsed address is within its version's width, and IPv4 is tried first |
| Permissions.HasPermission | app/order/permissions.py:58-72 | allowed exactly when the selected client address parses and lies in the allow-list; an error exactly when no address is selected or it does not parse |
| Orders.StatusCode | app/order/models.py:59-67 | a status is stored as P, S or C, one code per status |
| Orders.StatusOfCode | app/order/models.py:63-67 | exactly P, S and C read back as statuses, each as the one stored under it |
| Orders.StatusCodeRoundTrip | app/order/models.py:59-77 | reading a stored status code back gives the status |
| Orders.NewOrder | app/order/models.py:15-21 | a new order is unpaid and has the given user, address, total and creation time |
| Orders.NewPayment | app/order/models.py:70-77 | a new payment has the given amount, status Pending (code P), currency "RUB" and an empty method |
| Orders.ItemCost | app/order/models.py:39-44 | an item's cost is final price times quantity, between 0 and the undiscounted cost for a valid product |
| Orders.ItemsOfCart | app/order/signals.py:49-52 | one item per cart line, with the line's product and quantity |
| Orders.ItemsTotalOfCart | app/order/views.py:78 | items copied from a cart cost in total exactly the cart total |
| Orders.ApplyEvent | app/order/views.py:141-151 | succeeded gives status S, the payload's method type and a paid order; canceled gives status C and leaves the order; any other event changes nothing; a missing event or method type is an error |
| Orders.SucceededIdempotent | app/order/views.py:142-145 | applying payment.succeeded twice gives the same rows as applying it once |
| Orders.CancelKeepsPaid | app/order/views.py:147-148 | cancelation never changes `is_paid` |
| Orders.CanceledCanSucceed | app/order/views.py:141-145 | a canceled payment can still move to Succeeded |
| Fulfilment.Release | app/order/signals.py:18-29 | giving items back raises each product's stock by exactly the quantity the items hold of it, and keeps the stock rows |
| Fulfilment.QtyOfAbsent | app/order/signals.py:18-29 | items without a product hold none of it |
| Fulfilment.QtyOfNonNegative | app/order/models.py:34 | items of quantity at least 1 hold a non-negative quantity of every product |
| Fulfilment.Materialize | app/order/signals.py:41-52 | the walk keeps every stock row, and its items are of stocked products |
| Fulfilment.Step | app/order/signals.py:41-52 | one pass of the loop: a line above its product's current stock adds "q > s" under the product's name; any other line is appended as an item and takes its quantity from the stock |
| Fulfilment.MaterializeTakesItems | app/order/signals.py:43-52 | each product's stock drops by exactly the quantity its new items hold |
| Fulfilment.MaterializeKeepsStockNonNegative | app/order/signals.py:43-52 | because the check precedes the decrement, no stock goes negative |
| Fulfilment.MaterializeItemsFromCart | app/order/signals.py:49-52 | every item copies some cart line's product and quantity |
| Fulfilment.MaterializeValidItems | app/order/models.py:47-52 | the items of a valid cart have distinct products and quantity ≥ 1 |
| Fulfilment.LastSeesInitialStock | app/user/models.py:157-162 | with unique products, each line is checked against its product's stock from before the walk |
| Fulfilment.MaterializeItems | app/order/signals.py:41-52 | the items are exactly the lines within stock, in cart order, each with its product and quantity |
| Fulfilment.MaterializeErrorKeys | app/order/signals.py:39-47 | the error map's keys are exactly the names of the products whose lines exceed stock |
| Fulfilment.MaterializeErrorMessages | app/order/signals.py:44-46 | each error value is "q > s" for a short line of that name, against its product's stock |
| Fulfilment.MaterializeMeaning | app/order/signals.py:39-52 | items, error keys and error values together, as the three lemmas above state them |
| Fulfilment.PassingAll | app/order/signals.py:41-52 | when every line is within stock, the passing lines are the whole cart |
| Fulfilment.NoErrorsMeansWholeCart | app/order/signals.py:39-52 | an empty error map means every line became an item, and the items cost the cart total |
| Fulfilment.ShortLineNamed | app/order/signals.py:43-46 | a line above its stock has its product's name among the error keys |
| Fulfilment.RollbackRestoresStock | app/order/signals.py:54-61 | deleting the walk's items, which restores stock since the order is unpaid, gives back the stock from before the walk |
| Fulfilment.ReleasedByRemove | app/order/management/commands/delete_unpaid_orders.py:17 | the stock a set of orders gives back is one order's share plus the rest's |
| Fulfilment.Expired | app/order/management/commands/delete_unpaid_orders.py:11-15 | the orders the sweep matches are among the existing orders |
| Fulfilment.ExpiryIsStrict | app/order/management/commands/delete_unpaid_orders.py:11-15 | paid orders never match; an unpaid order created exactly three hours ago does not match, and one a microsecond older does |
| Store.FindLine | app/user/serializers.py:151 | the position of the product's line, None exactly when it is not in the cart |
| Store.DetachAddress | app/order/models.py:10-14 | an order that referred to the deleted address gets none; nothing else about any order changes |
| Store.SweepStep | app/order/management/commands/delete_unpaid_orders.py:17 | deleting one more unpaid order adds its items' quantities to what the sweep has given back so far |
| Store.SweepLeavesNothingExpired | app/order/management/commands/delete_unpaid_orders.py:11-18 | after the sweep no order matches, so a second run with the same clock deletes nothing |
| Store.MaterializeSnoc | app/order/signals.py:41-52 | one more cart line is one more step of the walk |
| Store.ReleaseKeepsNonNegative | app/order/signals.py:18-29 | giving items back never lowers stock |
| Store.Shop.constructor | app/user/models.py:119-126 | a shop starts with its catalog and stock, one empty cart per user, no wishes, no addresses, no orders, items or payments, and order ids from 0 |
| Store.Shop.ReserveProductQuantity | app/order/signals.py:7-15 | a new item lowers its product's stock by exactly its quantity; re-saving an existing item changes no stock |
| Store.Shop.RestoreProductQuantity | app/order/signals.py:18-29 | a deleted item of an unpaid order raises its product's stock by its quantity; for a paid order stock is unchanged |
| Store.Shop.RestoreOrderStock | app/order/signals.py:18-29 | deleting an order's items one by one gives back `Release` of them, or nothing when the order is paid |
| Store.Shop.DeleteOrder | app/order/models.py:30-31 | the order, its items and its payment go (cascade); stock gets the items back unless the order is paid; the invariant holds |
| Store.Shop.CreateOrderItems | app/order/signals.py:32-61 | re-saving any existing order (created false) passes and changes nothing; for a created order it is `ItemsForNewOrder` |
| Store.Shop.ItemsForNewOrder | app/order/signals.py:38-61 | the items and stock are those of the walk, or, on any shortfall, the order is deleted, nothing else changes and the error carries the detail and the product map |
| Store.Shop.WalkOrder | app/order/signals.py:41-52 | the walk over the order's cart keeps the invariant, and its items, stock and errors are exactly those of `Materialize` |
| Store.Shop.WalkCart | app/order/signals.py:39-52 | the loop's items, stock and error map are exactly those of `Materialize` from the stock before it |
| Store.Shop.WalkLine | app/order/signals.py:43-52 | one pass of the loop is one `Step`: a line above its product's stock is recorded under the product's name, any other is appended as an item and takes its quantity from the stock |
| Store.WalkKeepsIntegrity | app/order/signals.py:41-52 | saving the walk's items under the order and its stock keeps the tables' integrity |
| Store.RemoveKeepsIntegrity | app/order/models.py:30-31 | removing an order with its items and payment keeps the integrity, for any non-negative stock over the same products |
| Store.Integrity | app/order/models.py:6-73 | the constraints the tables keep: items and payments belong to existing orders (CASCADE), an item's (order, product) pair is unique and its quantity ≥ 1, cart lines are valid, stock ≥ 0 and an order's address exists |
| Store.Shop.CreateOrder | app/order/views.py:63-79 | without an address, or with an empty cart, the request fails with that permission's message and changes nothing; otherwise it behaves as `PerformCreate` |
| Store.Shop.PerformCreate | app/order/views.py:72-79 | with no shortfall, a new unpaid order of the requester with the requester's address, the cart total frozen as total, one item per cart line and the walk's stock; with a shortfall, the error and no change to orders, items, payments or stock |
| Store.Shop.InsertOrder | app/order/views.py:72-79 | a fresh id gets a new unpaid order with no items yet, and no other table changes |
| Store.Shop.Queryset | app/order/views.py:55-61 | exactly the requester's orders, and for destroy only the unpaid ones |
| Store.Shop.ListOrders | app/order/views.py:53-57 | the requester's orders, filtered by `is_paid` when the request gives it |
| Store.Shop.RetrieveOrder | app/order/views.py:55-61 | found exactly when the order exists and belongs to the requester, and then it is that order |
| Store.Shop.DestroyOrder | app/order/views.py:55-61 | succeeds exactly for the requester's unpaid orders, deleting the order with its items and payment and giving its stock back; any other id is not found and changes nothing |
| Store.Shop.IsOrderNotPaid | app/order/permissions.py:35-40 | passes exactly when the order exists and is unpaid; otherwise not found, or "This order is already paid!" |
| Store.Shop.CreatePayment | app/order/views.py:93-128 | the permission and URL checks and ownership fail in that order and change nothing; on success exactly one payment exists for the order, a new pending one for the order's total, replacing any earlier one |
| Store.Shop.Webhook | app/order/views.py:136-153 | a client address that does not parse, or one outside the allow-list, is refused and nothing changes; a payload without an order id is malformed; otherwise it settles as `Settle` |
| Store.Shop.SettleResult | app/order/views.py:137-139 | not found when the order or its payment is missing, else the outcome of `ApplyEvent` |
| Store.Shop.SettledOrders | app/order/views.py:141-151 | only the settled order changes, to `ApplyEvent`'s order; a failed settlement changes none |
| Store.Shop.SettledPayments | app/order/views.py:141-151 | only the settled payment changes, to `ApplyEvent`'s payment; a failed settlement changes none |
| Store.Shop.Settle | app/order/views.py:136-153 | the answer and the order and payment tables are those of the settlement, and the invariant holds |
| Store.Shop.DeleteUnpaidOrders | app/order/management/commands/delete_unpaid_orders.py:10-18 | the count is the number of matching orders; exactly they are deleted with their items and payments; each product gets back what their items held; afterwards none matches |
| Store.Shop.DeleteOrders | app/order/management/commands/delete_unpaid_orders.py:17 | deleting a set of unpaid orders removes exactly them and gives back all their items' stock |
| Store.Shop.DeleteNext | app/order/management/commands/delete_unpaid_orders.py:17 | one more deletion of the bulk delete keeps the tables and stock in step with the set deleted so far |
| Store.Shop.SaveCartLine | app/user/models.py:164-174 | `clean` runs first: a quantity above stock is refused and nothing is saved; otherwise the line is appended or written over its old position |
| Store.Shop.AddCartItem | app/user/serializers.py:135-139 | an unknown product, a quantity below 1, a duplicate or a quantity above stock fail and change nothing; otherwise the line (quantity 1 when omitted) is appended to the user's cart |
| Store.Shop.UpdateCartItem | app/user/serializers.py:172-177 | an item not in the user's cart is not found; the quantity (the existing one when omitted) is checked against the item's own product, whose product never changes |
| Store.Shop.AddShippingAddress | app/user/views.py:84-91 | a user who already has a shipping address is refused with "User can have only 1 shipping address!" and nothing changes; otherwise the user gets one |
| Store.Shop.AddWishItem | app/user/serializers.py:97-106 | an unknown product or a repeated wish fails and changes nothing; the first wish adds the (user, product) pair |
| Store.Shop.DeleteShippingAddress | app/order/models.py:10-14 | the address goes, every order survives, and orders that referred to it lose the reference |

## Left out

- The payment provider's SDK (app/order/views.py:33-35, 101-121) is a network client. Its answer is the `confirmation` parameter of `Store.Shop.CreatePayment`.
- Authentication, tokens and password handling are left out. Every request has an authenticated user.
- Concurrency, transactions and locking are left out. Each request, notification and sweep is one sequential step of `Shop`.
- Product rating recomputation, the Celery wrapper, uuid upload paths, admin and URL routing have no rules of their own in the order core.
- Cart creation on signup is left out. Every user in `carts` has exactly one cart from the constructor on.
- The cascades of deleting a user or a product are left out. Only order deletion and shipping-address deletion are modelled.
- Deleting a cart item, wish item or profile through its plain CRUD view, with no rule of its own, is left out. Deleting a shipping address is `Store.Shop.DeleteShippingAddress`.
- The fields of a shipping address (country, city, street and the rest) and its retrieve and update are left out. Only its existence matters to the order core.
- Cart lines are kept in insertion order. The source iterates `cart_items.all()` without an ordering, so the order of the created items and of a repeated product name in the error map is the database's choice.
- The list view's `ordering` on `created_at` is left out. `Store.Shop.ListOrders` returns a set.
- Textual IPv6 parsing belongs to Python's `ipaddress` library and is the `parseIpv6` parameter. IPv4 dotted quads are parsed in the model.
- Text.LowerChar: lower-cases the ASCII letters A-Z only and leaves every other character as it is, while Python's `str.lower` also lowers non-ASCII letters.
- Text.Lower: inherits that gap from `Text.LowerChar`.
- Catalog.ValidateUniqueKeys: inherits the same gap. Python's `str.lower` makes "Ä" and "ä" the same key (app/product/models.py:17-22), but the model treats them as different keys.
- Decimal `max_digits` overflow on save is left out. The prices a product may carry are bounded (`ValidProduct`), but totals and amounts are unbounded integers.
- A webhook payload whose order id is present but names no integer is not modelled (`orderId` is an `Option<OrderId>`).
- Model field validators do not run on a plain `save()`. Quantity ≥ 1 and stock ≥ 0 hold in the model as parts of `Shop.Valid()` that every path keeps.
- Store.Shop.AddCartItem: applies the corrected create rule `CartRules.ValidateCreate` (see "## Findings"). So a create request that omits the quantity appends a line of quantity 1. The code as written raises TypeError there and saves nothing, which `CartRules.ValidateCreateAsWritten` models.
- `Store.Shop.UpdateCartItem` names the cart item by its product, which is unique within a cart, instead of by its row id.
- `DoesUserHaveAddress` and `IsCartNotEmpty` are predicates of `Shop` that `Store.Shop.CreateOrder`'s contract uses directly.

## Findings

| source | as written | input that shows it | evidently intended | confidence | as-written member | corrected member |
|---|---|---|---|---|---|---|
| app/user/serializers.py:159-167 | `quantity = attrs.get("quantity")` is None when a create request omits the optional quantity, and `None > product.qty_in_stock` raises TypeError (a server error) | POST of a cart item with a product not yet in the cart and no quantity, the product having stock ≥ 1 | the model default of 1 (app/user/models.py:144) is validated and saved | not executed | CartRules.OmittedQuantityRejected | CartRules.ValidateCreate |
