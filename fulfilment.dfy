/** What the order signals (app/order/signals.py) compute, as functions of
    the state they start from: the stock an order's items take or give back,
    and the walk of `create_order_items` over a cart, which turns lines that
    are in stock into order items and collects the others into an error map
    keyed by product name. The shop's methods are proved against these. */
module Fulfilment {
  import opened Outcomes
  import opened Text
  import opened Catalog
  import opened Carts
  import opened Orders

  /** `qty_in_stock` of every product. */
  type Stock = map<ProductId, int>

  /** The quantity a sequence of items holds of one product. */
  function QtyOf(items: seq<OrderItem>, p: ProductId): int {
    if |items| == 0 then 0
    else QtyOf(items[..|items| - 1], p) + (if items[|items| - 1].product == p then items[|items| - 1].quantity else 0)
  }

  lemma {:induction false} QtyOfAbsent(items: seq<OrderItem>, p: ProductId)
    requires forall i :: 0 <= i < |items| ==> items[i].product != p
    ensures QtyOf(items, p) == 0
  {
    if |items| > 0 {
      QtyOfAbsent(items[..|items| - 1], p);
    }
  }

  lemma {:induction false} QtyOfNonNegative(items: seq<OrderItem>, p: ProductId)
    requires forall i :: 0 <= i < |items| ==> items[i].quantity >= 1
    ensures QtyOf(items, p) >= 0
  {
    if |items| > 0 {
      QtyOfNonNegative(items[..|items| - 1], p);
    }
  }

  predicate ProductsIn(items: seq<OrderItem>, stock: Stock) {
    forall i :: 0 <= i < |items| ==> items[i].product in stock
  }

  /** `restore_product_quantity` for each item in turn: every item gives its
      quantity back to its product. */
  function Release(stock: Stock, items: seq<OrderItem>): (r: Stock)
    requires ProductsIn(items, stock)
    ensures r.Keys == stock.Keys
    ensures forall p :: p in stock ==> r[p] == stock[p] + QtyOf(items, p)
  {
    if |items| == 0 then stock
    else
      var s := Release(stock, items[..|items| - 1]);
      var last := items[|items| - 1];
      s[last.product := s[last.product] + last.quantity]
  }

  /** The state of the walk: items created so far, the error map, the stock. */
  datatype Materialized = Materialized(items: seq<OrderItem>, errors: map<string, string>, stock: Stock)

  /** Every line names a product of the catalog and of the stock table. */
  predicate LinesKnown(catalog: map<ProductId, Product>, lines: seq<CartLine>, stock: Stock) {
    forall i :: 0 <= i < |lines| ==> lines[i].product in catalog && lines[i].product in stock
  }

  /** One pass of the loop of `create_order_items`: a line above the
      product's current stock records "<quantity> > <stock>" under the
      product's name and is skipped; any other line becomes an order item,
      whose creation takes its quantity from the stock. */
  function Step(catalog: map<ProductId, Product>, m: Materialized, line: CartLine): Materialized
    requires line.product in catalog && line.product in m.stock
  {
    var s := m.stock[line.product];
    if line.quantity > s then
      m.(errors := m.errors[catalog[line.product].name := Shortfall(line.quantity, s)])
    else
      m.(items := m.items + [OrderItem(line.product, line.quantity)], stock := m.stock[line.product := s - line.quantity])
  }

  /** The loop of `create_order_items` over the cart, line by line. Every
      product keeps its stock row and every item is of a stocked product. */
  function Materialize(catalog: map<ProductId, Product>, lines: seq<CartLine>, stock: Stock): (r: Materialized)
    requires LinesKnown(catalog, lines, stock)
    ensures r.stock.Keys == stock.Keys && ProductsIn(r.items, stock)
  {
    if |lines| == 0 then Materialized([], map[], stock)
    else
      assert LinesKnown(catalog, lines[..|lines| - 1], stock);
      Step(catalog, Materialize(catalog, lines[..|lines| - 1], stock), lines[|lines| - 1])
  }

  /** Each product's stock loses exactly the quantity its new items hold. */
  lemma {:induction false} MaterializeTakesItems(catalog: map<ProductId, Product>, lines: seq<CartLine>, stock: Stock)
    requires LinesKnown(catalog, lines, stock)
    ensures forall p :: p in stock ==> Materialize(catalog, lines, stock).stock[p] == stock[p] - QtyOf(Materialize(catalog, lines, stock).items, p)
  {
    if |lines| > 0 {
      var init := lines[..|lines| - 1];
      assert LinesKnown(catalog, init, stock);
      MaterializeTakesItems(catalog, init, stock);
      var m := Materialize(catalog, init, stock);
      var last := lines[|lines| - 1];
      var r := Materialize(catalog, lines, stock);
      assert r == Step(catalog, m, last);
      if last.quantity <= m.stock[last.product] {
        var item := OrderItem(last.product, last.quantity);
        assert r.items == m.items + [item] && r.stock == m.stock[last.product := m.stock[last.product] - last.quantity];
        forall p | p in stock
          ensures r.stock[p] == stock[p] - QtyOf(r.items, p)
        {
          QtyOfSnoc(m.items, item, p);
        }
      }
    }
  }

  lemma QtyOfSnoc(items: seq<OrderItem>, item: OrderItem, p: ProductId)
    ensures QtyOf(items + [item], p) == QtyOf(items, p) + (if item.product == p then item.quantity else 0)
  {
    assert (items + [item])[..|items|] == items;
  }

  /** The check comes before the decrement, so stock that starts
      non-negative never goes below zero. */
  lemma {:induction false} MaterializeKeepsStockNonNegative(catalog: map<ProductId, Product>, lines: seq<CartLine>, stock: Stock)
    requires LinesKnown(catalog, lines, stock)
    requires forall p :: p in stock ==> stock[p] >= 0
    ensures forall p :: p in Materialize(catalog, lines, stock).stock ==> Materialize(catalog, lines, stock).stock[p] >= 0
  {
    if |lines| > 0 {
      var init, last := lines[..|lines| - 1], lines[|lines| - 1];
      assert LinesKnown(catalog, init, stock);
      MaterializeKeepsStockNonNegative(catalog, init, stock);
      var m := Materialize(catalog, init, stock);
      var r := Materialize(catalog, lines, stock);
      assert r == Step(catalog, m, last);
      assert last.product in m.stock;
      assert forall p :: p in m.stock ==> m.stock[p] >= 0;
      forall p | p in r.stock
        ensures r.stock[p] >= 0
      {
        assert p in m.stock;
        if last.quantity <= m.stock[last.product] && p == last.product {
          assert r.stock[p] == m.stock[p] - last.quantity;
        } else {
          assert r.stock[p] == m.stock[p];
        }
      }
    }
  }

  /** The line an item was made from. */
  ghost predicate FromLine(lines: seq<CartLine>, item: OrderItem) {
    exists j :: 0 <= j < |lines| && item == OrderItem(lines[j].product, lines[j].quantity)
  }

  /** Every item copies a line of the cart. */
  lemma {:induction false} MaterializeItemsFromCart(catalog: map<ProductId, Product>, lines: seq<CartLine>, stock: Stock)
    requires LinesKnown(catalog, lines, stock)
    ensures forall i :: 0 <= i < |Materialize(catalog, lines, stock).items| ==> FromLine(lines, Materialize(catalog, lines, stock).items[i])
  {
    if |lines| > 0 {
      var init, last := lines[..|lines| - 1], lines[|lines| - 1];
      assert LinesKnown(catalog, init, stock);
      MaterializeItemsFromCart(catalog, init, stock);
      var m := Materialize(catalog, init, stock);
      var r := Materialize(catalog, lines, stock);
      assert r == Step(catalog, m, last);
      forall i | 0 <= i < |r.items|
        ensures FromLine(lines, r.items[i])
      {
        if i < |m.items| {
          assert r.items[i] == m.items[i] && FromLine(init, m.items[i]);
          var j :| 0 <= j < |init| && m.items[i] == OrderItem(init[j].product, init[j].quantity);
          assert init[j] == lines[j];
        } else {
          assert r.items[i] == OrderItem(lines[|lines| - 1].product, lines[|lines| - 1].quantity);
        }
      }
    }
  }

  /** Items taken from a valid cart satisfy the order-item constraints: one
      item per product, each of quantity at least 1. */
  lemma {:induction false} MaterializeValidItems(catalog: map<ProductId, Product>, lines: seq<CartLine>, stock: Stock)
    requires LinesKnown(catalog, lines, stock) && ValidCart(catalog, lines)
    ensures ValidItems(Materialize(catalog, lines, stock).items)
  {
    if |lines| > 0 {
      var init := lines[..|lines| - 1];
      var last := lines[|lines| - 1];
      assert LinesKnown(catalog, init, stock) && ValidCart(catalog, init);
      MaterializeValidItems(catalog, init, stock);
      MaterializeItemsFromCart(catalog, init, stock);
      var m := Materialize(catalog, init, stock);
      forall i | 0 <= i < |m.items|
        ensures m.items[i].product != last.product
      {
        assert FromLine(init, m.items[i]);
        var j :| 0 <= j < |init| && m.items[i] == OrderItem(init[j].product, init[j].quantity);
        assert init[j] == lines[j];
      }
    }
  }

  /** The items a cart yields when every line is checked against the stock
      the walk started from. */
  function Passing(lines: seq<CartLine>, stock: Stock): seq<OrderItem>
    requires forall i :: 0 <= i < |lines| ==> lines[i].product in stock
  {
    if |lines| == 0 then []
    else
      var last := lines[|lines| - 1];
      Passing(lines[..|lines| - 1], stock)
        + (if last.quantity <= stock[last.product] then [OrderItem(last.product, last.quantity)] else [])
  }

  /** Names of the products whose line asks for more than the stock. */
  function ShortNames(catalog: map<ProductId, Product>, lines: seq<CartLine>, stock: Stock): set<string>
    requires LinesKnown(catalog, lines, stock)
  {
    set i | 0 <= i < |lines| && lines[i].quantity > stock[lines[i].product] :: catalog[lines[i].product].name
  }

  /** Some line short of stock carries that name and that message. */
  ghost predicate ReportsShortLine(catalog: map<ProductId, Product>, lines: seq<CartLine>, stock: Stock, k: string, msg: string)
    requires LinesKnown(catalog, lines, stock)
  {
    exists i :: 0 <= i < |lines| && lines[i].quantity > stock[lines[i].product]
      && catalog[lines[i].product].name == k && msg == Shortfall(lines[i].quantity, stock[lines[i].product])
  }

  /** With each product at most once in the cart, no item made before the
      last line is of the last line's product, so that line is checked
      against the stock the walk started from. */
  lemma LastSeesInitialStock(catalog: map<ProductId, Product>, lines: seq<CartLine>, stock: Stock)
    requires LinesKnown(catalog, lines, stock) && UniqueProducts(lines) && |lines| > 0
    ensures LinesKnown(catalog, lines[..|lines| - 1], stock)
    ensures Materialize(catalog, lines[..|lines| - 1], stock).stock[lines[|lines| - 1].product] == stock[lines[|lines| - 1].product]
  {
    var init, last := lines[..|lines| - 1], lines[|lines| - 1];
    assert LinesKnown(catalog, init, stock);
    var m := Materialize(catalog, init, stock);
    MaterializeTakesItems(catalog, init, stock);
    MaterializeItemsFromCart(catalog, init, stock);
    forall i | 0 <= i < |m.items|
      ensures m.items[i].product != last.product
    {
      assert FromLine(init, m.items[i]);
      var j :| 0 <= j < |init| && m.items[i] == OrderItem(init[j].product, init[j].quantity);
      assert init[j] == lines[j];
    }
    QtyOfAbsent(m.items, last.product);
  }

  /** Each line within the starting stock gives exactly one item, in cart order. */
  lemma {:induction false} MaterializeItems(catalog: map<ProductId, Product>, lines: seq<CartLine>, stock: Stock)
    requires LinesKnown(catalog, lines, stock) && UniqueProducts(lines)
    ensures Materialize(catalog, lines, stock).items == Passing(lines, stock)
  {
    if |lines| > 0 {
      var init, last := lines[..|lines| - 1], lines[|lines| - 1];
      LastSeesInitialStock(catalog, lines, stock);
      assert UniqueProducts(init);
      MaterializeItems(catalog, init, stock);
      assert Materialize(catalog, lines, stock) == Step(catalog, Materialize(catalog, init, stock), last);
    }
  }

  /** The error map is keyed by exactly the names of the lines short of stock. */
  lemma {:induction false} MaterializeErrorKeys(catalog: map<ProductId, Product>, lines: seq<CartLine>, stock: Stock)
    requires LinesKnown(catalog, lines, stock) && UniqueProducts(lines)
    ensures Materialize(catalog, lines, stock).errors.Keys == ShortNames(catalog, lines, stock)
  {
    if |lines| > 0 {
      var init, last := lines[..|lines| - 1], lines[|lines| - 1];
      LastSeesInitialStock(catalog, lines, stock);
      assert UniqueProducts(init);
      MaterializeErrorKeys(catalog, init, stock);
      ShortNamesSnoc(catalog, lines, stock);
      assert Materialize(catalog, lines, stock) == Step(catalog, Materialize(catalog, init, stock), last);
    }
  }

  /** The names short of stock in a cart are those of all lines but the
      last, plus the last line's name when it is short. */
  lemma ShortNamesSnoc(catalog: map<ProductId, Product>, lines: seq<CartLine>, stock: Stock)
    requires LinesKnown(catalog, lines, stock) && |lines| > 0
    ensures LinesKnown(catalog, lines[..|lines| - 1], stock)
    ensures var last := lines[|lines| - 1];
      ShortNames(catalog, lines, stock) == ShortNames(catalog, lines[..|lines| - 1], stock)
        + (if last.quantity > stock[last.product] then {catalog[last.product].name} else {})
  {
    var init, last := lines[..|lines| - 1], lines[|lines| - 1];
    assert LinesKnown(catalog, init, stock);
    var short := last.quantity > stock[last.product];
    var name := catalog[last.product].name;
    forall k | k in ShortNames(catalog, lines, stock)
      ensures k in ShortNames(catalog, init, stock) || (short && k == name)
    {
      var i :| 0 <= i < |lines| && lines[i].quantity > stock[lines[i].product] && catalog[lines[i].product].name == k;
      if i < |init| {
        assert init[i] == lines[i];
      }
    }
    forall k | k in ShortNames(catalog, init, stock)
      ensures k in ShortNames(catalog, lines, stock)
    {
      var i :| 0 <= i < |init| && init[i].quantity > stock[init[i].product] && catalog[init[i].product].name == k;
      assert lines[i] == init[i];
    }
    if short {
      assert lines[|lines| - 1] == last;
      assert name in ShortNames(catalog, lines, stock);
    }
  }

  /** Every message is "<quantity> > <stock>" of a line short of stock that
      bears the key's name. */
  lemma {:induction false} MaterializeErrorMessages(catalog: map<ProductId, Product>, lines: seq<CartLine>, stock: Stock)
    requires LinesKnown(catalog, lines, stock) && UniqueProducts(lines)
    ensures forall k :: k in Materialize(catalog, lines, stock).errors ==>
      ReportsShortLine(catalog, lines, stock, k, Materialize(catalog, lines, stock).errors[k])
  {
    if |lines| > 0 {
      var init, last := lines[..|lines| - 1], lines[|lines| - 1];
      LastSeesInitialStock(catalog, lines, stock);
      assert UniqueProducts(init);
      MaterializeErrorMessages(catalog, init, stock);
      var m := Materialize(catalog, init, stock);
      var r := Materialize(catalog, lines, stock);
      assert r == Step(catalog, m, last);
      var short := last.quantity > stock[last.product];
      var name := catalog[last.product].name;
      forall k | k in r.errors
        ensures ReportsShortLine(catalog, lines, stock, k, r.errors[k])
      {
        if short && k == name {
          assert r.errors[k] == Shortfall(last.quantity, stock[last.product]);
          assert lines[|lines| - 1] == last;
        } else {
          assert k in m.errors && r.errors[k] == m.errors[k];
          assert ReportsShortLine(catalog, init, stock, k, m.errors[k]);
          var i :| 0 <= i < |init| && init[i].quantity > stock[init[i].product]
            && catalog[init[i].product].name == k && m.errors[k] == Shortfall(init[i].quantity, stock[init[i].product]);
          assert lines[i] == init[i];
        }
      }
    }
  }

  /** What `create_order_items` promises, given the unique cart-product
      constraint: the in-stock lines become the items, and the error map
      names exactly the short lines, each with its "<quantity> > <stock>". */
  lemma MaterializeMeaning(catalog: map<ProductId, Product>, lines: seq<CartLine>, stock: Stock)
    requires LinesKnown(catalog, lines, stock) && UniqueProducts(lines)
    ensures Materialize(catalog, lines, stock).items == Passing(lines, stock)
    ensures Materialize(catalog, lines, stock).errors.Keys == ShortNames(catalog, lines, stock)
    ensures forall k :: k in Materialize(catalog, lines, stock).errors ==>
      ReportsShortLine(catalog, lines, stock, k, Materialize(catalog, lines, stock).errors[k])
  {
    MaterializeItems(catalog, lines, stock);
    MaterializeErrorKeys(catalog, lines, stock);
    MaterializeErrorMessages(catalog, lines, stock);
  }

  /** A cart with no line short of stock turns into items copying it line for line. */
  lemma {:induction false} PassingAll(lines: seq<CartLine>, stock: Stock)
    requires forall i :: 0 <= i < |lines| ==> lines[i].product in stock && lines[i].quantity <= stock[lines[i].product]
    ensures Passing(lines, stock) == ItemsOfCart(lines)
  {
    if |lines| > 0 {
      var init := lines[..|lines| - 1];
      assert forall j :: 0 <= j < |init| ==> init[j] == lines[j];
      PassingAll(init, stock);
    }
  }

  /** An order whose walk reported no shortfall holds the whole cart, so the
      total frozen from the cart is the sum of its items' costs. */
  lemma NoErrorsMeansWholeCart(catalog: map<ProductId, Product>, lines: seq<CartLine>, stock: Stock, today: int)
    requires LinesKnown(catalog, lines, stock) && UniqueProducts(lines)
    requires Materialize(catalog, lines, stock).errors == map[]
    ensures Materialize(catalog, lines, stock).items == ItemsOfCart(lines)
    ensures ItemsTotal(catalog, Materialize(catalog, lines, stock).items, today) == CartTotal(catalog, lines, today)
  {
    MaterializeMeaning(catalog, lines, stock);
    forall i | 0 <= i < |lines|
      ensures lines[i].quantity <= stock[lines[i].product]
    {
      ShortLineNamed(catalog, lines, stock, i);
    }
    PassingAll(lines, stock);
    ItemsTotalOfCart(catalog, lines, today);
  }

  lemma ShortLineNamed(catalog: map<ProductId, Product>, lines: seq<CartLine>, stock: Stock, i: nat)
    requires LinesKnown(catalog, lines, stock) && i < |lines|
    ensures lines[i].quantity > stock[lines[i].product] ==> catalog[lines[i].product].name in ShortNames(catalog, lines, stock)
  {
  }

  /** Deleting the items of the walk, which `instance.delete()` does when an
      error was recorded, gives every product back exactly what was taken:
      the stock is as before the order. */
  lemma RollbackRestoresStock(catalog: map<ProductId, Product>, lines: seq<CartLine>, stock: Stock)
    requires LinesKnown(catalog, lines, stock)
    ensures ProductsIn(Materialize(catalog, lines, stock).items, Materialize(catalog, lines, stock).stock)
    ensures Release(Materialize(catalog, lines, stock).stock, Materialize(catalog, lines, stock).items) == stock
  {
    MaterializeTakesItems(catalog, lines, stock);
    var m := Materialize(catalog, lines, stock);
    ReleaseUndoesTaking(stock, m.stock, m.items);
  }

  /** Giving back items whose quantities were taken from `before` restores it. */
  lemma ReleaseUndoesTaking(before: Stock, after: Stock, items: seq<OrderItem>)
    requires after.Keys == before.Keys && ProductsIn(items, after)
    requires forall p :: p in before ==> after[p] == before[p] - QtyOf(items, p)
    ensures Release(after, items) == before
  {
    var back := Release(after, items);
    assert forall p :: p in before ==> back[p] == before[p];
  }

  /** The quantity of one product that the items of a set of orders hold
      together (the order in which the orders go does not matter). */
  ghost function ReleasedBy(items: map<OrderId, seq<OrderItem>>, ids: set<OrderId>, p: ProductId): int
    requires ids <= items.Keys
    decreases ids
  {
    if ids == {} then 0
    else
      var x :| x in ids;
      QtyOf(items[x], p) + ReleasedBy(items, ids - {x}, p)
  }

  lemma {:induction false} ReleasedByRemove(items: map<OrderId, seq<OrderItem>>, ids: set<OrderId>, x: OrderId, p: ProductId)
    requires ids <= items.Keys && x in ids
    ensures ReleasedBy(items, ids, p) == QtyOf(items[x], p) + ReleasedBy(items, ids - {x}, p)
    decreases ids
  {
    var y :| y in ids && ReleasedBy(items, ids, p) == QtyOf(items[y], p) + ReleasedBy(items, ids - {y}, p);
    if y != x {
      ReleasedByRemove(items, ids - {y}, x, p);
      ReleasedByRemove(items, ids - {x}, y, p);
      assert ids - {y} - {x} == ids - {x} - {y};
    }
  }

  /** How long an order may stay unpaid: three hours, in microseconds. */
  const ExpiryWindow: int := 3 * 3600 * 1_000_000

  /** The orders the sweep selects at time `now`: unpaid and created
      strictly before `now - 3h`. */
  function Expired(orders: map<OrderId, Order>, now: int): (r: set<OrderId>)
    ensures r <= orders.Keys
  {
    set id | id in orders && !orders[id].isPaid && orders[id].createdAt < now - ExpiryWindow
  }

  /** The threshold is strict: an unpaid order created exactly three hours
      ago stays, one created a microsecond earlier goes; paid orders never go. */
  lemma ExpiryIsStrict(orders: map<OrderId, Order>, now: int, id: OrderId)
    requires id in orders
    ensures orders[id].isPaid ==> id !in Expired(orders, now)
    ensures !orders[id].isPaid && orders[id].createdAt == now - ExpiryWindow ==> id !in Expired(orders, now)
    ensures !orders[id].isPaid && orders[id].createdAt == now - ExpiryWindow - 1 ==> id in Expired(orders, now)
  {
  }
}
