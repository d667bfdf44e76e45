/** The user's cart (app/user/models.py): cart lines, their cost, the cart
    total, the stock check of `CartItem.clean` and the integrity rules of the
    cart and wish tables. */
module Carts {
  import opened Outcomes
  import opened Money
  import opened Text
  import opened Catalog

  type UserId = nat

  /** A CartItem row of one cart: product and requested quantity. */
  datatype CartLine = CartLine(product: ProductId, quantity: int)

  /** The unique (cart, product) constraint: a product at most once per cart. */
  predicate UniqueProducts(lines: seq<CartLine>) {
    forall i, j :: 0 <= i < j < |lines| ==> lines[i].product != lines[j].product
  }

  /** A product occurs in the cart. */
  predicate InCart(lines: seq<CartLine>, product: ProductId) {
    exists i :: 0 <= i < |lines| && lines[i].product == product
  }

  /** Rows the database accepts: unique products, `quantity >= 1`, known products. */
  predicate ValidCart(catalog: map<ProductId, Product>, lines: seq<CartLine>) {
    && UniqueProducts(lines)
    && forall i :: 0 <= i < |lines| ==> lines[i].quantity >= 1 && lines[i].product in catalog
  }

  /** `CartItem.get_total_cost` (and `OrderItem.get_total_cost`, which has the
      same formula): `round(final_price * quantity, 2)`; the product of a
      two-place price and an integer needs no rounding. */
  function LineCost(p: Product, quantity: int, today: int): (r: int)
    ensures r == FinalPrice(p, today) * quantity
    ensures ValidProduct(p) && quantity >= 1 ==> 0 <= r <= p.priceCents * quantity
  {
    assert ValidProduct(p) && quantity >= 1 ==> 0 <= FinalPrice(p, today) * quantity <= p.priceCents * quantity by {
      if ValidProduct(p) && quantity >= 1 {
        FinalPriceBounds(p, today);
        MulMonotone(0, FinalPrice(p, today), quantity);
        MulMonotone(FinalPrice(p, today), p.priceCents, quantity);
      }
    }
    Round2OfCents(FinalPrice(p, today) * quantity);
    Round2(Decimal(FinalPrice(p, today) * quantity, 2))
  }

  /** `sum(item.get_total_cost() for item in cart_items)`, left to right. */
  function SumLineCosts(catalog: map<ProductId, Product>, lines: seq<CartLine>, today: int): int
    requires forall i :: 0 <= i < |lines| ==> lines[i].product in catalog
  {
    if |lines| == 0 then 0
    else SumLineCosts(catalog, lines[..|lines| - 1], today)
         + LineCost(catalog[lines[|lines| - 1].product], lines[|lines| - 1].quantity, today)
  }

  /** Every line of a valid cart costs something non-negative, so the sum is too. */
  lemma {:induction false} SumLineCostsNonNegative(catalog: map<ProductId, Product>, lines: seq<CartLine>, today: int)
    requires forall i :: 0 <= i < |lines| ==> lines[i].product in catalog
    ensures ValidCart(catalog, lines) && (forall p :: p in catalog ==> ValidProduct(catalog[p])) ==>
      SumLineCosts(catalog, lines, today) >= 0
  {
    if |lines| > 0 && ValidCart(catalog, lines) && (forall p :: p in catalog ==> ValidProduct(catalog[p])) {
      var init := lines[..|lines| - 1];
      assert ValidCart(catalog, init);
      SumLineCostsNonNegative(catalog, init, today);
      var last := lines[|lines| - 1];
      FinalPriceBounds(catalog[last.product], today);
      assert FinalPrice(catalog[last.product], today) * last.quantity >= 0;
    }
  }

  /** `Cart.get_total_amount`: `round(sum of line costs, 2)`. The outer
      rounding never changes a sum of two-place amounts, an empty cart totals
      0, and a valid cart never totals less than 0. */
  function CartTotal(catalog: map<ProductId, Product>, lines: seq<CartLine>, today: int): (r: int)
    requires forall i :: 0 <= i < |lines| ==> lines[i].product in catalog
    ensures r == SumLineCosts(catalog, lines, today)
    ensures lines == [] ==> r == 0
    ensures ValidCart(catalog, lines) && (forall p :: p in catalog ==> ValidProduct(catalog[p])) ==> r >= 0
  {
    var sum := SumLineCosts(catalog, lines, today);
    Round2OfCents(sum);
    SumLineCostsNonNegative(catalog, lines, today);
    Round2(Decimal(sum, 2))
  }

  /** The message of `CartItem.clean`. */
  function CleanMessage(quantity: int, stock: int): string {
    "You cannot buy more than we have! (" + Shortfall(quantity, stock) + ")"
  }

  /** `CartItem.clean`, which `CartItem.save` runs before writing the row:
      a quantity above the product's stock is rejected, equal to it accepted. */
  function Clean(quantity: int, stock: int): (r: Outcome<string>)
    ensures r.Pass? <==> quantity <= stock
    ensures r.Fail? ==> r.error == CleanMessage(quantity, stock)
  {
    if quantity > stock then Fail(CleanMessage(quantity, stock)) else Pass
  }
}
