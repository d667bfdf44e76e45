/** Admission rules of cart and wish items (app/user/serializers.py):
    `CartItemSerializer.validate` with its two checks, the update variant
    whose product is read-only, and the duplicate check of
    `WishItemSerializer.create`. */
module CartRules {
  import opened Outcomes
  import opened Text
  import opened Catalog
  import opened Carts

  datatype CartError =
    | UnknownProduct                 // the product field names no product
    | InvalidQuantity                // the quantity field is below its minimum of 1
    | AlreadyAdded                   // {"detail": "You have already added this item to your cart!"}
    | OutOfStock(message: string)    // "Out of stock! (<q> > <s>)"
    | QuantityTypeError              // `None > stock` raises TypeError
    | CleanRejected(message: string) // `CartItem.clean` refused the row on save
    | NotInCart                      // the item is not in the user's cart (404)

  const AlreadyAddedMessage := "You have already added this item to your cart!"
  const AlreadyWishedMessage := "You have already wished this product!"

  /** `CartItem.quantity` defaults to 1. */
  const DefaultQuantity := 1

  function OutOfStockMessage(quantity: int, stock: int): string {
    "Out of stock! (" + Shortfall(quantity, stock) + ")"
  }

  /** Field validation of `quantity`: an integer of at least 1 when present. */
  function ValidateQuantityField(quantity: Option<int>): (r: Outcome<CartError>)
    ensures r.Pass? <==> quantity.None? || quantity.value >= 1
  {
    if quantity.Some? && quantity.value < 1 then Fail(InvalidQuantity) else Pass
  }

  function ContainsProduct(cart: seq<CartLine>, product: ProductId): (b: bool)
    ensures b <==> InCart(cart, product)
  {
    if |cart| == 0 then false
    else
      assert forall i :: 1 <= i < |cart| ==> cart[i] == cart[1..][i - 1];
      cart[0].product == product || ContainsProduct(cart[1..], product)
  }

  /** `_validate_unique_cart_product`: the product must not be in the cart yet. */
  function ValidateUniqueCartProduct(cart: seq<CartLine>, product: ProductId): (r: Outcome<CartError>)
    ensures r.Fail? <==> InCart(cart, product)
    ensures r.Fail? ==> r.error == AlreadyAdded
  {
    if ContainsProduct(cart, product) then Fail(AlreadyAdded) else Pass
  }

  /** The comparison of `_validate_quantity_in_stock` once its quantity and
      product are chosen: equal to the stock passes, above it fails. */
  function ValidateQuantityInStock(quantity: int, stock: int): (r: Outcome<CartError>)
    ensures r.Pass? <==> quantity <= stock
    ensures r.Fail? ==> r.error == OutOfStock(OutOfStockMessage(quantity, stock))
  {
    if quantity > stock then Fail(OutOfStock(OutOfStockMessage(quantity, stock))) else Pass
  }

  /** `validate` for a create, as written: `attrs.get("quantity")` is None
      when the request omits the quantity (the field is optional because the
      model has a default), and comparing None with the stock raises TypeError. */
  function ValidateCreateAsWritten(cart: seq<CartLine>, product: ProductId, quantity: Option<int>, stock: int): (r: Outcome<CartError>)
    ensures InCart(cart, product) ==> r == Fail(AlreadyAdded)
    ensures !InCart(cart, product) && quantity.None? ==> r == Fail(QuantityTypeError)
    ensures !InCart(cart, product) && quantity.Some? ==> (r.Pass? <==> quantity.value <= stock)
  {
    match ValidateUniqueCartProduct(cart, product)
    case Fail(e) => Fail(e)
    case Pass =>
      if quantity.None? then Fail(QuantityTypeError) else ValidateQuantityInStock(quantity.value, stock)
  }

  /** A create without a quantity fails as written even though the quantity
      the row would get, 1, is in stock. */
  lemma OmittedQuantityRejected(product: ProductId, stock: int)
    requires stock >= DefaultQuantity
    ensures ValidateCreateAsWritten([], product, None, stock) == Fail(QuantityTypeError)
    ensures ValidateCreate([], product, None, stock) == Pass
  {
  }

  /** `validate` for a create, with the model default for an omitted quantity:
      the duplicate check comes first, then the stock check. */
  function ValidateCreate(cart: seq<CartLine>, product: ProductId, quantity: Option<int>, stock: int): (r: Outcome<CartError>)
    ensures InCart(cart, product) ==> r == Fail(AlreadyAdded)
    ensures !InCart(cart, product) ==> (r.Pass? <==> quantity.GetOr(DefaultQuantity) <= stock)
    ensures !InCart(cart, product) && r.Fail? ==>
      r.error == OutOfStock(OutOfStockMessage(quantity.GetOr(DefaultQuantity), stock))
  {
    match ValidateUniqueCartProduct(cart, product)
    case Fail(e) => Fail(e)
    case Pass => ValidateQuantityInStock(quantity.GetOr(DefaultQuantity), stock)
  }

  /** The correction only touches requests that omit the quantity. */
  lemma CreateAgreesWhenQuantityGiven(cart: seq<CartLine>, product: ProductId, quantity: int, stock: int)
    ensures ValidateCreate(cart, product, Some(quantity), stock) == ValidateCreateAsWritten(cart, product, Some(quantity), stock)
  {
  }

  /** `attrs.get("quantity") or self.instance.quantity` */
  function QuantityOr(quantity: Option<int>, existing: int): int {
    if quantity.Some? && quantity.value != 0 then quantity.value else existing
  }

  /** `validate` for an update: no duplicate check, the existing item's
      product (read-only in `CartItemUpdateSerializer`) and, when the request
      omits it, the existing quantity. The stock passed in is that product's. */
  function ValidateUpdate(existing: CartLine, quantity: Option<int>, stock: int): (r: Outcome<CartError>)
    requires quantity.None? || quantity.value >= 1
    ensures r.Pass? <==> (if quantity.Some? then quantity.value else existing.quantity) <= stock
    ensures r.Fail? ==> r.error.OutOfStock?
  {
    ValidateQuantityInStock(QuantityOr(quantity, existing.quantity), stock)
  }

  /** When the serializer admitted a quantity, `CartItem.clean` on save
      admits it as well: both compare against the same stock. */
  lemma SerializerImpliesClean(quantity: int, stock: int)
    requires ValidateQuantityInStock(quantity, stock).Pass?
    ensures Clean(quantity, stock).Pass?
  {
  }

  /** The check of `WishItemSerializer.create`: a (user, product) wish once only. */
  function ValidateWish(wishes: set<(UserId, ProductId)>, user: UserId, product: ProductId): (r: Outcome<string>)
    ensures r.Fail? <==> (user, product) in wishes
    ensures r.Fail? ==> r.error == AlreadyWishedMessage
  {
    if (user, product) in wishes then Fail(AlreadyWishedMessage) else Pass
  }
}
