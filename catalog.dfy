/** Products and discounts of the catalog (app/product/models.py): field
    bounds, whether a discount is current, the final price after discount,
    and the validator of product property keys. Prices are integer cents,
    discount percentages integer tenths of a percent (one decimal place),
    dates day numbers. */
module Catalog {
  import opened Outcomes
  import opened Money
  import opened Text

  type ProductId = nat

  /** ProductDiscount: `discount_percent` in tenths, `[start_date, end_date)`. */
  datatype Discount = Discount(percentTenths: int, startDate: int, endDate: int, isActive: bool)

  datatype Product = Product(name: string, priceCents: int, discount: Option<Discount>)

  /** `discount_percent`: one decimal place, between 1 and 100 percent. */
  predicate ValidDiscount(d: Discount) {
    10 <= d.percentTenths <= 1000
  }

  /** `price`: at least 1, at most 8 digits with 2 places. */
  predicate ValidProduct(p: Product) {
    && 100 <= p.priceCents < 100_000_000
    && (p.discount.Some? ==> ValidDiscount(p.discount.value))
  }

  /** `ProductDiscount.is_current`: active, started, and not yet at its end date. */
  predicate IsCurrent(d: Discount, today: int) {
    d.isActive && d.startDate <= today < d.endDate
  }

  /** The end date itself is no longer covered by the discount. */
  lemma EndDateExclusive(d: Discount)
    ensures !IsCurrent(d, d.endDate)
    ensures d.isActive && d.startDate < d.endDate ==> IsCurrent(d, d.endDate - 1) && IsCurrent(d, d.startDate)
  {
  }

  predicate HasCurrentDiscount(p: Product, today: int) {
    p.discount.Some? && IsCurrent(p.discount.value, today)
  }

  /** `Product.calculate_final_price`: with a current discount,
      `round(price - price / 100 * percent, 2)` in decimal arithmetic, which in
      cents is `p * (1000 - d) / 1000` rounded half to even; otherwise the price. */
  function FinalPrice(p: Product, today: int): (r: int)
    ensures !HasCurrentDiscount(p, today) ==> r == p.priceCents
    ensures HasCurrentDiscount(p, today) ==>
      r == RoundHalfEven(p.priceCents * (1000 - p.discount.value.percentTenths), 1000)
  {
    if HasCurrentDiscount(p, today) then
      var d := p.discount.value.percentTenths;
      var price := Decimal(p.priceCents, 2);
      var amount := Mul(Div100(price), Decimal(d, 1));
      var exact := Sub(price, amount);
      assert Pow10(3) == 1000 && Pow10(5) == 100000;
      assert exact == Decimal(p.priceCents * (1000 - d), 5);
      assert exact.digits * 100 == (p.priceCents * (1000 - d)) * 100;
      RoundScale(p.priceCents * (1000 - d), 1000, 100);
      Round2(exact)
    else
      p.priceCents
  }

  /** With a valid discount the final price lies between 0 and the price, a
      current discount lowers it by at least a cent, and 100 percent makes it 0. */
  lemma FinalPriceBounds(p: Product, today: int)
    requires ValidProduct(p)
    ensures 0 <= FinalPrice(p, today) <= p.priceCents
    ensures HasCurrentDiscount(p, today) ==> FinalPrice(p, today) < p.priceCents
    ensures HasCurrentDiscount(p, today) && p.discount.value.percentTenths == 1000 ==> FinalPrice(p, today) == 0
  {
    if HasCurrentDiscount(p, today) {
      var c, d := p.priceCents, p.discount.value.percentTenths;
      var n := c * (1000 - d);
      MulSub(1000, d, c);
      MulMonotone(10, d, c);
      MulMonotone(d, 1000, c);
      assert 0 * 1000 <= n <= (c - 1) * 1000;
      RoundBounds(n, 1000, 0, c - 1);
      if d == 1000 {
        RoundBounds(n, 1000, 0, 0);
      }
    }
  }

  /** `validate_unique_keys`: keys are compared after lower-casing; on a
      clash the error carries the set of lower-cased keys that occur more
      than once. */
  function ValidateUniqueKeys(keys: seq<string>): (r: Outcome<set<string>>)
    ensures r.Fail? <==> exists i, j :: 0 <= i < j < |keys| && Lower(keys[i]) == Lower(keys[j])
    ensures r.Fail? ==> forall k :: k in r.error <==>
      exists i, j :: 0 <= i < j < |keys| && Lower(keys[i]) == k && Lower(keys[j]) == k
  {
    var lowered := LowerAll(keys);
    CardinalityDetectsDuplicates(lowered);
    if |lowered| != |Elements(lowered)| then
      var dups := set k | k in lowered && Count(lowered, k) > 1;
      forall k ensures k in dups <==> Repeated(lowered, k) {
        CountAboveOne(lowered, k);
      }
      Fail(dups)
    else
      Pass
  }

  /** `[k.lower() for k in value]` */
  function LowerAll(keys: seq<string>): (r: seq<string>)
    ensures |r| == |keys| && forall i :: 0 <= i < |keys| ==> r[i] == Lower(keys[i])
  {
    if |keys| == 0 then [] else [Lower(keys[0])] + LowerAll(keys[1..])
  }

  /** `set(keys)` */
  function Elements<T>(s: seq<T>): set<T> {
    set x | x in s
  }

  /** `keys.count(k)` */
  function Count<T(==)>(s: seq<T>, x: T): nat {
    if |s| == 0 then 0 else (if s[0] == x then 1 else 0) + Count(s[1..], x)
  }

  ghost predicate HasDuplicate<T>(s: seq<T>) {
    exists i, j :: 0 <= i < j < |s| && s[i] == s[j]
  }

  ghost predicate Repeated<T>(s: seq<T>, x: T) {
    exists i, j :: 0 <= i < j < |s| && s[i] == x && s[j] == x
  }

  lemma {:induction false} ElementsOfTail<T>(s: seq<T>)
    requires |s| > 0
    ensures Elements(s) == {s[0]} + Elements(s[1..])
  {
    forall x | x in Elements(s) ensures x in {s[0]} + Elements(s[1..]) {
      var i :| 0 <= i < |s| && s[i] == x;
      if i > 0 { assert s[1..][i - 1] == x; }
    }
  }

  lemma {:induction false} ElementsBound<T>(s: seq<T>)
    ensures |Elements(s)| <= |s|
  {
    if |s| > 0 {
      ElementsOfTail(s);
      ElementsBound(s[1..]);
    }
  }

  /** `len(keys) != len(set(keys))` holds exactly when some key occurs twice. */
  lemma {:induction false} CardinalityDetectsDuplicates<T>(s: seq<T>)
    ensures |Elements(s)| != |s| <==> HasDuplicate(s)
  {
    if |s| > 0 {
      var t := s[1..];
      ElementsOfTail(s);
      CardinalityDetectsDuplicates(t);
      if s[0] in t {
        var j :| 0 <= j < |t| && t[j] == s[0];
        assert s[0] == s[j + 1];
        ElementsBound(t);
      } else {
        assert Elements(s) == Elements(t) + {s[0]};
        assert s[0] !in Elements(t);
        if HasDuplicate(s) {
          var i, j :| 0 <= i < j < |s| && s[i] == s[j];
          assert i > 0;
          assert t[i - 1] == t[j - 1];
        }
        if HasDuplicate(t) {
          var i, j :| 0 <= i < j < |t| && t[i] == t[j];
          assert s[i + 1] == s[j + 1];
        }
      }
    }
  }

  /** `keys.count(k) > 1` holds exactly when k occurs at two positions. */
  lemma {:induction false} CountAboveOne<T>(s: seq<T>, x: T)
    ensures (x in s && Count(s, x) > 1) <==> Repeated(s, x)
  {
    if |s| > 0 {
      var t := s[1..];
      CountAboveOne(t, x);
      CountPositive(t, x);
      if Repeated(s, x) {
        var i, j :| 0 <= i < j < |s| && s[i] == x && s[j] == x;
        if i > 0 {
          assert t[i - 1] == x && t[j - 1] == x;
        } else {
          assert t[j - 1] == x;
        }
      }
      if Repeated(t, x) {
        var i, j :| 0 <= i < j < |t| && t[i] == x && t[j] == x;
        assert s[i + 1] == x && s[j + 1] == x;
      }
      if s[0] == x && x in t {
        var j :| 0 <= j < |t| && t[j] == x;
        assert s[j + 1] == x;
      }
    }
  }

  lemma {:induction false} CountPositive<T>(s: seq<T>, x: T)
    ensures Count(s, x) > 0 <==> x in s
  {
    if |s| > 0 {
      CountPositive(s[1..], x);
      assert s == [s[0]] + s[1..];
    }
  }
}
