/** Fixed-point arithmetic on Python `Decimal` values as the shop uses them.
    An amount of money is an integer number of cents; a `Decimal` with more
    places is `digits / 10^places`; `round(x, 2)` rounds half to even, which
    is the rounding of Python's default decimal context. */
module Money {
  function Abs(x: int): nat {
    if x < 0 then -x else x
  }

  function Pow10(n: nat): (r: nat)
    ensures r >= 1
  {
    if n == 0 then 1 else 10 * Pow10(n - 1)
  }

  /** r is the integer nearest to n / q; when n / q lies exactly halfway
      between two integers, r is the even one. */
  ghost predicate IsHalfEvenRounding(n: int, q: int, r: int)
    requires q > 0
  {
    && 2 * Abs(n - r * q) <= q
    && (2 * Abs(n - r * q) == q ==> r % 2 == 0)
  }

  /** n / q rounded half to even (ROUND_HALF_EVEN). */
  function RoundHalfEven(n: int, q: int): (r: int)
    requires q > 0
    ensures IsHalfEvenRounding(n, q, r)
  {
    var f, rem := n / q, n % q;
    assert n - f * q == rem;
    assert n - (f + 1) * q == rem - q;
    if 2 * rem < q then f
    else if 2 * rem > q then f + 1
    else if f % 2 == 0 then f
    else f + 1
  }

  lemma MulAtLeast(a: int, q: int)
    requires a >= 1 && q > 0
    ensures a * q >= q
  {
  }

  /** Half-even rounding is determined by its definition: at most one
      integer satisfies it. */
  lemma AtMostOne(a: int, q: int)
    requires q > 0 && a * q <= q
    ensures a <= 1
  {
  }

  lemma MulSub(a: int, b: int, q: int)
    ensures (a - b) * q == a * q - b * q
  {
  }

  lemma {:induction false} HalfEvenUnique(n: int, q: int, r1: int, r2: int)
    requires q > 0
    requires IsHalfEvenRounding(n, q, r1) && IsHalfEvenRounding(n, q, r2)
    ensures r1 == r2
  {
    var lo, hi := if r1 < r2 then r1 else r2, if r1 < r2 then r2 else r1;
    var eLo, eHi := n - lo * q, n - hi * q;
    MulSub(hi, lo, q);
    assert (hi - lo) * q == eLo - eHi;
    AtMostOne(hi - lo, q);
    assert hi == lo + 1 ==> eLo - eHi == q;
    assert hi == lo + 1 ==> 2 * Abs(eLo) == q && 2 * Abs(eHi) == q;
  }

  /** Rounding a value that is already a whole number of units changes nothing. */
  lemma RoundExact(n: int, q: int)
    requires q > 0
    ensures RoundHalfEven(n * q, q) == n
  {
    assert n * q - n * q == 0;
    HalfEvenUnique(n * q, q, n, RoundHalfEven(n * q, q));
  }

  lemma MulMonotone(a: int, b: int, k: int)
    requires a <= b && k > 0
    ensures a * k <= b * k
  {
    assert b * k - a * k == (b - a) * k;
  }

  lemma MulCancel(a: int, b: int, k: int)
    requires k > 0 && a * k == b * k
    ensures a == b
  {
    if a < b {
      MulAtLeast(b - a, k);
    } else if a > b {
      MulAtLeast(a - b, k);
    }
  }

  lemma {:induction false} ScaledRounding(n: int, q: int, k: int, r: int)
    requires q > 0 && k > 0 && IsHalfEvenRounding(n, q, r)
    ensures IsHalfEvenRounding(n * k, q * k, r)
  {
    var e := n - r * q;
    assert n * k - r * (q * k) == e * k;
    assert Abs(e * k) == Abs(e) * k;
    MulMonotone(2 * Abs(e), q, k);
    assert (2 * Abs(e)) * k == 2 * Abs(e * k);
    if 2 * Abs(e * k) == q * k {
      MulCancel(2 * Abs(e), q, k);
    }
  }

  /** Scaling numerator and denominator alike does not change the rounding. */
  lemma RoundScale(n: int, q: int, k: int)
    requires q > 0 && k > 0
    ensures RoundHalfEven(n * k, q * k) == RoundHalfEven(n, q)
  {
    var r := RoundHalfEven(n, q);
    ScaledRounding(n, q, k, r);
    HalfEvenUnique(n * k, q * k, r, RoundHalfEven(n * k, q * k));
  }

  /** Rounding stays within any range of whole numbers that holds the exact value. */
  lemma RoundBounds(n: int, q: int, lo: int, hi: int)
    requires q > 0 && lo * q <= n <= hi * q
    ensures lo <= RoundHalfEven(n, q) <= hi
  {
    var r := RoundHalfEven(n, q);
    MulSub(r, hi, q);
    MulSub(lo, r, q);
    assert Abs(n - r * q) < q;
    BelowOne(r - hi, q);
    BelowOne(lo - r, q);
  }

  lemma BelowOne(a: int, q: int)
    requires q > 0 && a * q < q
    ensures a <= 0
  {
    if a >= 1 {
      MulAtLeast(a, q);
    }
  }


  /** A Python `Decimal` with a fixed exponent: value `digits / 10^places`. */
  datatype Decimal = Decimal(digits: int, places: nat)

  /** `x / 100`, exact in decimal arithmetic. */
  function Div100(x: Decimal): Decimal {
    Decimal(x.digits, x.places + 2)
  }

  /** `x * y`, exact in decimal arithmetic. */
  function Mul(x: Decimal, y: Decimal): Decimal {
    Decimal(x.digits * y.digits, x.places + y.places)
  }

  /** `x - y`, exact: the result has the larger number of places. */
  function Sub(x: Decimal, y: Decimal): Decimal {
    if x.places >= y.places then
      Decimal(x.digits - y.digits * Pow10(x.places - y.places), x.places)
    else
      Decimal(x.digits * Pow10(y.places - x.places) - y.digits, y.places)
  }

  /** `round(x, 2)` in cents: the value times 100, rounded half to even. */
  function Round2(x: Decimal): (cents: int)
    ensures IsHalfEvenRounding(x.digits * 100, Pow10(x.places), cents)
  {
    RoundHalfEven(x.digits * 100, Pow10(x.places))
  }

  /** `round(x, 2)` leaves a value with two places unchanged. */
  lemma Round2OfCents(c: int)
    ensures Round2(Decimal(c, 2)) == c
  {
    assert Pow10(2) == 100;
    RoundExact(c, 100);
  }
}
