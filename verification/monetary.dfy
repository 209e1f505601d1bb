/**
 * The monetary values the bots compute with: currencies, amounts of a
 * currency, exchange rates to a reference currency and permill fractions.
 * Amounts are exact non-negative rationals.
 */
module Monetary {

  /** A currency, compared by its id rather than by object identity. */
  datatype Currency = Currency(id: nat)

  /** A magnitude of money is never negative. */
  type Magnitude = r: real | 0.0 <= r

  /** A rate is strictly positive. */
  type PositiveReal = r: real | 0.0 < r witness 1.0

  datatype MonetaryAmount = MonetaryAmount(currency: Currency, value: Magnitude) {

    /** `amount.mul(factor)`: the same currency, scaled. */
    function Mul(factor: Magnitude): (r: MonetaryAmount)
      ensures r.currency == currency
      ensures r.value == 0.0 <==> value == 0.0 || factor == 0.0
    {
      MonetaryAmount(currency, Product(value, factor))
    }
  }

  /** The product of two magnitudes is a magnitude. */
  function Product(x: Magnitude, y: Magnitude): (p: Magnitude)
    ensures p == 0.0 <==> x == 0.0 || y == 0.0
  {
    assert 0.0 <= x * y;
    x * y
  }

  /**
   * The price of one unit of `counter` in units of `base` (the reference
   * currency). Converting to the base currency is multiplication by it.
   */
  datatype ExchangeRate = ExchangeRate(base: Currency, counter: Currency, basePerCounter: PositiveReal) {

    /** `amount` expressed in the base currency. */
    function ToBase(amount: MonetaryAmount): (r: MonetaryAmount)
      ensures r.currency == base
      ensures amount.value == 0.0 <==> r.value == 0.0
    {
      MonetaryAmount(base, Product(amount.value, basePerCounter))
    }
  }

  function Min(x: real, y: real): (m: real)
    ensures m <= x && m <= y
    ensures m == x || m == y
  {
    if x <= y then x else y
  }

  /** A chain permill (parts per million) as a fraction. */
  function DecodePermill(permill: nat): (f: Magnitude)
    ensures permill <= 1_000_000 ==> f <= 1.0
    ensures f == 0.0 <==> permill == 0
  {
    permill as real / 1_000_000.0
  }
}
