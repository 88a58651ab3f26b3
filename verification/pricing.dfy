/** The bonding curve and the fee rule of the key market
    (`calculate_price`, `calculate_buy_price`, `calculate_sell_price`,
    `multiply_percentage`). Amounts are `Uint128` in the source; here they are
    unbounded, and each `Uint128` subtraction that can go below zero is an
    explicit abort (`None`), as the source's checked subtraction panics.
    Multiplication overflow is not modelled; `OverflowThreshold` shows where
    it first bites. */
module Pricing {
  import opened Wrappers
  import opened Chain

  const Scale: nat := 1_000_000
  const Divisor: nat := 1_600

  /** `Scale / Divisor`: what one unit of sum-of-squares costs. */
  const UnitPrice: nat := 625

  /** The sum of squares `lo² + (lo+1)² + ... + (hi-1)²`: the curve's
      reference definition, one term per key moved. */
  function SquaresBetween(lo: nat, hi: nat): nat
    decreases hi - lo
  {
    if hi <= lo then 0 else SquaresBetween(lo, hi - 1) + (hi - 1) * (hi - 1)
  }

  /** What moving the supply from `lo` to `hi` costs on the curve. */
  function CurveCost(lo: nat, hi: nat): nat {
    UnitPrice * SquaresBetween(lo, hi)
  }

  /** `Uint128` subtraction: `None` where the source panics. */
  function Sub(a: nat, b: nat): (r: Option<nat>)
    ensures r.Some? <==> b <= a
    ensures r.Some? ==> r.value + b == a
  {
    if b <= a then Some(a - b) else None
  }

  lemma {:induction false} SquaresSplit(lo: nat, mid: nat, hi: nat)
    requires lo <= mid <= hi
    ensures SquaresBetween(lo, hi) == SquaresBetween(lo, mid) + SquaresBetween(mid, hi)
    decreases hi - mid
  {
    if mid < hi {
      SquaresSplit(lo, mid, hi - 1);
    }
  }

  /** The polynomial step of the closed form: adding `6m²` to
      `(m-1)·m·(2m-1)` gives `m·(m+1)·(2m+1)`. */
  lemma SixSquaresStep(m: int)
    ensures (m - 1) * m * (2 * (m - 1) + 1) + 6 * m * m == m * (m + 1) * (2 * m + 1)
  {
    assert (m - 1) * m * (2 * (m - 1) + 1) == 2 * m * m * m - 3 * m * m + m;
    assert m * (m + 1) * (2 * m + 1) == 2 * m * m * m + 3 * m * m + m;
  }

  /** Six times the sum of the first `n` squares is `(n-1)·n·(2n-1)`. */
  lemma {:induction false} SixSquares(n: nat)
    requires n >= 1
    ensures 6 * SquaresBetween(0, n) == (n - 1) * n * (2 * (n - 1) + 1)
  {
    if n > 1 {
      var m := n - 1;
      SixSquares(m);
      assert SquaresBetween(0, n) == SquaresBetween(0, m) + m * m;
      SixSquaresStep(m);
      assert m + 1 == n && 2 * m + 1 == 2 * (n - 1) + 1;
    }
  }

  /** The source's `sum1` term, `(s-1)·s·(2(s-1)+1)/6`, is the sum of the
      first `s` squares, and the division by 6 is exact. */
  lemma Sum1ClosedForm(s: nat)
    requires s >= 1
    ensures (s - 1) * s * (2 * (s - 1) + 1) / 6 == SquaresBetween(0, s)
    ensures (s - 1) * s * (2 * (s - 1) + 1) % 6 == 0
  {
    SixSquares(s);
  }

  /** The source's `sum2` term, `(s-1+a)·(s+a)·((s-1+a)·2+1)/6`, is the sum of
      the first `s+a` squares, and the division by 6 is exact. */
  lemma Sum2ClosedForm(s: nat, a: nat)
    requires s >= 1
    ensures (s - 1 + a) * (s + a) * ((s - 1 + a) * 2 + 1) / 6 == SquaresBetween(0, s + a)
    ensures (s - 1 + a) * (s + a) * ((s - 1 + a) * 2 + 1) % 6 == 0
  {
    var n := s + a;
    SixSquares(n);
    assert (s - 1 + a) * (s + a) * ((s - 1 + a) * 2 + 1) == (n - 1) * n * (2 * (n - 1) + 1);
  }

  /** Scaling by `Scale / Divisor` is exact: it multiplies by 625. */
  lemma ScaleExact(x: nat)
    ensures x * Scale % Divisor == 0
    ensures x * Scale / Divisor == UnitPrice * x
  {
    assert x * Scale == Divisor * (UnitPrice * x);
  }

  /** Both area terms of `calculate_price`, for any `supply >= 1`. */
  lemma CurveTerms(supply: nat, amount: nat)
    ensures supply >= 1 ==>
      && (supply - 1) * supply * (2 * (supply - 1) + 1) / 6 == SquaresBetween(0, supply)
      && (supply - 1 + amount) * (supply + amount) * ((supply - 1 + amount) * 2 + 1) / 6
         == SquaresBetween(0, supply) + SquaresBetween(supply, supply + amount)
  {
    if supply >= 1 {
      Sum1ClosedForm(supply);
      Sum2ClosedForm(supply, amount);
      SquaresSplit(0, supply, supply + amount);
    }
  }

  /** `calculate_price`: the cost of the keys numbered `supply` up to
      `supply + amount - 1`. Aborts exactly where `supply - 1` underflows;
      `sum2 - sum1` never does. */
  function CalculatePrice(supply: nat, amount: nat): (r: Option<nat>)
    ensures r.Some? <==> supply >= 1 || amount == 1
    ensures r.Some? ==> r.value == CurveCost(supply, supply + amount)
  {
    CurveTerms(supply, amount);
    var sum1 := if supply == 0 then 0 else (supply - 1) * supply * (2 * (supply - 1) + 1) / 6;
    if supply == 0 && amount != 1 then
      None  // `supply - 1` in the `sum2` term underflows
    else
      var sum2 := if supply == 0 then 0
        else (supply - 1 + amount) * (supply + amount) * ((supply - 1 + amount) * 2 + 1) / 6;
      var summation: nat := sum2 - sum1;
      ScaleExact(summation);
      Some(summation * Scale / Divisor)
  }

  /** `calculate_buy_price`. */
  function BuyPrice(supplyBeforeBuy: nat, buyAmount: nat): (r: Option<nat>)
    ensures r.Some? <==> supplyBeforeBuy >= 1 || buyAmount == 1
    ensures r.Some? ==> r.value == CurveCost(supplyBeforeBuy, supplyBeforeBuy + buyAmount)
  {
    CalculatePrice(supplyBeforeBuy, buyAmount)
  }

  /** `calculate_sell_price`: priced as the buy that would have led from the
      supply after the sale back to `supplyBeforeSell`, i.e. the cost of the
      top `sellAmount` keys. */
  function SellPrice(supplyBeforeSell: nat, sellAmount: nat): (r: Option<nat>)
    ensures r.Some? <==> sellAmount <= supplyBeforeSell && (supplyBeforeSell - sellAmount >= 1 || sellAmount == 1)
    ensures r.Some? ==> r.value == CurveCost(supplyBeforeSell - sellAmount, supplyBeforeSell)
  {
    var supplyAfterSell :- Sub(supplyBeforeSell, sellAmount);
    CalculatePrice(supplyAfterSell, sellAmount)
  }

  /** Selling the keys a buy just added returns exactly what the buy cost. */
  lemma BuySellSymmetry(supply: nat, amount: nat)
    ensures SellPrice(supply + amount, amount) == BuyPrice(supply, amount)
  {
  }

  /** Buying `a + b` keys at once costs the same as buying `a` and then `b`. */
  lemma {:induction false} PriceAdditive(supply: nat, a: nat, b: nat)
    requires supply >= 1
    ensures CalculatePrice(supply, a + b).Some?
    ensures CalculatePrice(supply, a + b).value
         == CalculatePrice(supply, a).value + CalculatePrice(supply + a, b).value
  {
    SquaresSplit(supply, supply + a, supply + a + b);
  }

  /** The `Uint128` range: one past the largest value the source can hold. */
  const Uint128Bound: nat := 0x1_0000_0000_0000_0000_0000_0000_0000_0000

  /** Where the unbounded model and the source part ways. At supply 1, an
      amount of 100 690 129 613 is the first whose `summation * 1_000_000`
      leaves the `Uint128` range, so the source aborts there; the model still
      quotes a price. */
  lemma OverflowThreshold()
    ensures CalculatePrice(1, 100_690_129_613).Some?
    ensures SquaresBetween(1, 1 + 100_690_129_613) * Scale >= Uint128Bound
    ensures SquaresBetween(1, 1 + 100_690_129_612) * Scale < Uint128Bound
  {
    var a := 100_690_129_613;
    assert SquaresBetween(0, 1) == 0;
    Sum2ClosedForm(1, a);
    SquaresSplit(0, 1, 1 + a);
    Sum2ClosedForm(1, a - 1);
    SquaresSplit(0, 1, a);
  }

  /** A zero-amount trade is free, except that at supply zero it aborts. */
  lemma ZeroAmount(supply: nat)
    ensures supply >= 1 ==> CalculatePrice(supply, 0) == Some(0)
    ensures supply == 0 ==> CalculatePrice(supply, 0) == None
    ensures CalculatePrice(0, 1) == Some(0)
  {
  }

  /** `multiply_percentage`: `percentage` percent of `price`, rounded down. */
  function MultiplyPercentage(price: nat, percentage: U32): (r: nat)
    ensures r * 100 <= price * percentage < r * 100 + 100
  {
    price * percentage / 100
  }

  /** A fee of at most 100 percent never exceeds the price, and a larger price
      never carries a smaller fee. */
  lemma FeeBounds(p: nat, q: nat, percentage: U32)
    requires percentage <= 100
    ensures MultiplyPercentage(p, percentage) <= p
    ensures p <= q ==> MultiplyPercentage(p, percentage) <= MultiplyPercentage(q, percentage)
  {
    var fp := MultiplyPercentage(p, percentage);
    var fq := MultiplyPercentage(q, percentage);
    assert p * percentage <= p * 100;
    if p <= q {
      assert p * percentage <= q * percentage;
    }
  }
}
