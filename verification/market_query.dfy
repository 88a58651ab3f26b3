/** The key market's read-only queries. Each takes the state by value and
    returns no state, as the source's handlers take `Deps`. */
module MarketQuery {
  import opened Wrappers
  import opened Chain
  import opened Paging
  import opened Pricing
  import opened MarketState

  const IssuerFeePercentage: U32 := 5

  datatype IssuerResponse = IssuerResponse(username: string, feeDenom: string, issuerFeeCollector: Addr, supply: nat)

  /** The answer of both cost simulations. */
  datatype CostResponse = CostResponse(price: nat, issuerFee: nat, totalCost: nat)

  /** A price that aborted becomes the transaction's abort. */
  function OrAbort(price: Option<nat>): (r: Result<nat, MarketError>)
    ensures r.Ok? <==> price.Some?
    ensures r.Ok? ==> r.value == price.value
    ensures r.Err? ==> r.error == Aborted
  {
    match price
    case Some(p) => Ok(p)
    case None => Err(Aborted)
  }

  /** `query_issuer`. */
  function Issuer(st: State): IssuerResponse {
    IssuerResponse(st.config.username, st.config.feeDenom, st.config.issuerFeeCollector, st.supply)
  }

  /** `query_buy_key_cost`: the curve cost of the next `amount` keys, the 5%
      fee on it, and their sum. */
  function BuyKeyCost(st: State, amount: nat): (r: Result<CostResponse, MarketError>)
    ensures r.Ok? <==> st.supply >= 1 || amount == 1
    ensures r.Err? ==> r.error == Aborted
    ensures r.Ok? ==> r.value.price == CurveCost(st.supply, st.supply + amount)
    ensures r.Ok? ==> r.value.issuerFee == MultiplyPercentage(r.value.price, IssuerFeePercentage)
    ensures r.Ok? ==> r.value.totalCost == r.value.price + r.value.issuerFee
  {
    var price :- OrAbort(BuyPrice(st.supply, amount));
    var issuerFee := MultiplyPercentage(price, IssuerFeePercentage);
    Ok(CostResponse(price, issuerFee, price + issuerFee))
  }

  /** `query_sell_key_cost`, as written: it passes `old_supply - amount` to
      `calculate_sell_price`, which subtracts `amount` once more, so it prices
      the keys `supply - 2·amount .. supply - amount - 1` and aborts once
      `2·amount > supply`. The total is the fee alone. */
  function SellKeyCost(st: State, amount: nat): (r: Result<CostResponse, MarketError>)
    ensures r.Ok? <==> 2 * amount <= st.supply && (st.supply - 2 * amount >= 1 || amount == 1)
    ensures r.Err? ==> r.error == Aborted
    ensures r.Ok? ==> r.value.price == CurveCost(st.supply - 2 * amount, st.supply - amount)
    ensures r.Ok? ==> r.value.issuerFee == MultiplyPercentage(r.value.price, IssuerFeePercentage)
    ensures r.Ok? ==> r.value.totalCost == r.value.issuerFee
  {
    var oldSupplyLessAmount :- OrAbort(Sub(st.supply, amount));
    var price :- OrAbort(SellPrice(oldSupplyLessAmount, amount));
    var issuerFee := MultiplyPercentage(price, IssuerFeePercentage);
    Ok(CostResponse(price, issuerFee, issuerFee))
  }

  /** The sell cost the comment in `calculate_sell_price` describes: the
      current supply goes to `calculate_sell_price` once, pricing the top
      `amount` keys. */
  function IntendedSellKeyCost(st: State, amount: nat): (r: Result<CostResponse, MarketError>)
    ensures r.Ok? <==> amount <= st.supply && (st.supply - amount >= 1 || amount == 1)
    ensures r.Err? ==> r.error == Aborted
    ensures r.Ok? ==> r.value.price == CurveCost(st.supply - amount, st.supply)
    ensures r.Ok? ==> r.value.issuerFee == MultiplyPercentage(r.value.price, IssuerFeePercentage)
    ensures r.Ok? ==> r.value.totalCost == r.value.issuerFee
  {
    var price :- OrAbort(SellPrice(st.supply, amount));
    var issuerFee := MultiplyPercentage(price, IssuerFeePercentage);
    Ok(CostResponse(price, issuerFee, issuerFee))
  }

  /** `query_holders`: one page of holder addresses in ascending byte order,
      strictly after the cursor when one is given. */
  function Holders(st: State, limit: Option<U32>, startAfter: Option<Addr>): (r: seq<Addr>)
    ensures |r| == Min(|After(st.holders.Keys, startAfter, AddrLess)|, PageSize(limit))
    ensures forall i :: 0 <= i < |r| ==> r[i] in st.holders
    ensures startAfter.Some? ==> forall i :: 0 <= i < |r| ==> AddrLess(startAfter.value, r[i])
    ensures forall i, j :: 0 <= i < j < |r| ==> AddrLess(r[i], r[j])
    ensures forall i, a ::
              0 <= i < |r| && a in After(st.holders.Keys, startAfter, AddrLess) && a !in r ==> AddrLess(r[i], a)
    ensures startAfter.None? ==> |r| == Min(|st.holders|, PageSize(limit))
    ensures startAfter.None? && |st.holders| <= PageSize(limit) ==> forall a :: a in st.holders <==> a in r
  {
    AddrLessIsStrictTotalOrder();
    Page(st.holders.Keys, AddrLess, startAfter, limit)
  }

  /** `query_holding`: the stored balance, zero for an address never stored. */
  function Holding(st: State, holder: Addr): (r: nat)
    ensures holder in st.holders ==> r == st.holders[holder]
    ensures holder !in st.holders ==> r == 0
  {
    if holder in st.holders then st.holders[holder] else 0
  }

  /** Squares of naturals are strictly monotone. */
  lemma SquareLess(x: nat, y: nat)
    requires x < y
    ensures x * x < y * y
  {
    assert x * x <= x * y;
    assert x * y < y * y;
  }

  /** The sums of squares over two windows of equal width: the higher window
      costs strictly more. */
  lemma {:induction false} HigherWindowCostsMore(lo: nat, hi: nat, width: nat)
    requires lo < hi && width >= 1
    ensures SquaresBetween(lo, lo + width) < SquaresBetween(hi, hi + width)
    decreases width
  {
    var x := lo + width - 1;
    var y := hi + width - 1;
    SquareLess(x, y);
    assert SquaresBetween(lo, lo + width) == SquaresBetween(lo, x) + x * x;
    assert SquaresBetween(hi, hi + width) == SquaresBetween(hi, y) + y * y;
    if width > 1 {
      HigherWindowCostsMore(lo, hi, width - 1);
    } else {
      assert SquaresBetween(lo, x) == 0 && SquaresBetween(hi, y) == 0;
    }
  }

  /** The sell cost as written does not undo a buy: after buying `amount`
      keys at supply `s`, selling them back either aborts or is quoted below
      what the buy cost. */
  lemma SellCostDoubleSubtraction(st: State, amount: nat)
    requires st.supply >= 1 && amount >= 1
    ensures var after := st.(supply := st.supply + amount);
      SellKeyCost(after, amount).Ok? ==>
        SellKeyCost(after, amount).value.price < BuyKeyCost(st, amount).value.price
  {
    var after := st.(supply := st.supply + amount);
    if SellKeyCost(after, amount).Ok? {
      HigherWindowCostsMore(st.supply - amount, st.supply, amount);
    }
  }

  /** One concrete instance: from supply 11 (the owner's key plus ten bought
      at supply 1) the quote for selling those ten aborts, and the quote for
      selling five prices the keys 1 to 5 rather than 6 to 10. */
  lemma SellCostCounterexample(c: Config, h: map<Addr, nat>)
    ensures SellKeyCost(State(c, 11, h), 10) == Err(Aborted)
    ensures BuyKeyCost(State(c, 1, h), 10).Ok?
    ensures SellKeyCost(State(c, 11, h), 5).value.price == CurveCost(1, 6)
    ensures IntendedSellKeyCost(State(c, 11, h), 5).value.price == CurveCost(6, 11)
    ensures CurveCost(1, 6) != CurveCost(6, 11)
  {
    HigherWindowCostsMore(1, 6, 5);
  }

  /** The intended sell cost undoes a buy: selling the keys just bought is
      quoted exactly the buy's price and fee. */
  lemma IntendedSellUndoesBuy(st: State, amount: nat)
    requires BuyKeyCost(st, amount).Ok?
    ensures var sell := IntendedSellKeyCost(st.(supply := st.supply + amount), amount);
      && sell.Ok?
      && sell.value.price == BuyKeyCost(st, amount).value.price
      && sell.value.issuerFee == BuyKeyCost(st, amount).value.issuerFee
  {
  }
}
