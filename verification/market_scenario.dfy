/** The buy-then-sell walk-through of the integration tests, worked out on
    the model with concrete numbers. */
module MarketScenario {
  import opened Wrappers
  import opened Chain
  import opened Pricing
  import opened MarketState
  import opened MarketQuery
  import opened MarketExecute
  import opened MarketInstantiate

  const Owner: Addr := [1]
  const Trader: Addr := [2]

  function Created(denom: string): State {
    State(Config("test", denom, Owner), 1, map[Owner := 1])
  }

  function Bought(denom: string): State {
    State(Config("test", denom, Owner), 11, map[Owner := 1, Trader := 10])
  }

  function Sold(denom: string): State {
    State(Config("test", denom, Owner), 6, map[Owner := 1, Trader := 5])
  }

  /** The owner, also the fee collector, creates the market and is its only
      holder. */
  lemma Install(denom: string)
    ensures Instantiate(Some(Owner), InstantiateMsg("test", Owner, denom)) == Ok(Created(denom))
    ensures Holders(Created(denom), None, None) == [Owner]
  {
    var listed := Holders(Created(denom), None, None);
    assert Created(denom).holders.Keys == {Owner};
    assert |listed| == 1;
  }

  /** Ten keys at supply 1 cost 625·(1² + ... + 10²) plus the 5% fee; paying
      exactly that buys them and sends the fee to the collector. */
  lemma BuyTen(denom: string)
    ensures BuyKeyCost(Created(denom), 10) == Ok(CostResponse(240625, 12031, 252656))
    ensures BuyKey(Created(denom), Trader, 10, Paid(252656)) == Ok(Applied(Bought(denom), [Send(Owner, 12031, denom)]))
  {
    assert SquaresBetween(1, 11) == 385;
    var r := BuyKey(Created(denom), Trader, 10, Paid(252656));
    assert r.Ok?;
    assert r.value.state.holders == map[Owner := 1, Trader := 10];
  }

  /** Selling five of them is quoted at the cost of keys 1 to 5; paying the
      quoted fee sells them and sends the price to the trader. */
  lemma SellFive(denom: string)
    ensures SellKeyCost(Bought(denom), 5) == Ok(CostResponse(34375, 1718, 1718))
    ensures SellKey(Bought(denom), Trader, 5, Some(Owner), Paid(1718))
         == Ok(Applied(Sold(denom), [Send(Owner, 1718, denom), Send(Trader, 34375, denom)]))
  {
    assert SquaresBetween(1, 6) == 55;
    var r := SellKey(Bought(denom), Trader, 5, Some(Owner), Paid(1718));
    assert r.Ok?;
    assert r.value.state.holders == map[Owner := 1, Trader := 5];
  }

  /** A strictly ascending pair drawn from `{a, b}` with `a` below `b` is
      `[a, b]`. */
  lemma AscendingPair(r: seq<Addr>, a: Addr, b: Addr)
    requires AddrLess(a, b) && |r| == 2
    requires r[0] in {a, b} && r[1] in {a, b}
    requires AddrLess(r[0], r[1])
    ensures r == [a, b]
  {
    AddrLessAsymmetric(a, b);
    AddrLessIrreflexive(a);
    AddrLessIrreflexive(b);
  }

  /** Both holders are listed, the owner's smaller address first. */
  lemma ListAfterSale(denom: string)
    ensures Holders(Sold(denom), None, None) == [Owner, Trader]
  {
    var st := Sold(denom);
    assert st.holders.Keys == {Owner, Trader};
    assert |st.holders| == 2;
    var listed := Holders(st, None, None);
    assert listed[0] in st.holders && listed[1] in st.holders;
    assert AddrLess(Owner, Trader);
    AscendingPair(listed, Owner, Trader);
  }
}
