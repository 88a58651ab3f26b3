/** The key market's two transitions, `buy_key` and `sell_key`, as pure
    functions from the state before to the state after plus the bank
    transfers the response carries. An error leaves no state behind, as a
    failed transaction commits nothing. */
module MarketExecute {
  import opened Wrappers
  import opened Chain
  import opened Pricing
  import opened MarketState
  import opened MarketQuery

  datatype Applied = Applied(state: State, transfers: seq<Transfer>)

  /** `buy_key`: the buyer pays the curve price plus the 5% fee; the fee goes
      to the collector and the price stays with the contract. Overpayment is
      kept, and a buy of zero keys by a new address stores a zero balance. */
  function BuyKey(st: State, buyer: Addr, amount: nat, payment: Payment): (r: Result<Applied, MarketError>)
    ensures payment.PaymentRejected? ==> r == Err(Payment(payment.reason))
    ensures payment.Paid? && st.supply == 0 && amount != 1 ==> r == Err(Aborted)
    ensures var price := CurveCost(st.supply, st.supply + amount);
            var totalCost := price + MultiplyPercentage(price, IssuerFeePercentage);
            payment.Paid? && (st.supply >= 1 || amount == 1) ==>
              (r.Err? <==> totalCost > payment.amount) &&
              (r.Err? ==> r.error == InsufficientFunds(totalCost, payment.amount))
    ensures r.Ok? ==> r.value.state.supply == st.supply + amount
    ensures r.Ok? ==> r.value.state.config == st.config
    ensures r.Ok? ==> r.value.state.holders.Keys == st.holders.Keys + {buyer}
    ensures r.Ok? ==> forall a :: Holding(r.value.state, a) == Holding(st, a) + (if a == buyer then amount else 0)
    ensures r.Ok? ==> r.value.transfers == [Send(st.config.issuerFeeCollector,
      MultiplyPercentage(CurveCost(st.supply, st.supply + amount), IssuerFeePercentage), st.config.feeDenom)]
  {
    var paid :- MustPay(payment);
    var simulation :- BuyKeyCost(st, amount);
    if simulation.totalCost > paid then
      Err(InsufficientFunds(simulation.totalCost, paid))
    else
      var balance := if buyer in st.holders then st.holders[buyer] + amount else amount;
      var next := st.(supply := st.supply + amount, holders := st.holders[buyer := balance]);
      Ok(Applied(next, [Send(st.config.issuerFeeCollector, simulation.issuerFee, st.config.feeDenom)]))
  }

  /** `sell_key`: the seller pays the 5% fee and receives the price quoted by
      the sell simulation. The checks run in the source's order: issuer,
      payment, quote, funds, holder, over-sell, issuer's last key. */
  function SellKey(st: State, seller: Addr, amount: nat, owner: Option<Addr>, payment: Payment)
    : (r: Result<Applied, MarketError>)
    ensures owner.None? ==> r == Err(AccountOwnerMustBeSetToIssueKey)
    ensures owner.Some? && payment.PaymentRejected? ==> r == Err(Payment(payment.reason))
    ensures var quotable := 2 * amount <= st.supply && (st.supply - 2 * amount >= 1 || amount == 1);
            owner.Some? && payment.Paid? && !quotable ==> r == Err(Aborted)
    ensures var quotable := 2 * amount <= st.supply && (st.supply - 2 * amount >= 1 || amount == 1);
            owner.Some? && payment.Paid? && quotable ==>
              var price := CurveCost(st.supply - 2 * amount, st.supply - amount);
              var fee := MultiplyPercentage(price, IssuerFeePercentage);
              && (fee > payment.amount ==> r == Err(InsufficientFunds(fee, payment.amount)))
              && (fee <= payment.amount && seller !in st.holders ==> r == Err(CannotSellMoreThanOwned(0, amount)))
              && (fee <= payment.amount && seller in st.holders && amount > st.holders[seller]
                  ==> r == Err(CannotSellMoreThanOwned(amount, amount)))
              && (fee <= payment.amount && seller in st.holders && amount == st.holders[seller] && seller == owner.value
                  ==> r == Err(IssuerCannotSellLastKey))
              && ((fee <= payment.amount && seller in st.holders && amount <= st.holders[seller]
                   && !(amount == st.holders[seller] && seller == owner.value)) ==> r.Ok?)
              && (r.Ok? ==> r.value.transfers == [Send(st.config.issuerFeeCollector, fee, st.config.feeDenom),
                                                  Send(seller, price, st.config.feeDenom)])
    ensures r.Ok? ==> seller in st.holders && amount <= st.holders[seller]
    ensures r.Ok? ==> r.value.state.supply == st.supply - amount
    ensures r.Ok? ==> r.value.state.config == st.config
    ensures r.Ok? ==>
              r.value.state.holders.Keys ==
              (if amount == st.holders[seller] then st.holders.Keys - {seller} else st.holders.Keys)
    ensures r.Ok? ==> forall a :: Holding(r.value.state, a) + (if a == seller then amount else 0) == Holding(st, a)
  {
    var issuerAddr :- IssuerAddr(owner);
    var paid :- MustPay(payment);
    var simulation :- SellKeyCost(st, amount);
    if simulation.totalCost > paid then
      Err(InsufficientFunds(simulation.totalCost, paid))
    else if seller !in st.holders then
      Err(CannotSellMoreThanOwned(owned := 0, toSell := amount))
    else
      var oldAmount := st.holders[seller];
      if amount <= oldAmount then
        if seller == issuerAddr && amount == oldAmount then
          Err(IssuerCannotSellLastKey)
        else
          var holders := if oldAmount == amount then st.holders - {seller} else st.holders[seller := oldAmount - amount];
          var next := st.(supply := st.supply - amount, holders := holders);
          Ok(Applied(next, [Send(st.config.issuerFeeCollector, simulation.issuerFee, st.config.feeDenom),
                            Send(seller, simulation.price, st.config.feeDenom)]))
      else
        // the error reports the amount to sell where the balance was meant
        Err(CannotSellMoreThanOwned(owned := amount, toSell := amount))
  }
}
