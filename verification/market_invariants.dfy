/** The ledger invariants of the key market across its transitions: the
    supply always equals the sum of the balances, and, as long as nobody buys
    zero keys, no stored balance is zero. */
module MarketInvariants {
  import opened Wrappers
  import opened Chain
  import opened MarketState
  import opened MarketQuery
  import opened MarketExecute
  import opened MarketInstantiate

  lemma BuyKeepsLedger(st: State, buyer: Addr, amount: nat, payment: Payment)
    requires Ledger(st)
    ensures BuyKey(st, buyer, amount, payment).Ok? ==> Ledger(BuyKey(st, buyer, amount, payment).value.state)
    ensures BuyKey(st, buyer, amount, payment).Ok? && amount > 0 && NoZeroEntries(st)
      ==> NoZeroEntries(BuyKey(st, buyer, amount, payment).value.state)
  {
    var balance := if buyer in st.holders then st.holders[buyer] + amount else amount;
    TotalUpdate(st.holders, buyer, balance);
  }

  lemma SellKeepsLedger(st: State, seller: Addr, amount: nat, owner: Option<Addr>, payment: Payment)
    requires Ledger(st)
    ensures SellKey(st, seller, amount, owner, payment).Ok?
      ==> Ledger(SellKey(st, seller, amount, owner, payment).value.state)
    ensures SellKey(st, seller, amount, owner, payment).Ok? && NoZeroEntries(st)
      ==> NoZeroEntries(SellKey(st, seller, amount, owner, payment).value.state)
  {
    var r := SellKey(st, seller, amount, owner, payment);
    if r.Ok? {
      var old_ := st.holders[seller];
      if old_ == amount {
        TotalRemove(st.holders, seller);
      } else {
        TotalUpdate(st.holders, seller, old_ - amount);
      }
    }
  }

  /** A buy of zero keys by an address that holds none succeeds at any
      positive supply and leaves a zero balance stored. */
  lemma ZeroBuyStoresZero(st: State, buyer: Addr, paid: nat)
    requires st.supply >= 1 && buyer !in st.holders
    ensures BuyKey(st, buyer, 0, Paid(paid)).Ok?
    ensures var next := BuyKey(st, buyer, 0, Paid(paid)).value.state;
      buyer in next.holders && next.holders[buyer] == 0 && !NoZeroEntries(next)
  {
  }

  /** A trade request together with the inputs the environment supplies. */
  datatype Trade =
    | Buy(buyer: Addr, amount: nat, payment: Payment)
    | Sell(seller: Addr, amount: nat, owner: Option<Addr>, payment: Payment)

  /** The state after one transaction; a failed one commits nothing. */
  function Step(st: State, trade: Trade): State {
    var r := match trade
      case Buy(b, a, p) => BuyKey(st, b, a, p)
      case Sell(s, a, o, p) => SellKey(st, s, a, o, p);
    if r.Ok? then r.value.state else st
  }

  /** The state after a sequence of transactions. */
  function Replay(st: State, trades: seq<Trade>): State
    decreases |trades|
  {
    if trades == [] then st else Replay(Step(st, trades[0]), trades[1..])
  }

  /** From any state that satisfies the ledger invariant, every sequence of
      trades keeps it. */
  lemma {:induction false} ReplayKeepsLedger(st: State, trades: seq<Trade>)
    requires Ledger(st)
    ensures Ledger(Replay(st, trades))
    ensures Replay(st, trades).config == st.config
    decreases |trades|
  {
    if trades != [] {
      match trades[0] {
        case Buy(b, a, p) => BuyKeepsLedger(st, b, a, p);
        case Sell(s, a, o, p) => SellKeepsLedger(st, s, a, o, p);
      }
      ReplayKeepsLedger(Step(st, trades[0]), trades[1..]);
    }
  }

  /** After any trades on a freshly created market, supply equals the sum of
      the balances. */
  lemma MarketLedgerHolds(owner: Option<Addr>, msg: InstantiateMsg, trades: seq<Trade>)
    requires Instantiate(owner, msg).Ok?
    ensures Ledger(Replay(Instantiate(owner, msg).value, trades))
  {
    ReplayKeepsLedger(Instantiate(owner, msg).value, trades);
  }

  /** The issuer query of a market reports the configuration it was created
      with, whatever trades followed, and a supply equal to the sum of the
      balances. */
  lemma IssuerAfterTrades(owner: Option<Addr>, msg: InstantiateMsg, trades: seq<Trade>)
    requires Instantiate(owner, msg).Ok?
    ensures var st := Replay(Instantiate(owner, msg).value, trades);
      && Issuer(st).username == msg.username
      && Issuer(st).feeDenom == msg.feeDenom
      && Issuer(st).issuerFeeCollector == msg.issuerFeeCollector
      && Issuer(st).supply == Total(st.holders)
  {
    ReplayKeepsLedger(Instantiate(owner, msg).value, trades);
  }
}
