/** The key market's stored state (`CONFIG`, `SUPPLY`, `HOLDERS`), its
    error variants, the issuer lookup, and the ledger invariants every
    transition must keep. */
module MarketState {
  import opened Wrappers
  import opened Chain

  datatype Config = Config(username: string, feeDenom: string, issuerFeeCollector: Addr)

  /** `holders` maps each address to its key balance. */
  datatype State = State(config: Config, supply: nat, holders: map<Addr, nat>)

  /** The contract's own error variants. `Payment` wraps a `cw_utils`
      rejection; `Aborted` stands for a `Uint128` subtraction panic, which
      aborts the whole transaction. */
  datatype MarketError =
    | Payment(reason: string)
    | AccountOwnerMustBeSetToIssueKey
    | InsufficientFunds(required: nat, paid: nat)
    | CannotSellMoreThanOwned(owned: nat, toSell: nat)
    | IssuerCannotSellLastKey
    | Aborted

  /** `get_issuer_addr`, with the account-owner lookup as its input. */
  function IssuerAddr(owner: Option<Addr>): (r: Result<Addr, MarketError>)
    ensures r.Err? <==> owner.None?
    ensures r.Err? ==> r.error == AccountOwnerMustBeSetToIssueKey
    ensures r.Ok? ==> r.value == owner.value
  {
    match owner
    case Some(addr) => Ok(addr)
    case None => Err(AccountOwnerMustBeSetToIssueKey)
  }

  /** The result of `must_pay`, with its rejection carried as a market error. */
  function MustPay(payment: Payment): (r: Result<nat, MarketError>)
    ensures r.Ok? <==> payment.Paid?
    ensures r.Ok? ==> r.value == payment.amount
    ensures r.Err? ==> r.error == Payment(payment.reason)
  {
    match payment
    case Paid(amount) => Ok(amount)
    case PaymentRejected(reason) => Err(Payment(reason))
  }

  /** The sum of the balances stored under the keys `ks`. */
  ghost function SumOver(m: map<Addr, nat>, ks: set<Addr>): nat
    requires ks <= m.Keys
    decreases ks
  {
    if ks == {} then 0 else var k :| k in ks; m[k] + SumOver(m, ks - {k})
  }

  /** The sum of all balances. */
  ghost function Total(m: map<Addr, nat>): nat {
    SumOver(m, m.Keys)
  }

  /** Supply equals the sum of all balances. */
  ghost predicate Ledger(st: State) {
    st.supply == Total(st.holders)
  }

  /** No stored balance is zero. */
  ghost predicate NoZeroEntries(st: State) {
    forall a :: a in st.holders ==> st.holders[a] > 0
  }

  /** Any key may be taken out of the sum first. */
  lemma {:induction false} SumOverRemove(m: map<Addr, nat>, ks: set<Addr>, k: Addr)
    requires ks <= m.Keys && k in ks
    ensures SumOver(m, ks) == m[k] + SumOver(m, ks - {k})
    decreases ks
  {
    var j :| j in ks && SumOver(m, ks) == m[j] + SumOver(m, ks - {j});
    if j != k {
      SumOverRemove(m, ks - {j}, k);
      SumOverRemove(m, ks - {k}, j);
      assert ks - {j} - {k} == ks - {k} - {j};
    }
  }

  /** The sum only depends on the balances under the summed keys. */
  lemma {:induction false} SumOverAgree(m1: map<Addr, nat>, m2: map<Addr, nat>, ks: set<Addr>)
    requires ks <= m1.Keys && ks <= m2.Keys
    requires forall k :: k in ks ==> m1[k] == m2[k]
    ensures SumOver(m1, ks) == SumOver(m2, ks)
    decreases ks
  {
    if ks != {} {
      var k :| k in ks;
      SumOverRemove(m1, ks, k);
      SumOverRemove(m2, ks, k);
      SumOverAgree(m1, m2, ks - {k});
    }
  }

  /** Setting one balance changes the total by the difference. */
  lemma TotalUpdate(m: map<Addr, nat>, a: Addr, v: nat)
    ensures a in m ==> Total(m[a := v]) + m[a] == Total(m) + v
    ensures a !in m ==> Total(m[a := v]) == Total(m) + v
  {
    var m' := m[a := v];
    SumOverRemove(m', m'.Keys, a);
    SumOverAgree(m, m', m'.Keys - {a});
    if a in m {
      SumOverRemove(m, m.Keys, a);
      assert m'.Keys - {a} == m.Keys - {a};
    } else {
      assert m'.Keys - {a} == m.Keys;
    }
  }

  /** Removing one entry lowers the total by its balance. */
  lemma TotalRemove(m: map<Addr, nat>, a: Addr)
    requires a in m
    ensures Total(m - {a}) + m[a] == Total(m)
  {
    var m' := m - {a};
    SumOverRemove(m, m.Keys, a);
    assert m'.Keys == m.Keys - {a};
    SumOverAgree(m, m', m'.Keys);
  }

  /** A single entry totals its own balance. */
  lemma TotalSingleton(a: Addr, v: nat)
    ensures Total(map[a := v]) == v
  {
    var m := map[a := v];
    SumOverRemove(m, m.Keys, a);
    assert m.Keys - {a} == {};
  }
}
