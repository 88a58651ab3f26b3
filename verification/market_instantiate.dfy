/** Creation of a key market: the account owner holds the first key. */
module MarketInstantiate {
  import opened Wrappers
  import opened Chain
  import opened MarketState

  /** The instantiate message, with the fee collector already validated. */
  datatype InstantiateMsg = InstantiateMsg(username: string, issuerFeeCollector: Addr, feeDenom: string)

  /** `instantiate_handler`, with the account-owner lookup as its input. */
  function Instantiate(owner: Option<Addr>, msg: InstantiateMsg): (r: Result<State, MarketError>)
    ensures r.Err? <==> owner.None?
    ensures r.Err? ==> r.error == AccountOwnerMustBeSetToIssueKey
    ensures r.Ok? ==> r.value.config == Config(msg.username, msg.feeDenom, msg.issuerFeeCollector)
    ensures r.Ok? ==> r.value.supply == 1 && r.value.holders == map[owner.value := 1]
    ensures r.Ok? ==> Ledger(r.value) && NoZeroEntries(r.value)
  {
    var accountOwner :- IssuerAddr(owner);
    TotalSingleton(accountOwner, 1);
    var config := Config(msg.username, msg.feeDenom, msg.issuerFeeCollector);
    Ok(State(config, 1, map[accountOwner := 1]))
  }
}
