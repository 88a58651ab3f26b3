/** Creation of a Q&A ledger. */
module QaInstantiate {
  import opened Wrappers
  import opened Chain
  import opened QaState

  /** `instantiate_handler`: requires a resolvable account owner and starts
      the id counter at zero with no questions stored. */
  function Instantiate(owner: Option<Addr>): (r: Result<State, QaError>)
    ensures r.Err? <==> owner.None?
    ensures r.Err? ==> r.error == AccountOwnerMustBeSetToAnswer
    ensures r.Ok? ==> r.value.nextQuestionId == 0 && r.value.unanswered == map[] && r.value.answered == map[]
    ensures r.Ok? ==> WellFormed(r.value)
  {
    var _ :- AccountOwnerAddr(owner);
    Ok(State(0, map[], map[]))
  }
}
