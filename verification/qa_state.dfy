/** The Q&A ledger's stored state (`NEXT_QUESTION_ID`,
    `UNANSWERED_QUESTIONS`, `ANSWERED_QUESTIONS`), its error variants and its
    well-formedness invariant. */
module QaState {
  import opened Wrappers
  import opened Chain

  datatype Question = Question(id: nat, asker: Addr, questionContent: string, answered: bool, answerContent: Option<string>)

  datatype State = State(nextQuestionId: nat, unanswered: map<nat, Question>, answered: map<nat, Question>)

  /** The contract's error variants; `Payment` wraps a `cw_utils` rejection
      and `QuestionNotFound` is the query's `StdError::not_found`. */
  datatype QaError =
    | Payment(reason: string)
    | AccountOwnerMustBeSetToAnswer
    | OnlyAccountOwnerCanAnswer
    | QuestionNotFoundInUnansweredQuestions(questionId: nat)
    | InsufficientFunds(required: nat, paid: nat)
    | QuestionNotFound

  /** What asking costs: the key market's one-key buy cost, its denomination
      and its fee collector, as `query_ask_cost` reports them. */
  datatype AskCost = AskCost(feeDenom: string, cost: nat, askFeeCollector: Addr)

  /** `get_account_owner_addr`, with the account-owner lookup as its input. */
  function AccountOwnerAddr(owner: Option<Addr>): (r: Result<Addr, QaError>)
    ensures r.Err? <==> owner.None?
    ensures r.Err? ==> r.error == AccountOwnerMustBeSetToAnswer
    ensures r.Ok? ==> r.value == owner.value
  {
    match owner
    case Some(addr) => Ok(addr)
    case None => Err(AccountOwnerMustBeSetToAnswer)
  }

  /** Every id below the counter is stored in exactly one of the two maps,
      under its own id, with the `answered` flag and the answer matching the
      map it is in; no id at or above the counter is stored. */
  ghost predicate WellFormed(st: State) {
    && (forall id :: id in st.unanswered ==>
          id < st.nextQuestionId && st.unanswered[id].id == id
          && !st.unanswered[id].answered && st.unanswered[id].answerContent.None?)
    && (forall id :: id in st.answered ==>
          id < st.nextQuestionId && st.answered[id].id == id
          && st.answered[id].answered && st.answered[id].answerContent.Some?)
    && (forall id :: id in st.unanswered ==> id !in st.answered)
    && (forall id: nat :: id < st.nextQuestionId ==> id in st.unanswered || id in st.answered)
  }
}
