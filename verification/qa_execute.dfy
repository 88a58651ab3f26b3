/** The Q&A ledger's two transitions, `ask` and `answer`. */
module QaExecute {
  import opened Wrappers
  import opened Chain
  import opened QaState
  import opened QaQuery

  datatype Applied = Applied(state: State, transfers: seq<Transfer>)

  /** `ask`: anyone who pays at least the ask cost files a question under the
      next id; the whole cost goes to the fee collector and any overpayment
      is kept. */
  function Ask(st: State, asker: Addr, content: string, askCost: AskCost, payment: Payment)
    : (r: Result<Applied, QaError>)
    ensures payment.PaymentRejected? ==> r == Err(Payment(payment.reason))
    ensures payment.Paid? && askCost.cost > payment.amount ==> r == Err(InsufficientFunds(askCost.cost, payment.amount))
    ensures r.Ok? <==> payment.Paid? && askCost.cost <= payment.amount
    ensures r.Ok? ==> Stats(r.value.state) == Stats(st) + 1
    ensures r.Ok? ==> QuestionById(r.value.state, st.nextQuestionId).Ok?
    ensures r.Ok? ==> st.nextQuestionId in r.value.state.unanswered
    ensures r.Ok? ==> r.value.state.unanswered[st.nextQuestionId]
                      == Question(st.nextQuestionId, asker, content, false, None)
    ensures r.Ok? ==> r.value.state.unanswered - {st.nextQuestionId} == st.unanswered - {st.nextQuestionId}
    ensures r.Ok? ==> r.value.state.answered == st.answered
    ensures r.Ok? ==> r.value.transfers == [Send(askCost.askFeeCollector, askCost.cost, askCost.feeDenom)]
  {
    var paid :- match payment
      case Paid(amount) => Ok(amount)
      case PaymentRejected(reason) => Err(Payment(reason));
    if askCost.cost > paid then
      Err(InsufficientFunds(askCost.cost, paid))
    else
      var id := st.nextQuestionId;
      var question := Question(id, asker, content, false, None);
      var next := st.(unanswered := st.unanswered[id := question], nextQuestionId := id + 1);
      Ok(Applied(next, [Send(askCost.askFeeCollector, askCost.cost, askCost.feeDenom)]))
  }

  /** `answer`: only the account owner, attaching no funds, may answer, and
      only a question that is still unanswered. The question moves to the
      answered map with its answer; the counter is unchanged. */
  function Answer(st: State, sender: Addr, questionId: nat, content: string, owner: Option<Addr>, funds: NonPayable)
    : (r: Result<State, QaError>)
    ensures funds.FundsRejected? ==> r == Err(Payment(funds.reason))
    ensures funds.NoFundsAttached? && owner.None? ==> r == Err(AccountOwnerMustBeSetToAnswer)
    ensures funds.NoFundsAttached? && owner.Some? && sender != owner.value ==> r == Err(OnlyAccountOwnerCanAnswer)
    ensures funds.NoFundsAttached? && owner.Some? && sender == owner.value && questionId !in st.unanswered
      ==> r == Err(QuestionNotFoundInUnansweredQuestions(questionId))
    ensures r.Ok? <==> funds.NoFundsAttached? && owner.Some? && sender == owner.value && questionId in st.unanswered
    ensures r.Ok? ==> Stats(r.value) == Stats(st)
    ensures r.Ok? ==> r.value.unanswered == st.unanswered - {questionId}
    ensures r.Ok? ==>
              var q := st.unanswered[questionId];
              && q.id in r.value.answered
              && r.value.answered[q.id] == Question(q.id, q.asker, q.questionContent, true, Some(content))
              && r.value.answered - {q.id} == st.answered - {q.id}
  {
    var _ :- match funds
      case NoFundsAttached => Ok(())
      case FundsRejected(reason) => Err(Payment(reason));
    var accountOwner :- AccountOwnerAddr(owner);
    if sender != accountOwner then
      Err(OnlyAccountOwnerCanAnswer)
    else if questionId !in st.unanswered then
      Err(QuestionNotFoundInUnansweredQuestions(questionId))
    else
      var question := st.unanswered[questionId];
      var answered := Question(question.id, question.asker, question.questionContent, true, Some(content));
      Ok(st.(unanswered := st.unanswered - {questionId}, answered := st.answered[question.id := answered]))
  }
}
