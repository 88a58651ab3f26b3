/** The ask-then-answer walk-through of the integration tests, worked out
    on the model. */
module QaScenario {
  import opened Wrappers
  import opened Chain
  import opened QaState
  import opened QaQuery
  import opened QaExecute
  import opened QaInstantiate

  const Owner: Addr := [1]
  const Asker: Addr := [2]

  function Asked(question: string): State {
    State(1, map[0 := Question(0, Asker, question, false, None)], map[])
  }

  function Answered(question: string, reply: string): State {
    State(1, map[], map[0 := Question(0, Asker, question, true, Some(reply))])
  }

  /** Nothing can be answered before anything is asked. */
  lemma AnswerBeforeAsk(reply: string)
    ensures Instantiate(Some(Owner)) == Ok(State(0, map[], map[]))
    ensures Answer(State(0, map[], map[]), Owner, 0, reply, Some(Owner), NoFundsAttached)
         == Err(QuestionNotFoundInUnansweredQuestions(0))
  {
  }

  /** A question paid at its exact cost is filed as id 0 and the cost goes
      to the collector. */
  lemma AskFirst(cost: AskCost, question: string)
    ensures Ask(State(0, map[], map[]), Asker, question, cost, Paid(cost.cost))
         == Ok(Applied(Asked(question), [Send(cost.askFeeCollector, cost.cost, cost.feeDenom)]))
    ensures Stats(Asked(question)) == 1
    ensures UnansweredQuestions(Asked(question), None, None) == [0]
    ensures QuestionById(Asked(question), 0) == Ok(Question(0, Asker, question, false, None))
  {
    var r := Ask(State(0, map[], map[]), Asker, question, cost, Paid(cost.cost));
    assert r.value.state.unanswered == map[0 := Question(0, Asker, question, false, None)];
    var listed := UnansweredQuestions(Asked(question), None, None);
    assert Asked(question).unanswered.Keys == {0};
    assert |listed| == 1 && listed[0] in Asked(question).unanswered;
  }

  /** Only the owner's answer is accepted; it moves the question to the
      answered listing. */
  lemma AnswerFirst(question: string, reply: string)
    ensures Answer(Asked(question), Asker, 0, reply, Some(Owner), NoFundsAttached) == Err(OnlyAccountOwnerCanAnswer)
    ensures Answer(Asked(question), Owner, 0, reply, Some(Owner), NoFundsAttached) == Ok(Answered(question, reply))
    ensures UnansweredQuestions(Answered(question, reply), None, None) == []
    ensures AnsweredQuestions(Answered(question, reply), None, None) == [0]
    ensures QuestionById(Answered(question, reply), 0) == Ok(Question(0, Asker, question, true, Some(reply)))
  {
    var r := Answer(Asked(question), Owner, 0, reply, Some(Owner), NoFundsAttached);
    assert r.value.unanswered == map[];
    assert r.value.answered == map[0 := Question(0, Asker, question, true, Some(reply))];
    var done := AnsweredQuestions(Answered(question, reply), None, None);
    assert Answered(question, reply).answered.Keys == {0};
    assert |done| == 1 && done[0] in Answered(question, reply).answered;
  }
}
