/** The Q&A ledger's read-only queries. */
module QaQuery {
  import opened Wrappers
  import opened Chain
  import opened Ordering
  import opened Paging
  import opened QaState

  /** `query_stats`: the id counter. */
  function Stats(st: State): nat {
    st.nextQuestionId
  }

  /** One page of the ids stored in `m`, ascending, after the cursor. */
  function Listing(m: map<nat, Question>, limit: Option<U32>, startAfter: Option<nat>): (r: seq<nat>)
    ensures |r| == Min(|After(m.Keys, startAfter, NatLess)|, PageSize(limit))
    ensures forall i :: 0 <= i < |r| ==> r[i] in m
    ensures startAfter.Some? ==> forall i :: 0 <= i < |r| ==> startAfter.value < r[i]
    ensures forall i, j :: 0 <= i < j < |r| ==> r[i] < r[j]
    ensures forall i, id :: 0 <= i < |r| && id in m && id !in r && (startAfter.Some? ==> startAfter.value < id) ==> r[i] < id
    ensures startAfter.None? ==> |r| == Min(|m|, PageSize(limit))
    ensures startAfter.None? && |m| <= PageSize(limit) ==> forall id :: id in m <==> id in r
  {
    NatLessIsStrictTotalOrder();
    Page(m.Keys, NatLess, startAfter, limit)
  }

  /** `query_answered_questions`. */
  function AnsweredQuestions(st: State, limit: Option<U32>, startAfter: Option<nat>): (r: seq<nat>)
    ensures |r| == Min(|After(st.answered.Keys, startAfter, NatLess)|, PageSize(limit))
    ensures forall i :: 0 <= i < |r| ==> r[i] in st.answered
    ensures startAfter.Some? ==> forall i :: 0 <= i < |r| ==> startAfter.value < r[i]
    ensures forall i, j :: 0 <= i < j < |r| ==> r[i] < r[j]
    ensures forall i, id ::
              0 <= i < |r| && id in st.answered && id !in r && (startAfter.Some? ==> startAfter.value < id) ==> r[i] < id
    ensures startAfter.None? ==> |r| == Min(|st.answered|, PageSize(limit))
    ensures startAfter.None? && |st.answered| <= PageSize(limit) ==> forall id :: id in st.answered <==> id in r
  {
    Listing(st.answered, limit, startAfter)
  }

  /** `query_unanswered_questions`. */
  function UnansweredQuestions(st: State, limit: Option<U32>, startAfter: Option<nat>): (r: seq<nat>)
    ensures |r| == Min(|After(st.unanswered.Keys, startAfter, NatLess)|, PageSize(limit))
    ensures forall i :: 0 <= i < |r| ==> r[i] in st.unanswered
    ensures startAfter.Some? ==> forall i :: 0 <= i < |r| ==> startAfter.value < r[i]
    ensures forall i, j :: 0 <= i < j < |r| ==> r[i] < r[j]
    ensures forall i, id ::
              0 <= i < |r| && id in st.unanswered && id !in r && (startAfter.Some? ==> startAfter.value < id) ==> r[i] < id
    ensures startAfter.None? ==> |r| == Min(|st.unanswered|, PageSize(limit))
    ensures startAfter.None? && |st.unanswered| <= PageSize(limit) ==> forall id :: id in st.unanswered <==> id in r
  {
    Listing(st.unanswered, limit, startAfter)
  }

  /** `query_question`: the unanswered map first, then the answered one. */
  function QuestionById(st: State, questionId: nat): (r: Result<Question, QaError>)
    ensures questionId in st.unanswered ==> r == Ok(st.unanswered[questionId])
    ensures questionId !in st.unanswered && questionId in st.answered ==> r == Ok(st.answered[questionId])
    ensures r.Err? <==> questionId !in st.unanswered && questionId !in st.answered
    ensures r.Err? ==> r.error == QuestionNotFound
  {
    if questionId in st.unanswered then Ok(st.unanswered[questionId])
    else if questionId in st.answered then Ok(st.answered[questionId])
    else Err(QuestionNotFound)
  }

  /** In a well-formed ledger exactly the ids below the counter can be looked
      up, and each lookup returns the question under its own id. */
  lemma LookupMatchesCounter(st: State, questionId: nat)
    requires WellFormed(st)
    ensures QuestionById(st, questionId).Ok? <==> questionId < Stats(st)
    ensures QuestionById(st, questionId).Ok? ==> QuestionById(st, questionId).value.id == questionId
  {
  }
}
