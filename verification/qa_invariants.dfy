/** The Q&A ledger's invariant across its transitions, and what it means for
    the counter: it numbers every question ever asked. */
module QaInvariants {
  import opened Wrappers
  import opened Chain
  import opened QaState
  import opened QaQuery
  import opened QaExecute
  import opened QaInstantiate

  lemma AskKeepsWellFormed(st: State, asker: Addr, content: string, askCost: AskCost, payment: Payment)
    requires WellFormed(st)
    ensures Ask(st, asker, content, askCost, payment).Ok? ==> WellFormed(Ask(st, asker, content, askCost, payment).value.state)
  {
  }

  lemma AnswerKeepsWellFormed(st: State, sender: Addr, questionId: nat, content: string, owner: Option<Addr>, funds: NonPayable)
    requires WellFormed(st)
    ensures Answer(st, sender, questionId, content, owner, funds).Ok?
      ==> WellFormed(Answer(st, sender, questionId, content, owner, funds).value)
  {
  }

  /** The ids `0 .. n-1`. */
  function IdsBelow(n: nat): (s: set<nat>)
    ensures forall id: nat :: id in s <==> id < n
    ensures |s| == n
  {
    if n == 0 then {} else IdsBelow(n - 1) + {n - 1}
  }

  /** In a well-formed ledger the counter equals the number of stored
      questions, answered or not. */
  lemma StatsCountsStored(st: State)
    requires WellFormed(st)
    ensures Stats(st) == |st.unanswered| + |st.answered|
  {
    assert st.unanswered.Keys + st.answered.Keys == IdsBelow(st.nextQuestionId);
    assert st.unanswered.Keys * st.answered.Keys == {};
  }

  /** A request to the Q&A ledger together with the inputs the environment
      supplies. */
  datatype Action =
    | AskAction(asker: Addr, content: string, askCost: AskCost, payment: Payment)
    | AnswerAction(sender: Addr, questionId: nat, content: string, owner: Option<Addr>, funds: NonPayable)

  /** The state after one transaction; a failed one commits nothing. */
  function Step(st: State, action: Action): State {
    match action
    case AskAction(a, c, k, p) =>
      var r := Ask(st, a, c, k, p);
      if r.Ok? then r.value.state else st
    case AnswerAction(s, id, c, o, f) =>
      var r := Answer(st, s, id, c, o, f);
      if r.Ok? then r.value else st
  }

  function Replay(st: State, actions: seq<Action>): State
    decreases |actions|
  {
    if actions == [] then st else Replay(Step(st, actions[0]), actions[1..])
  }

  /** How many asks of the sequence succeed when it is replayed from `st`. */
  function SuccessfulAsks(st: State, actions: seq<Action>): nat
    decreases |actions|
  {
    if actions == [] then 0
    else
      var asked := match actions[0]
        case AskAction(a, c, k, p) => if Ask(st, a, c, k, p).Ok? then 1 else 0
        case AnswerAction(_, _, _, _, _) => 0;
      asked + SuccessfulAsks(Step(st, actions[0]), actions[1..])
  }

  /** Replaying requests keeps the ledger well-formed and advances the
      counter once per successful ask. */
  lemma {:induction false} ReplayCountsAsks(st: State, actions: seq<Action>)
    requires WellFormed(st)
    ensures WellFormed(Replay(st, actions))
    ensures Stats(Replay(st, actions)) == Stats(st) + SuccessfulAsks(st, actions)
    decreases |actions|
  {
    if actions != [] {
      match actions[0] {
        case AskAction(a, c, k, p) => AskKeepsWellFormed(st, a, c, k, p);
        case AnswerAction(s, id, c, o, f) => AnswerKeepsWellFormed(st, s, id, c, o, f);
      }
      ReplayCountsAsks(Step(st, actions[0]), actions[1..]);
    }
  }

  /** On a freshly created ledger, the statistics report exactly the number
      of successful asks, and that many questions are stored. */
  lemma StatsCountsAsks(owner: Option<Addr>, actions: seq<Action>)
    requires Instantiate(owner).Ok?
    ensures var st := Replay(Instantiate(owner).value, actions);
      && Stats(st) == SuccessfulAsks(Instantiate(owner).value, actions)
      && Stats(st) == |st.unanswered| + |st.answered|
  {
    ReplayCountsAsks(Instantiate(owner).value, actions);
    StatsCountsStored(Replay(Instantiate(owner).value, actions));
  }
}
