/**
 * The server's request path: `ask` with its bounded retry, the assembly of
 * a debate result from the agents' replies and the judge's verdict, and the
 * empty-question check of `POST /debate`.
 */
module Server {
  import opened Wrappers
  import opened Text
  import opened Payloads
  import opened Adapters
  import opened Cost

  /** The default `retry` argument of `ask`: one retry, so at most two attempts. */
  const DefaultRetry: nat := 1

  /**
   * The result of one `ask`: the reply, the number of adapter attempts made
   * and the number of 500 ms pauses taken between them.
   */
  datatype AskReport = AskReport(reply: Reply, attempts: nat, sleeps: nat)

  /**
   * `ask(a, content, retry)`: the adapter chosen by `RouteFor(a)` is tried;
   * `outcomes[k]` is what its `k`-th attempt produces. A delivered body ends
   * the calls; a failure is retried after a pause while `retry > 0`, and
   * once the retries are spent `ask` does not throw but returns an empty
   * text, an empty usage and the last error's message.
   */
  function Ask(a: Agent, outcomes: seq<Wire>, finalField: string -> Option<string>, retry: nat): (r: AskReport)
    requires retry < |outcomes|
    decreases retry
    ensures 1 <= r.attempts <= retry + 1 && r.sleeps == r.attempts - 1
    ensures forall k :: 0 <= k < r.attempts - 1 ==> outcomes[k].Failed?
    ensures outcomes[r.attempts - 1].Delivered? ==>
      r.reply == ServerReply(a, outcomes[r.attempts - 1].data, finalField)
    ensures outcomes[r.attempts - 1].Failed? ==>
      r.attempts == retry + 1 && r.reply == Reply("", Some(NoUsage), Some(outcomes[retry].message))
    ensures r.reply.error.Some? <==> r.attempts == retry + 1 && outcomes[retry].Failed?
  {
    match outcomes[0]
    case Delivered(data) => AskReport(ServerReply(a, data, finalField), 1, 0)
    case Failed(message) =>
      if retry > 0 then
        var rest := Ask(a, outcomes[1..], finalField, retry - 1);
        AskReport(rest.reply, rest.attempts + 1, rest.sleeps + 1)
      else AskReport(Reply("", Some(NoUsage), Some(message)), 1, 0)
  }

  /** The first delivered body, when it comes within the allowed attempts, is the one whose reply `ask` returns. */
  lemma AskReturnsFirstDelivery(a: Agent, outcomes: seq<Wire>, finalField: string -> Option<string>, retry: nat, k: nat)
    requires retry < |outcomes| && k <= retry && outcomes[k].Delivered?
    requires forall m :: 0 <= m < k ==> outcomes[m].Failed?
    ensures Ask(a, outcomes, finalField, retry).attempts == k + 1
    ensures Ask(a, outcomes, finalField, retry).reply == ServerReply(a, outcomes[k].data, finalField)
  {
  }

  /** With every allowed attempt failing, `ask` makes all `retry + 1` of them and reports the last failure. */
  lemma AskExhausted(a: Agent, outcomes: seq<Wire>, finalField: string -> Option<string>, retry: nat)
    requires retry < |outcomes| && forall m :: 0 <= m <= retry ==> outcomes[m].Failed?
    ensures Ask(a, outcomes, finalField, retry) ==
      AskReport(Reply("", Some(NoUsage), Some(outcomes[retry].message)), retry + 1, retry)
  {
  }

  // ---------------------------------------------------------------------
  // debate
  // ---------------------------------------------------------------------

  /** A JSON value, as the judge's verdict is parsed into. */
  datatype Json =
    | JNull
    | JBool(b: bool)
    | JNum(n: int)
    | JStr(s: string)
    | JArr(items: seq<Json>)
    | JObj(members: seq<(string, Json)>)

  /** The verdict used when the judge's content does not parse. */
  const FallbackVerdict: Json := JObj([("winner", JNull), ("scores", JArr([])), ("justification", JStr(""))])

  /** The judge's content when it has none. */
  const EmptyObjectText := "{}"

  /** One entry of `answers`: `{name, text, usage, error, cost}` (the timing `ms` is not modelled). */
  datatype Answer = Answer(name: string, text: string, usage: Option<Usage>, error: Option<string>, cost: Cost)

  /** What the judge is asked to rank: the question and each answer's agent name and text. */
  datatype JudgePack = JudgePack(question: string, entries: seq<(string, string)>)

  /** A finished debate: `{question, answers, totals, verdict}`. */
  datatype DebateResult = DebateResult(question: string, answers: seq<Answer>, totals: map<string, nat>, verdict: Json)

  /** `r.error || null`: an empty message counts as no error. */
  function ErrorOrNull(e: Option<string>): (r: Option<string>)
    ensures r.Some? <==> e.Some? && e.value != ""
    ensures r.Some? ==> r == e
  {
    if e.Some? && e.value != "" then e else None
  }

  /** The answer entry built from agent `a`'s reply. */
  function AnswerFor(a: Agent, r: Reply): (ans: Answer)
    ensures ans.name == a.name && ans.text == r.text && ans.usage == r.usage
    ensures ans.error == ErrorOrNull(r.error)
    ensures ans.cost == EstimateCost(a.name, r.usage)
  {
    Answer(a.name, r.text, r.usage, ErrorOrNull(r.error), EstimateCost(a.name, r.usage))
  }

  /** The answers in agent order (`Promise.all` keeps the order of `AGENTS`). */
  function Answers(agents: seq<Agent>, replies: seq<Reply>): (ans: seq<Answer>)
    requires |replies| == |agents|
    ensures |ans| == |agents|
    ensures forall i :: 0 <= i < |agents| ==> ans[i] == AnswerFor(agents[i], replies[i])
  {
    if agents == [] then [] else [AnswerFor(agents[0], replies[0])] + Answers(agents[1..], replies[1..])
  }

  /** The items `aggregateTotals` sums: every answer's cost. */
  function CostsOf(answers: seq<Answer>): (cs: seq<Option<Cost>>)
    ensures |cs| == |answers| && forall i :: 0 <= i < |answers| ==> cs[i] == Some(answers[i].cost)
  {
    if answers == [] then [] else [Some(answers[0].cost)] + CostsOf(answers[1..])
  }

  /** `pack.answers`: each answer's agent name and text, in order. */
  function PackFor(question: string, answers: seq<Answer>): (p: JudgePack)
    ensures p.question == question && |p.entries| == |answers|
    ensures forall i :: 0 <= i < |answers| ==> p.entries[i] == (answers[i].name, answers[i].text)
  {
    if answers == [] then JudgePack(question, [])
    else
      var rest := PackFor(question, answers[1..]);
      JudgePack(question, [(answers[0].name, answers[0].text)] + rest.entries)
  }

  /** `j.choices?.[0]?.message?.content || "{}"`. */
  function JudgeText(judge: Payload): (t: string)
    ensures t != []
    ensures RawContent(judge) != [] ==> t == RawContent(judge)
  {
    if RawContent(judge) != [] then RawContent(judge) else EmptyObjectText
  }

  /** The verdict: the judge's content parsed as JSON, or the fallback verdict when that throws. */
  function VerdictOf(judge: Payload, parseJson: string -> Option<Json>): (v: Json)
    ensures parseJson(JudgeText(judge)).Some? ==> v == parseJson(JudgeText(judge)).value
    ensures parseJson(JudgeText(judge)).None? ==> v == FallbackVerdict
  {
    match parseJson(JudgeText(judge))
    case Some(v) => v
    case None => FallbackVerdict
  }

  /**
   * `debate(question)` given each agent's `ask` reply (in agent order) and
   * the outcome of the judge call: a failed judge call is the error the
   * route reports; otherwise the answers in agent order, their totals and
   * the verdict.
   */
  function Debate(question: string, agents: seq<Agent>, replies: seq<Reply>, judge: Wire,
                  parseJson: string -> Option<Json>): (r: Result<DebateResult, string>)
    requires |replies| == |agents|
    ensures r.Err? <==> judge.Failed?
    ensures judge.Failed? ==> r.error == judge.message
    ensures r.Ok? ==> r.value.question == question && r.value.answers == Answers(agents, replies)
    ensures r.Ok? ==> r.value.totals == Totals(CostsOf(r.value.answers))
    ensures r.Ok? ==> r.value.verdict == VerdictOf(judge.data, parseJson)
  {
    match judge
    case Failed(message) => Err(message)
    case Delivered(data) =>
      var answers := Answers(agents, replies);
      Ok(DebateResult(question, answers, Totals(CostsOf(answers)), VerdictOf(data, parseJson)))
  }

  /** The replies of all agents, each `ask`ed with the default retry on its own outcomes. */
  function AskAll(agents: seq<Agent>, outcomes: seq<seq<Wire>>, finalField: string -> Option<string>): (rs: seq<Reply>)
    requires |outcomes| == |agents| && forall i :: 0 <= i < |outcomes| ==> DefaultRetry < |outcomes[i]|
    ensures |rs| == |agents|
    ensures forall i :: 0 <= i < |agents| ==> rs[i] == Ask(agents[i], outcomes[i], finalField, DefaultRetry).reply
  {
    if agents == [] then []
    else [Ask(agents[0], outcomes[0], finalField, DefaultRetry).reply] + AskAll(agents[1..], outcomes[1..], finalField)
  }

  /**
   * The answers, totals and verdict of a debate in which the judge answered:
   * one answer per agent in agent order, each carrying that agent's name,
   * error and cost; the totals are the per-currency sums of those costs.
   */
  lemma DebateAnswersAndTotals(question: string, agents: seq<Agent>, replies: seq<Reply>, judge: Payload,
                               parseJson: string -> Option<Json>)
    requires |replies| == |agents|
    ensures var r := Debate(question, agents, replies, Delivered(judge), parseJson);
      r.Ok? && |r.value.answers| == |agents|
      && (forall i :: 0 <= i < |agents| ==>
            r.value.answers[i].name == agents[i].name
            && r.value.answers[i].text == replies[i].text
            && (r.value.answers[i].error.None? <==> replies[i].error.None? || replies[i].error.value == "")
            && r.value.answers[i].cost == EstimateCost(agents[i].name, replies[i].usage))
      && r.value.totals.Keys == Currencies(CostsOf(r.value.answers))
      && (forall c :: c in r.value.totals ==> r.value.totals[c] == SumFor(CostsOf(r.value.answers), c))
  {
    var answers := Answers(agents, replies);
    TotalsAreSumsPerCurrency(CostsOf(answers));
  }

  /** The currency each answer's cost is counted under is its agent's price currency. */
  lemma CostCurrencies(agents: seq<Agent>, replies: seq<Reply>)
    requires |replies| == |agents|
    ensures |CostsOf(Answers(agents, replies))| == |agents|
    ensures forall i :: 0 <= i < |agents| ==>
      CurrencyKey(CostsOf(Answers(agents, replies))[i]) == PriceFor(agents[i].name).currency
  {
    var answers := Answers(agents, replies);
    forall i | 0 <= i < |agents|
      ensures CurrencyKey(CostsOf(answers)[i]) == PriceFor(agents[i].name).currency
    {
      assert answers[i].cost == EstimateCost(agents[i].name, replies[i].usage);
    }
  }

  /** The totals of a debate have an entry for a currency exactly when some agent is priced in it. */
  lemma {:induction false} DebateCurrencies(agents: seq<Agent>, replies: seq<Reply>, c: string)
    requires |replies| == |agents|
    ensures c in Totals(CostsOf(Answers(agents, replies))) <==>
      exists i :: 0 <= i < |agents| && PriceFor(agents[i].name).currency == c
  {
    var cs := CostsOf(Answers(agents, replies));
    CostCurrencies(agents, replies);
    TotalsAreSumsPerCurrency(cs);
    CurrenciesOfAgents(agents, cs, c);
  }

  /** Costs counted under their agents' price currencies have exactly the agents' currencies. */
  lemma CurrenciesOfAgents(agents: seq<Agent>, cs: seq<Option<Cost>>, c: string)
    requires |cs| == |agents|
    requires forall i :: 0 <= i < |agents| ==> CurrencyKey(cs[i]) == PriceFor(agents[i].name).currency
    ensures c in Currencies(cs) <==> exists i :: 0 <= i < |agents| && PriceFor(agents[i].name).currency == c
  {
    if exists i :: 0 <= i < |agents| && PriceFor(agents[i].name).currency == c {
      var i :| 0 <= i < |agents| && PriceFor(agents[i].name).currency == c;
      assert CurrencyKey(cs[i]) == c;
    }
    if c in Currencies(cs) {
      var i :| 0 <= i < |cs| && CurrencyKey(cs[i]) == c;
      assert PriceFor(agents[i].name).currency == c;
    }
  }

  /** A judge reply without content is parsed as `{}`, and one that does not parse yields the fallback verdict. */
  lemma VerdictFallbacks(judge: Payload, parseJson: string -> Option<Json>)
    ensures RawContent(judge) == [] ==> JudgeText(judge) == EmptyObjectText
    ensures parseJson(JudgeText(judge)).None? ==> VerdictOf(judge, parseJson) == FallbackVerdict
  {
  }

  /** No agent's outcomes influence another agent's answer. */
  lemma AnswersAreIsolated(agents: seq<Agent>, outcomes: seq<seq<Wire>>, other: seq<seq<Wire>>,
                           finalField: string -> Option<string>, i: nat)
    requires |outcomes| == |agents| && forall k :: 0 <= k < |outcomes| ==> DefaultRetry < |outcomes[k]|
    requires |other| == |agents| && forall k :: 0 <= k < |other| ==> DefaultRetry < |other[k]|
    requires i < |agents| && outcomes[i] == other[i]
    ensures Answers(agents, AskAll(agents, outcomes, finalField))[i] == Answers(agents, AskAll(agents, other, finalField))[i]
  {
  }

  // ---------------------------------------------------------------------
  // POST /debate
  // ---------------------------------------------------------------------

  const MissingQuestion := "question manquante"

  /**
   * `String(req.body?.question || "").trim()` followed by the emptiness test:
   * a missing or blank question is refused with "question manquante",
   * anything else is accepted trimmed. `body` is the question's string form,
   * `None` when absent.
   */
  function AcceptQuestion(body: Option<string>): (r: Result<string, string>)
    ensures r.Err? <==> body.None? || IsBlank(body.value)
    ensures r.Err? ==> r.error == MissingQuestion
    ensures r.Ok? ==> r.value == Trim(body.value) && r.value != [] && IsTrimmed(r.value)
  {
    var q := Trim(body.GetOr(""));
    if q == "" then Err(MissingQuestion) else Ok(q)
  }

  /** The route's answer: a status code and, for 200, the debate result, otherwise an error message. */
  datatype Response = Response(status: nat, body: Result<DebateResult, string>)

  /**
   * `POST /debate`: 400 for a missing question (no cost is incurred: no agent
   * is asked), 500 with the message when the judge call fails, 200 with the
   * result otherwise. The debate receives the trimmed question.
   */
  function HandleDebate(body: Option<string>, agents: seq<Agent>, outcomes: seq<seq<Wire>>, judge: Wire,
                        finalField: string -> Option<string>, parseJson: string -> Option<Json>): (r: Response)
    requires |outcomes| == |agents| && forall i :: 0 <= i < |outcomes| ==> DefaultRetry < |outcomes[i]|
    ensures r.status == 400 <==> AcceptQuestion(body).Err?
    ensures r.status == 400 ==> r.body == Err(MissingQuestion)
    ensures r.status == 500 <==> AcceptQuestion(body).Ok? && judge.Failed?
    ensures r.status == 500 ==> r.body == Err(judge.message)
    ensures r.status == 200 <==> AcceptQuestion(body).Ok? && judge.Delivered?
    ensures r.status == 200 ==>
      r.body.Ok? && r.body.value.question == Trim(body.value)
      && r.body.value.answers == Answers(agents, AskAll(agents, outcomes, finalField))
    ensures r.status == 200 ==>
      r.body == Debate(Trim(body.value), agents, AskAll(agents, outcomes, finalField), judge, parseJson)
  {
    match AcceptQuestion(body)
    case Err(e) => Response(400, Err(e))
    case Ok(q) =>
      var r := Debate(q, agents, AskAll(agents, outcomes, finalField), judge, parseJson);
      if r.Ok? then Response(200, r) else Response(500, r)
  }
}
