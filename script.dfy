/**
 * The command-line variant: every agent is asked once, without retry and
 * without `finalize`; an agent whose text comes back empty is asked a second
 * time with a fixed instruction. An adapter error is not caught, so it
 * aborts the whole run.
 */
module Script {
  import opened Wrappers
  import opened Payloads
  import opened Adapters

  /** The question used when no words are given on the command line. */
  const DefaultQuestion := "Explique en 1 phrase : quelle est ta spécialité ?"

  /** The instruction of the second call. */
  const Reprompt := "Donne uniquement une phrase finale, sans analyse ni balises."

  /** `s.split(" ")`: the pieces between single spaces; there is always at least one. */
  function SplitAtSpaces(s: string): (ws: seq<string>)
    decreases |s|
    ensures |ws| >= 1
  {
    if s == [] then [[]]
    else if s[0] == ' ' then [[]] + SplitAtSpaces(s[1..])
    else
      var rest := SplitAtSpaces(s[1..]);
      [[s[0]] + rest[0]] + rest[1..]
  }

  /** No word holds a space. */
  predicate SpaceFree(words: seq<string>) {
    forall k :: 0 <= k < |words| ==> ' ' !in words[k]
  }

  /**
   * `words.join(" ")`: no words give "", one word is itself (spaces inside it
   * included), and splitting the join of one or more words that hold no space
   * at the spaces gives the words back. `JoinWordsAppend` gives the join of
   * any two non-empty runs of words.
   */
  function JoinWords(words: seq<string>): (r: string)
    ensures words == [] ==> r == ""
    ensures |words| == 1 ==> r == words[0]
    ensures words != [] && SpaceFree(words) ==> SplitAtSpaces(r) == words
  {
    if words == [] then ""
    else if |words| == 1 then
      assert SpaceFree(words) ==> SplitAtSpaces(words[0]) == words by {
        if SpaceFree(words) { SplitSpaceFree(words[0]); }
      }
      words[0]
    else
      var tail := JoinWords(words[1..]);
      assert SpaceFree(words) ==> SplitAtSpaces(words[0] + " " + tail) == words by {
        if SpaceFree(words) {
          forall k | 0 <= k < |words[1..]| ensures ' ' !in words[1..][k] { assert words[1..][k] == words[k + 1]; }
          SplitAfterWord(words[0], tail);
          assert [words[0]] + words[1..] == words;
        }
      }
      words[0] + " " + tail
  }

  /** Joining two non-empty runs of words puts one space between their joins, whatever the words hold. */
  lemma {:induction false} JoinWordsAppend(a: seq<string>, b: seq<string>)
    requires a != [] && b != []
    ensures JoinWords(a + b) == JoinWords(a) + " " + JoinWords(b)
    decreases |a|
  {
    assert (a + b)[0] == a[0] && (a + b)[1..] == a[1..] + b;
    if |a| == 1 {
      assert a[1..] + b == b;
    } else {
      JoinWordsAppend(a[1..], b);
    }
  }

  /** A word without a space is a single piece. */
  lemma {:induction false} SplitSpaceFree(w: string)
    requires ' ' !in w
    ensures SplitAtSpaces(w) == [w]
    decreases |w|
  {
    if w != [] {
      assert ' ' !in w[1..] by {
        forall m | 0 <= m < |w[1..]| ensures w[1..][m] != ' ' { assert w[1..][m] == w[m + 1]; }
      }
      SplitSpaceFree(w[1..]);
      assert [w[0]] + w[1..] == w;
    }
  }

  /** A word without a space, a space, then `t`: the word is the first piece and the pieces of `t` follow. */
  lemma {:induction false} SplitAfterWord(w: string, t: string)
    requires ' ' !in w
    ensures SplitAtSpaces(w + " " + t) == [w] + SplitAtSpaces(t)
    decreases |w|
  {
    if w == [] {
      assert (w + " " + t)[1..] == t;
    } else {
      var s := w + " " + t;
      assert s[0] == w[0] && s[1..] == w[1..] + " " + t;
      assert ' ' !in w[1..] by {
        forall m | 0 <= m < |w[1..]| ensures w[1..][m] != ' ' { assert w[1..][m] == w[m + 1]; }
      }
      SplitAfterWord(w[1..], t);
      assert [w[0]] + w[1..] == w;
    }
  }

  /** `process.argv.slice(2).join(" ") || DefaultQuestion`: never empty, the default exactly when the join is "". */
  function ScriptQuestion(words: seq<string>): (q: string)
    ensures q != []
    ensures JoinWords(words) == [] ==> q == DefaultQuestion
    ensures JoinWords(words) != [] ==> q == JoinWords(words)
  {
    if JoinWords(words) != "" then JoinWords(words) else DefaultQuestion
  }

  /** Two or more words always give a non-empty question that holds a space between them. */
  lemma {:induction false} SeveralWordsAreJoined(words: seq<string>)
    requires |words| > 1
    ensures ScriptQuestion(words) == JoinWords(words) && ' ' in ScriptQuestion(words)
  {
    var j := JoinWords(words);
    assert j == words[0] + " " + JoinWords(words[1..]);
    assert j[|words[0]|] == ' ';
  }

  /** The script's `ask`: the adapter's reply, or the error it throws. */
  function AskOnce(a: Agent, w: Wire, finalField: string -> Option<string>): (r: Result<Reply, string>)
    ensures w.Failed? <==> r.Err?
    ensures w.Failed? ==> r.error == w.message
    ensures w.Delivered? ==> r.value == ScriptReply(a, w.data, finalField)
    ensures r.Ok? ==> r.value.usage.Some? && r.value.error.None?
  {
    match w
    case Delivered(data) => Ok(ScriptReply(a, data, finalField))
    case Failed(message) => Err(message)
  }

  /** One entry of the printed list: `{name, text, usage}`. */
  datatype Entry = Entry(name: string, text: string, usage: Option<Usage>)

  /** What one agent's run produced, and the prompts sent, in order. */
  datatype AgentRun = AgentRun(outcome: Result<Entry, string>, prompts: seq<string>)

  /** `x || y` on an optional usage: `x` unless it is missing. */
  function UsageOr(x: Option<Usage>, y: Option<Usage>): (r: Option<Usage>)
    ensures x.Some? ==> r == x
    ensures x.None? ==> r == y
  {
    if x.Some? then x else y
  }

  /**
   * The map callback of the script for agent `a`: ask the question; with a
   * non-empty text it gives the entry; with an empty text it asks once more
   * with `Reprompt` and takes that reply's text (`r2.text || ""` is the text
   * itself, a string) and usage, falling back to the first usage. `first`
   * and `second` are the outcomes of the two calls.
   */
  function RunAgent(a: Agent, question: string, first: Wire, second: Wire, finalField: string -> Option<string>): (r: AgentRun)
    ensures 1 <= |r.prompts| <= 2 && r.prompts[0] == question
    ensures |r.prompts| == 2 <==> first.Delivered? && ScriptReply(a, first.data, finalField).text == []
    ensures |r.prompts| == 2 ==> r.prompts[1] == Reprompt
    ensures r.outcome.Ok? ==> r.outcome.value.name == a.name
    ensures first.Failed? ==> r.outcome == Err(first.message)
    ensures first.Delivered? && ScriptReply(a, first.data, finalField).text != [] ==>
      r.outcome == Ok(Entry(a.name, ScriptReply(a, first.data, finalField).text, ScriptReply(a, first.data, finalField).usage))
    ensures |r.prompts| == 2 && second.Failed? ==> r.outcome == Err(second.message)
    ensures |r.prompts| == 2 && second.Delivered? ==>
      var r1, r2 := ScriptReply(a, first.data, finalField), ScriptReply(a, second.data, finalField);
      r.outcome == Ok(Entry(a.name, r2.text, UsageOr(r2.usage, r1.usage)))
  {
    match AskOnce(a, first, finalField)
    case Err(e) => AgentRun(Err(e), [question])
    case Ok(r1) =>
      if r1.text != "" then AgentRun(Ok(Entry(a.name, r1.text, r1.usage)), [question])
      else
        match AskOnce(a, second, finalField)
        case Err(e) => AgentRun(Err(e), [question, Reprompt])
        case Ok(r2) => AgentRun(Ok(Entry(a.name, r2.text, UsageOr(r2.usage, r1.usage))), [question, Reprompt])
  }

  /**
   * `r2.usage || r.usage` never falls back: every delivered reply carries a
   * usage object (`data.usage || {}`), so a reprompted entry always has the
   * second reply's usage.
   */
  lemma RepromptUsageFallbackUnreachable(a: Agent, question: string, first: Wire, second: Wire, finalField: string -> Option<string>)
    requires first.Delivered? && second.Delivered? && ScriptReply(a, first.data, finalField).text == []
    ensures RunAgent(a, question, first, second, finalField).outcome ==
      Ok(Entry(a.name, ScriptReply(a, second.data, finalField).text, Some(UsageOf(second.data))))
  {
  }

  /** The text of a delivered entry is empty only when the reprompt, too, gave an empty text. */
  lemma EmptyEntryMeansTwoEmptyReplies(a: Agent, question: string, first: Wire, second: Wire, finalField: string -> Option<string>)
    requires RunAgent(a, question, first, second, finalField).outcome.Ok?
    requires RunAgent(a, question, first, second, finalField).outcome.value.text == []
    ensures first.Delivered? && second.Delivered?
    ensures ScriptReply(a, first.data, finalField).text == [] && ScriptReply(a, second.data, finalField).text == []
  {
  }

  /** Outcome `i` is the error `e`, and every outcome before it succeeded. */
  predicate FirstFailureAt(outcomes: seq<Result<Entry, string>>, i: nat, e: string) {
    i < |outcomes| && outcomes[i] == Err(e) && forall k :: 0 <= k < i ==> outcomes[k].Ok?
  }

  /**
   * `Promise.all` over the agents' runs: every entry, in order, when all
   * succeed; otherwise the error of a failing run (in this model the first
   * one in agent order).
   */
  function Collect(outcomes: seq<Result<Entry, string>>): (r: Result<seq<Entry>, string>)
    ensures r.Ok? <==> forall i :: 0 <= i < |outcomes| ==> outcomes[i].Ok?
    ensures r.Ok? ==> |r.value| == |outcomes| && forall i :: 0 <= i < |outcomes| ==> r.value[i] == outcomes[i].value
    ensures r.Err? ==> exists i: nat :: FirstFailureAt(outcomes, i, r.error)
  {
    if outcomes == [] then Ok([])
    else
      match outcomes[0]
      case Err(e) =>
        assert FirstFailureAt(outcomes, 0, e);
        Err(e)
      case Ok(entry) =>
        match Collect(outcomes[1..])
        case Err(e) =>
          var i: nat :| FirstFailureAt(outcomes[1..], i, e);
          assert FirstFailureAt(outcomes, i + 1, e) by {
            assert forall k :: 0 < k <= i ==> outcomes[1..][k - 1] == outcomes[k];
          }
          Err(e)
        case Ok(entries) => Ok([entry] + entries)
  }

  /** Each agent's run, in agent order; agent `i` gets the outcomes `firsts[i]` and `seconds[i]`. */
  function Outcomes(agents: seq<Agent>, question: string, firsts: seq<Wire>, seconds: seq<Wire>,
                    finalField: string -> Option<string>): (os: seq<Result<Entry, string>>)
    requires |firsts| == |agents| && |seconds| == |agents|
    ensures |os| == |agents|
    ensures forall i :: 0 <= i < |agents| ==> os[i] == RunAgent(agents[i], question, firsts[i], seconds[i], finalField).outcome
  {
    if agents == [] then []
    else
      var head := RunAgent(agents[0], question, firsts[0], seconds[0], finalField).outcome;
      [head] + Outcomes(agents[1..], question, firsts[1..], seconds[1..], finalField)
  }

  /**
   * The whole run: the entries in agent order, each named after its agent,
   * when every agent's run succeeds; otherwise the error of the first
   * failing agent, all agents before it having succeeded.
   */
  function Run(agents: seq<Agent>, question: string, firsts: seq<Wire>, seconds: seq<Wire>,
               finalField: string -> Option<string>): (r: Result<seq<Entry>, string>)
    requires |firsts| == |agents| && |seconds| == |agents|
    ensures r.Ok? <==>
      forall i :: 0 <= i < |agents| ==> RunAgent(agents[i], question, firsts[i], seconds[i], finalField).outcome.Ok?
    ensures r.Ok? ==>
      |r.value| == |agents|
      && forall i :: 0 <= i < |agents| ==>
           r.value[i] == RunAgent(agents[i], question, firsts[i], seconds[i], finalField).outcome.value
           && r.value[i].name == agents[i].name
    ensures r.Err? ==>
      exists i: nat :: FirstFailureAt(Outcomes(agents, question, firsts, seconds, finalField), i, r.error)
  {
    Collect(Outcomes(agents, question, firsts, seconds, finalField))
  }
}
