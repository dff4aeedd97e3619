# LLM debate server: answer normalisation and bookkeeping, in Dafny

This project models the core of a small "LLM debate" server. One question is
sent to several language-model backends, each raw reply is turned into one
clean French sentence, the cost of every call is estimated from its token
usage, and a judge model's verdict is attached. The core lives in two
JavaScript files: `server.mjs`, the HTTP server, and `debate.mjs`, a
command-line variant. The model covers:

- **Text extraction** (`Extract`).
  - `extractGeneral`: the first `<final>…</final>` capture if it is not empty. Otherwise the reply without `<think…</think>`, `<analysis…</analysis>` and `<reflection…</reflection>` blocks and without markup tags, trimmed.
  - `extractKimi`: the message content, else the last visible line of `reasoning`, else that of the first reasoning detail.
  - `debate.mjs` holds textual copies of both functions (debate.mjs:12-37). The same Dafny functions model both copies, and the rows below cite the server.mjs copy.
- **Sentence finalisation** (`Finalizer`). `finalize` trims, drops a "possible answer:" or "réponse possible:" preamble, and strips straight quotes at both ends before straightening curly quotes. It then keeps the first sentence and appends a period unless that sentence already ends one.
- **Adapters** (`Adapters`). Routing by endpoint base and agent name (the same rule in server.mjs:129-133 and debate.mjs:108-112), and what each adapter does with a decoded body: the Kimi adapter's `final` JSON field and its fallback, the `usage || {}` rule, and `finalize` in the server but not in the script.
- **`ask` with bounded retry** (`Server.Ask`). Adapter attempts are a sequence of abstract outcomes. The 500 ms pause is counted, not timed.
- **Costs** (`Cost`). `priceFor` with the default prices, `estimateCost`, and `aggregateTotals`, the only imperative loop of the core, modelled as a method over a map.
- **Debate assembly and the `POST /debate` route** (`Server`). Answers in agent order, totals, the judge verdict with its fallbacks, and the 400/500/200 outcomes.
- **The script's top level** (`Script`). The question from the command line, one call per agent, one reprompt on an empty text, and failures that abort the run.
- **Worked examples** (`Scenarios`). Concrete inputs, including two that show `finalize` is not idempotent.

Units and abstractions:

- Money is a whole number of 1e-10 currency units. A price of `p` per million tokens is `p * 10000` units per token, so the source's rounding to ten decimals is exact.
- `JSON.parse` and the `String(obj.final || "")` coercion are passed in as functions (`finalField`, `parseJson`) that return `None` where the source throws.
- A text field holding a non-string value is modelled as absent.

Behaviour of the code that the model makes explicit:

- `finalize` is not idempotent.
  - `Scenarios.FinalizeNotIdempotent`: curly quotes become straight only after the quote strip, so a second pass strips them.
  - `Scenarios.DoublePreambleNotIdempotent`: only one "possible answer:" is removed per pass.
- The sentence split and the final test accept `.`, `!`, `?` and also a backslash, because of how their character classes are written (server.mjs:53, 55). `Finalizer.IsTerminator` accepts the same four characters.
- Only `debate.mjs` asks an agent a second time after an empty answer; the server does not.
- Only an unparsable verdict falls back to the default verdict. A failed judge call gives status 500 (`Server.HandleDebate`).
- In `debate.mjs`, the fallback `r2.usage || r.usage` never applies, because every adapter returns `usage || {}` (`Script.RepromptUsageFallbackUnreachable`).

## Model

| member | source | states |
|---|---|---|
| Text.Trim | server.mjs:49 | `trim`: the slice between the blank prefix and the blank suffix of the input, with no white space at either end; empty exactly when the input is blank |
| Text.TrimOfTrimmed | server.mjs:49 | trimming text that is already trimmed gives it back unchanged |
| Text.IndexOfCI | server.mjs:22 | the first case-insensitive occurrence at or after a position, with none before it; `None` exactly when there is none |
| Text.Includes | server.mjs:129 | `includes` holds exactly when the pattern occurs at some position |
| Payloads.FirstMessage | server.mjs:32 | the first choice's message, or `{}` when that choice has none; without choices the message is the empty one |
| Payloads.RawContent | server.mjs:83 | `?.message?.content`, defaulting to "": the first message's content when it has one, otherwise "" |
| Payloads.UsageOf | server.mjs:90 | `data.usage`, defaulting to `{}`: the body's usage, or the empty usage object when it has none |
| Extract.FinalSpan | server.mjs:22 | the `<final>` match: the leftmost opening tag and the nearest closing tag after it; `None` only when no opening tag is followed by a closing tag |
| Extract.FinalAnswer | server.mjs:22-23 | `m && m[1]`: a value exactly when the `<final>` match exists and its capture is not empty, and then the value is that capture |
| Extract.StripTags | server.mjs:27 | after removing `/<[^>]+>/g` no tag is left, every remaining character comes from the input, and a leading `>` is kept |
| Extract.StripTagsKeepsPlain | server.mjs:27 | text before the first `<` is kept as it is, in front of the result for the rest |
| Extract.StripTagsDropsTag | server.mjs:27 | a tag `<m>`, with `m` non-empty and free of `>`, is removed with its brackets and nothing else |
| Extract.StripTagsKeepsLoneLt | server.mjs:27 | a `<` that opens no tag (last, right before `>`, or with no `>` after the next character) is kept |
| Extract.StripBlocks | server.mjs:24-26 | the lazy, global block removal: the result is no longer than the input and keeps only its characters |
| Extract.StripThinking | server.mjs:24-26 | the three block removals in order: the result is no longer than the input and keeps only its characters |
| Extract.ExtractGeneral | server.mjs:20-29 | a falsy input gives ""; the result is always trimmed; on the path without a `<final>` capture it contains no markup tag |
| Extract.FinalTagWins | server.mjs:22-23 | before a non-empty answer with no closing tag in it, a first `<final>` gives that answer trimmed, whatever blocks or markup surround it |
| Extract.FinalReplyAt | server.mjs:22-23 | the leftmost opening tag and the nearest closing tag around a non-empty capture give the trimmed capture |
| Extract.FinalSpanIs | server.mjs:22 | a leftmost opening tag and the nearest closing tag after it are the match that is found |
| Extract.FinalAnswerIs | server.mjs:23 | with a match around a non-empty capture, the result is the capture trimmed |
| Extract.OpenerIsLeftmost | server.mjs:22 | in text that starts "pre + `<final>`" with no earlier opening tag, that tag is the leftmost |
| Extract.CloserIsNearest | server.mjs:22 | after the opening tag, the nearest `</final>` is the one right after the answer |
| Extract.NoFinalWithoutOpener | server.mjs:22-23 | text without an opening `<final>` tag has no capture |
| Extract.StrippedReplyIs | server.mjs:22-28 | without a usable capture, the result is the reply with its blocks and tags removed, trimmed |
| Extract.StrippedReplyHasNoBlocks | server.mjs:24-28 | on the stripping path the result is trimmed, tag-free, and holds no `</think>`, `</analysis>` or `</reflection>` |
| Extract.NoClosingTagIn | server.mjs:27 | tag-free text contains no closing markup tag |
| Extract.NoBlockClosers | server.mjs:24-27 | tag-free text contains none of the three block closers |
| Extract.IndexOfCIIs | server.mjs:24 | the first match at or after a position is at `j` when `j` matches and nothing before it does |
| Extract.StripBlocksAtOpener | server.mjs:24 | a block opener at the front with its nearest closer at `j`: the scan resumes after that closer |
| Extract.LeadingBlockRemoved | server.mjs:24-26 | a leading block closed by the first closer after it is removed with its closer |
| Extract.StripBlocksUnmatched | server.mjs:24-26 | text with no block opener is left unchanged |
| Extract.StripBlocksKeepsPrefix | server.mjs:24-26 | text before the first block opener is kept as it is, in front of what the removal leaves of the rest |
| Extract.StripBlocksNoClosedBlock | server.mjs:24-26 | when no opener is followed by a closer, the text is left unchanged |
| Extract.StripBlocksKeepsUnclosed | server.mjs:24-26 | an opener at the front with no closer after it is kept, and so is the rest |
| Extract.StripBlocksKeepsFirst | server.mjs:24-26 | the first character of text that no opener starts is kept, and the scan moves on by one |
| Extract.StripThinkingKeepsPlain | server.mjs:24-26 | a prefix without `<` goes through the three removals unchanged, in front of what they leave of the rest |
| Extract.StripThinkingWithoutClosers | server.mjs:24-26 | text with no think, analysis or reflection closer goes through the three removals unchanged |
| Extract.NoTagMatchWithoutLt | server.mjs:24-26 | text without `<` matches no tag pattern anywhere |
| Extract.StripTagsWithoutTag | server.mjs:27 | text without `<` is left unchanged by the tag removal |
| Extract.Lines | server.mjs:36 | `split(/\r?\n/)`: no piece holds a line feed, and joining the pieces with line feeds gives the text with every "\r\n" written as "\n", which fixes the pieces |
| Extract.LinesWithoutBreak | server.mjs:36 | text without a line feed is a single piece |
| Extract.LastLine | server.mjs:36-37 | the last non-blank line, or the whole text, trimmed: the result is trimmed, and text without a line feed gives itself trimmed |
| Extract.Visible | server.mjs:33 | `typeof x === "string" && x.trim().length > 0`: holds exactly for a string whose trim is not empty |
| Extract.DetailText | server.mjs:39 | `reasoning_details?.[0]?.text`: the first detail's text, and none without details |
| Extract.VisibleLineExists | server.mjs:36 | text with a visible character has a line with a visible character |
| Extract.LastNonBlank | server.mjs:36 | `filter(...).pop()`: the index of the last non-blank line, with only blank lines after it; `None` exactly when every line is blank |
| Extract.LastLineVisible | server.mjs:36-37 | on visible text the last-line rule gives the trimmed last visible line, which is non-empty and holds no line feed |
| Extract.TrimKeepsNoNewline | server.mjs:37 | trimming a line without a line feed keeps it free of line feeds |
| Extract.ExtractKimi | server.mjs:31-45 | the result is trimmed, and it is empty exactly when none of content, reasoning and first reasoning detail is visible |
| Extract.KimiPrefersContent | server.mjs:33 | visible content wins over both reasoning fields |
| Extract.KimiFallsBackToReasoning | server.mjs:34-38 | without visible content, visible reasoning gives its trimmed last visible line |
| Extract.KimiFallsBackToDetails | server.mjs:39-43 | without visible content or reasoning, the first reasoning detail gives its trimmed last visible line |
| Finalizer.SingleSentence | server.mjs:53 | no sentence end followed by white space occurs before the end of the text |
| Finalizer.StripPreamble | server.mjs:50-51 | removing a preamble leaves a suffix of the text, and when the word does not start the text or no colon follows it after blanks, the text is left unchanged |
| Finalizer.DropLeading | server.mjs:52 | `^"+` removed: a suffix of the text, every dropped character is the quote, and the rest does not start with one |
| Finalizer.DropTrailing | server.mjs:52 | `"+$` removed: a prefix of the text, every dropped character is the quote, and the rest does not end with one |
| Finalizer.StripQuotes | server.mjs:52 | the text between its leading and its trailing run of straight quotes: a slice with only quotes before and after it, neither starting nor ending with a quote |
| Finalizer.RunsAround | server.mjs:52 | dropping the leading and then the trailing run of a character leaves the slice between the two runs |
| Finalizer.StraightenQuotes | server.mjs:52 | curly double quotes become straight ones, none is left, and every other character is kept, position by position |
| Finalizer.Clean | server.mjs:49-52 | trim, both preamble removals and the quote steps: no curly quote is left, the text does not grow, and blank input gives "" |
| Finalizer.FirstBreak | server.mjs:53 | the first place where the split cuts: after a sentence end at the start of white space, with no cut before it |
| Finalizer.FirstSentence | server.mjs:53 | the first piece of the split, or the whole text: a prefix of the text that is a single sentence |
| Finalizer.SingleSentenceSlice | server.mjs:53-54 | a slice that cuts only blank ends off a single sentence is still one |
| Finalizer.TrimmedFirstSentence | server.mjs:53-54 | `first.trim()`: the slice of the first sentence between its blank prefix and its blank suffix, trimmed and a single sentence |
| Finalizer.Punctuate | server.mjs:55-56 | a text that already ends with a sentence end is kept as it is, any other gets a period appended; the result is a non-empty single sentence |
| Finalizer.Finalize | server.mjs:47-57 | a falsy input gives ""; any other gives the trimmed first sentence of the cleaned text, unchanged exactly when it ends with `.`, `!`, `?` or a backslash and with a period appended otherwise |
| Finalizer.FinalizeCutsFirstSentence | server.mjs:53-56 | when the cleaned text is a sentence ending in a sentence end followed by white space and more text, the result is that sentence trimmed and nothing of the rest |
| Finalizer.FirstSentenceOf | server.mjs:53 | a single sentence ending in a sentence end, followed by white space, is the first piece of the split |
| Finalizer.TrimKeepsTerminator | server.mjs:54-55 | trimming text that ends in a sentence end keeps that end last, so no period is added |
| Finalizer.FinalizeBlank | server.mjs:48-56 | a non-empty blank input gives "." |
| Finalizer.FinalizeOfSentence | server.mjs:53-56 | when cleaning yields a trimmed single sentence, the result is that sentence punctuated |
| Finalizer.CleanKeepsPlain | server.mjs:49-52 | trimmed text with no preamble, no quote at either end and no curly quote passes the cleaning steps unchanged |
| Finalizer.SentenceWithoutInnerStop | server.mjs:53 | text with no sentence end before its last character is a single sentence |
| Finalizer.StripPreambleOf | server.mjs:50-51 | the preamble word in any case, a colon between blanks, then text: exactly that text is left |
| Finalizer.StripPreambleAtColon | server.mjs:50-51 | when the word matches and a colon follows the blanks, the trimmed rest is left |
| Finalizer.TrimStartAfterBlank | server.mjs:50-51 | `\s*` before text that starts with no blank: the text is left |
| Finalizer.CleanDropsPreamble | server.mjs:49-52 | one preamble in front of plain text is dropped by the cleaning steps |
| Finalizer.FinalizeDropsPreamble | server.mjs:47-56 | a preamble in front of plain trimmed text does not change the result |
| Finalizer.StripQuotesOfQuoted | server.mjs:52 | one straight quote at each end of unquoted text is stripped |
| Finalizer.StripQuotesOfLeadingQuote | server.mjs:52 | a lone leading straight quote is stripped |
| Finalizer.StripQuotesKeeps | server.mjs:52 | text with no straight quote at either end is unchanged by the quote strip |
| Finalizer.QuoteOpensNoPreamble | server.mjs:50-51 | text that opens with a quote has no preamble to strip |
| Finalizer.CleanOfQuoteOpened | server.mjs:49-52 | on trimmed text opening with a quote, cleaning only strips and straightens quotes |
| Finalizer.StraightenPlain | server.mjs:52 | text without curly quotes is unchanged by the straightening |
| Finalizer.StraightenCurlyQuoted | server.mjs:52 | curly quotes around text without curly quotes become straight quotes |
| Finalizer.CleanOfLeadingQuote | server.mjs:49-52 | cleaning drops a leading straight quote from trimmed unquoted text |
| Finalizer.CleanDropsQuotes | server.mjs:49-52 | cleaning drops one pair of straight quotes around plain text |
| Finalizer.CleanOfCurlyQuoted | server.mjs:52 | curly quotes survive the quote strip and come out straight |
| Finalizer.CleanOfCurlyOpened | server.mjs:49-52 | on text between curly quotes, cleaning only straightens the quotes |
| Finalizer.FinalizeDropsQuotes | server.mjs:47-56 | one pair of straight quotes around plain text does not change the result |
| Scenarios.FinalizeHello | server.mjs:47-56 | `finalize("hello")` is "hello." |
| Scenarios.FinalizeFrenchReply | server.mjs:47-56 | `finalize("Réponse possible: Paris.")` is "Paris." |
| Scenarios.FinalizeQuotedGreeting | server.mjs:47-56 | `finalize('"Bonjour!"')` is "Bonjour!" |
| Scenarios.FinalizeSinglePreamble | server.mjs:50 | `finalize("possible answer: x.")` is "x." |
| Scenarios.FinalizeCurlyQuoted | server.mjs:52 | `finalize("“x”")` is the straight-quoted "\"x\"." |
| Scenarios.FinalizeStraightQuoted | server.mjs:52 | a second pass turns "\"x\"." into "x\".", because the leading quote is now straight |
| Scenarios.FinalizeTwoSentences | server.mjs:53-56 | `finalize("Paris. Lyon")` keeps only the first sentence, "Paris." |
| Scenarios.FinalizeNotIdempotent | server.mjs:52 | `finalize(finalize("“x”"))` differs from `finalize("“x”")` |
| Scenarios.FinalizeDoublePreamble | server.mjs:50 | only one preamble is stripped: "possible answer: possible answer: x" becomes "possible answer: x." |
| Scenarios.DoublePreambleNotIdempotent | server.mjs:50 | a second pass strips the remaining preamble, so `finalize` is not idempotent |
| Scenarios.FinalAfterThinking | server.mjs:22-23 | `extractGeneral("<think>ignore</think><final>Paris</final>")` is "Paris" |
| Scenarios.ThinkingBlockStripped | server.mjs:24 | the opener pattern has no closing `>`, so `<thinking>secret</think>Paris` gives "Paris" |
| Scenarios.AnalysisBlockStripped | server.mjs:25 | `extractGeneral("<analysis>x</analysis>plain text")` is "plain text" |
| Scenarios.MiddleBlockStripped | server.mjs:24 | `extractGeneral("Hello <think>x</think> world")` keeps the text on both sides: "Hello  world" |
| Scenarios.UnclosedBlockKept | server.mjs:24-27 | `extractGeneral("a <think b")` is "a <think b": an opener with no closer and a `<` with no `>` are kept |
| Scenarios.PreambleWithoutColonKept | server.mjs:50 | "Possible answer is Paris" starts with the word but has no colon after it, so the preamble removal keeps it whole |
| Adapters.RouteFor | server.mjs:129-133 | a base containing "openrouter.ai" gives the Kimi adapter for the agent "kimi" and the generic one otherwise; every other base, a missing one included, gives OVH |
| Adapters.KimiAnswer | debate.mjs:63-70 | the trimmed `final` field when it parses and is not blank, otherwise `extractKimi(data)`; the result is trimmed |
| Adapters.PlainText | debate.mjs:87-89 | the OVH and generic adapters return `extractGeneral` of the content, and the Kimi adapter its own answer; always trimmed |
| Adapters.ServerReply | server.mjs:83-90 | a server adapter's reply: the finalised text, the body's usage or `{}`, no error; the text is empty exactly when the unfinalised text is |
| Adapters.ScriptReply | debate.mjs:103-104 | a script adapter's reply: the unfinalised text and the body's usage or `{}` |
| Server.Ask | server.mjs:127-138 | at most `retry + 1` attempts with one pause between each two; all but the last failed; a delivered body gives its adapter reply; exhaustion gives "", `{}` and the last error message; an error exactly on exhaustion |
| Server.AskReturnsFirstDelivery | server.mjs:128-133 | the first delivered body within the allowed attempts is the one whose reply is returned |
| Server.AskExhausted | server.mjs:134-137 | when every allowed attempt fails, all `retry + 1` are made and the last failure is reported |
| Server.ErrorOrNull | server.mjs:175 | the reply's error or `null`: an error is kept exactly when it is a non-empty message |
| Server.AnswerFor | server.mjs:172-175 | an answer carries the agent's name, the reply's text and usage, its error or null, and the cost of its usage |
| Server.Answers | server.mjs:170-177 | one answer per agent, in agent order |
| Server.AskAll | server.mjs:170-177 | every agent is asked with the default retry on its own outcomes, in agent order |
| Server.CostsOf | server.mjs:193 | the items summed are the answers' costs, in order |
| Server.PackFor | server.mjs:180 | the judge sees the question and each answer's name and text, in order |
| Server.JudgeText | server.mjs:192 | the judge content, or "{}" when it is missing or empty |
| Server.VerdictOf | server.mjs:191-192 | the parsed verdict, or the fallback `{winner: null, scores: [], justification: ""}` when parsing throws |
| Server.VerdictFallbacks | server.mjs:191-192 | missing content is parsed as "{}", and content that does not parse yields the fallback verdict |
| Server.Debate | server.mjs:169-195 | an error exactly when the judge call fails; otherwise the question, the ordered answers, their totals and the verdict |
| Server.DebateAnswersAndTotals | server.mjs:169-194 | each answer has its agent's name, text, error or null, and cost; the totals have one key per currency and each total is that currency's sum |
| Server.CostCurrencies | server.mjs:174 | each answer's cost is counted under its agent's price currency |
| Server.DebateCurrencies | server.mjs:193 | the totals have an entry for a currency exactly when some agent is priced in it |
| Server.CurrenciesOfAgents | server.mjs:193 | costs counted under their agents' price currencies have exactly the agents' currencies |
| Server.AnswersAreIsolated | server.mjs:170-177 | an agent's answer depends only on its own outcomes, not on other agents' failures |
| Server.AcceptQuestion | server.mjs:202-203 | a missing or blank question is refused with "question manquante"; any other is accepted trimmed and non-empty |
| Server.HandleDebate | server.mjs:201-210 | 400 exactly for a refused question, 500 with the message exactly when the judge call fails, otherwise 200 whose body is the debate of the trimmed question: its answers, totals and verdict |
| Cost.PriceFor | server.mjs:140-147 | USD exactly for "kimi", EUR otherwise; an unpriced name costs 0 in EUR; every priced model has positive prices |
| Cost.PromptTokens | server.mjs:151 | `usage?.prompt_tokens` as a number: the prompt count, or 0 when the usage or the count is missing |
| Cost.CompletionTokens | server.mjs:152 | `usage?.completion_tokens` as a number: the completion count, or 0 when the usage or the count is missing |
| Cost.EstimateCost | server.mjs:149-156 | the currency is the price's; input is prompt tokens times input price, output is completion tokens times output price, total is their sum |
| Cost.UnpricedModelIsFree | server.mjs:146 | a model without a price costs 0 in EUR, whatever its usage |
| Cost.MissingUsageIsFree | server.mjs:151-152 | a missing usage, or one without counts, costs 0 |
| Cost.CostSidesAreIndependent | server.mjs:151-154 | the input cost depends only on prompt tokens, and the output cost only on completion tokens |
| Cost.CostIsLinear | server.mjs:153-155 | the cost of summed token counts is the sum of the costs, on each side and in total |
| Cost.TotalOf | server.mjs:162 | `it.cost?.total`, defaulting to 0: the cost's total, or 0 for a missing cost |
| Cost.CurrencyKey | server.mjs:161 | `it.cost?.currency`, defaulting to "EUR": never empty; the cost's currency, or EUR for a missing cost or an empty currency |
| Cost.Totals | server.mjs:158-167 | an empty list gives an empty map |
| Cost.AggregateTotals | server.mjs:158-167 | the loop builds exactly the per-currency totals of the items |
| Cost.SumFor | server.mjs:158-167 | the reference sum of one currency's item totals |
| Cost.SumForSnoc | server.mjs:160-164 | appending an item adds its total to its own currency's sum only |
| Cost.TotalsAreSumsPerCurrency | server.mjs:158-167 | the keys are exactly the currencies seen, a missing one counting as EUR, and each value is that currency's sum |
| Cost.SumForAbsent | server.mjs:163 | a currency no item has sums to 0 |
| Script.JoinWords | debate.mjs:115 | `join(" ")`: no words give "", one word gives itself (spaces inside it included), and splitting the join of words without spaces at the spaces gives the words back |
| Script.JoinWordsAppend | debate.mjs:115 | for any words, the join of two non-empty runs is their joins with one space between |
| Script.ScriptQuestion | debate.mjs:115 | never empty: the joined words, or the default question exactly when they join to "" |
| Script.SeveralWordsAreJoined | debate.mjs:115 | two or more words give their non-empty join, which holds a space |
| Script.AskOnce | debate.mjs:107-113 | no retry: a failed call is the error; a delivered body gives the adapter's reply |
| Script.UsageOr | debate.mjs:120 | the second usage is taken only when the first is missing |
| Script.RunAgent | debate.mjs:116-123 | a non-empty first text is the entry, with one prompt; an empty one triggers exactly one second call with the fixed instruction, whose text and usage are taken; a failed call is the error |
| Script.RepromptUsageFallbackUnreachable | debate.mjs:120 | a reprompted entry always carries the second reply's usage |
| Script.EmptyEntryMeansTwoEmptyReplies | debate.mjs:118-121 | an entry has an empty text only when both calls returned an empty text |
| Script.Collect | debate.mjs:116 | all entries in order when every run succeeds; otherwise a failure with every earlier run successful |
| Script.Outcomes | debate.mjs:116-123 | each agent's run, in agent order |
| Script.Run | debate.mjs:116-123 | one entry per agent, in agent order and named after it, when every run succeeds; otherwise the error of the first failing agent |

## Left out

- HTTP transport, the OpenAI client, request headers, payloads and URL building (server.mjs:59-125, debate.mjs:39-105): each adapter call is an abstract outcome, `Delivered(body)` or `Failed(message)`.
- The non-2xx check `OpenRouter <status>`: it is one of the ways a call ends in `Failed`.
- `process.env`: endpoint bases are optional strings, and prices are the defaults at server.mjs:141-146. An override that does not parse would give a NaN price, which is not modelled.
- IEEE floating point, `/1e6` and `toFixed(10)`: amounts are exact integers in 1e-10 units.
- Cost.AggregateTotals: each total is modelled as a number, not as a `{total}` object. Keys such as `__proto__` that clash with `Object.prototype` are not modelled.
- `Date.now` and the `ms` field of an answer: clocks are left out. `sleep(500)` is only counted in `Server.Ask`.
- `pLimit(6)`: it is created and never used.
- The judge call's own usage and cost: the source does not count them.
- `JSON.parse`, `JSON.stringify` and `String()`: they are the abstract parameters `finalField` and `parseJson`. The `"{}"` fallback is kept as text.
- Extract.StripBlocks: its own contract says only that the result is no longer than the input and keeps only its characters. StripBlocksKeepsPrefix, StripBlocksAtOpener and StripBlocksNoClosedBlock give its value for every input: the text before the first opener is kept, a closed block is dropped through its nearest closer, and text where no opener is followed by a closer is kept.
- Extract.StripThinking: its own contract gives the same bound and provenance. Its value follows from the three StripBlocks passes; StripThinkingKeepsPlain and StripThinkingWithoutClosers state the common cases directly.
- Extract.StripTags: its own contract says only that no tag is left and that every character comes from the input. StripTagsKeepsPlain, StripTagsDropsTag and StripTagsKeepsLoneLt state case by case what it keeps and what it removes.
- Script.Run: `Promise.all` rejects with the first rejection in time. The model reports the first failing agent in agent order, because timing is not modelled.
- Non-string message content, and request bodies whose `question` is not a string: the model treats them as absent, while the source may throw a `TypeError` or call `String()` on them.
- Characters are Unicode scalar values, not UTF-16 code units. Case folding (`Fold`) covers ASCII and Latin-1 letters, which is exact for every pattern here.
- The Express app apart from the question check (server.mjs:197-213): middleware, `/health` and `listen`.
- The model names of `AGENTS`, the system prompts and the judge rubric: they are opaque data.
- src/App.tsx: the browser UI, which holds no logic that could be modelled.
