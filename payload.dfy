/**
 * The parts of a chat-completion response body that the core reads. Only
 * string values are modelled for text fields: `None` stands for a field that
 * is absent, `null`, or not a string (a `typeof x === "string"` test fails).
 */
module Payloads {
  import opened Wrappers

  /** Token counters of a response; any of them may be missing. */
  datatype Usage = Usage(promptTokens: Option<nat>, completionTokens: Option<nat>, totalTokens: Option<nat>)

  /** The empty usage object `{}`. */
  const NoUsage := Usage(None, None, None)

  /** `choices[0].message`: its content, its `reasoning`, and the `text` of each `reasoning_details` entry. */
  datatype Message = Message(content: Option<string>, reasoning: Option<string>, reasoningDetails: seq<Option<string>>)

  /** The `{}` that `message || {}` falls back to. */
  const EmptyMessage := Message(None, None, [])

  datatype Choice = Choice(message: Option<Message>)

  /** A decoded response body: its `choices` and its `usage` (missing or falsy is `None`). */
  datatype Payload = Payload(choices: seq<Choice>, usage: Option<Usage>)

  /** `data?.choices?.[0]?.message || {}`. */
  function FirstMessage(data: Payload): (m: Message)
    ensures data.choices == [] ==> m == EmptyMessage
    ensures data.choices != [] ==> m == data.choices[0].message.GetOr(EmptyMessage)
  {
    if data.choices != [] && data.choices[0].message.Some? then data.choices[0].message.value
    else EmptyMessage
  }

  /** `data?.choices?.[0]?.message?.content || ""`. */
  function RawContent(data: Payload): (r: string)
    ensures FirstMessage(data).content.Some? ==> r == FirstMessage(data).content.value
    ensures FirstMessage(data).content.None? ==> r == ""
  {
    FirstMessage(data).content.GetOr("")
  }

  /** `data.usage || {}`: adapters always hand back a usage object, the empty one when the body has none. */
  function UsageOf(data: Payload): (u: Usage)
    ensures data.usage.Some? ==> u == data.usage.value
    ensures data.usage.None? ==> u == NoUsage
  {
    data.usage.GetOr(NoUsage)
  }
}
