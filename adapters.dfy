/**
 * The three backend adapters, reduced to what they do with a delivered
 * response: routing by endpoint base and agent name, and the post-processing
 * of the decoded body. The HTTP request itself is an abstract outcome.
 */
module Adapters {
  import opened Wrappers
  import opened Text
  import opened Payloads
  import opened Extract
  import opened Finalizer

  /** An entry of `AGENTS`: its name and its endpoint base (`process.env` may leave it undefined). */
  datatype Agent = Agent(name: string, base: Option<string>)

  /** Which adapter `ask` calls. */
  datatype Route = Ovh | OpenRouterKimi | OpenRouterGeneric

  /**
   * What one adapter call produced: a decoded response body, or a thrown
   * error (a non-2xx status `OpenRouter <status>`, a network or SDK failure)
   * with the message `String(e.message || e)`.
   */
  datatype Wire = Delivered(data: Payload) | Failed(message: string)

  /** The value an adapter or `ask` returns: `{text, usage, error?}`; `usage` `None` is `undefined`. */
  datatype Reply = Reply(text: string, usage: Option<Usage>, error: Option<string>)

  const OpenRouterHost := "openrouter.ai"
  const KimiName := "kimi"

  /**
   * The dispatch of `ask`: a base containing "openrouter.ai" goes to the Kimi
   * adapter for the agent named "kimi" and to the generic one otherwise;
   * every other base, a missing one included, goes to the OVH adapter.
   */
  function RouteFor(a: Agent): (r: Route)
    ensures r == OpenRouterKimi <==> Includes(a.base.GetOr(""), OpenRouterHost) && a.name == KimiName
    ensures r == OpenRouterGeneric <==> Includes(a.base.GetOr(""), OpenRouterHost) && a.name != KimiName
    ensures r == Ovh <==> !Includes(a.base.GetOr(""), OpenRouterHost)
    ensures a.base.None? ==> r == Ovh
  {
    if Includes(a.base.GetOr(""), OpenRouterHost) then
      if a.name == KimiName then OpenRouterKimi else OpenRouterGeneric
    else Ovh
  }

  /**
   * The Kimi adapter's text before any `finalize`: the `final` field of the
   * content parsed as JSON, trimmed, when that is not empty; otherwise
   * `extractKimi(data)`. `finalField` stands for `JSON.parse(raw)` followed by
   * `String(obj.final || "")`, `None` when parsing or the field access throws.
   */
  function KimiAnswer(data: Payload, finalField: string -> Option<string>): (r: string)
    ensures IsTrimmed(r)
    ensures finalField(RawContent(data)).Some? && !IsBlank(finalField(RawContent(data)).value) ==>
      r == Trim(finalField(RawContent(data)).value)
    ensures finalField(RawContent(data)).None? || IsBlank(finalField(RawContent(data)).value) ==>
      r == ExtractKimi(data)
  {
    match finalField(RawContent(data))
    case Some(f) => if Trim(f) != "" then Trim(f) else ExtractKimi(data)
    case None => ExtractKimi(data)
  }

  /**
   * The text an adapter of debate.mjs returns for a delivered body: the OVH
   * and generic adapters apply `extractGeneral` to the message content, the
   * Kimi adapter gives `KimiAnswer`; nothing is finalised.
   */
  function PlainText(route: Route, data: Payload, finalField: string -> Option<string>): (r: string)
    ensures IsTrimmed(r)
    ensures route != OpenRouterKimi ==> r == ExtractGeneral(RawContent(data))
  {
    match route
    case OpenRouterKimi => KimiAnswer(data, finalField)
    case _ => ExtractGeneral(RawContent(data))
  }

  /** The reply of a server.mjs adapter for a delivered body: the same text, finalised. */
  function ServerReply(a: Agent, data: Payload, finalField: string -> Option<string>): (r: Reply)
    ensures r.usage == Some(UsageOf(data)) && r.error.None?
    ensures r.text == Finalize(PlainText(RouteFor(a), data, finalField))
    ensures r.text == [] <==> PlainText(RouteFor(a), data, finalField) == []
  {
    Reply(Finalize(PlainText(RouteFor(a), data, finalField)), Some(UsageOf(data)), None)
  }

  /** The reply of a debate.mjs adapter for a delivered body. */
  function ScriptReply(a: Agent, data: Payload, finalField: string -> Option<string>): (r: Reply)
    ensures r.usage == Some(UsageOf(data)) && r.error.None?
    ensures r.text == PlainText(RouteFor(a), data, finalField)
  {
    Reply(PlainText(RouteFor(a), data, finalField), Some(UsageOf(data)), None)
  }
}
