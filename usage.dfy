/** Token accounting: the normalised `ModelUsage` record and the way each
    provider adapter fills it from the provider's own usage report
    (src/llms/__init__.py). */
module Usage {
  import opened Wrappers

  /** `ModelUsage`: tokens written to and read from the prompt cache, billed
      input tokens and output tokens. Python integers, so not bounded. */
  datatype ModelUsage = ModelUsage(
    cacheCreationInputTokens: int,
    cacheReadInputTokens: int,
    inputTokens: int,
    outputTokens: int)

  /** `usage.prompt_tokens_details` of an OpenAI-style reply; `cached_tokens` may be `None`. */
  datatype PromptDetails = PromptDetails(cachedTokens: Option<int>)

  /** An OpenAI-style `usage` object; `prompt_tokens_details` may be `None`. */
  datatype RawUsage = RawUsage(promptTokens: int, completionTokens: int, details: Option<PromptDetails>)

  /** How an adapter reads `cached_tokens`:
      - Unguarded: `usage.prompt_tokens_details.cached_tokens` (lines 179, 276);
      - IfDetails: `details.cached_tokens if details else 0` (lines 302, 887-890, 1002-1005);
      - OrZero:    `details.cached_tokens or 0` when details exist, else 0 (lines 202-205). */
  datatype CachedReading = Unguarded | IfDetails | OrZero

  /** The usage reported with the canned `NO_WIFI` reply (lines 804-809). */
  const ZeroUsage := ModelUsage(0, 0, 0, 0)

  /** Cached tokens are reported apart from billed input tokens: the cached
      share is subtracted from the provider's prompt count, never counted twice. */
  function Normalize(promptTokens: int, cachedTokens: int, completionTokens: int): (u: ModelUsage)
    ensures u.cacheCreationInputTokens == 0
    ensures u.cacheReadInputTokens == cachedTokens
    ensures u.inputTokens + u.cacheReadInputTokens == promptTokens
    ensures u.outputTokens == completionTokens
  {
    ModelUsage(0, cachedTokens, promptTokens - cachedTokens, completionTokens)
  }

  /** Builds `ModelUsage` from an OpenAI-style usage object the way the adapter
      reading it does; the error is the exception Python raises on a missing
      field (`None.cached_tokens`, or `prompt_tokens - None`). */
  function NormalizeRaw(u: RawUsage, reading: CachedReading): (r: Result<ModelUsage>)
    // whenever a record comes out, it keeps the design's invariant
    ensures r.Ok? ==> r.value.cacheCreationInputTokens == 0
    ensures r.Ok? ==> r.value.inputTokens + r.value.cacheReadInputTokens == u.promptTokens
    ensures r.Ok? ==> r.value.outputTokens == u.completionTokens
    // a reported cached count is what is read from the cache
    ensures r.Ok? && u.details.Some? && u.details.value.cachedTokens.Some? ==>
              r.value.cacheReadInputTokens == u.details.value.cachedTokens.value
    // missing details: an AttributeError when unguarded, no cached tokens otherwise
    ensures u.details.None? ==>
              if reading == Unguarded then r.Err? && r.error.cls == AttributeError
              else r.Ok? && r.value.cacheReadInputTokens == 0
    // details without a count: only `or 0` survives it
    ensures u.details.Some? && u.details.value.cachedTokens.None? ==>
              if reading == OrZero then r.Ok? && r.value.cacheReadInputTokens == 0
              else r.Err? && r.error.cls == TypeError
    ensures r.Ok? <==> if u.details.None? then reading != Unguarded
                       else reading == OrZero || u.details.value.cachedTokens.Some?
  {
    match u.details
    case None =>
      if reading == Unguarded then
        Err(Error(AttributeError, "'NoneType' object has no attribute 'cached_tokens'"))
      else Ok(Normalize(u.promptTokens, 0, u.completionTokens))
    case Some(PromptDetails(None)) =>
      if reading == OrZero then Ok(Normalize(u.promptTokens, 0, u.completionTokens))
      else Err(Error(TypeError, "unsupported operand type(s) for -: 'int' and 'NoneType'"))
    case Some(PromptDetails(Some(c))) =>
      Ok(Normalize(u.promptTokens, c, u.completionTokens))
  }
}
