/** What one successful provider call yields, and how each adapter turns the
    provider's reply, batched or streamed, into that (src/llms/__init__.py). */
module Streaming {
  import opened Wrappers
  import opened Text
  import opened Usage
  import Thinking

  /** `(final_content, usage)`; a stream that sends no usage chunk leaves `usage` as `None`. */
  datatype Sample = Sample(text: string, usage: Option<ModelUsage>)

  /** One chunk of an OpenAI-style stream: a chunk with choices carries
      `choices[0].delta.content`; a chunk without choices carries `usage`. */
  datatype Chunk = DeltaChunk(content: Option<string>) | UsageChunk(usage: Option<RawUsage>)

  /** How the usage chunk is read: OpenAI and OpenRouter skip a chunk whose
      `usage` is `None` and read cached tokens as `IfDetails` (lines 300-308,
      1000-1011); DeepSeek reads `chunk.usage` unconditionally, with `OrZero`
      (lines 201-211). */
  datatype Dialect = OpenAIDialect | DeepSeekDialect

  /** The accumulator of a stream: `final_content` and `usage`. */
  datatype StreamState = StreamState(text: string, usage: Option<ModelUsage>)

  /** The effect of one chunk on the accumulator. */
  function Step(st: StreamState, c: Chunk, d: Dialect): (r: Result<StreamState>)
    // only a usage chunk can raise, and a delta chunk only ever extends the text
    ensures r.Err? ==> c.UsageChunk?
    ensures c.DeltaChunk? ==> r.Ok? && r.value.usage == st.usage && st.text <= r.value.text
    ensures c.DeltaChunk? && (c.content.None? || c.content.value == "") ==> r == Ok(st)
    ensures c.UsageChunk? && r.Ok? ==> r.value.text == st.text
    ensures c.UsageChunk? && c.usage.None? ==> (r.Ok? <==> d == OpenAIDialect)
  {
    match c
    case DeltaChunk(content) =>
      if content.Some? && content.value != "" then Ok(StreamState(st.text + content.value, st.usage))
      else Ok(st)
    case UsageChunk(None) =>
      if d == OpenAIDialect then Ok(st)
      else Err(Error(AttributeError, "'NoneType' object has no attribute 'prompt_tokens_details'"))
    case UsageChunk(Some(u)) =>
      var m :- NormalizeRaw(u, if d == OpenAIDialect then IfDetails else OrZero);
      Ok(StreamState(st.text, Some(m)))
  }

  /** The accumulator after the whole stream, chunk by chunk; the first
      exception ends the attempt. */
  function Accumulate(chunks: seq<Chunk>, d: Dialect): (r: Result<StreamState>)
    decreases |chunks|
    // a stream of deltas alone never raises
    ensures r.Err? ==> exists k :: 0 <= k < |chunks| && chunks[k].UsageChunk?
  {
    if |chunks| == 0 then Ok(StreamState("", None))
    else
      var st :- Accumulate(chunks[..|chunks| - 1], d);
      Step(st, chunks[|chunks| - 1], d)
  }

  /** The streamed text: the non-empty delta contents, in the order they arrive. */
  function DeltaTexts(chunks: seq<Chunk>): seq<string>
    decreases |chunks|
  {
    if |chunks| == 0 then []
    else
      var last := chunks[|chunks| - 1];
      DeltaTexts(chunks[..|chunks| - 1])
        + (if last.DeltaChunk? && last.content.Some? && last.content.value != "" then [last.content.value] else [])
  }

  /** Does the stream carry a usage record? */
  predicate HasUsage(chunks: seq<Chunk>) {
    exists k :: 0 <= k < |chunks| && chunks[k].UsageChunk? && chunks[k].usage.Some?
  }

  /** The accumulator after `sa` and then `sb`, each read from an empty start. */
  function Combine(sa: StreamState, sb: StreamState): StreamState {
    StreamState(sa.text + sb.text, if sb.usage.Some? then sb.usage else sa.usage)
  }

  lemma StepCombine(sa: StreamState, sb: StreamState, c: Chunk, d: Dialect)
    ensures Step(sb, c, d).Err? ==> Step(Combine(sa, sb), c, d) == Step(sb, c, d)
    ensures Step(sb, c, d).Ok? ==> Step(Combine(sa, sb), c, d) == Ok(Combine(sa, Step(sb, c, d).value))
  {
    if c.DeltaChunk? && c.content.Some? && c.content.value != "" {
      assert (sa.text + sb.text) + c.content.value == sa.text + (sb.text + c.content.value);
    }
  }

  /** Reading a stream in two parts: the texts concatenate in order, the usage
      of the second part wins when it has one, and the first exception ends it. */
  lemma {:induction false} AccumulateAppend(a: seq<Chunk>, b: seq<Chunk>, d: Dialect)
    ensures Accumulate(a, d).Err? ==> Accumulate(a + b, d) == Accumulate(a, d)
    ensures Accumulate(a, d).Ok? && Accumulate(b, d).Err? ==> Accumulate(a + b, d) == Accumulate(b, d)
    ensures Accumulate(a, d).Ok? && Accumulate(b, d).Ok? ==>
              Accumulate(a + b, d) == Ok(Combine(Accumulate(a, d).value, Accumulate(b, d).value))
    decreases |b|
  {
    if |b| == 0 {
      assert a + b == a;
      if Accumulate(a, d).Ok? {
        var sa := Accumulate(a, d).value;
        assert sa.text + "" == sa.text;
      }
    } else {
      var b' := b[..|b| - 1];
      var c := b[|b| - 1];
      assert (a + b)[..|a + b| - 1] == a + b';
      assert (a + b)[|a + b| - 1] == c;
      AccumulateAppend(a, b', d);
      if Accumulate(a, d).Ok? && Accumulate(b', d).Ok? {
        StepCombine(Accumulate(a, d).value, Accumulate(b', d).value, c, d);
      }
    }
  }

  /** A successful read yields exactly the concatenated delta texts. */
  lemma {:induction false} AccumulateText(chunks: seq<Chunk>, d: Dialect)
    requires Accumulate(chunks, d).Ok?
    ensures Accumulate(chunks, d).value.text == Concat(DeltaTexts(chunks))
    decreases |chunks|
  {
    if |chunks| > 0 {
      var init := chunks[..|chunks| - 1];
      AccumulateText(init, d);
      var last := chunks[|chunks| - 1];
      if last.DeltaChunk? && last.content.Some? && last.content.value != "" {
        ConcatAppend(DeltaTexts(init), [last.content.value]);
      } else {
        assert DeltaTexts(chunks) == DeltaTexts(init);
      }
    }
  }

  /** With no usage record in the stream the usage stays `None`, and an
      OpenAI-style stream of that kind never fails. */
  lemma {:induction false} AccumulateWithoutUsage(chunks: seq<Chunk>, d: Dialect)
    requires !HasUsage(chunks)
    requires d == OpenAIDialect
    ensures Accumulate(chunks, d).Ok? && Accumulate(chunks, d).value.usage.None?
    decreases |chunks|
  {
    if |chunks| > 0 {
      var init := chunks[..|chunks| - 1];
      forall k | 0 <= k < |init| ensures !(init[k].UsageChunk? && init[k].usage.Some?) {
        assert init[k] == chunks[k];
      }
      AccumulateWithoutUsage(init, d);
    }
  }

  /** The usage of a successful read is that of the last usage chunk. */
  lemma {:induction false} AccumulateLastUsage(chunks: seq<Chunk>, d: Dialect, k: nat)
    requires k < |chunks| && chunks[k].UsageChunk? && chunks[k].usage.Some?
    requires forall j :: k < j < |chunks| ==> !chunks[j].UsageChunk?
    requires Accumulate(chunks, d).Ok?
    ensures NormalizeRaw(chunks[k].usage.value, if d == OpenAIDialect then IfDetails else OrZero).Ok?
    ensures Accumulate(chunks, d).value.usage
              == Some(NormalizeRaw(chunks[k].usage.value, if d == OpenAIDialect then IfDetails else OrZero).value)
    decreases |chunks|
  {
    if k < |chunks| - 1 {
      AccumulateLastUsage(chunks[..|chunks| - 1], d, k);
    }
  }

  /** The streaming loop of the OpenAI, DeepSeek and OpenRouter adapters:
      `final_content += delta` and `usage = ModelUsage(...)` per chunk. */
  method ConsumeStream(chunks: seq<Chunk>, d: Dialect) returns (r: Result<StreamState>)
    ensures r == Accumulate(chunks, d)
  {
    var text := "";
    var usage: Option<ModelUsage> := None;
    var i := 0;
    while i < |chunks|
      invariant 0 <= i <= |chunks|
      invariant Accumulate(chunks[..i], d) == Ok(StreamState(text, usage))
    {
      AccumulateNext(chunks, i, d, StreamState(text, usage));
      match chunks[i] {
      case DeltaChunk(content) =>
        if content.Some? && content.value != "" {
          text := text + content.value;
        }
      case UsageChunk(None) =>
        if d == DeepSeekDialect {
          AccumulateErrStays(chunks, i + 1, d);
          return Err(Error(AttributeError, "'NoneType' object has no attribute 'prompt_tokens_details'"));
        }
      case UsageChunk(Some(u)) =>
        var m := NormalizeRaw(u, if d == OpenAIDialect then IfDetails else OrZero);
        if m.Err? {
          AccumulateErrStays(chunks, i + 1, d);
          return Err(m.error);
        }
        usage := Some(m.value);
      }
      i := i + 1;
    }
    assert chunks[..i] == chunks;
    r := Ok(StreamState(text, usage));
  }

  /** One more chunk of the stream is one more step of the accumulator. */
  lemma AccumulateNext(chunks: seq<Chunk>, i: nat, d: Dialect, st: StreamState)
    requires i < |chunks| && Accumulate(chunks[..i], d) == Ok(st)
    ensures Accumulate(chunks[..i + 1], d) == Step(st, chunks[i], d)
  {
    assert chunks[..i + 1][..i] == chunks[..i];
  }

  /** Once a prefix of the stream fails, the whole stream fails the same way. */
  lemma {:induction false} AccumulateErrStays(chunks: seq<Chunk>, i: nat, d: Dialect)
    requires i <= |chunks|
    requires Accumulate(chunks[..i], d).Err?
    ensures Accumulate(chunks, d) == Accumulate(chunks[..i], d)
  {
    assert chunks == chunks[..i] + chunks[i..];
    AccumulateAppend(chunks[..i], chunks[i..], d);
  }

  // ------------------------------------------------------------ Anthropic

  /** An Anthropic reply: the text of each content block and the usage of a
      batched message, or the streamed text pieces and the final message's usage. */
  datatype AnthropicReply =
    | AnthropicMessage(contentTexts: seq<string>, usage: ModelUsage)
    | AnthropicStream(textStream: seq<string>, finalUsage: ModelUsage)

  /** Lines 69-111: the last content block's text, or the streamed pieces in
      order; Anthropic's usage is copied field for field. */
  function DecodeAnthropic(reply: AnthropicReply): (r: Result<Sample>)
    ensures reply.AnthropicMessage? ==> (r.Ok? <==> |reply.contentTexts| > 0)
    ensures reply.AnthropicMessage? && r.Ok? ==>
              r.value == Sample(reply.contentTexts[|reply.contentTexts| - 1], Some(reply.usage))
    ensures reply.AnthropicStream? ==> r.Ok? && r.value.usage == Some(reply.finalUsage)
    ensures reply.AnthropicStream? ==> r.value.text == Concat(reply.textStream)
  {
    match reply
    case AnthropicMessage(texts, usage) =>
      if |texts| == 0 then Err(Error(IndexError, "list index out of range"))
      else Ok(Sample(texts[|texts| - 1], Some(usage)))
    case AnthropicStream(pieces, usage) =>
      Ok(Sample(Concat(pieces), Some(usage)))
  }

  // ------------------------------------------------- OpenAI-style replies

  /** An OpenAI-style reply: a batched completion (the content of each choice
      and the usage), or a stream of chunks. */
  datatype ChatReply =
    | Completion(choices: seq<string>, usage: RawUsage)
    | CompletionStream(chunks: seq<Chunk>)

  /** The batched branch shared by OpenAI and DeepSeek (lines 179-186,
      276-283): usage first, read unguarded, then `choices[0]`. */
  function DecodeCompletion(choices: seq<string>, usage: RawUsage): (r: Result<Sample>)
    ensures r.Ok? <==> NormalizeRaw(usage, Unguarded).Ok? && |choices| > 0
    ensures r.Ok? ==> r.value == Sample(choices[0], Some(NormalizeRaw(usage, Unguarded).value))
  {
    var m :- NormalizeRaw(usage, Unguarded);
    if |choices| == 0 then Err(Error(IndexError, "list index out of range"))
    else Ok(Sample(choices[0], Some(m)))
  }

  /** The OpenAI adapter (lines 269-308). */
  function DecodeOpenAI(reply: ChatReply): (r: Result<Sample>)
    ensures reply.Completion? ==> r == DecodeCompletion(reply.choices, reply.usage)
    ensures reply.CompletionStream? ==>
              (r.Ok? <==> Accumulate(reply.chunks, OpenAIDialect).Ok?)
    ensures reply.CompletionStream? && r.Ok? ==>
              r.value.text == Concat(DeltaTexts(reply.chunks))
              && r.value.usage == Accumulate(reply.chunks, OpenAIDialect).value.usage
  {
    match reply
    case Completion(choices, usage) => DecodeCompletion(choices, usage)
    case CompletionStream(chunks) =>
      var st :- Accumulate(chunks, OpenAIDialect);
      AccumulateText(chunks, OpenAIDialect);
      Ok(Sample(st.text, st.usage))
  }

  /** The DeepSeek adapter (lines 176-212): a stream additionally has its
      thinking regions removed and is stripped. */
  function DecodeDeepSeek(reply: ChatReply): (r: Result<Sample>)
    ensures reply.Completion? ==> r == DecodeCompletion(reply.choices, reply.usage)
    ensures reply.CompletionStream? ==>
              (r.Ok? <==> Accumulate(reply.chunks, DeepSeekDialect).Ok?)
    ensures reply.CompletionStream? && r.Ok? ==>
              r.value.text == Thinking.DeepSeekText(Concat(DeltaTexts(reply.chunks)))
              && r.value.usage == Accumulate(reply.chunks, DeepSeekDialect).value.usage
  {
    match reply
    case Completion(choices, usage) => DecodeCompletion(choices, usage)
    case CompletionStream(chunks) =>
      var st :- Accumulate(chunks, DeepSeekDialect);
      AccumulateText(chunks, DeepSeekDialect);
      Ok(Sample(Thinking.DeepSeekText(st.text), st.usage))
  }

  // ------------------------------------------------------------------ xAI

  /** xAI's usage: `prompt_tokens`, `cached_prompt_text_tokens`, `completion_tokens`. */
  datatype XaiUsage = XaiUsage(promptTokens: int, cachedPromptTextTokens: int, completionTokens: int)

  /** One xAI stream chunk: its content and, possibly, its usage. */
  datatype XaiChunk = XaiChunk(content: string, usage: Option<XaiUsage>)

  datatype XaiReply = XaiMessage(content: string, usage: XaiUsage) | XaiStream(chunks: seq<XaiChunk>)

  function XaiToRaw(u: XaiUsage): RawUsage {
    RawUsage(u.promptTokens, u.completionTokens, Some(PromptDetails(Some(u.cachedPromptTextTokens))))
  }

  /** An xAI chunk acts as a delta followed by a usage chunk (lines 392-403). */
  function XaiChunks(chunks: seq<XaiChunk>): (r: seq<Chunk>)
    decreases |chunks|
    ensures |r| == 2 * |chunks|
  {
    if |chunks| == 0 then []
    else
      var c := chunks[|chunks| - 1];
      XaiChunks(chunks[..|chunks| - 1])
        + [DeltaChunk(Some(c.content)), UsageChunk(if c.usage.Some? then Some(XaiToRaw(c.usage.value)) else None)]
  }

  /** xAI chunks never make the read fail: every usage they carry has a cached count. */
  lemma {:induction false} XaiStreamNeverFails(chunks: seq<XaiChunk>)
    ensures Accumulate(XaiChunks(chunks), OpenAIDialect).Ok?
    decreases |chunks|
  {
    if |chunks| > 0 {
      var init := chunks[..|chunks| - 1];
      var c := chunks[|chunks| - 1];
      XaiStreamNeverFails(init);
      var tail := [DeltaChunk(Some(c.content)), UsageChunk(if c.usage.Some? then Some(XaiToRaw(c.usage.value)) else None)];
      assert XaiChunks(chunks) == XaiChunks(init) + tail;
      assert tail[..1] == [tail[0]] && [tail[0]][..0] == [];
      assert Accumulate([tail[0]], OpenAIDialect).Ok?;
      assert c.usage.Some? ==> NormalizeRaw(XaiToRaw(c.usage.value), IfDetails).Ok?;
      assert Accumulate(tail, OpenAIDialect).Ok?;
      AccumulateAppend(XaiChunks(init), tail, OpenAIDialect);
    }
  }

  /** The xAI adapter (lines 377-403). */
  function DecodeXai(reply: XaiReply): (r: Result<Sample>)
    ensures r.Ok?
    ensures reply.XaiMessage? ==>
              r.value == Sample(reply.content, Some(Normalize(reply.usage.promptTokens,
                reply.usage.cachedPromptTextTokens, reply.usage.completionTokens)))
    ensures reply.XaiStream? ==> r.value.text == Concat(DeltaTexts(XaiChunks(reply.chunks)))
  {
    match reply
    case XaiMessage(content, u) =>
      Ok(Sample(content, Some(Normalize(u.promptTokens, u.cachedPromptTextTokens, u.completionTokens))))
    case XaiStream(chunks) =>
      XaiStreamNeverFails(chunks);
      AccumulateText(XaiChunks(chunks), OpenAIDialect);
      var st := Accumulate(XaiChunks(chunks), OpenAIDialect).value;
      Ok(Sample(st.text, st.usage))
  }

  // --------------------------------------------------------------- Gemini

  /** Gemini's `usage_metadata` counts and what reading `response.text` gives:
      the text, or the exception the property raises (for a reply without a
      text part). */
  datatype GeminiReply = GeminiReply(text: Result<string>, promptTokenCount: int,
                                     cachedContentTokenCount: int, candidatesTokenCount: int)

  /** The Gemini adapter (lines 458-465, 481): the usage, then `response.text`,
      read after the loop, so that its exception is raised and not retried. */
  function DecodeGemini(reply: GeminiReply): (r: Result<Sample>)
    ensures r.Err? <==> reply.text.Err?
    ensures r.Err? ==> r.error == reply.text.error
    ensures r.Ok? ==> r.value.text == reply.text.value
    ensures r.Ok? ==> r.value.usage == Some(Normalize(reply.promptTokenCount, reply.cachedContentTokenCount,
                                                      reply.candidatesTokenCount))
  {
    var text :- reply.text;
    Ok(Sample(text, Some(Normalize(reply.promptTokenCount, reply.cachedContentTokenCount,
                                   reply.candidatesTokenCount))))
  }
}
