/** `get_next_messages` (src/llms/__init__.py:487-797): picks the adapter for
    the model, prepares the conversation once, asks for `n_times` samples and
    keeps the ones that came back. The concurrent `asyncio.gather` is taken
    in sample order; each sample's call is the retry loop of its adapter over
    an oracle that answers every attempt. */
module Fanout {
  import opened Wrappers
  import opened Text
  import opened Streaming
  import opened Conversation
  import opened AnthropicPrep
  import opened Retry
  import opened Usage

  /** The models `get_next_messages` has a branch for, and any other one. */
  datatype Model =
    | Claude35Sonnet | Claude35Haiku
    | Gpt4o | Gpt4oMini | Gpt5 | O1Mini | O1Preview | O3Mini
    | DeepSeekR1 | BasetenDeepSeekR1
    | Grok3 | Grok4
    | Gemini15Pro
    | OpenRouterClaude35Sonnet | OpenRouterModel | OpenRouterO1 | OpenRouterO1Mini
    | OtherModel(name: string)

  /** The branch of `get_next_messages` a model takes. */
  datatype Family =
    | AnthropicFamily | OpenAIFamily | DeepSeekFamily(useBaseten: bool)
    | XaiFamily | GeminiFamily | OpenRouterFamily

  function FamilyOf(m: Model): (r: Option<Family>)
    // every model the enum names has a branch; any other model has none
    ensures r.None? <==> m.OtherModel?
    ensures r == Some(OpenRouterFamily) <==> m in {OpenRouterClaude35Sonnet, OpenRouterModel, OpenRouterO1, OpenRouterO1Mini}
  {
    match m
    case Claude35Sonnet | Claude35Haiku => Some(AnthropicFamily)
    case Gpt4o | Gpt4oMini | Gpt5 | O1Mini | O1Preview | O3Mini => Some(OpenAIFamily)
    case DeepSeekR1 => Some(DeepSeekFamily(false))
    case BasetenDeepSeekR1 => Some(DeepSeekFamily(true))
    case Grok3 | Grok4 => Some(XaiFamily)
    case Gemini15Pro => Some(GeminiFamily)
    case OpenRouterClaude35Sonnet | OpenRouterModel | OpenRouterO1 | OpenRouterO1Mini => Some(OpenRouterFamily)
    case OtherModel(_) => None
  }

  /** The models whose conversation is flattened by `text_only_messages` first
      (lines 494-495, 569-570, 609, 742-743). */
  predicate FlattenedFor(m: Model)
    // only Anthropic, OpenAI, DeepSeek and OpenRouter branches flatten
    ensures FlattenedFor(m) ==> FamilyOf(m).Some? && FamilyOf(m) != Some(XaiFamily) && FamilyOf(m) != Some(GeminiFamily)
    ensures FlattenedFor(m) && FamilyOf(m) == Some(AnthropicFamily) ==> m == Claude35Haiku
  {
    m in {Claude35Haiku, O1Mini, O1Preview, O3Mini, DeepSeekR1, BasetenDeepSeekR1,
          OpenRouterModel, OpenRouterO1, OpenRouterO1Mini}
  }

  // --------------------------------------------------------------- Gemini

  /** A part of a Gemini `ContentDict`; an image is kept as its base64 data. */
  datatype GeminiPart = GeminiText(text: string) | GeminiImage(data: string)

  datatype GeminiContent = GeminiContent(role: string, parts: seq<GeminiPart>)

  /** Gemini calls the assistant `model`; every other role passes through. */
  function GeminiRole(role: string): (r: string)
    ensures r == "model" <==> role == "assistant" || role == "model"
    ensures role != "assistant" ==> r == role
  {
    if role == "assistant" then "model" else role
  }

  /** The text and image parts of a list content, in order; other parts are skipped. */
  function GeminiParts(parts: seq<Part>): (r: seq<GeminiPart>)
    decreases |parts|
    ensures |r| <= |parts|
    ensures (forall k :: 0 <= k < |parts| ==> parts[k].body.TextPart? || parts[k].body.ImageUrlPart?)
            ==> |r| == |parts|
  {
    if |parts| == 0 then []
    else
      var p := parts[|parts| - 1];
      GeminiParts(parts[..|parts| - 1]) + GeminiPartOf(p)
  }

  /** The Gemini part of one content part: text, an image's data, or nothing. */
  function GeminiPartOf(p: Part): (r: seq<GeminiPart>)
    ensures |r| <= 1 && (|r| == 1 <==> p.body.TextPart? || p.body.ImageUrlPart?)
    ensures p.body.TextPart? ==> r == [GeminiText(p.body.text)]
    ensures p.body.ImageUrlPart? ==> r == [GeminiImage(ReplaceAll(p.body.url, PngPrefix, ""))]
  {
    match p.body
    case TextPart(t) => [GeminiText(t)]
    case ImageUrlPart(url) => [GeminiImage(ReplaceAll(url, PngPrefix, ""))]
    case _ => []
  }

  /** A data URL's image is sent as the data that follows the prefix. */
  lemma GeminiImageData(rest: string, cacheControl: Option<string>)
    requires !Contains(rest, PngPrefix)
    ensures GeminiPartOf(Part(ImageUrlPart(PngPrefix + rest), cacheControl)) == [GeminiImage(rest)]
  {
    ReplaceAllLeading(PngPrefix, rest, "");
    ReplaceAllAbsent(rest, PngPrefix, "");
    assert "" + rest == rest;
  }

  /** The translation of a list is the translations of its pieces, in order. */
  lemma {:induction false} GeminiPartsAppend(a: seq<Part>, b: seq<Part>)
    ensures GeminiParts(a + b) == GeminiParts(a) + GeminiParts(b)
    decreases |b|
  {
    if |b| == 0 {
      assert a + b == a;
    } else {
      var ab, init := a + b, b[..|b| - 1];
      GeminiPartsAppend(a, init);
      assert ab[..|ab| - 1] == a + init && ab[|ab| - 1] == b[|b| - 1];
      GeminiPartsLast(ab);
      GeminiPartsLast(b);
      Reassociate(GeminiParts(a), GeminiParts(init), GeminiPartOf(b[|b| - 1]));
    }
  }

  lemma Reassociate(x: seq<GeminiPart>, y: seq<GeminiPart>, z: seq<GeminiPart>)
    ensures (x + y) + z == x + (y + z)
  {
  }

  lemma GeminiPartsLast(s: seq<Part>)
    requires |s| > 0
    ensures GeminiParts(s) == GeminiParts(s[..|s| - 1]) + GeminiPartOf(s[|s| - 1])
  {
  }

  /** A part that is neither text nor an image is dropped, so the translation is shorter. */
  lemma GeminiPartsDrops(parts: seq<Part>, k: nat)
    requires k < |parts| && !(parts[k].body.TextPart? || parts[k].body.ImageUrlPart?)
    ensures |GeminiParts(parts)| < |parts|
  {
    var before, after := parts[..k], parts[k + 1..];
    assert parts == before + ([parts[k]] + after);
    GeminiPartsAppend(before, [parts[k]] + after);
    GeminiPartsAppend([parts[k]], after);
    GeminiPartsOne(parts[k]);
  }

  lemma GeminiPartsOne(p: Part)
    ensures GeminiParts([p]) == GeminiPartOf(p)
  {
    assert [p][..0] == [];
  }

  /** When every part is text or an image, part `k` is sent as entry `k`. */
  lemma {:induction false} GeminiPartsKept(parts: seq<Part>)
    requires forall k :: 0 <= k < |parts| ==> parts[k].body.TextPart? || parts[k].body.ImageUrlPart?
    ensures |GeminiParts(parts)| == |parts|
    ensures forall k :: 0 <= k < |parts| ==> [GeminiParts(parts)[k]] == GeminiPartOf(parts[k])
    decreases |parts|
  {
    if |parts| > 0 {
      var init := parts[..|parts| - 1];
      GeminiPartsKept(init);
      GeminiPartsLast(parts);
      KeptStep(parts, init, GeminiParts(init), GeminiPartOf(parts[|parts| - 1]), GeminiParts(parts));
    }
  }

  lemma KeptStep(parts: seq<Part>, init: seq<Part>, kept: seq<GeminiPart>, last: seq<GeminiPart>, r: seq<GeminiPart>)
    requires |parts| > 0 && init == parts[..|parts| - 1] && r == kept + last
    requires last == GeminiPartOf(parts[|parts| - 1]) && |last| == 1
    requires |kept| == |init| && forall k :: 0 <= k < |init| ==> [kept[k]] == GeminiPartOf(init[k])
    ensures |r| == |parts| && forall k :: 0 <= k < |parts| ==> [r[k]] == GeminiPartOf(parts[k])
  {
    forall k | 0 <= k < |parts| ensures [r[k]] == GeminiPartOf(parts[k]) {
      if k < |init| {
        assert r[k] == kept[k] && parts[k] == init[k];
      } else {
        assert r[k] == last[0];
      }
    }
  }

  function GeminiContentOf(m: Message): (r: GeminiContent)
    ensures r.role == "model" <==> m.role == "assistant" || m.role == "model"
    ensures m.role != "assistant" ==> r.role == m.role
    ensures m.content.StrContent? ==> r.parts == [GeminiText(m.content.text)]
    ensures m.content.PartsContent? ==> |r.parts| <= |m.content.parts|
  {
    GeminiContent(GeminiRole(m.role),
                  match m.content
                  case StrContent(s) => [GeminiText(s)]
                  case PartsContent(ps) => GeminiParts(ps))
  }

  /** `system_messages[0]["text"]`, where `system_messages` is the content of a
      leading system message or `[]`: an empty list or string raises an
      IndexError, a character of a string a TypeError, a part without text a
      KeyError. */
  function SystemInstruction(system: Option<Content>): (r: Result<string>)
    ensures r.Ok? <==> system.Some? && system.value.PartsContent?
                       && |system.value.parts| > 0 && system.value.parts[0].body.TextPart?
    ensures r.Ok? ==> r.value == system.value.parts[0].body.text
    ensures system.None? ==> r.Err? && r.error.cls == IndexError
    ensures system.Some? && system.value.StrContent? ==>
              r.Err? && r.error.cls == (if system.value.text == "" then IndexError else TypeError)
  {
    match system
    case None => Err(Error(IndexError, "list index out of range"))
    case Some(StrContent(s)) =>
      if s == "" then Err(Error(IndexError, "string index out of range"))
      else Err(Error(TypeError, "string indices must be integers, not 'str'"))
    case Some(PartsContent(ps)) =>
      if |ps| == 0 then Err(Error(IndexError, "list index out of range"))
      else if ps[0].body.TextPart? then Ok(ps[0].body.text)
      else Err(Error(KeyError, "'text'"))
  }

  /** The inner loop of lines 699-714 over one list content. */
  method GeminiPartsOf(ps: seq<Part>) returns (parts: seq<GeminiPart>)
    ensures parts == GeminiParts(ps)
  {
    parts := [];
    var j := 0;
    while j < |ps|
      invariant 0 <= j <= |ps|
      invariant parts == GeminiParts(ps[..j])
    {
      GeminiPartsStep(ps, j);
      match ps[j].body {
        case TextPart(t) => parts := parts + [GeminiText(t)];
        case ImageUrlPart(url) => parts := parts + [GeminiImage(ReplaceAll(url, PngPrefix, ""))];
        case ImagePart(_) =>
        case OtherPart(_) =>
      }
      j := j + 1;
    }
    assert ps[..j] == ps;
  }

  lemma GeminiPartsStep(ps: seq<Part>, j: nat)
    requires j < |ps|
    ensures GeminiParts(ps[..j + 1]) == GeminiParts(ps[..j]) + GeminiPartOf(ps[j])
  {
    assert ps[..j + 1][..j] == ps[..j];
  }

  /** The loop that builds `gemini_contents` (lines 688-715). */
  method GeminiContents(messages: seq<Message>) returns (contents: seq<GeminiContent>)
    ensures |contents| == |messages|
    ensures forall k :: 0 <= k < |messages| ==> contents[k] == GeminiContentOf(messages[k])
  {
    contents := [];
    var i := 0;
    while i < |messages|
      invariant 0 <= i <= |messages| && |contents| == i
      invariant forall k :: 0 <= k < i ==> contents[k] == GeminiContentOf(messages[k])
    {
      var message := messages[i];
      var role := if message.role == "assistant" then "model" else message.role;
      var parts: seq<GeminiPart>;
      match message.content {
        case StrContent(s) =>
          parts := [GeminiText(s)];
        case PartsContent(ps) =>
          parts := GeminiPartsOf(ps);
      }
      contents := contents + [GeminiContent(role, parts)];
      i := i + 1;
    }
  }

  // ------------------------------------------------------------- requests

  /** What one sample's calls are made with. */
  datatype Request =
    | AnthropicRequest(system: Option<Content>, messages: seq<Message>, stream: bool)
    | ChatRequest(messages: seq<Message>, stream: bool)
    | GeminiRequest(systemInstruction: string, contents: seq<GeminiContent>)

  predicate Streams(req: Request) {
    !req.GeminiRequest? && req.stream
  }

  /** The preparation of one branch: its family and the request of each sample. */
  datatype Dispatch = Dispatch(family: Family, requests: seq<Request>)

  /** The Gemini request, or the exception raised while building it. */
  function GeminiPrepare(ms: seq<Message>): (r: Result<Request>)
    ensures |ms| == 0 ==> r.Err? && r.error.cls == IndexError
    ensures |ms| > 0 && ms[0].role != "system" ==> r.Err? && r.error.cls == IndexError
    ensures r.Ok? ==> |ms| > 0 && ms[0].role == "system" && r.value.GeminiRequest?
                      && |r.value.contents| == |ms| - 1
                      && forall k :: 1 <= k < |ms| ==> r.value.contents[k - 1] == GeminiContentOf(ms[k])
  {
    if |ms| == 0 then Err(Error(IndexError, "list index out of range"))
    else
      var system := if ms[0].role == "system" then Some(ms[0].content) else None;
      var rest := if ms[0].role == "system" then ms[1..] else ms;
      var instruction :- SystemInstruction(system);
      Ok(GeminiRequest(instruction, seq(|rest|, k requires 0 <= k < |rest| => GeminiContentOf(rest[k]))))
  }

  /** The OpenAI branch renames a leading system message to `developer`. */
  function DeveloperFirst(ms: seq<Message>): (r: seq<Message>)
    requires |ms| > 0
    ensures |r| == |ms| && r[1..] == ms[1..] && r[0].content == ms[0].content
    ensures r[0].role == (if ms[0].role == "system" then "developer" else ms[0].role)
  {
    if ms[0].role == "system" then ms[0 := Message("developer", ms[0].content)] else ms
  }

  /** Everything a branch does before its first call: the requests, or the
      exception raised on the way. Only the first, primary sample of an
      Anthropic, OpenAI or xAI branch may stream. */
  function PrepareBranch(messages: seq<Message>, model: Model, n: nat, streamEnv: bool): (r: Result<Dispatch>)
    requires n > 0
    ensures FamilyOf(model).None? ==> r.Err? && r.error.cls == ValueError
    ensures r.Ok? ==> FamilyOf(model) == Some(r.value.family)
    ensures r.Ok? ==> |r.value.requests| == n
    ensures r.Ok? ==> forall j :: 0 < j < n ==> !Streams(r.value.requests[j])
    ensures r.Ok? ==> (Streams(r.value.requests[0]) <==>
                       streamEnv && n == 1 && r.value.family in {AnthropicFamily, OpenAIFamily, XaiFamily})
  {
    var stream := streamEnv && n == 1;
    match FamilyOf(model)
    case None => Err(Error(ValueError, "Invalid model: " + (if model.OtherModel? then model.name else "")))
    case Some(AnthropicFamily) =>
      var ms := if model == Claude35Haiku then TextOnly(messages) else messages;
      var p :- AnthropicPrep.Prepare(ms);
      Ok(Dispatch(AnthropicFamily, seq(n, j => AnthropicRequest(p.system, p.messages, j == 0 && stream))))
    case Some(OpenAIFamily) =>
      if |messages| == 0 then Err(Error(IndexError, "list index out of range"))
      else
        var renamed := DeveloperFirst(messages);
        var ms := if FlattenedFor(model) then TextOnly(renamed) else renamed;
        Ok(Dispatch(OpenAIFamily, seq(n, j => ChatRequest(ms, j == 0 && stream))))
    case Some(DeepSeekFamily(b)) =>
      Ok(Dispatch(DeepSeekFamily(b), seq(n, _ => ChatRequest(TextOnly(messages), false))))
    case Some(XaiFamily) =>
      // streaming is only on for a single sample, so it is one call either way
      Ok(Dispatch(XaiFamily, if stream then [ChatRequest(messages, true)] else seq(n, _ => ChatRequest(messages, false))))
    case Some(GeminiFamily) =>
      var g :- GeminiPrepare(messages);
      Ok(Dispatch(GeminiFamily, seq(n, _ => g)))
    case Some(OpenRouterFamily) =>
      var ms := if FlattenedFor(model) then TextOnly(messages) else messages;
      Ok(Dispatch(OpenRouterFamily, seq(n, _ => ChatRequest(ms, false))))
  }

  // -------------------------------------------------------------- samples

  /** One remote call: sample `sample`'s attempt `attempt` with `request`, and
      for DeepSeek the `max_tokens` it is made with; or, for Gemini, the read
      of `response.text` after the loop, on the response of attempt `attempt`,
      whose sample carries the text or whose error is the exception raised. */
  datatype Call =
    | Call(sample: nat, request: Request, attempt: nat, maxTokens: Option<int>)
    | TextRead(sample: nat, request: Request, attempt: nat)

  /** The defaults each adapter is called with by `get_next_messages`. */
  const DeepSeekMaxRetries := 50
  const WrapperMaxRetries := 5

  /** The xAI chat is rebuilt inside each attempt, so its error counts as the attempt's. */
  function XaiAttempt(oracle: Call -> Result<Sample>, j: nat, req: Request, k: nat): (r: Result<Sample>)
    ensures req.ChatRequest? && XaiTranslate(req.messages).Err? ==> r == Err(XaiTranslate(req.messages).error)
  {
    if req.ChatRequest? && XaiTranslate(req.messages).Err? then Err(XaiTranslate(req.messages).error)
    else oracle(Call(j, req, k, None))
  }

  /** What sample `j` yields: a value or `None` from the adapter's loop, or the
      exception the OpenRouter wrapper re-raises, or the one Gemini's
      `response.text` raises after its loop succeeded. */
  function SampleResult(oracle: Call -> Result<Sample>, family: Family, j: nat, req: Request): (r: Result<Option<Sample>>)
    ensures family != OpenRouterFamily && family != GeminiFamily ==> r.Ok?
    ensures family == GeminiFamily ==>
              var run := GeminiRun(oracle, j, req);
              && (run.result.None? ==> r == Ok(None))
              && (run.result.Some? ==>
                    var read := oracle(TextRead(j, req, run.attempts - 1));
                    && (read.Err? ==> r == Err(read.error))
                    && (read.Ok? ==> r == Ok(Some(Sample(read.value.text, run.result.value.usage)))))
  {
    match family
    case AnthropicFamily =>
      Ok(RetryFrom(AnthropicProvider, (k: nat) => oracle(Call(j, req, k, None)),
                   DefaultMaxRetries(AnthropicProvider), DefaultRetrySecs, 0).result)
    case OpenAIFamily =>
      Ok(RetryFrom(OpenAIProvider, (k: nat) => oracle(Call(j, req, k, None)),
                   DefaultMaxRetries(OpenAIProvider), DefaultRetrySecs, 0).result)
    case DeepSeekFamily(b) =>
      Ok(GetNextMessageDeepSeek((k: nat, m: int) => oracle(Call(j, req, k, Some(m))), DeepSeekMaxRetries, DefaultRetrySecs, b).result)
    case XaiFamily =>
      Ok(RetryFrom(XaiProvider, (k: nat) => XaiAttempt(oracle, j, req, k),
                   DefaultMaxRetries(XaiProvider), DefaultRetrySecs, 0).result)
    case GeminiFamily =>
      var run := GeminiRun(oracle, j, req);
      if run.result.None? then Ok(None)
      else
        var read := oracle(TextRead(j, req, run.attempts - 1));
        if read.Err? then Err(read.error) else Ok(Some(Sample(read.value.text, run.result.value.usage)))
    case OpenRouterFamily =>
      WrapperFrom((k: nat) => oracle(Call(j, req, k, None)), WrapperMaxRetries, 0).result
  }

  /** The `while True` loop of `get_next_message_gemini` for sample `j`: the
      usage of the first response that comes back, or `None`. */
  function GeminiRun(oracle: Call -> Result<Sample>, j: nat, req: Request): Run {
    RetryFrom(GeminiProvider, (k: nat) => oracle(Call(j, req, k, None)),
              DefaultMaxRetries(GeminiProvider), DefaultRetrySecs, 0)
  }

  /** The result of every sample, in request order. */
  function SampleResults(oracle: Call -> Result<Sample>, family: Family, requests: seq<Request>): (r: seq<Result<Option<Sample>>>)
    ensures |r| == |requests| && forall j :: 0 <= j < |requests| ==> r[j] == SampleResult(oracle, family, j, requests[j])
  {
    seq(|requests|, j requires 0 <= j < |requests| => SampleResult(oracle, family, j, requests[j]))
  }

  /** `asyncio.gather` over the samples, in order: the list of their results,
      or the exception of the first sample that raised. */
  function Gather(oracle: Call -> Result<Sample>, family: Family, requests: seq<Request>): (r: Result<seq<Option<Sample>>>)
    ensures r.Ok? <==> forall j :: 0 <= j < |requests| ==> SampleResult(oracle, family, j, requests[j]).Ok?
    ensures r.Ok? ==> |r.value| == |requests|
    ensures r.Ok? ==> forall j :: 0 <= j < |requests| ==> r.value[j] == SampleResult(oracle, family, j, requests[j]).value
    ensures r.Err? ==> exists j :: (0 <= j < |requests|
              && SampleResult(oracle, family, j, requests[j]) == Err(r.error)
              && forall i :: 0 <= i < j ==> SampleResult(oracle, family, i, requests[i]).Ok?)
  {
    Collect(SampleResults(oracle, family, requests))
  }

  /** `[m for m in n_messages if m]`: the samples that came back, in order. */
  function FilterSome(s: seq<Option<Sample>>): (r: seq<Sample>)
    decreases |s|
    ensures |r| <= |s|
    ensures forall k :: 0 <= k < |r| ==> Some(r[k]) in s
  {
    if |s| == 0 then []
    else FilterSome(s[..|s| - 1]) + (if s[|s| - 1].Some? then [s[|s| - 1].value] else [])
  }

  // ---------------------------------------------------------- the fan-out

  /** `get_next_messages` as written: its DeepSeek branch computes the samples
      but has no `return`, so the call ends with `None`. */
  function GetNextMessagesAsWritten(messages: seq<Message>, model: Model, n: int, streamEnv: bool,
                                    oracle: Call -> Result<Sample>): (r: Result<Option<seq<Sample>>>)
    ensures n <= 0 ==> r == Ok(Some([]))
    ensures n > 0 && FamilyOf(model).None? ==> r.Err? && r.error.cls == ValueError
  {
    if n <= 0 then Ok(Some([]))
    else
      var d :- PrepareBranch(messages, model, n, streamEnv);
      var results :- Gather(oracle, d.family, d.requests);
      if d.family.DeepSeekFamily? then Ok(None) else Ok(Some(FilterSome(results)))
  }

  /** `get_next_messages` with the DeepSeek branch returning its samples like
      every other branch. */
  function GetNextMessages(messages: seq<Message>, model: Model, n: int, streamEnv: bool,
                           oracle: Call -> Result<Sample>): (r: Result<Option<seq<Sample>>>)
    ensures n <= 0 ==> r == Ok(Some([]))
    ensures n > 0 && FamilyOf(model).None? ==> r.Err? && r.error.cls == ValueError
    ensures r.Ok? ==> r.value.Some? && |r.value.value| <= if n <= 0 then 0 else n
  {
    if n <= 0 then Ok(Some([]))
    else
      var d :- PrepareBranch(messages, model, n, streamEnv);
      var results :- Gather(oracle, d.family, d.requests);
      Ok(Some(FilterSome(results)))
  }

  // ------------------------------------------- the legacy `get_next_message`

  /** The models `get_next_message` (lines 800-1114) has a branch for, as
      written: lines 810, 861, 918, 939, 1020 and 1063. `openrouter_o1`, which
      the OpenRouter branch of `get_next_messages` accepts (line 737), is not
      among them. */
  predicate LegacyHandlesAsWritten(m: Model) {
    m in {Claude35Sonnet, Claude35Haiku, Gpt4o, Gpt4oMini,
          OpenRouterClaude35Sonnet, OpenRouterModel, OpenRouterO1Mini, Gemini15Pro}
  }

  /** With the OpenRouter branch for `openrouter_o1` that the dispatch of
      `get_next_messages` evidently expects. */
  predicate LegacyHandles(m: Model) {
    LegacyHandlesAsWritten(m) || m == OpenRouterO1
  }

  /** What one call of `get_next_message` gives: the canned reply when
      `NO_WIFI` is 1, the provider's `reply` for a model with a branch, and
      otherwise `ValueError("Invalid model: ...")`, `name` being `str(model)`. */
  function LegacyDispatch(handles: bool, noWifi: Option<string>, name: string, reply: Result<Sample>): (r: Result<Sample>)
    ensures NoWifiFlag(noWifi).Err? ==> r == Err(NoWifiFlag(noWifi).error)
    ensures NoWifiFlag(noWifi) == Ok(1) ==> r == Ok(Sample(NoWifiText, Some(ZeroUsage)))
    ensures NoWifiFlag(noWifi).Ok? && NoWifiFlag(noWifi).value != 1 ==>
              r == if handles then reply else Err(Error(ValueError, "Invalid model: " + name))
  {
    var flag :- NoWifiFlag(noWifi);
    if flag == 1 then Ok(Sample(NoWifiText, Some(ZeroUsage)))
    else if handles then reply
    else Err(Error(ValueError, "Invalid model: " + name))
  }

  /** The finding, as written: with `NO_WIFI` unset every `openrouter_o1`
      attempt raises the ValueError, which the wrapper re-raises (at once, or
      after its retries when the name reads as retryable), so the call raises
      it whatever the provider would have answered. */
  lemma OpenRouterO1AsWritten(messages: seq<Message>, n: int, streamEnv: bool, name: string,
                              inner: Call -> Result<Sample>, oracle: Call -> Result<Sample>)
    requires n > 0
    requires forall c :: oracle(c) == LegacyDispatch(LegacyHandlesAsWritten(OpenRouterO1), None, name, inner(c))
    ensures GetNextMessages(messages, OpenRouterO1, n, streamEnv, oracle) == Err(Error(ValueError, "Invalid model: " + name))
  {
    var e := Error(ValueError, "Invalid model: " + name);
    assert !LegacyHandlesAsWritten(OpenRouterO1);
    forall c ensures oracle(c) == Err(e) { }
    var d := PrepareBranch(messages, OpenRouterO1, n, streamEnv).value;
    WrapperAlwaysRaises(oracle, 0, d.requests[0], e);
    GatherFirstError(oracle, d.family, d.requests, 0);
    GatherFailed(messages, OpenRouterO1, n, streamEnv, oracle);
  }

  /** An OpenRouter sample whose every attempt raises the same exception
      raises it, retried or not. */
  lemma WrapperAlwaysRaises(oracle: Call -> Result<Sample>, j: nat, req: Request, e: Error)
    requires forall c :: oracle(c) == Err(e)
    ensures SampleResult(oracle, OpenRouterFamily, j, req) == Err(e)
  {
    var outcome := (k: nat) => oracle(Call(j, req, k, None));
    assert forall k: nat :: outcome(k) == Err(e);
    if ShouldRetry(e.message) {
      WrapperRetryableFailures(outcome, WrapperMaxRetries, 0);
    } else {
      WrapperNonRetryable(outcome, WrapperMaxRetries, 0);
    }
  }

  /** Corrected: every model of the OpenRouter branch has a branch in
      `get_next_message`, so with `NO_WIFI` unset each attempt is the
      provider's reply, the oracle the rest of the model calls. */
  lemma OpenRouterModelsHandled(m: Model, name: string, reply: Result<Sample>)
    requires FamilyOf(m) == Some(OpenRouterFamily)
    ensures LegacyHandles(m)
    ensures LegacyDispatch(LegacyHandles(m), None, name, reply) == reply
    ensures LegacyHandlesAsWritten(m) <==> m != OpenRouterO1
  {
  }

  // -------------------------------------------------------------- lemmas

  /** When every sample came back, all of them are kept, in order. */
  lemma {:induction false} FilterSomeAllSome(s: seq<Option<Sample>>)
    requires forall k :: 0 <= k < |s| ==> s[k].Some?
    ensures |FilterSome(s)| == |s|
    ensures forall k :: 0 <= k < |s| ==> FilterSome(s)[k] == s[k].value
    decreases |s|
  {
    if |s| > 0 {
      var init := s[..|s| - 1];
      FilterSomeAllSome(init);
      FilterSomeLast(s);
      KeptInOrder(s, init, FilterSome(init), FilterSome(s));
    }
  }

  lemma FilterSomeLast(s: seq<Option<Sample>>)
    requires |s| > 0 && s[|s| - 1].Some?
    ensures FilterSome(s) == FilterSome(s[..|s| - 1]) + [s[|s| - 1].value]
  {
  }

  /** The values of a prefix, followed by the value of the last sample. */
  lemma KeptInOrder(s: seq<Option<Sample>>, init: seq<Option<Sample>>, kept: seq<Sample>, r: seq<Sample>)
    requires |s| > 0 && (forall k :: 0 <= k < |s| ==> s[k].Some?) && init == s[..|s| - 1]
    requires |kept| == |init| && forall k :: 0 <= k < |init| ==> kept[k] == init[k].value
    requires r == kept + [s[|s| - 1].value]
    ensures |r| == |s| && forall k :: 0 <= k < |s| ==> r[k] == s[k].value
  {
    forall k | 0 <= k < |s| ensures r[k] == s[k].value {
      if k < |init| {
        assert s[k] == init[k];
      }
    }
  }

  /** Filtering distributes over concatenation. */
  lemma {:induction false} FilterSomeAppend(a: seq<Option<Sample>>, b: seq<Option<Sample>>)
    ensures FilterSome(a + b) == FilterSome(a) + FilterSome(b)
    decreases |b|
  {
    if |b| == 0 {
      assert a + b == a;
    } else {
      var init := b[..|b| - 1];
      var last := if b[|b| - 1].Some? then [b[|b| - 1].value] else [];
      FilterSomeAppend(a, init);
      assert (a + b)[..|a + b| - 1] == a + init;
      assert FilterSome(a + b) == FilterSome(a + init) + last;
    }
  }

  /** One sample is kept exactly when it came back. */
  lemma FilterSomeOne(o: Option<Sample>)
    ensures FilterSome([o]) == if o.Some? then [o.value] else []
  {
    assert [o][..0] == [];
  }

  /** A sample that came back is kept, after the ones before it that came back. */
  lemma FilterSomeAt(s: seq<Option<Sample>>, j: nat)
    requires j < |s| && s[j].Some?
    ensures |FilterSome(s[..j])| < |FilterSome(s)|
    ensures FilterSome(s)[|FilterSome(s[..j])|] == s[j].value
  {
    assert s == s[..j] + ([s[j]] + s[j + 1..]);
    FilterSomeAppend(s[..j], [s[j]] + s[j + 1..]);
    FilterSomeAppend([s[j]], s[j + 1..]);
    FilterSomeOne(s[j]);
  }

  /** When no sample came back, the list is empty. */
  lemma {:induction false} FilterSomeAllNone(s: seq<Option<Sample>>)
    requires forall k :: 0 <= k < |s| ==> s[k].None?
    ensures FilterSome(s) == []
    decreases |s|
  {
    if |s| > 0 {
      FilterSomeAllNone(s[..|s| - 1]);
    }
  }

  /** The primary sample, when it came back, comes first. */
  lemma {:induction false} FilterSomePrimary(s: seq<Option<Sample>>)
    requires |s| > 0 && s[0].Some?
    ensures |FilterSome(s)| > 0 && FilterSome(s)[0] == s[0].value
    decreases |s|
  {
    if |s| > 1 {
      var init := s[..|s| - 1];
      FilterSomePrimary(init);
      assert FilterSome(s) == FilterSome(init) + (if s[|s| - 1].Some? then [s[|s| - 1].value] else []);
    }
  }

  /** The finding: for either DeepSeek model the call as written returns `None`
      even when every sample came back. */
  lemma DeepSeekAsWrittenNone(messages: seq<Message>, model: Model, n: int, streamEnv: bool,
                              oracle: Call -> Result<Sample>)
    requires n > 0 && model in {DeepSeekR1, BasetenDeepSeekR1}
    ensures GetNextMessagesAsWritten(messages, model, n, streamEnv, oracle) == Ok(None)
    ensures GetNextMessages(messages, model, n, streamEnv, oracle).Ok?
    ensures GetNextMessages(messages, model, n, streamEnv, oracle).value.Some?
  {
    var d := PrepareBranch(messages, model, n, streamEnv).value;
    assert Gather(oracle, d.family, d.requests).Ok?;
  }

  /** Away from DeepSeek the corrected call is the call as written. */
  lemma AsWrittenElsewhere(messages: seq<Message>, model: Model, n: int, streamEnv: bool,
                           oracle: Call -> Result<Sample>)
    requires !(model in {DeepSeekR1, BasetenDeepSeekR1})
    ensures GetNextMessagesAsWritten(messages, model, n, streamEnv, oracle)
            == GetNextMessages(messages, model, n, streamEnv, oracle)
  {
    assert FamilyOf(model).None? || !FamilyOf(model).value.DeepSeekFamily?;
  }

  /** Once the branch is prepared, every sample that comes back is returned,
      in sample order, and the primary sample first: when all come back the
      list has `n_times` entries. */
  lemma AllSamplesBack(messages: seq<Message>, model: Model, n: int, streamEnv: bool,
                       oracle: Call -> Result<Sample>)
    requires n > 0 && PrepareBranch(messages, model, n, streamEnv).Ok?
    requires var d := PrepareBranch(messages, model, n, streamEnv).value;
             forall j :: 0 <= j < n ==> SampleResult(oracle, d.family, j, d.requests[j]).Ok?
                                        && SampleResult(oracle, d.family, j, d.requests[j]).value.Some?
    ensures var d := PrepareBranch(messages, model, n, streamEnv).value;
            var r := GetNextMessages(messages, model, n, streamEnv, oracle);
            && r.Ok? && r.value.Some? && |r.value.value| == n
            && forall j :: 0 <= j < n ==> r.value.value[j] == SampleResult(oracle, d.family, j, d.requests[j]).value.value
  {
    var d := PrepareBranch(messages, model, n, streamEnv).value;
    GatherAllSome(oracle, d.family, d.requests);
    GatheredReturned(messages, model, n, streamEnv, oracle);
  }

  /** Whichever samples come back: once the branch is prepared and no sample
      call raised, sample `j`, when it came back, is returned at the position
      after the earlier samples that came back. */
  lemma SampleKeptAt(messages: seq<Message>, model: Model, n: int, streamEnv: bool,
                     oracle: Call -> Result<Sample>, d: Dispatch, j: nat)
    requires n > 0 && PrepareBranch(messages, model, n, streamEnv) == Ok(d) && j < |d.requests|
    requires Gather(oracle, d.family, d.requests).Ok?
    requires SampleResult(oracle, d.family, j, d.requests[j]).value.Some?
    ensures var results := Gather(oracle, d.family, d.requests).value;
            var r := GetNextMessages(messages, model, n, streamEnv, oracle);
            && r.Ok? && r.value.Some? && |FilterSome(results[..j])| < |r.value.value|
            && r.value.value[|FilterSome(results[..j])|] == SampleResult(oracle, d.family, j, d.requests[j]).value.value
  {
    GatheredReturned(messages, model, n, streamEnv, oracle);
    FilterSomeAt(Gather(oracle, d.family, d.requests).value, j);
  }

  /** When every sample comes back, the gathered list keeps them all, in order. */
  lemma GatherAllSome(oracle: Call -> Result<Sample>, family: Family, requests: seq<Request>)
    requires forall j :: 0 <= j < |requests| ==> SampleResult(oracle, family, j, requests[j]).Ok?
                                                 && SampleResult(oracle, family, j, requests[j]).value.Some?
    ensures Gather(oracle, family, requests).Ok?
    ensures var kept := FilterSome(Gather(oracle, family, requests).value);
            |kept| == |requests|
            && forall j :: 0 <= j < |requests| ==> kept[j] == SampleResult(oracle, family, j, requests[j]).value.value
  {
    FilterSomeAllSome(Gather(oracle, family, requests).value);
  }

  /** The primary (possibly streamed) sample, when it comes back, is placed first. */
  lemma PrimaryFirst(messages: seq<Message>, model: Model, n: int, streamEnv: bool,
                     oracle: Call -> Result<Sample>)
    requires n > 0 && PrepareBranch(messages, model, n, streamEnv).Ok?
    requires var d := PrepareBranch(messages, model, n, streamEnv).value;
             Gather(oracle, d.family, d.requests).Ok? && SampleResult(oracle, d.family, 0, d.requests[0]).value.Some?
    ensures var d := PrepareBranch(messages, model, n, streamEnv).value;
            var r := GetNextMessages(messages, model, n, streamEnv, oracle);
            && r.Ok? && r.value.Some? && |r.value.value| > 0
            && r.value.value[0] == SampleResult(oracle, d.family, 0, d.requests[0]).value.value
  {
    var d := PrepareBranch(messages, model, n, streamEnv).value;
    GatheredReturned(messages, model, n, streamEnv, oracle);
    FilterSomePrimary(Gather(oracle, d.family, d.requests).value);
  }

  /** Once the branch is prepared and every sample call returned, the call
      gives back the samples that came back. */
  lemma GatheredReturned(messages: seq<Message>, model: Model, n: int, streamEnv: bool,
                         oracle: Call -> Result<Sample>)
    requires n > 0 && PrepareBranch(messages, model, n, streamEnv).Ok?
    requires var d := PrepareBranch(messages, model, n, streamEnv).value;
             Gather(oracle, d.family, d.requests).Ok?
    ensures var d := PrepareBranch(messages, model, n, streamEnv).value;
            GetNextMessages(messages, model, n, streamEnv, oracle)
            == Ok(Some(FilterSome(Gather(oracle, d.family, d.requests).value)))
  {
  }

  /** An OpenRouter sample whose wrapper re-raises, after earlier samples
      that did not, makes the whole call raise that exception. */
  lemma OpenRouterRaises(messages: seq<Message>, model: Model, n: int, streamEnv: bool,
                         oracle: Call -> Result<Sample>, j: nat)
    requires FamilyOf(model) == Some(OpenRouterFamily) && j < n
    requires var d := PrepareBranch(messages, model, n, streamEnv).value;
             && SampleResult(oracle, d.family, j, d.requests[j]).Err?
             && forall i :: 0 <= i < j ==> SampleResult(oracle, d.family, i, d.requests[i]).Ok?
    ensures var d := PrepareBranch(messages, model, n, streamEnv).value;
            GetNextMessages(messages, model, n, streamEnv, oracle)
            == Err(SampleResult(oracle, d.family, j, d.requests[j]).error)
  {
    var d := PrepareBranch(messages, model, n, streamEnv).value;
    GatherFirstError(oracle, d.family, d.requests, j);
    GatherFailed(messages, model, n, streamEnv, oracle);
  }

  /** A Gemini sample whose loop succeeded but whose `response.text` raises,
      after earlier samples that did not raise, makes the whole call raise. */
  lemma GeminiTextRaises(messages: seq<Message>, n: int, streamEnv: bool,
                         oracle: Call -> Result<Sample>, d: Dispatch, j: nat)
    requires n > 0 && PrepareBranch(messages, Gemini15Pro, n, streamEnv) == Ok(d) && j < |d.requests|
    requires var run := GeminiRun(oracle, j, d.requests[j]);
             run.result.Some? && oracle(TextRead(j, d.requests[j], run.attempts - 1)).Err?
    requires forall i :: 0 <= i < j ==> SampleResult(oracle, d.family, i, d.requests[i]).Ok?
    ensures GetNextMessages(messages, Gemini15Pro, n, streamEnv, oracle)
            == Err(oracle(TextRead(j, d.requests[j], GeminiRun(oracle, j, d.requests[j]).attempts - 1)).error)
  {
    assert d.family == GeminiFamily;
    GatherFirstError(oracle, d.family, d.requests, j);
    GatherFailed(messages, Gemini15Pro, n, streamEnv, oracle);
  }

  /** The first sample call that raises is the exception of the gathering. */
  lemma GatherFirstError(oracle: Call -> Result<Sample>, family: Family, requests: seq<Request>, j: nat)
    requires j < |requests| && SampleResult(oracle, family, j, requests[j]).Err?
    requires forall i :: 0 <= i < j ==> SampleResult(oracle, family, i, requests[i]).Ok?
    ensures Gather(oracle, family, requests) == Err(SampleResult(oracle, family, j, requests[j]).error)
  {
    var g := Gather(oracle, family, requests);
    var w :| 0 <= w < |requests| && SampleResult(oracle, family, w, requests[w]) == Err(g.error)
             && forall i :: 0 <= i < w ==> SampleResult(oracle, family, i, requests[i]).Ok?;
    assert w == j;
  }

  /** Once the branch is prepared, a raising sample call makes the call raise. */
  lemma GatherFailed(messages: seq<Message>, model: Model, n: int, streamEnv: bool,
                     oracle: Call -> Result<Sample>)
    requires n > 0 && PrepareBranch(messages, model, n, streamEnv).Ok?
    requires var d := PrepareBranch(messages, model, n, streamEnv).value;
             Gather(oracle, d.family, d.requests).Err?
    ensures var d := PrepareBranch(messages, model, n, streamEnv).value;
            GetNextMessages(messages, model, n, streamEnv, oracle) == Err(Gather(oracle, d.family, d.requests).error)
  {
  }

  /** Haiku is sent text only: every message is a string, or a list of text parts. */
  lemma HaikuSendsText(messages: seq<Message>, n: int, streamEnv: bool)
    requires n > 0 && PrepareBranch(messages, Claude35Haiku, n, streamEnv).Ok?
    ensures var d := PrepareBranch(messages, Claude35Haiku, n, streamEnv).value;
            forall j, k :: 0 <= j < n && 0 <= k < |d.requests[j].messages| ==>
              TextOnlyContent(d.requests[j].messages[k].content)
  {
    var p := AnthropicPrep.Prepare(TextOnly(messages));
    assert p.Ok?;
    PrepareStrings(TextOnly(messages));
    var d := PrepareBranch(messages, Claude35Haiku, n, streamEnv).value;
    assert forall j :: 0 <= j < n ==> d.requests[j].messages == p.value.messages;
  }
}
