/** Chat messages as the adapters receive them, `text_only_messages`
    (src/llms/__init__.py:32-49) and the translation of a conversation into
    xAI chat items (src/llms/__init__.py:357-373). */
module Conversation {
  import opened Wrappers
  import opened Text

  /** The `source` of an Anthropic image part. */
  datatype ImageSource = ImageSource(data: string, mediaType: string, encoding: string)

  /** One content part, by its `type` field. */
  datatype PartBody =
    | TextPart(text: string)          // {"type": "text", "text": ...}
    | ImageUrlPart(url: string)       // {"type": "image_url", "image_url": {"url": ...}}
    | ImagePart(source: ImageSource)  // {"type": "image", "source": {...}}
    | OtherPart(kind: string)         // any other `type`, named by `kind`

  /** A part and the `type` of its `cache_control` entry, when it has one. */
  datatype Part = Part(body: PartBody, cacheControl: Option<string>)

  /** A message's `content`: a plain string or a list of parts. */
  datatype Content = StrContent(text: string) | PartsContent(parts: seq<Part>)

  datatype Message = Message(role: string, content: Content)

  // ------------------------------------------------------- text_only_messages

  /** The `text` of the text parts, in order. */
  function PartTexts(parts: seq<Part>): (r: seq<string>)
    decreases |parts|
    ensures |r| <= |parts|
  {
    if |parts| == 0 then []
    else
      var p := parts[|parts| - 1];
      PartTexts(parts[..|parts| - 1]) + (if p.body.TextPart? then [p.body.text] else [])
  }

  /** `content_strs` of one message: a string content is taken whole, even when empty. */
  function ContentTexts(c: Content): seq<string> {
    match c
    case StrContent(s) => [s]
    case PartsContent(parts) => PartTexts(parts)
  }

  /** What `text_only_messages` makes of one message, if it keeps it. */
  function TextOnlyMessage(m: Message): (r: Message)
    requires |ContentTexts(m.content)| > 0
    ensures r.role == m.role && r.content.StrContent?
    ensures m.content.StrContent? ==> r == m
  {
    Message(m.role, StrContent(Join(ContentTexts(m.content), "\n")))
  }

  /** The flattened conversation: every message becomes a string message with
      the `"\n"`-join of its texts, and a message without any text is dropped. */
  function TextOnly(ms: seq<Message>): (r: seq<Message>)
    decreases |ms|
    ensures |r| <= |ms|
    ensures forall k :: 0 <= k < |r| ==> r[k].content.StrContent?
  {
    if |ms| == 0 then []
    else
      var m := ms[|ms| - 1];
      TextOnly(ms[..|ms| - 1]) + (if |ContentTexts(m.content)| > 0 then [TextOnlyMessage(m)] else [])
  }

  /** The input positions of the messages `text_only_messages` keeps. */
  function Kept(ms: seq<Message>): seq<nat>
    decreases |ms|
  {
    if |ms| == 0 then []
    else Kept(ms[..|ms| - 1]) + (if |ContentTexts(ms[|ms| - 1].content)| > 0 then [|ms| - 1] else [])
  }

  /** The kept positions are valid, strictly increasing, and are exactly the
      messages that have some text. */
  lemma {:induction false} KeptPositions(ms: seq<Message>)
    ensures forall k :: 0 <= k < |Kept(ms)| ==> Kept(ms)[k] < |ms|
    ensures forall k, l :: 0 <= k < l < |Kept(ms)| ==> Kept(ms)[k] < Kept(ms)[l]
    ensures forall i :: 0 <= i < |ms| ==> (i in Kept(ms) <==> |ContentTexts(ms[i].content)| > 0)
    decreases |ms|
  {
    if |ms| > 0 {
      var init := ms[..|ms| - 1];
      KeptPositions(init);
      forall i | 0 <= i < |init| ensures ms[i] == init[i] { }
    }
  }

  /** Each output message is the flattening of the input message at the
      matching kept position, so it keeps that message's role. */
  lemma {:induction false} TextOnlyOrigins(ms: seq<Message>)
    ensures |Kept(ms)| == |TextOnly(ms)|
    ensures forall k :: 0 <= k < |Kept(ms)| ==>
              Kept(ms)[k] < |ms|
              && |ContentTexts(ms[Kept(ms)[k]].content)| > 0
              && TextOnly(ms)[k] == TextOnlyMessage(ms[Kept(ms)[k]])
              && TextOnly(ms)[k].role == ms[Kept(ms)[k]].role
    decreases |ms|
  {
    if |ms| > 0 {
      var init := ms[..|ms| - 1];
      var m := ms[|ms| - 1];
      TextOnlyOrigins(init);
      KeptPositions(init);
      var ks, ts := Kept(init), TextOnly(init);
      forall k | 0 <= k < |ks| ensures ms[ks[k]] == init[ks[k]] { }
      if |ContentTexts(m.content)| > 0 {
        assert Kept(ms) == ks + [|ms| - 1];
        assert TextOnly(ms) == ts + [TextOnlyMessage(m)];
      } else {
        assert Kept(ms) == ks;
        assert TextOnly(ms) == ts;
      }
    }
  }

  /** A conversation of string messages passes through unchanged. */
  lemma {:induction false} TextOnlyStrings(ms: seq<Message>)
    requires forall k :: 0 <= k < |ms| ==> ms[k].content.StrContent?
    ensures TextOnly(ms) == ms
    decreases |ms|
  {
    if |ms| > 0 {
      var init := ms[..|ms| - 1];
      TextOnlyStrings(init);
      assert ms == init + [ms[|ms| - 1]];
    }
  }

  /** Flattening twice is flattening once. */
  lemma TextOnlyIdempotent(ms: seq<Message>)
    ensures TextOnly(TextOnly(ms)) == TextOnly(ms)
  {
    TextOnlyStrings(TextOnly(ms));
  }

  /** The loop of `text_only_messages`. */
  method TextOnlyMessages(messages: seq<Message>) returns (newMessages: seq<Message>)
    ensures newMessages == TextOnly(messages)
  {
    newMessages := [];
    var i := 0;
    while i < |messages|
      invariant 0 <= i <= |messages|
      invariant newMessages == TextOnly(messages[..i])
    {
      TextOnlyPrefix(messages, i);
      var message := messages[i];
      var contentStrs := ContentStrings(message);
      if |contentStrs| > 0 {
        newMessages := newMessages + [Message(message.role, StrContent(Join(contentStrs, "\n")))];
      }
      i := i + 1;
    }
    assert messages[..i] == messages;
  }

  /** One more message of the input: it is flattened and appended, or dropped. */
  lemma TextOnlyPrefix(ms: seq<Message>, i: nat)
    requires i < |ms|
    ensures TextOnly(ms[..i + 1]) == TextOnly(ms[..i])
              + (if |ContentTexts(ms[i].content)| > 0 then [TextOnlyMessage(ms[i])] else [])
  {
    assert ms[..i + 1][..i] == ms[..i];
  }

  /** `content_strs` of one message, built by the inner loop. */
  method ContentStrings(message: Message) returns (contentStrs: seq<string>)
    ensures contentStrs == ContentTexts(message.content)
  {
    contentStrs := [];
    match message.content {
      case StrContent(s) =>
        contentStrs := contentStrs + [s];
      case PartsContent(parts) =>
        var j := 0;
        while j < |parts|
          invariant 0 <= j <= |parts|
          invariant contentStrs == PartTexts(parts[..j])
        {
          assert parts[..j + 1][..j] == parts[..j];
          if parts[j].body.TextPart? {
            contentStrs := contentStrs + [parts[j].body.text];
          }
          j := j + 1;
        }
        assert parts[..j] == parts;
    }
  }

  // ------------------------------------------------------------ xAI chat items

  datatype XaiRole = XaiSystem | XaiUser | XaiAssistant

  /** `role(text)` or `role(image(url))` appended to the xAI chat. */
  datatype XaiItem = XaiText(role: XaiRole, text: string) | XaiImage(role: XaiRole, url: string)

  function XaiRoleOf(role: string): (r: Result<XaiRole>)
    ensures r.Ok? <==> role in {"system", "user", "assistant"}
    ensures r.Err? ==> r.error.cls == ValueError
  {
    if role == "system" then Ok(XaiSystem)
    else if role == "user" then Ok(XaiUser)
    else if role == "assistant" then Ok(XaiAssistant)
    else Err(Error(ValueError, "Invalid role: " + role))
  }

  /** Only text and image_url parts have an xAI counterpart. */
  predicate XaiPartAccepted(p: Part) {
    p.body.TextPart? || p.body.ImageUrlPart?
  }

  /** The chat items of a list content, or the ValueError of its first other part. */
  function XaiParts(role: XaiRole, parts: seq<Part>): (r: Result<seq<XaiItem>>)
    decreases |parts|
    ensures r.Ok? <==> forall k :: 0 <= k < |parts| ==> XaiPartAccepted(parts[k])
    ensures r.Err? ==> r.error.cls == ValueError
    ensures r.Ok? ==> |r.value| == |parts|
    ensures r.Ok? ==> forall k :: 0 <= k < |parts| ==>
              r.value[k].role == role
              && (parts[k].body.TextPart? ==> r.value[k] == XaiText(role, parts[k].body.text))
              && (parts[k].body.ImageUrlPart? ==> r.value[k] == XaiImage(role, parts[k].body.url))
  {
    if |parts| == 0 then Ok([])
    else
      var item :- match parts[0].body
        case TextPart(t) => Ok(XaiText(role, t))
        case ImageUrlPart(u) => Ok(XaiImage(role, u))
        case ImagePart(_) => Err(Error(ValueError, "Invalid content type: image"))
        case OtherPart(kind) => Err(Error(ValueError, "Invalid content type: " + kind));
      var rest :- XaiParts(role, parts[1..]);
      assert forall k :: 1 <= k < |parts| ==> parts[k] == parts[1..][k - 1];
      Ok([item] + rest)
  }

  /** What `for content in msg["content"]` does with the content: a string is
      iterated character by character, and indexing a character by `"type"`
      raises a TypeError, so only the empty string gets through. */
  function XaiContent(role: XaiRole, c: Content): (r: Result<seq<XaiItem>>)
    ensures c.StrContent? ==> (r.Ok? <==> c.text == "")
    ensures c.StrContent? && r.Err? ==> r.error.cls == TypeError
    ensures c.StrContent? && r.Ok? ==> r.value == []
  {
    match c
    case StrContent(s) =>
      if s == "" then Ok([]) else Err(Error(TypeError, "string indices must be integers, not 'str'"))
    case PartsContent(parts) => XaiParts(role, parts)
  }

  /** A message the xAI translation accepts. */
  predicate XaiAccepted(m: Message) {
    && m.role in {"system", "user", "assistant"}
    && match m.content
       case StrContent(s) => s == ""
       case PartsContent(parts) => forall k :: 0 <= k < |parts| ==> XaiPartAccepted(parts[k])
  }

  /** The number of parts of a conversation's list contents. */
  function PartCount(ms: seq<Message>): nat
    decreases |ms|
  {
    if |ms| == 0 then 0
    else (if ms[0].content.PartsContent? then |ms[0].content.parts| else 0) + PartCount(ms[1..])
  }

  /** The xAI chat of a conversation, message by message, or the first error. */
  function XaiTranslate(ms: seq<Message>): (r: Result<seq<XaiItem>>)
    decreases |ms|
    ensures r.Ok? <==> forall i :: 0 <= i < |ms| ==> XaiAccepted(ms[i])
    ensures r.Err? ==> r.error.cls == ValueError || r.error.cls == TypeError
    ensures r.Ok? ==> |r.value| == PartCount(ms)
  {
    if |ms| == 0 then Ok([])
    else
      var role :- XaiRoleOf(ms[0].role);
      var items :- XaiContent(role, ms[0].content);
      var rest :- XaiTranslate(ms[1..]);
      assert forall i :: 1 <= i < |ms| ==> ms[i] == ms[1..][i - 1];
      Ok(items + rest)
  }

  /** A conversation that holds a non-empty string message with a valid role
      before any other fault cannot be sent to xAI, and the fault is a TypeError. */
  lemma {:induction false} XaiRejectsStringContent(ms: seq<Message>, i: nat)
    requires i < |ms| && ms[i].content.StrContent? && ms[i].content.text != ""
    requires ms[i].role in {"system", "user", "assistant"}
    requires forall j :: 0 <= j < i ==> XaiAccepted(ms[j])
    ensures XaiTranslate(ms).Err? && XaiTranslate(ms).error.cls == TypeError
    decreases i
  {
    if i > 0 {
      assert XaiAccepted(ms[0]);
      var tl := ms[1..];
      forall j | 0 <= j < i - 1 ensures XaiAccepted(tl[j]) {
        assert tl[j] == ms[j + 1];
      }
      XaiRejectsStringContent(tl, i - 1);
      var role := XaiRoleOf(ms[0].role).value;
      assert XaiContent(role, ms[0].content).Ok?;
    }
  }
}
