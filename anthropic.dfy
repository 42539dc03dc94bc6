/** The preparation of a conversation for Anthropic in `get_next_messages`
    (src/llms/__init__.py:494-527): the leading system message is taken out,
    `image_url` parts become base64 `image` parts, prompt-cache hints are kept
    on the first two parts that carry one, and the last part of the last
    message is marked `ephemeral`. The legacy `get_next_message` does only the
    first two steps (src/llms/__init__.py:812-830). */
module AnthropicPrep {
  import opened Wrappers
  import opened Text
  import opened Conversation

  const PngPrefix := "data:image/png;base64,"
  const Ephemeral := "ephemeral"

  /** An `image_url` part becomes an `image` part whose data is the URL with
      every `data:image/png;base64,` removed; other parts stay as they are. */
  function ImageRewrite(b: PartBody): (r: PartBody)
    ensures !r.ImageUrlPart?
    ensures !b.ImageUrlPart? ==> r == b
    ensures b.ImageUrlPart? ==> r.ImagePart? && r.source.mediaType == "image/png" && r.source.encoding == "base64"
  {
    match b
    case ImageUrlPart(url) => ImagePart(ImageSource(ReplaceAll(url, PngPrefix, ""), "image/png", "base64"))
    case _ => b
  }

  /** The parts that carry a `cache_control` entry. */
  function HintCount(parts: seq<Part>): (r: nat)
    decreases |parts|
    ensures r <= |parts|
  {
    if |parts| == 0 then 0
    else HintCount(parts[..|parts| - 1]) + (if parts[|parts| - 1].cacheControl.Some? then 1 else 0)
  }

  /** One part, after `seen` hints were met before it: its image is rewritten
      and its hint is deleted once it is the third or a later one. */
  function RewritePart(p: Part, seen: nat): (r: Part)
    ensures r.body == ImageRewrite(p.body)
    ensures r.cacheControl.Some? <==> p.cacheControl.Some? && seen < 2
    ensures r.cacheControl.Some? ==> r.cacheControl == p.cacheControl
  {
    Part(ImageRewrite(p.body), if p.cacheControl.Some? && seen + 1 >= 3 then None else p.cacheControl)
  }

  /** A list content, part by part, the hint counter starting at `seen`. */
  function RewriteParts(parts: seq<Part>, seen: nat): (r: seq<Part>)
    decreases |parts|
    ensures |r| == |parts|
  {
    if |parts| == 0 then []
    else
      var init := parts[..|parts| - 1];
      RewriteParts(init, seen) + [RewritePart(parts[|parts| - 1], seen + HintCount(init))]
  }

  lemma RewriteConversationSnoc(ms: seq<Message>, m: Message)
    ensures RewriteConversation(ms + [m]) == RewriteConversation(ms) + [RewriteMessage(m, HintCount(AllParts(ms)))]
  {
    assert (ms + [m])[..|ms + [m]| - 1] == ms;
  }

  /** The list parts of a conversation, message after message. */
  function AllParts(ms: seq<Message>): seq<Part>
    decreases |ms|
  {
    if |ms| == 0 then []
    else
      AllParts(ms[..|ms| - 1]) + PartsOf(ms[|ms| - 1])
  }

  /** The parts of a list content; a string content has none. */
  function PartsOf(m: Message): seq<Part> {
    if m.content.PartsContent? then m.content.parts else []
  }

  lemma AllPartsSnoc(ms: seq<Message>, m: Message)
    ensures AllParts(ms + [m]) == AllParts(ms) + PartsOf(m)
  {
    assert (ms + [m])[..|ms + [m]| - 1] == ms;
  }

  /** One message, after `seen` hints in the messages before it. */
  function RewriteMessage(m: Message, seen: nat): (r: Message)
    ensures r.role == m.role && r.content.StrContent? == m.content.StrContent?
    ensures m.content.StrContent? ==> r == m
    ensures m.content.PartsContent? ==> |r.content.parts| == |m.content.parts|
  {
    match m.content
    case StrContent(_) => m
    case PartsContent(parts) => Message(m.role, PartsContent(RewriteParts(parts, seen)))
  }

  /** The rewrite loop over the messages; one counter runs across all of them. */
  function RewriteConversation(ms: seq<Message>): (r: seq<Message>)
    decreases |ms|
    ensures |r| == |ms|
  {
    if |ms| == 0 then []
    else
      var init := ms[..|ms| - 1];
      RewriteConversation(init) + [RewriteMessage(ms[|ms| - 1], HintCount(AllParts(init)))]
  }
  /** String messages pass the rewrite untouched. */
  lemma {:induction false} RewriteStrings(ms: seq<Message>)
    requires forall k :: 0 <= k < |ms| ==> ms[k].content.StrContent?
    ensures RewriteConversation(ms) == ms
    decreases |ms|
  {
    if |ms| > 0 {
      RewriteStrings(ms[..|ms| - 1]);
      assert ms == ms[..|ms| - 1] + [ms[|ms| - 1]];
    }
  }
  /** A string, or a list of text parts only. */
  predicate TextOnlyContent(c: Content) {
    c.StrContent? || forall i :: 0 <= i < |c.parts| ==> c.parts[i].body.TextPart?
  }

  /** A conversation of strings: after any leading system message, the
      messages are sent as they are, except that the last becomes one text
      part marked `ephemeral`; everything sent is text only. */
  lemma PrepareStrings(ms: seq<Message>)
    requires forall k :: 0 <= k < |ms| ==> ms[k].content.StrContent?
    ensures Prepare(ms).Ok? <==> |ms| > 0 && |ms| > FirstSent(ms)
    ensures Prepare(ms).Ok? ==>
              var start, sent := FirstSent(ms), Prepare(ms).value.messages;
              && |sent| == |ms| - start
              && sent[..|sent| - 1] == ms[start..|ms| - 1]
              && sent[|sent| - 1] == Message(ms[|ms| - 1].role,
                   PartsContent([Part(TextPart(ms[|ms| - 1].content.text), Some(Ephemeral))]))
    ensures Prepare(ms).Ok? ==>
              forall k :: 0 <= k < |Prepare(ms).value.messages| ==> TextOnlyContent(Prepare(ms).value.messages[k].content)
  {
    if |ms| > 0 {
      var start := FirstSent(ms);
      var tail := ms[start..];
      PrepareOfStrings(ms, start, tail);
      FinalizeStrings(tail);
      if |tail| > 0 {
        TailEnds(ms, start, tail);
      }
    }
  }

  /** The tail of a string conversation is not rewritten before it is finalized. */
  lemma PrepareOfStrings(ms: seq<Message>, start: nat, tail: seq<Message>)
    requires |ms| > 0 && start == FirstSent(ms) && tail == ms[start..]
    requires forall k :: 0 <= k < |ms| ==> ms[k].content.StrContent?
    ensures forall k :: 0 <= k < |tail| ==> tail[k].content.StrContent?
    ensures Prepare(ms).Ok? <==> Finalize(tail).Ok?
    ensures Prepare(ms).Ok? ==> Prepare(ms).value.messages == Finalize(tail).value
  {
    assert forall k :: 0 <= k < |tail| ==> tail[k] == ms[start + k];
    RewriteStrings(tail);
  }

  /** Finalizing strings fails only on no message, and sends text only. */
  lemma FinalizeStrings(tail: seq<Message>)
    requires forall k :: 0 <= k < |tail| ==> tail[k].content.StrContent?
    ensures Finalize(tail).Ok? <==> |tail| > 0
    ensures Finalize(tail).Ok? ==>
              forall k :: 0 <= k < |Finalize(tail).value| ==> TextOnlyContent(Finalize(tail).value[k].content)
  {
    if |tail| > 0 {
      var sent := Finalize(tail).value;
      forall k | 0 <= k < |sent| ensures TextOnlyContent(sent[k].content) {
        if k < |tail| - 1 {
          assert sent[k] == sent[..|sent| - 1][k] == tail[k];
        }
      }
    }
  }

  lemma TailEnds(ms: seq<Message>, start: nat, tail: seq<Message>)
    requires start <= |ms| && tail == ms[start..] && |tail| > 0
    ensures tail[|tail| - 1] == ms[|ms| - 1] && tail[..|tail| - 1] == ms[start..|ms| - 1]
  {
  }

  /** The last message gets a part list (a string becomes one text part) and
      its last part the `ephemeral` hint; `[-1]` of an empty list raises. */
  function Finalize(ms: seq<Message>): (r: Result<seq<Message>>)
    ensures r.Err? <==> |ms| == 0 || ms[|ms| - 1].content == PartsContent([])
    ensures r.Err? ==> r.error.cls == IndexError
    ensures r.Ok? ==> |r.value| == |ms| > 0
    ensures r.Ok? ==> r.value[..|ms| - 1] == ms[..|ms| - 1] && r.value[|ms| - 1].role == ms[|ms| - 1].role
    ensures r.Ok? && ms[|ms| - 1].content.StrContent? ==>
              r.value[|ms| - 1].content == PartsContent([Part(TextPart(ms[|ms| - 1].content.text), Some(Ephemeral))])
    ensures r.Ok? && ms[|ms| - 1].content.PartsContent? ==>
              var ps := ms[|ms| - 1].content.parts;
              r.value[|ms| - 1].content == PartsContent(ps[..|ps| - 1] + [Part(ps[|ps| - 1].body, Some(Ephemeral))])
  {
    if |ms| == 0 then Err(Error(IndexError, "list index out of range"))
    else
      var last := ms[|ms| - 1];
      var parts := match last.content
        case StrContent(s) => [Part(TextPart(s), None)]
        case PartsContent(ps) => ps;
      if |parts| == 0 then Err(Error(IndexError, "list index out of range"))
      else
        var marked := parts[..|parts| - 1] + [Part(parts[|parts| - 1].body, Some(Ephemeral))];
        assert last.content.StrContent? ==> marked == [Part(TextPart(last.content.text), Some(Ephemeral))];
        Ok(ms[..|ms| - 1] + [Message(last.role, PartsContent(marked))])
  }

  /** What the Anthropic calls receive: the `system` argument (`None` for `[]`)
      and the messages. */
  datatype Prepared = Prepared(system: Option<Content>, messages: seq<Message>)

  /** The position of the first message that is not taken out as the system message. */
  function FirstSent(ms: seq<Message>): nat
    requires |ms| > 0
  {
    if ms[0].role == "system" then 1 else 0
  }

  /** The whole preparation; `messages[0]` of an empty conversation raises. */
  function Prepare(ms: seq<Message>): (r: Result<Prepared>)
    ensures |ms| == 0 ==> r.Err?
    ensures r.Err? ==> r.error.cls == IndexError
    ensures r.Ok? ==> |ms| > 0 && |r.value.messages| == |ms| - FirstSent(ms) > 0
    ensures r.Ok? ==> (r.value.system.Some? <==> ms[0].role == "system")
    ensures r.Ok? && r.value.system.Some? ==> r.value.system.value == ms[0].content
  {
    if |ms| == 0 then Err(Error(IndexError, "list index out of range"))
    else
      var start := FirstSent(ms);
      var sent :- Finalize(RewriteConversation(ms[start..]));
      Ok(Prepared(if start == 1 then Some(ms[0].content) else None, sent))
  }

  /** The caller's conversation afterwards: its message dicts are the ones
      rewritten, so it sees every change, up to the point of any exception. */
  function CallerView(ms: seq<Message>): (r: seq<Message>)
    ensures |r| == |ms|
    ensures |ms| > 0 && ms[0].role == "system" ==> r[0] == ms[0]
    ensures Prepare(ms).Ok? ==> r[FirstSent(ms)..] == Prepare(ms).value.messages
  {
    if |ms| == 0 then ms
    else
      var start := FirstSent(ms);
      var rewritten := RewriteConversation(ms[start..]);
      ms[..start] + match Finalize(rewritten)
                    case Ok(sent) => sent
                    case Err(_) => rewritten
  }

  // ------------------------------------------------------------------ lemmas

  lemma {:induction false} HintCountAppend(a: seq<Part>, b: seq<Part>)
    ensures HintCount(a + b) == HintCount(a) + HintCount(b)
    decreases |b|
  {
    if |b| == 0 {
      assert a + b == a;
    } else {
      assert (a + b)[..|a + b| - 1] == a + b[..|b| - 1];
      HintCountAppend(a, b[..|b| - 1]);
    }
  }

  /** Rewriting a list in two runs: the second run starts with the hints of the first. */
  lemma {:induction false} RewritePartsAppend(a: seq<Part>, b: seq<Part>, seen: nat)
    ensures RewriteParts(a + b, seen) == RewriteParts(a, seen) + RewriteParts(b, seen + HintCount(a))
    decreases |b|
  {
    if |b| == 0 {
      assert a + b == a;
    } else {
      var b' := b[..|b| - 1];
      assert (a + b)[..|a + b| - 1] == a + b';
      RewritePartsAppend(a, b', seen);
      HintCountAppend(a, b');
    }
  }

  /** Rewriting message by message is rewriting the flat list of all parts. */
  lemma {:induction false} RewriteAllParts(ms: seq<Message>)
    ensures AllParts(RewriteConversation(ms)) == RewriteParts(AllParts(ms), 0)
    decreases |ms|
  {
    if |ms| > 0 {
      var init := ms[..|ms| - 1];
      var m := ms[|ms| - 1];
      assert ms == init + [m];
      RewriteConversationSnoc(init, m);
      RewriteAllParts(init);
      PartsOfRewrite(m, HintCount(AllParts(init)));
      RewriteAllPartsStep(init, m, RewriteConversation(init), RewriteMessage(m, HintCount(AllParts(init))));
    }
  }

  lemma RewriteAllPartsStep(init: seq<Message>, m: Message, ri: seq<Message>, rm: Message)
    requires PartsOf(rm) == RewriteParts(PartsOf(m), HintCount(AllParts(init)))
    requires AllParts(ri) == RewriteParts(AllParts(init), 0)
    ensures AllParts(ri + [rm]) == RewriteParts(AllParts(init + [m]), 0)
  {
    AllPartsSnoc(ri, rm);
    RewritePartsSnoc(init, m);
  }

  /** The rewrite of all parts, one more message at the end. */
  lemma RewritePartsSnoc(init: seq<Message>, m: Message)
    ensures RewriteParts(AllParts(init + [m]), 0)
            == RewriteParts(AllParts(init), 0) + RewriteParts(PartsOf(m), HintCount(AllParts(init)))
  {
    AllPartsSnoc(init, m);
    RewritePartsAppend(AllParts(init), PartsOf(m), 0);
  }



  /** The parts of a rewritten message are the rewritten parts. */
  lemma PartsOfRewrite(m: Message, seen: nat)
    ensures PartsOf(RewriteMessage(m, seen)) == RewriteParts(PartsOf(m), seen)
  {
    if m.content.StrContent? {
      assert RewriteParts([], seen) == [];
    }
  }



  /** Part k of a rewritten list: the image is rewritten, and the hint stays
      exactly when fewer than two hints came before it. */
  lemma {:induction false} RewritePartsAt(parts: seq<Part>, seen: nat, k: nat)
    requires k < |parts|
    ensures RewriteParts(parts, seen)[k].body == ImageRewrite(parts[k].body)
    ensures RewriteParts(parts, seen)[k].cacheControl.Some? <==>
              parts[k].cacheControl.Some? && seen + HintCount(parts[..k]) < 2
    ensures RewriteParts(parts, seen)[k].cacheControl.Some? ==>
              RewriteParts(parts, seen)[k].cacheControl == parts[k].cacheControl
    decreases |parts|
  {
    var init := parts[..|parts| - 1];
    if k < |parts| - 1 {
      RewritePartsAt(init, seen, k);
      assert init[..k] == parts[..k];
    } else {
      assert init == parts[..k];
    }
  }

  /** Among the rewritten parts at most two hints are left: as many as there
      were, capped at two minus those already seen. */
  lemma {:induction false} RewriteHintCount(parts: seq<Part>, seen: nat)
    ensures HintCount(RewriteParts(parts, seen)) == (if seen >= 2 then 0 else Min(2 - seen, HintCount(parts)))
    decreases |parts|
  {
    if |parts| > 0 {
      var init := parts[..|parts| - 1];
      var r := RewriteParts(parts, seen);
      assert r[..|r| - 1] == RewriteParts(init, seen);
      RewriteHintCount(init, seen);
    }
  }

  /** No `image_url` part is left after the rewrite. */
  lemma NoImageUrlLeft(ms: seq<Message>)
    ensures forall k :: 0 <= k < |AllParts(RewriteConversation(ms))| ==>
              !AllParts(RewriteConversation(ms))[k].body.ImageUrlPart?
  {
    RewriteAllParts(ms);
    forall k | 0 <= k < |AllParts(RewriteConversation(ms))|
      ensures !AllParts(RewriteConversation(ms))[k].body.ImageUrlPart?
    {
      RewritePartsAt(AllParts(ms), 0, k);
    }
  }

  /** A data URL's image data is what follows the prefix. */
  lemma ImageData(rest: string)
    requires !Contains(rest, PngPrefix)
    ensures ImageRewrite(ImageUrlPart(PngPrefix + rest)) == ImagePart(ImageSource(rest, "image/png", "base64"))
  {
    ReplaceAllLeading(PngPrefix, rest, "");
    ReplaceAllAbsent(rest, PngPrefix, "");
  }

  /** Finalizing puts the `ephemeral` hint on the last part of the last
      message and adds at most that one hint to the flat list of parts. */
  lemma FinalizeHints(rw: seq<Message>)
    requires Finalize(rw).Ok?
    ensures var sent := Finalize(rw).value;
            sent[|sent| - 1].content.PartsContent?
            && |sent[|sent| - 1].content.parts| > 0
            && sent[|sent| - 1].content.parts[|sent[|sent| - 1].content.parts| - 1].cacheControl == Some(Ephemeral)
    ensures var all := AllParts(Finalize(rw).value);
            |all| > 0 && HintCount(all[..|all| - 1]) <= HintCount(AllParts(rw))
            && HintCount(all) <= HintCount(AllParts(rw)) + 1
  {
    var sent := Finalize(rw).value;
    var init := rw[..|rw| - 1];
    var last := rw[|rw| - 1];
    assert sent[..|sent| - 1] == init;
    var lastParts := sent[|sent| - 1].content.parts;
    assert rw == init + [last];
    // the flat parts: those of the earlier messages, then the last message's
    var before := AllParts(init);
    assert AllParts(sent) == before + lastParts;
    var lastOld := if last.content.PartsContent? then last.content.parts else [];
    assert AllParts(rw) == before + lastOld;
    if last.content.PartsContent? {
      MarkedHints(last.content.parts, lastParts);
    }
    HintsAfterMark(before, lastOld, lastParts);
  }

  /** Marking the last part adds at most one hint, and the parts before it
      carry no more hints than the whole list had. */
  lemma MarkedHints(ps: seq<Part>, marked: seq<Part>)
    requires |ps| > 0 && marked == ps[..|ps| - 1] + [Part(ps[|ps| - 1].body, Some(Ephemeral))]
    ensures HintCount(marked[..|marked| - 1]) <= HintCount(ps)
    ensures HintCount(marked) <= HintCount(ps) + 1
  {
    var init := ps[..|ps| - 1];
    assert marked[..|marked| - 1] == init;
    assert HintCount(ps) >= HintCount(init);
    assert HintCount(marked) == HintCount(init) + 1;
  }

  /** The hint bounds of the last message carry over to the whole conversation. */
  lemma HintsAfterMark(before: seq<Part>, lastOld: seq<Part>, lastParts: seq<Part>)
    requires |lastParts| > 0
    requires HintCount(lastParts[..|lastParts| - 1]) <= HintCount(lastOld)
    requires HintCount(lastParts) <= HintCount(lastOld) + 1
    ensures var all := before + lastParts;
            HintCount(all[..|all| - 1]) <= HintCount(before + lastOld)
            && HintCount(all) <= HintCount(before + lastOld) + 1
  {
    var all := before + lastParts;
    assert all[..|all| - 1] == before + lastParts[..|lastParts| - 1];
    HintCountAppend(before, lastOld);
    HintCountAppend(before, lastParts[..|lastParts| - 1]);
    HintCountAppend(before, lastParts);
  }

  /** Finalizing twice is finalizing once: the hint is already on the last part. */
  lemma FinalizeIdempotent(ms: seq<Message>)
    requires Finalize(ms).Ok?
    ensures Finalize(Finalize(ms).value) == Finalize(ms)
  {
    var sent := Finalize(ms).value;
    var ps := sent[|sent| - 1].content.parts;
    assert ps[..|ps| - 1] + [Part(ps[|ps| - 1].body, Some(Ephemeral))] == ps;
    assert sent[..|sent| - 1] + [sent[|sent| - 1]] == sent;
  }

  /** In the prepared conversation the last part of the last message carries
      the `ephemeral` hint, and at most two other parts carry one. */
  lemma PreparedHints(ms: seq<Message>)
    requires Prepare(ms).Ok?
    ensures var sent := Prepare(ms).value.messages;
            |sent| > 0 && sent[|sent| - 1].content.PartsContent?
            && |sent[|sent| - 1].content.parts| > 0
            && sent[|sent| - 1].content.parts[|sent[|sent| - 1].content.parts| - 1].cacheControl == Some(Ephemeral)
    ensures var all := AllParts(Prepare(ms).value.messages);
            |all| > 0 && HintCount(all[..|all| - 1]) <= 2 && HintCount(all) <= 3
  {
    var rest := ms[FirstSent(ms)..];
    var rw := RewriteConversation(rest);
    assert Prepare(ms).value.messages == Finalize(rw).value;
    RewriteAllParts(rest);
    RewriteHintCount(AllParts(rest), 0);
    assert HintCount(AllParts(rw)) <= 2;
    FinalizeHints(rw);
  }

  /** When the preparation fails, it is an IndexError, and it fails exactly
      for an empty conversation, a lone system message, or a last message
      whose part list is empty. */
  lemma PrepareFails(ms: seq<Message>)
    ensures Prepare(ms).Err? ==> Prepare(ms).error.cls == IndexError
    ensures Prepare(ms).Err? <==>
              |ms| == 0 || |ms| == FirstSent(ms)
              || ms[|ms| - 1].content == PartsContent([])
  {
    if |ms| > 0 {
      var rest := ms[FirstSent(ms)..];
      var rw := RewriteConversation(rest);
      if |rest| > 0 {
        assert rest[|rest| - 1] == ms[|ms| - 1];
        assert rw[|rw| - 1] == RewriteMessage(rest[|rest| - 1], HintCount(AllParts(rest[..|rest| - 1])));
      }
    }
  }

  /** A leading system message is passed on separately and is not sent among
      the messages; every sent message keeps the role of the one it came from. */
  lemma PrepareSystem(ms: seq<Message>)
    requires Prepare(ms).Ok?
    ensures ms[0].role == "system" ==> Prepare(ms).value.system == Some(ms[0].content)
    ensures ms[0].role != "system" ==> Prepare(ms).value.system.None?
    ensures |Prepare(ms).value.messages| == |ms| - FirstSent(ms)
    ensures forall k :: 0 <= k < |Prepare(ms).value.messages| ==>
              Prepare(ms).value.messages[k].role == ms[FirstSent(ms) + k].role
  {
    var rest := ms[FirstSent(ms)..];
    var rw := RewriteConversation(rest);
    RewriteRoles(rest);
    FinalizeRoles(rw);
    assert Prepare(ms).value.messages == Finalize(rw).value;
  }

  /** Finalizing keeps every message's role. */
  lemma FinalizeRoles(ms: seq<Message>)
    requires Finalize(ms).Ok?
    ensures forall k :: 0 <= k < |ms| ==> Finalize(ms).value[k].role == ms[k].role
  {
    var r := Finalize(ms).value;
    forall k | 0 <= k < |ms| ensures r[k].role == ms[k].role {
      if k < |ms| - 1 {
        assert r[k] == r[..|ms| - 1][k];
      }
    }
  }

  lemma {:induction false} RewriteRoles(ms: seq<Message>)
    ensures forall k :: 0 <= k < |ms| ==> RewriteConversation(ms)[k].role == ms[k].role
    decreases |ms|
  {
    if |ms| > 0 {
      RewriteRoles(ms[..|ms| - 1]);
    }
  }

  // ------------------------------------------------------ in place, on the caller's list

  /** The inner loop of lines 506-521 over one list content: `seen` is the
      counter on entry, `count` on exit. */
  method RewritePartsLoop(parts: seq<Part>, seen: nat) returns (newParts: seq<Part>, count: nat)
    ensures newParts == RewriteParts(parts, seen)
    ensures count == seen + HintCount(parts)
  {
    newParts := [];
    count := seen;
    var j := 0;
    while j < |parts|
      invariant 0 <= j <= |parts|
      invariant newParts == RewriteParts(parts[..j], seen)
      invariant count == seen + HintCount(parts[..j])
    {
      assert parts[..j + 1][..j] == parts[..j];
      var content := parts[j];
      var body := content.body;
      if body.ImageUrlPart? {
        body := ImagePart(ImageSource(ReplaceAll(body.url, PngPrefix, ""), "image/png", "base64"));
      }
      var hint := content.cacheControl;
      if hint.Some? {
        count := count + 1;
        if count >= 3 {
          hint := None;
        }
      }
      newParts := newParts + [Part(body, hint)];
      j := j + 1;
    }
    assert parts[..j] == parts;
  }

  /** The caller's list and the hint counter while the outer loop is at `i`:
      each of the messages from `start` up to `i` was replaced, in turn, by
      its rewrite, and the counter moved past its hints. */
  ghost function InLoop(orig: seq<Message>, start: nat, i: nat): (r: (seq<Message>, nat))
    requires start <= i <= |orig|
    ensures |r.0| == |orig|
    decreases i
  {
    if i == start then (orig, 0)
    else
      var (ms, count) := InLoop(orig, start, i - 1);
      (ms[i - 1 := RewriteMessage(orig[i - 1], count)], count + HintCount(PartsOf(orig[i - 1])))
  }

  /** The state at `i`: the messages from `start` up to `i` rewritten, the
      others as they were, and the counter at the hints of the rewritten ones. */
  lemma {:induction false} InLoopIs(orig: seq<Message>, start: nat, i: nat, done: seq<Message>)
    requires start <= i <= |orig| && done == orig[start..i]
    ensures InLoop(orig, start, i).0 == orig[..start] + RewriteConversation(done) + orig[i..]
    decreases i
  {
    if i == start {
      InLoopIsFirst(orig, start);
      assert InLoop(orig, start, i).0 == orig[..start] + RewriteConversation(done) + orig[i..];
    } else {
      var before := orig[start..i - 1];
      InLoopIs(orig, start, i - 1, before);
      InLoopCount(orig, start, i - 1);
      InLoopIsNext(orig, start, i, done, before);
    }
  }

  /** One more pass extends the rewritten stretch by one message. */
  lemma InLoopIsNext(orig: seq<Message>, start: nat, i: nat, done: seq<Message>, before: seq<Message>)
    requires start < i <= |orig| && done == orig[start..i] && before == orig[start..i - 1]
    requires InLoop(orig, start, i - 1).0 == orig[..start] + RewriteConversation(before) + orig[i - 1..]
    requires InLoop(orig, start, i - 1).1 == HintCount(AllParts(before))
    ensures InLoop(orig, start, i).0 == orig[..start] + RewriteConversation(done) + orig[i..]
  {
    DoneSnoc(orig, start, i, done, before);
    RewriteConversationSnoc(before, orig[i - 1]);
    InLoopIsStep(orig, start, i, RewriteConversation(before), HintCount(AllParts(before)), RewriteConversation(done));
  }

  lemma DoneSnoc(orig: seq<Message>, start: nat, i: nat, done: seq<Message>, before: seq<Message>)
    requires start < i <= |orig| && done == orig[start..i] && before == orig[start..i - 1]
    ensures done == before + [orig[i - 1]]
  {
  }

  /** The counter at `i` stands at the hints of the messages from `start` up to `i`. */
  lemma {:induction false} InLoopCount(orig: seq<Message>, start: nat, i: nat)
    requires start <= i <= |orig|
    ensures InLoop(orig, start, i).1 == HintCount(AllParts(orig[start..i]))
    decreases i
  {
    if i == start {
      assert orig[start..start] == [];
    } else {
      InLoopCount(orig, start, i - 1);
      InLoopNext(orig, start, i);
      CountStep(orig, start, i);
    }
  }

  /** The counter moves past the hints of the message before `i`. */
  lemma CountStep(orig: seq<Message>, start: nat, i: nat)
    requires start < i <= |orig|
    ensures HintCount(AllParts(orig[start..i - 1])) + HintCount(PartsOf(orig[i - 1])) == HintCount(AllParts(orig[start..i]))
  {
    var done := orig[start..i - 1];
    assert orig[start..i] == done + [orig[i - 1]];
    AllPartsSnoc(done, orig[i - 1]);
    HintCountAppend(AllParts(done), PartsOf(orig[i - 1]));
  }

  lemma InLoopIsFirst(orig: seq<Message>, start: nat)
    requires start <= |orig|
    ensures InLoop(orig, start, start).0 == orig[..start] + RewriteConversation(orig[start..start]) + orig[start..]
  {
    assert orig[start..start] == [];
    assert orig[..start] + orig[start..] == orig;
  }

  lemma InLoopNext(orig: seq<Message>, start: nat, i: nat)
    requires start < i <= |orig|
    ensures InLoop(orig, start, i).0
            == InLoop(orig, start, i - 1).0[i - 1 := RewriteMessage(orig[i - 1], InLoop(orig, start, i - 1).1)]
    ensures InLoop(orig, start, i).1 == InLoop(orig, start, i - 1).1 + HintCount(PartsOf(orig[i - 1]))
  {
  }

  lemma InLoopIsStep(orig: seq<Message>, start: nat, i: nat, before: seq<Message>, seen: nat, after: seq<Message>)
    requires start < i <= |orig|
    requires |before| == i - 1 - start
    requires InLoop(orig, start, i - 1).0 == orig[..start] + before + orig[i - 1..]
    requires InLoop(orig, start, i - 1).1 == seen
    requires after == before + [RewriteMessage(orig[i - 1], seen)]
    ensures InLoop(orig, start, i).0 == orig[..start] + after + orig[i..]
  {
    InLoopNext(orig, start, i);
    UpdateAtTail(orig[..start], before, orig[i - 1..], RewriteMessage(orig[i - 1], seen));
    assert orig[i - 1..][1..] == orig[i..];
  }

  /** After the outer loop every message from `start` on is rewritten. */
  lemma InLoopEnd(orig: seq<Message>, start: nat, i: nat)
    requires start <= i == |orig|
    ensures InLoop(orig, start, i).0 == orig[..start] + RewriteConversation(orig[start..])
  {
    InLoopIs(orig, start, i, orig[start..]);
    assert orig[|orig|..] == [];
  }

  /** Position `i` still holds the original message. */
  lemma NotYetRewritten(orig: seq<Message>, start: nat, i: nat)
    requires start <= i < |orig|
    ensures InLoop(orig, start, i).0[i] == orig[i]
  {
    InLoopIs(orig, start, i, orig[start..i]);
  }

  lemma UpdateAtTail(a: seq<Message>, b: seq<Message>, c: seq<Message>, v: Message)
    requires |c| > 0
    ensures (a + b + c)[|a| + |b| := v] == a + (b + [v]) + c[1..]
  {
  }

  /** The body of the outer loop on one message: a list content is rewritten
      by the inner loop, which moves the counter past its hints. */
  method RewriteMessageLoop(message: Message, seen: nat) returns (newMessage: Message, count: nat)
    ensures newMessage == RewriteMessage(message, seen)
    ensures count == seen + HintCount(PartsOf(message))
  {
    newMessage := message;
    count := seen;
    if message.content.PartsContent? {
      var newParts;
      newParts, count := RewritePartsLoop(message.content.parts, seen);
      newMessage := Message(message.role, PartsContent(newParts));
    }
  }

  /** The outer loop of lines 503-521 over the caller's messages from `start` on. */
  method RewriteInPlace(conv: array<Message>, start: nat)
    requires start <= conv.Length
    modifies conv
    ensures conv[..] == old(conv[..])[..start] + RewriteConversation(old(conv[..])[start..])
  {
    ghost var orig := conv[..];
    RewriteLoop(conv, orig, start);
    InLoopEnd(orig, start, conv.Length);
  }

  /** The loop itself: it ends with every message from `start` on rewritten. */
  method RewriteLoop(conv: array<Message>, ghost orig: seq<Message>, start: nat)
    requires start <= conv.Length && conv[..] == orig
    modifies conv
    ensures conv.Length == |orig| && conv[..] == InLoop(orig, start, |orig|).0
  {
    var cacheControlCount := 0;
    var i := start;
    while i < conv.Length
      invariant start <= i <= conv.Length == |orig|
      invariant (conv[..], cacheControlCount) == InLoop(orig, start, i)
    {
      cacheControlCount := RewriteAt(conv, orig, start, i, cacheControlCount);
      i := i + 1;
    }
  }

  /** One pass of the outer loop: message `i` is rewritten in place. */
  method RewriteAt(conv: array<Message>, ghost orig: seq<Message>, start: nat, i: nat, seen: nat)
    returns (count: nat)
    requires start <= i < conv.Length == |orig|
    requires (conv[..], seen) == InLoop(orig, start, i)
    modifies conv
    ensures (conv[..], count) == InLoop(orig, start, i + 1)
  {
    NotYetRewritten(orig, start, i);
    var newMessage;
    newMessage, count := RewriteMessageLoop(conv[i], seen);
    conv[i] := newMessage;
  }

  /** Lines 523-527 on the caller's list: the last part of the last message
      from `start` on gets the `ephemeral` hint, in place. */
  method FinalizeInPlace(conv: array<Message>, start: nat) returns (r: Result<seq<Message>>)
    requires start <= conv.Length
    modifies conv
    ensures r == Finalize(old(conv[start..]))
    ensures conv[..] == old(conv[..start]) + match r
                                             case Ok(sent) => sent
                                             case Err(_) => old(conv[start..])
  {
    ghost var orig := conv[..];
    assert orig == orig[..start] + orig[start..];
    if conv.Length == start {
      return Err(Error(IndexError, "list index out of range"));
    }
    var last := conv[conv.Length - 1];
    var parts := match last.content
      case StrContent(s) => [Part(TextPart(s), None)]
      case PartsContent(ps) => ps;
    if |parts| == 0 {
      return Err(Error(IndexError, "list index out of range"));
    }
    var marked := parts[..|parts| - 1] + [Part(parts[|parts| - 1].body, Some(Ephemeral))];
    var m := Message(last.role, PartsContent(marked));
    conv[conv.Length - 1] := m;
    UpdateLast(orig[..start], orig[start..], m);
    FinalizeMarks(orig[start..], parts, m);
    r := Ok(conv[start..]);
  }

  /** `Finalize` replaces the last message by its marked form. */
  lemma FinalizeMarks(ms: seq<Message>, parts: seq<Part>, m: Message)
    requires |ms| > 0 && |parts| > 0
    requires parts == match ms[|ms| - 1].content
                      case StrContent(s) => [Part(TextPart(s), None)]
                      case PartsContent(ps) => ps
    requires m == Message(ms[|ms| - 1].role,
                          PartsContent(parts[..|parts| - 1] + [Part(parts[|parts| - 1].body, Some(Ephemeral))]))
    ensures Finalize(ms) == Ok(ms[..|ms| - 1] + [m])
  {
  }

  lemma UpdateLast(a: seq<Message>, b: seq<Message>, v: Message)
    requires |b| > 0
    ensures (a + b)[|a| + |b| - 1 := v] == a + (b[..|b| - 1] + [v])
  {
  }

  /** Lines 494-527 on the caller's own message list: the list given to the
      calls is a slice of it holding the caller's message dicts, so the caller
      sees every change, up to the point of any exception. */
  method PrepareInPlace(conv: array<Message>) returns (r: Result<Prepared>)
    modifies conv
    ensures r == Prepare(old(conv[..]))
    ensures conv[..] == CallerView(old(conv[..]))
  {
    if conv.Length == 0 {
      return Err(Error(IndexError, "list index out of range"));
    }
    ghost var orig := conv[..];
    var start := if conv[0].role == "system" then 1 else 0;
    assert start == FirstSent(orig);
    var system := if start == 1 then Some(conv[0].content) else None;
    RewriteInPlace(conv, start);
    assert conv[..start] == orig[..start];
    var sent :- FinalizeInPlace(conv, start);
    r := Ok(Prepared(system, sent));
  }

  // -------------------------------------------------------------- legacy path

  /** Lines 812-830: only the image rewrite, hints untouched. */
  function LegacyRewrite(ms: seq<Message>): (r: seq<Message>)
    ensures |r| == |ms|
    ensures forall k :: 0 <= k < |ms| ==> r[k].role == ms[k].role
    ensures forall k :: 0 <= k < |ms| ==> ms[k].content.StrContent? ==> r[k] == ms[k]
    ensures forall k :: 0 <= k < |ms| ==> ms[k].content.PartsContent? ==>
              r[k].content.PartsContent? && |r[k].content.parts| == |ms[k].content.parts|
              && forall j :: 0 <= j < |ms[k].content.parts| ==>
                   r[k].content.parts[j] == Part(ImageRewrite(ms[k].content.parts[j].body),
                                                  ms[k].content.parts[j].cacheControl)
  {
    seq(|ms|, k requires 0 <= k < |ms| =>
      match ms[k].content
      case StrContent(_) => ms[k]
      case PartsContent(ps) =>
        Message(ms[k].role, PartsContent(seq(|ps|, j requires 0 <= j < |ps| =>
          Part(ImageRewrite(ps[j].body), ps[j].cacheControl)))))
  }

  /** The legacy preparation: the system message taken out, then the rewrite. */
  function LegacyPrepare(ms: seq<Message>): (r: Result<Prepared>)
    ensures r.Err? <==> |ms| == 0
  {
    if |ms| == 0 then Err(Error(IndexError, "list index out of range"))
    else
      var start := FirstSent(ms);
      Ok(Prepared(if start == 1 then Some(ms[0].content) else None, LegacyRewrite(ms[start..])))
  }
}
