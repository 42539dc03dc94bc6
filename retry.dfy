/** The retry controllers around the provider calls (src/llms/__init__.py).
    A call is an oracle: `outcome(k)` is what attempt `k` (counted from 0)
    yields, the provider's reply already decoded by its adapter, or the
    exception raised on the way. Sleeping is recorded as a wait in seconds. */
module Retry {
  import opened Wrappers
  import opened Text
  import opened Usage
  import opened Streaming

  /** Whose `while True` loop runs: they differ in what ends a run early. */
  datatype Provider = AnthropicProvider | OpenAIProvider | XaiProvider | GeminiProvider

  const InvalidKey := "invalid x-api-key"

  /** Anthropic gives up on a non-rate-limit error naming an invalid key
      (lines 117-136), Gemini on any such error (lines 470-479); OpenAI and
      xAI retry every exception (lines 319-330, 414-425). */
  predicate GivesUp(p: Provider, e: Error) {
    match p
    case AnthropicProvider => e.cls != RateLimitError && Contains(e.message, InvalidKey)
    case GeminiProvider => Contains(e.message, InvalidKey)
    case OpenAIProvider => false
    case XaiProvider => false
  }

  /** The default `max_retries` of each loop. */
  function DefaultMaxRetries(p: Provider): int {
    match p
    case AnthropicProvider => 200
    case OpenAIProvider => 3
    case XaiProvider => 0
    case GeminiProvider => 200
  }

  const DefaultRetrySecs := 15

  /** What one run of a loop shows: its result (`None` when it gives up), the
      attempts made and the waits between them. */
  datatype Run = Run(result: Option<Sample>, attempts: nat, waits: seq<nat>)

  /** The loop from `retry_count == count` on: an exception increments the
      counter, and the run ends with `None` once it reaches `max_retries`. */
  function RetryFrom(p: Provider, outcome: nat -> Result<Sample>, maxRetries: int, retrySecs: nat, count: nat): (run: Run)
    decreases if count < maxRetries then maxRetries - count else 0
    ensures run.attempts >= 1 && |run.waits| == run.attempts - 1
  {
    match outcome(count)
    case Ok(s) => Run(Some(s), 1, [])
    case Err(e) =>
      if GivesUp(p, e) || count + 1 >= maxRetries then Run(None, 1, [])
      else
        var rest := RetryFrom(p, outcome, maxRetries, retrySecs, count + 1);
        Run(rest.result, rest.attempts + 1, [retrySecs] + rest.waits)
  }

  /** A run whose first `n` attempts failed and waited `waits` before going on like `run`. */
  function After(n: nat, waits: seq<nat>, run: Run): Run {
    Run(run.result, n + run.attempts, waits + run.waits)
  }

  /** A failed attempt that neither gives up nor exhausts the budget is followed by the rest of the loop. */
  lemma RetryStep(p: Provider, outcome: nat -> Result<Sample>, maxRetries: int, retrySecs: nat,
                  count: nat, waits: seq<nat>)
    requires outcome(count).Err? && !GivesUp(p, outcome(count).error) && count + 1 < maxRetries
    ensures After(count, waits, RetryFrom(p, outcome, maxRetries, retrySecs, count))
            == After(count + 1, waits + [retrySecs], RetryFrom(p, outcome, maxRetries, retrySecs, count + 1))
  {
    var rest := RetryFrom(p, outcome, maxRetries, retrySecs, count + 1);
    assert waits + ([retrySecs] + rest.waits) == (waits + [retrySecs]) + rest.waits;
  }

  /** An attempt that succeeds, gives up or exhausts the budget ends the run there. */
  lemma RetryStops(p: Provider, outcome: nat -> Result<Sample>, maxRetries: int, retrySecs: nat,
                   count: nat, waits: seq<nat>)
    requires outcome(count).Err? ==> GivesUp(p, outcome(count).error) || count + 1 >= maxRetries
    ensures After(count, waits, RetryFrom(p, outcome, maxRetries, retrySecs, count))
            == Run(if outcome(count).Ok? then Some(outcome(count).value) else None, count + 1, waits)
  {
    assert waits + [] == waits;
  }

  /** The `while True` loop of `get_next_message_{anthropic,openai,xai,gemini}`. */
  method RunWithRetries(p: Provider, outcome: nat -> Result<Sample>, maxRetries: int, retrySecs: nat)
    returns (run: Run)
    ensures run == RetryFrom(p, outcome, maxRetries, retrySecs, 0)
  {
    var retryCount: nat := 0;
    var waits: seq<nat> := [];
    ghost var whole := RetryFrom(p, outcome, maxRetries, retrySecs, 0);
    assert [] + whole.waits == whole.waits;
    while true
      invariant whole == After(retryCount, waits, RetryFrom(p, outcome, maxRetries, retrySecs, retryCount))
      decreases if retryCount < maxRetries then maxRetries - retryCount else 0
    {
      var r := outcome(retryCount);
      if r.Ok? {
        RetryStops(p, outcome, maxRetries, retrySecs, retryCount, waits);
        return Run(Some(r.value), retryCount + 1, waits);
      }
      if GivesUp(p, r.error) {
        RetryStops(p, outcome, maxRetries, retrySecs, retryCount, waits);
        return Run(None, retryCount + 1, waits);
      }
      retryCount := retryCount + 1;
      if retryCount >= maxRetries {
        RetryStops(p, outcome, maxRetries, retrySecs, retryCount - 1, waits);
        return Run(None, retryCount, waits);
      }
      RetryStep(p, outcome, maxRetries, retrySecs, retryCount - 1, waits);
      waits := waits + [retrySecs];
    }
  }

  /** Every attempt fails without a reason to give up: `max(1, M)` attempts,
      each but the last followed by a wait of `retry_secs`, and `None`. */
  lemma {:induction false} AlwaysFailing(p: Provider, outcome: nat -> Result<Sample>, maxRetries: int, retrySecs: nat, count: nat)
    requires forall k: nat :: outcome(k).Err? && !GivesUp(p, outcome(k).error)
    ensures var run := RetryFrom(p, outcome, maxRetries, retrySecs, count);
            && run.result.None?
            && run.attempts == (if count + 1 < maxRetries then maxRetries - count else 1)
            && run.waits == seq(run.attempts - 1, _ => retrySecs)
    decreases if count < maxRetries then maxRetries - count else 0
  {
    if count + 1 < maxRetries {
      AlwaysFailing(p, outcome, maxRetries, retrySecs, count + 1);
    }
  }

  /** With `max_retries <= 1`, xAI's default 0 among them, exactly one attempt is made. */
  lemma SingleAttempt(p: Provider, outcome: nat -> Result<Sample>, maxRetries: int, retrySecs: nat)
    requires maxRetries <= 1
    ensures RetryFrom(p, outcome, maxRetries, retrySecs, 0).attempts == 1
    ensures RetryFrom(p, outcome, maxRetries, retrySecs, 0).waits == []
    ensures RetryFrom(p, outcome, maxRetries, retrySecs, 0).result.Some? <==> outcome(0).Ok?
  {
  }

  /** An invalid key ends the run after that one attempt, with `None`. */
  lemma InvalidKeyStops(p: Provider, outcome: nat -> Result<Sample>, maxRetries: int, retrySecs: nat, count: nat)
    requires p == AnthropicProvider || p == GeminiProvider
    requires outcome(count).Err? && Contains(outcome(count).error.message, InvalidKey)
    requires p == AnthropicProvider ==> outcome(count).error.cls != RateLimitError
    ensures RetryFrom(p, outcome, maxRetries, retrySecs, count) == Run(None, 1, [])
  {
  }

  /** The first success within the budget is what the run returns. */
  lemma {:induction false} FirstSuccess(p: Provider, outcome: nat -> Result<Sample>, maxRetries: int, retrySecs: nat, count: nat, k: nat)
    requires count <= k && outcome(k).Ok?
    requires k == count || k < maxRetries
    requires forall j: nat :: count <= j < k ==> outcome(j).Err? && !GivesUp(p, outcome(j).error)
    ensures RetryFrom(p, outcome, maxRetries, retrySecs, count)
            == Run(Some(outcome(k).value), k - count + 1, seq(k - count, _ => retrySecs))
    decreases k - count
  {
    if count < k {
      FirstSuccess(p, outcome, maxRetries, retrySecs, count + 1, k);
    }
  }

  /** Any run: every wait is `retry_secs`, at most `max(1, M)` attempts are
      made, all but the last failed without giving up, and a result is the
      last attempt's sample. */
  lemma {:induction false} RunShape(p: Provider, outcome: nat -> Result<Sample>, maxRetries: int, retrySecs: nat, count: nat)
    ensures var run := RetryFrom(p, outcome, maxRetries, retrySecs, count);
            && run.waits == seq(run.attempts - 1, _ => retrySecs)
            && (run.attempts == 1 || count + run.attempts <= maxRetries)
            && (forall j: nat :: count <= j < count + run.attempts - 1 ==>
                  outcome(j).Err? && !GivesUp(p, outcome(j).error))
            && (run.result.Some? <==> outcome(count + run.attempts - 1).Ok?)
            && (run.result.Some? ==> run.result.value == outcome(count + run.attempts - 1).value)
    decreases if count < maxRetries then maxRetries - count else 0
  {
    match outcome(count)
    case Ok(_) =>
    case Err(e) =>
      if !(GivesUp(p, e) || count + 1 >= maxRetries) {
        RunShape(p, outcome, maxRetries, retrySecs, count + 1);
      }
  }

  // ------------------------------------------------------------------ DeepSeek

  const MaxContextLength := 65536
  const DeepSeekMaxTokens := 8192

  /** `params["max_tokens"]` before the first attempt (lines 151-170). */
  function InitialMaxTokens(useBaseten: bool): int {
    if useBaseten then 30000 else DeepSeekMaxTokens
  }

  /** The prompt size an error message states (lines 225-235): the text
      between the first `(` and the following ` in the messages`, if `int()`
      accepts it; `None` for an IndexError or ValueError, which are ignored. */
  function PromptTokensOf(msg: string): (r: Option<int>)
    ensures !Contains(msg, "tokens (") ==> r.None?
  {
    if !Contains(msg, "tokens (") then None
    else
      var pieces := Split(msg, "(");
      if |pieces| < 2 then None
      else ParseInt(Split(pieces[1], Marker)[0])
  }

  /** What an error does to the request: nothing, a new `max_tokens`, or an
      immediate `None` when no completion token is left (lines 230-232). */
  datatype Shrink = KeepMaxTokens | SetMaxTokens(tokens: int) | NoRoomLeft

  function ShrinkOf(msg: string): (r: Shrink)
    ensures r.KeepMaxTokens? <==> PromptTokensOf(msg).None?
    ensures r.NoRoomLeft? <==> PromptTokensOf(msg).Some? && PromptTokensOf(msg).value >= MaxContextLength
    ensures r.SetMaxTokens? ==> r.tokens == Min(DeepSeekMaxTokens, MaxContextLength - PromptTokensOf(msg).value)
    ensures r.SetMaxTokens? ==> 0 < r.tokens <= DeepSeekMaxTokens
  {
    match PromptTokensOf(msg)
    case None => KeepMaxTokens
    case Some(p) =>
      if MaxContextLength - p <= 0 then NoRoomLeft
      else SetMaxTokens(Min(DeepSeekMaxTokens, MaxContextLength - p))
  }

  /** The `max_tokens` of the next attempt after a shrink that leaves room. */
  function NextMaxTokens(s: Shrink, maxTokens: int): (r: int)
    requires !s.NoRoomLeft?
    requires s.SetMaxTokens? ==> 0 < s.tokens <= DeepSeekMaxTokens
    ensures s.SetMaxTokens? ==> r == s.tokens
    ensures s.KeepMaxTokens? ==> r == maxTokens
    ensures r == maxTokens || 0 < r <= DeepSeekMaxTokens
  {
    if s.SetMaxTokens? then s.tokens else maxTokens
  }

  /** A DeepSeek run also records the `max_tokens` each attempt was made with. */
  datatype DeepSeekRun = DeepSeekRun(result: Option<Sample>, attempts: nat, waits: seq<nat>, maxTokens: seq<int>)

  /** A classifier of error messages whose shrinks never leave the range
      `ShrinkOf` keeps to. */
  ghost predicate ShrinksBounded(shrinkOf: string -> Shrink) {
    forall m :: shrinkOf(m).SetMaxTokens? ==> 0 < shrinkOf(m).tokens <= DeepSeekMaxTokens
  }

  /** The loop of `get_next_message_deepseek` (lines 171-244); `outcome(k, m)`
      is attempt `k` made with `max_tokens == m`, and `shrinkOf` reads an
      error message (the program uses `ShrinkOf`; the loop's properties hold
      for any bounded classifier). */
  function DeepSeekFrom(outcome: (nat, int) -> Result<Sample>, shrinkOf: string -> Shrink,
                        maxRetries: int, retrySecs: nat, count: nat, maxTokens: int): (run: DeepSeekRun)
    requires ShrinksBounded(shrinkOf)
    decreases if count < maxRetries then maxRetries - count else 0
    ensures run.attempts >= 1 && |run.waits| == run.attempts - 1 && |run.maxTokens| == run.attempts
    ensures run.maxTokens[0] == maxTokens
  {
    match outcome(count, maxTokens)
    case Ok(s) => DeepSeekRun(Some(s), 1, [], [maxTokens])
    case Err(e) =>
      var shrink := shrinkOf(e.message);
      if shrink.NoRoomLeft? || count + 1 >= maxRetries then DeepSeekRun(None, 1, [], [maxTokens])
      else
        var rest := DeepSeekFrom(outcome, shrinkOf, maxRetries, retrySecs, count + 1, NextMaxTokens(shrink, maxTokens));
        DeepSeekRun(rest.result, rest.attempts + 1, [retrySecs] + rest.waits, [maxTokens] + rest.maxTokens)
  }

  /** `get_next_message_deepseek` from its first attempt. */
  function GetNextMessageDeepSeek(outcome: (nat, int) -> Result<Sample>, maxRetries: int, retrySecs: nat,
                                  useBaseten: bool): (run: DeepSeekRun)
    ensures |run.maxTokens| > 0 && run.maxTokens[0] == (if useBaseten then 30000 else 8192)
  {
    DeepSeekFrom(outcome, ShrinkOf, maxRetries, retrySecs, 0, InitialMaxTokens(useBaseten))
  }

  const Marker := " in the messages"

  /** The first `(` of `pre + "tokens (" + rest` is the one after `tokens`. */
  lemma FirstParen(pre: string, rest: string)
    requires '(' !in pre
    ensures FindFrom(pre + "tokens (" + rest, "(", 0) == Some(|pre| + 7)
  {
    var msg := pre + "tokens (" + rest;
    var i := |pre| + 7;
    assert OccursAt(msg, "(", i) by { assert msg[i..i + 1] == "("; }
    forall j: nat | j < i ensures !OccursAt(msg, "(", j) {
      assert msg[j..j + 1] == [msg[j]];
      if j < |pre| {
        assert msg[j] == pre[j];
      } else {
        assert msg[j] == "tokens ("[j - |pre|];
      }
    }
    FindFromAt(msg, "(", 0, i);
  }

  /** The piece of `d + Marker + post` before its first `(` still starts with
      `d + Marker` when `d` has no `(`. */
  lemma PieceKeepsMarker(d: string, post: string)
    requires forall k :: 0 <= k < |d| ==> d[k] != '('
    ensures var piece := Split(d + Marker + post, "(")[0];
            |piece| >= |d| + |Marker| && piece[..|d| + |Marker|] == d + Marker
  {
    var tail := d + Marker + post;
    var stop := |d| + |Marker|;
    forall j: nat | j < stop ensures !OccursAt(tail, "(", j) {
      assert tail[j..j + 1] == [tail[j]];
      if j < |d| {
        assert tail[j] == d[j];
      } else {
        assert tail[j] == Marker[j - |d|];
      }
    }
    match FindFrom(tail, "(", 0)
    case None =>
    case Some(k) =>
      assert tail[..k][..stop] == tail[..stop];
  }

  /** A piece that starts with `d + Marker`, `d` without spaces, splits on
      `Marker` to `d` first. */
  lemma MarkerEndsDigits(d: string, piece: string)
    requires |piece| >= |d| + |Marker| && piece[..|d| + |Marker|] == d + Marker
    requires forall k :: 0 <= k < |d| ==> d[k] != ' '
    ensures Split(piece, Marker)[0] == d
  {
    assert OccursAt(piece, Marker, |d|) by {
      assert piece[|d|..|d| + |Marker|] == piece[..|d| + |Marker|][|d|..];
    }
    forall j: nat | j < |d| ensures !OccursAt(piece, Marker, j) {
      assert piece[j] == piece[..|d| + |Marker|][j] == d[j];
      if OccursAt(piece, Marker, j) {
        OccursAtIndex(piece, Marker, j, 0);
        assert false;
      }
    }
    FindFromAt(piece, Marker, 0, |d|);
    assert piece[..|d|] == piece[..|d| + |Marker|][..|d|];
  }

  /** The context-length message gives its prompt size back: from
      `...tokens (p in the messages...` the parse yields `p`. */
  lemma PromptTokensParsed(pre: string, p: int, post: string)
    requires '(' !in pre
    ensures PromptTokensOf(pre + "tokens (" + IntToString(p) + Marker + post) == Some(p)
  {
    var d := IntToString(p);
    var tail := d + Marker + post;
    var msg := pre + "tokens (" + tail;
    Regroup(pre + "tokens (", d, Marker, post);
    AfterTokensParen(pre, tail);
    PieceKeepsMarker(d, post);
    MarkerEndsDigits(d, Split(tail, "(")[0]);
    ParseIntToString(p);
    PromptTokensFromPieces(msg, Split(tail, "(")[0], d, p);
  }

  lemma Regroup(a: string, b: string, c: string, d: string)
    ensures a + b + c + d == a + (b + c + d)
  {
  }

  /** In `pre + "tokens (" + tail` the second piece split on `(` is the first of `tail`. */
  lemma AfterTokensParen(pre: string, tail: string)
    requires '(' !in pre
    ensures var msg := pre + "tokens (" + tail;
            Contains(msg, "tokens (") && |Split(msg, "(")| >= 2
            && Split(msg, "(")[1] == Split(tail, "(")[0]
  {
    var msg := pre + "tokens (" + tail;
    assert OccursAt(msg, "tokens (", |pre|) by { assert msg[|pre|..|pre| + 8] == "tokens ("; }
    OccursAtContains(msg, "tokens (", |pre|);
    FirstParen(pre, tail);
    assert msg[|pre| + 8..] == tail;
  }

  /** The parse from the pieces the splits give. */
  lemma PromptTokensFromPieces(msg: string, piece: string, d: string, p: int)
    requires Contains(msg, "tokens (") && |Split(msg, "(")| >= 2 && Split(msg, "(")[1] == piece
    requires Split(piece, Marker)[0] == d && ParseInt(d) == Some(p)
    ensures PromptTokensOf(msg) == Some(p)
  {
  }

  /** A shrink sets the next attempt's `max_tokens`; an unparsable message leaves it. */
  lemma DeepSeekNextMaxTokens(outcome: (nat, int) -> Result<Sample>, maxRetries: int, retrySecs: nat,
                              count: nat, maxTokens: int)
    requires outcome(count, maxTokens).Err?
    requires DeepSeekFrom(outcome, ShrinkOf, maxRetries, retrySecs, count, maxTokens).attempts > 1
    ensures var s := ShrinkOf(outcome(count, maxTokens).error.message);
            var next := DeepSeekFrom(outcome, ShrinkOf, maxRetries, retrySecs, count, maxTokens).maxTokens[1];
            && !s.NoRoomLeft?
            && (s.SetMaxTokens? ==> next == s.tokens)
            && (s.KeepMaxTokens? ==> next == maxTokens)
  {
  }

  /** The shrink a context-length message asks for: room for `min(8192, 65536 - p)`
      completion tokens, or none at all. */
  lemma ShrinkOfMessage(pre: string, p: int, post: string)
    requires '(' !in pre
    ensures var r := ShrinkOf(pre + "tokens (" + IntToString(p) + Marker + post);
            && (p < MaxContextLength ==> r == SetMaxTokens(Min(DeepSeekMaxTokens, MaxContextLength - p)))
            && (p >= MaxContextLength ==> r == NoRoomLeft)
  {
    PromptTokensParsed(pre, p, post);
  }

  /** From the error text to the next request: after `...tokens (p in the messages...`
      with `p < 65536`, the next attempt is made with `max_tokens == min(8192, 65536 - p)`;
      with `p >= 65536` the run ends at once with `None`. */
  lemma DeepSeekShrinksTo(outcome: (nat, int) -> Result<Sample>, maxRetries: int, retrySecs: nat,
                          count: nat, maxTokens: int, pre: string, p: int, post: string)
    requires '(' !in pre
    requires outcome(count, maxTokens).Err?
    requires outcome(count, maxTokens).error.message == pre + "tokens (" + IntToString(p) + Marker + post
    ensures var run := DeepSeekFrom(outcome, ShrinkOf, maxRetries, retrySecs, count, maxTokens);
            && (p < MaxContextLength && count + 1 < maxRetries ==>
                  run.attempts > 1 && run.maxTokens[1] == Min(DeepSeekMaxTokens, MaxContextLength - p))
            && (p >= MaxContextLength ==> run == DeepSeekRun(None, 1, [], [maxTokens]))
  {
    ShrinkOfMessage(pre, p, post);
  }

  /** No completion token left: the run ends at once, with `None`. */
  lemma DeepSeekNoRoom(outcome: (nat, int) -> Result<Sample>, maxRetries: int, retrySecs: nat,
                       count: nat, maxTokens: int)
    requires outcome(count, maxTokens).Err?
    requires PromptTokensOf(outcome(count, maxTokens).error.message).Some?
    requires PromptTokensOf(outcome(count, maxTokens).error.message).value >= MaxContextLength
    ensures DeepSeekFrom(outcome, ShrinkOf, maxRetries, retrySecs, count, maxTokens)
            == DeepSeekRun(None, 1, [], [maxTokens])
  {
  }

  /** Any DeepSeek run: at most `max(1, M)` attempts, waits of `retry_secs`
      between them, and a sample exactly when the last attempt succeeded. */
  lemma {:induction false} DeepSeekShape(outcome: (nat, int) -> Result<Sample>, shrinkOf: string -> Shrink, maxRetries: int, retrySecs: nat,
                                         count: nat, maxTokens: int)
    requires ShrinksBounded(shrinkOf)
    ensures var run := DeepSeekFrom(outcome, shrinkOf, maxRetries, retrySecs, count, maxTokens);
            && (forall k :: 0 <= k < |run.waits| ==> run.waits[k] == retrySecs)
            && (run.attempts == 1 || count + run.attempts <= maxRetries)
            && (run.result.Some? <==> outcome(count + run.attempts - 1, run.maxTokens[run.attempts - 1]).Ok?)
    decreases if count < maxRetries then maxRetries - count else 0
  {
    var run := DeepSeekFrom(outcome, shrinkOf, maxRetries, retrySecs, count, maxTokens);
    match outcome(count, maxTokens)
    case Ok(_) =>
    case Err(e) =>
      var s := shrinkOf(e.message);
      if !s.NoRoomLeft? && count + 1 < maxRetries {
        var next := NextMaxTokens(s, maxTokens);
        DeepSeekShape(outcome, shrinkOf, maxRetries, retrySecs, count + 1, next);
        var rest := DeepSeekFrom(outcome, shrinkOf, maxRetries, retrySecs, count + 1, next);
        assert run == DeepSeekRun(rest.result, rest.attempts + 1, [retrySecs] + rest.waits, [maxTokens] + rest.maxTokens);
        assert run.maxTokens[run.attempts - 1] == rest.maxTokens[rest.attempts - 1];
      }
  }

  /** Every `max_tokens` after the first is the one before it or a shrink to
      a positive size of at most 8192. */
  predicate TokensStepwise(ms: seq<int>) {
    forall k :: 0 < k < |ms| ==> ms[k] == ms[k - 1] || 0 < ms[k] <= DeepSeekMaxTokens
  }

  /** The `max_tokens` values of any DeepSeek run change only by shrinks. */
  lemma {:induction false} DeepSeekTokens(outcome: (nat, int) -> Result<Sample>, shrinkOf: string -> Shrink, maxRetries: int, retrySecs: nat,
                                          count: nat, maxTokens: int)
    requires ShrinksBounded(shrinkOf)
    ensures TokensStepwise(DeepSeekFrom(outcome, shrinkOf, maxRetries, retrySecs, count, maxTokens).maxTokens)
    decreases if count < maxRetries then maxRetries - count else 0
  {
    var run := DeepSeekFrom(outcome, shrinkOf, maxRetries, retrySecs, count, maxTokens);
    match outcome(count, maxTokens)
    case Ok(_) =>
    case Err(e) =>
      var s := shrinkOf(e.message);
      if !s.NoRoomLeft? && count + 1 < maxRetries {
        var next := NextMaxTokens(s, maxTokens);
        DeepSeekTokens(outcome, shrinkOf, maxRetries, retrySecs, count + 1, next);
        var rest := DeepSeekFrom(outcome, shrinkOf, maxRetries, retrySecs, count + 1, next);
        assert run.maxTokens == [maxTokens] + rest.maxTokens;
        assert rest.maxTokens[0] == next;
        forall k | 0 < k < |run.maxTokens|
          ensures run.maxTokens[k] == run.maxTokens[k - 1] || 0 < run.maxTokens[k] <= DeepSeekMaxTokens
        {
          if k > 1 {
            assert run.maxTokens[k] == rest.maxTokens[k - 1] && run.maxTokens[k - 1] == rest.maxTokens[k - 2];
          }
        }
      }
  }

  // ------------------------------------------------------ legacy Anthropic path

  /** The canned reply of `get_next_message` when `NO_WIFI` is 1 (lines 803-809). */
  const NoWifiText := "[[1, 2, 3], [4, 5, 6]]"

  const LegacyMaxRetries := 12
  const LegacyWaitSecs := 15

  /** A legacy run: the value or the exception `get_next_message` ends with. */
  datatype LegacyRun = LegacyRun(result: Result<Sample>, attempts: nat, waits: seq<nat>)

  /** Lines 832-853: only a RateLimitError is retried, and it is re-raised once
      the counter reaches 12; the reply's last content block is read after the
      loop, where nothing catches its IndexError. */
  function LegacyFrom(outcome: nat -> Result<AnthropicReply>, count: nat): (run: LegacyRun)
    requires count < LegacyMaxRetries
    decreases LegacyMaxRetries - count
    ensures run.attempts >= 1 && |run.waits| == run.attempts - 1
    ensures count + run.attempts <= LegacyMaxRetries
  {
    match outcome(count)
    case Ok(reply) => LegacyRun(DecodeAnthropic(reply), 1, [])
    case Err(e) =>
      if e.cls != RateLimitError || count + 1 >= LegacyMaxRetries then LegacyRun(Err(e), 1, [])
      else
        var rest := LegacyFrom(outcome, count + 1);
        LegacyRun(rest.result, rest.attempts + 1, [LegacyWaitSecs] + rest.waits)
  }

  /** `int(os.environ.get("NO_WIFI", 0))`: unset reads as 0, and a value
      `int()` rejects raises a ValueError. */
  function NoWifiFlag(env: Option<string>): (r: Result<int>)
    ensures env.None? ==> r == Ok(0)
    ensures r.Err? <==> env.Some? && ParseInt(env.value).None?
    ensures r.Err? ==> r.error.cls == ValueError
    ensures env.Some? && r.Ok? ==> ParseInt(env.value) == Some(r.value)
  {
    match env
    case None => Ok(0)
    case Some(s) =>
      match ParseInt(s)
      case None => Err(Error(ValueError, "invalid literal for int() with base 10"))
      case Some(v) => Ok(v)
  }

  /** The legacy call for an Anthropic model: the canned reply without any
      attempt when `NO_WIFI` is 1, otherwise the retry loop. */
  function LegacyGetNextMessage(noWifi: Option<string>, outcome: nat -> Result<AnthropicReply>): (run: LegacyRun)
    ensures run.attempts == 0 <==> NoWifiFlag(noWifi).Err? || NoWifiFlag(noWifi) == Ok(1)
    ensures NoWifiFlag(noWifi).Err? ==> run.result == Err(NoWifiFlag(noWifi).error)
    ensures NoWifiFlag(noWifi) == Ok(1) ==> run.result == Ok(Sample(NoWifiText, Some(ZeroUsage)))
    ensures run.attempts <= LegacyMaxRetries
  {
    match NoWifiFlag(noWifi)
    case Err(e) => LegacyRun(Err(e), 0, [])
    case Ok(flag) =>
      if flag == 1 then LegacyRun(Ok(Sample(NoWifiText, Some(ZeroUsage))), 0, [])
      else LegacyFrom(outcome, 0)
  }

  lemma NoWifiCanned(outcome: nat -> Result<AnthropicReply>)
    ensures LegacyGetNextMessage(Some("1"), outcome) == LegacyRun(Ok(Sample(NoWifiText, Some(ZeroUsage))), 0, [])
  {
    ParseIntToString(1);
    assert IntToString(1) == "1";
  }

  /** Anything but a RateLimitError is raised at once. */
  lemma LegacyOtherErrorRaised(outcome: nat -> Result<AnthropicReply>, count: nat)
    requires count < LegacyMaxRetries
    requires outcome(count).Err? && outcome(count).error.cls != RateLimitError
    ensures LegacyFrom(outcome, count) == LegacyRun(Err(outcome(count).error), 1, [])
  {
  }

  /** Rate limited throughout: twelve attempts, eleven waits of 15 seconds,
      and the twelfth RateLimitError is raised. */
  lemma {:induction false} LegacyRateLimitReRaised(outcome: nat -> Result<AnthropicReply>, count: nat)
    requires count < LegacyMaxRetries
    requires forall k: nat :: outcome(k).Err? && outcome(k).error.cls == RateLimitError
    ensures LegacyFrom(outcome, count)
            == LegacyRun(Err(outcome(LegacyMaxRetries - 1).error),
                         LegacyMaxRetries - count, seq(LegacyMaxRetries - count - 1, _ => LegacyWaitSecs))
    decreases LegacyMaxRetries - count
  {
    if count + 1 < LegacyMaxRetries {
      LegacyRateLimitReRaised(outcome, count + 1);
    }
  }

  // ------------------------------------------------------- OpenRouter wrapper

  /** Lines 766-774: the error text names a rate limit, an upstream failure or
      an empty reply. */
  predicate ShouldRetry(msg: string) {
    || Contains(msg, "429")
    || Contains(Lower(msg), "rate")
    || Contains(msg, "502")
    || Contains(Lower(msg), "upstream")
    || Contains(Lower(msg), "no choices")
  }

  function Pow2(n: nat): (r: nat)
    ensures r >= 1
  {
    if n == 0 then 1 else 2 * Pow2(n - 1)
  }

  /** `2 ** retry * 10` seconds: 10 before the second attempt, doubling after each further failure. */
  function BackoffSecs(retry: nat): (r: nat)
    ensures retry == 0 ==> r == 10
    ensures r >= 10
  {
    Pow2(retry) * 10
  }

  /** Each backoff after the first is twice the one before. */
  lemma BackoffDoubles(retry: nat)
    requires retry > 0
    ensures BackoffSecs(retry) == 2 * BackoffSecs(retry - 1)
  {
    assert Pow2(retry) == 2 * Pow2(retry - 1);
  }

  /** A wrapper run: the value returned (`None` only when no attempt is
      allowed) or the exception re-raised. */
  datatype WrapperRun = WrapperRun(result: Result<Option<Sample>>, attempts: nat, waits: seq<nat>)

  /** `for retry in range(max_retries)` of `get_message_with_retry` from `retry` on. */
  function WrapperFrom(outcome: nat -> Result<Sample>, maxRetries: int, retry: nat): (run: WrapperRun)
    decreases if retry < maxRetries then maxRetries - retry else 0
    ensures run.attempts == 0 <==> retry >= maxRetries
    ensures run.attempts == 0 ==> run.result == Ok(None) && run.waits == []
    ensures run.attempts > 0 ==> |run.waits| == run.attempts - 1
  {
    if retry >= maxRetries then WrapperRun(Ok(None), 0, [])
    else
      match outcome(retry)
      case Ok(s) => WrapperRun(Ok(Some(s)), 1, [])
      case Err(e) =>
        if ShouldRetry(e.message) && retry < maxRetries - 1 then
          var rest := WrapperFrom(outcome, maxRetries, retry + 1);
          WrapperRun(rest.result, rest.attempts + 1, [BackoffSecs(retry)] + rest.waits)
        else WrapperRun(Err(e), 1, [])
  }

  /** A wrapper run that follows `n` earlier attempts and their `waits`. */
  function WrapperAfter(n: nat, waits: seq<nat>, run: WrapperRun): WrapperRun {
    WrapperRun(run.result, n + run.attempts, waits + run.waits)
  }

  /** A retried failure moves one attempt and one backoff from the run into its prefix. */
  lemma WrapperStep(outcome: nat -> Result<Sample>, maxRetries: int, retry: nat, waits: seq<nat>)
    requires retry < maxRetries - 1
    requires outcome(retry).Err? && ShouldRetry(outcome(retry).error.message)
    ensures WrapperAfter(retry, waits, WrapperFrom(outcome, maxRetries, retry))
            == WrapperAfter(retry + 1, waits + [BackoffSecs(retry)], WrapperFrom(outcome, maxRetries, retry + 1))
  {
    var rest := WrapperFrom(outcome, maxRetries, retry + 1);
    assert waits + ([BackoffSecs(retry)] + rest.waits) == waits + [BackoffSecs(retry)] + rest.waits;
  }

  /** The wrapper's loop. */
  method MessageWithRetry(outcome: nat -> Result<Sample>, maxRetries: int) returns (run: WrapperRun)
    ensures run == WrapperFrom(outcome, maxRetries, 0)
  {
    var retry: nat := 0;
    var waits: seq<nat> := [];
    assert WrapperAfter(0, [], WrapperFrom(outcome, maxRetries, 0)) == WrapperFrom(outcome, maxRetries, 0) by {
      assert [] + WrapperFrom(outcome, maxRetries, 0).waits == WrapperFrom(outcome, maxRetries, 0).waits;
    }
    while retry < maxRetries
      invariant WrapperFrom(outcome, maxRetries, 0) == WrapperAfter(retry, waits, WrapperFrom(outcome, maxRetries, retry))
      decreases maxRetries - retry
    {
      var r := outcome(retry);
      if r.Ok? {
        return WrapperRun(Ok(Some(r.value)), retry + 1, waits);
      }
      if ShouldRetry(r.error.message) {
        if retry < maxRetries - 1 {
          WrapperStep(outcome, maxRetries, retry, waits);
          waits := waits + [BackoffSecs(retry)];
        } else {
          return WrapperRun(Err(r.error), retry + 1, waits);
        }
      } else {
        return WrapperRun(Err(r.error), retry + 1, waits);
      }
      retry := retry + 1;
    }
    run := WrapperRun(Ok(None), retry, waits);
  }

  /** No attempt allowed: `None`, nothing called. */
  lemma WrapperNoAttempts(outcome: nat -> Result<Sample>, maxRetries: int)
    requires maxRetries <= 0
    ensures WrapperFrom(outcome, maxRetries, 0) == WrapperRun(Ok(None), 0, [])
  {
  }

  /** The backoffs of `n` retried failures from `retry` on: 10, 20, 40, ... seconds. */
  function Backoffs(retry: nat, n: nat): (r: seq<nat>)
    decreases n
    ensures |r| == n
    ensures forall j :: 0 <= j < n ==> r[j] == BackoffSecs(retry + j)
  {
    if n == 0 then [] else [BackoffSecs(retry)] + Backoffs(retry + 1, n - 1)
  }

  /** Retryable failures throughout: `M` attempts, the backoffs between them,
      and the last failure re-raised. */
  lemma {:induction false} WrapperRetryableFailures(outcome: nat -> Result<Sample>, maxRetries: int, retry: nat)
    requires retry < maxRetries
    requires forall k: nat :: outcome(k).Err? && ShouldRetry(outcome(k).error.message)
    ensures WrapperFrom(outcome, maxRetries, retry)
            == WrapperRun(Err(outcome(maxRetries - 1).error), maxRetries - retry, Backoffs(retry, maxRetries - retry - 1))
    decreases maxRetries - retry
  {
    var n: nat := maxRetries - retry - 1;
    if retry < maxRetries - 1 {
      WrapperRetryableFailures(outcome, maxRetries, retry + 1);
      WrapperRetried(outcome, maxRetries, retry);
      assert Backoffs(retry, n) == [BackoffSecs(retry)] + Backoffs(retry + 1, n - 1);
    } else {
      assert Backoffs(retry, n) == [];
    }
  }

  /** A retried failure: one attempt and one backoff more than the rest of the loop. */
  lemma WrapperRetried(outcome: nat -> Result<Sample>, maxRetries: int, retry: nat)
    requires retry < maxRetries - 1
    requires outcome(retry).Err? && ShouldRetry(outcome(retry).error.message)
    ensures var rest := WrapperFrom(outcome, maxRetries, retry + 1);
            WrapperFrom(outcome, maxRetries, retry) == WrapperRun(rest.result, rest.attempts + 1, [BackoffSecs(retry)] + rest.waits)
  {
  }

  /** Any other error is re-raised after that one attempt. */
  lemma WrapperNonRetryable(outcome: nat -> Result<Sample>, maxRetries: int, retry: nat)
    requires retry < maxRetries
    requires outcome(retry).Err? && !ShouldRetry(outcome(retry).error.message)
    ensures WrapperFrom(outcome, maxRetries, retry) == WrapperRun(Err(outcome(retry).error), 1, [])
  {
  }

  /** An error text that spells `rate` in lower case is retried. */
  lemma RateRetried(pre: string, post: string)
    ensures ShouldRetry(pre + "rate" + post)
  {
    var msg := pre + "rate" + post;
    assert msg[|pre|..|pre| + 4] == "rate";
    LowerOccurs(msg, "rate", |pre|);
    OccursAtContains(Lower(msg), "rate", |pre|);
  }

  /** Wherever `rate` occurs in an error text, the text is retried. */
  lemma RateRetriedAt(msg: string, i: nat)
    requires i + 4 <= |msg| && msg[i..i + 4] == "rate"
    ensures ShouldRetry(msg)
  {
    assert msg == msg[..i] + "rate" + msg[i + 4..];
    RateRetried(msg[..i], msg[i + 4..]);
  }

  /** The errors the OpenRouter adapter raises for an empty reply (lines 960, 1017). */
  const NoChoicesError := "OpenRouter API returned no choices. Check API key, rate limits, or model availability."
  const NoContentError := "OpenRouter API returned no content. Check API key, rate limits, or model availability."

  /** The empty-reply errors are retried by the wrapper: both spell `rate`
      (in "rate limits") from position 51 on. */
  lemma NoChoicesRetried()
    ensures ShouldRetry(NoChoicesError)
  {
    var a := NoChoicesError;
    assert a[51] == 'r' && a[52] == 'a' && a[53] == 't' && a[54] == 'e';
    assert a[51..55] == "rate";
    RateRetriedAt(a, 51);
  }

  lemma NoContentRetried()
    ensures ShouldRetry(NoContentError)
  {
    var b := NoContentError;
    assert b[51] == 'r' && b[52] == 'a' && b[53] == 't' && b[54] == 'e';
    assert b[51..55] == "rate";
    RateRetriedAt(b, 51);
  }

  /** `attempt_counter`: each wrapper draws the next number under the lock. */
  class AttemptCounter {
    var count: nat

    constructor ()
      ensures count == 0
    {
      count := 0;
    }

    method Next() returns (attemptNum: nat)
      modifies this
      ensures count == old(count) + 1 && attemptNum == count
    {
      count := count + 1;
      attemptNum := count;
    }
  }

  /** The numbers drawn by `n` wrappers, one after another, are strictly increasing. */
  method DrawAttemptNumbers(counter: AttemptCounter, n: nat) returns (nums: seq<nat>)
    modifies counter
    ensures |nums| == n && counter.count == old(counter.count) + n
    ensures forall k :: 0 <= k < n ==> nums[k] == old(counter.count) + k + 1
    ensures forall k, l :: 0 <= k < l < n ==> nums[k] < nums[l]
  {
    nums := [];
    var i := 0;
    while i < n
      invariant 0 <= i <= n && |nums| == i
      invariant counter.count == old(counter.count) + i
      invariant forall k :: 0 <= k < i ==> nums[k] == old(counter.count) + k + 1
    {
      var a := counter.Next();
      nums := nums + [a];
      i := i + 1;
    }
  }
}
