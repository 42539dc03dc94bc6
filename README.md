# ARC-AGI solver core: LLM fan-out, reply parsing and task loading

This project is a Dafny model of the part of the ARC-AGI solver that talks to
language models and loads tasks. The solver asks language models to write
Python `transform` programs for ARC grid puzzles. The model covers:

- the message preparation and fan-out of `get_next_messages`
  (`src/llms/__init__.py`). It picks an adapter by model, prepares the
  conversation once, requests `n_times` samples and keeps those that came back;
- the Anthropic translation with its prompt-cache hints, the conversation
  flattening `text_only_messages`, the xAI and Gemini translations, and the
  renaming of a leading system message to `developer` for OpenAI;
- the per-provider adapters, which turn a batched or streamed reply into text
  and a `ModelUsage`, and their retry loops. These cover the DeepSeek
  context-window shrink, the legacy Anthropic loop of `get_next_message` and
  OpenRouter's `get_message_with_retry` with its backoff and attempt counter;
- `remove_thinking`, `clean_code`, `parse_python_backticks` and
  `parse_2d_arrays_from_string`, which recover a program or grids from a reply;
- `build_dummy_solutions`, `build_challenges` and `build_challenges_v2`
  (`src/data.py`), which merge challenge and solution files into task records.

Modules follow the program's structure:

- `Wrappers` holds `Option`, `Result` with a Python exception class, and
  `Collect`, "the values or the first exception".
- `Text` holds the Python string built-ins the code relies on: `find`,
  `split`, `join`, `replace`, `strip`, `lower`, `int()` and `str()` on
  integers.
- `Usage`, `Thinking`, `Streaming`, `Conversation`, `AnthropicPrep`,
  `Retry`, `CodeParser`, `Fanout`, `GridParser` and `Data` each model one part
  of the two source files.

The model follows these rules:

- Remote calls are oracles. A function from the attempt number (and, for
  DeepSeek, the `max_tokens` in force) gives the decoded reply or the
  exception the call raised.
- Sleeping is recorded as a list of waits in seconds.
- Environment variables (`STREAM_LLM`, `NO_WIFI`, `TOTAL_TASKS`) are
  parameters.
- An exception is an `Err` that carries its Python class.

Loops that the source writes as loops are Dafny methods, each proved equal to
the function that specifies it. Examples:

- `Conversation.TextOnlyMessages`;
- `AnthropicPrep.PrepareInPlace`, which works on the caller's message list,
  held in an array;
- `Streaming.ConsumeStream`;
- `Retry.RunWithRetries`;
- `GridParser.Parse2dArraysFromString`;
- `Data.MergeLoop`.

The source and its description disagree in two places. The model follows the
code in both:

- `get_next_messages` has no `return` in its DeepSeek branch, so that branch
  returns `None`.
- The `TOTAL_TASKS` early exit in `build_challenges` compares an `int` with a
  `str` key, so it never fires. The `int()` conversion still runs once per
  task, so a non-numeric value raises `ValueError`.

## Model

| member | source | states |
|---|---|---|
| Text.Split | src/llms/__init__.py:1174 | `split` on a non-empty separator gives one piece more than there are occurrences; no piece holds the separator, and joining the pieces gives back the string |
| Text.StripIdempotent | src/llms/__init__.py:1174 | `strip` applied twice is `strip` applied once |
| Text.ParseIntToString | src/llms/__init__.py:1174 | `int(str(i)) == i` for every integer |
| Text.ReplaceCharRemovesIt | src/llms/__init__.py:1123-1124 | after replacing a character by text without it, the character does not occur |
| Usage.Normalize | src/llms/__init__.py:459-465 | cached tokens are reported apart from input tokens; cached + input equals the provider's prompt count, output equals the completion count, cache creation is 0 |
| Usage.NormalizeRaw | src/llms/__init__.py:179-185 | an OpenAI-style usage object converts under each of the three ways the adapters read cached tokens; it fails exactly when the unguarded read meets missing details (AttributeError) or a read other than `or 0` meets a missing count (TypeError); on success cached + input equals the prompt count and a reported cached count is used |
| Thinking.RemoveThinking | src/llms/__init__.py:28-29 | removing `<think>…</think>` regions never lengthens the text |
| Thinking.NoThinkingUnchanged | src/llms/__init__.py:28-29 | text without `<think>` is unchanged, and the DeepSeek stream text is then just stripped |
| Thinking.UnclosedThinkingKept | src/llms/__init__.py:28-29 | a `<think>` with no later `</think>` is kept, together with everything after it |
| Thinking.RemoveFirstRegion | src/llms/__init__.py:28-29 | the first `<think>` up to the first `</think>` after it is removed (non-greedy), and the scan continues after it |
| Thinking.RemoveRegions | src/llms/__init__.py:28-29 | deleting the regions of any literal open and close tag never lengthens the text |
| Thinking.DeepSeekText | src/llms/__init__.py:212 | the DeepSeek stream text has no surrounding whitespace left to strip |
| Conversation.PartTexts | src/llms/__init__.py:39-44 | the texts of the text parts, no more of them than parts |
| Conversation.TextOnlyMessage | src/llms/__init__.py:32-49 | a flattened message keeps its role and has string content; a string message passes through unchanged |
| Conversation.TextOnly | src/llms/__init__.py:32-49 | every kept message has string content; no more messages come out than went in |
| Conversation.KeptPositions | src/llms/__init__.py:32-49 | the kept positions are increasing and are exactly the messages that have some text |
| Conversation.TextOnlyOrigins | src/llms/__init__.py:32-49 | output message k is input message `Kept[k]` with the same role, its texts joined by a newline |
| Conversation.TextOnlyStrings | src/llms/__init__.py:32-49 | a conversation of string messages passes through unchanged |
| Conversation.TextOnlyIdempotent | src/llms/__init__.py:32-49 | flattening twice is flattening once |
| Conversation.TextOnlyMessages | src/llms/__init__.py:32-49 | the loop builds exactly the flattened conversation |
| Conversation.ContentStrings | src/llms/__init__.py:35-41 | the inner loop collects exactly the message's texts: a string content whole, otherwise the text parts in order |
| Conversation.XaiRoleOf | src/llms/__init__.py:358-365 | only system, user and assistant are accepted; any other role is a ValueError |
| Conversation.XaiParts | src/llms/__init__.py:367-373 | a part list converts exactly when every part is text or image_url; the result has one item per part in order; otherwise a ValueError |
| Conversation.XaiContent | src/llms/__init__.py:367-368 | iterating a string content fails with a TypeError unless the string is empty, in which case nothing is added |
| Conversation.XaiTranslate | src/llms/__init__.py:357-373 | the chat is built exactly when every message is accepted, with one item per part; otherwise a ValueError or TypeError |
| Conversation.XaiRejectsStringContent | src/llms/__init__.py:357-373 | a non-empty string message whose role is valid, with no earlier fault, makes the translation raise a TypeError |
| AnthropicPrep.HintCount | src/llms/__init__.py:517-518 | the hints counted in a part list: at most one per part (used by the hint-cap lemmas below) |
| AnthropicPrep.ImageRewrite | src/llms/__init__.py:507-516 | no `image_url` body comes out; an `image_url` becomes a base64 `image/png` image; any other body is unchanged |
| AnthropicPrep.RewritePart | src/llms/__init__.py:506-521 | a part gets its body's image rewrite, and keeps its hint exactly when it has one and fewer than two came before |
| AnthropicPrep.RewriteMessage | src/llms/__init__.py:503-521 | a message keeps its role and content kind; a string message is unchanged; a part list keeps its length |
| AnthropicPrep.RewriteParts | src/llms/__init__.py:506-521 | the rewrite keeps the number of parts |
| AnthropicPrep.RewriteConversation | src/llms/__init__.py:503-521 | the rewrite keeps the number of messages |
| AnthropicPrep.RewritePartsAppend | src/llms/__init__.py:502-521 | rewriting a list in two runs carries the hint counter from the first run into the second |
| AnthropicPrep.RewriteAllParts | src/llms/__init__.py:502-521 | one counter runs over all messages: the parts of the rewritten conversation are the rewrite of all parts at once |
| AnthropicPrep.RewritePartsAt | src/llms/__init__.py:506-521 | part k has its image rewritten, and keeps its hint exactly when it had one and fewer than two hints came before it |
| AnthropicPrep.RewriteHintCount | src/llms/__init__.py:517-520 | after the rewrite at most two hints remain: the hints there were, capped at two minus those already seen |
| AnthropicPrep.RewriteRoles | src/llms/__init__.py:503-521 | every message keeps its role |
| AnthropicPrep.RewriteStrings | src/llms/__init__.py:503-505 | string messages are untouched |
| AnthropicPrep.NoImageUrlLeft | src/llms/__init__.py:507-516 | no `image_url` part remains after the rewrite |
| AnthropicPrep.ImageData | src/llms/__init__.py:507-516 | a PNG data URL becomes an image whose base64 data is the URL without its prefix |
| AnthropicPrep.Finalize | src/llms/__init__.py:523-527 | an empty list, or an empty last part list, is an IndexError; otherwise all earlier messages and the last role are unchanged, and the last content becomes its parts with `ephemeral` on the last part, a string becoming one text part carrying `ephemeral` |
| AnthropicPrep.FinalizeIdempotent | src/llms/__init__.py:523-527 | finalizing an already finalized conversation changes nothing |
| AnthropicPrep.FinalizeHints | src/llms/__init__.py:523-527 | the last part of the last message gets the `ephemeral` hint, and at most one hint is added overall |
| AnthropicPrep.MarkedHints | src/llms/__init__.py:526-527 | marking the last part with `ephemeral` adds at most one hint, and the parts before it keep no more hints than the list had |
| AnthropicPrep.FinalizeRoles | src/llms/__init__.py:523-527 | a successful finalization keeps the role of every message |
| AnthropicPrep.FinalizeMarks | src/llms/__init__.py:523-527 | finalization keeps all but the last message and replaces the last by its parts with the final part marked `ephemeral` |
| AnthropicPrep.PreparedHints | src/llms/__init__.py:494-527 | in the prepared conversation the last part carries `ephemeral` and at most two other parts carry a hint |
| AnthropicPrep.Prepare | src/llms/__init__.py:494-527 | an empty conversation is an error, always an IndexError; on success a leading system message is passed separately with its content, and the messages after it, at least one, are sent |
| AnthropicPrep.CallerView | src/llms/__init__.py:494-527 | the caller's list after the call has the same length, keeps a leading system message, and from the first sent message on holds exactly what was sent |
| AnthropicPrep.PrepareFails | src/llms/__init__.py:494-527 | preparation fails, always with an IndexError, exactly for an empty conversation, a lone system message, or a last message with an empty part list |
| AnthropicPrep.PrepareSystem | src/llms/__init__.py:497-501 | a leading system message is passed separately and not sent; the other messages are sent in order with their roles |
| AnthropicPrep.PrepareStrings | src/llms/__init__.py:494-527 | a conversation of string messages is prepared exactly when some message follows the optional system message; the sent messages are the conversation without that system message, in order and unchanged except the last, which becomes one text part carrying `ephemeral`; everything sent is text |
| AnthropicPrep.PrepareOfStrings | src/llms/__init__.py:494-527 | for string messages preparation is `Finalize` of the messages from the first sent one on, since the rewrite leaves them unchanged |
| AnthropicPrep.FinalizeStrings | src/llms/__init__.py:523-527 | finalizing string messages succeeds exactly for a non-empty list and sends only text |
| AnthropicPrep.RewritePartsLoop | src/llms/__init__.py:506-521 | the inner loop gives the part rewrite and moves the counter past the list's hints |
| AnthropicPrep.RewriteInPlace | src/llms/__init__.py:503-521 | the caller's messages from `start` on are replaced by their rewrite; earlier ones are unchanged |
| AnthropicPrep.RewriteLoop | src/llms/__init__.py:502-521 | the outer loop over the caller's list ends in the state reached after every message from `start` was rewritten in turn |
| AnthropicPrep.RewriteAt | src/llms/__init__.py:503-521 | one pass rewrites message `i` in place and moves the counter past its hints |
| AnthropicPrep.InLoopIs | src/llms/__init__.py:502-521 | after the passes up to `i`, the messages from `start` to `i` are their rewrite with one counter across them, and the others are untouched |
| AnthropicPrep.InLoopCount | src/llms/__init__.py:517-518 | after the passes up to `i`, the counter equals the hints in the messages passed |
| AnthropicPrep.FinalizeInPlace | src/llms/__init__.py:523-527 | the result is `Finalize` of the messages from `start`; on success they are replaced by the finalized ones, on failure left as they were |
| AnthropicPrep.PrepareInPlace | src/llms/__init__.py:494-527 | the result is the whole preparation, and the caller's list ends as the caller sees it: rewritten in place up to any exception |
| AnthropicPrep.LegacyRewrite | src/llms/__init__.py:817-830 | the legacy path rewrites only images: same length and roles, string messages unchanged, part lists rewritten part by part with hints kept |
| AnthropicPrep.LegacyPrepare | src/llms/__init__.py:812-830 | the legacy preparation fails exactly on an empty conversation |
| Streaming.StepCombine | src/llms/__init__.py:295-308 | one chunk after a combined prefix acts as it would on the second part alone |
| Streaming.Step | src/llms/__init__.py:295-308 | only a usage chunk can raise: `None` usage raises outside the OpenAI dialect; a delta keeps the usage and only extends the text, an empty or missing delta changes nothing; a usage chunk keeps the text |
| Streaming.Accumulate | src/llms/__init__.py:295-308 | a stream that raises holds a usage chunk |
| Streaming.AccumulateAppend | src/llms/__init__.py:295-308 | a stream read in two parts: the texts concatenate, the later usage wins, and the first exception ends the read |
| Streaming.AccumulateText | src/llms/__init__.py:295-299 | a successful read yields exactly the non-empty deltas concatenated in order |
| Streaming.AccumulateWithoutUsage | src/llms/__init__.py:300-308 | an OpenAI-style stream without a usage record never fails and leaves usage `None` |
| Streaming.AccumulateLastUsage | src/llms/__init__.py:300-308 | the usage of a successful read is that of the last usage chunk |
| Streaming.AccumulateErrStays | src/llms/__init__.py:192-211 | once a prefix of the stream fails, the whole read fails with the same exception |
| Streaming.ConsumeStream | src/llms/__init__.py:295-308 | the streaming loop computes the stream's accumulation |
| Streaming.DecodeAnthropic | src/llms/__init__.py:69-111 | batched: the last block's text, failing exactly when there is none; streamed: the pieces in order, with the final usage |
| Streaming.DecodeCompletion | src/llms/__init__.py:276-283 | a batched completion decodes exactly when its usage reads unguarded and some choice exists, giving the first choice |
| Streaming.DecodeOpenAI | src/llms/__init__.py:269-308 | batched as `DecodeCompletion`; a stream as the accumulation read the OpenAI way |
| Streaming.DecodeDeepSeek | src/llms/__init__.py:176-212 | batched as `DecodeCompletion`; a stream has its thinking removed and is stripped |
| Streaming.XaiChunks | src/llms/__init__.py:392-403 | each xAI chunk acts as a delta followed by a usage chunk |
| Streaming.XaiStreamNeverFails | src/llms/__init__.py:392-403 | reading an xAI stream never fails |
| Streaming.DecodeXai | src/llms/__init__.py:377-403 | an xAI reply always decodes; a stream gives its contents in order |
| Streaming.DecodeGemini | src/llms/__init__.py:458-481 | a Gemini reply decodes exactly when reading `response.text` does not raise, and then gives that text and the normalized usage; otherwise the exception `response.text` raised |
| Retry.RetryFrom | src/llms/__init__.py:62-137 | every run makes at least one attempt and waits once between consecutive attempts |
| Retry.RetryStep | src/llms/__init__.py:126-136 | a failure that neither gives up nor exhausts the budget is followed by one wait and the rest of the loop |
| Retry.RunWithRetries | src/llms/__init__.py:62-137 | the `while True` loop computes exactly `RetryFrom` from count 0 |
| Retry.AlwaysFailing | src/llms/__init__.py:121-136 | when every attempt fails without a reason to stop, there are `max(1, M)` attempts with `retry_secs` waits between them, and `None` |
| Retry.SingleAttempt | src/llms/__init__.py:339 | with `max_retries <= 1`, xAI's default among them, exactly one attempt is made, and it succeeds exactly when the call does |
| Retry.InvalidKeyStops | src/llms/__init__.py:126-128 | an invalid-key error ends the Anthropic or Gemini loop at once with `None` |
| Retry.FirstSuccess | src/llms/__init__.py:62-137 | the first success within the budget is returned, after as many waits as failures |
| Retry.RunShape | src/llms/__init__.py:62-137 | every wait is `retry_secs`; at most `max(1, M)` attempts; every attempt but the last failed without stopping; a result is the last attempt's sample |
| Retry.ShrinkOf | src/llms/__init__.py:225-235 | no parsed prompt count keeps `max_tokens`; a count of at least 65536 leaves no room; otherwise `max_tokens` becomes `min(8192, 65536 - p)`, in 1..8192 |
| Retry.NextMaxTokens | src/llms/__init__.py:233 | the next `max_tokens` is the shrink's value when one is set, and the current one otherwise |
| Retry.PromptTokensOf | src/llms/__init__.py:225-229 | an error text without `tokens (` has no prompt count |
| Retry.ShrinkOfMessage | src/llms/__init__.py:225-235 | the error text `…tokens (p in the messages…` shrinks `max_tokens` to `min(8192, 65536 - p)` below 65536 and leaves no room from 65536 on |
| Retry.DeepSeekFrom | src/llms/__init__.py:171-244 | a run records one `max_tokens` per attempt, starting with the initial one, and one wait between attempts |
| Retry.GetNextMessageDeepSeek | src/llms/__init__.py:151-170 | the first attempt is made with 30000 tokens on Baseten and 8192 otherwise |
| Retry.PromptTokensParsed | src/llms/__init__.py:225-229 | an error text `…tokens (p in the messages…` gives back `p` |
| Retry.DeepSeekNextMaxTokens | src/llms/__init__.py:225-235 | after a failed attempt the next attempt uses the shrink the message gives, or the same `max_tokens` |
| Retry.DeepSeekNoRoom | src/llms/__init__.py:230-232 | a prompt of at least 65536 tokens ends the run at once with `None` |
| Retry.DeepSeekShape | src/llms/__init__.py:171-244 | at most `max(1, M)` attempts, waits of `retry_secs`, and a sample exactly when the last attempt succeeded |
| Retry.DeepSeekTokens | src/llms/__init__.py:225-235 | along a run `max_tokens` only stays or shrinks to a value in 1..8192 |
| Retry.DeepSeekShrinksTo | src/llms/__init__.py:171-244 | end to end: after an attempt fails with the context-length text for p, the next attempt uses `min(8192, 65536 - p)` when p < 65536 and a retry remains; from 65536 on the run stops after that attempt with `None` |
| Retry.LegacyFrom | src/llms/__init__.py:832-853 | each legacy run makes at least one attempt, with a wait between consecutive attempts, and stops within the twelve-attempt budget |
| Retry.NoWifiFlag | src/llms/__init__.py:803 | `NO_WIFI` unset reads as 0; a set value reads as its integer, and a non-integer raises ValueError |
| Retry.LegacyGetNextMessage | src/llms/__init__.py:800-853 | no attempt is made exactly when `NO_WIFI` raises or is 1; its ValueError is raised, 1 gives the canned reply; never more than twelve attempts |
| Retry.NoWifiCanned | src/llms/__init__.py:803-809 | with `NO_WIFI=1` the canned grid text and zero usage are returned without an attempt |
| Retry.LegacyOtherErrorRaised | src/llms/__init__.py:834-846 | any exception other than a RateLimitError is raised after one attempt |
| Retry.LegacyRateLimitReRaised | src/llms/__init__.py:846-853 | when rate-limited throughout there are twelve attempts and eleven 15-second waits, then the RateLimitError is raised |
| Retry.BackoffSecs | src/llms/__init__.py:777 | the first backoff is 10 seconds and none is shorter |
| Retry.BackoffDoubles | src/llms/__init__.py:777 | each backoff after the first is twice the one before |
| Retry.WrapperFrom | src/llms/__init__.py:756-787 | the wrapper makes no attempt exactly when the budget is spent, returning `None`; otherwise one wait between attempts |
| Retry.WrapperStep | src/llms/__init__.py:776-781 | a retried failure is followed by its backoff and the rest of the loop |
| Retry.MessageWithRetry | src/llms/__init__.py:756-787 | the loop computes exactly `WrapperFrom` from retry 0 |
| Retry.WrapperNoAttempts | src/llms/__init__.py:756-787 | with no retries allowed, `None` is returned and nothing is called |
| Retry.Backoffs | src/llms/__init__.py:777 | the backoffs are 10·2^retry seconds, one per retried failure |
| Retry.WrapperRetryableFailures | src/llms/__init__.py:776-783 | retryable failures throughout give M attempts with the backoffs between them, and the last failure is raised |
| Retry.WrapperRetried | src/llms/__init__.py:776-783 | a retryable failure before the last attempt is followed by one backoff of the current length and then the remaining attempts |
| Retry.WrapperNonRetryable | src/llms/__init__.py:784-786 | a non-retryable error is raised after that one attempt |
| Retry.RateRetried | src/llms/__init__.py:767-775 | any `rate` in the lower-cased error text makes it retryable |
| Retry.RateRetriedAt | src/llms/__init__.py:767-775 | an error text holding `rate` at any position is retryable |
| Retry.NoChoicesRetried | src/llms/__init__.py:769-775 | the "no choices" error of the OpenRouter adapter (raised at line 960) is retried |
| Retry.NoContentRetried | src/llms/__init__.py:769-775 | the "no content" error of the OpenRouter adapter (raised at line 1017) is retried (its text contains "rate") |
| Retry.AttemptCounter.constructor | src/llms/__init__.py:745 | the shared counter starts at 0 |
| Retry.AttemptCounter.Next | src/llms/__init__.py:751-753 | drawing an attempt number increments the counter and returns its new value |
| Retry.DrawAttemptNumbers | src/llms/__init__.py:745-753 | the numbers drawn by n wrappers in turn are the counter's next n values, strictly increasing |
| CodeParser.NoopCodeHasNoTab | src/llms/__init__.py:1117-1120 | the no-op program contains no tab |
| CodeParser.CleanCode | src/llms/__init__.py:1123-1124 | every tab becomes four spaces and nothing else changes: the result has no tab and text without tabs is unchanged |
| CodeParser.CleanCodeAppend | src/llms/__init__.py:1123-1124 | cleaning distributes over concatenation |
| CodeParser.CleanCodeChar | src/llms/__init__.py:1123-1124 | a tab becomes four spaces and any other character stays |
| CodeParser.LastTransformChunk | src/llms/__init__.py:1137-1140 | the chosen chunk is the last to contain `def transform(`; there is none exactly when no chunk contains it |
| CodeParser.FencedBody | src/llms/__init__.py:1144-1155 | the extracted body is no longer than what follows the fence |
| CodeParser.ParsePythonBackticks | src/llms/__init__.py:1127-1155 | a parsed program has no tab; the only failure is the AssertionError, and it cannot happen with at most one fence |
| CodeParser.FenceChunkCount | src/llms/__init__.py:1139-1142 | the fence put back before the chosen chunk is its only fence |
| CodeParser.SeveralFencesFail | src/llms/__init__.py:1135-1142 | with several fences the assertion fails exactly when no chunk defines `transform` |
| CodeParser.SeveralFencesChunk | src/llms/__init__.py:1135-1146 | with several fences the program comes from the last chunk that defines `transform`, as if that chunk followed a lone fence |
| CodeParser.NoFence | src/llms/__init__.py:1128-1133 | without a fence, the answer is what follows the first `</reasoning>`, or the no-op program when nothing does |
| CodeParser.FencedAnswer | src/llms/__init__.py:1144-1146 | a well-formed fenced answer gives back exactly its code, tabs expanded |
| CodeParser.SingleFenceParse | src/llms/__init__.py:1141-1146 | text with exactly one fence parses to the cleaned body the search takes after it |
| GridParser.SkipSpaceTo | src/llms/__init__.py:1160 | `\s*` consumes exactly the whitespace run |
| GridParser.SkipRowBodyTo | src/llms/__init__.py:1160 | `[^\[\]]*` consumes exactly the run up to the first bracket |
| GridParser.MatchAt | src/llms/__init__.py:1160 | a match starts at `[`, and its group lies between an inner `[` and the closing `]` |
| GridParser.Matches | src/llms/__init__.py:1163 | every group found starts with `[` |
| GridParser.SkipToClose | src/llms/__init__.py:1170 | `[^\]]*` stops at the first `]` or at the end |
| GridParser.RowMatches | src/llms/__init__.py:1170 | no row found holds `]` |
| GridParser.ParseTokens | src/llms/__init__.py:1174 | a row converts exactly when every token is blank or an integer; otherwise a ValueError; no more numbers than tokens |
| GridParser.ParseTokensOne | src/llms/__init__.py:1174 | one token gives nothing when blank, its ValueError when `int` refuses it, and otherwise its integer |
| GridParser.ParseTokensAppend | src/llms/__init__.py:1174 | converting two runs of tokens gives the first failure, or both runs' numbers concatenated |
| GridParser.ParseTokensValues | src/llms/__init__.py:1174 | tokens that are all integers give exactly their values, one per token in order |
| GridParser.ParseRow | src/llms/__init__.py:1174 | a row's numbers are no more than its comma-separated tokens; it fails only with ValueError |
| GridParser.ParseGrid | src/llms/__init__.py:1170-1176 | a grid has one row per row match; it fails only with ValueError |
| GridParser.Parse2dArrays | src/llms/__init__.py:1158-1178 | one grid per outer match; the only exception is ValueError |
| GridParser.ParseTokensErrStays | src/llms/__init__.py:1174 | once the tokens up to k fail, the whole row fails with that error |
| GridParser.ParseIntStripped | src/llms/__init__.py:1174 | stripping before `int()` changes nothing |
| GridParser.ConvertRow | src/llms/__init__.py:1174 | the comprehension computes `ParseRow` |
| GridParser.ConvertMatch | src/llms/__init__.py:1170-1176 | the loop over rows computes `ParseGrid` |
| GridParser.Parse2dArraysFromString | src/llms/__init__.py:1158-1178 | the loop over matches computes `Parse2dArrays` |
| GridParser.NoBracketNoGrid | src/llms/__init__.py:1158-1178 | a reply without `[` holds no grid |
| GridParser.RowParses | src/llms/__init__.py:1174 | a row written by Python's `str` converts back to itself |
| GridParser.GridRowsParse | src/llms/__init__.py:1170-1176 | the rows of a grid written by `str` all convert back to the grid |
| GridParser.MatchAtGrid | src/llms/__init__.py:1160 | the outer pattern matches at a grid written by `str`, and its group is everything between the outer brackets |
| GridParser.RowsInProse | src/llms/__init__.py:1163 | when the prose around a grid holds no `[`, the grid is the reply's only match |
| GridParser.GridInProse | src/llms/__init__.py:1158-1178 | when the prose around one grid written by `str` holds no `[`, the parse gives back exactly that grid |
| GridParser.MatchesReplyAt | src/llms/__init__.py:1160-1163 | in a reply of prose without `[` and grids written by `str`, the matches are exactly the grids' insides, in order |
| GridParser.InsideAt | src/llms/__init__.py:1160-1163 | the k-th inside of a grid list is the k-th grid's rows written by `str`, joined by `, ` |
| GridParser.GridsInProse | src/llms/__init__.py:1158-1178 | any number of non-empty grids written by `str`, between prose without `[`, parse back to exactly those grids in order |
| GridParser.TwoGridsInProse | src/llms/__init__.py:1158-1178 | `[[1, 2], [3, 4]] and [[5]]` parses to the grids `[[1, 2], [3, 4]]` and `[[5]]` |
| GridParser.GridTextOfDigits | src/llms/__init__.py:1158-1178 | Python's `str` of a 2x2 grid of single digits is `[[a, b], [c, d]]`, character by character |
| GridParser.RowTextOfTwo | src/llms/__init__.py:1158-1178 | Python's `str` of a two-digit row is `[a, b]` |
| Fanout.GeminiRole | src/llms/__init__.py:690-693 | the assistant is called `model`; every other role passes through |
| Fanout.FamilyOf | src/llms/__init__.py:493-797 | every named model has a branch and any other model has none; the four OpenRouter models form the OpenRouter branch |
| Fanout.FlattenedFor | src/llms/__init__.py:494-495 | only Anthropic (Haiku alone), OpenAI, DeepSeek and OpenRouter branches flatten the conversation |
| Fanout.GeminiParts | src/llms/__init__.py:699-714 | no more Gemini parts than parts, and all kept when all are text or image |
| Fanout.GeminiPartOf | src/llms/__init__.py:700-714 | a part yields one Gemini part exactly when it is text or an image: the same text, or the URL without the PNG prefix |
| Fanout.GeminiImageData | src/llms/__init__.py:702-714 | a PNG data URL becomes one image whose data is the URL without its prefix |
| Fanout.GeminiPartsAppend | src/llms/__init__.py:699-714 | translating a part list in two runs gives the two translations concatenated |
| Fanout.GeminiPartsOne | src/llms/__init__.py:699-714 | a one-part list translates as that part |
| Fanout.GeminiPartsKept | src/llms/__init__.py:699-714 | when every part is text or an image, Gemini part k is the translation of part k |
| Fanout.GeminiPartsDrops | src/llms/__init__.py:699-714 | a part that is neither text nor an image makes the translation shorter than the list |
| Fanout.GeminiContentOf | src/llms/__init__.py:689-715 | a content has the translated role; a string becomes one text part; a part list gives no more parts than it had |
| Fanout.SystemInstruction | src/llms/__init__.py:682-687 | the instruction is read only from a leading system message with a part list; otherwise an IndexError, TypeError or KeyError, as Python raises |
| Fanout.GeminiPartsOf | src/llms/__init__.py:698-714 | the inner loop computes `GeminiParts` |
| Fanout.GeminiContents | src/llms/__init__.py:688-715 | one content per message, each the translation of that message |
| Fanout.GeminiPrepare | src/llms/__init__.py:681-715 | without a leading system message the Gemini request fails with an IndexError; otherwise one content per remaining message |
| Fanout.DeveloperFirst | src/llms/__init__.py:567-568 | only a leading system message is renamed to `developer`; everything else is unchanged |
| Fanout.PrepareBranch | src/llms/__init__.py:491-797 | an unknown model is a ValueError; otherwise n requests of the model's family, and only the first streams, exactly when `STREAM_LLM=1`, n=1 and the family streams |
| Fanout.XaiAttempt | src/llms/__init__.py:357-373 | an xAI translation error is the attempt's exception |
| Fanout.SampleResult | src/llms/__init__.py:529-795 | the Anthropic, OpenAI, DeepSeek and xAI samples never raise; a Gemini sample is `None` when its retry loop gives up, otherwise the text read after the loop with the loop's usage, or the exception that read raises |
| Fanout.GeminiTextRaises | src/llms/__init__.py:481 | when `response.text` raises after a successful Gemini attempt, and the samples before it did not raise, the whole call raises that exception |
| Fanout.SampleResults | src/llms/__init__.py:529-795 | one result per request, in request order |
| Fanout.Gather | src/llms/__init__.py:789-794 | the gathered list is every sample's value in order, or the exception of the first sample that raised |
| Fanout.FilterSome | src/llms/__init__.py:553 | no more kept samples than samples, and each kept one came back |
| Fanout.FilterSomeAllSome | src/llms/__init__.py:553 | when every sample came back, all are kept in order |
| Fanout.FilterSomeAllNone | src/llms/__init__.py:553 | when no sample came back, the list is empty |
| Fanout.FilterSomePrimary | src/llms/__init__.py:553 | the primary sample, when it came back, comes first |
| Fanout.FilterSomeAppend | src/llms/__init__.py:553 | filtering two runs gives the two filtered runs concatenated |
| Fanout.FilterSomeOne | src/llms/__init__.py:553 | one sample is kept exactly when it came back |
| Fanout.FilterSomeAt | src/llms/__init__.py:553 | a sample that came back is kept, at the position after the kept samples before it |
| Fanout.GetNextMessagesAsWritten | src/llms/__init__.py:484-797 | as written: `n_times <= 0` gives `[]`, and an unknown model is a ValueError |
| Fanout.GetNextMessages | src/llms/__init__.py:484-797 | corrected: `[]` for `n_times <= 0`, a ValueError for an unknown model, and otherwise a list of at most `n_times` samples |
| Fanout.DeepSeekAsWrittenNone | src/llms/__init__.py:594-648 | for either DeepSeek model the call as written returns `None`, while the corrected call returns a list |
| Fanout.AsWrittenElsewhere | src/llms/__init__.py:484-797 | away from DeepSeek, the corrected call equals the call as written |
| Fanout.AllSamplesBack | src/llms/__init__.py:529-553 | when every sample came back, the call returns all n of them in sample order |
| Fanout.SampleKeptAt | src/llms/__init__.py:529-553 | with some samples missing, a sample that came back is returned at the position after the returned samples before it |
| Fanout.GatherAllSome | src/llms/__init__.py:789-795 | when every sample returns, the gathered list keeps them all in order |
| Fanout.PrimaryFirst | src/llms/__init__.py:529-553 | the primary (possibly streamed) sample, when it comes back, is first |
| Fanout.GatheredReturned | src/llms/__init__.py:529-553 | once prepared and gathered without exception, the call returns the samples that came back |
| Fanout.OpenRouterRaises | src/llms/__init__.py:783-795 | an OpenRouter sample that raises, after samples that did not, makes the whole call raise that exception |
| Fanout.GatherFirstError | src/llms/__init__.py:789-794 | the gathering raises the exception of the first sample that raised |
| Fanout.GatherFailed | src/llms/__init__.py:789-795 | once prepared, an exception in the gathering is the exception of the whole call |
| Fanout.HaikuSendsText | src/llms/__init__.py:494-495 | Haiku is sent only strings or text parts |
| Fanout.LegacyDispatch | src/llms/__init__.py:800-1114 | the legacy `get_next_message`: `NO_WIFI` raises ValueError or returns the canned reply before any dispatch; a model without a branch raises `ValueError("Invalid model: …")` |
| Fanout.OpenRouterO1AsWritten | src/llms/__init__.py:737-1114 | as written, `openrouter_o1` reaches the legacy call, which has no branch for it, so every sample raises ValueError and, without `NO_WIFI`, so does the whole call |
| Fanout.WrapperAlwaysRaises | src/llms/__init__.py:776-786 | an OpenRouter sample whose every attempt raises the same exception raises it, whether or not it is retried |
| Fanout.OpenRouterModelsHandled | src/llms/__init__.py:737-742 | corrected: every OpenRouter model has a legacy branch, so its reply is passed on; as written all but `openrouter_o1` have one |
| Data.Dummies | src/data.py:18-20 | n placeholders, each `[[0], [0]]` |
| Data.DummySolutions | src/data.py:15-22 | the last challenge with a key decides that key's placeholders: one per test pair |
| Data.DummySolutionsKeys | src/data.py:15-22 | the placeholder solutions have exactly the challenges' keys |
| Data.DummySolutionsValues | src/data.py:17-21 | each task gets one `[[0], [0]]` per test pair |
| Data.BuildDummySolutions | src/data.py:15-22 | the nested loops compute `DummySolutions` |
| Data.TotalTasks | src/data.py:39 | `TOTAL_TASKS` (default "500") is read as an integer, or raises ValueError |
| Data.TotalTasksDefault | src/data.py:39 | unset, `TOTAL_TASKS` is 500 |
| Data.WithOutputs | src/data.py:36-37 | test pair i keeps its input and gets output `sol[i]` |
| Data.MergeChallenge | src/data.py:36-38 | a task merges exactly when it has no test pair or enough solutions; otherwise a KeyError if its key is missing, else an IndexError |
| Data.MergeRound | src/data.py:35-40 | one task merges exactly when its record merges and `TOTAL_TASKS` is an integer, keeping its key; a record's own error comes first |
| Data.MergeRounds | src/data.py:35-40 | one round per task, in order |
| Data.MergeSucceeds | src/data.py:35-40 | the merge succeeds exactly when every task merges and, for a non-empty object, `TOTAL_TASKS` is an integer; otherwise a KeyError, IndexError or ValueError |
| Data.Merge | src/data.py:35-40 | a successful merge has one task per challenge |
| Data.BuildChallenges | src/data.py:29-40 | successful loading gives one task per challenge, with or without a solutions file |
| Data.MergeOutputs | src/data.py:35-40 | after the merge each task keeps its key and position, its `id` is its key, its train pairs are unchanged, and test pair i has output `solutions_d[k][i]` |
| Data.DummyMerge | src/data.py:29-40 | with placeholder solutions only the `TOTAL_TASKS` ValueError can occur, and every output is `[[0], [0]]` |
| Data.MergeTask | src/data.py:36-38 | the loop body for one task computes `MergeChallenge` |
| Data.MergeLoop | src/data.py:35-40 | the in-place merge loop computes `Merge` |
| Data.BuildChallengesFrom | src/data.py:29-40 | computes `BuildChallenges`, with the given or the placeholder solutions |
| Data.JsonSuffix | src/data.py:49-53 | a name has suffix `.json` exactly when it is longer than `.json` and ends with it; its stem is then the rest |
| Data.Suffix | src/data.py:49 | a suffix is empty or is a dot-led tail of the name, shorter than the name |
| Data.Stem | src/data.py:53 | stem and suffix together give back the name |
| Data.DictSet | src/data.py:54 | dict assignment keeps an existing key in place and appends a new one |
| Data.ChallengesV2Ids | src/data.py:48-55 | every v2 record has its key as `id`, and every key is the stem of a `.json` regular file |
| Data.JsonEntriesKeys | src/data.py:48-55 | the keys of the `.json` entries are their files' stems, in listing order |
| Data.ChallengesV2Listing | src/data.py:48-55 | with distinct file names, the v2 object holds one entry per `.json` regular file in sorted order |
| Data.BuildChallengesV2 | src/data.py:48-55 | the loop computes `ChallengesV2` |

## Left out

- Network clients, API keys read from the environment, timeouts, logging and `print`. Each remote call is an oracle from attempt number to decoded reply or exception.
- Sleeping. Each wait is recorded as a number of seconds and not executed.
- Concurrency. `asyncio.gather` is modelled as sequential in sample order. The OpenRouter attempt counter is modelled as one shared object whose increments do not interleave, which is what its lock guarantees.
- Gemini image decoding with PIL and base64, and the Gemini cache object. An image part keeps its URL minus the data prefix, and the cache's TTL and name are not modelled.
- The file writes of the OpenRouter adapter (`messages.json` and the stream transcripts).
- The thin per-provider branches of the legacy `get_next_message` other than its Anthropic path. The Azure branch compares a model with a list and can never match.
- `Fanout.DeveloperFirst`: renaming `messages[0]["role"]` also changes the caller's dict. The model returns the renamed list and does not show the mutation to the caller. The Anthropic in-place rewrite is modelled in full by `AnthropicPrep.PrepareInPlace`.
- Python's `int()` is modelled on ASCII digits, an optional sign, surrounding whitespace and single underscores between digits. Unicode digits are not accepted by the model.
- Regular expressions are modelled only for the fixed patterns of the core, as scans. There is no general regex engine.
- JSON parsing of files, `pathlib` directory listing and reading, and pydantic `TypeAdapter` validation in `src/data.py`. The challenge records arrive parsed, the directory listing arrives as a sorted list of entries, and validation is not modelled. The module-level dataset loads are also left out.
- Data.MergeChallenge: a task record is assumed to have a `test` list. A record without one would raise KeyError at `v["test"]`, and this is not modelled.
- Data.Stem: `PurePath.suffix` and `stem` follow the Python 3.11 semantics. A name ending in `.` has no suffix.
- GridParser.GridsInProse: only grids in the form Python's `str` writes them (`[[1, 2], [3, 4]]`) are covered by the round-trip lemmas. A compact form such as `[[1,2],[3,4]]` is parsed by the same functions, but no lemma states its result.
- The legacy `get_next_message` is modelled only as far as its dispatch (`Fanout.LegacyDispatch`): the `NO_WIFI` check, the Anthropic path, and which models have a branch. The bodies of its other provider branches are oracles.

## Findings

| source | as written | input that shows it | evidently intended | confidence | as-written member | corrected member |
|---|---|---|---|---|---|---|
| src/llms/__init__.py:594-648 | the DeepSeek branch of `get_next_messages` computes `n_messages` but has no `return`, so the function returns `None` | `n_times = 1`, `model = deep_seek_r1`, any reply | return `[m for m in n_messages if m]` like every other branch (line 648 holds only a comment about filtering) | high; not executed | Fanout.GetNextMessagesAsWritten, Fanout.DeepSeekAsWrittenNone | Fanout.GetNextMessages |
| src/llms/__init__.py:737-1114 | `get_next_messages` sends `openrouter_o1` to the legacy `get_next_message`, whose chain of branches (lines 810-1112) names `openrouter_model` and `openrouter_o1_mini` but not `openrouter_o1`, so it reaches `raise ValueError(f"Invalid model: {model}")` | `n_times = 1`, `model = openrouter_o1`, `NO_WIFI` unset | a legacy branch for `openrouter_o1` like the one for `openrouter_o1_mini`, so that its reply is returned | medium; not executed (the branch's request parameters cannot be recovered from the source) | Fanout.OpenRouterO1AsWritten | Fanout.OpenRouterModelsHandled |
