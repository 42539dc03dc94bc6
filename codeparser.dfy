/** Recovering the program from a model's answer: `clean_code` and
    `parse_python_backticks` (src/llms/__init__.py:1117-1155). The regular
    expressions are written out as searches: both start with the fence, so a
    match can only begin at the fence's one occurrence, and their greedy
    `(.*)` under DOTALL ends at the last occurrence of the closing text. */
module CodeParser {
  import opened Wrappers
  import opened Text

  const Fence := "```python"
  const Reasoning := "</reasoning>"
  const TransformDef := "def transform("

  /** `noop_code`: a transform that raises (written in pieces so that the
      verifier can read it character by character). */
  const NoopCode := "def transform(grid_lst: " + "list[list[int]]) -> " + "list[list[int]]:\n"
                    + "    raise NotImplementedError()"

  lemma NoopCodeHasNoTab()
    ensures '\t' !in NoopCode
  {
    assert '\t' !in "def transform(grid_lst: ";
    assert '\t' !in "list[list[int]]) -> ";
    assert '\t' !in "list[list[int]]:\n";
    assert '\t' !in "    raise NotImplementedError()";
  }

  const FourSpaces := "    "

  /** Tabs become four spaces: `s.replace("\t", "    ")` replaces each tab on its own. */
  function CleanCode(s: string): (r: string)
    ensures r == ReplaceChar(s, '\t', FourSpaces)
    ensures '\t' !in r
    ensures '\t' !in s ==> r == s
  {
    ReplaceAllChar(s, '\t', FourSpaces);
    ReplaceCharRemovesIt(s, '\t', FourSpaces);
    if '\t' !in s then
      ReplaceCharAbsent(s, '\t', FourSpaces);
      ReplaceAll(s, "\t", FourSpaces)
    else ReplaceAll(s, "\t", FourSpaces)
  }

  /** Cleaning works piece by piece. */
  lemma CleanCodeAppend(a: string, b: string)
    ensures CleanCode(a + b) == CleanCode(a) + CleanCode(b)
  {
    ReplaceCharAppend(a, b, '\t', FourSpaces);
  }

  /** A tab becomes four spaces and any other character stays. */
  lemma CleanCodeChar(c: char)
    ensures CleanCode([c]) == if c == '\t' then "    " else [c]
  {
    assert [c][1..] == "";
  }

  /** The split chunk nearest the end that defines `transform`, as the
      reversed loop finds it. */
  function LastTransformChunk(chunks: seq<string>): (r: Option<string>)
    decreases |chunks|
    ensures r.None? <==> forall k :: 0 <= k < |chunks| ==> !Contains(chunks[k], TransformDef)
    ensures r.Some? ==> exists k :: (0 <= k < |chunks| && chunks[k] == r.value
                          && Contains(r.value, TransformDef)
                          && forall l :: k < l < |chunks| ==> !Contains(chunks[l], TransformDef))
  {
    if |chunks| == 0 then None
    else if Contains(chunks[|chunks| - 1], TransformDef) then Some(chunks[|chunks| - 1])
    else
      var init := chunks[..|chunks| - 1];
      var r := LastTransformChunk(init);
      LastChunkOfInit(chunks, init, r, x => Contains(x, TransformDef));
      r
  }

  /** The last defining chunk before the last chunk, when the last one does not define. */
  lemma LastChunkOfInit(chunks: seq<string>, init: seq<string>, r: Option<string>, defines: string -> bool)
    requires |chunks| > 0 && init == chunks[..|chunks| - 1] && !defines(chunks[|chunks| - 1])
    requires r.None? <==> forall k :: 0 <= k < |init| ==> !defines(init[k])
    requires r.Some? ==> exists k :: (0 <= k < |init| && init[k] == r.value
                          && defines(r.value)
                          && forall l :: k < l < |init| ==> !defines(init[l]))
    ensures r.None? <==> forall k :: 0 <= k < |chunks| ==> !defines(chunks[k])
    ensures r.Some? ==> exists k :: (0 <= k < |chunks| && chunks[k] == r.value
                          && defines(r.value)
                          && forall l :: k < l < |chunks| ==> !defines(chunks[l]))
  {
    assert forall k :: 0 <= k < |init| ==> init[k] == chunks[k];
    if r.Some? {
      var k :| 0 <= k < |init| && init[k] == r.value && defines(r.value)
               && forall l :: k < l < |init| ==> !defines(init[l]);
      assert chunks[k] == r.value;
    }
  }

  /** What the three searches make of a text whose one fence is at `i`: the
      body up to the last "\n```", else up to the last "\n`", else all that
      follows the fence. The first two need "\n" right after the fence. */
  function FencedBody(s: string, i: nat): (r: string)
    requires OccursAt(s, Fence, i)
    ensures |r| <= |s| - i - |Fence|
  {
    var start := i + |Fence| + 1;
    if start <= |s| && s[i + |Fence|] == '\n' then
      match FindLast(s, "\n```", start)
      case Some(j) => s[start..j]
      case None =>
        match FindLast(s, "\n`", start)
        case Some(j) => s[start..j]
        case None => s[i + |Fence|..]
    else s[i + |Fence|..]
  }

  /** `parse_python_backticks`; the failing `assert` is an AssertionError. */
  function ParsePythonBackticks(s: string): (r: Result<string>)
    ensures r.Ok? ==> '\t' !in r.value
    ensures r.Err? ==> r.error.cls == AssertionError
    ensures Count(s, Fence) <= 1 ==> r.Ok?
  {
    if Count(s, Fence) == 0 then
      var out := AfterFirst(s, Reasoning);
      if out == "" then
        NoopCodeHasNoTab();
        Ok(NoopCode)
      else Ok(CleanCode(out))
    else
      var t := if Count(s, Fence) == 1 then s
               else match LastTransformChunk(Split(s, Fence))
                    case Some(chunk) => Fence + chunk
                    case None => s;
      if Count(t, Fence) != 1 then Err(Error(AssertionError, "assert s.count(\"```python\") == 1"))
      else Ok(CleanCode(FencedBody(t, FindFrom(t, Fence, 0).value)))
  }

  // -------------------------------------------------------------- lemmas

  /** A fence followed by a chunk without one holds exactly one fence. */
  lemma FenceChunkCount(chunk: string)
    requires !Contains(chunk, Fence)
    ensures Count(Fence + chunk, Fence) == 1
  {
    var t := Fence + chunk;
    assert OccursAt(t, Fence, 0);
    assert t[|Fence|..] == chunk;
  }

  /** Several fences: the assertion fails exactly when no split chunk
      defines `transform`. */
  lemma SeveralFencesFail(s: string)
    requires Count(s, Fence) > 1
    ensures ParsePythonBackticks(s).Err? <==> LastTransformChunk(Split(s, Fence)).None?
  {
    var chunks := Split(s, Fence);
    match LastTransformChunk(chunks)
    case Some(chunk) =>
      assert chunk in chunks;
      FenceChunkCount(chunk);
    case None =>
  }

  /** Several fences: the answer is parsed from the last chunk that defines
      `transform`, as if that chunk were all there was after a fence. */
  lemma SeveralFencesChunk(s: string, chunk: string)
    requires Count(s, Fence) > 1
    requires LastTransformChunk(Split(s, Fence)) == Some(chunk)
    ensures ParsePythonBackticks(s) == Ok(CleanCode(FencedBody(Fence + chunk, 0)))
    ensures ParsePythonBackticks(s) == ParsePythonBackticks(Fence + chunk)
  {
    assert chunk in Split(s, Fence);
    FenceChunkCount(chunk);
    assert OccursAt(Fence + chunk, Fence, 0);
    assert FindFrom(Fence + chunk, Fence, 0) == Some(0);
  }

  /** Without a fence the answer is what follows the first `</reasoning>`,
      or the no-op program when nothing does. */
  lemma NoFence(pre: string, post: string)
    requires !Contains(pre, Reasoning)
    requires !Contains(pre + Reasoning + post, Fence)
    ensures ParsePythonBackticks(pre + Reasoning + post) == Ok(if post == "" then NoopCode else CleanCode(post))
  {
    var s := pre + Reasoning + post;
    assert OccursAt(s, Reasoning, |pre|) by { assert s[|pre|..|pre| + |Reasoning|] == Reasoning; }
    forall p: nat | p < |pre| ensures !OccursAt(s, Reasoning, p) {
      if OccursAt(s, Reasoning, p) {
        assert s == pre + ['<'] + ("/reasoning>" + post);
        OccursAround(pre, '<', "/reasoning>" + post, Reasoning, p);
        OccursAtContains(pre, Reasoning, p);
      }
    }
    FindFromAt(s, Reasoning, 0, |pre|);
    assert s[|pre| + |Reasoning|..] == post;
    NoFenceParse(s, post);
  }

  /** Without a fence the answer is what follows the first `</reasoning>`. */
  lemma NoFenceParse(s: string, out: string)
    requires !Contains(s, Fence) && AfterFirst(s, Reasoning) == out
    ensures ParsePythonBackticks(s) == Ok(if out == "" then NoopCode else CleanCode(out))
  {
  }

  /** The fenced answer a model is asked for comes back as its code: text
      ending in a line break, the fence, a line break, the code, and the
      closing fence. */
  lemma FencedAnswer(pre: string, body: string)
    requires pre == "" || pre[|pre| - 1] == '\n'
    requires !Contains(pre, Fence) && !Contains(body, Fence)
    ensures ParsePythonBackticks(pre + Fence + "\n" + body + "\n```") == Ok(CleanCode(body))
  {
    var s := pre + Fence + "\n" + body + "\n```";
    FencedAnswerSearch(pre, body, s);
    BodyOfFencedAnswer(pre, body);
    SingleFenceParse(s, |pre|, body);
  }

  /** The search of the fenced answer finds its fence, and no other. */
  lemma FencedAnswerSearch(pre: string, body: string, s: string)
    requires pre == "" || pre[|pre| - 1] == '\n'
    requires !Contains(pre, Fence) && !Contains(body, Fence)
    requires s == pre + Fence + "\n" + body + "\n```"
    ensures FindFrom(s, Fence, 0) == Some(|pre|) && Count(s, Fence) == 1
  {
    var rest := "\n" + body + "\n```";
    FencedAnswerFirst(pre, rest, s);
    RestHasNoFence(body);
    assert s[|pre| + |Fence|..] == rest;
    CountOne(s, |pre|);
  }

  lemma FencedAnswerFirst(pre: string, rest: string, s: string)
    requires pre == "" || pre[|pre| - 1] == '\n'
    requires !Contains(pre, Fence) && s == pre + Fence + rest
    ensures FindFrom(s, Fence, 0) == Some(|pre|)
  {
    assert s == pre + (Fence + rest);
    assert (Fence + rest)[..|Fence|] == Fence;
    FenceFirstAt(pre, Fence + rest);
  }

  /** Text with a single fence parses to the cleaned code after it. */
  lemma SingleFenceParse(s: string, i: nat, body: string)
    requires FindFrom(s, Fence, 0) == Some(i) && Count(s, Fence) == 1
    requires OccursAt(s, Fence, i) && FencedBody(s, i) == body
    ensures ParsePythonBackticks(s) == Ok(CleanCode(body))
  {
  }

  /** A first fence with no other after it is the only one. */
  lemma CountOne(s: string, i: nat)
    requires FindFrom(s, Fence, 0) == Some(i)
    requires !Contains(s[i + |Fence|..], Fence)
    ensures Count(s, Fence) == 1
  {
  }

  /** The fenced answer's body is what the first search takes. */
  lemma BodyOfFencedAnswer(pre: string, body: string)
    ensures var s := pre + Fence + "\n" + body + "\n```";
            OccursAt(s, Fence, |pre|) && FencedBody(s, |pre|) == body
  {
    var s := pre + Fence + "\n" + body + "\n```";
    var i := |pre|;
    assert s[i..i + |Fence|] == Fence;
    var start := i + |Fence| + 1;
    assert s[i + |Fence|] == '\n';
    var j := |s| - 4;
    assert OccursAt(s, "\n```", j) by { assert s[j..j + 4] == "\n```"; }
    assert FindLast(s, "\n```", start) == Some(j);
    assert s[start..j] == body;
  }

  /** The fence written after `pre` is the first one in the text. */
  lemma FenceFirstAt(pre: string, rest: string)
    requires pre == "" || pre[|pre| - 1] == '\n'
    requires !Contains(pre, Fence) && |rest| >= |Fence| && rest[..|Fence|] == Fence
    ensures FindFrom(pre + rest, Fence, 0) == Some(|pre|)
  {
    var s := pre + rest;
    assert OccursAt(s, Fence, |pre|) by { assert s[|pre|..|pre| + |Fence|] == rest[..|Fence|]; }
    forall p: nat | p < |pre| ensures !OccursAt(s, Fence, p) {
      NoFenceInLines(pre, rest, p);
    }
    FindFromAt(s, Fence, 0, |pre|);
  }

  /** No fence starts inside lines that hold none. */
  lemma NoFenceInLines(pre: string, rest: string, p: nat)
    requires p < |pre| && pre[|pre| - 1] == '\n' && !Contains(pre, Fence)
    ensures !OccursAt(pre + rest, Fence, p)
  {
    if OccursAt(pre + rest, Fence, p) {
      var x := pre[..|pre| - 1];
      assert pre + rest == x + ['\n'] + rest;
      OccursAround(x, '\n', rest, Fence, p);
      if p + |Fence| <= |x| {
        OccursInSlice(pre, Fence, 0, |x|, p);
        OccursAtContains(pre, Fence, p);
      } else {
        OccursAtIndex(pre + rest, Fence, p, 0);
        assert false;
      }
    }
  }

  /** What follows the fence of a fenced answer holds no fence. */
  lemma RestHasNoFence(body: string)
    requires !Contains(body, Fence)
    ensures !Contains("\n" + body + "\n```", Fence)
  {
    assert forall k :: 0 <= k < |Fence| ==> Fence[k] != '\n';
    assert !Contains("```", Fence);
    assert !Contains("", Fence);
    var y := body + ['\n'] + "```";
    NoneAcrossBreak(body, "```", Fence);
    NoneAcrossBreak("", y, Fence);
    assert "" + ['\n'] + y == "\n" + body + "\n```";
  }

  /** A pattern without a line break that is in neither of two texts is not
      in the two joined by a line break either. */
  lemma NoneAcrossBreak(x: string, y: string, t: string)
    requires |t| > 0 && forall k :: 0 <= k < |t| ==> t[k] != '\n'
    requires !Contains(x, t) && !Contains(y, t)
    ensures !Contains(x + ['\n'] + y, t)
  {
    var s := x + ['\n'] + y;
    forall p: nat ensures OccursAt(s, t, p) ==> Contains(x, t) || Contains(y, t) {
      if OccursAt(s, t, p) {
        OccursAcrossBreak(x, y, t, p);
      }
    }
  }

  /** An occurrence of such a pattern in the two joined lies in one of them. */
  lemma OccursAcrossBreak(x: string, y: string, t: string, p: nat)
    requires |t| > 0 && forall k :: 0 <= k < |t| ==> t[k] != '\n'
    requires OccursAt(x + ['\n'] + y, t, p)
    ensures Contains(x, t) || Contains(y, t)
  {
    OccursAround(x, '\n', y, t, p);
    if p + |t| <= |x| && OccursAt(x, t, p) {
      OccursAtContains(x, t, p);
    } else {
      var z := ['\n'] + y;
      var q := p - |x|;
      assert z[q] == t[0] by { assert z[q..q + |t|][0] == z[q]; }
      assert OccursAt(y, t, q - 1) by { assert z[q..q + |t|] == y[q - 1..q - 1 + |t|]; }
      OccursAtContains(y, t, q - 1);
    }
  }
}
