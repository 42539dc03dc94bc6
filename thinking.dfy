/** `remove_thinking` (src/llms/__init__.py:28-29): `re.sub` of the pattern
    `<think>.*?</think>` with DOTALL, written out as the scan the regular
    expression engine performs. */
module Thinking {
  import opened Wrappers
  import opened Text

  const Open := "<think>"
  const Close := "</think>"

  /** Every leftmost `<think>` that has a later `</think>` is removed together
      with the text up to the first such `</think>` (non-greedy, across
      newlines); the scan goes on after the removed region. */
  function RemoveThinking(s: string): (r: string)
    ensures |r| <= |s|
  {
    RemoveRegions(s, Open, Close)
  }

  /** `re.sub` of `o.*?c` (DOTALL) with the empty string, for literal tags `o` and `c`. */
  function RemoveRegions(s: string, o: string, c: string): (r: string)
    requires |o| > 0
    decreases |s|
    ensures |r| <= |s|
  {
    match NextRegion(s, o, c)
    case None => s
    case Some((i, e)) => s[..i] + RemoveRegions(s[e..], o, c)
  }

  /** Where the leftmost match of `o.*?c` starts and ends: the first `o`, and
      the first `c` after it. Without such a `c` nothing matches, since a
      later `o` has no `c` after it either. */
  function NextRegion(s: string, o: string, c: string): (r: Option<(nat, nat)>)
    requires |o| > 0
    ensures r.Some? ==> r.value.0 < r.value.1 <= |s|
  {
    match FindFrom(s, o, 0)
    case None => None
    case Some(i) => CloseAfter(s, c, i, i + |o|)
  }

  /** The region opened at `i` closes at the first `c` at or after `k`. */
  function CloseAfter(s: string, c: string, i: nat, k: nat): (r: Option<(nat, nat)>)
    ensures r.Some? ==> r.value.0 == i && k <= r.value.1 <= |s|
  {
    match FindFrom(s, c, k)
    case None => None
    case Some(j) => Some((i, j + |c|))
  }

  /** The DeepSeek stream's final text: thinking removed, then `.strip()` (line 212). */
  function DeepSeekText(s: string): (r: string)
    ensures Strip(r) == r
  {
    StripIdempotent(RemoveThinking(s));
    Strip(RemoveThinking(s))
  }

  /** Text without `<think>` comes back unchanged. */
  lemma NoThinkingUnchanged(s: string)
    requires !Contains(s, Open)
    ensures RemoveThinking(s) == s
    ensures DeepSeekText(s) == Strip(s)
  {
    NoOpenUnchanged(s, Open, Close);
  }

  lemma NoOpenUnchanged(s: string, o: string, c: string)
    requires |o| > 0 && !Contains(s, o)
    ensures RemoveRegions(s, o, c) == s
  {
  }

  /** A `<think>` with no `</think>` after it is left in place, with everything after it. */
  lemma UnclosedThinkingKept(s: string, a: string, b: string)
    requires s == a + Open + b
    requires forall k: nat :: k < |a| ==> !OccursAt(s, Open, k)
    requires !Contains(b, Close)
    ensures RemoveThinking(s) == s
  {
    UnclosedKept(s, a, b, Open, Close);
  }

  lemma UnclosedKept(s: string, a: string, b: string, o: string, c: string)
    requires |o| > 0 && s == a + o + b
    requires forall k: nat :: k < |a| ==> !OccursAt(s, o, k)
    requires !Contains(b, c)
    ensures RemoveRegions(s, o, c) == s
  {
    var from := |a| + |o|;
    assert OccursAt(s, o, |a|) by { assert s[|a|..from] == o; }
    FindFromAt(s, o, 0, |a|);
    assert s[from..] == b;
    if FindFrom(s, c, from).Some? {
      var j := FindFrom(s, c, from).value;
      OccursToSlice(s, c, from, |s|, j);
      OccursAtContains(b, c, j - from);
    }
    RegionOf(s, o, c, |a|, None);
  }

  /** The first region goes: if the first `<think>` of `s` starts after `a`
      and the first `</think>` after it ends before `c`, the result is `a`
      followed by the removal applied to `c`. */
  lemma RemoveFirstRegion(s: string, a: string, b: string, c: string)
    requires s == a + Open + b + Close + c
    requires forall k: nat :: k < |a| ==> !OccursAt(s, Open, k)
    requires forall k: nat :: |a| + |Open| <= k < |a| + |Open| + |b| ==> !OccursAt(s, Close, k)
    ensures RemoveThinking(s) == a + RemoveThinking(c)
  {
    DropFirstRegion(s, a, b, c, Open, Close);
  }

  lemma DropFirstRegion(s: string, a: string, b: string, c: string, o: string, t: string)
    requires |o| > 0 && s == a + o + b + t + c
    requires forall k: nat :: k < |a| ==> !OccursAt(s, o, k)
    requires forall k: nat :: |a| + |o| <= k < |a| + |o| + |b| ==> !OccursAt(s, t, k)
    ensures RemoveRegions(s, o, t) == a + RemoveRegions(c, o, t)
  {
    var i := |a|;
    var k := |a| + |o|;
    var j := |a| + |o| + |b|;
    RegionPieces(s, a, b, c, o, t);
    RegionFound(s, o, t, i, k, j);
    RemoveRegionAt(s, o, t, i, j + |t|);
  }

  /** The first `o` at `i`, and the first `t` after it at `j`, make the first region. */
  lemma RegionFound(s: string, o: string, t: string, i: nat, k: nat, j: nat)
    requires |o| > 0 && k == i + |o| && k <= j
    requires OccursAt(s, o, i) && forall m: nat :: m < i ==> !OccursAt(s, o, m)
    requires OccursAt(s, t, j) && forall m: nat :: k <= m < j ==> !OccursAt(s, t, m)
    ensures NextRegion(s, o, t) == Some((i, j + |t|))
  {
    FindFromAt(s, o, 0, i);
    FindFromAt(s, t, k, j);
    CloseAt(s, t, i, k, j);
    RegionOf(s, o, t, i, Some((i, j + |t|)));
  }

  /** Where the pieces of `a + o + b + t + c` stand. */
  lemma RegionPieces(s: string, a: string, b: string, c: string, o: string, t: string)
    requires s == a + o + b + t + c
    ensures OccursAt(s, o, |a|) && OccursAt(s, t, |a| + |o| + |b|)
    ensures s[..|a|] == a && s[|a| + |o| + |b| + |t|..] == c
  {
    var i := |a|;
    var j := |a| + |o| + |b|;
    assert s[i..i + |o|] == o;
    assert s[j..j + |t|] == t;
  }

  lemma CloseAt(s: string, t: string, i: nat, k: nat, j: nat)
    requires FindFrom(s, t, k) == Some(j)
    ensures CloseAfter(s, t, i, k) == Some((i, j + |t|))
  {
  }

  /** The region found after the first `o`, at `i`. */
  lemma RegionOf(s: string, o: string, t: string, i: nat, r: Option<(nat, nat)>)
    requires |o| > 0 && FindFrom(s, o, 0) == Some(i) && CloseAfter(s, t, i, i + |o|) == r
    ensures NextRegion(s, o, t) == r
  {
  }

  /** One step of the scan, given the first region. */
  lemma RemoveRegionAt(s: string, o: string, t: string, i: nat, e: nat)
    requires |o| > 0 && NextRegion(s, o, t) == Some((i, e))
    ensures RemoveRegions(s, o, t) == s[..i] + RemoveRegions(s[e..], o, t)
  {
  }
}
