/** `parse_2d_arrays_from_string` (src/llms/__init__.py:1158-1178): the grids
    written as nested lists of integers anywhere in a model's reply.

    The outer pattern is `\[\s*(\[[^\[\]]*\](?:,\s*\[[^\[\]]*\])*\s*)\]` and
    the row pattern `\[([^\]]*)\]`. Each part of either pattern is followed
    by a character it cannot consume (whitespace by a bracket, a row body by a
    bracket, a repetition by `,` or the closing bracket), so backtracking
    never finds a second way to match: the matcher below is a single
    left-to-right scan per start position, and `re.findall` resumes after the
    end of each match, or one character further when nothing matches. */
module GridParser {
  import opened Wrappers
  import opened Text

  type Grid = seq<seq<int>>

  // ------------------------------------------------------------ the patterns

  /** Where `\s*` started at `i` stops. */
  function SkipSpace(s: string, i: nat): (r: nat)
    requires i <= |s|
    decreases |s| - i
    ensures i <= r <= |s|
  {
    if i < |s| && IsSpace(s[i]) then SkipSpace(s, i + 1) else i
  }

  /** `\s*` takes exactly the whitespace run up to the first other character. */
  lemma {:induction false} SkipSpaceTo(s: string, i: nat, j: nat)
    requires i <= j < |s| && !IsSpace(s[j])
    requires forall k :: i <= k < j ==> IsSpace(s[k])
    ensures SkipSpace(s, i) == j
    decreases j - i
  {
    if i < j {
      SkipSpaceTo(s, i + 1, j);
    }
  }

  predicate IsBracket(c: char) {
    c == '[' || c == ']'
  }

  /** Where `[^\[\]]*` started at `i` stops. */
  function SkipRowBody(s: string, i: nat): (r: nat)
    requires i <= |s|
    decreases |s| - i
    ensures i <= r <= |s|
  {
    if i < |s| && !IsBracket(s[i]) then SkipRowBody(s, i + 1) else i
  }

  /** `[^\[\]]*` takes exactly the run up to the first bracket. */
  lemma {:induction false} SkipRowBodyTo(s: string, i: nat, j: nat)
    requires i <= j < |s| && IsBracket(s[j])
    requires forall k :: i <= k < j ==> !IsBracket(s[k])
    ensures SkipRowBody(s, i) == j
    decreases j - i
  {
    if i < j {
      SkipRowBodyTo(s, i + 1, j);
    }
  }

  /** One round of `(?:,\s*\[[^\[\]]*\])` tried at `i`: where it ends, when it matches. */
  function RowRound(s: string, i: nat): (r: Option<nat>)
    requires i <= |s|
    ensures r.Some? ==> i < r.value <= |s|
  {
    if i < |s| && s[i] == ',' then
      var j := SkipSpace(s, i + 1);
      if j < |s| && s[j] == '[' then
        var k := SkipRowBody(s, j + 1);
        if k < |s| && s[k] == ']' then Some(k + 1) else None
      else None
    else None
  }

  /** Where the repetition `(?:,\s*\[[^\[\]]*\])*` started at `i` stops. */
  function MoreRows(s: string, i: nat): (r: nat)
    requires i <= |s|
    decreases |s| - i
    ensures i <= r <= |s|
  {
    match RowRound(s, i)
    case Some(j) => MoreRows(s, j)
    case None => i
  }

  /** The outer pattern tried at `p`: when it matches, the bounds `(lo, hi)` of
      group 1; the match itself ends with the `]` at `hi`. */
  function MatchAt(s: string, p: nat): (r: Option<(nat, nat)>)
    requires p <= |s|
    ensures r.Some? ==> p < r.value.0 < r.value.1 < |s|
    ensures r.Some? ==> s[p] == '[' && s[r.value.0] == '[' && s[r.value.1] == ']'
  {
    if p < |s| && s[p] == '[' then
      var lo := SkipSpace(s, p + 1);
      if lo < |s| && s[lo] == '[' then
        var k := SkipRowBody(s, lo + 1);
        if k < |s| && s[k] == ']' then
          var hi := SkipSpace(s, MoreRows(s, k + 1));
          if hi < |s| && s[hi] == ']' then Some((lo, hi)) else None
        else None
      else None
    else None
  }

  /** `re.findall` of the outer pattern from `p` on: the group of every match. */
  function Matches(s: string, p: nat): (r: seq<string>)
    requires p <= |s|
    decreases |s| - p
    ensures forall k :: 0 <= k < |r| ==> |r[k]| > 0 && r[k][0] == '['
  {
    if p == |s| then []
    else match MatchAt(s, p)
      case Some((lo, hi)) => [s[lo..hi]] + Matches(s, hi + 1)
      case None => Matches(s, p + 1)
  }

  /** Where `[^\]]*` started at `i` stops. */
  function SkipToClose(s: string, i: nat): (r: nat)
    requires i <= |s|
    decreases |s| - i
    ensures i <= r <= |s|
    ensures forall k :: i <= k < r ==> s[k] != ']'
    ensures r == |s| || s[r] == ']'
  {
    if i < |s| && s[i] != ']' then SkipToClose(s, i + 1) else i
  }

  /** `re.findall` of the row pattern from `p` on: what stands between each
      `[` and the next `]`. */
  function RowMatches(s: string, p: nat): (r: seq<string>)
    requires p <= |s|
    decreases |s| - p
    ensures forall k :: 0 <= k < |r| ==> ']' !in r[k]
  {
    if p == |s| then []
    else if s[p] == '[' && SkipToClose(s, p + 1) < |s| then
      var c := SkipToClose(s, p + 1);
      [s[p + 1..c]] + RowMatches(s, c + 1)
    else RowMatches(s, p + 1)
  }

  // ------------------------------------------------------------- conversion

  const InvalidLiteral := "invalid literal for int() with base 10: "

  /** The ValueError `int(n)` raises for a token it refuses. */
  function IntError(n: string): (e: Error)
    ensures e.cls == ValueError
  {
    Error(ValueError, InvalidLiteral + "'" + n + "'")
  }

  /** A token the comprehension gets through: blank once stripped (and
      skipped), or one `int` accepts. `int` strips its argument itself, so
      `int(n.strip())` and `int(n)` agree. */
  predicate Convertible(n: string) {
    Strip(n) == "" || ParseInt(n).Some?
  }

  /** `[int(n.strip()) for n in tokens if n.strip()]`: the integers of the
      non-blank tokens, or the ValueError of the first token `int` refuses. */
  function ParseTokens(tokens: seq<string>): (r: Result<seq<int>>)
    decreases |tokens|
    ensures r.Ok? <==> forall k :: 0 <= k < |tokens| ==> Convertible(tokens[k])
    ensures r.Err? ==> r.error.cls == ValueError
    ensures r.Ok? ==> |r.value| <= |tokens|
  {
    if |tokens| == 0 then Ok([])
    else
      var init := ParseTokens(tokens[..|tokens| - 1]);
      var n := tokens[|tokens| - 1];
      assert forall k :: 0 <= k < |tokens| - 1 ==> tokens[..|tokens| - 1][k] == tokens[k];
      if init.Err? then init
      else if Strip(n) == "" then init
      else match ParseInt(n)
        case None => Err(IntError(Strip(n)))
        case Some(v) => Ok(init.value + [v])
  }

  /** One row: its comma-separated tokens converted. */
  function ParseRow(row: string): (r: Result<seq<int>>)
    ensures r.Ok? ==> |r.value| <= |Split(row, ",")|
    ensures r.Err? ==> r.error.cls == ValueError
  {
    ParseTokens(Split(row, ","))
  }

  /** The per-row results of one match. */
  function RowResults(rows: seq<string>): (r: seq<Result<seq<int>>>)
    ensures |r| == |rows| && forall k :: 0 <= k < |rows| ==> r[k] == ParseRow(rows[k])
  {
    seq(|rows|, k requires 0 <= k < |rows| => ParseRow(rows[k]))
  }

  /** One match converted: the rows the row pattern finds in it. */
  function ParseGrid(m: string): (r: Result<Grid>)
    ensures r.Ok? ==> |r.value| == |RowMatches(m, 0)|
    ensures r.Err? ==> r.error.cls == ValueError
  {
    Collect(RowResults(RowMatches(m, 0)))
  }

  /** The per-match results of a reply. */
  function GridResults(ms: seq<string>): (r: seq<Result<Grid>>)
    ensures |r| == |ms| && forall k :: 0 <= k < |ms| ==> r[k] == ParseGrid(ms[k])
  {
    seq(|ms|, k requires 0 <= k < |ms| => ParseGrid(ms[k]))
  }

  /** What `parse_2d_arrays_from_string` returns, or the ValueError it raises. */
  function Parse2dArrays(s: string): (r: Result<seq<Grid>>)
    // one grid per bracketed match, or the ValueError of a token `int` refuses
    ensures r.Ok? ==> |r.value| == |Matches(s, 0)|
    ensures r.Err? ==> r.error.cls == ValueError
  {
    Collect(GridResults(Matches(s, 0)))
  }

  /** The list comprehension of `parse_2d_arrays_from_string` on one row. */
  method ConvertRow(row: string) returns (r: Result<seq<int>>)
    ensures r == ParseRow(row)
  {
    var tokens := Split(row, ",");
    var nums: seq<int> := [];
    var k := 0;
    while k < |tokens|
      invariant 0 <= k <= |tokens|
      invariant ParseTokens(tokens[..k]) == Ok(nums)
    {
      var n := Strip(tokens[k]);
      TokenStep(tokens, k);
      if n != "" {
        match ParseInt(n)
        case None =>
          ParseTokensErrStays(tokens, k + 1);
          return Err(IntError(n));
        case Some(v) =>
          nums := nums + [v];
      }
      k := k + 1;
    }
    assert tokens[..k] == tokens;
    r := Ok(nums);
  }

  /** The loop over the rows the row pattern finds in one match. */
  method ConvertMatch(m: string) returns (r: Result<Grid>)
    ensures r == ParseGrid(m)
  {
    var rows := RowMatches(m, 0);
    var array2d: Grid := [];
    var j := 0;
    while j < |rows|
      invariant 0 <= j <= |rows|
      invariant Collect(RowResults(rows)[..j]) == Ok(array2d)
    {
      var nums := ConvertRow(rows[j]);
      if nums.Err? {
        CollectFails(RowResults(rows), j, nums.error);
        return Err(nums.error);
      }
      CollectStep(RowResults(rows), j);
      array2d := array2d + [nums.value];
      j := j + 1;
    }
    assert RowResults(rows)[..j] == RowResults(rows);
    r := Ok(array2d);
  }

  /** The loop of `parse_2d_arrays_from_string` over the matches of the outer
      pattern. */
  method Parse2dArraysFromString(s: string) returns (r: Result<seq<Grid>>)
    ensures r == Parse2dArrays(s)
  {
    var matches := Matches(s, 0);
    var arraysList: seq<Grid> := [];
    var i := 0;
    while i < |matches|
      invariant 0 <= i <= |matches|
      invariant Collect(GridResults(matches)[..i]) == Ok(arraysList)
    {
      var array2d := ConvertMatch(matches[i]);
      if array2d.Err? {
        CollectFails(GridResults(matches), i, array2d.error);
        return Err(array2d.error);
      }
      CollectStep(GridResults(matches), i);
      arraysList := arraysList + [array2d.value];
      i := i + 1;
    }
    assert GridResults(matches)[..i] == GridResults(matches);
    r := Ok(arraysList);
  }

  /** The comprehension's step on token `k`, after tokens that all got through. */
  lemma TokenStep(tokens: seq<string>, k: nat)
    requires k < |tokens| && ParseTokens(tokens[..k]).Ok?
    ensures var n := Strip(tokens[k]);
      ParseTokens(tokens[..k + 1]) ==
        if n == "" then ParseTokens(tokens[..k])
        else if ParseInt(n).None? then Err(IntError(n))
        else Ok(ParseTokens(tokens[..k]).value + [ParseInt(n).value])
  {
    assert tokens[..k + 1][..k] == tokens[..k];
    ParseIntStripped(tokens[k]);
  }

  /** The comprehension's outcome over consecutive token runs: the first
      error, or the values of the first run followed by those of the second. */
  function Chain(x: Result<seq<int>>, y: Result<seq<int>>): Result<seq<int>> {
    if x.Err? then x else if y.Err? then y else Ok(x.value + y.value)
  }

  /** One more token after a run that gave `x`. */
  function StepToken(x: Result<seq<int>>, n: string): Result<seq<int>> {
    if x.Err? || Strip(n) == "" then x
    else match ParseInt(n)
      case None => Err(IntError(Strip(n)))
      case Some(v) => Ok(x.value + [v])
  }

  /** A blank token is skipped, a token `int` refuses raises, and any other
      token gives its integer. */
  lemma ParseTokensOne(n: string)
    ensures ParseTokens([n]) == if Strip(n) == "" then Ok([])
                                else if ParseInt(n).None? then Err(IntError(Strip(n)))
                                else Ok([ParseInt(n).value])
  {
    ParseTokensLast([n], [], n);
    var none: seq<int> := [];
    if ParseInt(n).Some? {
      assert none + [ParseInt(n).value] == [ParseInt(n).value];
    }
  }

  /** The comprehension over `a + b` is the one over `a` chained with the one over `b`. */
  lemma {:induction false} ParseTokensAppend(a: seq<string>, b: seq<string>)
    ensures ParseTokens(a + b) == Chain(ParseTokens(a), ParseTokens(b))
    decreases |b|
  {
    if |b| == 0 {
      assert a + b == a;
      if ParseTokens(a).Ok? {
        assert ParseTokens(a).value + [] == ParseTokens(a).value;
      }
    } else {
      var init, n := b[..|b| - 1], b[|b| - 1];
      ParseTokensAppend(a, init);
      ParseTokensLast(a + b, a + init, n);
      ParseTokensLast(b, init, n);
      StepChain(ParseTokens(a), ParseTokens(init), n);
    }
  }

  lemma ParseTokensLast(ts: seq<string>, init: seq<string>, n: string)
    requires |ts| > 0 && init == ts[..|ts| - 1] && n == ts[|ts| - 1]
    ensures ParseTokens(ts) == StepToken(ParseTokens(init), n)
  {
  }

  lemma StepChain(x: Result<seq<int>>, y: Result<seq<int>>, n: string)
    ensures StepToken(Chain(x, y), n) == Chain(x, StepToken(y, n))
  {
    if x.Ok? && y.Ok? && Strip(n) != "" && ParseInt(n).Some? {
      assert x.value + y.value + [ParseInt(n).value] == x.value + (y.value + [ParseInt(n).value]);
    }
  }

  /** Tokens that are all integers give all their integers, in order. */
  lemma ParseTokensValues(tokens: seq<string>)
    requires forall k :: 0 <= k < |tokens| ==> Strip(tokens[k]) != "" && ParseInt(tokens[k]).Some?
    ensures ParseTokens(tokens).Ok? && |ParseTokens(tokens).value| == |tokens|
    ensures forall k :: 0 <= k < |tokens| ==> ParseTokens(tokens).value[k] == ParseInt(tokens[k]).value
  {
    var vals := seq(|tokens|, k requires 0 <= k < |tokens| => ParseInt(tokens[k]).value);
    ParseTokensAll(tokens, vals);
  }

  /** Once the tokens up to `k` fail, the whole row fails with their error. */
  lemma {:induction false} ParseTokensErrStays(tokens: seq<string>, k: nat)
    requires k <= |tokens| && ParseTokens(tokens[..k]).Err?
    ensures ParseTokens(tokens) == ParseTokens(tokens[..k])
    decreases |tokens| - k
  {
    if k < |tokens| {
      assert tokens[..k + 1][..k] == tokens[..k];
      ParseTokensErrStays(tokens, k + 1);
    } else {
      assert tokens[..k] == tokens;
    }
  }
  /** `int` strips its argument, so stripping it first changes nothing. */
  lemma ParseIntStripped(n: string)
    ensures ParseInt(Strip(n)) == ParseInt(n)
  {
    StripIdempotent(n);
  }

  // ------------------------------------------------------------- round trip

  /** Python's `str` of each integer of a row. */
  function IntTexts(row: seq<int>): (r: seq<string>)
    ensures |r| == |row| && forall k :: 0 <= k < |row| ==> r[k] == IntToString(row[k])
  {
    seq(|row|, k requires 0 <= k < |row| => IntToString(row[k]))
  }

  /** What stands between the brackets of a row written by Python's `str`: `1, -2, 3`. */
  function RowBody(row: seq<int>): string {
    Join(IntTexts(row), ", ")
  }

  /** Python's `str` of a list of integers: `[1, -2, 3]`. */
  function RowText(row: seq<int>): string {
    "[" + RowBody(row) + "]"
  }

  function RowTexts(g: Grid): (r: seq<string>)
    ensures |r| == |g| && forall k :: 0 <= k < |g| ==> r[k] == RowText(g[k])
  {
    seq(|g|, k requires 0 <= k < |g| => RowText(g[k]))
  }

  /** Python's `str` of a grid: `[[1, 2], [3, 4]]`, the form a model copies
      from its prompt. */
  function GridText(g: Grid): string {
    "[" + Join(RowTexts(g), ", ") + "]"
  }

  /** `t` occurs in `a + b` at `i` exactly when its two parts do. */
  lemma OccursSplit(s: string, a: string, b: string, i: nat)
    requires OccursAt(s, a + b, i)
    ensures OccursAt(s, a, i) && OccursAt(s, b, i + |a|)
  {
    assert s[i..i + |a|] == (a + b)[..|a|];
    assert s[i + |a|..i + |a| + |b|] == (a + b)[|a|..];
  }

  /** Both halves of a concatenation occur in it. */
  lemma OccursBoth(a: string, b: string)
    ensures OccursAt(a + b, a, 0) && OccursAt(a + b, b, |a|)
  {
    assert (a + b)[0..|a|] == a;
    assert (a + b)[|a|..|a| + |b|] == b;
  }

  /** A join opens with its first piece. */
  lemma JoinFirst(xs: seq<string>, sep: string)
    requires |xs| > 0
    ensures Join(xs, sep) == xs[0] + (if |xs| == 1 then "" else sep + Join(xs[1..], sep))
  {
  }

  /** The body of a row holds no bracket. */
  lemma {:induction false} RowBodyNoBracket(row: seq<int>)
    ensures forall k :: 0 <= k < |RowBody(row)| ==> !IsBracket(RowBody(row)[k])
  {
    var xs := IntTexts(row);
    JoinAvoids(xs, ", ", '[');
    JoinAvoids(xs, ", ", ']');
  }

  /** A bracketed row with no bracket inside: what the row part of the outer
      pattern and the row pattern each take whole. */
  predicate IsRowText(t: string) {
    && |t| >= 2 && t[0] == '[' && t[|t| - 1] == ']'
    && forall k :: 0 < k < |t| - 1 ==> !IsBracket(t[k])
  }

  /** The inside of a bracketed row. */
  function Inside(t: string): string {
    if |t| >= 2 then t[1..|t| - 1] else ""
  }

  lemma RowTextShape(row: seq<int>)
    ensures IsRowText(RowText(row)) && Inside(RowText(row)) == RowBody(row)
  {
    RowBodyNoBracket(row);
    var t := RowText(row);
    assert forall k :: 0 < k < |t| - 1 ==> t[k] == RowBody(row)[k - 1];
  }

  /** A row written at `i`: the bodies of both patterns run to its closing bracket. */
  lemma RowAt(s: string, i: nat, t: string)
    requires IsRowText(t) && OccursAt(s, t, i)
    ensures s[i] == '[' && s[i + |t| - 1] == ']'
    ensures SkipRowBody(s, i + 1) == i + |t| - 1
    ensures SkipToClose(s, i + 1) == i + |t| - 1
    ensures s[i + 1..i + |t| - 1] == Inside(t)
  {
    assert forall k :: 0 <= k < |t| ==> s[i + k] == t[k] by {
      assert s[i..i + |t|] == t;
    }
    SkipRowBodyTo(s, i + 1, i + |t| - 1);
    assert s[i + 1..i + |t| - 1] == s[i..i + |t|][1..|t| - 1];
  }

  /** Rows written one after the other, each after `, `: what follows the
      first row of a grid. */
  function Tail(ts: seq<string>): string
    decreases |ts|
  {
    if |ts| == 0 then "" else ", " + ts[0] + Tail(ts[1..])
  }

  /** A `", "`-join is its first piece followed by the tail of the others. */
  lemma {:induction false} JoinTail(ts: seq<string>)
    requires |ts| > 0
    ensures Join(ts, ", ") == ts[0] + Tail(ts[1..])
    decreases |ts|
  {
    if |ts| > 1 {
      JoinTail(ts[1..]);
      assert ts[1..][1..] == ts[2..];
    }
  }

  /** One round of the repetition over a row written after `, `. */
  lemma RowRoundAt(s: string, i: nat, t: string)
    requires IsRowText(t) && OccursAt(s, ", " + t, i)
    ensures RowRound(s, i) == Some(i + 2 + |t|)
  {
    OccursSplit(s, ", ", t, i);
    assert s[i] == ',' && s[i + 1] == ' ' by {
      assert s[i..i + 2] == ", ";
    }
    RowAt(s, i + 2, t);
    SkipSpaceTo(s, i + 1, i + 2);
  }

  lemma MoreRowsStep(s: string, i: nat, t: string)
    requires IsRowText(t) && OccursAt(s, ", " + t, i)
    ensures MoreRows(s, i) == MoreRows(s, i + 2 + |t|)
  {
    RowRoundAt(s, i, t);
  }

  /** The rows `ts` stand at `i`, each after `, `. */
  predicate RowsAt(s: string, i: nat, ts: seq<string>)
    decreases |ts|
  {
    |ts| == 0 || (IsRowText(ts[0]) && OccursAt(s, ", " + ts[0], i) && RowsAt(s, i + 2 + |ts[0]|, ts[1..]))
  }

  /** A tail of row texts written at `i` puts each row where `RowsAt` expects it. */
  lemma {:induction false} TailRowsAt(s: string, i: nat, ts: seq<string>)
    requires forall k :: 0 <= k < |ts| ==> IsRowText(ts[k])
    requires OccursAt(s, Tail(ts), i)
    ensures RowsAt(s, i, ts)
    decreases |ts|
  {
    if |ts| > 0 {
      var rest := ts[1..];
      OccursSplit(s, ", " + ts[0], Tail(rest), i);
      assert forall k :: 0 <= k < |rest| ==> rest[k] == ts[k + 1];
      TailRowsAt(s, i + 2 + |ts[0]|, rest);
    }
  }

  /** The repetition stops at a character other than `,`. */
  lemma MoreRowsStop(s: string, i: nat)
    requires i < |s| && s[i] != ','
    ensures MoreRows(s, i) == i
  {
    assert RowRound(s, i).None?;
  }

  /** The repetition over all the rows of a tail, up to a character other than `,`. */
  lemma {:induction false} MoreRowsAt(s: string, i: nat, ts: seq<string>)
    requires RowsAt(s, i, ts)
    requires i + |Tail(ts)| < |s| && s[i + |Tail(ts)|] != ','
    ensures MoreRows(s, i) == i + |Tail(ts)|
    decreases |ts|
  {
    if |ts| == 0 {
      MoreRowsStop(s, i);
    } else {
      MoreRowsAt(s, i + 2 + |ts[0]|, ts[1..]);
      MoreRowsCons(s, i, ts[0], i + 2 + |ts[0]|, i + |Tail(ts)|);
    }
  }

  /** One row after `, ` at `i`, and the repetition from `next` on stopping at `e`. */
  lemma MoreRowsCons(s: string, i: nat, t: string, next: nat, e: nat)
    requires IsRowText(t) && OccursAt(s, ", " + t, i) && next == i + 2 + |t|
    requires next <= |s| && MoreRows(s, next) == e
    ensures MoreRows(s, i) == e
  {
    MoreRowsStep(s, i, t);
  }

  /** The insides of rows, in order. */
  function Insides(ts: seq<string>): (r: seq<string>)
    decreases |ts|
    ensures |r| == |ts|
  {
    if |ts| == 0 then [] else [Inside(ts[0])] + Insides(ts[1..])
  }

  /** The row pattern over a tail of rows that runs to the end of `s`. */
  lemma {:induction false} TailRowMatches(s: string, i: nat, ts: seq<string>)
    requires RowsAt(s, i, ts) && i + |Tail(ts)| == |s|
    ensures RowMatches(s, i) == Insides(ts)
    decreases |ts|
  {
    if |ts| > 0 {
      OccursSplit(s, ", ", ts[0], i);
      assert s[i] == ',' && s[i + 1] == ' ' by {
        assert s[i..i + 2] == ", ";
      }
      RowMatchesFirst(s, i + 2, ts[0]);
      assert RowMatches(s, i) == RowMatches(s, i + 2);
      TailRowMatches(s, i + 2 + |ts[0]|, ts[1..]);
    }
  }

  /** Every row Python's `str` writes is a bracketed row. */
  lemma AllRowTexts(g: Grid)
    ensures forall k :: 0 <= k < |g| ==> IsRowText(RowTexts(g)[k]) && Inside(RowTexts(g)[k]) == RowBody(g[k])
  {
    forall k | 0 <= k < |g|
      ensures IsRowText(RowTexts(g)[k]) && Inside(RowTexts(g)[k]) == RowBody(g[k])
    {
      RowTextShape(g[k]);
    }
  }

  /** The insides of the rows of a grid are the rows' bodies. */
  lemma {:induction false} InsidesOfGrid(g: Grid)
    ensures forall k :: 0 <= k < |g| ==> Insides(RowTexts(g))[k] == RowBody(g[k])
    decreases |g|
  {
    if |g| > 0 {
      AllRowTexts(g);
      assert RowTexts(g)[1..] == RowTexts(g[1..]);
      InsidesOfGrid(g[1..]);
    }
  }

  /** The row pattern at a row written at `i` takes its inside. */
  lemma RowMatchesFirst(s: string, i: nat, t: string)
    requires IsRowText(t) && OccursAt(s, t, i)
    ensures RowMatches(s, i) == [Inside(t)] + RowMatches(s, i + |t|)
  {
    RowAt(s, i, t);
  }

  /** The row pattern over `", "`-joined rows finds the inside of each row. */
  lemma BodyRows(ts: seq<string>)
    requires |ts| > 0 && forall k :: 0 <= k < |ts| ==> IsRowText(ts[k])
    ensures RowMatches(Join(ts, ", "), 0) == Insides(ts)
  {
    JoinTail(ts);
    FirstAndTailRows(ts, Join(ts, ", "));
  }

  /** The row pattern over a first row followed by a tail of rows. */
  lemma FirstAndTailRows(ts: seq<string>, body: string)
    requires |ts| > 0 && forall k :: 0 <= k < |ts| ==> IsRowText(ts[k])
    requires body == ts[0] + Tail(ts[1..])
    ensures RowMatches(body, 0) == Insides(ts)
  {
    var rest := ts[1..];
    OccursBoth(ts[0], Tail(rest));
    RowMatchesFirst(body, 0, ts[0]);
    assert forall k :: 0 <= k < |rest| ==> rest[k] == ts[k + 1];
    TailRowsAt(body, |ts[0]|, rest);
    TailRowMatches(body, |ts[0]|, rest);
    InsidesCons(ts, RowMatches(body, |ts[0]|));
  }

  lemma InsidesCons(ts: seq<string>, x: seq<string>)
    requires |ts| > 0 && x == Insides(ts[1..])
    ensures Insides(ts) == [Inside(ts[0])] + x
  {
  }

  /** Where the pieces of a grid written at `b` stand. */
  lemma GridLayout(s: string, b: nat, ts: seq<string>)
    requires |ts| > 0 && forall k :: 0 <= k < |ts| ==> IsRowText(ts[k])
    requires OccursAt(s, "[" + ts[0] + Tail(ts[1..]) + "]", b)
    ensures s[b] == '[' && OccursAt(s, ts[0], b + 1)
    ensures RowsAt(s, b + 1 + |ts[0]|, ts[1..])
    ensures b + 1 + |ts[0]| + |Tail(ts[1..])| < |s| && s[b + 1 + |ts[0]| + |Tail(ts[1..])|] == ']'
  {
    var rest := ts[1..];
    var e := b + 1 + |ts[0]| + |Tail(rest)|;
    OccursSplit(s, "[" + ts[0] + Tail(rest), "]", b);
    OccursSplit(s, "[" + ts[0], Tail(rest), b);
    OccursSplit(s, "[", ts[0], b);
    assert s[b] == '[' by { assert s[b..b + 1] == "["; }
    assert s[e] == ']' by { assert s[e..e + 1] == "]"; }
    assert forall k :: 0 <= k < |rest| ==> rest[k] == ts[k + 1];
    TailRowsAt(s, b + 1 + |ts[0]|, rest);
  }

  /** The row body of a row written at `i` runs to its closing bracket. */
  lemma RowBodyAt(s: string, i: nat, t: string)
    requires IsRowText(t) && OccursAt(s, t, i)
    ensures i + |t| <= |s| && s[i] == '[' && SkipRowBody(s, i + 1) == i + |t| - 1 && s[i + |t| - 1] == ']'
  {
    RowAt(s, i, t);
  }

  /** The outer pattern at `b` when its first row closes at `k` and the rows end at `e`. */
  lemma MatchAtClose(s: string, b: nat, k: nat, e: nat)
    requires b + 1 < k < e < |s| && s[b] == '[' && s[b + 1] == '['
    requires SkipRowBody(s, b + 2) == k && s[k] == ']' && MoreRows(s, k + 1) == e && s[e] == ']'
    ensures MatchAt(s, b) == Some((b + 1, e))
  {
    SkipSpaceTo(s, b + 1, b + 1);
    SkipSpaceTo(s, e, e);
    MatchAtStops(s, b, b + 1, k, e, e);
  }

  /** The outer pattern at `p`, given where each of its parts stops. */
  lemma MatchAtStops(s: string, p: nat, lo: nat, k: nat, m: nat, hi: nat)
    requires p < |s| && s[p] == '[' && SkipSpace(s, p + 1) == lo
    requires lo < |s| && s[lo] == '[' && SkipRowBody(s, lo + 1) == k
    requires k < |s| && s[k] == ']' && MoreRows(s, k + 1) == m && SkipSpace(s, m) == hi
    requires hi < |s| && s[hi] == ']'
    ensures MatchAt(s, p) == Some((lo, hi))
  {
  }

  /** A grid written at `b`: the outer pattern matches there, and group 1 is
      everything between the outer brackets. */
  lemma MatchAtGrid(s: string, b: nat, ts: seq<string>, k: nat, e: nat)
    requires |ts| > 0 && forall m :: 0 <= m < |ts| ==> IsRowText(ts[m])
    requires OccursAt(s, "[" + ts[0] + Tail(ts[1..]) + "]", b)
    requires k == b + |ts[0]| && e == k + 1 + |Tail(ts[1..])|
    ensures MatchAt(s, b) == Some((b + 1, e))
  {
    GridIndices(s, b, ts, k, e);
    MatchAtClose(s, b, k, e);
  }

  /** Where each part of the outer pattern stops over a grid written at `b`:
      the first row closes at `k`, the further rows end at `e`. */
  lemma GridIndices(s: string, b: nat, ts: seq<string>, k: nat, e: nat)
    requires |ts| > 0 && forall m :: 0 <= m < |ts| ==> IsRowText(ts[m])
    requires OccursAt(s, "[" + ts[0] + Tail(ts[1..]) + "]", b)
    requires k == b + |ts[0]| && e == k + 1 + |Tail(ts[1..])|
    ensures b + 1 < k < e < |s| && s[b] == '[' && s[b + 1] == '[' && s[k] == ']'
    ensures SkipRowBody(s, b + 2) == k && MoreRows(s, k + 1) == e && s[e] == ']'
  {
    GridLayout(s, b, ts);
    MoreRowsAt(s, k + 1, ts[1..]);
    RowBodyAt(s, b + 1, ts[0]);
  }

  /** No outer match starts where there is no `[`. */
  lemma {:induction false} MatchesSkip(s: string, p: nat, q: nat)
    requires p <= q <= |s|
    requires forall j :: p <= j < q ==> s[j] != '['
    ensures Matches(s, p) == Matches(s, q)
    decreases q - p
  {
    if p < q {
      MatchesSkip(s, p + 1, q);
    }
  }

  /** A reply without `[` holds no grid. */
  lemma NoBracketNoGrid(s: string)
    requires '[' !in s
    ensures Parse2dArrays(s) == Ok([])
  {
    MatchesSkip(s, 0, |s|);
  }

  // ------------------------------------------------------------ row values

  /** Each string after the first with a space in front. */
  function Padded(zs: seq<string>): (r: seq<string>)
    ensures |r| == |zs| && forall k :: 0 <= k < |zs| ==> r[k] == " " + zs[k]
  {
    seq(|zs|, k requires 0 <= k < |zs| => " " + zs[k])
  }

  /** A `,`-join of padded pieces is a tail of the unpadded ones. */
  lemma {:induction false} JoinPadded(h: string, zs: seq<string>)
    ensures Join([h] + Padded(zs), ",") == h + Tail(zs)
    decreases |zs|
  {
    if |zs| > 0 {
      var ps := [h] + Padded(zs);
      assert ps[1..] == [" " + zs[0]] + Padded(zs[1..]);
      JoinPadded(" " + zs[0], zs[1..]);
    } else {
      assert [h] + Padded(zs) == [h];
    }
  }

  /** A string without `c` has no occurrence of `[c]`. */
  lemma FindAbsent(x: string, c: char)
    requires c !in x
    ensures FindFrom(x, [c], 0).None?
  {
    if FindFrom(x, [c], 0).Some? {
      OccursAtIndex(x, [c], FindFrom(x, [c], 0).value, 0);
      assert false;
    }
  }

  /** Splitting on a character none of the pieces holds gives the pieces back. */
  lemma {:induction false} SplitJoin(parts: seq<string>, c: char)
    requires |parts| > 0 && forall k :: 0 <= k < |parts| ==> c !in parts[k]
    ensures Split(Join(parts, [c]), [c]) == parts
    decreases |parts|
  {
    if |parts| == 1 {
      FindAbsent(parts[0], c);
    } else {
      var x := Join(parts, [c]);
      var h := parts[0];
      var rest := Join(parts[1..], [c]);
      assert x == h + [c] + rest;
      assert x[|h|] == c;
      assert OccursAt(x, [c], |h|) by { assert x[|h|..|h| + 1] == [c]; }
      forall j: nat | j < |h| ensures !OccursAt(x, [c], j) {
        assert x[j] == h[j];
        assert x[j..j + 1][0] == x[j];
      }
      FindFromAt(x, [c], 0, |h|);
      assert x[..|h|] == h;
      assert x[|h| + 1..] == rest;
      var tl := parts[1..];
      assert forall k :: 0 <= k < |tl| ==> tl[k] == parts[k + 1];
      SplitJoin(tl, c);
    }
  }

  /** Tokens that all hold integers give those integers, prefix by prefix. */
  lemma {:induction false} ParseTokensPrefix(tokens: seq<string>, vals: seq<int>, k: nat)
    requires k <= |tokens| == |vals|
    requires forall j :: 0 <= j < |tokens| ==> Strip(tokens[j]) != "" && ParseInt(tokens[j]) == Some(vals[j])
    ensures ParseTokens(tokens[..k]) == Ok(vals[..k])
    decreases k
  {
    if k == 0 {
      assert tokens[..0] == [];
    } else {
      ParseTokensPrefix(tokens, vals, k - 1);
      ParseTokensStep(tokens, vals, k, tokens[k - 1], vals[k - 1]);
    }
  }

  /** One more token holding an integer adds that integer. */
  lemma ParseTokensStep(tokens: seq<string>, vals: seq<int>, k: nat, n: string, v: int)
    requires 0 < k <= |tokens| && k <= |vals| && n == tokens[k - 1] && v == vals[k - 1]
    requires ParseTokens(tokens[..k - 1]) == Ok(vals[..k - 1])
    requires Strip(n) != "" && ParseInt(n) == Some(v)
    ensures ParseTokens(tokens[..k]) == Ok(vals[..k])
  {
    TokenStep(tokens, k - 1);
    ParseIntStripped(n);
    assert vals[..k] == vals[..k - 1] + [v];
  }

  /** Tokens that all hold integers give those integers. */
  lemma ParseTokensAll(tokens: seq<string>, vals: seq<int>)
    requires |tokens| == |vals|
    requires forall k :: 0 <= k < |tokens| ==> Strip(tokens[k]) != "" && ParseInt(tokens[k]) == Some(vals[k])
    ensures ParseTokens(tokens) == Ok(vals)
  {
    WholePrefix(tokens);
    WholePrefix(vals);
    ParseTokensPrefix(tokens, vals, |tokens|);
  }

  lemma WholePrefix<T>(s: seq<T>)
    ensures s[..|s|] == s
  {
  }

  /** `" " + t` strips to `t` when `t` has no surrounding whitespace. */
  lemma StripPadded(t: string)
    requires |t| > 0 && !IsSpace(t[0]) && !IsSpace(t[|t| - 1])
    ensures Strip(" " + t) == t && Strip(t) == t
  {
    assert (" " + t)[1..] == t;
    assert TrimLeft(" " + t) == TrimLeft(t);
    StripUnchanged(t);
  }

  /** `int` reads back the integer `str` wrote, with or without a space in front. */
  lemma ReadBack(x: int, padded: bool)
    ensures var t := (if padded then " " else "") + IntToString(x);
      Strip(t) == IntToString(x) && ParseInt(t) == Some(x)
  {
    if padded {
      ReadBackPadded(x, IntToString(x));
    } else {
      ReadBackPlain(x, IntToString(x));
    }
  }

  lemma ReadBackPlain(x: int, t: string)
    requires t == IntToString(x)
    ensures Strip(t) == t && ParseInt(t) == Some(x)
  {
    StripPadded(t);
    ParseIntToString(x);
  }

  lemma ReadBackPadded(x: int, t: string)
    requires t == IntToString(x)
    ensures Strip(" " + t) == t && ParseInt(" " + t) == Some(x)
  {
    StripPadded(t);
    ParseIntToString(x);
    ParseIntSameStrip(" " + t, t);
  }

  /** `int` only sees its argument stripped. */
  lemma ParseIntSameStrip(a: string, b: string)
    requires Strip(a) == Strip(b)
    ensures ParseInt(a) == ParseInt(b)
  {
  }

  /** The tokens `split(",")` finds in the body of a non-empty row. */
  function RowTokens(row: seq<int>): (r: seq<string>)
    requires |row| > 0
    ensures |r| == |row|
  {
    [IntToString(row[0])] + Padded(IntTexts(row)[1..])
  }

  lemma RowTokensRead(row: seq<int>)
    requires |row| > 0
    ensures forall k :: 0 <= k < |row| ==> Strip(RowTokens(row)[k]) != "" && ParseInt(RowTokens(row)[k]) == Some(row[k])
    ensures forall k :: 0 <= k < |row| ==> ',' !in RowTokens(row)[k]
  {
    var tokens := RowTokens(row);
    forall k | 0 <= k < |row|
      ensures Strip(tokens[k]) != "" && ParseInt(tokens[k]) == Some(row[k]) && ',' !in tokens[k]
    {
      assert tokens[k] == (if k > 0 then " " else "") + IntToString(row[k]);
      ReadBack(row[k], k > 0);
    }
  }

  lemma RowTokensJoin(row: seq<int>)
    requires |row| > 0
    ensures Join(RowTokens(row), ",") == RowBody(row)
  {
    var xs := IntTexts(row);
    JoinTail(xs);
    JoinPadded(xs[0], xs[1..]);
  }

  /** A row written by Python's `str` converts back to itself. */
  lemma RowParses(row: seq<int>)
    ensures ParseRow(RowBody(row)) == Ok(row)
  {
    if |row| == 0 {
      assert RowBody(row) == "";
      assert Split("", ",") == [""];
    } else {
      RowTokensRead(row);
      RowTokensJoin(row);
      SplitJoin(RowTokens(row), ',');
      ParseTokensAll(RowTokens(row), row);
    }
  }

  // ----------------------------------------------------------- whole replies

  /** The rows of a grid written by `str` all convert back. */
  lemma GridRowsParse(g: Grid)
    requires |g| > 0
    ensures ParseGrid(Join(RowTexts(g), ", ")) == Ok(g)
  {
    var ts := RowTexts(g);
    AllRowTexts(g);
    BodyRows(ts);
    InsidesOfGrid(g);
    var rs := RowResults(Insides(ts));
    forall k | 0 <= k < |g| ensures rs[k] == Ok(g[k]) {
      RowParses(g[k]);
    }
    assert Collect(rs).value == g;
  }

  /** A text placed between two others occurs where it was placed. */
  lemma OccursBetween(pre: string, x: string, post: string)
    ensures OccursAt(pre + x + post, x, |pre|)
  {
    assert (pre + x + post)[|pre|..|pre| + |x|] == x;
  }

  /** A match with no `[` before it and none after it is the only one. */
  lemma OnlyMatchAt(s: string, b: nat, e: nat)
    requires b < e < |s|
    requires forall j :: 0 <= j < b ==> s[j] != '['
    requires forall j :: e < j < |s| ==> s[j] != '['
    requires MatchAt(s, b) == Some((b + 1, e))
    ensures Matches(s, 0) == [s[b + 1..e]]
  {
    var q: nat := e + 1;
    MatchesSkip(s, 0, b);
    MatchesAtMatch(s, b, e);
    MatchesSkip(s, q, |s|);
    assert Matches(s, |s|) == [];
    OnlyHead(Matches(s, 0), Matches(s, b), Matches(s, q), s[b + 1..e]);
  }

  lemma OnlyHead(m0: seq<string>, m1: seq<string>, m2: seq<string>, h: string)
    requires m0 == m1 && m1 == [h] + m2 && m2 == []
    ensures m0 == [h]
  {
  }

  /** The only outer match of a reply whose prose holds no `[` is the one at the grid. */
  lemma OnlyMatch(pre: string, x: string, post: string)
    requires '[' !in pre && '[' !in post
    requires MatchAt(pre + x + post, |pre|) == Some((|pre| + 1, |pre| + |x| - 1))
    ensures Matches(pre + x + post, 0) == [x[1..|x| - 1]]
  {
    var s := pre + x + post;
    ProseAround(pre, x, post, s);
    OnlyMatchAt(s, |pre|, |pre| + |x| - 1);
  }

  /** `pre + x + post` where neither `pre` nor `post` holds `[`. */
  lemma ProseAround(pre: string, x: string, post: string, s: string)
    requires '[' !in pre && '[' !in post && |x| >= 2 && s == pre + x + post
    ensures forall j :: 0 <= j < |pre| ==> s[j] != '['
    ensures forall j :: |pre| + |x| - 1 < j < |s| ==> s[j] != '['
    ensures s[|pre| + 1..|pre| + |x| - 1] == x[1..|x| - 1]
  {
    var e := |pre| + |x| - 1;
    forall j | 0 <= j < |pre| ensures s[j] != '[' {
      assert s[j] == pre[j];
    }
    forall j | e < j < |s| ensures s[j] != '[' {
      assert s[j] == post[j - e - 1];
    }
  }

  /** Rows in brackets, with no `[` in the prose around them, are the reply's only match. */
  lemma RowsInProse(pre: string, ts: seq<string>, post: string)
    requires |ts| > 0 && forall k :: 0 <= k < |ts| ==> IsRowText(ts[k])
    requires '[' !in pre && '[' !in post
    ensures Matches(pre + ("[" + ts[0] + Tail(ts[1..]) + "]") + post, 0) == [ts[0] + Tail(ts[1..])]
  {
    var x := "[" + ts[0] + Tail(ts[1..]) + "]";
    RowsBetweenProse(pre, ts, post, x, ts[0] + Tail(ts[1..]));
  }

  lemma RowsBetweenProse(pre: string, ts: seq<string>, post: string, x: string, inside: string)
    requires |ts| > 0 && forall k :: 0 <= k < |ts| ==> IsRowText(ts[k])
    requires '[' !in pre && '[' !in post
    requires x == "[" + ts[0] + Tail(ts[1..]) + "]" && inside == ts[0] + Tail(ts[1..])
    ensures Matches(pre + x + post, 0) == [inside]
  {
    GridInside(ts, x);
    OccursBetween(pre, x, post);
    MatchAtGrid(pre + x + post, |pre|, ts, |pre| + |ts[0]|, |pre| + |x| - 1);
    OnlyMatch(pre, x, post);
  }

  /** Between the outer brackets of a grid: its first row and the tail of the others. */
  lemma GridInside(ts: seq<string>, x: string)
    requires |ts| > 0 && x == "[" + ts[0] + Tail(ts[1..]) + "]"
    ensures |x| == |ts[0]| + |Tail(ts[1..])| + 2 && x[1..|x| - 1] == ts[0] + Tail(ts[1..])
  {
    BracketInside("[" + ts[0], Tail(ts[1..]));
    assert ("[" + ts[0])[1..] == ts[0];
  }

  /** What lies between the outer brackets of `[a...b]`. */
  lemma BracketInside(a: string, b: string)
    requires |a| > 0 && a[0] == '['
    ensures (a + b + "]")[1..|a| + |b|] == a[1..] + b
  {
    var x := a + b + "]";
    assert forall j :: 1 <= j < |a| ==> x[j] == a[j];
    assert forall j :: |a| <= j < |a| + |b| ==> x[j] == b[j - |a|];
  }

  /** A grid written by Python's `str`, brackets and rows. */
  lemma GridTextShape(g: Grid)
    requires |g| > 0
    ensures GridText(g) == "[" + RowTexts(g)[0] + Tail(RowTexts(g)[1..]) + "]"
    ensures Join(RowTexts(g), ", ") == RowTexts(g)[0] + Tail(RowTexts(g)[1..])
  {
    JoinTail(RowTexts(g));
  }

  /** One match that converts gives a list of one grid. */
  lemma OneGrid(m: string, g: Grid)
    requires ParseGrid(m) == Ok(g)
    ensures Collect(GridResults([m])) == Ok([g])
  {
    var rs := GridResults([m]);
    assert rs == [Ok(g)];
    CollectOne(Ok(g));
  }

  /** A reply that holds one grid written by Python's `str`, with no `[` in the
      prose around it, gives back exactly that grid. */
  lemma GridInProse(pre: string, g: Grid, post: string)
    requires |g| > 0 && '[' !in pre && '[' !in post
    ensures Parse2dArrays(pre + GridText(g) + post) == Ok([g])
  {
    var ms := [Join(RowTexts(g), ", ")];
    AllRowTexts(g);
    GridTextShape(g);
    RowsInProse(pre, RowTexts(g), post);
    assert Matches(pre + GridText(g) + post, 0) == ms;
    GridRowsParse(g);
    OneGrid(ms[0], g);
  }

  // ---------------------------------------------------------- several grids

  /** A reply of several grids written by Python's `str`, each after a piece
      of prose, and closing prose. */
  function Reply(pres: seq<string>, gs: seq<Grid>, last: string): string
    requires |pres| == |gs|
    decreases |gs|
  {
    if |gs| == 0 then last else pres[0] + GridText(gs[0]) + Reply(pres[1..], gs[1..], last)
  }

  /** Group 1 of the outer pattern over each grid: what lies between its outer brackets. */
  function GridInsides(gs: seq<Grid>): (r: seq<string>)
    decreases |gs|
    ensures |r| == |gs|
  {
    if |gs| == 0 then [] else [Join(RowTexts(gs[0]), ", ")] + GridInsides(gs[1..])
  }

  /** The inside of grid k is its rows joined by `, `. */
  lemma {:induction false} InsideAt(gs: seq<Grid>, k: nat)
    requires k < |gs|
    ensures GridInsides(gs)[k] == Join(RowTexts(gs[k]), ", ")
    decreases k
  {
    if k > 0 {
      InsideAt(gs[1..], k - 1);
    }
  }

  /** Prose without `[`. */
  predicate PlainProse(pres: seq<string>, last: string) {
    '[' !in last && forall k :: 0 <= k < |pres| ==> '[' !in pres[k]
  }

  predicate NonEmptyGrids(gs: seq<Grid>) {
    forall k :: 0 <= k < |gs| ==> |gs[k]| > 0
  }

  /** `findall` over a reply of grids in plain prose finds each grid once, in order. */
  lemma {:induction false} MatchesReplyAt(s: string, p: nat, pres: seq<string>, gs: seq<Grid>, last: string)
    requires |pres| == |gs| && PlainProse(pres, last) && NonEmptyGrids(gs)
    requires p <= |s| && s[p..] == Reply(pres, gs, last)
    ensures Matches(s, p) == GridInsides(gs)
    decreases |gs|
  {
    if |gs| == 0 {
      ProseFrom(s, p, last);
      MatchesSkip(s, p, |s|);
    } else {
      var e: nat := p + |pres[0]| + |GridText(gs[0])| - 1;
      var q: nat := e + 1;
      var ps, hs := pres[1..], gs[1..];
      var rest := Reply(ps, hs, last);
      ReplyHead(pres, gs, last);
      ReplyStep(s, p, pres[0], gs[0], rest, e);
      MatchesReplyAt(s, q, ps, hs, last);
      InsidesOfGrids(gs);
      SameHead(Matches(s, p), Matches(s, q), GridInsides(gs), GridInsides(hs), Join(RowTexts(gs[0]), ", "));
    }
  }

  /** Two lists with the same head and equal tails are equal. */
  lemma SameHead(a: seq<string>, at: seq<string>, b: seq<string>, bt: seq<string>, h: string)
    requires a == [h] + at && b == [h] + bt && at == bt
    ensures a == b
  {
  }

  /** The first prose and grid of a reply, and the plain prose and non-empty
      grids of the rest. */
  lemma ReplyHead(pres: seq<string>, gs: seq<Grid>, last: string)
    requires |pres| == |gs| > 0 && PlainProse(pres, last) && NonEmptyGrids(gs)
    ensures '[' !in pres[0] && |gs[0]| > 0
    ensures PlainProse(pres[1..], last) && NonEmptyGrids(gs[1..])
  {
    assert forall k :: 0 <= k < |pres| - 1 ==> pres[1..][k] == pres[k + 1];
    assert forall k :: 0 <= k < |gs| - 1 ==> gs[1..][k] == gs[k + 1];
  }

  /** Prose and a grid, then the rest: the grid's inside is the first match,
      and matching resumes after it. */
  lemma ReplyStep(s: string, p: nat, pre: string, g: Grid, rest: string, e: nat)
    requires p <= |s| && s[p..] == pre + GridText(g) + rest && '[' !in pre && |g| > 0
    requires e == p + |pre| + |GridText(g)| - 1
    ensures e < |s| && s[e + 1..] == rest
    ensures Matches(s, p) == [Join(RowTexts(g), ", ")] + Matches(s, e + 1)
  {
    var x, b := GridText(g), p + |pre|;
    ReplyPieces(s, p, pre, x, rest);
    MatchesSkip(s, p, b);
    GridAt(s, b, g, x, e);
    MatchesAtMatch(s, b, e);
  }

  /** A match at `b` whose group ends at `e` is found, and matching resumes after it. */
  lemma MatchesAtMatch(s: string, b: nat, e: nat)
    requires b < e < |s| && MatchAt(s, b) == Some((b + 1, e))
    ensures Matches(s, b) == [s[b + 1..e]] + Matches(s, e + 1)
  {
  }

  /** Closing prose holds no `[`. */
  lemma ProseFrom(s: string, p: nat, last: string)
    requires p <= |s| && s[p..] == last && '[' !in last
    ensures forall j :: p <= j < |s| ==> s[j] != '['
  {
    forall j | p <= j < |s| ensures s[j] != '[' {
      assert s[j] == last[j - p];
    }
  }

  /** Where prose, grid and the rest of a reply stand. */
  lemma ReplyPieces(s: string, p: nat, pre: string, x: string, rest: string)
    requires p <= |s| && s[p..] == pre + x + rest && '[' !in pre
    ensures forall j :: p <= j < p + |pre| ==> s[j] != '['
    ensures OccursAt(s, x, p + |pre|)
    ensures p + |pre| + |x| <= |s| && s[p + |pre| + |x|..] == rest
  {
    forall j | p <= j < p + |pre| ensures s[j] != '[' {
      assert s[j] == s[p..][j - p] == pre[j - p];
    }
    assert s[p + |pre|..p + |pre| + |x|] == s[p..][|pre|..|pre| + |x|];
    assert s[p + |pre| + |x|..] == s[p..][|pre| + |x|..];
  }

  /** A grid written at `b`: the outer pattern matches there and captures its inside. */
  lemma GridAt(s: string, b: nat, g: Grid, x: string, e: nat)
    requires |g| > 0 && x == GridText(g) && OccursAt(s, x, b) && e == b + |x| - 1
    ensures e < |s| && MatchAt(s, b) == Some((b + 1, e))
    ensures s[b + 1..e] == Join(RowTexts(g), ", ")
  {
    var ts := RowTexts(g);
    AllRowTexts(g);
    GridTextShape(g);
    RowsAtGrid(s, b, ts, x, e);
    CapturedInside(s, b, x, e);
  }

  /** The outer pattern over rows in brackets written at `b`. */
  lemma RowsAtGrid(s: string, b: nat, ts: seq<string>, x: string, e: nat)
    requires |ts| > 0 && forall m :: 0 <= m < |ts| ==> IsRowText(ts[m])
    requires x == "[" + ts[0] + Tail(ts[1..]) + "]" && OccursAt(s, x, b) && e == b + |x| - 1
    ensures e < |s| && MatchAt(s, b) == Some((b + 1, e))
    ensures x[1..|x| - 1] == ts[0] + Tail(ts[1..])
  {
    GridInside(ts, x);
    MatchAtGrid(s, b, ts, b + |ts[0]|, e);
  }

  /** Between the outer brackets of `x` written at `b`. */
  lemma CapturedInside(s: string, b: nat, x: string, e: nat)
    requires |x| >= 2 && OccursAt(s, x, b) && e == b + |x| - 1
    ensures s[b + 1..e] == x[1..|x| - 1]
  {
    var inner, mid := s[b + 1..e], x[1..|x| - 1];
    forall j | 0 <= j < |mid| ensures inner[j] == mid[j] {
      assert s[b + 1 + j] == s[b..b + |x|][1 + j];
    }
  }

  lemma InsidesOfGrids(gs: seq<Grid>)
    requires |gs| > 0
    ensures GridInsides(gs) == [Join(RowTexts(gs[0]), ", ")] + GridInsides(gs[1..])
  {
  }

  /** A reply holding several grids written by Python's `str`, in prose without
      `[`, gives back exactly those grids, in order. */
  lemma GridsInProse(pres: seq<string>, gs: seq<Grid>, last: string)
    requires |pres| == |gs| && PlainProse(pres, last) && NonEmptyGrids(gs)
    ensures Parse2dArrays(Reply(pres, gs, last)) == Ok(gs)
  {
    var s := Reply(pres, gs, last);
    assert s[0..] == s;
    MatchesReplyAt(s, 0, pres, gs, last);
    var rs := GridResults(GridInsides(gs));
    forall k | 0 <= k < |gs| ensures rs[k] == Ok(gs[k]) {
      InsideAt(gs, k);
      GridRowsParse(gs[k]);
    }
    assert Collect(rs).value == gs;
  }

  /** A reply that mentions two grids in passing gives both back. */
  lemma TwoGridsInProse()
    ensures Parse2dArrays("[[1, 2], [3, 4]] and [[5]]") == Ok([[[1, 2], [3, 4]], [[5]]])
  {
    var pres, gs := ["", " and "], [[[1, 2], [3, 4]], [[5]]];
    ReplyOfTwo(pres, gs);
    assert '[' !in " and ";
    assert PlainProse(pres, "") && NonEmptyGrids(gs);
    GridsInProse(pres, gs, "");
  }

  lemma ReplyOfTwo(pres: seq<string>, gs: seq<Grid>)
    requires pres == ["", " and "] && gs == [[[1, 2], [3, 4]], [[5]]]
    ensures Reply(pres, gs, "") == "[[1, 2], [3, 4]] and [[5]]"
  {
    var x, y := GridText([[1, 2], [3, 4]]), GridText([[5]]);
    GridTextOf2x2();
    GridTextOf1x1();
    ReplyPair(pres, gs, x, y);
  }

  /** A reply of two grids with nothing before the first and nothing after the second. */
  lemma ReplyPair(pres: seq<string>, gs: seq<Grid>, x: string, y: string)
    requires |pres| == |gs| == 2 && pres[0] == "" && x == GridText(gs[0]) && y == GridText(gs[1])
    ensures Reply(pres, gs, "") == x + pres[1] + y
  {
    assert |pres[1..][1..]| == 0;
    assert Reply(pres[1..], gs[1..], "") == pres[1] + y + "";
  }

  lemma GridTextOf2x2()
    ensures GridText([[1, 2], [3, 4]]) == "[[1, 2], [3, 4]]"
  {
    GridTextOfDigits(1, 2, 3, 4);
  }

  /** Python's `str` of a two-by-two grid of digits. */
  lemma GridTextOfDigits(a: nat, b: nat, c: nat, d: nat)
    requires a < 10 && b < 10 && c < 10 && d < 10
    ensures GridText([[a, b], [c, d]])
            == ['[', '[', DigitChar(a), ',', ' ', DigitChar(b), ']', ',', ' ',
                '[', DigitChar(c), ',', ' ', DigitChar(d), ']', ']']
  {
    RowTextOfTwo(a, b);
    RowTextOfTwo(c, d);
    var g: Grid := [[a, b], [c, d]];
    GridOfTwo(RowText(g[0]), RowText(g[1]), g);
  }

  /** Python's `str` of a row of two digits. */
  lemma RowTextOfTwo(a: nat, b: nat)
    requires a < 10 && b < 10
    ensures RowText([a, b]) == ['[', DigitChar(a), ',', ' ', DigitChar(b), ']']
  {
    DigitText(a); DigitText(b);
    RowOfTwo([DigitChar(a)], [DigitChar(b)], a, b);
  }

  /** Python's `str` of a two-element row. */
  lemma RowOfTwo(x: string, y: string, a: int, b: int)
    requires IntToString(a) == x && IntToString(b) == y
    ensures RowText([a, b]) == "[" + x + ", " + y + "]"
  {
    assert IntTexts([a, b]) == [x, y];
    JoinTwo(x, y, ", ");
    assert "[" + (x + ", " + y) + "]" == "[" + x + ", " + y + "]";
  }

  /** Python's `str` of a two-row grid. */
  lemma GridOfTwo(x: string, y: string, g: Grid)
    requires |g| == 2 && RowText(g[0]) == x && RowText(g[1]) == y
    ensures GridText(g) == "[" + x + ", " + y + "]"
  {
    assert RowTexts(g) == [x, y];
    JoinTwo(x, y, ", ");
    assert "[" + (x + ", " + y) + "]" == "[" + x + ", " + y + "]";
  }

  lemma JoinTwo(x: string, y: string, sep: string)
    ensures Join([x, y], sep) == x + sep + y
  {
    assert [x, y][1..] == [y];
  }

  lemma GridTextOf1x1()
    ensures GridText([[5]]) == "[[5]]"
  {
    DigitText(5);
    assert IntTexts([5]) == ["5"];
    assert RowBody([5]) == "5";
    assert RowText([5]) == "[5]";
    assert RowTexts([[5]]) == ["[5]"];
  }

  lemma DigitText(d: nat)
    requires d < 10
    ensures IntToString(d) == [DigitChar(d)]
  {
  }
}
