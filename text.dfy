/** The Python string operations the client relies on: `find`, `rfind`-style
    search, `in`, `count`, `split`, `join`, `replace`, `partition`, `strip`,
    `lower` and `int(...)` on a string. Strings are sequences of characters. */
module Text {
  import opened Wrappers

  /** `t` occurs in `s` starting at index `i`. */
  predicate OccursAt(s: string, t: string, i: nat) {
    i + |t| <= |s| && s[i..i + |t|] == t
  }

  /** The first index at or after `from` where `t` occurs in `s` (`s.find(t, from)`). */
  function FindFrom(s: string, t: string, from: nat): (r: Option<nat>)
    decreases |s| - from
    ensures r.Some? ==> from <= r.value && OccursAt(s, t, r.value)
    ensures r.Some? ==> forall j: nat :: from <= j < r.value ==> !OccursAt(s, t, j)
    ensures r.None? ==> forall j: nat :: from <= j ==> !OccursAt(s, t, j)
  {
    if from + |t| > |s| then None
    else if OccursAt(s, t, from) then Some(from)
    else FindFrom(s, t, from + 1)
  }

  /** The last index at or after `from` where `t` occurs in `s`. */
  function FindLast(s: string, t: string, from: nat): (r: Option<nat>)
    decreases |s| - from
    ensures r.Some? ==> from <= r.value && OccursAt(s, t, r.value)
    ensures r.Some? ==> forall j: nat :: r.value < j ==> !OccursAt(s, t, j)
    ensures r.None? ==> forall j: nat :: from <= j ==> !OccursAt(s, t, j)
  {
    if from + |t| > |s| then None
    else match FindLast(s, t, from + 1)
      case Some(j) => Some(j)
      case None => if OccursAt(s, t, from) then Some(from) else None
  }

  /** A known first occurrence is the one `find` returns. */
  lemma FindFromAt(s: string, t: string, from: nat, i: nat)
    requires from <= i && OccursAt(s, t, i)
    requires forall j: nat :: from <= j < i ==> !OccursAt(s, t, j)
    ensures FindFrom(s, t, from) == Some(i)
  {
  }

  /** Python's `t in s`. */
  predicate Contains(s: string, t: string) {
    FindFrom(s, t, 0).Some?
  }

  lemma OccursAtContains(s: string, t: string, i: nat)
    requires OccursAt(s, t, i)
    ensures Contains(s, t)
  {
  }

  /** An occurrence inside a slice is an occurrence in the whole string. */
  lemma OccursInSlice(s: string, t: string, lo: nat, hi: nat, j: nat)
    requires lo <= hi <= |s|
    requires OccursAt(s[lo..hi], t, j)
    ensures OccursAt(s, t, lo + j)
  {
    var a, b := s[lo..hi][j..j + |t|], s[lo + j..lo + j + |t|];
    assert forall k :: 0 <= k < |a| ==> a[k] == b[k];
    assert a == b;
  }

  /** An occurrence that lies inside a slice is an occurrence in the slice. */
  lemma OccursToSlice(s: string, t: string, lo: nat, hi: nat, j: nat)
    requires lo <= j && j + |t| <= hi <= |s|
    requires OccursAt(s, t, j)
    ensures OccursAt(s[lo..hi], t, j - lo)
  {
    var a, b := s[lo..hi][j - lo..j - lo + |t|], s[j..j + |t|];
    assert forall k :: 0 <= k < |a| ==> a[k] == b[k];
    assert a == b;
  }

  lemma OccursAtIndex(s: string, t: string, p: nat, k: nat)
    requires OccursAt(s, t, p) && k < |t|
    ensures s[p + k] == t[k]
  {
    assert s[p..p + |t|][k] == s[p + k];
  }

  /** An occurrence of `t` in `x + [c] + y`, where `c` can only start `t`,
      lies inside `x` or starts at `c` or later. */
  lemma OccursAround(x: string, c: char, y: string, t: string, p: nat)
    requires |t| > 0 && forall k :: 0 < k < |t| ==> t[k] != c
    requires OccursAt(x + [c] + y, t, p)
    ensures (p + |t| <= |x| && OccursAt(x, t, p)) || (p >= |x| && OccursAt([c] + y, t, p - |x|))
  {
    var s := x + [c] + y;
    if p < |x| && |x| < p + |t| {
      OccursAtIndex(s, t, p, |x| - p);
      assert false;
    } else if p + |t| <= |x| {
      OccursToSlice(s, t, 0, |x|, p);
      assert s[0..|x|] == x;
    } else {
      OccursToSlice(s, t, |x|, |s|, p);
      assert s[|x|..|s|] == [c] + y;
    }
  }

  /** Python's `s.count(t)` for a non-empty `t`: non-overlapping occurrences, left to right. */
  function Count(s: string, t: string): nat
    requires |t| > 0
    decreases |s|
  {
    match FindFrom(s, t, 0)
    case None => 0
    case Some(i) => 1 + Count(s[i + |t|..], t)
  }

  /** Python's `min` on two integers. */
  function Min(a: int, b: int): int {
    if a <= b then a else b
  }

  /** Python's `sep.join(parts)`. */
  function Join(parts: seq<string>, sep: string): string
    decreases |parts|
  {
    if |parts| == 0 then ""
    else if |parts| == 1 then parts[0]
    else parts[0] + sep + Join(parts[1..], sep)
  }

  /** Python's `"".join(pieces)`, the same as appending the pieces one by one. */
  function Concat(pieces: seq<string>): string
    decreases |pieces|
  {
    if |pieces| == 0 then "" else Concat(pieces[..|pieces| - 1]) + pieces[|pieces| - 1]
  }

  /** Appending pieces in two runs gives the concatenation of the runs. */
  lemma {:induction false} ConcatAppend(a: seq<string>, b: seq<string>)
    ensures Concat(a + b) == Concat(a) + Concat(b)
    decreases |b|
  {
    if |b| > 0 {
      assert (a + b)[..|a + b| - 1] == a + b[..|b| - 1];
      ConcatAppend(a, b[..|b| - 1]);
    } else {
      assert a + b == a;
    }
  }

  /** Python's `s.split(sep)` for a non-empty `sep`: the pieces between the
      non-overlapping occurrences of `sep`, which rejoin to `s`. */
  function Split(s: string, sep: string): (r: seq<string>)
    requires |sep| > 0
    decreases |s|
    ensures |r| == Count(s, sep) + 1
    ensures forall k :: 0 <= k < |r| ==> !Contains(r[k], sep)
    ensures Join(r, sep) == s
  {
    match FindFrom(s, sep, 0)
    case None => [s]
    case Some(i) =>
      var rest := Split(s[i + |sep|..], sep);
      NoOccurrenceBefore(s, sep, i);
      assert s[..i] + sep + s[i + |sep|..] == s by {
        assert s[i..i + |sep|] == sep;
        assert s == s[..i] + s[i..i + |sep|] + s[i + |sep|..];
      }
      [s[..i]] + rest
  }

  /** The prefix ending at the first occurrence holds no occurrence. */
  lemma NoOccurrenceBefore(s: string, t: string, i: nat)
    requires |t| > 0 && i <= |s|
    requires forall j: nat :: j < i ==> !OccursAt(s, t, j)
    ensures !Contains(s[..i], t)
  {
    if Contains(s[..i], t) {
      var j := FindFrom(s[..i], t, 0).value;
      OccursInSlice(s, t, 0, i, j);
    }
  }

  /** Python's `s.replace(old, repl)` for a non-empty `old`. */
  function ReplaceAll(s: string, pat: string, repl: string): string
    requires |pat| > 0
  {
    Join(Split(s, pat), repl)
  }

  /** Python's `s.partition(sep)[2]`: what follows the first `sep`, or "" when there is none. */
  function AfterFirst(s: string, sep: string): (r: string)
    ensures Contains(s, sep) ==> r == s[FindFrom(s, sep, 0).value + |sep|..]
    ensures !Contains(s, sep) ==> r == ""
  {
    match FindFrom(s, sep, 0)
    case None => ""
    case Some(i) => s[i + |sep|..]
  }

  /** A string without `t` is left alone by `replace`. */
  lemma ReplaceAllAbsent(s: string, pat: string, repl: string)
    requires |pat| > 0
    requires !Contains(s, pat)
    ensures ReplaceAll(s, pat, repl) == s
  {
  }

  /** Removing a leading occurrence: `(p + rest).replace(p, repl) == repl + rest.replace(p, repl)`. */
  lemma {:induction false} ReplaceAllLeading(p: string, rest: string, repl: string)
    requires |p| > 0
    ensures ReplaceAll(p + rest, p, repl) == repl + ReplaceAll(rest, p, repl)
  {
    SplitLeading(p, rest);
    JoinCons("", Split(rest, p), repl);
    assert "" + repl == repl;
  }

  /** A piece in front of at least one other is followed by the separator. */
  lemma JoinCons(x: string, tail: seq<string>, sep: string)
    requires |tail| > 0
    ensures Join([x] + tail, sep) == x + sep + Join(tail, sep)
  {
    assert ([x] + tail)[1..] == tail;
  }

  /** A leading separator splits off an empty first piece. */
  lemma SplitLeading(p: string, rest: string)
    requires |p| > 0
    ensures Split(p + rest, p) == [""] + Split(rest, p)
  {
    var s := p + rest;
    FindLeading(p, rest);
    assert s[|p|..] == rest;
    assert s[..0] == "";
  }

  lemma FindLeading(p: string, rest: string)
    ensures FindFrom(p + rest, p, 0) == Some(0)
  {
    var s := p + rest;
    assert OccursAt(s, p, 0) by { assert s[0..|p|] == p; }
  }


  /** A join of pieces that lack a character, with a separator that lacks it, lacks it. */
  lemma {:induction false} JoinAvoids(parts: seq<string>, sep: string, c: char)
    requires forall k :: 0 <= k < |parts| ==> c !in parts[k]
    requires c !in sep
    ensures c !in Join(parts, sep)
    decreases |parts|
  {
    if |parts| > 1 {
      JoinAvoids(parts[1..], sep, c);
    }
  }

  /** A single character occurs as a substring exactly where it stands. */
  lemma CharNotContained(s: string, c: char)
    requires !Contains(s, [c])
    ensures c !in s
  {
    if c in s {
      var k :| 0 <= k < |s| && s[k] == c;
      assert OccursAt(s, [c], k) by { assert s[k..k + 1] == [c]; }
    }
  }

  /** After `s.replace(c, repl)` with `c` not in `repl`, no `c` is left. */
  lemma ReplaceCharRemovesIt(s: string, c: char, repl: string)
    requires c !in repl
    ensures c !in ReplaceAll(s, [c], repl)
  {
    var parts := Split(s, [c]);
    forall k | 0 <= k < |parts| ensures c !in parts[k] {
      CharNotContained(parts[k], c);
    }
    JoinAvoids(parts, repl, c);
  }

  /** Every `c` of `s` written as `repl`, character by character. */
  function ReplaceChar(s: string, c: char, repl: string): string
    decreases |s|
  {
    if |s| == 0 then "" else (if s[0] == c then repl else [s[0]]) + ReplaceChar(s[1..], c, repl)
  }

  /** Replacing character by character works piece by piece. */
  lemma {:induction false} ReplaceCharAppend(a: string, b: string, c: char, repl: string)
    ensures ReplaceChar(a + b, c, repl) == ReplaceChar(a, c, repl) + ReplaceChar(b, c, repl)
    decreases |a|
  {
    if |a| == 0 {
      assert a + b == b;
    } else {
      assert (a + b)[1..] == a[1..] + b;
      ReplaceCharAppend(a[1..], b, c, repl);
    }
  }

  lemma {:induction false} ReplaceCharAbsent(s: string, c: char, repl: string)
    requires c !in s
    ensures ReplaceChar(s, c, repl) == s
    decreases |s|
  {
    if |s| > 0 {
      ReplaceCharAbsent(s[1..], c, repl);
    }
  }

  /** `s.replace(c, repl)` for a one-character `c` replaces each `c` on its own. */
  lemma {:induction false} ReplaceAllChar(s: string, c: char, repl: string)
    ensures ReplaceAll(s, [c], repl) == ReplaceChar(s, c, repl)
    decreases |s|
  {
    match FindFrom(s, [c], 0)
    case None =>
      CharNotContained(s, c);
      ReplaceCharAbsent(s, c, repl);
    case Some(i) =>
      ReplaceAllChar(s[i + 1..], c, repl);
      ReplaceAllSplit(s, c, repl, i, s[..i], s[i + 1..]);
  }

  /** The step at the first `c`: what precedes it holds no `c`. */
  lemma ReplaceAllSplit(s: string, c: char, repl: string, i: nat, before: string, after: string)
    requires FindFrom(s, [c], 0) == Some(i) && before == s[..i] && after == s[i + 1..]
    requires ReplaceAll(after, [c], repl) == ReplaceChar(after, c, repl)
    ensures ReplaceAll(s, [c], repl) == ReplaceChar(s, c, repl)
  {
    NoOccurrenceBefore(s, [c], i);
    CharNotContained(before, c);
    ReplaceAllAt(s, c, repl, i);
    CharAt(s, c, i);
    ReplaceCharAround(s, before, c, after, repl);
  }

  /** `s == before + [c] + after` with no `c` in `before`. */
  lemma ReplaceCharAround(s: string, before: string, c: char, after: string, repl: string)
    requires s == before + [c] + after && c !in before
    ensures ReplaceChar(s, c, repl) == before + repl + ReplaceChar(after, c, repl)
  {
    ReplaceCharAbsent(before, c, repl);
    assert s == before + ([c] + after);
    ReplaceCharAppend(before, [c] + after, c, repl);
    assert ([c] + after)[1..] == after;
  }

  /** `s` split around the `c` it holds at `i`. */
  lemma CharAt(s: string, c: char, i: nat)
    requires OccursAt(s, [c], i)
    ensures s == s[..i] + [c] + s[i + 1..]
  {
    assert s[i..i + 1] == [c];
    assert s == s[..i] + s[i..i + 1] + s[i + 1..];
  }

  /** `replace` at the first `c`: the text before it, `repl`, and the rest replaced. */
  lemma ReplaceAllAt(s: string, c: char, repl: string, i: nat)
    requires FindFrom(s, [c], 0) == Some(i)
    ensures ReplaceAll(s, [c], repl) == s[..i] + repl + ReplaceAll(s[i + 1..], [c], repl)
  {
    JoinCons(s[..i], Split(s[i + 1..], [c]), repl);
  }

  // ---------------------------------------------------------------- strip

  /** `str.isspace` for one character (the characters Python's `strip` and `\s` remove). */
  predicate IsSpace(c: char) {
    || c == ' '
    || '\t' <= c <= '\r'
    || '\U{1C}' <= c <= '\U{1F}'
    || c == '\U{85}' || c == '\U{A0}' || c == '\U{1680}'
    || '\U{2000}' <= c <= '\U{200A}'
    || c == '\U{2028}' || c == '\U{2029}' || c == '\U{202F}' || c == '\U{205F}' || c == '\U{3000}'
  }

  /** Leading whitespace removed: a suffix of `s`. */
  function TrimLeft(s: string): string
    decreases |s|
  {
    if |s| > 0 && IsSpace(s[0]) then TrimLeft(s[1..]) else s
  }

  /** `TrimLeft` drops a run of whitespace and stops at the first other character. */
  lemma {:induction false} TrimLeftShape(s: string)
    ensures |TrimLeft(s)| <= |s| && TrimLeft(s) == s[|s| - |TrimLeft(s)|..]
    ensures forall k :: 0 <= k < |s| - |TrimLeft(s)| ==> IsSpace(s[k])
    ensures TrimLeft(s) == [] || !IsSpace(TrimLeft(s)[0])
    decreases |s|
  {
    if |s| > 0 && IsSpace(s[0]) {
      TrimLeftShape(s[1..]);
      assert forall k :: 1 <= k < |s| ==> s[k] == s[1..][k - 1];
      assert s[1..][|s| - 1 - |TrimLeft(s)|..] == s[|s| - |TrimLeft(s)|..];
    }
  }

  /** Trailing whitespace removed: a prefix of `s`. */
  function TrimRight(s: string): string
    decreases |s|
  {
    if |s| > 0 && IsSpace(s[|s| - 1]) then TrimRight(s[..|s| - 1]) else s
  }

  /** `TrimRight` drops a trailing run of whitespace and stops at the last other character. */
  lemma {:induction false} TrimRightShape(s: string)
    ensures |TrimRight(s)| <= |s| && TrimRight(s) == s[..|TrimRight(s)|]
    ensures forall k :: |TrimRight(s)| <= k < |s| ==> IsSpace(s[k])
    ensures TrimRight(s) == [] || !IsSpace(TrimRight(s)[|TrimRight(s)| - 1])
    decreases |s|
  {
    if |s| > 0 && IsSpace(s[|s| - 1]) {
      TrimRightShape(s[..|s| - 1]);
      assert forall k :: 0 <= k < |s| - 1 ==> s[k] == s[..|s| - 1][k];
      assert s[..|s| - 1][..|TrimRight(s)|] == s[..|TrimRight(s)|];
    }
  }

  /** Python's `s.strip()`. */
  function Strip(s: string): string {
    TrimRight(TrimLeft(s))
  }

  /** `strip` leaves a string without surrounding whitespace unchanged. */
  lemma StripUnchanged(s: string)
    requires s == [] || (!IsSpace(s[0]) && !IsSpace(s[|s| - 1]))
    ensures Strip(s) == s
  {
  }

  /** `strip` is idempotent. */
  lemma StripIdempotent(s: string)
    ensures Strip(Strip(s)) == Strip(s)
  {
    var r := Strip(s);
    TrimLeftShape(s);
    TrimRightShape(TrimLeft(s));
    if r != [] {
      var l := TrimLeft(s);
      assert r == l[..|r|];
      assert !IsSpace(r[0]);
    }
    StripUnchanged(r);
  }

  // ---------------------------------------------------------------- lower

  function LowerChar(c: char): char {
    if 'A' <= c <= 'Z' then (c as int + 32) as char else c
  }

  /** Python's `s.lower()` on ASCII letters; other characters are kept. */
  function Lower(s: string): string {
    seq(|s|, k requires 0 <= k < |s| => LowerChar(s[k]))
  }

  /** An all-lowercase needle found in `s` is found at the same place in `s.lower()`. */
  lemma LowerOccurs(s: string, t: string, i: nat)
    requires OccursAt(s, t, i)
    requires forall k :: 0 <= k < |t| ==> LowerChar(t[k]) == t[k]
    ensures OccursAt(Lower(s), t, i)
  {
    var a := Lower(s)[i..i + |t|];
    forall k | 0 <= k < |t| ensures a[k] == t[k] {
      assert s[i + k] == s[i..i + |t|][k];
    }
    assert a == t;
  }

  // ---------------------------------------------------------------- int()

  predicate IsDigit(c: char) {
    '0' <= c <= '9'
  }

  function DigitValue(c: char): nat
    requires IsDigit(c)
  {
    c as int - '0' as int
  }

  function DigitChar(d: nat): char
    requires d < 10
  {
    ('0' as int + d) as char
  }

  /** What `int()` accepts after the sign: digits, with single underscores between digits. */
  predicate WellFormedDigits(d: string) {
    && |d| > 0
    && IsDigit(d[0])
    && IsDigit(d[|d| - 1])
    && (forall k :: 0 <= k < |d| ==> IsDigit(d[k]) || d[k] == '_')
    && (forall k :: 0 <= k < |d| - 1 ==> !(d[k] == '_' && d[k + 1] == '_'))
  }

  /** The decimal value of the digits of `d`, underscores skipped. */
  function DigitsValue(d: string): nat
    decreases |d|
  {
    if |d| == 0 then 0
    else if IsDigit(d[|d| - 1]) then 10 * DigitsValue(d[..|d| - 1]) + DigitValue(d[|d| - 1])
    else DigitsValue(d[..|d| - 1])
  }

  /** Python's `int(s)` in base 10: `None` stands for the `ValueError` it raises. */
  function ParseInt(s: string): Option<int> {
    var t := Strip(s);
    if |t| > 0 && (t[0] == '-' || t[0] == '+') then
      if WellFormedDigits(t[1..]) then
        Some(if t[0] == '-' then -(DigitsValue(t[1..]) as int) else DigitsValue(t[1..]))
      else None
    else if WellFormedDigits(t) then Some(DigitsValue(t))
    else None
  }

  /** Python's `str(n)` for a natural number. */
  function NatToString(n: nat): (r: string)
    decreases n
    ensures |r| > 0 && forall k :: 0 <= k < |r| ==> IsDigit(r[k])
  {
    if n < 10 then [DigitChar(n)] else NatToString(n / 10) + [DigitChar(n % 10)]
  }

  /** Python's `str(i)` for an integer: digits, after a `-` when negative. */
  function IntToString(i: int): (r: string)
    ensures |r| > 0 && forall k :: 0 <= k < |r| ==> IsDigit(r[k]) || (k == 0 && r[k] == '-')
  {
    if i < 0 then "-" + NatToString(-i) else NatToString(i)
  }

  lemma {:induction false} NatToStringValue(n: nat)
    ensures DigitsValue(NatToString(n)) == n
    decreases n
  {
    if n >= 10 {
      var s := NatToString(n);
      assert s[..|s| - 1] == NatToString(n / 10);
      NatToStringValue(n / 10);
    }
  }

  /** `int(str(i)) == i`. */
  lemma ParseIntToString(i: int)
    ensures ParseInt(IntToString(i)) == Some(i)
  {
    var s := IntToString(i);
    var n: nat := if i < 0 then -i else i;
    var digits := NatToString(n);
    NatToStringValue(n);
    assert WellFormedDigits(digits);
    StripUnchanged(s);
    if i < 0 {
      assert s[1..] == digits;
    }
  }
}
