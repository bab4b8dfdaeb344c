/** String operations of the client, as functions on `seq<char>`: the
    Python built-ins it calls (`strip`, `lower`, `endswith`, `replace`,
    `join`, and `repr`, which `str` of a `KeyError` uses); `IndexOf`, the
    left-to-right substring scan that the `re.search` of a directive is
    built from; and `Split`, a reference inverse used to state what `join`
    preserves. */
module PyStr {

  import opened Values

  /** Python's `str.isspace` for a single character. */
  predicate IsSpace(c: char) {
    || c == ' '
    || ('\t' <= c <= '\r')
    || ('\U{1C}' <= c <= '\U{1F}')
    || c == '\U{85}' || c == '\U{A0}' || c == '\U{1680}'
    || ('\U{2000}' <= c <= '\U{200A}')
    || c == '\U{2028}' || c == '\U{2029}' || c == '\U{202F}'
    || c == '\U{205F}' || c == '\U{3000}'
  }

  ghost predicate AllSpace(s: string) {
    forall i :: 0 <= i < |s| ==> IsSpace(s[i])
  }

  /** Neither end of `s` is whitespace. */
  predicate Trimmed(s: string) {
    s == [] || (!IsSpace(s[0]) && !IsSpace(s[|s| - 1]))
  }

  /** `s.lstrip()`: the longest suffix of `s` that does not start with whitespace. */
  function StripStart(s: string): (r: string)
    ensures |r| <= |s| && r == s[|s| - |r|..]
    ensures AllSpace(s[..|s| - |r|])
    ensures r == [] || !IsSpace(r[0])
  {
    if s != [] && IsSpace(s[0]) then
      var r := StripStart(s[1..]);
      LeadingSpace(s, r);
      r
    else
      s
  }

  /** One whitespace character in front of what `lstrip` removed. */
  lemma LeadingSpace(s: string, r: string)
    requires s != [] && IsSpace(s[0])
    requires |r| <= |s| - 1 && r == s[1..][|s| - 1 - |r|..] && AllSpace(s[1..][..|s| - 1 - |r|])
    ensures r == s[|s| - |r|..] && AllSpace(s[..|s| - |r|])
  {
    forall k | 0 < k < |s| - |r| ensures IsSpace(s[k]) {
      assert s[k] == s[1..][..|s| - 1 - |r|][k - 1];
    }
  }

  /** `s.rstrip()`: the longest prefix of `s` that does not end with whitespace. */
  function StripEnd(s: string): (r: string)
    ensures |r| <= |s| && r == s[..|r|]
    ensures AllSpace(s[|r|..])
    ensures r == [] || !IsSpace(r[|r| - 1])
  {
    if s != [] && IsSpace(s[|s| - 1]) then
      var r := StripEnd(s[..|s| - 1]);
      TrailingSpace(s, r);
      r
    else
      s
  }

  /** One whitespace character behind what `rstrip` removed. */
  lemma TrailingSpace(s: string, r: string)
    requires s != [] && IsSpace(s[|s| - 1])
    requires |r| <= |s| - 1 && r == s[..|s| - 1][..|r|] && AllSpace(s[..|s| - 1][|r|..])
    ensures r == s[..|r|] && AllSpace(s[|r|..])
  {
    forall k | |r| <= k < |s| - 1 ensures IsSpace(s[k]) {
      assert s[k] == s[..|s| - 1][|r|..][k - |r|];
    }
  }

  /** `r` is what lies between the whitespace runs `s[..i]` and `s[i + |r|..]`. */
  ghost predicate StripsTo(s: string, i: nat, r: string) {
    i + |r| <= |s| && s[i..i + |r|] == r && AllSpace(s[..i]) && AllSpace(s[i + |r|..])
  }

  /** `s.strip()`: `s` with the whitespace at both ends removed. */
  function Strip(s: string): (r: string)
    ensures Trimmed(r)
    ensures exists i: nat :: StripsTo(s, i, r)
  {
    var t := StripStart(s);
    var r := StripEnd(t);
    StripComposed(s, t, r);
    r
  }

  /** `rstrip` after `lstrip` leaves the text between two whitespace runs. */
  lemma StripComposed(s: string, t: string, r: string)
    requires |t| <= |s| && t == s[|s| - |t|..] && AllSpace(s[..|s| - |t|])
    requires t == [] || !IsSpace(t[0])
    requires |r| <= |t| && r == t[..|r|] && AllSpace(t[|r|..])
    requires r == [] || !IsSpace(r[|r| - 1])
    ensures Trimmed(r) && StripsTo(s, |s| - |t|, r)
  {
    var i := |s| - |t|;
    if r != [] {
      assert r[0] == t[0];
    }
    assert s[i..i + |r|] == t[..|r|];
    assert s[i + |r|..] == t[|r|..];
  }

  lemma {:induction false} StripStartPadded(p: string, t: string)
    requires AllSpace(p)
    requires t == [] || !IsSpace(t[0])
    ensures StripStart(p + t) == t
  {
    if p != [] {
      assert (p + t)[1..] == p[1..] + t;
      StripStartPadded(p[1..], t);
    } else {
      assert p + t == t;
    }
  }

  lemma {:induction false} StripEndPadded(t: string, q: string)
    requires AllSpace(q)
    requires t == [] || !IsSpace(t[|t| - 1])
    ensures StripEnd(t + q) == t
  {
    if q != [] {
      assert (t + q)[..|t + q| - 1] == t + q[..|q| - 1];
      StripEndPadded(t, q[..|q| - 1]);
    } else {
      assert t + q == t;
    }
  }

  /** The converse of `Strip`'s contract: whatever sits between two runs of
      whitespace, with no whitespace at its own ends, is what `strip` returns. */
  lemma StripUnique(p: string, r: string, q: string)
    requires AllSpace(p) && AllSpace(q) && Trimmed(r)
    ensures Strip(p + r + q) == r
  {
    if r == [] {
      assert p + r + q == p + q;
      assert AllSpace(p + q);
      var t := StripStart(p + q);
      assert t == [];
    } else {
      assert p + r + q == p + (r + q);
      StripStartPadded(p, r + q);
      StripEndPadded(r, q);
    }
  }

  /** A text without whitespace at its ends is its own `strip`. */
  lemma StripTrimmed(r: string)
    requires Trimmed(r)
    ensures Strip(r) == r
  {
    assert r == [] + r + [];
    StripUnique([], r, []);
  }

  lemma SliceThree(s: string, i: nat, j: nat)
    requires i <= j <= |s|
    ensures s == s[..i] + s[i..j] + s[j..]
  {
  }

  lemma AllSpaceConcat(a: string, b: string)
    requires AllSpace(a) && AllSpace(b)
    ensures AllSpace(a + b)
  {
  }

  lemma StripParts(s: string) returns (lead: string, trail: string)
    ensures AllSpace(lead) && AllSpace(trail) && s == lead + Strip(s) + trail
  {
    var r := Strip(s);
    var i: nat :| StripsTo(s, i, r);
    lead, trail := s[..i], s[i + |r|..];
    SliceThree(s, i, i + |r|);
  }

  lemma StripRepadded(p: string, lead: string, r: string, trail: string, q: string)
    requires AllSpace(p) && AllSpace(lead) && AllSpace(trail) && AllSpace(q) && Trimmed(r)
    ensures Strip(p + (lead + r + trail) + q) == r
  {
    assert p + (lead + r + trail) + q == (p + lead) + r + (trail + q);
    AllSpaceConcat(p, lead);
    AllSpaceConcat(trail, q);
    StripUnique(p + lead, r, trail + q);
  }

  lemma StripBlank(s: string)
    requires AllSpace(s)
    ensures Strip(s) == []
  {
    assert s == s + [] + [];
    StripUnique(s, [], []);
  }

  lemma StripEmptyBlank(s: string)
    requires Strip(s) == []
    ensures AllSpace(s)
  {
    var i: nat :| StripsTo(s, i, []);
    SliceThree(s, i, i);
    AllSpaceConcat(s[..i], s[i..]);
  }

  /** `strip` leaves nothing exactly of a text that is all whitespace. */
  lemma StripEmpty(s: string)
    ensures Strip(s) == [] <==> AllSpace(s)
  {
    if AllSpace(s) {
      StripBlank(s);
    }
    if Strip(s) == [] {
      StripEmptyBlank(s);
    }
  }

  /** `Strip` of a line padded with whitespace on both sides is `Strip` of the line. */
  lemma StripPadded(p: string, s: string, q: string)
    requires AllSpace(p) && AllSpace(q)
    ensures Strip(p + s + q) == Strip(s)
  {
    var lead, trail := StripParts(s);
    StripRepadded(p, lead, Strip(s), trail, q);
  }

  /** ASCII lower-casing of one character. */
  function LowerChar(c: char): char {
    if 'A' <= c <= 'Z' then (c as int + 32) as char else c
  }

  /** `s.lower()`, restricted to ASCII letters. */
  function Lower(s: string): (r: string)
    ensures |r| == |s|
    ensures forall i :: 0 <= i < |s| && 'A' <= s[i] <= 'Z' ==> r[i] as int == s[i] as int + 32
    ensures forall i :: 0 <= i < |s| && !('A' <= s[i] <= 'Z') ==> r[i] == s[i]
    ensures forall i :: 0 <= i < |r| ==> !('A' <= r[i] <= 'Z')
  {
    seq(|s|, i requires 0 <= i < |s| => LowerChar(s[i]))
  }

  /** `s.endswith(suffix)`. */
  predicate EndsWith(s: string, suffix: string): (r: bool)
    ensures r <==> exists p :: s == p + suffix
  {
    if |suffix| <= |s| && s[|s| - |suffix|..] == suffix then
      assert s == s[..|s| - |suffix|] + suffix;
      true
    else
      false
  }

  /** `pat` occurs in `s` starting at index `i`. */
  predicate OccursAt(s: string, pat: string, i: nat) {
    i + |pat| <= |s| && s[i..i + |pat|] == pat
  }

  ghost predicate Contains(s: string, pat: string) {
    exists i: nat :: OccursAt(s, pat, i)
  }

  /** The left-to-right scan that the directive search is built from: the
      first index at or after `from` where `pat` occurs, or `None`. */
  function IndexOf(s: string, pat: string, from: nat): (r: Option<nat>)
    ensures r.Some? ==> from <= r.value && OccursAt(s, pat, r.value)
    ensures forall j: nat :: from <= j && (r.None? || j < r.value) ==> !OccursAt(s, pat, j)
    decreases |s| - from
  {
    if from + |pat| > |s| then None
    else if s[from..from + |pat|] == pat then Some(from)
    else IndexOf(s, pat, from + 1)
  }

  /** `find` of a pattern whose occurrences are known: the first one at or after `from`. */
  lemma IndexOfIs(s: string, pat: string, from: nat, k: nat)
    requires from <= k && OccursAt(s, pat, k)
    requires forall j: nat :: from <= j < k ==> !OccursAt(s, pat, j)
    ensures IndexOf(s, pat, from) == Some(k)
  {
  }

  /** Whether `pat` occurs at `j` depends only on the prefix it lies in. */
  lemma OccursInPrefix(a: string, b: string, pat: string, j: nat)
    requires j + |pat| <= |a|
    ensures OccursAt(a + b, pat, j) <==> OccursAt(a, pat, j)
  {
    assert (a + b)[j..j + |pat|] == a[j..j + |pat|];
  }

  /** A slice that lies in the left operand of a concatenation. */
  lemma SliceOfLeft(a: string, b: string, i: nat, j: nat)
    requires i <= j <= |a|
    ensures (a + b)[i..j] == a[i..j]
  {
  }

  /** Text appended after an occurrence does not change what `find` returns. */
  lemma {:induction false} IndexOfPrefix(a: string, b: string, pat: string, from: nat)
    requires IndexOf(a, pat, from).Some?
    ensures IndexOf(a + b, pat, from) == IndexOf(a, pat, from)
    decreases |a| - from
  {
    OccursInPrefix(a, b, pat, from);
    if !OccursAt(a, pat, from) {
      IndexOfPrefix(a, b, pat, from + 1);
    }
  }

  /** No occurrence of `m` starts inside a `body` without `m` that `m`
      follows, when `m`'s first character does not recur in `m`. */
  lemma NotBeforeOccurrence(x: string, body: string, m: string, rest: string, j: nat)
    requires |m| > 0 && !Contains(body, m)
    requires forall k :: 0 < k < |m| ==> m[k] != m[0]
    requires |x| <= j < |x| + |body|
    ensures !OccursAt(x + body + m + rest, m, j)
  {
    var s := x + body + m + rest;
    var b := j - |x|;
    if j + |m| <= |x| + |body| {
      assert s[j..j + |m|] == body[b..b + |m|];
      assert !OccursAt(body, m, b);
    } else if j + |m| <= |s| {
      assert s[j..j + |m|][|x| + |body| - j] == s[|x| + |body|] == m[0];
    }
  }

  /** Searching from the start of a `body` without `m`, `find` stops at the
      `m` that follows it. */
  lemma FirstOccurrence(x: string, body: string, m: string, rest: string)
    requires |m| > 0 && !Contains(body, m)
    requires forall k :: 0 < k < |m| ==> m[k] != m[0]
    ensures IndexOf(x + body + m + rest, m, |x|) == Some(|x| + |body|)
  {
    var s := x + body + m + rest;
    assert s[|x| + |body|..|x| + |body| + |m|] == m;
    forall j: nat | |x| <= j < |x| + |body| ensures !OccursAt(s, m, j) {
      NotBeforeOccurrence(x, body, m, rest, j);
    }
    IndexOfIs(s, m, |x|, |x| + |body|);
  }

  /** `sep.join(xs)`. */
  function Join(sep: string, xs: seq<string>): (r: string)
    ensures xs == [] ==> r == []
    ensures |xs| >= 1 ==> |xs[0]| <= |r| && r[..|xs[0]|] == xs[0]
  {
    if |xs| == 0 then ""
    else if |xs| == 1 then xs[0]
    else xs[0] + sep + Join(sep, xs[1..])
  }

  /** `s.split(sep)` for a one-character separator: a reference inverse of `Join`. */
  function Split(s: string, sep: char): (r: seq<string>)
    ensures |r| >= 1
  {
    if s == [] then [""]
    else
      var rest := Split(s[1..], sep);
      if s[0] == sep then [""] + rest else [[s[0]] + rest[0]] + rest[1..]
  }

  lemma {:induction false} SplitWithoutSeparator(a: string, sep: char)
    requires sep !in a
    ensures Split(a, sep) == [a]
  {
    if a != [] {
      SplitWithoutSeparator(a[1..], sep);
      assert [a[0]] + a[1..] == a;
    }
  }

  lemma {:induction false} SplitAtFirstSeparator(a: string, b: string, sep: char)
    requires sep !in a
    ensures Split(a + [sep] + b, sep) == [a] + Split(b, sep)
  {
    if a == [] {
      assert a + [sep] + b == [sep] + b;
      assert ([sep] + b)[1..] == b;
    } else {
      assert (a + [sep] + b)[1..] == a[1..] + [sep] + b;
      SplitAtFirstSeparator(a[1..], b, sep);
      assert [a[0]] + a[1..] == a;
    }
  }

  /** Joining pieces that do not contain the separator and splitting the
      result again gives the pieces back, in order. */
  lemma {:induction false} SplitJoin(xs: seq<string>, sep: char)
    requires |xs| >= 1
    requires forall i :: 0 <= i < |xs| ==> sep !in xs[i]
    ensures Split(Join([sep], xs), sep) == xs
  {
    if |xs| == 1 {
      SplitWithoutSeparator(xs[0], sep);
    } else {
      SplitJoin(xs[1..], sep);
      SplitAtFirstSeparator(xs[0], Join([sep], xs[1..]), sep);
      assert [xs[0]] + xs[1..] == xs;
    }
  }

  /** `s.replace(pattern, replacement)`: every non-overlapping occurrence,
      scanning left to right, is replaced. */
  function ReplaceAll(s: string, pattern: string, replacement: string): (r: string)
    requires |pattern| > 0
    ensures !Contains(s, pattern) ==> r == s
    decreases |s|
  {
    if |s| < |pattern| then s
    else if s[..|pattern|] == pattern then
      assert OccursAt(s, pattern, 0);
      replacement + ReplaceAll(s[|pattern|..], pattern, replacement)
    else
      var rest := ReplaceAll(s[1..], pattern, replacement);
      AbsentInTail(s, pattern);
      assert !Contains(s, pattern) ==> [s[0]] + s[1..] == s;
      [s[0]] + rest
  }

  /** A string without the pattern has no occurrence in its tail either. */
  lemma AbsentInTail(s: string, pattern: string)
    requires |s| >= 1
    ensures !Contains(s, pattern) ==> !Contains(s[1..], pattern)
  {
    if !Contains(s, pattern) {
      forall i: nat | OccursAt(s[1..], pattern, i) ensures false {
        ContainsShift(s, pattern, i);
      }
    }
  }

  lemma ContainsShift(s: string, pat: string, i: nat)
    requires 1 <= |s| && OccursAt(s[1..], pat, i)
    ensures OccursAt(s, pat, i + 1)
  {
    assert s[i + 1..i + 1 + |pat|] == s[1..][i..i + |pat|];
  }

  lemma NoOccurrenceShift(a: string, rest: string, pattern: string)
    requires |a| >= 1
    requires forall i: nat :: i < |a| ==> !OccursAt(a + rest, pattern, i)
    ensures forall i: nat :: i < |a| - 1 ==> !OccursAt(a[1..] + rest, pattern, i)
  {
    assert (a + rest)[1..] == a[1..] + rest;
    forall i: nat | i < |a| - 1 && OccursAt(a[1..] + rest, pattern, i) ensures false {
      ContainsShift(a + rest, pattern, i);
    }
  }

  /** A prefix in which no occurrence starts is copied unchanged. */
  lemma {:induction false} ReplaceAfterPrefix(a: string, rest: string, pattern: string, replacement: string)
    requires |pattern| > 0
    requires forall i: nat :: i < |a| ==> !OccursAt(a + rest, pattern, i)
    ensures ReplaceAll(a + rest, pattern, replacement) == a + ReplaceAll(rest, pattern, replacement)
  {
    var s := a + rest;
    if a == [] {
      assert s == rest;
    } else if |s| < |pattern| {
      assert ReplaceAll(rest, pattern, replacement) == rest;
    } else {
      assert !OccursAt(s, pattern, 0);
      calc {
        ReplaceAll(s, pattern, replacement);
        { ReplaceCopiesFirst(s, pattern, replacement); }
        [s[0]] + ReplaceAll(s[1..], pattern, replacement);
        { assert s[1..] == a[1..] + rest; }
        [a[0]] + ReplaceAll(a[1..] + rest, pattern, replacement);
        { NoOccurrenceShift(a, rest, pattern);
          ReplaceAfterPrefix(a[1..], rest, pattern, replacement); }
        [a[0]] + (a[1..] + ReplaceAll(rest, pattern, replacement));
        { assert [a[0]] + a[1..] == a; }
        a + ReplaceAll(rest, pattern, replacement);
      }
    }
  }

  /** An occurrence at the start is replaced, and the scan goes on after it:
      with `ReplaceAfterPrefix`, this pins down that every occurrence is
      replaced, not only the first. */
  lemma ReplaceAtOccurrence(s: string, pattern: string, replacement: string)
    requires |pattern| > 0 && OccursAt(s, pattern, 0)
    ensures ReplaceAll(s, pattern, replacement) == replacement + ReplaceAll(s[|pattern|..], pattern, replacement)
  {
  }

  /** Where no occurrence starts, `replace` copies the first character. */
  lemma ReplaceCopiesFirst(s: string, pattern: string, replacement: string)
    requires |pattern| > 0 && |s| >= |pattern| && !OccursAt(s, pattern, 0)
    ensures ReplaceAll(s, pattern, replacement) == [s[0]] + ReplaceAll(s[1..], pattern, replacement)
  {
  }

  lemma ContainsInLeft(x: string, y: string, pat: string)
    requires Contains(x, pat)
    ensures Contains(x + y, pat)
  {
    var i: nat :| OccursAt(x, pat, i);
    assert (x + y)[i..i + |pat|] == x[i..i + |pat|];
    assert OccursAt(x + y, pat, i);
  }

  lemma ContainsInRight(x: string, y: string, pat: string)
    requires Contains(y, pat)
    ensures Contains(x + y, pat)
  {
    var i: nat :| OccursAt(y, pat, i);
    assert (x + y)[|x| + i..|x| + i + |pat|] == y[i..i + |pat|];
    assert OccursAt(x + y, pat, |x| + i);
  }

  /** If the pattern occurs and the replacement contains `m`, the result contains `m`. */
  lemma {:induction false} ReplaceKeeps(s: string, pattern: string, replacement: string, m: string)
    requires |pattern| > 0 && Contains(s, pattern) && Contains(replacement, m)
    ensures Contains(ReplaceAll(s, pattern, replacement), m)
  {
    var i: nat :| OccursAt(s, pattern, i);
    if s[..|pattern|] == pattern {
      ContainsInLeft(replacement, ReplaceAll(s[|pattern|..], pattern, replacement), m);
    } else {
      assert i > 0;
      assert s[1..][i - 1..i - 1 + |pattern|] == s[i..i + |pattern|];
      assert OccursAt(s[1..], pattern, i - 1);
      ReplaceKeeps(s[1..], pattern, replacement, m);
      ContainsInRight([s[0]], ReplaceAll(s[1..], pattern, replacement), m);
    }
  }

  /** Two strings without `m` do not form `m` when joined, provided the
      character at the seam does not occur in `m`. */
  lemma NoStraddle(x: string, y: string, m: string)
    requires !Contains(x, m) && !Contains(y, m)
    requires |y| > 0 && y[0] !in m
    ensures !Contains(x + y, m)
  {
    forall i: nat ensures !OccursAt(x + y, m, i) {
      if i + |m| <= |x + y| {
        if i + |m| <= |x| {
          assert (x + y)[i..i + |m|] == x[i..i + |m|];
          assert !OccursAt(x, m, i);
        } else if i >= |x| {
          assert (x + y)[i..i + |m|] == y[i - |x|..i - |x| + |m|];
          assert !OccursAt(y, m, i - |x|);
        } else {
          assert (x + y)[i..i + |m|][|x| - i] == y[0];
          assert m[|x| - i] != y[0];
        }
      }
    }
  }

  /** A digit of a lower-case hexadecimal numeral. */
  function HexDigit(d: nat): char
    requires d < 16
  {
    if d < 10 then ('0' as int + d) as char else ('a' as int + d - 10) as char
  }

  /** A printable ASCII character that `repr` writes as itself when the quote is `'`. */
  predicate PlainChar(c: char) {
    c != '\'' && c != '\\' && ' ' <= c <= '~'
  }

  /** How `repr` writes one character of a string quoted by `quote`. */
  function EscapeChar(c: char, quote: char): string {
    if c == quote || c == '\\' then ['\\', c]
    else if c == '\n' then "\\n"
    else if c == '\r' then "\\r"
    else if c == '\t' then "\\t"
    else if c < ' ' || c == '\U{7F}' then ['\\', 'x', HexDigit(c as int / 16), HexDigit(c as int % 16)]
    else [c]
  }

  function Escape(s: string, quote: char): string {
    if s == [] then "" else EscapeChar(s[0], quote) + Escape(s[1..], quote)
  }

  /** `repr(s)`: single quotes unless the text holds a single quote and no
      double quote. */
  function Repr(s: string): (r: string)
    ensures |r| >= 2 && (r[0] == '\'' || r[0] == '"') && r[|r| - 1] == r[0]
    ensures r[0] == '"' <==> '\'' in s && '"' !in s
    ensures (forall i :: 0 <= i < |s| ==> PlainChar(s[i])) ==> r == "'" + s + "'"
  {
    var quote := if '\'' in s && '"' !in s then '"' else '\'';
    ReprPlain(s);
    [quote] + Escape(s, quote) + [quote]
  }

  lemma {:induction false} EscapePlain(s: string)
    requires forall i :: 0 <= i < |s| ==> PlainChar(s[i])
    ensures Escape(s, '\'') == s
  {
    if s != [] {
      EscapePlain(s[1..]);
      assert [s[0]] + s[1..] == s;
    }
  }

  /** A string of plain characters holds no single quote and is escaped as it is. */
  lemma ReprPlain(s: string)
    ensures (forall i :: 0 <= i < |s| ==> PlainChar(s[i])) ==> '\'' !in s && Escape(s, '\'') == s
  {
    if forall i :: 0 <= i < |s| ==> PlainChar(s[i]) {
      assert '\'' !in s by {
        forall i | 0 <= i < |s| ensures s[i] != '\'' { assert PlainChar(s[i]); }
      }
      EscapePlain(s);
    }
  }
}
