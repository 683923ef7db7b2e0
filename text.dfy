/** The string operations the monitor relies on, with Python's and PostgreSQL's meaning. */
module Text {
  import opened Base

  /** The characters `str.isspace` accepts; `str.strip` removes them and the regular
      expression class `\s` matches them. */
  predicate IsSpace(c: char) {
    || ('\t' <= c <= '\r')
    || ('\U{1C}' <= c <= ' ')
    || c == '\U{85}' || c == '\U{A0}' || c == '\U{1680}'
    || ('\U{2000}' <= c <= '\U{200A}')
    || c == '\U{2028}' || c == '\U{2029}' || c == '\U{202F}' || c == '\U{205F}' || c == '\U{3000}'
  }

  /** `c not in s`. */
  predicate Lacks(s: string, c: char) {
    forall i :: 0 <= i < |s| ==> s[i] != c
  }

  /** Neither end of `s` is whitespace. */
  predicate Stripped(s: string) {
    s == [] || (!IsSpace(s[0]) && !IsSpace(s[|s| - 1]))
  }

  /** `s.lstrip()`: the suffix left after dropping leading whitespace. */
  function StripLeft(s: string): (r: string)
    ensures |r| <= |s| && r == s[|s| - |r|..]
    ensures forall i :: 0 <= i < |s| - |r| ==> IsSpace(s[i])
    ensures r == [] || !IsSpace(r[0])
  {
    if s != [] && IsSpace(s[0]) then
      var r := StripLeft(s[1..]);
      assert s[1..][|s| - 1 - |r|..] == s[|s| - |r|..];
      assert forall i :: 1 <= i < |s| ==> s[1..][i - 1] == s[i];
      r
    else s
  }

  /** `s.rstrip()`: the prefix left after dropping trailing whitespace. */
  function StripRight(s: string): (r: string)
    ensures |r| <= |s| && r == s[..|r|]
    ensures forall i :: |r| <= i < |s| ==> IsSpace(s[i])
    ensures r == [] || !IsSpace(r[|r| - 1])
  {
    if s != [] && IsSpace(s[|s| - 1]) then StripRight(s[..|s| - 1]) else s
  }

  /** `s.strip()`: the middle of `s` left after dropping whitespace at both ends, and
      nothing else. */
  function Strip(s: string): (r: string)
    ensures Stripped(r)
    ensures |r| <= |s|
    ensures exists i :: Trimmed(s, i, r)
  {
    StripTrims(s);
    StripRight(StripLeft(s))
  }

  /** Both halves of `strip` drop only whitespace, so their composition trims `s`. */
  lemma StripTrims(s: string)
    ensures Trimmed(s, |s| - |StripLeft(s)|, StripRight(StripLeft(s)))
  {
    TrimmedInTwoSteps(s, StripLeft(s), StripRight(StripLeft(s)));
  }

  /** Dropping leading whitespace and then trailing whitespace trims. */
  lemma TrimmedInTwoSteps(s: string, left: string, r: string)
    requires |left| <= |s| && left == s[|s| - |left|..]
    requires forall k :: 0 <= k < |s| - |left| ==> IsSpace(s[k])
    requires |r| <= |left| && r == left[..|r|]
    requires forall k :: |r| <= k < |left| ==> IsSpace(left[k])
    ensures Trimmed(s, |s| - |left|, r)
  {
    var i := |s| - |left|;
    assert r == s[i..i + |r|];
    forall k | i + |r| <= k < |s|
      ensures IsSpace(s[k])
    {
      assert s[k] == left[k - i];
    }
  }

  /** `r` is what is left of `s` once the `i` characters before it and every character
      after it, all whitespace, are dropped. */
  predicate Trimmed(s: string, i: int, r: string) {
    && 0 <= i <= |s| - |r| && r == s[i..i + |r|]
    && (forall k :: 0 <= k < i ==> IsSpace(s[k]))
    && (forall k :: i + |r| <= k < |s| ==> IsSpace(s[k]))
  }

  /** Stripping adds no character: what `s` lacks, `s.strip()` lacks too. */
  lemma StripKeepsLacks(s: string, c: char)
    requires Lacks(s, c)
    ensures Lacks(Strip(s), c)
  {
    var l := StripLeft(s);
    LacksSlice(s, c, |s| - |l|, |s|);
    var r := StripRight(l);
    LacksSlice(l, c, 0, |r|);
  }

  /** A slice of text lacking `c` lacks it too. */
  lemma LacksSlice(s: string, c: char, lo: nat, hi: nat)
    requires Lacks(s, c) && lo <= hi <= |s|
    ensures Lacks(s[lo..hi], c)
  {
    forall i | 0 <= i < hi - lo ensures s[lo..hi][i] != c {
      assert s[lo..hi][i] == s[lo + i];
    }
  }

  /** Stripping text that has no whitespace at either end changes nothing. */
  lemma StripOfStripped(s: string)
    requires Stripped(s)
    ensures Strip(s) == s
  {
  }

  /** A trailing newline (or other whitespace) is all `strip` removes from text that
      has no whitespace at either end. */
  lemma StripDropsTrailingSpace(s: string, c: char)
    requires Stripped(s) && IsSpace(c)
    ensures Strip(s + [c]) == s
  {
    var t := s + [c];
    if s == [] {
      assert t[1..] == [];
    } else {
      assert t[0] == s[0];
      assert StripLeft(t) == t;
      assert t[..|t| - 1] == s;
    }
  }

  /** `s[:n]`: the first `n` characters, or all of `s` when it is shorter. */
  function Truncate(s: string, n: nat): (r: string)
    ensures |r| == Min(n, |s|)
    ensures r <= s
    ensures |s| <= n ==> r == s
  {
    s[..Min(n, |s|)]
  }

  predicate IsDigit(c: char) {
    '0' <= c <= '9'
  }

  predicate AllDigits(s: string) {
    forall i :: 0 <= i < |s| ==> IsDigit(s[i])
  }

  function DigitValue(c: char): int
    requires IsDigit(c)
  {
    c as int - '0' as int
  }

  function DigitChar(d: int): char
    requires 0 <= d < 10
  {
    ('0' as int + d) as char
  }

  /** The number a run of decimal digits spells, as `int()` reads it. */
  function DecimalValue(s: string): nat
    requires AllDigits(s)
  {
    if s == [] then 0 else DecimalValue(s[..|s| - 1]) * 10 + DigitValue(s[|s| - 1])
  }

  /** The length of the run of digits at the start of `s`. */
  function DigitRun(s: string): (n: nat)
    ensures n <= |s| && AllDigits(s[..n])
    ensures n < |s| ==> !IsDigit(s[n])
  {
    if s != [] && IsDigit(s[0]) then
      var n := 1 + DigitRun(s[1..]);
      assert s[..n] == [s[0]] + s[1..][..n - 1];
      n
    else 0
  }

  /** `text` starts with characters matching `pattern`, where `_` in the pattern
      stands for any one character (SQL `LIKE`). */
  predicate MatchesPrefix(text: string, pattern: string) {
    pattern == [] ||
    (&& text != []
     && (pattern[0] == '_' || text[0] == pattern[0])
     && MatchesPrefix(text[1..], pattern[1..]))
  }

  /** `text LIKE '%<pattern>%'` for a pattern without `%` or escape characters: the
      pattern matches at some position of `text`. */
  predicate LikeContains(text: string, pattern: string)
    decreases |text|
  {
    MatchesPrefix(text, pattern) || (text != [] && LikeContains(text[1..], pattern))
  }

  /** A pattern matches at the start of any text that begins with it. */
  lemma {:induction false} PrefixMatchesItself(pattern: string, rest: string)
    ensures MatchesPrefix(pattern + rest, pattern)
  {
    if pattern != [] {
      assert (pattern + rest)[1..] == pattern[1..] + rest;
      PrefixMatchesItself(pattern[1..], rest);
    }
  }

  /** `LIKE '%p%'` finds `p` wherever it occurs in the text. */
  lemma {:induction false} LikeFindsInfix(before: string, pattern: string, after: string)
    ensures LikeContains(before + pattern + after, pattern)
  {
    if before == [] {
      assert before + pattern + after == pattern + after;
      PrefixMatchesItself(pattern, after);
    } else {
      assert (before + pattern + after)[1..] == before[1..] + pattern + after;
      LikeFindsInfix(before[1..], pattern, after);
    }
  }
}
