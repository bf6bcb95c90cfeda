/**
  The slice of Rust's `str` API and of nom's character parsers that the day
  modules use: line splitting, trimming, splitting at a character, substring
  search, `digit1` and integer parsing. Strings are sequences of `char`;
  `len()` is taken to be the number of characters, which is the byte length
  for the ASCII puzzle inputs.
 */
module Text {
  import opened Common

  predicate IsDigit(c: char) { '0' <= c <= '9' }

  predicate AllDigits(s: string) { forall i :: 0 <= i < |s| ==> IsDigit(s[i]) }

  function DigitValue(c: char): (d: nat)
    requires IsDigit(c)
    ensures d < 10
  {
    c as int - '0' as int
  }

  function DigitChar(d: nat): (c: char)
    requires d < 10
    ensures IsDigit(c) && DigitValue(c) == d
  {
    ('0' as int + d) as char
  }

  /** Value of a string of decimal digits (leading zeros allowed). */
  function DigitsValue(s: string): nat
    requires AllDigits(s)
  {
    if s == [] then 0 else 10 * DigitsValue(s[..|s| - 1]) + DigitValue(s[|s| - 1])
  }

  /** Shortest decimal representation, as Rust's `Display` for unsigned integers. */
  function ShowNat(n: nat): (s: string)
    ensures 1 <= |s| && AllDigits(s) && DigitsValue(s) == n
  {
    if n < 10 then [DigitChar(n)]
    else
      var s := ShowNat(n / 10) + [DigitChar(n % 10)];
      assert s[..|s| - 1] == ShowNat(n / 10);
      s
  }

  /**
    The digits at the front of `s` read into the accumulator `acc`, most
    significant first: the remainder after the run and the accumulated value.
   */
  function DigitsFrom(s: string, acc: nat): (r: (string, nat))
    ensures |r.0| <= |s|
    ensures r.0 == [] || !IsDigit(r.0[0])
    decreases |s|
  {
    if s != [] && IsDigit(s[0]) then DigitsFrom(s[1..], 10 * acc + DigitValue(s[0])) else (s, acc)
  }

  /**
    nom's `digit1` followed by decimal conversion: the remainder after the
    longest run of digits (at least one) and the value of that run.
   */
  function Digit1(s: string): (r: Option<(string, nat)>)
    ensures r.Some? <==> s != [] && IsDigit(s[0])
    ensures r.Some? ==> |r.value.0| < |s|
    ensures r.Some? ==> r.value.0 == [] || !IsDigit(r.value.0[0])
  {
    if s == [] || !IsDigit(s[0]) then None else Some(DigitsFrom(s, 0))
  }

  /** Reading the run `d` after the digits `done` extends `done`'s value by `d`. */
  lemma {:induction false} DigitsFromRun(done: string, d: string, rest: string)
    requires AllDigits(done) && AllDigits(d)
    requires rest == [] || !IsDigit(rest[0])
    ensures AllDigits(done + d)
    ensures DigitsFrom(d + rest, DigitsValue(done)) == (rest, DigitsValue(done + d))
    decreases |d|
  {
    assert AllDigits(done + d) by {
      forall i | 0 <= i < |done + d| ensures IsDigit((done + d)[i]) {
        if i >= |done| { assert (done + d)[i] == d[i - |done|]; }
      }
    }
    if d == [] {
      assert d + rest == rest && done + d == done;
    } else {
      var next := done + [d[0]];
      assert next[..|next| - 1] == done;
      assert (d + rest)[1..] == d[1..] + rest;
      assert next + d[1..] == done + d;
      assert AllDigits(next) by {
        forall i | 0 <= i < |next| ensures IsDigit(next[i]) {
          if i < |done| { assert next[i] == done[i]; }
        }
      }
      assert AllDigits(d[1..]) by {
        forall i | 0 <= i < |d[1..]| ensures IsDigit(d[1..][i]) {
          assert d[1..][i] == d[i + 1];
        }
      }
      DigitsFromRun(next, d[1..], rest);
    }
  }

  /** `digit1` consumes a whole run of digits and yields its decimal value. */
  lemma Digit1OfDigits(d: string, rest: string)
    requires d != [] && AllDigits(d)
    requires rest == [] || !IsDigit(rest[0])
    ensures Digit1(d + rest) == Some((rest, DigitsValue(d)))
  {
    assert (d + rest)[0] == d[0];
    DigitsFromRun([], d, rest);
    assert [] + d == d;
  }

  /** `digit1` reads back exactly the number that `ShowNat` printed. */
  lemma Digit1ShowNat(n: nat, rest: string)
    requires rest == [] || !IsDigit(rest[0])
    ensures Digit1(ShowNat(n) + rest) == Some((rest, n))
  {
    Digit1OfDigits(ShowNat(n), rest);
  }

  predicate StartsWith(s: string, prefix: string)
  {
    |prefix| <= |s| && s[..|prefix|] == prefix
  }

  /** nom's `tag`: the remainder after a literal prefix. */
  function Tag(s: string, prefix: string): (r: Option<string>)
    ensures r.Some? <==> StartsWith(s, prefix)
    ensures r.Some? ==> s == prefix + r.value
  {
    if StartsWith(s, prefix) then Some(s[|prefix|..]) else None
  }

  lemma TagAppend(prefix: string, rest: string)
    ensures Tag(prefix + rest, prefix) == Some(rest)
  {
    assert (prefix + rest)[..|prefix|] == prefix;
  }

  /** Rust's `str::parse` for an unsigned integer type, without the width limit. */
  function ParseUnsigned(s: string): Option<nat>
  {
    var body := if s != [] && s[0] == '+' then s[1..] else s;
    if body != [] && AllDigits(body) then Some(DigitsValue(body)) else None
  }

  /** Rust's `str::parse` for a signed integer type, without the width limit. */
  function ParseSigned(s: string): Option<int>
  {
    if s != [] && s[0] == '-' then
      var body := s[1..];
      if body != [] && AllDigits(body) then Some(-(DigitsValue(body) as int)) else None
    else ParseUnsigned(s)
  }

  /** Decimal representation of an integer, as Rust's `Display` for signed integers. */
  function ShowInt(x: int): string
  {
    if x < 0 then "-" + ShowNat(-x) else ShowNat(x)
  }

  lemma ParseShowInt(x: int)
    ensures ParseSigned(ShowInt(x)) == Some(x)
  {
    if x < 0 {
      assert ShowInt(x)[1..] == ShowNat(-x);
    } else {
      assert ShowInt(x)[0] != '-' && ShowInt(x)[0] != '+';
    }
  }

  /** Unicode White_Space, as Rust's `char::is_whitespace`. */
  predicate IsWhitespace(c: char)
  {
    c == ' ' || c == '\t' || c == '\n' || c == '\r' || c == '\U{0B}' || c == '\U{0C}'
    || c == '\U{85}' || c == '\U{A0}' || c == '\U{1680}' || ('\U{2000}' <= c <= '\U{200A}')
    || c == '\U{2028}' || c == '\U{2029}' || c == '\U{202F}' || c == '\U{205F}' || c == '\U{3000}'
  }

  /** The index of the first non-whitespace character at or after `i`, or `|s|`. */
  function SkipWhitespace(s: string, i: nat): (k: nat)
    requires i <= |s|
    ensures i <= k <= |s|
    decreases |s| - i
  {
    if i < |s| && IsWhitespace(s[i]) then SkipWhitespace(s, i + 1) else i
  }

  /** The index just past the last non-whitespace character before `i`, or 0. */
  function SkipWhitespaceBack(s: string, i: nat): (k: nat)
    requires i <= |s|
    ensures k <= i
  {
    if i > 0 && IsWhitespace(s[i - 1]) then SkipWhitespaceBack(s, i - 1) else i
  }

  lemma {:induction false} SkipWhitespaceSkips(s: string, i: nat)
    requires i <= |s|
    ensures forall j :: i <= j < SkipWhitespace(s, i) ==> IsWhitespace(s[j])
    ensures SkipWhitespace(s, i) == |s| || !IsWhitespace(s[SkipWhitespace(s, i)])
    decreases |s| - i
  {
    if i < |s| && IsWhitespace(s[i]) {
      SkipWhitespaceSkips(s, i + 1);
    }
  }

  lemma {:induction false} SkipWhitespaceBackSkips(s: string, i: nat)
    requires i <= |s|
    ensures forall j :: SkipWhitespaceBack(s, i) <= j < i ==> IsWhitespace(s[j])
    ensures SkipWhitespaceBack(s, i) == 0 || !IsWhitespace(s[SkipWhitespaceBack(s, i) - 1])
  {
    if i > 0 && IsWhitespace(s[i - 1]) {
      SkipWhitespaceBackSkips(s, i - 1);
    }
  }

  /** Rust's `str::trim`: the text between the leading and the trailing whitespace. */
  function Trim(s: string): (r: string)
    ensures |r| <= |s|
  {
    var start := SkipWhitespace(s, 0);
    var end := SkipWhitespaceBack(s, |s|);
    if start < end then s[start..end] else []
  }

  /** `trim` removes exactly the whitespace at both ends: the result is empty or starts and ends with other characters. */
  lemma TrimEnds(s: string)
    ensures Trim(s) == [] <==> forall j :: 0 <= j < |s| ==> IsWhitespace(s[j])
    ensures Trim(s) != [] ==> !IsWhitespace(Trim(s)[0]) && !IsWhitespace(Trim(s)[|Trim(s)| - 1])
  {
    SkipWhitespaceSkips(s, 0);
    SkipWhitespaceBackSkips(s, |s|);
    var start := SkipWhitespace(s, 0);
    var end := SkipWhitespaceBack(s, |s|);
    if start < end {
      assert Trim(s)[0] == s[start] && Trim(s)[|Trim(s)| - 1] == s[end - 1];
    }
  }

  /** Index of the first occurrence of `c`. */
  function FindChar(s: string, c: char): (r: Option<nat>)
    ensures r.Some? ==> r.value < |s| && s[r.value] == c && c !in s[..r.value]
    ensures r.None? ==> c !in s
  {
    if s == [] then None
    else if s[0] == c then Some(0)
    else match FindChar(s[1..], c)
      case None => None
      case Some(i) =>
        assert s[..i + 1] == [s[0]] + s[1..][..i];
        Some(i + 1)
  }

  /** Rust's `str::split` with a character pattern: always at least one piece. */
  function Split(s: string, c: char): (r: seq<string>)
    ensures |r| >= 1
    ensures forall k :: 0 <= k < |r| ==> c !in r[k]
    decreases |s|
  {
    match FindChar(s, c)
    case None => [s]
    case Some(i) => [s[..i]] + Split(s[i + 1..], c)
  }

  /** Rust's `str::split_once` with a character pattern. */
  function SplitOnce(s: string, c: char): (r: Option<(string, string)>)
    ensures r.Some? ==> s == r.value.0 + [c] + r.value.1 && c !in r.value.0
    ensures r.None? <==> c !in s
  {
    match FindChar(s, c)
    case None => None
    case Some(i) =>
      assert s == s[..i] + [c] + s[i + 1..];
      Some((s[..i], s[i + 1..]))
  }

  function StripCarriageReturn(s: string): string
  {
    if s != [] && s[|s| - 1] == '\r' then s[..|s| - 1] else s
  }

  /**
    Rust's `str::lines`: split at '\n', drop one '\r' before each '\n', and
    yield no empty line after a final '\n'.
   */
  function Lines(s: string): (r: seq<string>)
    ensures s == [] <==> r == []
    ensures forall k :: 0 <= k < |r| ==> '\n' !in r[k]
    decreases |s|
  {
    if s == [] then []
    else match FindChar(s, '\n')
      case None => [s]
      case Some(i) => [StripCarriageReturn(s[..i])] + Lines(s[i + 1..])
  }

  /** `pattern` occurs in `s` starting at index `i`. */
  predicate MatchAt(s: string, i: nat, pattern: string)
  {
    i + |pattern| <= |s| && s[i..i + |pattern|] == pattern
  }

  function FindFrom(s: string, pattern: string, i: nat): (r: Option<nat>)
    requires |pattern| >= 1
    ensures r.Some? ==> i <= r.value && MatchAt(s, r.value, pattern)
    ensures r.Some? ==> forall j :: i <= j < r.value ==> !MatchAt(s, j, pattern)
    ensures r.None? ==> forall j :: i <= j ==> !MatchAt(s, j, pattern)
    decreases |s| - i
  {
    if i + |pattern| > |s| then None
    else if MatchAt(s, i, pattern) then Some(i)
    else FindFrom(s, pattern, i + 1)
  }

  /** Index of the first occurrence of a non-empty `pattern` (nom's `find_substring`). */
  function FindSubstring(s: string, pattern: string): (r: Option<nat>)
    requires |pattern| >= 1
    ensures r.Some? ==> MatchAt(s, r.value, pattern) && forall j :: 0 <= j < r.value ==> !MatchAt(s, j, pattern)
    ensures r.None? ==> forall j :: 0 <= j ==> !MatchAt(s, j, pattern)
  {
    FindFrom(s, pattern, 0)
  }

  /** `pattern` does not start anywhere before index `n` of `s`. */
  predicate NoMatchBefore(s: string, pattern: string, n: nat)
  {
    forall j :: 0 <= j < n ==> !MatchAt(s, j, pattern)
  }

  /** If no occurrence starts inside `p`, the first one in `p + pattern + q` is at `|p|`. */
  lemma FindSubstringAfter(p: string, pattern: string, q: string)
    requires |pattern| >= 1
    requires NoMatchBefore(p + pattern + q, pattern, |p|)
    ensures FindSubstring(p + pattern + q, pattern) == Some(|p|)
  {
    var s := p + pattern + q;
    assert s[|p|..|p| + |pattern|] == pattern;
    assert MatchAt(s, |p|, pattern);
  }
}
