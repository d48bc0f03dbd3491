/** The parts of Python's `str` that the scripts rely on: whitespace,
    strip, startswith, `in`, find, split, join, splitlines, replace,
    ASCII case mapping and decimal rendering of integers. */
module Strings {
  import opened Wrappers

  /** `str.isspace()`; a `\s` in a `str` regular expression matches exactly
      these characters. */
  predicate IsSpace(c: char) {
    || ('\t' <= c <= '\r')
    || ('\U{1C}' <= c <= ' ')
    || c == '\U{85}' || c == '\U{A0}' || c == '\U{1680}'
    || ('\U{2000}' <= c <= '\U{200A}')
    || c == '\U{2028}' || c == '\U{2029}' || c == '\U{202F}' || c == '\U{205F}' || c == '\U{3000}'
  }

  /** The characters at which `str.splitlines()` ends a line. */
  predicate IsLineBreak(c: char) {
    || c == '\n' || c == '\r' || c == '\U{B}' || c == '\U{C}'
    || ('\U{1C}' <= c <= '\U{1E}')
    || c == '\U{85}' || c == '\U{2028}' || c == '\U{2029}'
  }

  predicate IsAsciiDigit(c: char) { '0' <= c <= '9' }
  predicate IsAsciiUpper(c: char) { 'A' <= c <= 'Z' }
  predicate IsAsciiLower(c: char) { 'a' <= c <= 'z' }

  predicate NoSpaceAtEnds(s: string) {
    s == [] || (!IsSpace(s[0]) && !IsSpace(s[|s| - 1]))
  }

  /** `str.strip()`: `s` without the whitespace at both ends. */
  function Strip(s: string): (r: string)
    decreases |s|
    ensures NoSpaceAtEnds(r) && |r| <= |s|
  {
    if s != [] && IsSpace(s[0]) then Strip(s[1..])
    else if s != [] && IsSpace(s[|s| - 1]) then Strip(s[..|s| - 1])
    else s
  }

  /** The stripped string is a slice of `s`. */
  lemma {:induction false} StripSlice(s: string) returns (i: nat)
    ensures i + |Strip(s)| <= |s| && Strip(s) == s[i..i + |Strip(s)|]
    decreases |s|, 1
  {
    if s != [] && IsSpace(s[0]) {
      i := StripSliceFront(s);
    } else if s != [] && IsSpace(s[|s| - 1]) {
      i := StripSliceBack(s);
    } else {
      i := 0;
      assert Strip(s) == s;
      assert s[0..|s|] == s;
    }
  }

  lemma {:induction false} StripSliceFront(s: string) returns (i: nat)
    requires s != [] && IsSpace(s[0])
    ensures i + |Strip(s)| <= |s| && Strip(s) == s[i..i + |Strip(s)|]
    decreases |s|, 0
  {
    var t := s[1..];
    assert Strip(s) == Strip(t);
    var j := StripSlice(t);
    i := j + 1;
    var n := |Strip(t)|;
    assert forall k :: j <= k < j + n ==> t[k] == s[k + 1];
    assert t[j..j + n] == s[i..i + n];
  }

  lemma {:induction false} StripSliceBack(s: string) returns (i: nat)
    requires s != [] && !IsSpace(s[0]) && IsSpace(s[|s| - 1])
    ensures i + |Strip(s)| <= |s| && Strip(s) == s[i..i + |Strip(s)|]
    decreases |s|, 0
  {
    var t := s[..|s| - 1];
    assert Strip(s) == Strip(t);
    i := StripSlice(t);
    var n := |Strip(t)|;
    assert t[i..i + n] == s[i..i + n];
  }

  lemma StripNoSpaceAtEnds(s: string)
    requires NoSpaceAtEnds(s)
    ensures Strip(s) == s
  {
  }

  /** Stripping twice is stripping once. */
  lemma StripIdempotent(s: string)
    ensures Strip(Strip(s)) == Strip(s)
  {
    StripNoSpaceAtEnds(Strip(s));
  }

  predicate StartsWith(s: string, p: string) {
    |p| <= |s| && s[..|p|] == p
  }

  predicate OccursAt(s: string, t: string, k: int) {
    0 <= k && k + |t| <= |s| && s[k..k + |t|] == t
  }

  /** `s.find(t, i)`: the leftmost occurrence of `t` at or after `i`. */
  function FindFrom(s: string, t: string, i: nat): (r: Option<nat>)
    decreases |s| - i
    ensures r.Some? ==> i <= r.value && OccursAt(s, t, r.value)
    ensures r.Some? ==> forall k :: i <= k < r.value ==> !OccursAt(s, t, k)
    ensures r.None? ==> forall k :: i <= k ==> !OccursAt(s, t, k)
  {
    if i + |t| > |s| then None
    else if s[i..i + |t|] == t then Some(i)
    else FindFrom(s, t, i + 1)
  }

  /** First index at or after `j` whose character is not whitespace, or `|s|`:
      where a greedy `\s*` starting at `j` stops. */
  function SkipSpaces(s: string, j: nat): (r: nat)
    requires j <= |s|
    decreases |s| - j
    ensures j <= r <= |s|
    ensures forall k :: j <= k < r ==> IsSpace(s[k])
    ensures r < |s| ==> !IsSpace(s[r])
  {
    if j == |s| || !IsSpace(s[j]) then j else SkipSpaces(s, j + 1)
  }

  /** `s.find(c, i)` for a single character. */
  function IndexOfChar(s: string, c: char, i: nat): (r: Option<nat>)
    decreases |s| - i
    ensures r.Some? ==> i <= r.value < |s| && s[r.value] == c
    ensures forall k :: i <= k < (if r.Some? then r.value else |s|) ==> s[k] != c
  {
    if i >= |s| then None
    else if s[i] == c then Some(i)
    else IndexOfChar(s, c, i + 1)
  }

  /** Python's `t in s`. */
  predicate Contains(s: string, t: string) {
    FindFrom(s, t, 0).Some?
  }

  lemma ContainsAt(s: string, t: string, k: int)
    requires OccursAt(s, t, k)
    ensures Contains(s, t)
  {
  }

  lemma ContainsWitness(s: string, t: string) returns (k: nat)
    requires Contains(s, t)
    ensures OccursAt(s, t, k)
  {
    k := FindFrom(s, t, 0).value;
  }

  /** An occurrence inside a slice is an occurrence in the whole string. */
  lemma ContainsSlice(s: string, i: nat, j: nat, t: string)
    requires i <= j <= |s| && Contains(s[i..j], t)
    ensures Contains(s, t)
  {
    var k := ContainsWitness(s[i..j], t);
    assert forall m :: 0 <= m < |t| ==> s[i + k + m] == t[m];
    ContainsAt(s, t, i + k);
  }

  lemma ContainsPrefix(s: string, t: string, u: string)
    requires Contains(s, t)
    ensures Contains(s + u, t)
  {
    var k := ContainsWitness(s, t);
    assert (s + u)[k..k + |t|] == s[k..k + |t|];
    ContainsAt(s + u, t, k);
  }

  lemma ContainsSuffix(u: string, s: string, t: string)
    requires Contains(s, t)
    ensures Contains(u + s, t)
  {
    var k := ContainsWitness(s, t);
    assert (u + s)[|u| + k..|u| + k + |t|] == s[k..k + |t|];
    ContainsAt(u + s, t, |u| + k);
  }

  /** `s.split(sep)` for a non-empty separator. */
  function Split(s: string, sep: string): (r: seq<string>)
    requires sep != []
    ensures |r| >= 1
    decreases |s|
  {
    match FindFrom(s, sep, 0)
    case None => [s]
    case Some(j) => [s[..j]] + Split(s[j + |sep|..], sep)
  }

  /** `sep.join(parts)`. */
  function Join(parts: seq<string>, sep: string): string {
    if parts == [] then []
    else if |parts| == 1 then parts[0]
    else parts[0] + sep + Join(parts[1..], sep)
  }

  /** Joining the pieces of a split with the same separator gives the
      string back. */
  lemma {:induction false} JoinSplit(s: string, sep: string)
    requires sep != []
    ensures Join(Split(s, sep), sep) == s
    decreases |s|
  {
    var f := FindFrom(s, sep, 0);
    if f.Some? {
      var j := f.value;
      var rest := s[j + |sep|..];
      var pieces := Split(rest, sep);
      JoinSplit(rest, sep);
      var parts := Split(s, sep);
      assert parts == [s[..j]] + pieces;
      assert parts[1..] == pieces;
      assert Join(parts, sep) == s[..j] + sep + Join(pieces, sep);
      assert s[j..j + |sep|] == sep;
      assert s == s[..j] + s[j..j + |sep|] + rest;
    }
  }

  /** The text before the first occurrence of `t` does not contain `t`. */
  lemma NoOccurrenceBefore(s: string, t: string, j: nat)
    requires t != [] && j <= |s|
    requires forall q :: 0 <= q < j ==> !OccursAt(s, t, q)
    ensures !Contains(s[..j], t)
  {
    if Contains(s[..j], t) {
      var m := ContainsWitness(s[..j], t);
      assert s[..j][m..m + |t|] == s[m..m + |t|];
      assert OccursAt(s, t, m);
    }
  }

  /** No piece of a split contains the separator. */
  lemma {:induction false} SplitPiecesFree(s: string, sep: string, k: nat)
    requires sep != [] && k < |Split(s, sep)|
    ensures !Contains(Split(s, sep)[k], sep)
    decreases |s|
  {
    match FindFrom(s, sep, 0)
    case None =>
    case Some(j) =>
      if k == 0 {
        assert Split(s, sep)[0] == s[..j];
        NoOccurrenceBefore(s, sep, j);
      } else {
        var pieces := Split(s[j + |sep|..], sep);
        assert Split(s, sep) == [s[..j]] + pieces;
        assert k - 1 < |pieces| && Split(s, sep)[k] == pieces[k - 1];
        SplitPiecesFree(s[j + |sep|..], sep, k - 1);
      }
  }

  /** A split yields one piece exactly when the separator does not occur. */
  lemma SplitSingle(s: string, sep: string)
    requires sep != []
    ensures |Split(s, sep)| == 1 <==> !Contains(s, sep)
    ensures !Contains(s, sep) ==> Split(s, sep) == [s]
  {
  }

  /** The first piece of a split is a prefix of the string that ends at
      the first separator, or is the whole string. */
  lemma SplitHead(s: string, sep: string)
    requires sep != []
    ensures var h := Split(s, sep)[0];
            StartsWith(s, h) && (h == s || OccursAt(s, sep, |h|))
  {
  }

  /** `s.replace(a, b)` for single characters `a` and `b`. */
  function ReplaceChar(s: string, a: char, b: char): (r: string)
    ensures |r| == |s|
    ensures forall k :: 0 <= k < |s| ==> r[k] == if s[k] == a then b else s[k]
  {
    seq(|s|, k requires 0 <= k < |s| => if s[k] == a then b else s[k])
  }

  /** `s.replace(old, new)`. */
  function Replace(s: string, pattern: string, repl: string): string
    requires pattern != []
  {
    Join(Split(s, pattern), repl)
  }

  /** `"".join(parts)`. */
  function Concat(parts: seq<string>): string {
    if parts == [] then [] else parts[0] + Concat(parts[1..])
  }

  /** Index of the first line break at or after `i`. */
  function FirstBreakFrom(s: string, i: nat): (r: Option<nat>)
    decreases |s| - i
    ensures r.Some? ==> i <= r.value < |s| && IsLineBreak(s[r.value])
    ensures forall k :: i <= k < (if r.Some? then r.value else |s|) ==> !IsLineBreak(s[k])
  {
    if i >= |s| then None
    else if IsLineBreak(s[i]) then Some(i)
    else FirstBreakFrom(s, i + 1)
  }

  predicate NoLineBreak(s: string) {
    forall k :: 0 <= k < |s| ==> !IsLineBreak(s[k])
  }

  /** `str.splitlines()`: a `\r\n` pair ends one line, and a break at the
      very end does not open a further, empty line. */
  function SplitLines(s: string): (r: seq<string>)
    decreases |s|
    ensures forall k :: 0 <= k < |r| ==> NoLineBreak(r[k])
    ensures s == [] <==> r == []
  {
    if s == [] then []
    else match FirstBreakFrom(s, 0)
      case None => [s]
      case Some(j) =>
        var next := if s[j] == '\r' && j + 1 < |s| && s[j + 1] == '\n' then j + 2 else j + 1;
        [s[..j]] + SplitLines(s[next..])
  }

  /** `"\n".join(lines)`. */
  function JoinLines(lines: seq<string>): string {
    Join(lines, "\n")
  }

  function LowerChar(c: char): (d: char)
    ensures IsAsciiUpper(c) ==> IsAsciiLower(d)
    ensures !IsAsciiUpper(c) ==> d == c
  {
    if IsAsciiUpper(c) then c - 'A' + 'a' else c
  }

  function UpperChar(c: char): (d: char)
    ensures IsAsciiLower(c) ==> IsAsciiUpper(d)
    ensures !IsAsciiLower(c) ==> d == c
  {
    if IsAsciiLower(c) then c - 'a' + 'A' else c
  }

  /** `str.lower()` on the ASCII letters. */
  function Lower(s: string): (r: string)
    ensures |r| == |s|
    ensures forall k :: 0 <= k < |s| ==> r[k] == LowerChar(s[k])
  {
    seq(|s|, k requires 0 <= k < |s| => LowerChar(s[k]))
  }

  /** `str.upper()` on the ASCII letters. */
  function Upper(s: string): (r: string)
    ensures |r| == |s|
    ensures forall k :: 0 <= k < |s| ==> r[k] == UpperChar(s[k])
  {
    seq(|s|, k requires 0 <= k < |s| => UpperChar(s[k]))
  }

  function DigitChar(d: nat): (c: char)
    requires d < 10
    ensures IsAsciiDigit(c)
  {
    '0' + d as char
  }

  /** `str(n)` for a natural number. */
  function NatToString(n: nat): (r: string)
    ensures r != [] && forall k :: 0 <= k < |r| ==> IsAsciiDigit(r[k])
    ensures n >= 10 <==> |r| >= 2
  {
    if n < 10 then [DigitChar(n)] else NatToString(n / 10) + [DigitChar(n % 10)]
  }

  /** Distinct numbers print differently. */
  lemma {:induction false} NatToStringInjective(m: nat, n: nat)
    requires NatToString(m) == NatToString(n)
    ensures m == n
  {
    if m >= 10 && n >= 10 {
      var a, b := NatToString(m), NatToString(n);
      assert a[..|a| - 1] == NatToString(m / 10);
      assert b[..|b| - 1] == NatToString(n / 10);
      NatToStringInjective(m / 10, n / 10);
      assert DigitChar(m % 10) == a[|a| - 1] == DigitChar(n % 10);
    }
  }
}
