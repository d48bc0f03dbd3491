/** The array-literal strategy of merge.py: finding JavaScript string-array
    literals in a page (`extract_arrays_from_text`) and joining their quoted
    pieces into one string (`join_array_chars`). */
module MergeArrays {
  import opened Wrappers
  import opened Strings
  import opened Externals
  import opened Lists
  import MergeUrls

  // ---------------------------------------------------------------------
  // Strategy A: `return ( [ ... ] )` with balanced brackets

  /** Index of the `[` when `return\s*\(\s*\[` matches at `i`. */
  function ReturnBracketAt(s: string, i: nat): (r: Option<nat>)
    ensures r.Some? ==> i < r.value < |s| && s[r.value] == '['
  {
    if i + 6 <= |s| && s[i..i + 6] == "return" then
      var a := SkipSpaces(s, i + 6);
      if a < |s| && s[a] == '(' then
        var b := SkipSpaces(s, a + 1);
        if b < |s| && s[b] == '[' then Some(b) else None
      else None
    else None
  }

  predicate AllOpenBrackets(s: string, starts: seq<nat>) {
    forall k :: 0 <= k < |starts| ==> starts[k] < |s| && s[starts[k]] == '['
  }

  /** The `[` of every match of `re.finditer(r"return\s*\(\s*\[", s)` at
      or after `i`; the search resumes after each match. */
  function ReturnArrayStarts(s: string, i: nat): (r: seq<nat>)
    decreases |s| - i
    ensures AllOpenBrackets(s, r)
  {
    if i >= |s| then []
    else match ReturnBracketAt(s, i)
      case Some(b) => [b] + ReturnArrayStarts(s, b + 1)
      case None => ReturnArrayStarts(s, i + 1)
  }

  function BracketStep(c: char): int {
    if c == '[' then 1 else if c == ']' then -1 else 0
  }

  /** Nesting depth after reading `t`: opening brackets minus closing ones. */
  function Depth(t: string): int {
    if t == [] then 0 else Depth(t[..|t| - 1]) + BracketStep(t[|t| - 1])
  }

  /** Depth after reading `s[start..k]` inclusive. */
  function DepthThrough(s: string, start: nat, k: nat): int
    requires start <= k < |s|
  {
    Depth(s[start..k + 1])
  }

  lemma DepthSnoc(s: string, start: nat, i: nat)
    requires start <= i < |s|
    ensures DepthThrough(s, start, i) == Depth(s[start..i]) + BracketStep(s[i])
  {
    assert s[start..i + 1][..i - start] == s[start..i];
  }

  /** First `k >= from` where the text `s[start..k+1]` is balanced. */
  function ClosingBracketFrom(s: string, start: nat, from: nat): (r: Option<nat>)
    requires start <= from <= |s|
    decreases |s| - from
    ensures r.Some? ==> from <= r.value < |s| && DepthThrough(s, start, r.value) == 0
    ensures forall k :: from <= k < (if r.Some? then r.value else |s|) ==> DepthThrough(s, start, k) != 0
  {
    if from == |s| then None
    else if DepthThrough(s, start, from) == 0 then Some(from)
    else ClosingBracketFrom(s, start, from + 1)
  }

  /** The bracket that closes the one at `start`, if the text closes it. */
  function ClosingBracket(s: string, start: nat): (r: Option<nat>)
    requires start < |s|
    ensures r.Some? ==> start <= r.value < |s|
  {
    ClosingBracketFrom(s, start, start)
  }

  lemma {:induction false} ClosingBracketSkip(s: string, start: nat, from: nat)
    requires start < |s| && start <= from <= |s|
    requires forall k :: start <= k < from ==> DepthThrough(s, start, k) != 0
    ensures ClosingBracket(s, start) == ClosingBracketFrom(s, start, from)
    decreases from - start
  {
    if from > start {
      ClosingBracketSkip(s, start, from - 1);
    }
  }

  /** The closing bracket is a `]`, and the depth stays positive up to it. */
  lemma {:induction false} ClosingBracketShape(s: string, start: nat, k: nat)
    requires start < |s| && s[start] == '['
    requires start <= k < (if ClosingBracket(s, start).Some? then ClosingBracket(s, start).value + 1 else |s|)
    ensures ClosingBracket(s, start).Some? && k < ClosingBracket(s, start).value ==> DepthThrough(s, start, k) > 0
    ensures ClosingBracket(s, start).None? ==> DepthThrough(s, start, k) > 0
    ensures ClosingBracket(s, start) == Some(k) ==> s[k] == ']' && start < k
    decreases k - start
  {
    var r := ClosingBracket(s, start);
    DepthSnoc(s, start, k);
    if k == start {
      assert s[start..start] == [];
    } else {
      ClosingBracketShape(s, start, k - 1);
    }
  }

  /** The `depth` loop of `extract_arrays_from_text`: the index of the `]`
      closing the `[` at `start`. */
  method MatchingBracket(s: string, start: nat) returns (end: Option<nat>)
    requires start < |s| && s[start] == '['
    ensures end == ClosingBracket(s, start)
    ensures end.Some? ==> start < end.value < |s| && s[end.value] == ']'
  {
    var depth := 0;
    var i := start;
    while i < |s|
      invariant start <= i <= |s|
      invariant depth == Depth(s[start..i])
      invariant i > start ==> depth > 0
      invariant forall k :: start <= k < i ==> DepthThrough(s, start, k) != 0
    {
      DepthSnoc(s, start, i);
      var ch := s[i];
      if ch == '[' {
        depth := depth + 1;
      } else if ch == ']' {
        depth := depth - 1;
        if depth == 0 {
          ClosingBracketSkip(s, start, i);
          return Some(i);
        }
      }
      i := i + 1;
    }
    ClosingBracketSkip(s, start, |s|);
    return None;
  }

  /** The balanced literals cut at the given `[` positions, in order. */
  function BalancedArrays(s: string, starts: seq<nat>): (r: seq<string>)
    requires AllOpenBrackets(s, starts)
  {
    if starts == [] then []
    else
      var init := BalancedArrays(s, starts[..|starts| - 1]);
      var start := starts[|starts| - 1];
      match ClosingBracket(s, start)
      case Some(e) => init + [s[start..e + 1]]
      case None => init
  }

  /** The start list of one more step of the balanced-array loop still
      lists only `[` positions. */
  lemma AllOpenBracketsPrefix(s: string, starts: seq<nat>, n: nat)
    requires AllOpenBrackets(s, starts) && n <= |starts|
    ensures AllOpenBrackets(s, starts[..n])
  {
    assert forall k :: 0 <= k < n ==> starts[..n][k] == starts[k];
  }

  /** The last start of the list adds its literal, if it closes. */
  lemma BalancedArraysLast(s: string, starts: seq<nat>)
    requires AllOpenBrackets(s, starts) && starts != []
    ensures AllOpenBrackets(s, starts[..|starts| - 1])
    ensures var start := starts[|starts| - 1];
            var c := ClosingBracket(s, start);
            BalancedArrays(s, starts)
            == BalancedArrays(s, starts[..|starts| - 1]) + (if c.Some? then [s[start..c.value + 1]] else [])
  {
    AllOpenBracketsPrefix(s, starts, |starts| - 1);
  }

  // ---------------------------------------------------------------------
  // Strategy B: `\[\s*(?:"[^"]{1,30}"\s*,\s*)+"[^"]{1,30}"\s*\]`

  /** End of a `"[^"]{1,30}"` item starting at `q`. */
  function ShortItemEnd(s: string, q: nat): (r: Option<nat>)
    ensures r.Some? ==> q + 3 <= r.value <= |s|
  {
    if q < |s| && s[q] == '"' then
      match IndexOfChar(s, '"', q + 1)
      case Some(c) => if 1 <= c - (q + 1) <= 30 then Some(c + 1) else None
      case None => None
    else None
  }

  /** End of the item list starting at `q`, closing `]` included, when it
      holds at least `2 - count` more items. */
  function ShortItemsEnd(s: string, q: nat, count: nat): (r: Option<nat>)
    requires q <= |s|
    decreases |s| - q
    ensures r.Some? ==> q < r.value <= |s| && s[r.value - 1] == ']'
  {
    match ShortItemEnd(s, q)
    case None => None
    case Some(e) =>
      var w := SkipSpaces(s, e);
      if w < |s| && s[w] == ',' then ShortItemsEnd(s, SkipSpaces(s, w + 1), count + 1)
      else if w < |s| && s[w] == ']' && count >= 1 then Some(w + 1)
      else None
  }

  /** End of a short string-array literal starting at `p`. */
  function ShortArrayEnd(s: string, p: nat): (r: Option<nat>)
    ensures r.Some? ==> p < r.value <= |s| && s[p] == '[' && s[r.value - 1] == ']'
  {
    if p < |s| && s[p] == '[' then ShortItemsEnd(s, SkipSpaces(s, p + 1), 0) else None
  }

  /** The matches of the short string-array pattern at or after `i`. */
  function ShortArrays(s: string, i: nat): (r: seq<string>)
    decreases |s| - i
    ensures forall k :: 0 <= k < |r| ==> Bracketed(r[k])
  {
    if i >= |s| then []
    else match ShortArrayEnd(s, i)
      case Some(e) =>
        var a := s[i..e];
        assert a[0] == s[i] && a[|a| - 1] == s[e - 1];
        [a] + ShortArrays(s, e)
      case None => ShortArrays(s, i + 1)
  }

  /** Text that opens with `[` and closes with `]`. */
  predicate Bracketed(a: string) {
    |a| >= 2 && a[0] == '[' && a[|a| - 1] == ']'
  }

  /** What `extract_arrays_from_text` returns: the balanced `return([...])`
      literals in order, then each short string-array literal not already
      listed. */
  function ArrayLiterals(s: string): seq<string> {
    AppendNew(BalancedArrays(s, ReturnArrayStarts(s, 0)), ShortArrays(s, 0))
  }

  /** `extract_arrays_from_text`. */
  method ExtractArraysFromText(js: string) returns (results: seq<string>)
    ensures results == ArrayLiterals(js)
  {
    var starts := ReturnArrayStarts(js, 0);
    results := CollectBalanced(js, starts);
    var shorts := ShortArrays(js, 0);
    results := AddShortArrays(results, shorts);
  }

  /** Strategy A's loop: the literal of every start whose bracket closes. */
  method CollectBalanced(js: string, starts: seq<nat>) returns (results: seq<string>)
    requires AllOpenBrackets(js, starts)
    ensures results == BalancedArrays(js, starts)
  {
    results := [];
    for n := 0 to |starts|
      invariant results == BalancedArrays(js, starts[..n])
    {
      var start := starts[n];
      AllOpenBracketsPrefix(js, starts, n + 1);
      BalancedArraysLast(js, starts[..n + 1]);
      assert starts[..n + 1][..n] == starts[..n] && starts[..n + 1][n] == start;
      var end := MatchingBracket(js, start);
      if end.Some? {
        results := results + [js[start..end.value + 1]];
      }
    }
    assert starts[..|starts|] == starts;
  }

  /** Strategy B's loop: each short literal not listed yet is appended. */
  method AddShortArrays(balanced: seq<string>, shorts: seq<string>) returns (results: seq<string>)
    ensures results == AppendNew(balanced, shorts)
  {
    results := balanced;
    for n := 0 to |shorts|
      invariant results == AppendNew(balanced, shorts[..n])
    {
      AppendNewSnoc(balanced, shorts, n);
      if shorts[n] !in results {
        results := results + [shorts[n]];
      }
    }
    assert shorts[..|shorts|] == shorts;
  }

  /** Every literal found opens with `[` and closes with `]`. */
  lemma ArrayLiteralsBracketed(s: string, k: nat)
    requires k < |ArrayLiterals(s)|
    ensures Bracketed(ArrayLiterals(s)[k])
  {
    var starts := ReturnArrayStarts(s, 0);
    var bal := BalancedArrays(s, starts);
    var r := ArrayLiterals(s);
    if k < |bal| {
      assert r[..|bal|] == bal;
      assert r[k] == bal[k];
      BalancedArraysBracketed(s, starts, k);
    } else {
      assert r[k] in r;
    }
  }

  lemma {:induction false} BalancedArraysBracketed(s: string, starts: seq<nat>, k: nat)
    requires AllOpenBrackets(s, starts) && k < |BalancedArrays(s, starts)|
    ensures Bracketed(BalancedArrays(s, starts)[k])
  {
    var init := BalancedArrays(s, starts[..|starts| - 1]);
    if k < |init| {
      BalancedArraysBracketed(s, starts[..|starts| - 1], k);
    } else {
      var start := starts[|starts| - 1];
      var e := ClosingBracket(s, start).value;
      ClosingBracketShape(s, start, e);
      var a := s[start..e + 1];
      assert a[0] == s[start] && a[|a| - 1] == s[e];
    }
  }

  // ---------------------------------------------------------------------
  // join_array_chars

  /** `re.findall(r'"([^"]*)"|\'([^\']*)\'', s)`, each match giving the text
      between its quotes. */
  function QuotedItems(s: string): seq<string>
    decreases |s|
  {
    if s == [] then []
    else if s[0] == '"' || s[0] == '\'' then
      match IndexOfChar(s, s[0], 1)
      case Some(j) => [s[1..j]] + QuotedItems(s[j + 1..])
      case None => QuotedItems(s[1..])
    else QuotedItems(s[1..])
  }

  /** The JavaScript escapes `\/` and `\\` undone, in that order. */
  function UnescapeSlashes(s: string): string {
    Replace(Replace(s, "\\/", "/"), "\\\\", "\\")
  }

  /** `join_array_chars`. */
  function JoinArrayChars(arrayText: string, env: Env): string {
    MergeUrls.CollapseProtocolSlashes(env.unescape(UnescapeSlashes(Concat(QuotedItems(arrayText)))))
  }

  /** The JavaScript text of a double-quoted string array. */
  function ArrayLiteralOf(items: seq<string>): string {
    "[" + ItemsText(items) + "]"
  }

  function ItemsText(items: seq<string>): string {
    if items == [] then []
    else if |items| == 1 then Quote(items[0])
    else Quote(items[0]) + "," + ItemsText(items[1..])
  }

  function Quote(x: string): string {
    "\"" + x + "\""
  }

  predicate NoDoubleQuote(x: string) {
    forall k :: 0 <= k < |x| ==> x[k] != '"'
  }

  lemma QuotedItemsQuote(x: string, rest: string)
    requires NoDoubleQuote(x)
    ensures QuotedItems(Quote(x) + rest) == [x] + QuotedItems(rest)
  {
    var t := Quote(x) + rest;
    assert t[0] == '"';
    assert forall k :: 1 <= k < |x| + 1 ==> t[k] == x[k - 1];
    assert t[|x| + 1] == '"';
    assert IndexOfChar(t, '"', 1) == Some(|x| + 1);
    assert t[1..|x| + 1] == x;
    assert t[|x| + 2..] == rest;
  }

  lemma QuotedItemsSkip(c: char, rest: string)
    requires c != '"' && c != '\''
    ensures QuotedItems([c] + rest) == QuotedItems(rest)
  {
    assert ([c] + rest)[1..] == rest;
  }

  lemma QuotedItemsClose()
    ensures QuotedItems("]") == []
  {
    assert "]"[1..] == [];
  }

  lemma QuotedItemsOne(x: string)
    requires NoDoubleQuote(x)
    ensures QuotedItems(Quote(x) + "]") == [x]
  {
    QuotedItemsQuote(x, "]");
    QuotedItemsClose();
  }

  lemma QuotedItemsComma(x: string, tail: string)
    requires NoDoubleQuote(x)
    ensures QuotedItems(Quote(x) + "," + tail) == [x] + QuotedItems(tail)
  {
    QuotedItemsSkip(',', tail);
    assert Quote(x) + "," + tail == Quote(x) + ([','] + tail);
    QuotedItemsQuote(x, [','] + tail);
  }

  lemma {:induction false} QuotedItemsOfItems(items: seq<string>)
    requires forall k :: 0 <= k < |items| ==> NoDoubleQuote(items[k])
    ensures QuotedItems(ItemsText(items) + "]") == items
  {
    if items == [] {
      assert ItemsText(items) + "]" == "]";
      QuotedItemsClose();
    } else if |items| == 1 {
      QuotedItemsOne(items[0]);
    } else {
      var rest := items[1..];
      assert forall k :: 0 <= k < |rest| ==> NoDoubleQuote(rest[k]) by {
        assert forall k :: 0 <= k < |rest| ==> rest[k] == items[k + 1];
      }
      QuotedItemsOfItems(rest);
      assert [items[0]] + rest == items;
      QuotedItemsCons(items[0], rest);
    }
  }

  /** One more item in front of a list that reads back. */
  lemma QuotedItemsCons(x: string, rest: seq<string>)
    requires NoDoubleQuote(x) && rest != []
    requires QuotedItems(ItemsText(rest) + "]") == rest
    ensures QuotedItems(ItemsText([x] + rest) + "]") == [x] + rest
  {
    var tail := ItemsText(rest) + "]";
    assert ItemsText([x] + rest) == Quote(x) + "," + ItemsText(rest) by {
      assert ([x] + rest)[0] == x && ([x] + rest)[1..] == rest;
    }
    assert ItemsText([x] + rest) + "]" == Quote(x) + "," + tail;
    QuotedItemsComma(x, tail);
  }

  /** Reading back a double-quoted string array gives its items, so
      `join_array_chars` of such a literal is its items joined, unescaped
      and normalised. */
  lemma JoinArrayCharsOfLiteral(items: seq<string>, env: Env)
    requires forall k :: 0 <= k < |items| ==> NoDoubleQuote(items[k])
    ensures QuotedItems(ArrayLiteralOf(items)) == items
    ensures JoinArrayChars(ArrayLiteralOf(items), env)
            == MergeUrls.CollapseProtocolSlashes(env.unescape(UnescapeSlashes(Concat(items))))
  {
    QuotedItemsOfItems(items);
    QuotedItemsSkip('[', ItemsText(items) + "]");
    assert ArrayLiteralOf(items) == ['['] + (ItemsText(items) + "]");
  }
}
