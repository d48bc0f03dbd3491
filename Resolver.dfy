/** `extract_direct_stream_url` and `convert_url` of merge.py: turning an
    embed page into a stream URL by a fixed priority chain of clues. The
    fetched page is a parameter (`None` when the request fails). */
module Resolver {
  import opened Wrappers
  import opened Strings
  import opened Externals
  import opened MergeUrls
  import opened MergeArrays
  import opened Lists

  // ---------------------------------------------------------------------
  // Scanners

  predicate IsQuote(c: char) {
    c == '\'' || c == '"'
  }

  /** First index at or after `j` holding a quote, or `|s|`. */
  function QuoteRunEnd(s: string, j: nat): (e: nat)
    requires j <= |s|
    decreases |s| - j
    ensures j <= e <= |s|
    ensures forall k :: j <= k < e ==> !IsQuote(s[k])
    ensures e < |s| ==> IsQuote(s[e])
  {
    if j == |s| || IsQuote(s[j]) then j else QuoteRunEnd(s, j + 1)
  }

  /** The match of `prefix\s*['"]([^'"]+)['"]\s*suffix` at `i`, if any:
      the group and the index after the match. */
  function QuotedArgAt(s: string, i: nat, prefix: string, suffix: string): (r: Option<(string, nat)>)
    ensures r.Some? ==> i < r.value.1 <= |s|
    ensures r.Some? ==> r.value.0 != [] && forall k :: 0 <= k < |r.value.0| ==> !IsQuote(r.value.0[k])
  {
    if i <= |s| && StartsWith(s[i..], prefix) then
      var a := SkipSpaces(s, i + |prefix|);
      if a < |s| && IsQuote(s[a]) then
        var b := QuoteRunEnd(s, a + 1);
        if a + 1 < b < |s| then
          var c := SkipSpaces(s, b + 1);
          if StartsWith(s[c..], suffix) then Some((s[a + 1..b], c + |suffix|)) else None
        else None
      else None
    else None
  }

  /** The groups of `re.finditer` with that pattern, from `i` on. */
  function QuotedArgs(s: string, i: nat, prefix: string, suffix: string): (r: seq<string>)
    decreases |s| - i
    ensures forall k :: 0 <= k < |r| ==> r[k] != []
  {
    if i >= |s| then []
    else match QuotedArgAt(s, i, prefix, suffix)
      case Some((arg, next)) => [arg] + QuotedArgs(s, next, prefix, suffix)
      case None => QuotedArgs(s, i + 1, prefix, suffix)
  }

  /** The positions where the quoted-argument pattern matches. */
  function ArgStarts(s: string, prefix: string, suffix: string): nat -> bool {
    (q: nat) => QuotedArgAt(s, q, prefix, suffix).Some?
  }

  /** `finditer` takes the leftmost match, then goes on after it; with no
      match left it stops. */
  lemma {:induction false} QuotedArgsLeftmost(s: string, i: nat, prefix: string, suffix: string)
    decreases |s| - i
    ensures Leftmost(ArgStarts(s, prefix, suffix), i, |s|).None? ==> QuotedArgs(s, i, prefix, suffix) == []
    ensures Leftmost(ArgStarts(s, prefix, suffix), i, |s|).Some? ==>
              var m := QuotedArgAt(s, Leftmost(ArgStarts(s, prefix, suffix), i, |s|).value, prefix, suffix).value;
              QuotedArgs(s, i, prefix, suffix) == [m.0] + QuotedArgs(s, m.1, prefix, suffix)
  {
    if i < |s| && QuotedArgAt(s, i, prefix, suffix).None? {
      QuotedArgsLeftmost(s, i + 1, prefix, suffix);
    }
  }

  /** The arguments of `atob('...')` calls in the page. */
  function AtobLiterals(text: string): seq<string> {
    QuotedArgs(text, 0, "atob(", ")")
  }

  /** The ids of `document.getElementById('...').innerHTML` reads. */
  function ElementIds(text: string): seq<string> {
    QuotedArgs(text, 0, "document.getElementById(", ").innerHTML")
  }

  /** `s[i..]` starts with `t`, ASCII letters compared without case. */
  predicate StartsWithCI(s: string, i: nat, t: string) {
    i + |t| <= |s| && Lower(s[i..i + |t|]) == Lower(t)
  }

  /** First `k >= i` where `t` starts, ignoring ASCII case. */
  function FindCI(s: string, t: string, i: nat): (r: Option<nat>)
    decreases |s| - i
    ensures r.Some? ==> i <= r.value && StartsWithCI(s, r.value, t)
  {
    if i >= |s| then None
    else if StartsWithCI(s, i, t) then Some(i)
    else FindCI(s, t, i + 1)
  }

  /** `id=` + quote + `name` + quote at `x`, without case: the index after. */
  function IdAttrEnd(s: string, x: nat, name: string): (r: Option<nat>)
    ensures r.Some? ==> x < r.value <= |s|
  {
    if StartsWithCI(s, x, "id=") && x + 3 < |s| && IsQuote(s[x + 3])
       && StartsWithCI(s, x + 4, name) && x + 4 + |name| < |s| && IsQuote(s[x + 4 + |name|])
    then Some(x + 5 + |name|)
    else None
  }

  /** The span body when `[^>]+` of a `<span` at `p` stops at `x`, trying
      `x`, `x - 1`, ... down to `p + 6` as the regex backtracks. */
  function SpanBodyFrom(s: string, p: nat, name: string, x: nat): (r: Option<string>)
    decreases x
  {
    if x < p + 6 then None
    else
      var body :=
        match IdAttrEnd(s, x, name)
        case None => None
        case Some(y) =>
          match IndexOfChar(s, '>', y)
          case None => None
          case Some(z) =>
            match FindCI(s, "</span>", z + 1)
            case None => None
            case Some(w) => Some(s[z + 1..w]);
      if body.Some? then body else SpanBodyFrom(s, p, name, x - 1)
  }

  /** The span body the pattern below captures when its match starts at
      `p`, if it does. */
  function SpanAt(s: string, name: string, p: nat): Option<string> {
    if StartsWithCI(s, p, "<span") then
      var g := match IndexOfChar(s, '>', p + 5) case Some(g) => g case None => |s|;
      SpanBodyFrom(s, p, name, g)
    else None
  }

  /** The group of `re.search(<span[^>]+id=['"]name['"][^>]*>(.*?)</span>)`
      under `re.S | re.I`, starting the search at `p`. */
  function SpanSearch(s: string, name: string, p: nat): (r: Option<string>)
    decreases |s| - p
  {
    if p >= |s| then None
    else if SpanAt(s, name, p).Some? then SpanAt(s, name, p)
    else SpanSearch(s, name, p + 1)
  }

  function SpanStarts(s: string, name: string): nat -> bool {
    (q: nat) => SpanAt(s, name, q).Some?
  }

  /** The search returns the body of the leftmost matching span; None when
      no span matches. */
  lemma {:induction false} SpanSearchLeftmost(s: string, name: string, p: nat)
    decreases |s| - p
    ensures Leftmost(SpanStarts(s, name), p, |s|).None? ==> SpanSearch(s, name, p) == None
    ensures Leftmost(SpanStarts(s, name), p, |s|).Some? ==>
              SpanSearch(s, name, p) == SpanAt(s, name, Leftmost(SpanStarts(s, name), p, |s|).value)
  {
    if p < |s| && SpanAt(s, name, p).None? {
      SpanSearchLeftmost(s, name, p + 1);
    }
  }

  // ---------------------------------------------------------------------
  // Candidate URLs of the three clue kinds

  /** Step 1 for one array literal: its joined text when it looks like a
      URL or an absolute path, paths resolved against `base`. */
  function ArrayUrl(arr: string, base: string, env: Env): Option<string> {
    var joined := JoinArrayChars(arr, env);
    var url := if StartsWith(joined, "//") then "https:" + joined else joined;
    if StartsWith(url, "http://") || StartsWith(url, "https://") || StartsWith(url, "/") then
      Some(if StartsWith(url, "/") then env.urljoin(base, url) else url)
    else None
  }

  /** Step 2 for one `atob` literal; nothing when decoding fails or gives
      only whitespace. */
  function AtobUrl(literal: string, base: string, env: Env): Option<string> {
    match env.b64decode(literal)
    case None => None
    case Some(raw) =>
      var decoded := Strip(raw);
      if decoded == [] then None
      else
        var d1 := if StartsWith(decoded, "/") then env.urljoin(base, decoded) else decoded;
        var d2 := if StartsWith(d1, "//") then "https:" + d1 else d1;
        if StartsWith(d2, "http") then Some(d2) else Some(env.urljoin(base, d2))
  }

  /** Step 3 for one element id: the stripped body of its span. The test
      for `/` comes before the test for `//`, so a protocol-relative body
      is resolved against `base` like a path. */
  function SpanUrl(text: string, id: string, base: string, env: Env): Option<string> {
    match SpanSearch(text, id, 0)
    case None => None
    case Some(body) =>
      var content := Strip(body);
      if content == [] then None
      else if StartsWith(content, "/") then Some(env.urljoin(base, content))
      else if StartsWith(content, "//") then Some("https:" + content)
      else Some(content)
  }

  lemma SpanProtocolRelativeJoined(text: string, id: string, base: string, env: Env)
    requires SpanSearch(text, id, 0).Some?
    requires StartsWith(Strip(SpanSearch(text, id, 0).value), "//")
    ensures SpanUrl(text, id, base, env) == Some(env.urljoin(base, Strip(SpanSearch(text, id, 0).value)))
  {
    var content := Strip(SpanSearch(text, id, 0).value);
    assert content[..1] == "/";
  }

  function ArrayUrlOf(base: string, env: Env): string -> Option<string> {
    (arr: string) => ArrayUrl(arr, base, env)
  }

  function AtobUrlOf(base: string, env: Env): string -> Option<string> {
    (literal: string) => AtobUrl(literal, base, env)
  }

  function SpanUrlOf(text: string, base: string, env: Env): string -> Option<string> {
    (id: string) => SpanUrl(text, id, base, env)
  }

  /** The URLs the array loop appends to `found_urls`. */
  function ArrayCandidates(arrays: seq<string>, base: string, env: Env): seq<string> {
    Somes(ArrayUrlOf(base, env), arrays)
  }

  /** The URLs the `atob` loop appends to `found_urls`. */
  function AtobCandidates(literals: seq<string>, base: string, env: Env): seq<string> {
    Somes(AtobUrlOf(base, env), literals)
  }

  /** The URLs the span loop appends to `found_urls`. */
  function SpanCandidates(ids: seq<string>, text: string, base: string, env: Env): seq<string> {
    Somes(SpanUrlOf(text, base, env), ids)
  }

  /** `found_urls` after steps 1 to 3, when no step returned early. */
  function Candidates(text: string, base: string, env: Env): seq<string> {
    ArrayCandidates(ArrayLiterals(text), base, env)
    + AtobCandidates(AtobLiterals(text), base, env)
    + SpanCandidates(ElementIds(text), text, base, env)
  }

  // ---------------------------------------------------------------------
  // First-match selection

  /** The first element of `xs` containing `t`. */
  function FirstContaining(xs: seq<string>, t: string): (r: Option<string>)
    ensures r.Some? ==> r.value in xs && Contains(r.value, t)
    ensures r.None? <==> forall k :: 0 <= k < |xs| ==> !Contains(xs[k], t)
  {
    if xs == [] then None
    else
      var f := FirstContaining(xs[..|xs| - 1], t);
      if f.Some? then f
      else if Contains(xs[|xs| - 1], t) then Some(xs[|xs| - 1])
      else None
  }

  /** Looking through `a + b` finds the hit of `a` when there is one, else
      the hit of `b`: the search goes in order. */
  lemma {:induction false} FirstContainingAppend(a: seq<string>, b: seq<string>, t: string)
    ensures FirstContaining(a + b, t)
            == if FirstContaining(a, t).Some? then FirstContaining(a, t) else FirstContaining(b, t)
    decreases |b|
  {
    if b == [] {
      assert a + b == a;
    } else {
      var b' := b[..|b| - 1];
      FirstContainingAppend(a, b', t);
      assert (a + b)[..|a + b| - 1] == a + b';
    }
  }

  /** Appending a miss to a list without a hit leaves no hit. */
  lemma FirstContainingMiss(pre: seq<string>, u: string, t: string)
    requires FirstContaining(pre, t).None? && !Contains(u, t)
    ensures FirstContaining(pre + [u], t).None?
  {
    assert (pre + [u])[..|pre|] == pre;
  }

  /** After a list without a hit, a hit is found whatever follows it. */
  lemma FirstContainingHit(pre: seq<string>, u: string, rest: seq<string>, t: string)
    requires FirstContaining(pre, t).None? && Contains(u, t)
    ensures FirstContaining(pre + [u] + rest, t) == Some(u)
  {
    assert (pre + [u])[..|pre|] == pre;
    FirstContainingAppend(pre + [u], rest, t);
  }

  /** The element at `n` is the first hit when none before it is one. */
  lemma {:induction false} FirstContainingAt(xs: seq<string>, n: nat, t: string)
    requires n < |xs| && Contains(xs[n], t)
    requires forall k :: 0 <= k < n ==> !Contains(xs[k], t)
    ensures FirstContaining(xs, t) == Some(xs[n])
    decreases |xs|
  {
    var init := xs[..|xs| - 1];
    if n == |xs| - 1 {
      assert forall k :: 0 <= k < |init| ==> init[k] == xs[k];
      assert FirstContaining(init, t).None?;
    } else {
      assert forall k :: 0 <= k <= n ==> init[k] == xs[k];
      FirstContainingAt(init, n, t);
    }
  }

  predicate HlsLike(u: string) {
    Contains(u, "/hls/") || Contains(u, "m3u8")
  }

  /** The first element of `xs` mentioning `/hls/` or `m3u8`. */
  function FirstHlsLike(xs: seq<string>): (r: Option<string>)
    ensures r.Some? ==> r.value in xs && HlsLike(r.value)
    ensures r.None? <==> forall k :: 0 <= k < |xs| ==> !HlsLike(xs[k])
  {
    if xs == [] then None
    else
      var f := FirstHlsLike(xs[..|xs| - 1]);
      if f.Some? then f
      else if HlsLike(xs[|xs| - 1]) then Some(xs[|xs| - 1])
      else None
  }

  // ---------------------------------------------------------------------
  // The priority chain

  /** Step 5: the first candidate mentioning `/hls/` or `m3u8`, else the
      first candidate. */
  function FoundPick(found: seq<string>): (r: string)
    requires found != []
    ensures r in found
  {
    match FirstHlsLike(found)
    case Some(u) => u
    case None => found[0]
  }

  /** Step 6: the first page URL holding `.m3u8`, else the first holding
      `/hls/`, else the first. */
  function AnyPick(any: seq<string>): (r: string)
    requires any != []
    ensures r in any
  {
    match FirstContaining(any, ".m3u8")
    case Some(u) => u
    case None =>
      match FirstContaining(any, "/hls/")
      case Some(u) => u
      case None => any[0]
  }

  /** Steps 4 to 6 once no candidate held `.m3u8`. */
  function FallbackUrl(text: string, found: seq<string>, embedUrl: string): string {
    match FirstM3u8Url(text)
    case Some(u) => u
    case None =>
      if found != [] then FoundPick(found)
      else if FindUrlsInText(text) != [] then AnyPick(FindUrlsInText(text))
      else embedUrl
  }

  /** What `extract_direct_stream_url(embed_url)` returns for the page text
      `text`, with `base` the scheme and host of `embed_url`: the first
      array, `atob` or span candidate holding `.m3u8`, in that order, else
      the fallbacks over all the candidates. */
  function PageStreamUrl(text: string, base: string, embedUrl: string, env: Env): string {
    var a := ArrayCandidates(ArrayLiterals(text), base, env);
    var b := AtobCandidates(AtobLiterals(text), base, env);
    var c := SpanCandidates(ElementIds(text), text, base, env);
    match FirstContaining(a, ".m3u8")
    case Some(u) => u
    case None =>
      match FirstContaining(b, ".m3u8")
      case Some(u) => u
      case None =>
        match FirstContaining(c, ".m3u8")
        case Some(u) => u
        case None => FallbackUrl(text, a + b + c, embedUrl)
  }

  /** What `extract_direct_stream_url(embed_url)` returns when the fetch
      gives `page`. */
  function StreamUrl(embedUrl: string, page: Option<string>, env: Env): string {
    match page
    case None => embedUrl
    case Some(text) => PageStreamUrl(text, env.origin(embedUrl), embedUrl, env)
  }

  /** A clue loop stops at the first clue whose URL holds `t`: that URL
      is the first one holding `t` among everything the loop would have
      collected. */
  lemma ClueHit(f: string -> Option<string>, xs: seq<string>, n: nat, t: string)
    requires n < |xs| && FirstContaining(Somes(f, xs[..n]), t).None?
    requires f(xs[n]).Some? && Contains(f(xs[n]).value, t)
    ensures FirstContaining(Somes(f, xs), t) == f(xs[n])
  {
    SomesSnoc(f, xs, n);
    SomesAppend(f, xs[..n + 1], xs[n + 1..]);
    assert xs[..n + 1] + xs[n + 1..] == xs;
    FirstContainingHit(Somes(f, xs[..n]), f(xs[n]).value, Somes(f, xs[n + 1..]), t);
  }

  /** Step 1: the array loop, stopping at the first URL holding `.m3u8`. */
  method ArrayStep(text: string, base: string, env: Env) returns (found: seq<string>, hit: Option<string>)
    ensures hit == FirstContaining(ArrayCandidates(ArrayLiterals(text), base, env), ".m3u8")
    ensures hit.None? ==> found == ArrayCandidates(ArrayLiterals(text), base, env)
  {
    found := [];
    var arrays := ExtractArraysFromText(text);
    for n := 0 to |arrays|
      invariant found == ArrayCandidates(arrays[..n], base, env)
      invariant FirstContaining(found, ".m3u8").None?
    {
      var u := ArrayUrl(arrays[n], base, env);
      assert ArrayUrlOf(base, env)(arrays[n]) == u;
      SomesSnoc(ArrayUrlOf(base, env), arrays, n);
      if u.Some? {
        if Contains(u.value, ".m3u8") {
          ClueHit(ArrayUrlOf(base, env), arrays, n, ".m3u8");
          return found + [u.value], u;
        }
        FirstContainingMiss(found, u.value, ".m3u8");
        found := found + [u.value];
      }
    }
    assert arrays[..|arrays|] == arrays;
    return found, None;
  }

  /** Step 2: the `atob` loop. */
  method AtobStep(text: string, base: string, env: Env) returns (found: seq<string>, hit: Option<string>)
    ensures hit == FirstContaining(AtobCandidates(AtobLiterals(text), base, env), ".m3u8")
    ensures hit.None? ==> found == AtobCandidates(AtobLiterals(text), base, env)
  {
    found := [];
    var literals := AtobLiterals(text);
    for n := 0 to |literals|
      invariant found == AtobCandidates(literals[..n], base, env)
      invariant FirstContaining(found, ".m3u8").None?
    {
      var u := AtobUrl(literals[n], base, env);
      assert AtobUrlOf(base, env)(literals[n]) == u;
      SomesSnoc(AtobUrlOf(base, env), literals, n);
      if u.Some? {
        if Contains(u.value, ".m3u8") {
          ClueHit(AtobUrlOf(base, env), literals, n, ".m3u8");
          return found + [u.value], u;
        }
        FirstContainingMiss(found, u.value, ".m3u8");
        found := found + [u.value];
      }
    }
    assert literals[..|literals|] == literals;
    return found, None;
  }

  /** Step 3: the span loop. */
  method SpanStep(text: string, base: string, env: Env) returns (found: seq<string>, hit: Option<string>)
    ensures hit == FirstContaining(SpanCandidates(ElementIds(text), text, base, env), ".m3u8")
    ensures hit.None? ==> found == SpanCandidates(ElementIds(text), text, base, env)
  {
    found := [];
    var ids := ElementIds(text);
    for n := 0 to |ids|
      invariant found == SpanCandidates(ids[..n], text, base, env)
      invariant FirstContaining(found, ".m3u8").None?
    {
      var u := SpanUrl(text, ids[n], base, env);
      assert SpanUrlOf(text, base, env)(ids[n]) == u;
      SomesSnoc(SpanUrlOf(text, base, env), ids, n);
      if u.Some? {
        if Contains(u.value, ".m3u8") {
          ClueHit(SpanUrlOf(text, base, env), ids, n, ".m3u8");
          return found + [u.value], u;
        }
        FirstContainingMiss(found, u.value, ".m3u8");
        found := found + [u.value];
      }
    }
    assert ids[..|ids|] == ids;
    return found, None;
  }

  /** Step 5's loop. */
  method PickFound(found: seq<string>) returns (url: string)
    requires found != []
    ensures url == FoundPick(found)
  {
    for n := 0 to |found|
      invariant forall k :: 0 <= k < n ==> !HlsLike(found[k])
    {
      if HlsLike(found[n]) {
        FirstHlsLikeAt(found, n);
        return found[n];
      }
    }
    return found[0];
  }

  /** The first element of `xs` containing `t`, by a loop. */
  method FindContaining(xs: seq<string>, t: string) returns (hit: Option<string>)
    ensures hit == FirstContaining(xs, t)
  {
    for n := 0 to |xs|
      invariant forall k :: 0 <= k < n ==> !Contains(xs[k], t)
    {
      if Contains(xs[n], t) {
        FirstContainingAt(xs, n, t);
        return Some(xs[n]);
      }
    }
    return None;
  }

  /** Step 6's two loops. */
  method PickAny(any: seq<string>) returns (url: string)
    requires any != []
    ensures url == AnyPick(any)
  {
    var manifest := FindContaining(any, ".m3u8");
    if manifest.Some? {
      return manifest.value;
    }
    var hls := FindContaining(any, "/hls/");
    if hls.Some? {
      return hls.value;
    }
    return any[0];
  }

  /** Steps 4 to 6. */
  method Fallback(text: string, found: seq<string>, embedUrl: string) returns (url: string)
    ensures url == FallbackUrl(text, found, embedUrl)
  {
    var manifest := FirstM3u8Url(text);
    if manifest.Some? {
      return manifest.value;
    }
    if found != [] {
      url := PickFound(found);
      return;
    }
    var any := FindUrlsInText(text);
    if any != [] {
      url := PickAny(any);
      return;
    }
    return embedUrl;
  }

  /** `extract_direct_stream_url`, after the fetch. */
  method ExtractDirectStreamUrl(embedUrl: string, page: Option<string>, env: Env) returns (url: string)
    ensures url == StreamUrl(embedUrl, page, env)
  {
    if page.None? {
      return embedUrl;
    }
    var text := page.value;
    var base := env.origin(embedUrl);
    var fromArrays, arrayHit := ArrayStep(text, base, env);
    if arrayHit.Some? {
      return arrayHit.value;
    }
    var fromAtob, atobHit := AtobStep(text, base, env);
    if atobHit.Some? {
      return atobHit.value;
    }
    var fromSpans, spanHit := SpanStep(text, base, env);
    if spanHit.Some? {
      return spanHit.value;
    }
    url := Fallback(text, fromArrays + fromAtob + fromSpans, embedUrl);
  }

  /** The element at `n` is the first `/hls/` or `m3u8` one when none
      before it is. */
  lemma {:induction false} FirstHlsLikeAt(xs: seq<string>, n: nat)
    requires n < |xs| && HlsLike(xs[n])
    requires forall k :: 0 <= k < n ==> !HlsLike(xs[k])
    ensures FirstHlsLike(xs) == Some(xs[n])
    decreases |xs|
  {
    var init := xs[..|xs| - 1];
    if n == |xs| - 1 {
      assert forall k :: 0 <= k < |init| ==> init[k] == xs[k];
      assert FirstHlsLike(init).None?;
    } else {
      assert forall k :: 0 <= k <= n ==> init[k] == xs[k];
      FirstHlsLikeAt(init, n);
    }
  }

  // ---------------------------------------------------------------------
  // Properties of the chain

  /** The result is the first URL holding `.m3u8` over all the candidates
      in order (arrays, then `atob` literals, then spans), so an
      array-decoded manifest is returned ahead of anything else. */
  lemma FirstManifestCandidateWins(text: string, base: string, embedUrl: string, env: Env)
    requires FirstContaining(Candidates(text, base, env), ".m3u8").Some?
    ensures PageStreamUrl(text, base, embedUrl, env) == FirstContaining(Candidates(text, base, env), ".m3u8").value
  {
    var a := ArrayCandidates(ArrayLiterals(text), base, env);
    var b := AtobCandidates(AtobLiterals(text), base, env);
    var c := SpanCandidates(ElementIds(text), text, base, env);
    assert Candidates(text, base, env) == (a + b) + c;
    FirstContainingAppend(a + b, c, ".m3u8");
    FirstContainingAppend(a, b, ".m3u8");
  }

  /** When a clue or the page itself offers a URL holding `.m3u8`, the
      result holds `.m3u8`. */
  lemma ManifestPreferred(text: string, base: string, embedUrl: string, env: Env)
    requires || FirstContaining(Candidates(text, base, env), ".m3u8").Some?
             || exists q :: 0 <= q < |text| && M3u8At(text, q)
    ensures Contains(PageStreamUrl(text, base, embedUrl, env), ".m3u8")
  {
    assert FirstContaining(Candidates(text, base, env), ".m3u8").Some? || FirstM3u8Url(text).Some?;
    var a := ArrayCandidates(ArrayLiterals(text), base, env);
    var b := AtobCandidates(AtobLiterals(text), base, env);
    var c := SpanCandidates(ElementIds(text), text, base, env);
    assert Candidates(text, base, env) == a + b + c;
    if FirstContaining(Candidates(text, base, env), ".m3u8").Some? {
      FirstManifestCandidateWins(text, base, embedUrl, env);
    }
  }

  /** The result is the embed URL itself, one of the clue candidates, or a
      URL lying in the page. */
  lemma ResultProvenance(text: string, base: string, embedUrl: string, env: Env)
    ensures var r := PageStreamUrl(text, base, embedUrl, env);
            || r == embedUrl
            || r in Candidates(text, base, env)
            || (ScannedUrl(r) && IsInfix(r, text))
  {
    var found := Candidates(text, base, env);
    if FirstContaining(found, ".m3u8").None? && FirstM3u8Url(text).None? && found == [] {
      var any := FindUrlsInText(text);
      if any != [] {
        var r := PageStreamUrl(text, base, embedUrl, env);
        assert r in any;
        var k :| 0 <= k < |any| && any[k] == r;
        assert IsInfix(any[k], text);
      }
    }
  }

  lemma {:induction false} ManifestUrlIsUrl(s: string, i: nat)
    requires FirstM3u8UrlFrom(s, i).Some?
    ensures FindUrlsFrom(s, i) != []
    decreases |s| - i
  {
    if i < |s| && UrlAt(s, i).None? {
      ManifestUrlIsUrl(s, i + 1);
    }
  }

  /** With no clue candidate and no URL anywhere in the page, the result is
      the embed URL. */
  lemma NothingFoundGivesEmbedUrl(text: string, base: string, embedUrl: string, env: Env)
    requires Candidates(text, base, env) == []
    requires forall q :: 0 <= q < |text| ==> UrlAt(text, q).None?
    ensures PageStreamUrl(text, base, embedUrl, env) == embedUrl
  {
    assert FindUrlsInText(text) == [];
    if FirstM3u8Url(text).Some? {
      ManifestUrlIsUrl(text, 0);
    }
  }

  // ---------------------------------------------------------------------
  // convert_url

  const EmbedPrefix := "https://vividmosaica.com/embed3.php?player=desktop&live=do"

  /** First index at or after `j` that is not an ASCII digit, or `|s|`. */
  function DigitRunEnd(s: string, j: nat): (e: nat)
    requires j <= |s|
    decreases |s| - j
    ensures j <= e <= |s|
    ensures forall k :: j <= k < e ==> IsAsciiDigit(s[k])
    ensures e < |s| ==> !IsAsciiDigit(s[e])
  {
    if j == |s| || !IsAsciiDigit(s[j]) then j else DigitRunEnd(s, j + 1)
  }

  predicate AllDigits(d: string) {
    forall k :: 0 <= k < |d| ==> IsAsciiDigit(d[k])
  }

  /** `id=(\d+)` matches at `q`. */
  predicate IdAt(s: string, q: nat) {
    q + 3 < |s| && s[q..q + 3] == "id=" && IsAsciiDigit(s[q + 3])
  }

  function IdStarts(s: string): nat -> bool {
    (q: nat) => IdAt(s, q)
  }

  /** `d` is the whole digit run after the `id=` at `q`. */
  predicate IdRunAt(u: string, q: nat, d: string) {
    && IdAt(u, q) && q + 3 + |d| <= |u| && d == u[q + 3..q + 3 + |d|]
    && (q + 3 + |d| == |u| || !IsAsciiDigit(u[q + 3 + |d|]))
  }

  /** The group of the first match of `id=(\d+)` at or after `i`: the
      whole digit run after the leftmost `id=` followed by a digit. */
  function FirstIdDigits(s: string, i: nat): (r: Option<string>)
    ensures r.Some? ==> r.value != [] && AllDigits(r.value) && Contains(s, "id=" + r.value)
    ensures r.None? <==> forall q :: i <= q < |s| ==> !IdAt(s, q)
    ensures r.Some? ==>
              && Leftmost(IdStarts(s), i, |s|).Some?
              && IdRunAt(s, Leftmost(IdStarts(s), i, |s|).value, r.value)
  {
    assert forall q: nat :: IdStarts(s)(q) == IdAt(s, q);
    match Leftmost(IdStarts(s), i, |s|)
    case None => None
    case Some(q) =>
      assert IdAt(s, q);
      var e := DigitRunEnd(s, q + 3);
      var d := s[q + 3..e];
      assert |d| == e - (q + 3);
      assert IdRunAt(s, q, d);
      assert s[q..e] == "id=" + s[q + 3..e];
      assert OccursAt(s, "id=" + s[q + 3..e], q);
      ContainsAt(s, "id=" + s[q + 3..e], q);
      Some(s[q + 3..e])
  }

  /** The embed page a stripped link without `.m3u8` is resolved through. */
  function EmbedTarget(u: string): string {
    match FirstIdDigits(u, 0)
    case Some(digits) => EmbedPrefix + digits
    case None => u
  }

  /** `convert_url`. */
  function ConvertUrl(url: string, env: Env): string {
    var u := Strip(url);
    if Contains(u, ".m3u8") then u
    else StreamUrl(EmbedTarget(u), env.fetch(EmbedTarget(u)), env)
  }

  /** `convert_url` as a value, for the channel filter. */
  function Converter(env: Env): string -> string {
    url => ConvertUrl(url, env)
  }

  /** A link holding `.m3u8` comes back stripped, so converting a converted
      manifest link changes nothing. */
  lemma ConvertUrlManifest(url: string, env: Env)
    requires Contains(Strip(url), ".m3u8")
    ensures ConvertUrl(url, env) == Strip(url)
    ensures ConvertUrl(ConvertUrl(url, env), env) == ConvertUrl(url, env)
  {
    ConvertUrlKeepsManifest(url, env);
    var u := Strip(url);
    StripIdempotent(url);
    ConvertUrlKeepsManifest(u, env);
  }

  lemma ConvertUrlKeepsManifest(url: string, env: Env)
    requires Contains(Strip(url), ".m3u8")
    ensures ConvertUrl(url, env) == Strip(url)
  {
  }

  /** When some `id=` is followed by a digit, the search finds the whole
      digit run after the leftmost one. */
  lemma FirstIdDigitsLeftmost(u: string)
    requires exists q :: 0 <= q < |u| && IdAt(u, q)
    ensures FirstIdDigits(u, 0).Some? && Leftmost(IdStarts(u), 0, |u|).Some?
    ensures var q := Leftmost(IdStarts(u), 0, |u|).value;
            && IdRunAt(u, q, FirstIdDigits(u, 0).value)
            && forall p :: 0 <= p < q ==> !IdAt(u, p)
  {
    var w :| 0 <= w < |u| && IdAt(u, w);
    assert FirstIdDigits(u, 0).Some?;
    var q := Leftmost(IdStarts(u), 0, |u|).value;
    forall p | 0 <= p < q
      ensures !IdAt(u, p)
    {
      assert !IdStarts(u)(p);
    }
  }

  /** Any other link with an `id=<digits>` is resolved through the embed
      page of the whole digit run after the leftmost such `id=`. */
  lemma ConvertUrlEmbed(url: string, env: Env)
    requires !Contains(Strip(url), ".m3u8")
    requires exists q :: 0 <= q < |Strip(url)| && IdAt(Strip(url), q)
    ensures var u := Strip(url);
            && FirstIdDigits(u, 0).Some?
            && var digits := FirstIdDigits(u, 0).value;
               && digits != [] && AllDigits(digits)
               && Leftmost(IdStarts(u), 0, |u|).Some?
               && (var q := Leftmost(IdStarts(u), 0, |u|).value;
                   && IdRunAt(u, q, digits)
                   && (forall p :: 0 <= p < q ==> !IdAt(u, p)))
               && ConvertUrl(url, env) == StreamUrl(EmbedPrefix + digits, env.fetch(EmbedPrefix + digits), env)
  {
    FirstIdDigitsLeftmost(Strip(url));
  }
}
