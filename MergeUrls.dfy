/** URL helpers of merge.py: protocol-slash normalisation, the two URL
    scans over page text and the playlist file name. */
module MergeUrls {
  import opened Wrappers
  import opened Strings
  import opened Lists

  /** `s` without its leading slashes. */
  function DropSlashes(s: string): (r: string)
    ensures |r| <= |s| && r == s[|s| - |r|..]
    ensures r == [] || r[0] != '/'
  {
    if s != [] && s[0] == '/' then DropSlashes(s[1..]) else s
  }

  /** Length of the `https?:` scheme at the start of `s`, 0 when there is none. */
  function ProtocolLen(s: string): (n: nat)
    ensures n <= |s|
  {
    if StartsWith(s, "https:") then 6 else if StartsWith(s, "http:") then 5 else 0
  }

  /** `collapse_protocol_slashes`: `re.sub` of the pattern `^(https?:)` plus
      any run of slashes by the scheme and exactly two slashes. */
  function CollapseProtocolSlashes(s: string): string {
    var n := ProtocolLen(s);
    if n == 0 then s else s[..n] + "//" + DropSlashes(s[n..])
  }

  /** A string starting `http:` or `https:` comes out with the same scheme,
      then exactly two slashes, then the rest of `s` after its slashes. */
  lemma CollapseTwoSlashes(s: string)
    requires StartsWith(s, "http:") || StartsWith(s, "https:")
    ensures var r := CollapseProtocolSlashes(s);
            var n := ProtocolLen(s);
            && n > 0
            && |r| >= n + 2 && r[..n] == s[..n] && r[n..n + 2] == "//"
            && (|r| == n + 2 || r[n + 2] != '/')
            && r[n + 2..] == DropSlashes(s[n..])
  {
  }

  /** Every other string is returned unchanged. */
  lemma CollapseOtherUnchanged(s: string)
    requires !StartsWith(s, "http:") && !StartsWith(s, "https:")
    ensures CollapseProtocolSlashes(s) == s
  {
  }

  /** `https:host` becomes `https://host`. */
  lemma CollapseAddsMissingSlashes()
    ensures CollapseProtocolSlashes("https:host") == "https://host"
  {
    var s := "https:host";
    assert s[..6] == "https:";
    assert ProtocolLen(s) == 6;
    assert s[6..] == "host";
    assert DropSlashes("host") == "host";
  }

  lemma ProtocolKept(s: string, t: string)
    requires ProtocolLen(s) > 0 && |t| >= 1 && t[0] == '/'
    ensures ProtocolLen(s[..ProtocolLen(s)] + t) == ProtocolLen(s)
  {
    var n := ProtocolLen(s);
    var r := s[..n] + t;
    assert r[..n] == s[..n];
    if n == 5 {
      assert r[4] == ':';
    } else {
      assert r[..6] == s[..6];
    }
  }

  lemma DropTwoSlashes(d: string)
    requires d == [] || d[0] != '/'
    ensures DropSlashes("//" + d) == d
  {
    assert DropSlashes(d) == d;
    assert ("/" + d)[1..] == d;
    assert DropSlashes("/" + d) == d;
    assert ("//" + d)[1..] == "/" + d;
  }

  /** Normalising twice is normalising once. */
  lemma CollapseIdempotent(s: string)
    ensures CollapseProtocolSlashes(CollapseProtocolSlashes(s)) == CollapseProtocolSlashes(s)
  {
    var n := ProtocolLen(s);
    if n > 0 {
      var d := DropSlashes(s[n..]);
      var r := s[..n] + "//" + d;
      ProtocolKept(s, "//" + d);
      assert r == s[..n] + ("//" + d);
      assert r[..n] == s[..n];
      assert r[n..] == "//" + d;
      DropTwoSlashes(d);
    }
  }

  /** The characters that end a URL in the page scans: `[^\s"'>]`. */
  predicate UrlStop(c: char) {
    IsSpace(c) || c == '"' || c == '\'' || c == '>'
  }

  /** Length of an `https?://` match at `i`, 0 when there is none. */
  function SchemeLen(s: string, i: nat): (n: nat)
    ensures n == 0 || n == 7 || n == 8
    ensures n == 8 ==> i + 8 <= |s| && s[i..i + 8] == "https://"
    ensures n == 7 ==> i + 7 <= |s| && s[i..i + 7] == "http://"
  {
    if i <= |s| && StartsWith(s[i..], "https://") then 8
    else if i <= |s| && StartsWith(s[i..], "http://") then 7
    else 0
  }

  /** First index at or after `j` holding a URL-ending character, or `|s|`. */
  function RunEnd(s: string, j: nat): (e: nat)
    requires j <= |s|
    decreases |s| - j
    ensures j <= e <= |s|
    ensures forall k :: j <= k < e ==> !UrlStop(s[k])
    ensures e < |s| ==> UrlStop(s[e])
  {
    if j == |s| || UrlStop(s[j]) then j else RunEnd(s, j + 1)
  }

  predicate NoUrlStop(u: string) {
    forall k :: 0 <= k < |u| ==> !UrlStop(u[k])
  }

  /** The shape of every URL the page scans return. */
  predicate ScannedUrl(u: string) {
    && (StartsWith(u, "http://") || StartsWith(u, "https://"))
    && |u| > (if StartsWith(u, "https://") then 8 else 7)
    && NoUrlStop(u)
  }

  ghost predicate IsInfix(u: string, s: string) {
    exists j :: OccursAt(s, u, j)
  }

  /** The URL match of `https?://[^\s"'>]+` that starts at `i`, if any. */
  function UrlAt(s: string, i: nat): (r: Option<nat>)
    ensures r.Some? ==> i < r.value <= |s| && ScannedUrl(s[i..r.value])
  {
    var p := SchemeLen(s, i);
    if p > 0 && i + p < |s| && !UrlStop(s[i + p]) then
      var e := RunEnd(s, i + p);
      ScannedSlice(s, i, e);
      Some(e)
    else None
  }

  /** A scheme followed by a non-empty run without URL-ending characters
      has the shape of a scanned URL. */
  lemma ScannedSlice(s: string, i: nat, e: nat)
    requires SchemeLen(s, i) > 0 && i + SchemeLen(s, i) < e <= |s|
    requires forall k :: i + SchemeLen(s, i) <= k < e ==> !UrlStop(s[k])
    ensures ScannedUrl(s[i..e])
  {
    var p := SchemeLen(s, i);
    var u := s[i..e];
    assert u[..p] == s[i..i + p];
    if p == 7 {
      assert u[..8][4] == u[4] == ':';
    }
    forall k | 0 <= k < |u|
      ensures !UrlStop(u[k])
    {
      if k < p {
        assert u[k] == u[..p][k];
      } else {
        assert u[k] == s[i + k];
      }
    }
  }

  /** `re.findall(r'https?://[^\s"\'>]+', s[i..])`, matches taken left to
      right without overlap. */
  function FindUrlsFrom(s: string, i: nat): (r: seq<string>)
    decreases |s| - i
    ensures forall k :: 0 <= k < |r| ==> ScannedUrl(r[k])
    ensures forall k :: 0 <= k < |r| ==> IsInfix(r[k], s)
  {
    if i >= |s| then []
    else match UrlAt(s, i)
      case Some(e) =>
        assert OccursAt(s, s[i..e], i);
        [s[i..e]] + FindUrlsFrom(s, e)
      case None => FindUrlsFrom(s, i + 1)
  }

  /** The positions where `https?://[^\s"\'>]+` matches. */
  function UrlStarts(s: string): nat -> bool {
    (q: nat) => UrlAt(s, q).Some?
  }

  /** `findall` takes the leftmost match, then goes on after it; with no
      match left it stops. */
  lemma {:induction false} FindUrlsLeftmost(s: string, i: nat)
    decreases |s| - i
    ensures Leftmost(UrlStarts(s), i, |s|).None? ==> FindUrlsFrom(s, i) == []
    ensures Leftmost(UrlStarts(s), i, |s|).Some? ==>
              var q := Leftmost(UrlStarts(s), i, |s|).value;
              FindUrlsFrom(s, i) == [s[q..UrlAt(s, q).value]] + FindUrlsFrom(s, UrlAt(s, q).value)
  {
    if i < |s| && UrlAt(s, i).None? {
      FindUrlsLeftmost(s, i + 1);
    }
  }

  /** `find_urls_in_text`: empty exactly when the pattern matches nowhere;
      otherwise the leftmost match, then the matches after it. */
  function FindUrlsInText(text: string): (r: seq<string>)
    ensures forall k :: 0 <= k < |r| ==> ScannedUrl(r[k])
    ensures r == [] <==> forall q :: 0 <= q < |text| ==> UrlAt(text, q).None?
    ensures r != [] ==>
              && Leftmost(UrlStarts(text), 0, |text|).Some?
              && var q := Leftmost(UrlStarts(text), 0, |text|).value;
                 r == [text[q..UrlAt(text, q).value]] + FindUrlsFrom(text, UrlAt(text, q).value)
  {
    FindUrlsLeftmost(text, 0);
    assert forall q: nat :: UrlStarts(text)(q) == UrlAt(text, q).Some?;
    FindUrlsFrom(text, 0)
  }

  /** Where `https?://[^\s"\'>]+\.m3u8[^\s"\'>]*` matches: a URL match
      whose run after the scheme holds `.m3u8` after at least one
      character. */
  predicate M3u8At(s: string, q: nat) {
    && UrlAt(s, q).Some?
    && q + SchemeLen(s, q) + 1 <= UrlAt(s, q).value
    && Contains(s[q + SchemeLen(s, q) + 1..UrlAt(s, q).value], ".m3u8")
  }

  /** The first manifest match at or after `i`; the match extends to the
      end of the run. */
  function FirstM3u8UrlFrom(s: string, i: nat): (r: Option<string>)
    decreases |s| - i
    ensures r.Some? ==> ScannedUrl(r.value) && Contains(r.value, ".m3u8")
    ensures r.Some? ==> IsInfix(r.value, s)
  {
    if i >= |s| then None
    else
      var p := SchemeLen(s, i);
      match UrlAt(s, i)
      case Some(e) =>
        if Contains(s[i + p + 1..e], ".m3u8") then
          assert s[i + p + 1..e] == s[i..e][p + 1..e - i];
          ContainsSlice(s[i..e], p + 1, e - i, ".m3u8");
          assert OccursAt(s, s[i..e], i);
          Some(s[i..e])
        else FirstM3u8UrlFrom(s, i + 1)
      case None => FirstM3u8UrlFrom(s, i + 1)
  }

  function M3u8Starts(s: string): nat -> bool {
    (q: nat) => M3u8At(s, q)
  }

  /** The manifest scan returns the leftmost manifest match, extended to
      the end of its run; None when there is none. */
  lemma {:induction false} FirstM3u8Leftmost(s: string, i: nat)
    decreases |s| - i
    ensures Leftmost(M3u8Starts(s), i, |s|).None? ==> FirstM3u8UrlFrom(s, i) == None
    ensures Leftmost(M3u8Starts(s), i, |s|).Some? ==>
              var q := Leftmost(M3u8Starts(s), i, |s|).value;
              FirstM3u8UrlFrom(s, i) == Some(s[q..UrlAt(s, q).value])
  {
    if i < |s| && !M3u8At(s, i) {
      FirstM3u8Leftmost(s, i + 1);
    }
  }

  /** `re.findall(...)[0]` of the manifest scan in `extract_direct_stream_url`. */
  function FirstM3u8Url(text: string): (r: Option<string>)
    ensures r.Some? ==> ScannedUrl(r.value) && Contains(r.value, ".m3u8")
    ensures r.None? <==> forall q :: 0 <= q < |text| ==> !M3u8At(text, q)
    ensures r.Some? ==>
              && Leftmost(M3u8Starts(text), 0, |text|).Some?
              && var q := Leftmost(M3u8Starts(text), 0, |text|).value;
                 r.value == text[q..UrlAt(text, q).value]
  {
    FirstM3u8Leftmost(text, 0);
    assert forall q: nat :: M3u8Starts(text)(q) == M3u8At(text, q);
    FirstM3u8UrlFrom(text, 0)
  }

  predicate IsWordChar(c: char) {
    IsAsciiUpper(c) || IsAsciiLower(c) || IsAsciiDigit(c) || c == '_'
  }

  predicate IsSafeChar(c: char) {
    IsAsciiLower(c) || IsAsciiDigit(c) || c == '_'
  }

  /** `s` without its leading characters outside `[a-zA-Z0-9_]`. */
  function DropNonWord(s: string): (r: string)
    ensures |r| < |s| || r == s
    ensures r == [] || IsWordChar(r[0])
  {
    if s != [] && !IsWordChar(s[0]) then DropNonWord(s[1..]) else s
  }

  /** `re.sub(r'[^a-zA-Z0-9_]+', "_", s)`: each maximal run of other
      characters becomes one underscore. */
  function ReplaceNonWordRuns(s: string): (r: string)
    decreases |s|
    ensures forall k :: 0 <= k < |r| ==> IsWordChar(r[k])
    ensures |r| <= |s|
  {
    if s == [] then []
    else if IsWordChar(s[0]) then [s[0]] + ReplaceNonWordRuns(s[1..])
    else "_" + ReplaceNonWordRuns(DropNonWord(s))
  }

  /** `safe_filename`. */
  function SafeFilename(name: string): (r: string)
    ensures forall k :: 0 <= k < |r| ==> IsSafeChar(r[k])
    ensures |r| <= |name|
  {
    Lower(ReplaceNonWordRuns(name))
  }

  lemma {:induction false} ReplaceNonWordRunsKeepsWords(s: string)
    requires forall k :: 0 <= k < |s| ==> IsWordChar(s[k])
    ensures ReplaceNonWordRuns(s) == s
  {
    if s != [] {
      ReplaceNonWordRunsKeepsWords(s[1..]);
    }
  }

  /** A name made only of `[a-zA-Z0-9_]` keeps its characters, lowercased. */
  lemma SafeFilenameOfWord(s: string)
    requires forall k :: 0 <= k < |s| ==> IsWordChar(s[k])
    ensures SafeFilename(s) == Lower(s)
  {
    ReplaceNonWordRunsKeepsWords(s);
  }

  /** A safe file name is its own safe file name. */
  lemma SafeFilenameIdempotent(name: string)
    ensures SafeFilename(SafeFilename(name)) == SafeFilename(name)
  {
    var r := SafeFilename(name);
    SafeFilenameOfWord(r);
  }
}
