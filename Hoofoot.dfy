/** The text rules of hoofoot_auto.py: finding the manifest URL in a player
    page, and listing the matches of the home page with their absolute
    URLs and images. The HTML parse is left out: the home page comes in as
    the (title, link, image) records its match containers yield. */
module Hoofoot {
  import opened Wrappers
  import opened Strings
  import opened Externals

  /** The site every relative link is resolved against. */
  const Base: string := "https://hoofoot.com/"

  // ---------------------------------------------------------------------
  // extract_m3u8_from_embed

  /** `\s*` then the literal `lit` from `j`: the index after the literal. */
  function Token(s: string, j: nat, lit: string): (r: Option<nat>)
    requires j <= |s|
    ensures r.Some? ==> j + |lit| <= r.value <= |s|
  {
    var k := SkipSpaces(s, j);
    if StartsWith(s[k..], lit) then Some(k + |lit|) else None
  }

  /** The tokens `lits`, each after optional whitespace, in turn. */
  function Tokens(s: string, j: nat, lits: seq<string>): (r: Option<nat>)
    requires j <= |s|
    decreases |lits|
    ensures r.Some? ==> j <= r.value <= |s|
  {
    if lits == [] then Some(j)
    else
      match Token(s, j, lits[0])
      case None => None
      case Some(k) => Tokens(s, k, lits[1..])
  }

  /** The end of the run of characters other than `'` from `j`. */
  function NonQuoteEnd(s: string, j: nat): (r: nat)
    requires j <= |s|
    decreases |s| - j
    ensures j <= r <= |s|
    ensures forall k :: j <= k < r ==> s[k] != '\''
    ensures r < |s| ==> s[r] == '\''
  {
    if j == |s| || s[j] == '\'' then j else NonQuoteEnd(s, j + 1)
  }

  /** `key\s*:\s*{\s*hls\s*:\s*'(?P<u>//[^']+)'\s*}` matched at `p`: the
      group `u`. Every `\s*` is followed by a literal that is not a space,
      and `[^']+` can only stop at a quote, so the match is unique. */
  function HlsAt(s: string, p: nat, key: string): (r: Option<string>)
    requires p <= |s|
    ensures r.Some? ==> |r.value| >= 3 && StartsWith(r.value, "//")
    ensures r.Some? ==> forall k :: 0 <= k < |r.value| ==> r.value[k] != '\''
  {
    if !StartsWith(s[p..], key) then None
    else
      match Tokens(s, p + |key|, HlsTokens)
      case None => None
      case Some(j) => QuotedUrlAt(s, j)
  }

  /** What follows `key` up to the opening quote of the URL. */
  const HlsTokens: seq<string> := [":", "{", "hls", ":", "'"]

  /** `(?P<u>//[^']+)'\s*}` at `j`: the group `u`. */
  function QuotedUrlAt(s: string, j: nat): (r: Option<string>)
    requires j <= |s|
    ensures r.Some? ==> |r.value| >= 3 && StartsWith(r.value, "//")
    ensures r.Some? ==> forall k :: 0 <= k < |r.value| ==> r.value[k] != '\''
  {
    if !StartsWith(s[j..], "//") then None
    else
      var e := NonQuoteEnd(s, j + 2);
      if e == j + 2 || e == |s| || Token(s, e + 1, "}").None? then None
      else
        assert s[j..e][..2] == s[j..][..2];
        Some(s[j..e])
  }

  /** `re.search` for the `hls` pattern with `key`: the leftmost position
      where it matches. */
  function FirstHls(s: string, key: string, p: nat): (r: Option<nat>)
    requires p <= |s|
    decreases |s| - p
    ensures r.Some? ==> p <= r.value <= |s| && HlsAt(s, r.value, key).Some?
    ensures r.Some? ==> forall q :: p <= q < r.value ==> HlsAt(s, q, key).None?
    ensures r.None? ==> forall q :: p <= q <= |s| ==> HlsAt(s, q, key).None?
  {
    if HlsAt(s, p, key).Some? then Some(p)
    else if p == |s| then None
    else FirstHls(s, key, p + 1)
  }

  /** A character `[^\s'";]` accepts. */
  predicate IsUrlChar(c: char) {
    !IsSpace(c) && c != '\'' && c != '"' && c != ';'
  }

  function UrlCharsEnd(s: string, j: nat): (r: nat)
    requires j <= |s|
    decreases |s| - j
    ensures j <= r <= |s|
    ensures forall k :: j <= k < r ==> IsUrlChar(s[k])
    ensures r < |s| ==> !IsUrlChar(s[r])
  {
    if j == |s| || !IsUrlChar(s[j]) then j else UrlCharsEnd(s, j + 1)
  }

  /** `(https?:)?//` at `p`: the index after the slashes. */
  function SlashesAt(s: string, p: nat): (r: Option<nat>)
    requires p <= |s|
    ensures r.Some? ==> p + 2 <= r.value <= |s|
  {
    if StartsWith(s[p..], "https://") then Some(p + 8)
    else if StartsWith(s[p..], "http://") then Some(p + 7)
    else if StartsWith(s[p..], "//") then Some(p + 2)
    else None
  }

  /** `(https?:)?//[^\s'";]+\.m3u8[^\s'";]*` matched at `p`. The greedy
      runs give back characters until `.m3u8` follows, and the trailing run
      takes them again, so a match always ends where the run of URL
      characters after the slashes ends; it exists when `.m3u8` occurs
      inside that run after at least one character. */
  function ManifestAt(s: string, p: nat): (r: Option<string>)
    requires p <= |s|
    ensures r.Some? ==> Contains(r.value, ".m3u8")
    ensures r.Some? ==> StartsWith(r.value, "//") || StartsWith(r.value, "http://") || StartsWith(r.value, "https://")
  {
    match SlashesAt(s, p)
    case None => None
    case Some(q) =>
      var e := UrlCharsEnd(s, q);
      match FindFrom(s[p..e], ".m3u8", q - p + 1)
      case None => None
      case Some(j) =>
        ContainsAt(s[p..e], ".m3u8", j);
        assert s[p..e][..q - p] == s[p..q];
        Some(s[p..e])
  }

  function FirstManifest(s: string, p: nat): (r: Option<nat>)
    requires p <= |s|
    decreases |s| - p
    ensures r.Some? ==> p <= r.value <= |s| && ManifestAt(s, r.value).Some?
    ensures r.Some? ==> forall q :: p <= q < r.value ==> ManifestAt(s, q).None?
    ensures r.None? ==> forall q :: p <= q <= |s| ==> ManifestAt(s, q).None?
  {
    if ManifestAt(s, p).Some? then Some(p)
    else if p == |s| then None
    else FirstManifest(s, p + 1)
  }

  /** `extract_m3u8_from_embed`: the `src` entry, else the `backupSrc`
      entry, else the first `.m3u8` URL, with `https:` put in front of a
      protocol-relative URL. Every result is an absolute http(s) URL. */
  function ExtractM3u8FromEmbed(html: string): (r: Option<string>)
    ensures r.Some? ==> StartsWith(r.value, "https://") || StartsWith(r.value, "http://")
  {
    match FirstHls(html, "src", 0)
    case Some(p) => Some(Absolute(HlsAt(html, p, "src").value))
    case None =>
      match FirstHls(html, "backupSrc", 0)
      case Some(p) => Some(Absolute(HlsAt(html, p, "backupSrc").value))
      case None =>
        match FirstManifest(html, 0)
        case Some(p) => Some(Absolute(ManifestAt(html, p).value))
        case None => None
  }

  /** `https:` in front of a protocol-relative URL; an absolute one as is. */
  function Absolute(url: string): (r: string)
    requires StartsWith(url, "//") || StartsWith(url, "http://") || StartsWith(url, "https://")
    ensures StartsWith(r, "https://") || StartsWith(r, "http://")
    ensures StartsWith(url, "//") ==> r == "https:" + url
    ensures !StartsWith(url, "//") ==> r == url
  {
    if StartsWith(url, "//") then
      assert ("https:" + url)[..8] == "https:" + url[..2];
      "https:" + url
    else url
  }

  /** The leftmost `src` entry wins over everything else. */
  lemma SrcWins(html: string, p: nat)
    requires p <= |html| && HlsAt(html, p, "src").Some?
    requires forall q :: 0 <= q < p ==> HlsAt(html, q, "src").None?
    ensures ExtractM3u8FromEmbed(html) == Some("https:" + HlsAt(html, p, "src").value)
  {
    var f := FirstHls(html, "src", 0);
    assert f == Some(p);
  }

  /** Without a `src` entry, the leftmost `backupSrc` entry wins over any
      other manifest URL. */
  lemma BackupSrcNext(html: string, p: nat)
    requires forall q :: 0 <= q <= |html| ==> HlsAt(html, q, "src").None?
    requires p <= |html| && HlsAt(html, p, "backupSrc").Some?
    requires forall q :: 0 <= q < p ==> HlsAt(html, q, "backupSrc").None?
    ensures ExtractM3u8FromEmbed(html) == Some("https:" + HlsAt(html, p, "backupSrc").value)
  {
    var f := FirstHls(html, "backupSrc", 0);
    assert f == Some(p);
    ExtractWithoutSrc(html);
  }

  /** Without a `src` entry, the search goes on with `backupSrc`. */
  lemma ExtractWithoutSrc(html: string)
    requires forall q :: 0 <= q <= |html| ==> HlsAt(html, q, "src").None?
    ensures FirstHls(html, "backupSrc", 0).Some? ==>
              ExtractM3u8FromEmbed(html) == Some(Absolute(HlsAt(html, FirstHls(html, "backupSrc", 0).value, "backupSrc").value))
  {
    var f := FirstHls(html, "src", 0);
    assert f == None;
  }

  /** Nothing is found exactly when none of the three patterns matches
      anywhere; a URL from the last pattern holds `.m3u8`. */
  lemma NothingFound(html: string)
    ensures ExtractM3u8FromEmbed(html).None? <==>
              forall q :: 0 <= q <= |html| ==>
                && HlsAt(html, q, "src").None?
                && HlsAt(html, q, "backupSrc").None?
                && ManifestAt(html, q).None?
    ensures ((forall q :: 0 <= q <= |html| ==> HlsAt(html, q, "src").None? && HlsAt(html, q, "backupSrc").None?)
             && ExtractM3u8FromEmbed(html).Some?) ==> Contains(ExtractM3u8FromEmbed(html).value, ".m3u8")
  {
    var r := ExtractM3u8FromEmbed(html);
    if (forall q :: 0 <= q <= |html| ==> HlsAt(html, q, "src").None? && HlsAt(html, q, "backupSrc").None?) && r.Some? {
      var p := FirstManifest(html, 0).value;
      var url := ManifestAt(html, p).value;
      if StartsWith(url, "//") {
        ContainsSuffix("https:", url, ".m3u8");
      }
    }
  }

  // ---------------------------------------------------------------------
  // find_matches_from_html

  /** What a match container yields: the stripped text of its `h2`, the
      `href` of the first link that has one and the `src` of the first
      image that has one, each when present. */
  datatype MatchDiv = MatchDiv(title: Option<string>, href: Option<string>, src: Option<string>)

  /** An entry of the match list. */
  datatype MatchEntry = MatchEntry(title: string, url: string, image: Option<string>)

  /** The image URL: protocol-relative gets `https:`, absolute stays,
      anything else is joined with the site; no image gives None. */
  function ImageUrl(src: Option<string>, env: Env): (r: Option<string>)
    ensures r.None? <==> src.None?
  {
    match src
    case None => None
    case Some(u) =>
      if StartsWith(u, "//") then Some("https:" + u)
      else if !StartsWith(u, "http") then Some(env.urljoin(Base, u))
      else Some(u)
  }

  /** A protocol-relative or absolute image comes out absolute, and
      normalising it again changes nothing. */
  lemma ImageUrlAbsolute(u: string, env: Env)
    requires StartsWith(u, "//") || StartsWith(u, "http")
    ensures StartsWith(ImageUrl(Some(u), env).value, "http")
    ensures ImageUrl(ImageUrl(Some(u), env), env) == ImageUrl(Some(u), env)
  {
    var v := ImageUrl(Some(u), env).value;
    if StartsWith(u, "//") {
      assert v[..4] == ("https:" + u)[..4] == "http";
    }
    assert v[..2][0] == v[..4][0] == 'h';
  }

  /** A container the loop keeps: a non-empty title and a link holding
      `?match=`. */
  predicate Listed(d: MatchDiv) {
    d.title.Some? && d.title.value != [] && d.href.Some? && Contains(d.href.value, "?match=")
  }

  function EntryOf(d: MatchDiv, env: Env): MatchEntry
    requires Listed(d)
  {
    MatchEntry(d.title.value, env.urljoin(Base, d.href.value), ImageUrl(d.src, env))
  }

  /** The URLs already listed: the `seen` set of the loop. */
  function Urls(entries: seq<MatchEntry>): set<string> {
    set k | 0 <= k < |entries| :: entries[k].url
  }

  lemma UrlsSnoc(entries: seq<MatchEntry>, e: MatchEntry)
    ensures Urls(entries + [e]) == Urls(entries) + {e.url}
  {
    var es := entries + [e];
    assert es[|entries|] == e;
    forall u | u in Urls(entries) ensures u in Urls(es) {
      var k :| 0 <= k < |entries| && entries[k].url == u;
      assert es[k] == entries[k];
    }
  }

  /** What `find_matches_from_html` returns for the containers, in page
      order: the first entry for each absolute URL. */
  function ListedMatches(divs: seq<MatchDiv>, env: Env): (r: seq<MatchEntry>)
    ensures forall i, j :: 0 <= i < j < |r| ==> r[i].url != r[j].url
  {
    if divs == [] then []
    else
      var init := ListedMatches(divs[..|divs| - 1], env);
      var d := divs[|divs| - 1];
      if !Listed(d) || EntryOf(d, env).url in Urls(init) then init
      else init + [EntryOf(d, env)]
  }

  /** Entries are appended in page order: the list for the first `n`
      containers is a prefix of the list for all of them. */
  lemma {:induction false} ListedMatchesPrefix(divs: seq<MatchDiv>, n: nat, env: Env)
    requires n <= |divs|
    ensures ListedMatches(divs[..n], env) <= ListedMatches(divs, env)
    decreases |divs|
  {
    if n < |divs| {
      var init := divs[..|divs| - 1];
      assert init[..n] == divs[..n];
      ListedMatchesPrefix(init, n, env);
    } else {
      assert divs[..n] == divs;
    }
  }

  /** Container `k` is kept and no earlier kept container has its URL. */
  predicate FirstOfUrl(divs: seq<MatchDiv>, k: nat, env: Env)
    requires k < |divs|
  {
    Listed(divs[k]) &&
    forall k' :: 0 <= k' < k && Listed(divs[k']) ==> EntryOf(divs[k'], env).url != EntryOf(divs[k], env).url
  }

  lemma FirstOfUrlPrefix(divs: seq<MatchDiv>, n: nat, k: nat, env: Env)
    requires k < n <= |divs|
    ensures FirstOfUrl(divs[..n], k, env) == FirstOfUrl(divs, k, env)
  {
    assert forall k' :: 0 <= k' <= k ==> divs[..n][k'] == divs[k'];
  }

  /** Every entry comes from a kept container with no earlier kept
      container of the same URL. */
  lemma {:induction false} ListedMatchesFrom(divs: seq<MatchDiv>, env: Env)
    ensures forall e :: e in ListedMatches(divs, env) ==>
              exists k :: 0 <= k < |divs| && FirstOfUrl(divs, k, env) && e == EntryOf(divs[k], env)
  {
    if divs != [] {
      var n := |divs| - 1;
      var init := divs[..n];
      var before := ListedMatches(init, env);
      ListedMatchesFrom(init, env);
      forall e | e in ListedMatches(divs, env)
        ensures exists k :: 0 <= k < |divs| && FirstOfUrl(divs, k, env) && e == EntryOf(divs[k], env)
      {
        if e in before {
          var k :| 0 <= k < n && FirstOfUrl(init, k, env) && e == EntryOf(init[k], env);
          FirstOfUrlPrefix(divs, n, k, env);
        } else {
          assert e == EntryOf(divs[n], env) && e.url !in Urls(before);
          forall k' | 0 <= k' < n && Listed(divs[k'])
            ensures EntryOf(divs[k'], env).url != e.url
          {
            assert divs[k'] == init[k'];
            ListedMatchesCover(init, env);
          }
          assert FirstOfUrl(divs, n, env);
        }
      }
    }
  }

  /** Every kept container's URL is listed. */
  lemma {:induction false} ListedMatchesCover(divs: seq<MatchDiv>, env: Env)
    ensures forall k :: 0 <= k < |divs| && Listed(divs[k]) ==> EntryOf(divs[k], env).url in Urls(ListedMatches(divs, env))
  {
    if divs != [] {
      var n := |divs| - 1;
      var init := divs[..n];
      var before := ListedMatches(init, env);
      var r := ListedMatches(divs, env);
      ListedMatchesCover(init, env);
      if r != before {
        UrlsSnoc(before, EntryOf(divs[n], env));
      }
      assert Urls(before) <= Urls(r);
      forall k | 0 <= k < n && Listed(divs[k])
        ensures EntryOf(divs[k], env).url in Urls(r)
      {
        assert divs[k] == init[k];
      }
    }
  }

  /** `find_matches_from_html` after the parse. */
  method FindMatchesFromHtml(divs: seq<MatchDiv>, env: Env) returns (matches: seq<MatchEntry>)
    ensures matches == ListedMatches(divs, env)
  {
    matches := [];
    var seen: set<string> := {};
    for n := 0 to |divs|
      invariant matches == ListedMatches(divs[..n], env)
      invariant seen == Urls(matches)
    {
      assert divs[..n + 1][..n] == divs[..n];
      var div := divs[n];
      if div.title.None? || div.title.value == [] {
        continue;
      }
      if div.href.None? || !Contains(div.href.value, "?match=") {
        continue;
      }
      var url := env.urljoin(Base, div.href.value);
      var imgUrl: Option<string>;
      if div.src.Some? {
        var u := div.src.value;
        if StartsWith(u, "//") {
          u := "https:" + u;
        } else if !StartsWith(u, "http") {
          u := env.urljoin(Base, u);
        }
        imgUrl := Some(u);
      } else {
        imgUrl := None;
      }
      if url in seen {
        continue;
      }
      UrlsSnoc(matches, MatchEntry(div.title.value, url, imgUrl));
      seen := seen + {url};
      matches := matches + [MatchEntry(div.title.value, url, imgUrl)];
    }
    assert divs[..|divs|] == divs;
  }
}
