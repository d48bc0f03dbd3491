/** `filter_channels` of merge.py: parsing `LL | Name: link | link` channel
    lines, keeping whitelisted languages and the links that resolve. */
module ChannelFilter {
  import opened Wrappers
  import opened Strings
  import opened Externals
  import opened Resolver
  import opened Lists

  /** The three groups of `^([A-Z]{2})\s*\|\s*(.+?):\s*(.+)$`. */
  datatype ParsedLine = ParsedLine(lang: string, name: string, links: string)

  /** A channel kept by the filter: its language, its name and its
      resolved links. */
  datatype Channel = Channel(lang: string, name: string, links: seq<string>)

  predicate NoNewline(s: string) {
    forall k :: 0 <= k < |s| ==> s[k] != '\n'
  }

  /** The `\s*(.+)$` after the colon at `c`: the rest after the whitespace
      run, or its last character when the run reaches the end. */
  function LinksAfter(s: string, c: nat): (r: string)
    requires c + 1 < |s|
    ensures r != []
  {
    var v := SkipSpaces(s, c + 1);
    if v < |s| then s[v..] else s[|s| - 1..]
  }

  /** `re.match(r"^([A-Z]{2})\s*\|\s*(.+?):\s*(.+)$", line)` on a line
      without `\n`. The lazy name ends at the first colon that has text
      after it; when there is none, the regex backtracks into the spaces
      before the name and can still take a one-space name before a colon
      right after them. */
  function ParseChannelLine(s: string): (r: Option<ParsedLine>)
    ensures r.Some? ==> |r.value.lang| == 2 && IsAsciiUpper(r.value.lang[0]) && IsAsciiUpper(r.value.lang[1])
    ensures r.Some? ==> r.value.name != [] && r.value.links != []
  {
    if |s| < 2 || !IsAsciiUpper(s[0]) || !IsAsciiUpper(s[1]) then None
    else
      var w1 := SkipSpaces(s, 2);
      if w1 == |s| || s[w1] != '|' then None
      else
        var w2 := SkipSpaces(s, w1 + 1);
        var colon := IndexOfChar(s, ':', w2 + 1);
        if colon.Some? && colon.value + 1 < |s| then
          Some(ParsedLine(s[..2], s[w2..colon.value], LinksAfter(s, colon.value)))
        else if w1 + 1 < w2 && w2 + 1 < |s| && s[w2] == ':' then
          Some(ParsedLine(s[..2], [s[w2 - 1]], LinksAfter(s, w2)))
        else None
  }

  /** `f"{lang} | {name}: {links}"`, the line `main.py` prints. */
  function ChannelLine(lang: string, name: string, links: string): string {
    lang + " | " + name + ": " + links
  }

  /** A line printed from a two-letter upper-case language, a name without
      colons, newlines or leading whitespace, and a link string without
      newlines starting with a non-space character, reads back to the same
      three parts. */
  lemma ParseChannelLineRoundTrip(lang: string, name: string, links: string)
    requires |lang| == 2 && IsAsciiUpper(lang[0]) && IsAsciiUpper(lang[1])
    requires name != [] && !IsSpace(name[0]) && forall k :: 0 <= k < |name| ==> name[k] != ':'
    requires links != [] && !IsSpace(links[0])
    requires NoNewline(name) && NoNewline(links)
    ensures ParseChannelLine(ChannelLine(lang, name, links)) == Some(ParsedLine(lang, name, links))
  {
    var s := ChannelLine(lang, name, links);
    var c := 5 + |name|;
    assert s[..2] == lang;
    assert s[2] == ' ' && s[3] == '|' && s[4] == ' ';
    assert SkipSpaces(s, 2) == 3;
    assert s[5] == name[0];
    assert SkipSpaces(s, 4) == 5;
    assert forall k :: 5 <= k < c ==> s[k] == name[k - 5];
    assert s[c] == ':' && s[c + 1] == ' ' && s[c + 2] == links[0];
    assert IndexOfChar(s, ':', 6) == Some(c);
    assert s[5..c] == name;
    assert SkipSpaces(s, c + 1) == c + 2;
    assert s[c + 2..] == links;
  }

  /** A line whose language is not two upper-case letters, such as `??`,
      is rejected. */
  lemma UnknownLanguageRejected(rest: string)
    ensures ParseChannelLine("??" + rest).None?
  {
    assert ("??" + rest)[0] == '?';
  }

  /** A `|`-segment that `filter_channels` hands to `convert_url`. */
  predicate LinkCandidate(segment: string) {
    Contains(segment, "ch?id=") || StartsWith(segment, "http")
  }

  /** A segment that is a candidate and that `convert` (merge.py's
      `convert_url`, `Converter(env)` in the driver) turns into a non-empty
      URL. */
  function Resolves(convert: string -> string): string -> bool {
    segment => LinkCandidate(Strip(segment)) && convert(Strip(segment)) != []
  }

  function Resolved(convert: string -> string): string -> string {
    segment => convert(Strip(segment))
  }

  /** The non-empty resolved links of the candidate segments, in order. */
  function DirectLinks(segments: seq<string>, convert: string -> string): (r: seq<string>)
    ensures forall k :: 0 <= k < |r| ==> r[k] != []
  {
    var r := FilterMap(Resolves(convert), Resolved(convert), segments);
    FilterMapFrom(Resolves(convert), Resolved(convert), segments);
    assert forall k :: 0 <= k < |r| ==> r[k] in r;
    r
  }

  /** The entry `filter_channels` makes of one line, if any. */
  function ChannelEntry(line: string, whitelist: set<string>, convert: string -> string): Option<Channel> {
    match ParseChannelLine(line)
    case None => None
    case Some(p) => ParsedEntry(p, whitelist, convert)
  }

  /** The entry made of a parsed line, if any. */
  function ParsedEntry(p: ParsedLine, whitelist: set<string>, convert: string -> string): Option<Channel> {
    if p.lang !in whitelist then None
    else
      var links := DirectLinks(Split(p.links, "|"), convert);
      if links == [] then None else Some(Channel(p.lang, p.name, links))
  }

  function Survives(whitelist: set<string>, convert: string -> string): string -> bool {
    line => ChannelEntry(line, whitelist, convert).Some?
  }

  /** The entry of a surviving line (the empty channel is never used). */
  function EntryOf(whitelist: set<string>, convert: string -> string): string -> Channel {
    line => match ChannelEntry(line, whitelist, convert) case Some(c) => c case None => Channel([], [], [])
  }

  /** What `filter_channels(channels, whitelist)` returns. */
  function FilteredChannels(lines: seq<string>, whitelist: set<string>, convert: string -> string): seq<Channel> {
    FilterMap(Survives(whitelist, convert), EntryOf(whitelist, convert), lines)
  }

  /** The inner loop of `filter_channels` over the `|`-segments. */
  method ValidLinks(links: string, env: Env) returns (valid: seq<string>)
    ensures valid == DirectLinks(Split(links, "|"), Converter(env))
  {
    var segments := Split(links, "|");
    valid := [];
    for n := 0 to |segments|
      invariant valid == FilterMap(Resolves(Converter(env)), Resolved(Converter(env)), segments[..n])
    {
      assert segments[..n + 1] == segments[..n] + [segments[n]];
      FilterMapSnoc(Resolves(Converter(env)), Resolved(Converter(env)), segments[..n], segments[n]);
      var link := Strip(segments[n]);
      if Contains(link, "ch?id=") || StartsWith(link, "http") {
        var direct := ConvertUrl(link, env);
        assert direct == Converter(env)(link);
        if direct != [] {
          valid := valid + [direct];
        }
      }
    }
    assert segments[..|segments|] == segments;
  }

  /** `filter_channels`, for channel lines without `\n` as
      `extract_channels` produces them. */
  method FilterChannels(channels: seq<string>, whitelist: set<string>, env: Env) returns (filtered: seq<Channel>)
    requires forall k :: 0 <= k < |channels| ==> NoNewline(channels[k])
    ensures filtered == FilteredChannels(channels, whitelist, Converter(env))
  {
    filtered := [];
    for n := 0 to |channels|
      invariant filtered == FilteredChannels(channels[..n], whitelist, Converter(env))
    {
      assert channels[..n + 1] == channels[..n] + [channels[n]];
      FilterMapSnoc(Survives(whitelist, Converter(env)), EntryOf(whitelist, Converter(env)), channels[..n], channels[n]);
      var m := ParseChannelLine(channels[n]);
      if m.None? {
        continue;
      }
      var ParsedLine(lang, name, links) := m.value;
      if lang !in whitelist {
        continue;
      }
      var valid := ValidLinks(links, env);
      if valid != [] {
        filtered := filtered + [Channel(lang, name, valid)];
      }
    }
    assert channels[..|channels|] == channels;
  }

  /** Filtering runs line by line, so survivors keep their input order. */
  lemma FilteredChannelsAppend(a: seq<string>, b: seq<string>, whitelist: set<string>, convert: string -> string)
    ensures FilteredChannels(a + b, whitelist, convert)
            == FilteredChannels(a, whitelist, convert) + FilteredChannels(b, whitelist, convert)
  {
    FilterMapAppend(Survives(whitelist, convert), EntryOf(whitelist, convert), a, b);
  }

  /** An entry comes from exactly one input line each. */
  lemma FilteredChannelsFrom(lines: seq<string>, whitelist: set<string>, convert: string -> string)
    ensures forall c :: c in FilteredChannels(lines, whitelist, convert) <==>
              exists k :: 0 <= k < |lines| && ChannelEntry(lines[k], whitelist, convert) == Some(c)
  {
    FilterMapFrom(Survives(whitelist, convert), EntryOf(whitelist, convert), lines);
  }

  /** A segment contributes a link exactly when it is a candidate that
      resolves to a non-empty URL. */
  lemma DirectLinksFrom(segments: seq<string>, convert: string -> string)
    ensures DirectLinks(segments, convert) != [] <==>
            exists k :: 0 <= k < |segments| && LinkCandidate(Strip(segments[k]))
                                            && convert(Strip(segments[k])) != []
  {
    var r := DirectLinks(segments, convert);
    FilterMapFrom(Resolves(convert), Resolved(convert), segments);
    if r != [] {
      assert r[0] in r;
    }
    if exists k :: 0 <= k < |segments| && LinkCandidate(Strip(segments[k])) && convert(Strip(segments[k])) != [] {
      var k :| 0 <= k < |segments| && LinkCandidate(Strip(segments[k])) && convert(Strip(segments[k])) != [];
      assert Resolves(convert)(segments[k]);
      assert Resolved(convert)(segments[k]) in r;
    }
  }

  /** A line yields an entry exactly when it parses, its language is
      whitelisted and some of its segments resolve (`DirectLinksFrom` says
      which); the entry is the parsed language and name with those
      links. */
  lemma ChannelEntrySurvives(line: string, whitelist: set<string>, convert: string -> string)
    ensures ChannelEntry(line, whitelist, convert).Some? <==>
            && ParseChannelLine(line).Some?
            && ParseChannelLine(line).value.lang in whitelist
            && DirectLinks(Split(ParseChannelLine(line).value.links, "|"), convert) != []
    ensures ChannelEntry(line, whitelist, convert).Some? ==>
            ChannelEntry(line, whitelist, convert).value
            == Channel(ParseChannelLine(line).value.lang, ParseChannelLine(line).value.name,
                       DirectLinks(Split(ParseChannelLine(line).value.links, "|"), convert))
  {
  }

  /** A parsed line survives exactly when its language is whitelisted and
      one of its segments is a candidate that converts to a non-empty URL. */
  lemma LineSurvives(line: string, whitelist: set<string>, convert: string -> string)
    requires ParseChannelLine(line).Some?
    ensures var p := ParseChannelLine(line).value;
            var segments := Split(p.links, "|");
            ChannelEntry(line, whitelist, convert).Some? <==>
              && p.lang in whitelist
              && exists k :: 0 <= k < |segments| && LinkCandidate(Strip(segments[k])) && convert(Strip(segments[k])) != []
  {
    ChannelEntrySurvives(line, whitelist, convert);
    DirectLinksFrom(Split(ParseChannelLine(line).value.links, "|"), convert);
  }
}
