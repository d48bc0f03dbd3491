/** The text rules of generate_m3u8.py: reading match titles from the feed,
    pairing them with IPTV channels by team names, rewriting stream URLs to
    manifests and naming the playlist files. The feed and the channel list
    are parameters; fetching them and writing the files are left out. */
module Generate {
  import opened Wrappers
  import opened Strings
  import opened Lists
  import opened MergeUrls
  import opened FeedParse
  import opened Playlists

  // ---------------------------------------------------------------------
  // parse_matches

  /** The exception `parse_matches` can raise. */
  datatype ParseError = IndexError

  /** What a title is cut after. */
  const TitleSeparator: string := "Match: "

  /** `line.split('Match: ')[1].strip()`, which fails when the line has no
      `Match: `. */
  function MarkerTitle(line: string): (r: Result<string, ParseError>)
    ensures r.Ok? <==> Contains(line, TitleSeparator)
    ensures r.Ok? ==> NoSpaceAtEnds(r.value)
  {
    SplitSingle(line, TitleSeparator);
    var pieces := Split(line, TitleSeparator);
    if |pieces| < 2 then Err(IndexError) else Ok(Strip(pieces[1]))
  }

  /** The loop state of `parse_matches`: the titles appended so far and
      `current_match`. */
  datatype ScanState = ScanState(matches: seq<string>, current: string)

  /** The state after the given lines, or the error the first bad marker
      line raises. */
  function ScanMatches(lines: seq<string>): Result<ScanState, ParseError> {
    if lines == [] then Ok(ScanState([], ""))
    else
      match ScanMatches(lines[..|lines| - 1])
      case Err(e) => Err(e)
      case Ok(st) => ScanStep(st, lines[|lines| - 1])
  }

  /** One line of the loop: blank and unmarked lines change nothing; a
      marker line appends the pending title and starts a new one. */
  function ScanStep(st: ScanState, rawLine: string): Result<ScanState, ParseError> {
    var line := Strip(rawLine);
    if line == [] || !Contains(line, MatchMarker) then Ok(st)
    else
      match MarkerTitle(line)
      case Err(e) => Err(e)
      case Ok(t) => Ok(ScanState(Flush(st), t))
  }

  /** The titles once `current_match` is appended, if it is not empty. */
  function Flush(st: ScanState): seq<string> {
    if st.current != [] then st.matches + [st.current] else st.matches
  }

  /** What `parse_matches(matches_text)` returns or raises. */
  function ParsedMatches(text: string): Result<seq<string>, ParseError> {
    match ScanMatches(Split(text, "\n"))
    case Err(e) => Err(e)
    case Ok(st) => Ok(Flush(st))
  }

  /** An independent description: the non-empty titles of the lines whose
      stripped form contains the marker, in order, or an error at the first
      such line without `Match: `. */
  function MarkerTitles(lines: seq<string>): (r: Result<seq<string>, ParseError>)
    ensures r.Ok? ==> forall k :: 0 <= k < |r.value| ==> r.value[k] != [] && NoSpaceAtEnds(r.value[k])
  {
    if lines == [] then Ok([])
    else
      match MarkerTitles(lines[..|lines| - 1])
      case Err(e) => Err(e)
      case Ok(ts) =>
        var line := Strip(lines[|lines| - 1]);
        if !Contains(line, MatchMarker) then Ok(ts)
        else
          match MarkerTitle(line)
          case Err(e) => Err(e)
          case Ok(t) => Ok(if t != [] then ts + [t] else ts)
  }

  lemma EmptyHasNoMarker()
    ensures !Contains([], MatchMarker)
  {
    assert |MatchMarker| == 9;
  }

  lemma {:induction false} ScanMatchesTitles(lines: seq<string>)
    ensures ScanMatches(lines).Ok? <==> MarkerTitles(lines).Ok?
    ensures ScanMatches(lines).Ok? ==> Flush(ScanMatches(lines).value) == MarkerTitles(lines).value
    ensures ScanMatches(lines).Err? ==> MarkerTitles(lines) == Err(IndexError)
  {
    if lines != [] {
      ScanMatchesTitles(lines[..|lines| - 1]);
      EmptyHasNoMarker();
    }
  }

  /** `parse_matches` returns, in order, the non-empty titles of the marker
      lines, each the stripped piece of its line between the first
      `Match: ` and the next one (or the end of the line); it fails exactly
      when some marker line has no `Match: `. */
  lemma ParsedMatchesTitles(text: string)
    ensures ParsedMatches(text) == MarkerTitles(Split(text, "\n"))
    ensures ParsedMatches(text).Ok? ==>
              forall k :: 0 <= k < |ParsedMatches(text).value| ==>
                ParsedMatches(text).value[k] != [] && NoSpaceAtEnds(ParsedMatches(text).value[k])
  {
    var scan := ScanMatches(Split(text, "\n"));
    ScanMatchesTitles(Split(text, "\n"));
    if scan.Err? {
      assert scan.error.IndexError?;
    }
  }

  lemma ScanMatchesSnoc(lines: seq<string>, n: nat)
    requires n < |lines| && ScanMatches(lines[..n]).Ok?
    ensures ScanMatches(lines[..n + 1]) == ScanStep(ScanMatches(lines[..n]).value, lines[n])
  {
    assert lines[..n + 1][..n] == lines[..n];
  }

  /** Once a marker line without `Match: ` is met the parse has failed,
      whatever follows. */
  lemma {:induction false} ScanMatchesErrSticky(lines: seq<string>, n: nat)
    requires n <= |lines| && ScanMatches(lines[..n]).Err?
    ensures ScanMatches(lines).Err?
    decreases |lines| - n
  {
    if n < |lines| {
      assert lines[..n + 1][..n] == lines[..n];
      ScanMatchesErrSticky(lines, n + 1);
    } else {
      assert lines[..n] == lines;
    }
  }

  /** A position where one character differs is not an occurrence. */
  lemma NotOccursAt(s: string, t: string, k: int, j: nat)
    requires j < |t| && (k < 0 || k + |t| > |s| || s[k + j] != t[j])
    ensures !OccursAt(s, t, k)
  {
    if 0 <= k && k + |t| <= |s| {
      assert s[k..k + |t|][j] == s[k + j];
    }
  }

  /** A feed consisting of the bare marker, with nothing after the colon,
      makes `parse_matches` raise. */
  lemma BareMarkerFails()
    ensures ParsedMatches(MatchMarker).Err?
  {
    var m := MatchMarker;
    assert |m| == 9 && m[6] == 'c' && m[7] == 'h' && m[8] == ':';
    forall k
      ensures !OccursAt(m, "\n", k)
    {
      if 0 <= k < |m| {
        NotOccursAt(m, "\n", k, 0);
      } else {
        NotOccursAt(m, "\n", k, 0);
      }
    }
    SplitSingle(m, "\n");
    assert !IsSpace(m[0]) && !IsSpace(m[8]);
    assert Strip(m) == m;
    assert Contains(m, MatchMarker) by {
      ContainsAt(m, MatchMarker, 0);
    }
    forall k
      ensures !OccursAt(m, TitleSeparator, k)
    {
      if 0 <= k <= 2 {
        NotOccursAt(m, TitleSeparator, k, 6);
      } else {
        NotOccursAt(m, TitleSeparator, k, 0);
      }
    }
    assert [m][..0] == [];
    assert ScanMatches([m]).Err?;
  }

  /** The body of the line loop of `parse_matches`. */
  method ScanLine(st: ScanState, rawLine: string) returns (r: Result<ScanState, ParseError>)
    ensures r == ScanStep(st, rawLine)
  {
    var matches, current := st.matches, st.current;
    var line := Strip(rawLine);
    if line == [] {
      return Ok(st);
    }
    if Contains(line, MatchMarker) {
      if current != [] {
        matches := matches + [current];
      }
      var pieces := Split(line, TitleSeparator);
      if |pieces| < 2 {
        return Err(IndexError);
      }
      current := Strip(pieces[1]);
    }
    return Ok(ScanState(matches, current));
  }

  /** `parse_matches`. */
  method ParseMatches(text: string) returns (r: Result<seq<string>, ParseError>)
    ensures r == ParsedMatches(text)
  {
    var lines := Split(text, "\n");
    var matches: seq<string> := [];
    var current := "";
    for n := 0 to |lines|
      invariant ScanMatches(lines[..n]) == Ok(ScanState(matches, current))
    {
      ScanMatchesSnoc(lines, n);
      var step := ScanLine(ScanState(matches, current), lines[n]);
      if step.Err? {
        ScanMatchesErrSticky(lines, n + 1);
        assert ScanMatches(lines).error.IndexError?;
        return Err(IndexError);
      }
      matches, current := step.value.matches, step.value.current;
    }
    assert lines[..|lines|] == lines;
    if current != [] {
      matches := matches + [current];
    }
    return Ok(matches);
  }

  // ---------------------------------------------------------------------
  // convert_to_m3u8_url

  const StreamKey: string := "stream="

  /** The manifest URL on the fixed IPTV host for a stream id. */
  function M3u8Template(id: string): string {
    "http://line.stayconnected.pro:80/play/live.php?mac=00:1A:79:63:32:60&stream=" + id + "&extension=m3u8"
  }

  /** `ts_url.split('stream=')[1].split('&')[0]`. */
  function StreamId(ts: string): string
    requires Contains(ts, StreamKey)
  {
    SplitSingle(ts, StreamKey);
    Split(Split(ts, StreamKey)[1], "&")[0]
  }

  /** `convert_to_m3u8_url`. */
  function ConvertToM3u8Url(ts: string): (r: string)
    ensures !Contains(ts, StreamKey) ==> r == ts
  {
    if Contains(ts, StreamKey) then M3u8Template(StreamId(ts)) else ts
  }

  /** The second piece of a split is the first piece of the text after the
      first separator. */
  lemma SplitSecond(s: string, sep: string)
    requires sep != [] && Contains(s, sep)
    ensures |Split(s, sep)| >= 2
    ensures Split(s, sep)[1] == Split(s[FindFrom(s, sep, 0).value + |sep|..], sep)[0]
  {
    var j := FindFrom(s, sep, 0).value;
    assert Split(s, sep) == [s[..j]] + Split(s[j + |sep|..], sep);
  }

  /** The id is the text right after the first `stream=`, up to the next
      `&`, the next `stream=` or the end, whichever comes first. */
  lemma StreamIdShape(ts: string)
    requires Contains(ts, StreamKey)
    ensures ConvertToM3u8Url(ts) == M3u8Template(StreamId(ts))
    ensures var i := FindFrom(ts, StreamKey, 0).value;
            var rest := ts[i + |StreamKey|..];
            var id := StreamId(ts);
            && (forall k :: 0 <= k < i ==> !OccursAt(ts, StreamKey, k))
            && StartsWith(rest, id)
            && !Contains(id, "&")
            && (id == rest || rest[|id|] == '&' || OccursAt(rest, StreamKey, |id|))
  {
    var i := FindFrom(ts, StreamKey, 0).value;
    SplitSecond(ts, StreamKey);
    IdOfRest(ts[i + |StreamKey|..]);
  }

  /** The first `&`-piece of the first `stream=`-piece of `rest`. */
  lemma IdOfRest(rest: string)
    ensures var id := Split(Split(rest, StreamKey)[0], "&")[0];
            && StartsWith(rest, id)
            && !Contains(id, "&")
            && (id == rest || rest[|id|] == '&' || OccursAt(rest, StreamKey, |id|))
  {
    var p := Split(rest, StreamKey)[0];
    SplitHead(rest, StreamKey);
    var id := Split(p, "&")[0];
    SplitHead(p, "&");
    SplitPiecesFree(p, "&", 0);
    if id != p {
      assert OccursAt(p, "&", |id|);
      assert rest[|id|] == p[|id|] == '&';
    }
  }

  // ---------------------------------------------------------------------
  // find_channels_for_match

  /** An entry of the IPTV channel list. Ids and numbers are kept as the
      text the server sends; the logo may be missing. */
  datatype IptvChannel = IptvChannel(id: string, name: string, number: string, cmd: string, logo: Option<string>)

  /** The `channel_info` record built for a matching channel. */
  datatype ChannelInfo = ChannelInfo(id: string, name: string, number: string, cmd: string, logo: string)

  function StripAll(pieces: seq<string>): (r: seq<string>)
    ensures |r| == |pieces|
    ensures forall k :: 0 <= k < |pieces| ==> r[k] == Strip(pieces[k])
  {
    seq(|pieces|, k requires 0 <= k < |pieces| => Strip(pieces[k]))
  }

  /** The team names: the stripped pieces of the title split on `Vs`, else
      on `vs`, else on `VS`. */
  function Teams(matchName: string): seq<string> {
    var byVs := StripAll(Split(matchName, "Vs"));
    if |byVs| >= 2 then byVs
    else
      var byLowerVs := StripAll(Split(matchName, "vs"));
      if |byLowerVs| >= 2 then byLowerVs else StripAll(Split(matchName, "VS"))
  }

  /** The first separator the title contains decides the split; with none
      the whole stripped title is the only team. */
  lemma TeamsSeparator(matchName: string)
    ensures Contains(matchName, "Vs") ==> Teams(matchName) == StripAll(Split(matchName, "Vs"))
    ensures !Contains(matchName, "Vs") && Contains(matchName, "vs") ==>
              Teams(matchName) == StripAll(Split(matchName, "vs"))
    ensures !Contains(matchName, "Vs") && !Contains(matchName, "vs") && Contains(matchName, "VS") ==>
              Teams(matchName) == StripAll(Split(matchName, "VS"))
    ensures !Contains(matchName, "Vs") && !Contains(matchName, "vs") && !Contains(matchName, "VS") ==>
              Teams(matchName) == [Strip(matchName)]
  {
    SplitSingle(matchName, "Vs");
    SplitSingle(matchName, "vs");
    SplitSingle(matchName, "VS");
  }

  /** Every non-empty team occurs in the channel name, ignoring case. */
  predicate TeamsIn(teams: seq<string>, channelName: string) {
    forall k :: 0 <= k < |teams| && teams[k] != [] ==> Contains(Lower(channelName), Lower(teams[k]))
  }

  /** The record kept for a matching channel, with its stream URL rewritten. */
  function Info(c: IptvChannel): ChannelInfo {
    ChannelInfo(c.id, c.name, c.number, ConvertToM3u8Url(c.cmd), if c.logo.Some? then c.logo.value else "")
  }

  /** [TeamsIn] on a channel's name, as a function value. */
  function NameHolds(teams: seq<string>): IptvChannel -> bool {
    (c: IptvChannel) => TeamsIn(teams, c.name)
  }

  /** The records of the channels whose name holds every team. */
  function MatchingChannels(teams: seq<string>, channels: seq<IptvChannel>): seq<ChannelInfo> {
    FilterMap(NameHolds(teams), Info, channels)
  }

  /** `find_channels_for_match`. */
  method FindChannelsForMatch(matchName: string, channels: seq<IptvChannel>) returns (matching: seq<ChannelInfo>)
    ensures matching == MatchingChannels(Teams(matchName), channels)
  {
    var teams := StripAll(Split(matchName, "Vs"));
    if |teams| < 2 {
      teams := StripAll(Split(matchName, "vs"));
    }
    if |teams| < 2 {
      teams := StripAll(Split(matchName, "VS"));
    }
    matching := [];
    for n := 0 to |channels|
      invariant matching == MatchingChannels(teams, channels[..n])
    {
      assert channels[..n + 1] == channels[..n] + [channels[n]];
      FilterMapSnoc(NameHolds(teams), Info, channels[..n], channels[n]);
      var channelName := channels[n].name;
      if TeamsIn(teams, channelName) {
        var m3u8Url := ConvertToM3u8Url(channels[n].cmd);
        var logo := if channels[n].logo.Some? then channels[n].logo.value else "";
        matching := matching + [ChannelInfo(channels[n].id, channels[n].name, channels[n].number, m3u8Url, logo)];
      }
    }
    assert channels[..|channels|] == channels;
  }

  /** Matching runs channel by channel, so matches keep the list's order. */
  lemma MatchingChannelsAppend(teams: seq<string>, a: seq<IptvChannel>, b: seq<IptvChannel>)
    ensures MatchingChannels(teams, a + b) == MatchingChannels(teams, a) + MatchingChannels(teams, b)
  {
    FilterMapAppend(NameHolds(teams), Info, a, b);
  }

  /** A record is returned exactly when it comes from a channel whose name
      holds every non-empty team. */
  lemma MatchingChannelsFrom(teams: seq<string>, channels: seq<IptvChannel>)
    ensures forall r :: r in MatchingChannels(teams, channels) <==>
              exists k :: 0 <= k < |channels| && TeamsIn(teams, channels[k].name) && r == Info(channels[k])
  {
    FilterMapFrom(NameHolds(teams), Info, channels);
    assert forall c :: NameHolds(teams)(c) == TeamsIn(teams, c.name);
  }

  /** When every team piece is empty, every channel matches. */
  lemma EmptyTeamsMatchAll(teams: seq<string>, channels: seq<IptvChannel>)
    requires forall k :: 0 <= k < |teams| ==> teams[k] == []
    ensures |MatchingChannels(teams, channels)| == |channels|
    ensures forall k :: 0 <= k < |channels| ==> MatchingChannels(teams, channels)[k] == Info(channels[k])
  {
    FilterMapAll(NameHolds(teams), Info, channels);
    forall k | 0 <= k < |channels|
      ensures MatchingChannels(teams, channels)[k] == Info(channels[k])
    {
      MapIndex(Info, channels, k);
    }
  }

  // ---------------------------------------------------------------------
  // create_safe_filename

  /** The characters `[a-zA-Z0-9_ ]` keeps. */
  predicate IsFilenameChar(c: char) {
    IsAsciiUpper(c) || IsAsciiLower(c) || IsAsciiDigit(c) || c == '_' || c == ' '
  }

  /** `re.sub(r'[^a-zA-Z0-9_ ]', '', s)`. */
  function DropUnsafe(s: string): (r: string)
    ensures |r| <= |s|
    ensures forall k :: 0 <= k < |r| ==> IsFilenameChar(r[k])
  {
    if s == [] then []
    else
      var init := DropUnsafe(s[..|s| - 1]);
      if IsFilenameChar(s[|s| - 1]) then init + [s[|s| - 1]] else init
  }

  /** Characters outside the class are all the function removes. */
  lemma {:induction false} DropUnsafeKeeps(s: string)
    requires forall k :: 0 <= k < |s| ==> IsFilenameChar(s[k])
    ensures DropUnsafe(s) == s
  {
    if s != [] {
      DropUnsafeKeeps(s[..|s| - 1]);
      assert s[..|s| - 1] + [s[|s| - 1]] == s;
    }
  }

  /** `create_safe_filename`. */
  function CreateSafeFilename(name: string): (r: string)
    ensures |r| <= |name|
    ensures forall k :: 0 <= k < |r| ==> IsSafeChar(r[k])
  {
    Lower(ReplaceChar(DropUnsafe(name), ' ', '_'))
  }

  /** A name already made of `[a-z0-9_]` is its own safe name, so the
      function is idempotent. */
  lemma CreateSafeFilenameIdempotent(name: string)
    ensures CreateSafeFilename(CreateSafeFilename(name)) == CreateSafeFilename(name)
    ensures (forall k :: 0 <= k < |name| ==> IsSafeChar(name[k])) ==> CreateSafeFilename(name) == name
  {
    SafeNameFixed(CreateSafeFilename(name));
    SafeNameFixed(name);
  }

  lemma SafeNameFixed(s: string)
    ensures (forall k :: 0 <= k < |s| ==> IsSafeChar(s[k])) ==> CreateSafeFilename(s) == s
  {
    if forall k :: 0 <= k < |s| ==> IsSafeChar(s[k]) {
      DropUnsafeKeeps(s);
    }
  }

  // ---------------------------------------------------------------------
  // generate_m3u8_files

  /** A match with the channels found for it. */
  datatype MatchStreams = MatchStreams(name: string, channels: seq<ChannelInfo>)

  /** The files for one match's channels: one per channel, numbered
      from 1. */
  function NumberedPlaylists(safe: string, channels: seq<ChannelInfo>): (r: seq<Playlist>)
    ensures |r| == |channels|
  {
    seq(|channels|, k requires 0 <= k < |channels| => Playlist(PlaylistPath(safe, k + 1), channels[k].cmd))
  }

  /** The files of one match. */
  function MatchPlaylists(m: MatchStreams): (r: seq<Playlist>)
    ensures |r| == |m.channels|
  {
    NumberedPlaylists(CreateSafeFilename(m.name), m.channels)
  }

  /** Within a match no path is used twice, each file carries its own
      channel's stream, and the first file has no suffix. */
  lemma MatchPlaylistsNames(m: MatchStreams)
    ensures var r := MatchPlaylists(m);
            forall i, j :: 0 <= i < j < |r| ==> r[i].path != r[j].path
    ensures var r := MatchPlaylists(m);
            forall k :: 0 <= k < |r| ==> r[k].url == m.channels[k].cmd
    ensures |m.channels| >= 1 ==>
              MatchPlaylists(m)[0].path == "streams/" + CreateSafeFilename(m.name) + ".m3u8"
  {
    var r := MatchPlaylists(m);
    forall i, j | 0 <= i < j < |r|
      ensures r[i].path != r[j].path
    {
      PlaylistPathInjective(CreateSafeFilename(m.name), i + 1, j + 1);
    }
  }

  /** The number of channels over all matches. */
  function TotalChannels(ms: seq<MatchStreams>): nat {
    if ms == [] then 0 else TotalChannels(ms[..|ms| - 1]) + |ms[|ms| - 1].channels|
  }

  /** The count `generate_m3u8_files` returns is the number of channels. */
  lemma {:induction false} GeneratedCount(ms: seq<MatchStreams>)
    ensures |FlatMap(MatchPlaylists, ms)| == TotalChannels(ms)
  {
    if ms != [] {
      GeneratedCount(ms[..|ms| - 1]);
    }
  }

  /** The body of the match loop of `generate_m3u8_files`: the single-file
      case and the numbered loop. */
  method WriteMatch(safeName: string, channels: seq<ChannelInfo>) returns (written: seq<Playlist>)
    ensures written == NumberedPlaylists(safeName, channels)
  {
    ghost var expected := NumberedPlaylists(safeName, channels);
    if |channels| == 1 {
      var filename := "streams/" + safeName + ".m3u8";
      assert filename == PlaylistPath(safeName, 1);
      written := [Playlist(filename, channels[0].cmd)];
    } else {
      written := [];
      for i := 1 to |channels| + 1
        invariant written == expected[..i - 1]
      {
        var filename := if i == 1 then "streams/" + safeName + ".m3u8"
                        else "streams/" + safeName + "_" + NatToString(i) + ".m3u8";
        assert filename == PlaylistPath(safeName, i);
        assert expected[..i] == expected[..i - 1] + [Playlist(filename, channels[i - 1].cmd)];
        written := written + [Playlist(filename, channels[i - 1].cmd)];
      }
      assert expected[..|channels|] == expected;
    }
  }

  /** `generate_m3u8_files`: the files written, in order, and
      `files_created`. */
  method GenerateM3u8Files(ms: seq<MatchStreams>) returns (files: seq<Playlist>, filesCreated: nat)
    ensures files == FlatMap(MatchPlaylists, ms)
    ensures filesCreated == |files|
  {
    files, filesCreated := [], 0;
    for n := 0 to |ms|
      invariant files == FlatMap(MatchPlaylists, ms[..n])
      invariant filesCreated == |files|
    {
      var safeName := CreateSafeFilename(ms[n].name);
      var written := WriteMatch(safeName, ms[n].channels);
      files := files + written;
      filesCreated := filesCreated + |written|;
      assert ms[..n + 1] == ms[..n] + [ms[n]];
      FlatMapSnoc(MatchPlaylists, ms[..n], ms[n]);
    }
    assert ms[..|ms|] == ms;
  }
}
