/** The matching, de-duplication and naming logic of `process_and_generate`
    in merge.py: pairing each event of the primary feed with the best-named
    block of the trial feed, and turning that block's channels into
    numbered playlist files. Fetching the feeds, reading the whitelist and
    writing the files are left to the caller: the feeds and the whitelist
    are parameters and the files come back as values. */
module MergeDriver {
  import opened Wrappers
  import opened Strings
  import opened Externals
  import opened Lists
  import opened MergeUrls
  import opened Resolver
  import opened FeedParse
  import opened ChannelFilter
  import opened Playlists

  /** Events whose best title score is below this are skipped. */
  const Threshold: real := 80.0

  // ---------------------------------------------------------------------
  // The trial map `{extract_title(b): b for b in trial_blocks}`

  function Titles(blocks: seq<string>): (r: seq<string>)
    ensures |r| == |blocks|
    ensures forall k :: 0 <= k < |blocks| ==> r[k] == ExtractTitle(blocks[k])
  {
    seq(|blocks|, k requires 0 <= k < |blocks| => ExtractTitle(blocks[k]))
  }

  /** The keys of the trial map, in the order a dict keeps them: first
      insertion. */
  function TrialTitles(blocks: seq<string>): seq<string> {
    AppendNew([], Titles(blocks))
  }

  /** The trial map: each title to the last block carrying it. */
  function TrialMap(blocks: seq<string>): (m: map<string, string>)
    ensures forall t :: t in m <==> t in Titles(blocks)
  {
    if blocks == [] then map[]
    else
      var init := blocks[..|blocks| - 1];
      var b := blocks[|blocks| - 1];
      assert Titles(blocks) == Titles(init) + [ExtractTitle(b)];
      TrialMap(init)[ExtractTitle(b) := b]
  }

  /** Every key is in the map, once. */
  lemma TrialTitlesAreKeys(blocks: seq<string>)
    ensures forall t :: t in TrialTitles(blocks) <==> t in TrialMap(blocks)
    ensures forall i, j :: 0 <= i < j < |TrialTitles(blocks)| ==> TrialTitles(blocks)[i] != TrialTitles(blocks)[j]
  {
  }

  /** When two trial blocks share a title, the later one is kept. */
  lemma {:induction false} TrialMapLastWins(blocks: seq<string>, j: nat)
    requires j < |blocks|
    requires forall i :: j < i < |blocks| ==> ExtractTitle(blocks[i]) != ExtractTitle(blocks[j])
    ensures ExtractTitle(blocks[j]) in TrialMap(blocks)
    ensures TrialMap(blocks)[ExtractTitle(blocks[j])] == blocks[j]
  {
    if j < |blocks| - 1 {
      var init := blocks[..|blocks| - 1];
      TrialMapLastWins(init, j);
    }
  }

  /** Every value of the map is a trial block carrying its key as title. */
  lemma {:induction false} TrialMapValues(blocks: seq<string>)
    ensures forall t :: t in TrialMap(blocks) ==> TrialMap(blocks)[t] in blocks && ExtractTitle(TrialMap(blocks)[t]) == t
  {
    if blocks != [] {
      TrialMapValues(blocks[..|blocks| - 1]);
    }
  }

  // ---------------------------------------------------------------------
  // Best-title selection

  /** `fuzz.ratio(title.lower(), candidate.lower())`. */
  function Score(title: string, candidate: string, env: Env): real {
    env.ratio(Lower(title), Lower(candidate))
  }

  /** The state of the selection loop: the index of `best_title` among the
      keys, if any, and `best_score`. */
  datatype Choice = Choice(index: Option<nat>, score: real)

  /** The selection loop over `keys`: the first key with the strictly
      greatest score, and that score; no key and score 0 when every score
      is 0. */
  function Best(title: string, keys: seq<string>, env: Env): (r: Choice)
    ensures 0.0 <= r.score
    ensures forall k :: 0 <= k < |keys| ==> Score(title, keys[k], env) <= r.score
    ensures r.index.None? ==> r.score == 0.0
    ensures r.index.Some? ==> && r.index.value < |keys|
                              && Score(title, keys[r.index.value], env) == r.score
                              && r.score > 0.0
                              && forall k :: 0 <= k < r.index.value ==> Score(title, keys[k], env) < r.score
  {
    if keys == [] then Choice(None, 0.0)
    else
      var c := Best(title, keys[..|keys| - 1], env);
      var s := Score(title, keys[|keys| - 1], env);
      if s > c.score then Choice(Some(|keys| - 1), s) else c
  }

  /** The `best_title` / `best_score` loop. */
  method BestTitle(title: string, keys: seq<string>, env: Env) returns (bestTitle: Option<string>, bestScore: real)
    ensures bestScore == Best(title, keys, env).score
    ensures bestTitle == if Best(title, keys, env).index.Some? then Some(keys[Best(title, keys, env).index.value]) else None
  {
    bestTitle, bestScore := None, 0.0;
    for n := 0 to |keys|
      invariant bestScore == Best(title, keys[..n], env).score
      invariant bestTitle == if Best(title, keys[..n], env).index.Some? then Some(keys[Best(title, keys[..n], env).index.value]) else None
    {
      assert keys[..n + 1][..n] == keys[..n];
      var score := env.ratio(Lower(title), Lower(keys[n]));
      if score > bestScore {
        bestTitle, bestScore := Some(keys[n]), score;
      }
    }
    assert keys[..|keys|] == keys;
  }

  // ---------------------------------------------------------------------
  // One event's playlists

  /** The URL written for one link: stripped, resolved again when it is
      not a manifest but mentions `http`, then slash-normalised. */
  function DirectUrl(link: string, env: Env): string {
    var direct := Strip(link);
    var resolved :=
      if !Contains(direct, ".m3u8") && Contains(direct, "http") then StreamUrl(direct, env.fetch(direct), env)
      else direct;
    CollapseProtocolSlashes(resolved)
  }

  /** [DirectUrl] as a function value, so that sequences of resolved URLs
      can be reasoned about without unfolding the resolution. */
  function Resolution(env: Env): string -> string {
    link => DirectUrl(link, env)
  }

  function DirectUrls(links: seq<string>, env: Env): (r: seq<string>)
    ensures |r| == |links|
  {
    Map(Resolution(env), links)
  }

  lemma DirectUrlsSnoc(links: seq<string>, link: string, env: Env)
    ensures DirectUrls(links + [link], env) == DirectUrls(links, env) + [DirectUrl(link, env)]
  {
    MapSnoc(Resolution(env), links, link);
  }

  /** The links of the channels, channel by channel. */
  function EventLinks(channels: seq<Channel>): seq<string> {
    if channels == [] then []
    else EventLinks(channels[..|channels| - 1]) + channels[|channels| - 1].links
  }

  lemma EventLinksSnoc(channels: seq<Channel>, n: nat)
    requires n < |channels|
    ensures EventLinks(channels[..n + 1]) == EventLinks(channels[..n]) + channels[n].links
  {
    assert channels[..n + 1][..n] == channels[..n];
  }

  /** The files of one event: one per distinct URL, in first-seen order,
      numbered from 1. */
  function EventPlaylists(safe: string, urls: seq<string>): (r: seq<Playlist>)
    ensures |r| == |AppendNew([], urls)|
    ensures forall k :: 0 <= k < |r| ==> r[k] == Playlist(PlaylistPath(safe, k + 1), AppendNew([], urls)[k])
  {
    var d := AppendNew([], urls);
    seq(|d|, k requires 0 <= k < |d| => Playlist(PlaylistPath(safe, k + 1), d[k]))
  }

  /** Within one event no URL is written twice, no path is used twice, and
      every link's URL is written. */
  lemma EventPlaylistsDistinct(safe: string, urls: seq<string>)
    ensures var r := EventPlaylists(safe, urls);
            forall i, j :: 0 <= i < j < |r| ==> r[i].url != r[j].url && r[i].path != r[j].path
    ensures forall u :: u in urls <==> exists k :: 0 <= k < |EventPlaylists(safe, urls)| && EventPlaylists(safe, urls)[k].url == u
  {
    var r := EventPlaylists(safe, urls);
    var d := AppendNew([], urls);
    forall i, j | 0 <= i < j < |r|
      ensures r[i].url != r[j].url && r[i].path != r[j].path
    {
      PlaylistPathInjective(safe, i + 1, j + 1);
    }
    forall u | u in urls
      ensures exists k :: 0 <= k < |r| && r[k].url == u
    {
      var k :| 0 <= k < |d| && d[k] == u;
      assert r[k].url == u;
    }
  }

  /** Files are only ever added: the files for the first `n` links are a
      prefix of the event's files, so streams are numbered in the order
      their URLs first appear. */
  lemma EventPlaylistsPrefix(safe: string, urls: seq<string>, n: nat)
    requires n <= |urls|
    ensures EventPlaylists(safe, urls[..n]) <= EventPlaylists(safe, urls)
  {
    AppendNewPrefix([], urls, n);
  }

  /** What the loop of one event keeps: the files so far are the playlists
      of the URLs met so far, `written_urls` holds exactly their URLs and
      `stream_index` is the next number. */
  ghost predicate EventState(safe: string, urls: seq<string>, files: seq<Playlist>, written: set<string>, streamIndex: nat) {
    && files == EventPlaylists(safe, urls)
    && (forall u :: u in written <==> u in AppendNew([], urls))
    && streamIndex == |files| + 1
  }

  lemma EventStep(safe: string, urls: seq<string>, files: seq<Playlist>, written: set<string>, streamIndex: nat, direct: string)
    requires EventState(safe, urls, files, written, streamIndex)
    ensures direct in written ==> EventState(safe, urls + [direct], files, written, streamIndex)
    ensures direct !in written ==>
              EventState(safe, urls + [direct], files + [Playlist(PlaylistPath(safe, streamIndex), direct)],
                         written + {direct}, streamIndex + 1)
  {
    assert (urls + [direct])[..|urls|] == urls;
    var d := AppendNew([], urls);
    if direct !in written {
      assert AppendNew([], urls + [direct]) == d + [direct];
      var files' := files + [Playlist(PlaylistPath(safe, streamIndex), direct)];
      assert files' == EventPlaylists(safe, urls + [direct]);
    }
  }

  /** The URL `process_and_generate` writes for one link. */
  method ResolveLink(link: string, env: Env) returns (direct: string)
    ensures direct == DirectUrl(link, env)
  {
    direct := Strip(link);
    if !Contains(direct, ".m3u8") && Contains(direct, "http") {
      direct := ExtractDirectStreamUrl(direct, env.fetch(direct), env);
    }
    direct := CollapseProtocolSlashes(direct);
  }

  /** One link of the event loop: write its URL unless it was written
      already. */
  method EmitLink(safe: string, direct: string, ghost urls: seq<string>,
                  files: seq<Playlist>, written: set<string>, streamIndex: nat)
    returns (files': seq<Playlist>, written': set<string>, streamIndex': nat)
    requires EventState(safe, urls, files, written, streamIndex)
    ensures EventState(safe, urls + [direct], files', written', streamIndex')
  {
    EventStep(safe, urls, files, written, streamIndex, direct);
    if direct in written {
      return files, written, streamIndex;
    }
    var fname := if streamIndex == 1 then "streams/" + safe + ".m3u8"
                 else "streams/" + safe + "_" + NatToString(streamIndex) + ".m3u8";
    assert fname == PlaylistPath(safe, streamIndex);
    files' := files + [Playlist(fname, direct)];
    written' := written + {direct};
    streamIndex' := streamIndex + 1;
  }

  /** The inner loop of `process_and_generate`, over the links of one
      channel. */
  method EmitChannel(safe: string, links: seq<string>, env: Env, ghost urls: seq<string>,
                     files: seq<Playlist>, written: set<string>, streamIndex: nat)
    returns (files': seq<Playlist>, written': set<string>, streamIndex': nat)
    requires EventState(safe, urls, files, written, streamIndex)
    ensures EventState(safe, urls + DirectUrls(links, env), files', written', streamIndex')
  {
    files', written', streamIndex' := files, written, streamIndex;
    ghost var done := urls;
    assert urls + DirectUrls(links[..0], env) == urls;
    for m := 0 to |links|
      invariant done == urls + DirectUrls(links[..m], env)
      invariant EventState(safe, done, files', written', streamIndex')
    {
      assert links[..m + 1] == links[..m] + [links[m]];
      DirectUrlsSnoc(links[..m], links[m], env);
      var direct := ResolveLink(links[m], env);
      files', written', streamIndex' := EmitLink(safe, direct, done, files', written', streamIndex');
      done := done + [direct];
    }
    assert links[..|links|] == links;
  }

  /** The link loops of `process_and_generate` for one event. */
  method EmitEvent(safe: string, channels: seq<Channel>, env: Env) returns (files: seq<Playlist>)
    ensures files == EventPlaylists(safe, DirectUrls(EventLinks(channels), env))
  {
    files := [];
    var streamIndex := 1;
    var written: set<string> := {};
    for n := 0 to |channels|
      invariant EventState(safe, DirectUrls(EventLinks(channels[..n]), env), files, written, streamIndex)
    {
      EventLinksSnoc(channels, n);
      MapAppend(Resolution(env), EventLinks(channels[..n]), channels[n].links);
      files, written, streamIndex := EmitChannel(safe, channels[n].links, env, DirectUrls(EventLinks(channels[..n]), env),
                                                 files, written, streamIndex);
    }
    assert channels[..|channels|] == channels;
  }

  // ---------------------------------------------------------------------
  // The whole run

  /** The trial block paired with a primary-feed title: the map entry of
      the best key, if its score reaches the threshold. The key is always
      in the map when the keys are the map's own (see [TrialTitlesAreKeys]). */
  function PairedBlock(title: string, keys: seq<string>, trial: map<string, string>, env: Env): (r: Option<string>) {
    var best := Best(title, keys, env);
    if best.score < Threshold then None
    else if keys[best.index.value] in trial then Some(trial[keys[best.index.value]])
    else None
  }

  /** For the trial feed's own keys and map, a pairing is made exactly when
      the best score reaches 80; it uses the first key of greatest score,
      and the block is the last trial block with that title. */
  lemma PairedBlockScore(title: string, trialBlocks: seq<string>, env: Env)
    ensures var keys := TrialTitles(trialBlocks);
            PairedBlock(title, keys, TrialMap(trialBlocks), env).Some? <==> Best(title, keys, env).score >= Threshold
    ensures var keys := TrialTitles(trialBlocks);
            var paired := PairedBlock(title, keys, TrialMap(trialBlocks), env);
            paired.Some? ==>
              exists i :: && 0 <= i < |keys|
                          && Score(title, keys[i], env) >= Threshold
                          && (forall k :: 0 <= k < |keys| ==> Score(title, keys[k], env) <= Score(title, keys[i], env))
                          && (forall k :: 0 <= k < i ==> Score(title, keys[k], env) < Score(title, keys[i], env))
                          && paired.value in trialBlocks
                          && ExtractTitle(paired.value) == keys[i]
  {
    var keys := TrialTitles(trialBlocks);
    TrialMapValues(trialBlocks);
    TrialTitlesAreKeys(trialBlocks);
    if Best(title, keys, env).score >= Threshold {
      var i := Best(title, keys, env).index.value;
      assert keys[i] in TrialMap(trialBlocks);
      assert PairedBlock(title, keys, TrialMap(trialBlocks), env).value == TrialMap(trialBlocks)[keys[i]];
    }
  }

  /** The files written for one block of the primary feed. */
  function BlockPlaylists(block: string, keys: seq<string>, trial: map<string, string>,
                          whitelist: set<string>, env: Env): seq<Playlist> {
    var title := ExtractTitle(block);
    if title == [] then []
    else match PairedBlock(title, keys, trial, env)
      case None => []
      case Some(paired) =>
        var channels := FilteredChannels(ChannelLines(paired), whitelist, Converter(env));
        if channels == [] then []
        else EventPlaylists(SafeFilename(title), DirectUrls(EventLinks(channels), env))
  }

  /** [BlockPlaylists] as a function value. */
  function Pairing(keys: seq<string>, trial: map<string, string>, whitelist: set<string>, env: Env): string -> seq<Playlist> {
    block => BlockPlaylists(block, keys, trial, whitelist, env)
  }

  /** The files `process_and_generate` writes, in order, for the two feeds. */
  function GeneratedPlaylists(lyfeText: string, trialText: string, whitelist: set<string>, env: Env): seq<Playlist> {
    var trialBlocks := MatchBlocks(trialText);
    FlatMap(Pairing(TrialTitles(trialBlocks), TrialMap(trialBlocks), whitelist, env), MatchBlocks(lyfeText))
  }

  /** The body of the event loop of `process_and_generate` for one block
      of the primary feed. */
  method ProcessBlock(block: string, keys: seq<string>, trial: map<string, string>,
                      whitelist: set<string>, env: Env) returns (eventFiles: seq<Playlist>)
    requires forall k :: 0 <= k < |keys| ==> keys[k] in trial
    ensures eventFiles == Pairing(keys, trial, whitelist, env)(block)
  {
    assert Pairing(keys, trial, whitelist, env)(block) == BlockPlaylists(block, keys, trial, whitelist, env);
    var title := ExtractTitle(block);
    if title == [] {
      return [];
    }
    var bestTitle, bestScore := BestTitle(title, keys, env);
    if bestScore < Threshold {
      return [];
    }
    var paired := trial[bestTitle.value];
    assert PairedBlock(title, keys, trial, env) == Some(paired);
    var lines := ExtractChannels(paired);
    forall k | 0 <= k < |lines|
      ensures NoNewline(lines[k])
    {
      ChannelLinesShape(paired, k);
      assert forall j :: 0 <= j < |lines[k]| ==> !IsLineBreak(lines[k][j]);
    }
    var channels := FilterChannels(lines, whitelist, env);
    if channels == [] {
      return [];
    }
    var safeName := SafeFilename(title);
    eventFiles := EmitEvent(safeName, channels, env);
  }

  /** The event loop of `process_and_generate` over the blocks of the
      primary feed. */
  method RunEvents(lyfeBlocks: seq<string>, keys: seq<string>, trial: map<string, string>,
                   whitelist: set<string>, env: Env)
    returns (files: seq<Playlist>, totalFiles: nat)
    requires forall k :: 0 <= k < |keys| ==> keys[k] in trial
    ensures files == FlatMap(Pairing(keys, trial, whitelist, env), lyfeBlocks)
    ensures totalFiles == |files|
  {
    ghost var pairing := Pairing(keys, trial, whitelist, env);
    files, totalFiles := [], 0;
    for i := 0 to |lyfeBlocks|
      invariant files == FlatMap(pairing, lyfeBlocks[..i])
      invariant totalFiles == |files|
    {
      var eventFiles := ProcessBlock(lyfeBlocks[i], keys, trial, whitelist, env);
      assert lyfeBlocks[..i + 1] == lyfeBlocks[..i] + [lyfeBlocks[i]];
      FlatMapSnoc(pairing, lyfeBlocks[..i], lyfeBlocks[i]);
      files := files + eventFiles;
      totalFiles := totalFiles + |eventFiles|;
    }
    assert lyfeBlocks[..|lyfeBlocks|] == lyfeBlocks;
  }

  /** `process_and_generate` after the fetches: the files written and
      `total_files`. */
  method ProcessAndGenerate(lyfeText: string, trialText: string, whitelist: set<string>, env: Env)
    returns (files: seq<Playlist>, totalFiles: nat)
    ensures files == GeneratedPlaylists(lyfeText, trialText, whitelist, env)
    ensures totalFiles == |files|
  {
    var lyfeBlocks := SplitMatches(lyfeText);
    var trialBlocks := SplitMatches(trialText);
    var keys := TrialTitles(trialBlocks);
    var trialMap := TrialMap(trialBlocks);
    TrialTitlesAreKeys(trialBlocks);
    files, totalFiles := RunEvents(lyfeBlocks, keys, trialMap, whitelist, env);
  }
}
