# Match-stream playlist scripts, modelled in Dafny

The repository is a set of Python scripts. They collect football match
listings and turn the channels carrying each match into `.m3u8` playlist
files under `streams/`. This project models the text processing at the core
of four of them:

- **merge.py** takes two match feeds, each a text of "🏟️ Match:" blocks with
  a "📺 Channels:" section. It splits both feeds into blocks, pairs each block
  of the first feed with the closest title in the second (fuzzy ratio of at
  least 80) and keeps the second feed's channels whose language is
  whitelisted. It resolves every channel link to a direct stream URL, scraping
  the embed page for arrays of characters, `atob` literals, `innerHTML` spans
  and plain URLs. It then writes one playlist per distinct URL.
- **generate_m3u8.py** parses match names from a feed and finds the IPTV
  channels whose names contain both team names. It rewrites each channel's
  stream URL into the portal's `.m3u8` form and writes numbered playlists.
- **hoofoot_auto.py** lists the matches on a hoofoot page: each match has a
  title, an absolute URL and an image, and each URL is listed once. It also
  digs the HLS manifest out of an embed page.
- **main.py** attaches a start time to every match of a JSON listing. The
  start time comes from a seconds or milliseconds timestamp, else from the
  text time. It sorts the matches with untimed ones last and prints each
  channel as a `LANG | name: links` line.

Regular expressions become hand-written scanners. A generic `Lists.Leftmost`
finds the first position at or after a start where a predicate holds. Each
scanner is proved to take the match at that leftmost position, and to find
nothing exactly when no position matches. A `findall`/`finditer` scanner then
resumes after the match.
Library routines are function values in the `Externals.Env` record:
`urljoin`, `urlparse` origin, `html.unescape`, base64 decoding and
`fuzz.ratio`. So is the network (`fetch`).

Modules:

- `Wrappers`, `Strings` and `Lists` hold shared definitions.
- `MergeUrls`, `MergeArrays`, `Resolver`, `FeedParse`, `ChannelFilter` and
  `MergeDriver` model merge.py.
- `Playlists` models the file names and texts both generators use.
- `Generate` models generate_m3u8.py.
- `Hoofoot` models hoofoot_auto.py.
- `Listing` models main.py.

Each loop of the scripts is a method. It is proved equal to a specification
function, and the properties are proved as lemmas about that function.

## Model

| member | source | states |
|---|---|---|
| MergeUrls.CollapseTwoSlashes | merge.py:30-32 | an `http:`/`https:` prefix followed by any number of slashes comes out with exactly two slashes and the rest unchanged |
| MergeUrls.CollapseOtherUnchanged | merge.py:30-32 | a string that does not start with `http:` or `https:` is returned unchanged |
| MergeUrls.CollapseAddsMissingSlashes | merge.py:30-32 | `https:host` gains the missing `//` |
| MergeUrls.CollapseIdempotent | merge.py:30-32 | collapsing twice is the same as collapsing once |
| MergeUrls.FindUrlsInText | merge.py:82-83 | the list is empty exactly when the URL pattern matches at no position; otherwise its head is the whole run at the leftmost matching position and the rest is found after that run; every URL starts with `http://` or `https://` and contains no whitespace, quote or `>` |
| MergeUrls.FindUrlsLeftmost | merge.py:82-83 | from any start, the scan yields nothing when no later position matches, else the leftmost match followed by the scan resumed at its end |
| MergeUrls.FirstM3u8Url | merge.py:168-171 | the step-4 fallback is None exactly when no position starts a URL run holding `.m3u8` after at least one character past the scheme; otherwise it is the whole run at the leftmost such position, a scanned URL containing `.m3u8` |
| MergeUrls.FirstM3u8Leftmost | merge.py:168-171 | from any start, the manifest search is None when no later position matches, else the run at the leftmost matching position |
| MergeUrls.SafeFilename | merge.py:294-295 | the result is no longer than the name and holds only lower-case ASCII letters, digits and `_` |
| MergeUrls.SafeFilenameIdempotent | merge.py:294-295 | sanitising a sanitised name changes nothing |
| MergeUrls.SafeFilenameOfWord | merge.py:294-295 | a name made only of word characters is just lower-cased |
| MergeArrays.MatchingBracket | merge.py:44-59 | the bracket-depth loop stops at the first position where the depth returns to zero, and that position holds `]` |
| MergeArrays.ExtractArraysFromText | merge.py:34-67 | the method returns exactly the literals of the `ArrayLiterals` specification, balanced ones after `return [` first, then short quoted-item arrays |
| Lists.AppendNewPrefix | merge.py:63-65 | the `if x not in acc: acc.append(x)` dedup only ever appends: its result after the first n items is a prefix of the final one, so kept values stay in first-seen order (also the order of the trial keys and of an event's URLs) |
| MergeArrays.ArrayLiteralsBracketed | merge.py:34-67 | every extracted literal starts with `[` and ends with `]` |
| MergeArrays.QuotedItemsOfItems | merge.py:74-76 | the quoted-item scan of a comma-separated list of quoted strings yields those strings, in order |
| MergeArrays.JoinArrayCharsOfLiteral | merge.py:69-80 | decoding an array literal built from items recovers the items, and the joined text is their concatenation with `\/` unescaped and HTML entities decoded |
| Resolver.QuotedArgsLeftmost | merge.py:124-125 | the `atob` and `getElementById` scans yield nothing when no later position matches, else the argument of the leftmost match followed by the scan resumed after that match |
| Resolver.SpanSearchLeftmost | merge.py:150-151 | the span search is None when no position matches, else the body of the span at the leftmost matching position |
| Resolver.ArrayStep | merge.py:105-122 | the array pass returns the first decoded array containing `.m3u8`; when there is none, it has collected every decoded array URL in order |
| Resolver.AtobStep | merge.py:124-145 | the same for `atob` literals: it returns the first decoded or joined URL containing `.m3u8`, else it collects all of them |
| Resolver.SpanStep | merge.py:147-166 | the same for `innerHTML` span contents |
| Resolver.SpanProtocolRelativeJoined | merge.py:156-159 | span text starting with `//` is joined against the page origin, because the `/` test comes before the `//` test |
| Resolver.Fallback | merge.py:168-198 | steps 4 to 6 return what `FallbackUrl` specifies |
| Resolver.ExtractDirectStreamUrl | merge.py:85-202 | the whole extractor returns `StreamUrl`: the embed URL when the fetch fails, else the page's stream URL |
| Resolver.FirstManifestCandidateWins | merge.py:105-166 | when a collected candidate contains `.m3u8`, the first such candidate across the three passes is the result |
| Resolver.ManifestPreferred | merge.py:105-171 | a page holding a `.m3u8` candidate, or a position where the `.m3u8` URL pattern matches, yields a result containing `.m3u8` |
| Resolver.ResultProvenance | merge.py:85-202 | the result is the embed URL, a collected candidate, or a URL that occurs in the page text |
| Resolver.NothingFoundGivesEmbedUrl | merge.py:168-198 | with no candidates and no position of the page where the URL pattern matches, the embed URL is returned |
| Resolver.FirstIdDigits | merge.py:250-251 | the `id=(\d+)` search is None exactly when no `id=` is followed by a digit; otherwise it is the whole digit run, ending at the end of the text or at a non-digit, after the leftmost `id=` followed by a digit |
| Resolver.FirstIdDigitsLeftmost | merge.py:250-251 | when some `id=` is followed by a digit, the search finds the maximal digit run after the leftmost one, and no earlier position matches |
| Resolver.ConvertUrlManifest | merge.py:245-248 | a link containing `.m3u8` converts to itself, stripped, and converting is then idempotent |
| Resolver.ConvertUrlEmbed | merge.py:250-255 | a stripped link without `.m3u8` in which some `id=` is followed by a digit is resolved through the `embed3.php?…live=do<digits>` page, where the digits are the whole digit run after the leftmost such `id=` |
| FeedParse.SplitMatches | merge.py:209-220 | the block-splitting loop computes `MatchBlocks` |
| FeedParse.BlocksKeepLines | merge.py:209-220 | joining the blocks gives back the feed's lines: no line is lost or reordered |
| FeedParse.NoBlocksIffEmpty | merge.py:209-220 | there are no blocks exactly when the feed is empty |
| FeedParse.BlocksStartWithMatchLine | merge.py:211-215 | every block after the first begins with a whole line, free of line breaks, whose stripped form starts with the match marker: the block is that line, or that line, a `\n` and the rest |
| FeedParse.ExtractTitle | merge.py:222-224 | the title has no surrounding whitespace |
| FeedParse.TitleOfBlock | merge.py:222-224 | a block starting with the marker and a one-line title yields that title |
| FeedParse.ExtractChannels | merge.py:226-237 | the channel-collecting loop computes `ChannelLines` |
| FeedParse.ChannelLinesShape | merge.py:226-237 | every collected line is stripped and non-empty |
| FeedParse.NoHeaderNoChannels | merge.py:226-237 | a block with no "📺 Channels:" line yields no channels |
| FeedParse.ChannelScanSkipsPrefix | merge.py:230-232 | everything before the first header is ignored |
| FeedParse.ChannelScanStops | merge.py:233-235 | collection stops at the first blank line after the header |
| ChannelFilter.ParseChannelLine | merge.py:273 | a parsed line has a two-letter upper-case language and non-empty name and links |
| ChannelFilter.ParseChannelLineRoundTrip | merge.py:273 | for an upper-case two-letter language, a name with no colon, newline or leading space, and links with no newline and not starting with a space, printing the channel as language, bar, name, colon and links and parsing it gives the three parts back |
| ChannelFilter.UnknownLanguageRejected | merge.py:273 | a line whose language is `??` is not a channel |
| ChannelFilter.ValidLinks | merge.py:279-289 | the link loop keeps the converted form of each `ch?id=` or `http` segment whose conversion is non-empty, in order |
| ChannelFilter.DirectLinksFrom | merge.py:279-291 | a channel has links left exactly when some segment is a candidate that converts to a non-empty URL |
| ChannelFilter.FilterChannels | merge.py:266-292 | the filtering loop computes `FilteredChannels` |
| ChannelFilter.FilteredChannelsFrom | merge.py:266-292 | a channel is in the result exactly when some input line parses, is whitelisted and keeps a link |
| ChannelFilter.FilteredChannelsAppend | merge.py:266-292 | filtering distributes over concatenation, so order is kept |
| ChannelFilter.ChannelEntrySurvives | merge.py:273-291 | a line yields an entry exactly when it parses, its language is whitelisted and its resolved links are non-empty; the entry is the parsed language and name with those links |
| ChannelFilter.LineSurvives | merge.py:273-291 | a parsed line survives exactly when its language is whitelisted and some segment is a `ch?id=` or `http` candidate that converts to a non-empty URL |
| Playlists.PlaylistPathInjective | merge.py:365-368 | different stream indices give different playlist paths |
| MergeDriver.TrialMap | merge.py:315 | the title map's keys are exactly the titles of the second feed's blocks |
| MergeDriver.TrialTitlesAreKeys | merge.py:315 | the key order used for pairing lists every key once |
| MergeDriver.TrialMapLastWins | merge.py:315 | when titles repeat, the map holds the last block with that title |
| MergeDriver.TrialMapValues | merge.py:315 | every value is a block of the second feed whose title is its key |
| MergeDriver.Best | merge.py:328-332 | the best score bounds every key's score; a chosen key attains it, and no earlier key does (strict `>`) |
| MergeDriver.BestTitle | merge.py:328-332 | the scoring loop computes `Best` |
| MergeDriver.PairedBlockScore | merge.py:328-338 | a block is paired exactly when the best score reaches 80, and the pair is the best-scoring key's block |
| MergeDriver.ResolveLink | merge.py:351-357 | each link is stripped, re-resolved when it is not yet `.m3u8` but contains `http`, and then has its protocol slashes collapsed |
| MergeDriver.DirectUrlsSnoc | merge.py:351-357 | resolving links one by one appends one URL per link |
| MergeDriver.EventStep | merge.py:359-373 | a URL already written is skipped; a new one is written under the next index |
| MergeDriver.EmitLink | merge.py:351-373 | the per-link step keeps the event invariant: the files written so far are `EventPlaylists` of the URLs seen |
| MergeDriver.EmitChannel | merge.py:350-373 | a channel's links extend the URLs seen, in order |
| MergeDriver.EmitEvent | merge.py:346-373 | an event writes exactly `EventPlaylists` of its resolved links |
| MergeDriver.EventPlaylistsDistinct | merge.py:346-373 | an event's playlists have pairwise distinct URLs and paths and cover every resolved URL |
| MergeDriver.EventPlaylistsPrefix | merge.py:349-373 | the files written for an event's first n links are a prefix of all its files, so stream numbers follow the order in which URLs first appear |
| MergeDriver.ProcessBlock | merge.py:322-373 | one block of the first feed yields the files of its pairing |
| MergeDriver.RunEvents | merge.py:321-377 | the event loop writes the blocks' files in order and counts them |
| MergeDriver.ProcessAndGenerate | merge.py:306-379 | the whole run writes `GeneratedPlaylists` of the two feeds and reports their number |
| Generate.MarkerTitle | generate_m3u8.py:32 | a marker line has a title exactly when it contains `Match: `; the title is stripped |
| Generate.ScanLine | generate_m3u8.py:24-32 | one loop iteration performs `ScanStep` |
| Generate.ParseMatches | generate_m3u8.py:19-37 | the parsing loop computes `ParsedMatches` |
| Generate.ScanMatchesTitles | generate_m3u8.py:19-37 | the loop's result is the list of non-empty marker titles in order, or the `IndexError` it raises |
| Generate.ParsedMatchesTitles | generate_m3u8.py:19-37 | parsed match names are non-empty and stripped |
| Generate.ScanMatchesErrSticky | generate_m3u8.py:24-32 | once a line raises, the whole parse raises |
| Generate.BareMarkerFails | generate_m3u8.py:29-32 | a line holding only the marker raises `IndexError`, because the stripped line has no `Match: ` |
| Generate.ConvertToM3u8Url | generate_m3u8.py:79-85 | a URL without `stream=` is returned unchanged |
| Generate.StreamIdShape | generate_m3u8.py:81-83 | a URL with `stream=` becomes the template around the text between the first `stream=` and the next `&` or `stream=` |
| Generate.TeamsSeparator | generate_m3u8.py:91-96 | the teams are the stripped pieces split on the first of `Vs`, `vs`, `VS` that occurs, else the whole name |
| Generate.FindChannelsForMatch | generate_m3u8.py:87-114 | the channel loop computes `MatchingChannels` |
| Generate.MatchingChannelsFrom | generate_m3u8.py:98-114 | a record is in the result exactly when some channel's name contains every non-empty team, ignoring case, and the record is that channel with its converted URL |
| Generate.MatchingChannelsAppend | generate_m3u8.py:98-114 | matching distributes over concatenation, so channel order is kept |
| Generate.EmptyTeamsMatchAll | generate_m3u8.py:102 | when every team is empty, every channel matches |
| Generate.DropUnsafeKeeps | generate_m3u8.py:118 | a name of letters, digits, `_` and spaces is kept whole |
| Generate.CreateSafeFilename | generate_m3u8.py:116-120 | the result is no longer than the name and holds only lower-case ASCII letters, digits and `_` |
| Generate.CreateSafeFilenameIdempotent | generate_m3u8.py:116-120 | sanitising twice is sanitising once, and a safe name is unchanged |
| Generate.SafeNameFixed | generate_m3u8.py:116-120 | a name of safe characters is its own file name |
| Generate.MatchPlaylistsNames | generate_m3u8.py:142-158 | within a match, paths are distinct, file k carries channel k's URL, and the first file has no suffix |
| Generate.WriteMatch | generate_m3u8.py:142-158 | one match writes its numbered playlists, one per channel |
| Generate.GeneratedCount | generate_m3u8.py:132-160 | the count returned is the total number of channels |
| Generate.GenerateM3u8Files | generate_m3u8.py:132-160 | the loop writes every match's playlists in order and returns their number |
| Hoofoot.HlsAt | hoofoot_auto.py:77-82 | a `src`/`backupSrc : { hls : '//…' }` match captures a `//` URL of at least one more character, with no quote in it |
| Hoofoot.FirstHls | hoofoot_auto.py:77-82 | the search returns the leftmost matching position; none earlier matches |
| Hoofoot.ManifestAt | hoofoot_auto.py:83-84 | a manifest match contains `.m3u8` and starts with `//`, `http://` or `https://` |
| Hoofoot.FirstManifest | hoofoot_auto.py:83-84 | the search returns the leftmost manifest match |
| Hoofoot.ExtractM3u8FromEmbed | hoofoot_auto.py:76-89 | a found URL is absolute, starting with `https://` or `http://` |
| Hoofoot.SrcWins | hoofoot_auto.py:77-79 | when the `src` pattern matches, its first match, prefixed by `https:`, is the result |
| Hoofoot.BackupSrcNext | hoofoot_auto.py:80-82 | with no `src` match, the first `backupSrc` match is the result |
| Hoofoot.NothingFound | hoofoot_auto.py:76-89 | the result is None exactly when none of the three patterns matches anywhere; without an `hls` match, a result contains `.m3u8` |
| Hoofoot.ImageUrl | hoofoot_auto.py:48-56 | there is an image URL exactly when the div has an image |
| Hoofoot.ImageUrlAbsolute | hoofoot_auto.py:48-56 | a `//` or `http` source becomes an `http` URL, and normalising it again changes nothing |
| Hoofoot.ListedMatches | hoofoot_auto.py:29-62 | no URL is listed twice |
| Hoofoot.ListedMatchesFrom | hoofoot_auto.py:37-61 | every entry comes from a div with a title and a `?match=` link, the first such div with its URL |
| Hoofoot.ListedMatchesCover | hoofoot_auto.py:37-61 | every such div's URL is listed |
| Hoofoot.ListedMatchesPrefix | hoofoot_auto.py:36-61 | the entries for the first n divs are a prefix of the entries for all of them, so the list keeps page order |
| Hoofoot.FindMatchesFromHtml | hoofoot_auto.py:29-62 | the loop with its `seen` set computes `ListedMatches` |
| Listing.StartSeconds | main.py:33-36 | a timestamp above 10^12 is read as milliseconds and divided by 1000, which gives more than 10^9 seconds; otherwise it is seconds |
| Listing.UnitsAgree | main.py:33-36 | a time between 10^9 and 10^12 seconds, given in milliseconds, reads the same as given in seconds |
| Listing.UnitsBoundary | main.py:33-35 | the unit conversion alone is not monotone: 10^12 + 1 converts to fewer seconds than 10^12 (as a seconds stamp, 10^12 is past the year 9999, where `fromtimestamp` raises) |
| Listing.MatchTime | main.py:19-72 | the timestamp decides when present; otherwise the time parsed from the text does |
| Listing.Attached | main.py:93-94 | each match gets its own time and keeps its channels |
| Listing.AttachTimes | main.py:93-94 | the loop stores `Attached` of the old contents |
| Listing.SortByTimeSpec | main.py:96-97 | the ordering is timed matches ascending with untimed ones last, a permutation, and stable: matches with equal times keep their order |
| Listing.SortMatches | main.py:96-97 | the array is replaced by `SortByTime` of its old contents |
| Listing.LangLabel | main.py:109 | an empty language prints `??`; otherwise it prints upper-cased |
| Listing.NameOf | main.py:110 | a non-empty name prints as itself; otherwise `Unknown` |
| Listing.FormatChannelRoundTrip | main.py:108-112 | for a two-letter ASCII language, a name without `:`, line break or leading space and link text without line break and not starting with a space, a printed channel line parses back, by the merge.py channel parser, to its language, name and links |
| Listing.NoLanguageRejected | main.py:109-112 | a channel printed as `??` is not accepted by that parser |
| Listing.PrintChannelLines | main.py:108-112 | the printing loop gives one formatted line per channel |
| Listing.ListMatches | main.py:93-112 | the array ends up sorted by the attached times, and each match's printed lines are its channels' lines |

## Left out

- The network is the `fetch` function of `Env`. This covers `fetch_matches` and `fetch_iptv_channels`, the `requests` and `pycurl` calls, and generate_m3u8.py's `main`. hoofoot's `fetch` returns a body even on non-200 responses, and `fetch` treats that body as the text.
- The file system is not part of this model: `load_whitelist` (the whitelist is a set parameter), `rmtree`/`makedirs`, `results.txt` and the actual writes of `create_m3u8_file`. The written files are `Playlist` values, and their text is given by `MergePlaylistText` and `GeneratorPlaylistText`.
- The library routines are parameters of `Env` with no body: `fuzz.ratio` (only its range 0..100 is known), `b64decode`, `html.unescape`, `urljoin` and the `urlparse` origin. `urljoin` is total here, although Python's raises `ValueError` ("Invalid IPv6 URL") when the joined URL's network location has an unbalanced `[`, as in a decoded `//[x`. The lines below name what the model then does not promise.
- Resolver.ExtractDirectStreamUrl: a `ValueError` from `urljoin` in the array, `atob` or span pass (merge.py:118, 133, 142, 157) reaches merge.py:200-202, and the source returns `embed_url`. The model continues with the joined value instead, so on such a page it can return a later candidate or a page URL.
- Resolver.FirstManifestCandidateWins: holds for the source only when no `urljoin` before the first `.m3u8` candidate raises; otherwise the source returns `embed_url`.
- Resolver.ManifestPreferred: holds for the source only when no `urljoin` in the passes before the `.m3u8` URL is reached raises; otherwise the source returns `embed_url`.
- Hoofoot.ListedMatches: a `ValueError` from `urljoin` on a match link or an image source (hoofoot_auto.py:45, 54) aborts `find_matches_from_html` as a whole, while the model lists the entry with the joined value.
- Hoofoot.FindMatchesFromHtml: the same `ValueError` path is not modelled; the loop goes on with the joined value.
- BeautifulSoup parsing is not part of this model. hoofoot's match divs are records holding the title, the `href` and the image `src` the DOM lookups would return. `extract_embed_url` and `process_match` only combine the DOM with the network and are left out.
- `json.loads` and the JSON structure are not part of this model. The IPTV channels and main.py's matches and channels are records.
- main.py's `strptime` and `datetime.now` fallbacks are the `textTime` input. `fromtimestamp` gives a real number of seconds. `format_gmt3`, the header prints and the out-of-range or non-integer timestamps that make `int`/`fromtimestamp` raise are not modelled.
- `time.sleep`, `print` and `sys.exit` are left out.
- Resolver.FirstIdDigits: the `\d` of `id=(\d+)` (merge.py:251) also matches non-ASCII decimal digits in Python, such as Arabic-Indic ones; the model, through `DigitRunEnd`, accepts ASCII digits only.
- Resolver.StartsWithCI: the `re.I` flag of the span search (merge.py:151) also folds `ſ` to `s`, the Kelvin sign to `k` and `ı`/`İ` to `i`; the model compares with ASCII case folding only.
- Strings.Lower: ASCII only. Python's `lower`/`upper` are Unicode-aware, so non-ASCII titles may compare differently.
- Resolver.Fallback: step 5's first loop (merge.py:175-177) cannot return. Every collected URL containing `.m3u8` was already returned by its pass, so the loop is not modelled.
- ChannelFilter.FilterChannels requires lines without a newline. `extract_channels` never yields one, and the `$` anchor of the pattern would behave differently there.
- ChannelFilter.ValidLinks: an exception raised inside `convert_url` (merge.py:284-289) is not modelled. A failed fetch yields the embed URL instead.
- MergeDriver.PairedBlock: the key returned by `Best` is always in the map, so the lookup cannot fail.
- MergeDriver.DirectUrls: its own contract states only the length. Its contents are given by `DirectUrlsSnoc`.
- Listing.SortMatches: `list.sort` is modelled by its specification function, a stable insertion sort, and not by Timsort's steps.
