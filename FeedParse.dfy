/** The block parser of merge.py: cutting a match feed into blocks at its
    `🏟️ Match:` lines (`split_matches`), reading a block's title
    (`extract_title`) and its channel lines (`extract_channels`). */
module FeedParse {
  import opened Wrappers
  import opened Strings

  /** The text that opens every match block of a feed. */
  const MatchMarker: string := "\U{1F3DF}\U{FE0F} Match:"

  /** The text that opens the channel list of a block. */
  const ChannelsMarker: string := "\U{1F4FA} Channels:"

  predicate IsMatchLine(line: string) {
    StartsWith(Strip(line), MatchMarker)
  }

  predicate IsChannelsLine(line: string) {
    StartsWith(Strip(line), ChannelsMarker)
  }

  // ---------------------------------------------------------------------
  // split_matches

  /** The line groups of the loop of `split_matches`, with `current` the
      group being filled and `rest` the lines still to read. */
  function Groups(opens: string -> bool, current: seq<string>, rest: seq<string>): seq<seq<string>>
    decreases |rest|
  {
    if rest == [] then (if current == [] then [] else [current])
    else if opens(rest[0]) then
      (if current == [] then [] else [current]) + Groups(opens, [rest[0]], rest[1..])
    else Groups(opens, current + [rest[0]], rest[1..])
  }

  /** Each group joined with `\n`. */
  function JoinAll(groups: seq<seq<string>>): (r: seq<string>)
    ensures |r| == |groups|
  {
    if groups == [] then [] else [JoinLines(groups[0])] + JoinAll(groups[1..])
  }

  function Flatten(groups: seq<seq<string>>): seq<string> {
    if groups == [] then [] else groups[0] + Flatten(groups[1..])
  }

  lemma {:induction false} JoinAllAppend(a: seq<seq<string>>, b: seq<seq<string>>)
    ensures JoinAll(a + b) == JoinAll(a) + JoinAll(b)
  {
    if a != [] {
      JoinAllAppend(a[1..], b);
      assert (a + b)[1..] == a[1..] + b;
    } else {
      assert a + b == b;
    }
  }

  /** What `split_matches(text)` returns. */
  function MatchBlocks(text: string): seq<string> {
    JoinAll(Groups(IsMatchLine, [], SplitLines(text)))
  }

  /** `split_matches`. */
  method SplitMatches(text: string) returns (blocks: seq<string>)
    ensures blocks == MatchBlocks(text)
  {
    blocks := SplitGroups(IsMatchLine, SplitLines(text));
  }

  method SplitGroups(opens: string -> bool, lines: seq<string>) returns (blocks: seq<string>)
    ensures blocks == JoinAll(Groups(opens, [], lines))
  {
    blocks := [];
    var current: seq<string> := [];
    for i := 0 to |lines|
      invariant blocks + JoinAll(Groups(opens, current, lines[i..])) == JoinAll(Groups(opens, [], lines))
    {
      var line := lines[i];
      assert lines[i..][0] == line && lines[i..][1..] == lines[i + 1..];
      ghost var later := Groups(opens, [line], lines[i + 1..]);
      if opens(line) {
        GroupsOpen(opens, current, lines[i..]);
        if current != [] {
          JoinAllAppend([current], later);
          assert JoinAll([current]) == [JoinLines(current)];
          blocks := blocks + [JoinLines(current)];
        } else {
          assert Groups(opens, current, lines[i..]) == later;
        }
        current := [line];
      } else {
        GroupsExtend(opens, current, lines[i..]);
        current := current + [line];
      }
    }
    if current != [] {
      assert JoinAll([current]) == [JoinLines(current)];
      blocks := blocks + [JoinLines(current)];
    }
  }

  lemma GroupsOpen(opens: string -> bool, current: seq<string>, rest: seq<string>)
    requires rest != [] && opens(rest[0])
    ensures Groups(opens, current, rest)
            == (if current == [] then [] else [current]) + Groups(opens, [rest[0]], rest[1..])
  {
  }

  lemma GroupsExtend(opens: string -> bool, current: seq<string>, rest: seq<string>)
    requires rest != [] && !opens(rest[0])
    ensures Groups(opens, current, rest) == Groups(opens, current + [rest[0]], rest[1..])
  {
  }

  predicate GroupShape(opens: string -> bool, g: seq<string>) {
    g != [] && forall j :: 1 <= j < |g| ==> !opens(g[j])
  }

  /** Every group is non-empty, only its first line can open a group, and
      every group after the first starts with such a line. */
  lemma {:induction false} GroupsShape(opens: string -> bool, current: seq<string>, rest: seq<string>)
    requires forall j :: 1 <= j < |current| ==> !opens(current[j])
    ensures var gs := Groups(opens, current, rest);
            && (forall k :: 0 <= k < |gs| ==> GroupShape(opens, gs[k]))
            && (forall k :: 1 <= k < |gs| ==> opens(gs[k][0]))
            && (current != [] ==> gs != [] && gs[0][0] == current[0])
    decreases |rest|
  {
    if rest != [] {
      if opens(rest[0]) {
        GroupsShape(opens, [rest[0]], rest[1..]);
      } else {
        var c := current + [rest[0]];
        assert forall j :: 1 <= j < |current| ==> c[j] == current[j];
        assert c[|current|] == rest[0];
        GroupsShape(opens, c, rest[1..]);
      }
    }
  }

  /** The groups hold the lines, in order. */
  lemma {:induction false} GroupsFlatten(opens: string -> bool, current: seq<string>, rest: seq<string>)
    ensures Flatten(Groups(opens, current, rest)) == current + rest
    decreases |rest|
  {
    if rest == [] {
      if current != [] {
        assert Flatten([current]) == current + Flatten([]);
      }
    } else if opens(rest[0]) {
      GroupsFlatten(opens, [rest[0]], rest[1..]);
      var tail := Groups(opens, [rest[0]], rest[1..]);
      if current != [] {
        assert ([current] + tail)[1..] == tail;
      } else {
        assert [] + tail == tail;
      }
      assert [rest[0]] + rest[1..] == rest;
    } else {
      GroupsFlatten(opens, current + [rest[0]], rest[1..]);
      assert current + [rest[0]] + rest[1..] == current + rest;
    }
  }

  lemma {:induction false} JoinAppend(a: seq<string>, b: seq<string>, sep: string)
    requires a != [] && b != []
    ensures Join(a + b, sep) == Join(a, sep) + sep + Join(b, sep)
  {
    if |a| == 1 {
      assert (a + b)[1..] == b;
    } else {
      JoinAppend(a[1..], b, sep);
      assert (a + b)[1..] == a[1..] + b;
    }
  }

  lemma {:induction false} FlattenNonEmpty(groups: seq<seq<string>>)
    requires groups != [] && groups[0] != []
    ensures Flatten(groups) != []
  {
  }

  /** Joining the joined groups gives the joined lines. */
  lemma {:induction false} JoinNested(groups: seq<seq<string>>)
    requires forall k :: 0 <= k < |groups| ==> groups[k] != []
    ensures JoinLines(JoinAll(groups)) == JoinLines(Flatten(groups))
  {
    if |groups| == 1 {
      assert groups[1..] == [];
      assert JoinAll(groups) == [JoinLines(groups[0])];
      assert JoinLines([JoinLines(groups[0])]) == JoinLines(groups[0]);
      assert Flatten(groups) == groups[0] + Flatten([]);
      assert Flatten(groups) == groups[0];
    } else if |groups| > 1 {
      var tail := groups[1..];
      JoinNested(tail);
      FlattenNonEmpty(tail);
      JoinAppend(groups[0], Flatten(tail), "\n");
      assert JoinAll(groups)[1..] == JoinAll(tail);
    }
  }

  /** A joined group is its first line alone or that line and a `\n`
      followed by the rest. */
  lemma JoinStartsWithFirst(g: seq<string>)
    requires g != []
    ensures JoinLines(g) == g[0] || StartsWith(JoinLines(g), g[0] + "\n")
  {
    if |g| > 1 {
      assert JoinLines(g) == (g[0] + "\n") + JoinLines(g[1..]);
      assert JoinLines(g)[..|g[0] + "\n"|] == g[0] + "\n";
    }
  }

  predicate EveryLine(p: string -> bool, gs: seq<seq<string>>) {
    forall k, j :: 0 <= k < |gs| && 0 <= j < |gs[k]| ==> p(gs[k][j])
  }

  /** Every line of every group satisfies what all the lines read did. */
  lemma {:induction false} GroupsKeepProperty(opens: string -> bool, p: string -> bool, current: seq<string>, rest: seq<string>)
    requires forall j :: 0 <= j < |current| ==> p(current[j])
    requires forall j :: 0 <= j < |rest| ==> p(rest[j])
    ensures EveryLine(p, Groups(opens, current, rest))
    decreases |rest|
  {
    if rest == [] {
      assert current != [] ==> Groups(opens, current, rest) == [current];
    } else if opens(rest[0]) {
      GroupsKeepProperty(opens, p, [rest[0]], rest[1..]);
      var head: seq<seq<string>> := if current == [] then [] else [current];
      var tail := Groups(opens, [rest[0]], rest[1..]);
      var gs := head + tail;
      assert Groups(opens, current, rest) == gs;
      forall k, j | 0 <= k < |gs| && 0 <= j < |gs[k]|
        ensures p(gs[k][j])
      {
        if k < |head| {
          assert gs[k] == current;
        } else {
          assert gs[k] == tail[k - |head|];
        }
      }
    } else {
      var c := current + [rest[0]];
      assert forall j :: 0 <= j < |c| ==> p(c[j]) by {
        assert forall j :: 0 <= j < |current| ==> c[j] == current[j];
        assert c[|current|] == rest[0];
      }
      GroupsKeepProperty(opens, p, c, rest[1..]);
    }
  }

  /** Every joined group after the first starts with a whole line that
      opens a group: it is that line, or that line and a `\n`. */
  lemma LaterGroupsOpen(opens: string -> bool, lines: seq<string>, k: nat)
    requires forall j :: 0 <= j < |lines| ==> NoLineBreak(lines[j])
    requires 1 <= k < |JoinAll(Groups(opens, [], lines))|
    ensures var block := JoinAll(Groups(opens, [], lines))[k];
            exists line :: && opens(line) && NoLineBreak(line)
                           && (block == line || StartsWith(block, line + "\n"))
  {
    var gs := Groups(opens, [], lines);
    GroupsShape(opens, [], lines);
    GroupsKeepProperty(opens, NoLineBreak, [], lines);
    JoinAllIndex(gs, k);
    assert GroupShape(opens, gs[k]) && opens(gs[k][0]);
    assert gs[k] != [] && NoLineBreak(gs[k][0]);
    JoinStartsWithFirst(gs[k]);
  }

  /** Every block after the first begins with a whole match line: the
      block is that line, or that line and a `\n` then the rest. */
  lemma BlocksStartWithMatchLine(text: string, k: nat)
    requires 1 <= k < |MatchBlocks(text)|
    ensures var block := MatchBlocks(text)[k];
            exists line :: && IsMatchLine(line) && NoLineBreak(line)
                           && (block == line || StartsWith(block, line + "\n"))
  {
    LaterGroupsOpen(IsMatchLine, SplitLines(text), k);
    var block := MatchBlocks(text)[k];
    var line :| && (IsMatchLine)(line) && NoLineBreak(line)
                && (block == line || StartsWith(block, line + "\n"));
    assert IsMatchLine(line);
  }

  lemma {:induction false} JoinAllIndex(groups: seq<seq<string>>, k: nat)
    requires k < |groups|
    ensures JoinAll(groups)[k] == JoinLines(groups[k])
  {
    if k > 0 {
      JoinAllIndex(groups[1..], k - 1);
    }
  }

  /** Joining the joined groups with `\n` gives the lines joined with `\n`. */
  lemma GroupsKeepLines(opens: string -> bool, lines: seq<string>)
    ensures JoinLines(JoinAll(Groups(opens, [], lines))) == JoinLines(lines)
  {
    GroupsShape(opens, [], lines);
    GroupsFlatten(opens, [], lines);
    var gs := Groups(opens, [], lines);
    assert forall k :: 0 <= k < |gs| ==> GroupShape(opens, gs[k]);
    JoinNested(gs);
    assert [] + lines == lines;
  }

  /** Joining the blocks with `\n` gives the feed's lines joined with `\n`. */
  lemma BlocksKeepLines(text: string)
    ensures JoinLines(MatchBlocks(text)) == JoinLines(SplitLines(text))
  {
    GroupsKeepLines(IsMatchLine, SplitLines(text));
  }

  /** A feed yields no block exactly when it is empty. */
  lemma NoBlocksIffEmpty(text: string)
    ensures MatchBlocks(text) == [] <==> text == []
  {
    var lines := SplitLines(text);
    GroupsFlatten(IsMatchLine, [], lines);
    if text != [] {
      assert Flatten(Groups(IsMatchLine, [], lines)) != [];
    }
  }

  // ---------------------------------------------------------------------
  // extract_title

  /** End of the line that holds index `e`. */
  function LineEnd(s: string, e: nat): (r: nat)
    requires e <= |s|
    ensures e <= r <= |s|
    ensures forall k :: e <= k < r ==> s[k] != '\n'
  {
    match IndexOfChar(s, '\n', e)
    case Some(n) => n
    case None => |s|
  }

  /** Last index in `[a, e)` not holding `\n`. */
  function LastNonNewline(s: string, a: nat, e: nat): (r: Option<nat>)
    requires a <= e <= |s|
    decreases e - a
    ensures r.Some? ==> a <= r.value < e && s[r.value] != '\n'
  {
    if e == a then None
    else if s[e - 1] != '\n' then Some(e - 1)
    else LastNonNewline(s, a, e - 1)
  }

  /** The group of `🏟️ Match:\s*(.+)` matched at `p`: after the greedy
      whitespace run, the rest of that line; when the run reaches the end,
      the regex backtracks to the last character of the run that is not a
      newline. */
  function TitleAt(s: string, p: nat): (r: Option<string>)
    requires p + |MatchMarker| <= |s|
  {
    var a := p + |MatchMarker|;
    var e := SkipSpaces(s, a);
    if e < |s| then Some(s[e..LineEnd(s, e)])
    else match LastNonNewline(s, a, e)
      case Some(j) => Some([s[j]])
      case None => None
  }

  /** `re.search` of that pattern from index `i`. */
  function TitleFrom(s: string, i: nat): (r: Option<string>)
    decreases |s| - i
  {
    match FindFrom(s, MatchMarker, i)
    case None => None
    case Some(p) =>
      match TitleAt(s, p)
      case Some(t) => Some(t)
      case None => TitleFrom(s, p + 1)
  }

  /** `extract_title`. */
  function ExtractTitle(block: string): (r: string)
    ensures NoSpaceAtEnds(r)
  {
    match TitleFrom(block, 0)
    case Some(t) => Strip(t)
    case None => []
  }

  /** A title never spans two lines. */
  lemma {:induction false} TitleOneLine(s: string, i: nat)
    requires TitleFrom(s, i).Some?
    ensures forall k :: 0 <= k < |TitleFrom(s, i).value| ==> TitleFrom(s, i).value[k] != '\n'
    decreases |s| - i
  {
    var p := FindFrom(s, MatchMarker, i).value;
    if TitleAt(s, p).None? {
      TitleOneLine(s, p + 1);
    }
  }

  /** A block whose first line is the marker, a space and a title that is
      stripped, non-empty and on one line has that title. */
  lemma TitleOfBlock(title: string, rest: string)
    requires title != [] && NoSpaceAtEnds(title)
    requires forall k :: 0 <= k < |title| ==> title[k] != '\n'
    requires rest == [] || rest[0] == '\n'
    ensures ExtractTitle(MatchMarker + " " + title + rest) == title
  {
    var s := MatchMarker + " " + title + rest;
    var m := |MatchMarker|;
    assert s[..m] == MatchMarker;
    assert OccursAt(s, MatchMarker, 0);
    assert FindFrom(s, MatchMarker, 0) == Some(0);
    assert s[m] == ' ' && s[m + 1] == title[0];
    assert SkipSpaces(s, m + 1) == m + 1;
    assert SkipSpaces(s, m) == m + 1;
    assert forall k :: m + 1 <= k < m + 1 + |title| ==> s[k] == title[k - m - 1];
    assert LineEnd(s, m + 1) == m + 1 + |title| by {
      if rest != [] {
        assert s[m + 1 + |title|] == '\n';
        assert IndexOfChar(s, '\n', m + 1) == Some(m + 1 + |title|);
      }
    }
    assert s[m + 1..m + 1 + |title|] == title;
    StripNoSpaceAtEnds(title);
  }

  // ---------------------------------------------------------------------
  // extract_channels

  /** The loop of `extract_channels` over `lines`, with `header` the test
      for the line opening the list and `started` telling whether such a
      line has been read. */
  function ChannelScan(header: string -> bool, started: bool, lines: seq<string>): seq<string>
    decreases |lines|
  {
    if lines == [] then []
    else if header(lines[0]) then ChannelScan(header, true, lines[1..])
    else if !started then ChannelScan(header, false, lines[1..])
    else if Strip(lines[0]) == [] then []
    else [Strip(lines[0])] + ChannelScan(header, true, lines[1..])
  }

  /** What `extract_channels(block)` returns. */
  function ChannelLines(block: string): seq<string> {
    ChannelScan(IsChannelsLine, false, SplitLines(block))
  }

  /** `extract_channels`. */
  method ExtractChannels(block: string) returns (channels: seq<string>)
    ensures channels == ChannelLines(block)
  {
    channels := ScanChannels(IsChannelsLine, SplitLines(block));
  }

  /** The loop of `extract_channels`. */
  method ScanChannels(header: string -> bool, lines: seq<string>) returns (channels: seq<string>)
    ensures channels == ChannelScan(header, false, lines)
  {
    channels := [];
    var start := false;
    var i := 0;
    while i < |lines|
      invariant i <= |lines|
      invariant channels + ChannelScan(header, start, lines[i..]) == ChannelScan(header, false, lines)
    {
      var line := lines[i];
      assert lines[i..][0] == line && lines[i..][1..] == lines[i + 1..];
      if header(line) {
        start := true;
        i := i + 1;
        continue;
      }
      if start {
        if Strip(line) == [] {
          break;
        }
        channels := channels + [Strip(line)];
      }
      i := i + 1;
    }
    if i == |lines| {
      assert lines[i..] == [];
    }
  }

  /** Every entry returned is stripped, non-empty, and the strip of an
      input line that is not a header line. */
  lemma {:induction false} ChannelScanShape(header: string -> bool, started: bool, lines: seq<string>, k: nat)
    requires k < |ChannelScan(header, started, lines)|
    ensures var c := ChannelScan(header, started, lines)[k];
            && c != [] && NoSpaceAtEnds(c)
            && exists j :: 0 <= j < |lines| && !header(lines[j]) && c == Strip(lines[j])
    decreases |lines|
  {
    var c := ChannelScan(header, started, lines)[k];
    if header(lines[0]) || !started || k > 0 {
      var k' := if header(lines[0]) || !started then k else k - 1;
      var started' := header(lines[0]) || started;
      assert c == ChannelScan(header, started', lines[1..])[k'];
      ChannelScanShape(header, started', lines[1..], k');
      var j :| 0 <= j < |lines[1..]| && !header(lines[1..][j]) && c == Strip(lines[1..][j]);
      assert c == Strip(lines[j + 1]);
    } else {
      assert c == Strip(lines[0]);
    }
  }

  /** The channel lines of a block are stripped, non-empty, on one line
      each, and never themselves `📺 Channels:` lines. */
  lemma ChannelLinesShape(block: string, k: nat)
    requires k < |ChannelLines(block)|
    ensures var c := ChannelLines(block)[k];
            && c != [] && NoSpaceAtEnds(c) && NoLineBreak(c)
            && !StartsWith(c, ChannelsMarker)
  {
    var lines := SplitLines(block);
    var c := ChannelLines(block)[k];
    ChannelScanShape(IsChannelsLine, false, lines, k);
    var j :| 0 <= j < |lines| && !IsChannelsLine(lines[j]) && c == Strip(lines[j]);
    var i := StripSlice(lines[j]);
    assert forall m :: 0 <= m < |c| ==> c[m] == lines[j][i + m];
  }

  /** Lines before the first header line are never read. */
  lemma {:induction false} ChannelScanSkipsPrefix(header: string -> bool, lines: seq<string>, h: nat)
    requires h < |lines| && header(lines[h])
    requires forall j :: 0 <= j < h ==> !header(lines[j])
    ensures ChannelScan(header, false, lines) == ChannelScan(header, true, lines[h + 1..])
    decreases h
  {
    if h > 0 {
      ChannelScanSkipsPrefix(header, lines[1..], h - 1);
      assert lines[1..][h..] == lines[h + 1..];
    }
  }

  /** With no header line, nothing is returned. */
  lemma {:induction false} NoHeaderNoChannels(header: string -> bool, lines: seq<string>)
    requires forall j :: 0 <= j < |lines| ==> !header(lines[j])
    ensures ChannelScan(header, false, lines) == []
  {
    if lines != [] {
      NoHeaderNoChannels(header, lines[1..]);
    }
  }

  /** After the header, the entries are the stripped lines up to the first
      blank one, later header lines skipped. */
  lemma {:induction false} ChannelScanStops(header: string -> bool, lines: seq<string>, e: nat)
    requires e < |lines| && !header(lines[e]) && Strip(lines[e]) == []
    requires forall j :: 0 <= j < e ==> header(lines[j]) || Strip(lines[j]) != []
    ensures ChannelScan(header, true, lines) == ChannelScan(header, true, lines[..e])
    decreases e
  {
    if e > 0 {
      ChannelScanStops(header, lines[1..], e - 1);
      assert lines[1..][..e - 1] == lines[..e][1..];
    }
  }
}
