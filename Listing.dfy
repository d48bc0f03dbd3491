/** The listing script main.py: the start time of a match from its
    timestamp, the order the matches are printed in, and the channel lines
    it prints, the same `LL | Name: link | link` lines merge.py reads. */
module Listing {
  import opened Wrappers
  import opened Strings
  import opened ChannelFilter

  // ---------------------------------------------------------------------
  // get_match_dt_utc

  /** Timestamps above this are taken to be in milliseconds. */
  const MillisThreshold: int := 1_000_000_000_000

  /** Seconds since the epoch for a `startTimestamp`. */
  function StartSeconds(ts: int): (r: real)
    ensures ts > MillisThreshold ==> r * 1000.0 == ts as real && r > 1_000_000_000.0
    ensures ts <= MillisThreshold ==> r == ts as real
  {
    if ts > MillisThreshold then ts as real / 1000.0 else ts as real
  }

  /** The same instant given in seconds or in milliseconds gets the same
      start time, as long as the seconds are at most the threshold and the
      milliseconds above it. */
  lemma UnitsAgree(s: int)
    requires 1_000_000_000 < s <= MillisThreshold
    ensures StartSeconds(s * 1000) == StartSeconds(s)
  {
  }

  /** The unit conversion alone is not monotone: the first millisecond
      stamp above the threshold converts to fewer seconds than the stamp at
      the threshold. (In main.py a seconds stamp of 10^12 lies past the
      year 9999, so `fromtimestamp` raises there and the text fields are
      used instead.) */
  lemma UnitsBoundary()
    ensures StartSeconds(MillisThreshold + 1) < StartSeconds(MillisThreshold)
  {
  }

  /** A channel object of the feed: `language`, `lang` and `name` when
      present, and the `links` and `oldLinks` lists (empty when absent or
      null). */
  datatype ChannelRecord = ChannelRecord(
    language: Option<string>, lang: Option<string>, name: Option<string>,
    links: seq<string>, oldLinks: seq<string>)

  /** A match object: its integer `startTimestamp` when it has one, the
      time the text fields `time` and `matchDate` give when they parse
      (those fallbacks read the clock and the date parser, which are not
      modelled), the attached time `__dt_utc`, and its channels. */
  datatype ListedMatch = ListedMatch(
    stamp: Option<int>, textTime: Option<real>, dt: Option<real>,
    channels: seq<ChannelRecord>)

  /** `get_match_dt_utc`: the timestamp wins over the text fields. */
  function MatchTime(m: ListedMatch): (r: Option<real>)
    ensures m.stamp.Some? ==> r == Some(StartSeconds(m.stamp.value))
    ensures m.stamp.None? ==> r == m.textTime
  {
    if m.stamp.Some? then Some(StartSeconds(m.stamp.value)) else m.textTime
  }

  /** The matches with `__dt_utc` set. */
  function Attached(s: seq<ListedMatch>): (r: seq<ListedMatch>)
    ensures |r| == |s|
    ensures forall i :: 0 <= i < |s| ==> r[i].dt == MatchTime(s[i]) && r[i].channels == s[i].channels
  {
    seq(|s|, i requires 0 <= i < |s| => s[i].(dt := MatchTime(s[i])))
  }

  /** The loop that stores `__dt_utc` in every match. */
  method AttachTimes(a: array<ListedMatch>)
    modifies a
    ensures a[..] == Attached(old(a[..]))
  {
    for i := 0 to a.Length
      invariant forall k :: 0 <= k < i ==> a[k] == old(a[k]).(dt := MatchTime(old(a[k])))
      invariant forall k :: i <= k < a.Length ==> a[k] == old(a[k])
    {
      a[i] := a[i].(dt := MatchTime(a[i]));
    }
    assert a[..] == Attached(old(a[..]));
  }

  // ---------------------------------------------------------------------
  // The sort on (time is None, time)

  /** `x` sorts no later than `y`: a missing time comes after every time. */
  predicate NotLater(x: Option<real>, y: Option<real>) {
    (x.None? ==> y.None?) && (x.Some? && y.Some? ==> x.value <= y.value)
  }

  /** Timed matches first, by time; untimed ones after them. */
  predicate Sorted(s: seq<ListedMatch>) {
    forall i, j :: 0 <= i < j < |s| ==> NotLater(s[i].dt, s[j].dt)
  }

  /** The matches whose time is `t`, in their order. */
  function WithTime(s: seq<ListedMatch>, t: Option<real>): seq<ListedMatch> {
    if s == [] then []
    else WithTime(s[..|s| - 1], t) + (if s[|s| - 1].dt == t then [s[|s| - 1]] else [])
  }

  /** `m` put after the last match that does not sort after it. */
  function Insert(s: seq<ListedMatch>, m: ListedMatch): (r: seq<ListedMatch>)
    ensures |r| == |s| + 1
  {
    if s == [] || NotLater(s[|s| - 1].dt, m.dt) then s + [m]
    else Insert(s[..|s| - 1], m) + [s[|s| - 1]]
  }

  /** The order `list.sort` leaves the matches in: Python's sort is
      stable, and this is the stable insertion sort on the same key. */
  function SortByTime(s: seq<ListedMatch>): (r: seq<ListedMatch>)
    ensures |r| == |s|
  {
    if s == [] then [] else Insert(SortByTime(s[..|s| - 1]), s[|s| - 1])
  }

  lemma {:induction false} InsertMultiset(s: seq<ListedMatch>, m: ListedMatch)
    ensures multiset(Insert(s, m)) == multiset(s) + multiset{m}
  {
    if !(s == [] || NotLater(s[|s| - 1].dt, m.dt)) {
      var init := s[..|s| - 1];
      assert s == init + [s[|s| - 1]];
      InsertMultiset(init, m);
    }
  }

  lemma {:induction false} InsertSorted(s: seq<ListedMatch>, m: ListedMatch)
    requires Sorted(s)
    ensures Sorted(Insert(s, m))
  {
    if s != [] && !NotLater(s[|s| - 1].dt, m.dt) {
      var init := s[..|s| - 1];
      var last := s[|s| - 1];
      var r := Insert(init, m);
      InsertSorted(init, m);
      InsertMultiset(init, m);
      forall x | x in r ensures NotLater(x.dt, last.dt) {
        assert x in multiset(r);
        if x != m {
          assert x in multiset(init);
          var i :| 0 <= i < |init| && init[i] == x;
          assert s[i] == x;
        }
      }
      assert Insert(s, m) == r + [last];
      forall i, j | 0 <= i < j < |r| + 1
        ensures NotLater((r + [last])[i].dt, (r + [last])[j].dt)
      {
        if j == |r| {
          assert (r + [last])[i] in r;
        }
      }
    }
  }

  lemma {:induction false} InsertWithTime(s: seq<ListedMatch>, m: ListedMatch, t: Option<real>)
    ensures WithTime(Insert(s, m), t) == WithTime(s, t) + (if m.dt == t then [m] else [])
  {
    if s == [] || NotLater(s[|s| - 1].dt, m.dt) {
      assert (s + [m])[..|s|] == s;
    } else {
      var init := s[..|s| - 1];
      var last := s[|s| - 1];
      InsertWithTime(init, m, t);
      assert (Insert(init, m) + [last])[..|s|] == Insert(init, m);
    }
  }

  /** The sort returns the same matches, timed ones first in ascending
      time and untimed ones after them, and it keeps the original order of
      the matches that share a time, the untimed ones included. */
  lemma {:induction false} SortByTimeSpec(s: seq<ListedMatch>)
    ensures Sorted(SortByTime(s))
    ensures multiset(SortByTime(s)) == multiset(s)
    ensures forall t :: WithTime(SortByTime(s), t) == WithTime(s, t)
  {
    if s != [] {
      var init := s[..|s| - 1];
      var last := s[|s| - 1];
      SortByTimeSpec(init);
      InsertSorted(SortByTime(init), last);
      InsertMultiset(SortByTime(init), last);
      assert s == init + [last];
      forall t ensures WithTime(SortByTime(s), t) == WithTime(s, t) {
        InsertWithTime(SortByTime(init), last, t);
      }
    }
  }

  /** `matches.sort(...)`, in place. */
  method SortMatches(a: array<ListedMatch>)
    modifies a
    ensures a[..] == SortByTime(old(a[..]))
  {
    var sorted := SortByTime(a[..]);
    forall i | 0 <= i < a.Length {
      a[i] := sorted[i];
    }
    assert a[..] == sorted;
  }

  // ---------------------------------------------------------------------
  // The channel lines

  /** `(language or lang or "").upper() or "??"`. */
  function LanguageOf(ch: ChannelRecord): string {
    if ch.language.Some? && ch.language.value != [] then ch.language.value
    else if ch.lang.Some? && ch.lang.value != [] then ch.lang.value
    else []
  }

  function LangLabel(ch: ChannelRecord): (r: string)
    ensures LanguageOf(ch) == [] ==> r == "??"
    ensures LanguageOf(ch) != [] ==> r == Upper(LanguageOf(ch))
  {
    var u := Upper(LanguageOf(ch));
    if u == [] then "??" else u
  }

  /** `name or "Unknown"`. */
  function NameOf(ch: ChannelRecord): (r: string)
    ensures r != []
    ensures ch.name.Some? && ch.name.value != [] ==> r == ch.name.value
    ensures !(ch.name.Some? && ch.name.value != []) ==> r == "Unknown"
  {
    if ch.name.Some? && ch.name.value != [] then ch.name.value else "Unknown"
  }

  /** `" | ".join(links or oldLinks or [])`. */
  function LinkText(ch: ChannelRecord): string {
    Join(if ch.links != [] then ch.links else ch.oldLinks, " | ")
  }

  /** The line printed for a channel. */
  function FormatChannel(ch: ChannelRecord): string {
    ChannelLine(LangLabel(ch), NameOf(ch), LinkText(ch))
  }

  /** A printed line reads back through merge.py's channel-line pattern:
      the upper-cased two-letter language, the name and the joined links
      come out again, when the name has no colon or leading whitespace,
      the link text starts with a non-space character and neither holds a
      line break. */
  lemma FormatChannelRoundTrip(ch: ChannelRecord)
    requires |LanguageOf(ch)| == 2
    requires forall k :: 0 <= k < 2 ==> IsAsciiLower(LanguageOf(ch)[k]) || IsAsciiUpper(LanguageOf(ch)[k])
    requires !IsSpace(NameOf(ch)[0]) && forall k :: 0 <= k < |NameOf(ch)| ==> NameOf(ch)[k] != ':'
    requires LinkText(ch) != [] && !IsSpace(LinkText(ch)[0])
    requires NoLineBreak(NameOf(ch)) && NoLineBreak(LinkText(ch))
    ensures ParseChannelLine(FormatChannel(ch)) == Some(ParsedLine(Upper(LanguageOf(ch)), NameOf(ch), LinkText(ch)))
  {
    var lang := Upper(LanguageOf(ch));
    assert IsAsciiUpper(lang[0]) && IsAsciiUpper(lang[1]);
    assert NoNewline(NameOf(ch)) && NoNewline(LinkText(ch));
    ParseChannelLineRoundTrip(lang, NameOf(ch), LinkText(ch));
  }

  /** A channel without a language prints as `??` and merge.py drops it. */
  lemma NoLanguageRejected(ch: ChannelRecord)
    requires LanguageOf(ch) == []
    ensures ParseChannelLine(FormatChannel(ch)).None?
  {
    UnknownLanguageRejected(" | " + NameOf(ch) + ": " + LinkText(ch));
    assert FormatChannel(ch) == "??" + (" | " + NameOf(ch) + ": " + LinkText(ch));
  }

  /** The lines printed for a match's channels. */
  function PrintedLines(channels: seq<ChannelRecord>): (r: seq<string>)
    ensures |r| == |channels|
  {
    seq(|channels|, k requires 0 <= k < |channels| => FormatChannel(channels[k]))
  }

  /** The loop over a match's channels. */
  method PrintChannelLines(channels: seq<ChannelRecord>) returns (lines: seq<string>)
    ensures lines == PrintedLines(channels)
  {
    lines := [];
    for n := 0 to |channels|
      invariant lines == PrintedLines(channels[..n])
    {
      var ch := channels[n];
      var lang := Upper(LanguageOf(ch));
      if lang == [] {
        lang := "??";
      }
      var name := if ch.name.Some? && ch.name.value != [] then ch.name.value else "Unknown";
      var links := Join(if ch.links != [] then ch.links else ch.oldLinks, " | ");
      lines := lines + [lang + " | " + name + ": " + links];
      assert channels[..n + 1][n] == ch;
    }
    assert channels[..|channels|] == channels;
  }

  /** The printing loop over the sorted matches. */
  method PrintMatches(ms: seq<ListedMatch>) returns (lines: seq<seq<string>>)
    ensures |lines| == |ms|
    ensures forall i :: 0 <= i < |ms| ==> lines[i] == PrintedLines(ms[i].channels)
  {
    lines := [];
    for i := 0 to |ms|
      invariant |lines| == i
      invariant forall j :: 0 <= j < i ==> lines[j] == PrintedLines(ms[j].channels)
    {
      var chLines := PrintChannelLines(ms[i].channels);
      lines := lines + [chLines];
    }
  }

  /** The script after the JSON is read: attach the times, sort, and print
      each match's channel lines in the sorted order. */
  method ListMatches(a: array<ListedMatch>) returns (lines: seq<seq<string>>)
    modifies a
    ensures a[..] == SortByTime(Attached(old(a[..])))
    ensures |lines| == a.Length
    ensures forall i :: 0 <= i < a.Length ==> lines[i] == PrintedLines(a[i].channels)
  {
    AttachTimes(a);
    SortMatches(a);
    lines := PrintMatches(a[..]);
  }
}
