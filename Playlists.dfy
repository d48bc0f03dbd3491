/** The playlist files both generators write: their names and their text.
    Writing them to disk is left to the caller. */
module Playlists {
  import opened Strings

  /** A playlist file: its path and the stream URL it points to. */
  datatype Playlist = Playlist(path: string, url: string)

  /** `streams/<safe>.m3u8` for the first stream, `streams/<safe>_<i>.m3u8`
      for the i-th. */
  function PlaylistPath(safe: string, index: nat): string
    requires index >= 1
  {
    "streams/" + safe + (if index == 1 then "" else "_" + NatToString(index)) + ".m3u8"
  }

  /** The three header lines every playlist starts with. */
  const Header := "#EXTM3U\n#EXT-X-VERSION:3\n#EXT-X-STREAM-INF:BANDWIDTH=2800000,RESOLUTION=1920x1080\n"

  /** The text merge.py's `create_m3u8_file` writes: the stripped URL after
      the header. */
  function MergePlaylistText(url: string): string {
    Header + Strip(url)
  }

  /** The text generate_m3u8.py's `create_m3u8_file` writes: the URL as
      given after the header. */
  function GeneratorPlaylistText(url: string): string {
    Header + url
  }

  /** Different stream numbers of one event get different paths. */
  lemma PlaylistPathInjective(safe: string, a: nat, b: nat)
    requires a >= 1 && b >= 1 && a != b
    ensures PlaylistPath(safe, a) != PlaylistPath(safe, b)
  {
    var pre := "streams/" + safe;
    if PlaylistPath(safe, a) == PlaylistPath(safe, b) {
      var sa := if a == 1 then "" else "_" + NatToString(a);
      var sb := if b == 1 then "" else "_" + NatToString(b);
      assert PlaylistPath(safe, a) == pre + (sa + ".m3u8");
      assert PlaylistPath(safe, b) == pre + (sb + ".m3u8");
      assert (pre + (sa + ".m3u8"))[|pre|..] == sa + ".m3u8";
      assert (pre + (sb + ".m3u8"))[|pre|..] == sb + ".m3u8";
      assert |sa| == |sb|;
      assert (sa + ".m3u8")[..|sa|] == sa;
      assert (sb + ".m3u8")[..|sb|] == sb;
      assert sa == sb;
      if a == 1 || b == 1 {
        assert false;
      } else {
        assert sa[1..] == NatToString(a);
        assert sb[1..] == NatToString(b);
        NatToStringInjective(a, b);
      }
    }
  }
}
