/** The `Routes` helpers of `Navigation.kt`: the route string that opens the player
    for a song, and the extraction of a YouTube video id from a URL. */
module Routes {

  import opened Wrappers
  import opened Text
  import opened Songs

  const SongListRoute: string := "songList"

  /** The route pattern the player destination is registered with. */
  const PlayerRoutePattern: string := "player/{code}/{artist}/{title}?videoId={videoId}"

  // ---------------------------------------------------------------------------
  // URLEncoder.encode(s, "UTF-8")
  // ---------------------------------------------------------------------------

  /** Characters `URLEncoder` leaves as they are. */
  predicate IsUnreserved(c: char) {
    ('a' <= c <= 'z') || ('A' <= c <= 'Z') || ('0' <= c <= '9') || c == '.' || c == '-' || c == '*' || c == '_'
  }

  /** The UTF-8 encoding of one Unicode scalar value. */
  function Utf8(c: char): (bytes: seq<nat>)
    ensures 1 <= |bytes| <= 4
    ensures forall i :: 0 <= i < |bytes| ==> bytes[i] < 256
    ensures |bytes| == 1 <==> (c as int) < 0x80
  {
    var n := c as int;
    if n < 0x80 then [n]
    else if n < 0x800 then [0xC0 + n / 64, 0x80 + n % 64]
    else if n < 0x1_0000 then [0xE0 + n / 4096, 0x80 + (n / 64) % 64, 0x80 + n % 64]
    else [0xF0 + n / 262144, 0x80 + (n / 4096) % 64, 0x80 + (n / 64) % 64, 0x80 + n % 64]
  }

  /** An upper-case hexadecimal digit. */
  function HexDigit(d: nat): (c: char)
    requires d < 16
    ensures ('0' <= c <= '9') || ('A' <= c <= 'F')
  {
    if d < 10 then ('0' as int + d) as char else ('A' as int + d - 10) as char
  }

  /** `%XY` for one byte. */
  function PercentEscapes(bytes: seq<nat>): (r: string)
    requires forall i :: 0 <= i < |bytes| ==> bytes[i] < 256
    ensures |r| == 3 * |bytes|
    ensures forall i :: 0 <= i < |r| ==> r[i] == '%' || ('0' <= r[i] <= '9') || ('A' <= r[i] <= 'F')
  {
    if |bytes| == 0 then ""
    else ['%', HexDigit(bytes[0] / 16), HexDigit(bytes[0] % 16)] + PercentEscapes(bytes[1..])
  }

  function EncodeChar(c: char): string {
    if IsUnreserved(c) then [c]
    else if c == ' ' then "+"
    else PercentEscapes(Utf8(c))
  }

  /** A character that can appear in `URLEncoder`'s output. */
  predicate IsEncodedChar(c: char) {
    IsUnreserved(c) || c == '+' || c == '%'
  }

  /** `URLEncoder.encode(s, UTF-8)`: unreserved characters stay, a space becomes
      '+', everything else becomes the `%XY` escapes of its UTF-8 bytes. The
      output holds only unreserved characters, '+' and '%', so never a '/', '?',
      '&' or '='. */
  function UrlEncode(s: string): (r: string)
    ensures forall i :: 0 <= i < |r| ==> IsEncodedChar(r[i])
    ensures '/' !in r && '?' !in r && '&' !in r && '=' !in r
    ensures |r| >= |s|
  {
    if |s| == 0 then ""
    else UrlEncode(s[..|s| - 1]) + EncodeChar(s[|s| - 1])
  }

  /** Text made of unreserved characters only is left as it is. */
  lemma {:induction false} UnreservedTextIsUnchanged(s: string)
    requires forall i :: 0 <= i < |s| ==> IsUnreserved(s[i])
    ensures UrlEncode(s) == s
  {
    if |s| > 0 {
      UnreservedTextIsUnchanged(s[..|s| - 1]);
      assert s[..|s| - 1] + [s[|s| - 1]] == s;
    }
  }

  /** A space becomes '+' and a slash its escape. */
  lemma SpaceAndSlashExample()
    ensures UrlEncode("a b/") == "a+b%2F"
  {
    assert "a b/"[..3] == "a b" && "a b"[..2] == "a " && "a "[..1] == "a";
    assert Utf8('/') == [0x2F];
  }

  /** A non-ASCII letter becomes the escapes of its two UTF-8 bytes. */
  lemma NonAsciiExample()
    ensures UrlEncode("\U{E3}") == "%C3%A3"
  {
    assert Utf8('\U{E3}') == [0xC3, 0xA3];
    assert "\U{E3}"[..0] == "";
  }

  // ---------------------------------------------------------------------------
  // extractYouTubeVideoId: Regex(pattern).find(url)
  // ---------------------------------------------------------------------------

  /** A pattern `literal([^stop]+)`: a fixed text followed by a capture of one or
      more characters other than `stop`. */
  datatype Pattern = Pattern(literal: string, stop: char)

  /** The four patterns, in the order they are tried. */
  const YouTubePatterns: seq<Pattern> := [
    Pattern("youtube.com/watch?v=", '&'),
    Pattern("youtu.be/", '?'),
    Pattern("youtube.com/embed/", '?'),
    Pattern("youtube.com/v/", '?')
  ]

  /** The pattern matches starting at index `i`: the literal is there and at
      least one non-stop character follows it. */
  predicate MatchesAt(url: string, p: Pattern, i: nat) {
    OccursAt(url, p.literal, i) && i + |p.literal| < |url| && url[i + |p.literal|] != p.stop
  }

  /** The leftmost index from `from` on where the pattern matches. */
  function FirstMatch(url: string, p: Pattern, from: nat): (r: Option<nat>)
    ensures r.Some? ==> from <= r.value && MatchesAt(url, p, r.value)
    ensures r.Some? ==> forall j :: from <= j < r.value ==> !MatchesAt(url, p, j)
    ensures r.None? ==> forall j :: from <= j ==> !MatchesAt(url, p, j)
    decreases |url| - from
  {
    if from >= |url| then None
    else if MatchesAt(url, p, from) then Some(from)
    else FirstMatch(url, p, from + 1)
  }

  /** The longest prefix of `s` without `stop`. */
  function RunBefore(s: string, stop: char): (r: string)
    ensures |r| <= |s| && r == s[..|r|]
    ensures stop !in r
    ensures |r| == |s| || s[|r|] == stop
  {
    if |s| == 0 || s[0] == stop then ""
    else [s[0]] + RunBefore(s[1..], stop)
  }

  /** The run is exactly the `n` characters before the first stop. */
  lemma {:induction false} RunBeforeIs(s: string, stop: char, n: nat)
    requires n <= |s|
    requires forall k :: 0 <= k < n ==> s[k] != stop
    requires n == |s| || s[n] == stop
    ensures RunBefore(s, stop) == s[..n]
  {
    if n > 0 {
      RunBeforeIs(s[1..], stop, n - 1);
      assert s[..n] == [s[0]] + s[1..][..n - 1];
    }
  }

  /** `regex.find(url)?.groupValues[1]`: the capture at the leftmost match. The
      `+` is greedy, so the capture runs up to the next `stop` or the end, and it
      is never empty. */
  function Find(url: string, p: Pattern): (r: Option<string>)
    ensures r.Some? <==> exists i :: 0 <= i < |url| && MatchesAt(url, p, i)
    ensures r.Some? ==>
      var start := FirstMatch(url, p, 0).value + |p.literal|;
      && |r.value| > 0
      && p.stop !in r.value
      && start + |r.value| <= |url|
      && url[start..start + |r.value|] == r.value
      && (start + |r.value| == |url| || url[start + |r.value|] == p.stop)
  {
    match FirstMatch(url, p, 0)
    case None => None
    case Some(i) =>
      var start := i + |p.literal|;
      var id := RunBefore(url[start..], p.stop);
      assert url[start..][..|id|] == url[start..start + |id|];
      Some(id)
  }

  /** The patterns tried in order; the first one that matches gives the id. */
  function ExtractWith(url: string, ps: seq<Pattern>): string
  {
    if |ps| == 0 then url
    else
      match Find(url, ps[0])
      case Some(id) => id
      case None => ExtractWith(url, ps[1..])
  }

  /** The result of each pattern on the URL. */
  function Finds(url: string, ps: seq<Pattern>): (r: seq<Option<string>>)
    ensures |r| == |ps|
    ensures forall k :: 0 <= k < |ps| ==> r[k] == Find(url, ps[k])
  {
    seq(|ps|, k requires 0 <= k < |ps| => Find(url, ps[k]))
  }

  /** Trying the patterns in order is taking the first pattern that matches at
      all, wherever in the URL a later pattern might match. */
  lemma {:induction false} ExtractWithFirstPattern(url: string, ps: seq<Pattern>)
    ensures var k := FirstSome(Finds(url, ps), 0);
      ExtractWith(url, ps) == if k.Some? then Finds(url, ps)[k.value].value else url
  {
    if |ps| > 0 {
      ExtractWithFirstPattern(url, ps[1..]);
      var f := Finds(url, ps);
      var g := Finds(url, ps[1..]);
      assert f[1..] == g;
      if f[0].None? {
        var k := FirstSome(f, 0);
        var k' := FirstSome(g, 0);
        if k.Some? {
          assert g[k.value - 1].Some?;
          assert k'.Some? && k'.value == k.value - 1;
        } else {
          assert k'.None?;
        }
      }
    }
  }

  /** `extractYouTubeVideoId(url)`: the URL itself when no pattern matches;
      otherwise the capture of the first pattern in the list that matches, which
      is never empty. */
  function ExtractYouTubeVideoId(url: string): (r: string)
    ensures FirstSome(Finds(url, YouTubePatterns), 0).None? ==> r == url
    ensures FirstSome(Finds(url, YouTubePatterns), 0).Some? ==>
      var k := FirstSome(Finds(url, YouTubePatterns), 0).value;
      Find(url, YouTubePatterns[k]) == Some(r) && |r| > 0
  {
    ExtractWithFirstPattern(url, YouTubePatterns);
    ExtractWith(url, YouTubePatterns)
  }

  /** A `watch?v=` URL gives the text after `v=` up to the next '&', whatever other
      pattern the URL also holds. */
  lemma WatchPatternComesFirst(url: string)
    requires Find(url, YouTubePatterns[0]).Some?
    ensures ExtractYouTubeVideoId(url) == Find(url, YouTubePatterns[0]).value
    ensures '&' !in ExtractYouTubeVideoId(url)
  {
    assert Finds(url, YouTubePatterns)[0].Some?;
  }

  // ---------------------------------------------------------------------------
  // playerRoute
  // ---------------------------------------------------------------------------

  /** `player/{code}/{artist}/{title}`, each value URL-encoded. */
  function BaseRoute(song: Song): (r: string)
    ensures r == "player/" + UrlEncode(song.code) + "/" + UrlEncode(song.artist) + "/" + UrlEncode(song.title)
  {
    var p := RouteSegments(song);
    JoinFour(p, "/");
    Join(p, "/")
  }

  /** `playerRoute(song)`: the base route, followed by `?videoId=` and the encoded
      video id for a YouTube song. */
  function PlayerRoute(song: Song): (r: string)
    ensures !IsYouTube(song) ==> r == BaseRoute(song)
    ensures IsYouTube(song) ==>
      r == BaseRoute(song) + "?videoId=" + UrlEncode(ExtractYouTubeVideoId(song.youtubeUrl.value))
  {
    match song.youtubeUrl
    case Some(url) => BaseRoute(song) + "?videoId=" + UrlEncode(ExtractYouTubeVideoId(url))
    case None => BaseRoute(song)
  }

  /** A character in neither the parts nor the separator is not in the joined text. */
  lemma {:induction false} JoinAvoids(parts: seq<string>, sep: string, c: char)
    requires forall k :: 0 <= k < |parts| ==> c !in parts[k]
    requires c !in sep
    ensures c !in Join(parts, sep)
  {
    if |parts| > 1 {
      JoinAvoids(parts[..|parts| - 1], sep, c);
    }
  }

  /** The three values of a route, URL-encoded, after the fixed "player" segment. */
  function RouteSegments(song: Song): (r: seq<string>)
    ensures |r| == 4 && r[0] == "player"
    ensures forall k :: 0 <= k < 4 ==> '/' !in r[k] && '?' !in r[k]
  {
    ["player", UrlEncode(song.code), UrlEncode(song.artist), UrlEncode(song.title)]
  }

  /** Splitting the base route at '/' gives back "player" and the three encoded
      values: no value can run into the next. */
  lemma BaseRouteSplits(song: Song)
    ensures Split(BaseRoute(song), '/') == RouteSegments(song)
  {
    JoinSplitRoundTrip(RouteSegments(song), '/');
  }

  /** A pattern cannot match where its first character is missing, nor anywhere
      in a URL that lacks some character of its literal. */
  lemma NoMatchWithoutLiteral(url: string, p: Pattern, k: nat)
    requires k < |p.literal| && p.literal[k] !in url
    ensures forall i :: 0 <= i < |url| ==> !MatchesAt(url, p, i)
  {
    forall i | 0 <= i < |url| ensures !MatchesAt(url, p, i) {
      if i + |p.literal| <= |url| {
        assert url[i..i + |p.literal|][k] == url[i + k];
      }
    }
  }

  lemma ShortLinkMatch(url: string)
    requires url == "https://youtu.be/abc?t=5"
    ensures FirstMatch(url, YouTubePatterns[1], 0) == Some(8)
  {
    var b := YouTubePatterns[1];
    assert url[8..17] == b.literal;
    assert MatchesAt(url, b, 8);
    forall j | 0 <= j < 8 ensures !MatchesAt(url, b, j) {
      assert url[j..j + 9][0] == url[j];
    }
  }

  /** Only one run of non-stop characters starts at `start` and ends at a stop or
      at the end. */
  lemma RunIsUnique(url: string, start: nat, stop: char, r: string, n: nat)
    requires start + |r| <= |url| && url[start..start + |r|] == r && stop !in r
    requires start + |r| == |url| || url[start + |r|] == stop
    requires start + n <= |url|
    requires forall k :: start <= k < start + n ==> url[k] != stop
    requires start + n == |url| || url[start + n] == stop
    ensures r == url[start..start + n]
  {
    assert forall k :: 0 <= k < |r| ==> r[k] == url[start + k];
    assert |r| == n;
  }

  lemma ShortLinkFind(url: string)
    requires url == "https://youtu.be/abc?t=5"
    ensures Find(url, YouTubePatterns[1]) == Some("abc")
  {
    var b := YouTubePatterns[1];
    ShortLinkMatch(url);
    assert |b.literal| == 9 && b.stop == '?';
    assert url[17] == 'a' && url[18] == 'b' && url[19] == 'c' && url[20] == '?';
    assert MatchesAt(url, b, 8);
    RunIsUnique(url, 17, '?', Find(url, b).value, 3);
    assert url[17..20] == "abc";
  }

  /** A short link with a timestamp: the id stops at the '?'. */
  lemma ShortLinkExample()
    ensures ExtractYouTubeVideoId("https://youtu.be/abc?t=5") == "abc"
  {
    var url := "https://youtu.be/abc?t=5";
    NoMatchWithoutLiteral(url, YouTubePatterns[0], 12);
    ShortLinkFind(url);
    assert Finds(url, YouTubePatterns)[0].None?;
    assert Finds(url, YouTubePatterns)[1].Some?;
  }

  /** The route carries a query ('?') exactly for a YouTube song. */
  lemma RouteHasQueryIffYouTube(song: Song)
    ensures '?' in PlayerRoute(song) <==> IsYouTube(song)
  {
    JoinAvoids(RouteSegments(song), "/", '?');
    if IsYouTube(song) {
      var r := PlayerRoute(song);
      assert r[|BaseRoute(song)|] == '?';
    }
  }
}
