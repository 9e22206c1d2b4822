/**
 * Query classification and lazily queued tracks (src/convert_query/mod.rs).
 *
 * `Url::parse` is foreign: `ExtractMedia` receives its outcome, `None` when the
 * query is not an absolute URL, otherwise the parts of the parsed URL it reads.
 */
module ConvertQuery {
  import opened Wrappers
  import opened Text
  import opened Errors
  import opened Songbird
  import opened LazyTracks

  datatype Media =
    | YouTubeVideo(id: string)
    | YouTubePlaylist(id: string)
    | SpotifyTrack(id: string)
    | SpotifyPlaylist(id: string)
    | SpotifyAlbum(id: string)
    | Search(query: string)

  /**
   * What `extract_media` reads of a parsed `url::Url`: its domain (absent for IP
   * hosts and host-less URLs), its decoded query pairs in order, its path, and its
   * path segments (absent for cannot-be-a-base URLs).
   */
  datatype Url = Url(
    domain: Option<string>,
    queryPairs: seq<(string, string)>,
    path: string,
    pathSegments: Option<seq<string>>)

  const ModFile: string := "src/convert_query/mod.rs"

  predicate IsYouTubeHost(domain: string) { domain == "www.youtube.com" || domain == "youtube.com" }

  predicate IsYoutuBeHost(domain: string) { domain == "www.youtu.be" || domain == "youtu.be" }

  predicate IsSpotifyHost(domain: string) { domain == "open.spotify.com" || domain == "www.open.spotify.com" }

  predicate IsKnownHost(domain: string)
  {
    IsYouTubeHost(domain) || IsYoutuBeHost(domain) || IsSpotifyHost(domain)
  }

  /** `query_pairs().find(|p| p.0 == key).map(|f| f.1)`: the value of the first pair named `key`. */
  function FindPair(pairs: seq<(string, string)>, key: string): (r: Option<string>)
    ensures r.Some? <==> exists i :: 0 <= i < |pairs| && pairs[i].0 == key
    ensures r.Some? ==> exists i :: 0 <= i < |pairs| && pairs[i] == (key, r.value) &&
                                    forall j :: 0 <= j < i ==> pairs[j].0 != key
  {
    if pairs == [] then None
    else if pairs[0].0 == key then Some(pairs[0].1)
    else
      var r := FindPair(pairs[1..], key);
      assert r.Some? ==> exists i :: 1 <= i < |pairs| && pairs[i].0 == key by {
        if r.Some? {
          var i :| 0 <= i < |pairs[1..]| && pairs[1..][i].0 == key;
          assert pairs[i + 1].0 == key;
        }
      }
      assert r.Some? ==> exists i :: 0 <= i < |pairs| && pairs[i] == (key, r.value) &&
                                     forall j :: 0 <= j < i ==> pairs[j].0 != key by {
        if r.Some? {
          var i :| 0 <= i < |pairs[1..]| && pairs[1..][i] == (key, r.value) &&
                   forall j :: 0 <= j < i ==> pairs[1..][j].0 != key;
          assert pairs[i + 1] == (key, r.value);
          assert forall j :: 0 <= j < i + 1 ==> pairs[j].0 != key by {
            forall j | 0 <= j < i + 1 ensures pairs[j].0 != key {
              if j > 0 { assert pairs[j] == pairs[1..][j - 1]; }
            }
          }
        }
      }
      r
  }

  /** `s.strip_prefix(p)`. */
  function StripPrefix(s: string, p: string): (r: Option<string>)
    ensures r.Some? <==> |p| <= |s| && s[..|p|] == p
    ensures r.Some? ==> s == p + r.value
  {
    if |p| <= |s| && s[..|p|] == p then Some(s[|p|..]) else None
  }

  /** The Spotify branch: the first path segment names the kind, the second is the id. */
  function SpotifyMedia(segments: Option<seq<string>>, file: string, lines: (nat, nat, nat)): Result<Media, Error>
  {
    match segments
    case None => Err(Lib(UrlErrorAt("Parsing Error", file, lines.0)))
    case Some(args) =>
      if |args| >= 2 then
        if args[0] == "track" then Ok(SpotifyTrack(args[1]))
        else if args[0] == "playlist" then Ok(SpotifyPlaylist(args[1]))
        else if args[0] == "album" then Ok(SpotifyAlbum(args[1]))
        else Err(Lib(UrlErrorAt("Unknown Content Type", file, lines.1)))
      else Err(Lib(UrlErrorAt("Required Arguments Missing", file, lines.2)))
  }

  /** `extract_media`: classify a query by the host, query pairs and path of its URL. */
  function ExtractMedia(query: string, parsed: Option<Url>): (r: Result<Media, Error>)
    ensures parsed.None? ==> r == Err(UrlParse)
    ensures parsed.Some? && parsed.value.domain.None? ==> r.Err? && r.error.Panic?
    ensures r.Ok? ==> parsed.Some? && parsed.value.domain.Some?
    ensures r.Ok? && r.value.Search? ==> r.value.query == query && !IsKnownHost(parsed.value.domain.value)
    ensures r.Ok? && r.value.YouTubePlaylist? ==>
              IsYouTubeHost(parsed.value.domain.value) &&
              FindPair(parsed.value.queryPairs, "v").None? &&
              FindPair(parsed.value.queryPairs, "list") == Some(r.value.id)
    ensures r.Ok? && r.value.YouTubeVideo? ==>
              (IsYouTubeHost(parsed.value.domain.value) && FindPair(parsed.value.queryPairs, "v") == Some(r.value.id)) ||
              (IsYoutuBeHost(parsed.value.domain.value) && parsed.value.path == "/" + r.value.id)
  {
    match parsed
    case None => Err(UrlParse)
    case Some(url) =>
      match url.domain
      case None => Err(Panic("called `Option::unwrap()` on a `None` value"))
      case Some(domain) =>
        if IsYouTubeHost(domain) then
          match FindPair(url.queryPairs, "v")
          case Some(videoId) => Ok(YouTubeVideo(videoId))
          case None =>
            match FindPair(url.queryPairs, "list")
            case Some(playlistId) => Ok(YouTubePlaylist(playlistId))
            case None => Err(Lib(UrlErrorAt("Incorrect Url Format", ModFile, 39)))
        else if IsYoutuBeHost(domain) then
          match StripPrefix(url.path, "/")
          case Some(videoId) => Ok(YouTubeVideo(videoId))
          case None => Err(Lib(UrlErrorAt("Incorrect Url Format", ModFile, 45)))
        else if IsSpotifyHost(domain) then
          SpotifyMedia(url.pathSegments, ModFile, (49, 59, 65))
        else Ok(Search(query))
  }

  /** A query that is not an absolute URL is an error, never a search. */
  lemma PlainTextIsNotSearched(query: string)
    ensures ExtractMedia(query, None) == Err(UrlParse)
  {
  }

  /**
   * A search is produced exactly for URLs with a domain outside the YouTube, youtu.be
   * and Spotify hosts, and it carries the original query unchanged.
   */
  lemma SearchExactlyForOtherHosts(query: string, parsed: Option<Url>)
    ensures (ExtractMedia(query, parsed).Ok? && ExtractMedia(query, parsed).value.Search?) <==>
            (parsed.Some? && parsed.value.domain.Some? && !IsKnownHost(parsed.value.domain.value))
    ensures ExtractMedia(query, parsed).Ok? && ExtractMedia(query, parsed).value.Search? ==>
            ExtractMedia(query, parsed).value.query == query
  {
  }

  /** On a YouTube host the first `v` value wins, and `v` takes precedence over `list`. */
  lemma YouTubeVideoFromFirstV(query: string, url: Url, i: nat)
    requires url.domain.Some? && IsYouTubeHost(url.domain.value)
    requires i < |url.queryPairs| && url.queryPairs[i].0 == "v"
    requires forall j :: 0 <= j < i ==> url.queryPairs[j].0 != "v"
    ensures ExtractMedia(query, Some(url)) == Ok(YouTubeVideo(url.queryPairs[i].1))
  {
    var r := FindPair(url.queryPairs, "v");
    var k :| 0 <= k < |url.queryPairs| && url.queryPairs[k] == ("v", r.value) &&
             forall j :: 0 <= j < k ==> url.queryPairs[j].0 != "v";
    assert k == i;
  }

  /** On a YouTube host without a `v` pair, the first `list` pair gives the playlist. */
  lemma YouTubePlaylistFromFirstList(query: string, url: Url, i: nat)
    requires url.domain.Some? && IsYouTubeHost(url.domain.value)
    requires forall j :: 0 <= j < |url.queryPairs| ==> url.queryPairs[j].0 != "v"
    requires i < |url.queryPairs| && url.queryPairs[i].0 == "list"
    requires forall j :: 0 <= j < i ==> url.queryPairs[j].0 != "list"
    ensures ExtractMedia(query, Some(url)) == Ok(YouTubePlaylist(url.queryPairs[i].1))
  {
    assert FindPair(url.queryPairs, "v").None?;
    var r := FindPair(url.queryPairs, "list");
    var k :| 0 <= k < |url.queryPairs| && url.queryPairs[k] == ("list", r.value) &&
             forall j :: 0 <= j < k ==> url.queryPairs[j].0 != "list";
    assert k == i;
  }

  /** On a YouTube host, a URL with neither `v` nor `list` is "Incorrect Url Format". */
  lemma YouTubeWithoutIdIsError(query: string, url: Url)
    requires url.domain.Some? && IsYouTubeHost(url.domain.value)
    requires forall j :: 0 <= j < |url.queryPairs| ==> url.queryPairs[j].0 != "v" && url.queryPairs[j].0 != "list"
    ensures ExtractMedia(query, Some(url)) == Err(Lib(UrlErrorAt("Incorrect Url Format", ModFile, 39)))
  {
  }

  /** On youtu.be the video id is the path without its leading '/'. */
  lemma YoutuBeVideoIsPath(query: string, url: Url, id: string)
    requires url.domain.Some? && IsYoutuBeHost(url.domain.value)
    requires url.path == "/" + id
    ensures ExtractMedia(query, Some(url)) == Ok(YouTubeVideo(id))
  {
    assert url.path[..1] == "/";
    assert url.path[1..] == id;
  }

  /**
   * On a Spotify host: two or more segments give a track, playlist or album of the
   * second segment, or "Unknown Content Type"; fewer give "Required Arguments Missing".
   */
  lemma SpotifyClassification(query: string, url: Url, args: seq<string>)
    requires url.domain.Some? && IsSpotifyHost(url.domain.value)
    requires url.pathSegments == Some(args)
    ensures |args| < 2 ==>
              ExtractMedia(query, Some(url)) == Err(Lib(UrlErrorAt("Required Arguments Missing", ModFile, 65)))
    ensures |args| >= 2 ==>
              ExtractMedia(query, Some(url)) ==
                (if args[0] == "track" then Ok(SpotifyTrack(args[1]))
                 else if args[0] == "playlist" then Ok(SpotifyPlaylist(args[1]))
                 else if args[0] == "album" then Ok(SpotifyAlbum(args[1]))
                 else Err(Lib(UrlErrorAt("Unknown Content Type", ModFile, 59))))
  {
  }

  /** Every error `extract_media` raises itself is a `UrlError` from src/convert_query/mod.rs. */
  lemma ExtractMediaErrorsAreUrlErrors(query: string, parsed: Option<Url>)
    ensures ExtractMedia(query, parsed).Err? && ExtractMedia(query, parsed).error.Lib? ==>
              ExtractMedia(query, parsed).error.lib.UrlError? &&
              ExtractMedia(query, parsed).error.lib.file == ModFile &&
              Description(ExtractMedia(query, parsed).error.lib) in
                {"Incorrect Url Format", "Parsing Error", "Unknown Content Type", "Required Arguments Missing"}
  {
  }

  /** A queued track: songbird's metadata known up front, or a search query. */
  datatype LazyQueued = Lazy(metadata: Metadata) | LazySoundCloudQuery(query: string)

  /** `LazyQueued::new_lazy`: metadata without a source_url is refused. */
  function NewLazy(metadata: Metadata): (r: Result<LazyQueued, Error>)
    ensures r.Ok? <==> metadata.sourceUrl.Some?
    ensures r.Ok? ==> r.value == Lazy(metadata)
    ensures r.Err? ==> r.error == Lib(MissingValueAt("source_url", ModFile, 130))
  {
    if metadata.sourceUrl.None? then Err(Lib(MissingValueAt("source_url", ModFile, 130)))
    else Ok(Lazy(metadata))
  }

  /** `LazyQueued::new_lazy_soundcloud_query`: never fails. */
  function NewLazySoundCloudQuery(query: string): (r: Result<LazyQueued, Error>)
    ensures r.Ok? && r.value.LazySoundCloudQuery? && r.value.query == query
  {
    Ok(LazySoundCloudQuery(query))
  }

  /** Placeholder metadata for a deferred query: stereo, 48 kHz, the marker and the query as title. */
  function PlaceholderMetadata(query: string): Metadata
  {
    DefaultMetadata.(channels := Some(2), sampleRate := Some(48000), title := Some(query), track := Some(LazyMarker))
  }

  /**
   * `lazy_init`: the metadata songbird shows for a queued track before it plays
   * (the codec, float PCM, and container, raw, are always the same).
   */
  function LazyInit(queued: LazyQueued): (m: Metadata)
    ensures queued.Lazy? ==> m == queued.metadata
    ensures queued.LazySoundCloudQuery? ==>
              m.title == Some(queued.query) && m.track == Some(LazyMarker) &&
              m.channels == Some(2) && m.sampleRate == Some(48000) &&
              m.duration.None? && m.sourceUrl.None?
  {
    match queued
    case Lazy(metadata) => metadata
    case LazySoundCloudQuery(query) => PlaceholderMetadata(query)
  }

  /**
   * A track queued from a query is lazy, keeps the query as its title, and is
   * resolved by searching exactly that query.
   */
  lemma QueuedQueryIsLazy(query: string, search: string -> Option<Metadata>, slot: Option<LazyMetadata>)
    ensures IsLazyMetadata(LazyInit(LazySoundCloudQuery(query)))
    ensures LazyInit(LazySoundCloudQuery(query)).title == Some(query)
    ensures Resolved(LazyInit(LazySoundCloudQuery(query)), search, slot) ==
            (if search(query).Some? && TryFrom(search(query).value).Ok?
             then Some(TryFrom(search(query).value).value) else slot)
  {
  }

  /** Track data from Spotify: a title and its artists. */
  datatype TrackData = TrackData(title: string, artists: seq<string>)

  /** The search query for a Spotify track: "title by artist1, artist2, ...". */
  function SpotifyTrackQuery(t: TrackData): (q: string)
    ensures |q| >= |t.title| + 4 && q[..|t.title| + 4] == t.title + " by "
  {
    t.title + " by " + Join(t.artists, ", ")
  }

  /** Where the `i`-th part starts in `Join(parts, sep)`. */
  function PartOffset(parts: seq<string>, sep: string, i: nat): nat
    requires i < |parts|
  {
    if i == 0 then 0 else |parts[0]| + |sep| + PartOffset(parts[1..], sep, i - 1)
  }

  /** Every part occurs in the join, at its offset. */
  lemma {:induction false} JoinKeepsParts(parts: seq<string>, sep: string, i: nat)
    requires i < |parts|
    ensures OccursAt(Join(parts, sep), parts[i], PartOffset(parts, sep, i))
    decreases i
  {
    if i == 0 {
      assert Join(parts, sep)[..|parts[0]|] == parts[0];
    } else {
      JoinKeepsParts(parts[1..], sep, i - 1);
      var tail := Join(parts[1..], sep);
      var head := parts[0] + sep;
      assert Join(parts, sep) == head + tail;
      var k := PartOffset(parts[1..], sep, i - 1);
      assert (head + tail)[|head| + k..|head| + k + |parts[i]|] == tail[k..k + |parts[i]|];
    }
  }

  /** The separator follows every part but the last, and the next part starts after it. */
  lemma {:induction false} JoinKeepsSeparators(parts: seq<string>, sep: string, i: nat)
    requires i + 1 < |parts|
    ensures OccursAt(Join(parts, sep), sep, PartOffset(parts, sep, i) + |parts[i]|)
    ensures PartOffset(parts, sep, i + 1) == PartOffset(parts, sep, i) + |parts[i]| + |sep|
    decreases i
  {
    var tail := Join(parts[1..], sep);
    assert Join(parts, sep) == (parts[0] + sep) + tail;
    if i == 0 {
      ConcatAssoc(parts[0], sep, tail);
      OccursAtStart(sep, tail);
      OccursShift(parts[0], sep + tail, sep, 0);
    } else {
      JoinKeepsSeparators(parts[1..], sep, i - 1);
      assert parts[1..][i - 1] == parts[i];
      OccursShift(parts[0] + sep, tail, sep, PartOffset(parts[1..], sep, i - 1) + |parts[i]|);
    }
  }

  /**
   * Consecutive artists are separated by ", " in the query: together with
   * `SpotifyQueryNamesEveryArtist` this fixes the query as "title by a0, a1, …".
   */
  lemma SpotifyQuerySeparatesArtists(t: TrackData, i: nat)
    requires i + 1 < |t.artists|
    ensures var k := |t.title| + 4 + PartOffset(t.artists, ", ", i);
            && OccursAt(SpotifyTrackQuery(t), ", ", k + |t.artists[i]|)
            && |t.title| + 4 + PartOffset(t.artists, ", ", i + 1) == k + |t.artists[i]| + 2
  {
    JoinKeepsSeparators(t.artists, ", ", i);
    var prefix := t.title + " by ";
    var joined := Join(t.artists, ", ");
    assert SpotifyTrackQuery(t) == prefix + joined;
    OccursShift(prefix, joined, ", ", PartOffset(t.artists, ", ", i) + |t.artists[i]|);
  }

  /** Every artist's name appears in the query built for a Spotify track. */
  lemma SpotifyQueryNamesEveryArtist(t: TrackData, i: nat)
    requires i < |t.artists|
    ensures OccursAt(SpotifyTrackQuery(t), t.artists[i], |t.title| + 4 + PartOffset(t.artists, ", ", i))
  {
    JoinKeepsParts(t.artists, ", ", i);
    var prefix := t.title + " by ";
    var joined := Join(t.artists, ", ");
    var k := PartOffset(t.artists, ", ", i);
    assert SpotifyTrackQuery(t) == prefix + joined;
    assert (prefix + joined)[|prefix| + k..|prefix| + k + |t.artists[i]|] == joined[k..k + |t.artists[i]|];
  }
}
