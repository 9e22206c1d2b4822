/**
 * The older copy of query classification (src/convert_query.rs). Its
 * `extract_media` takes the bot's shared data as well, but never reads it; its
 * errors are raised from its own file and lines. Its lazily queued query variant
 * is called `Lazier`.
 */
module ConvertQueryLegacy {
  import opened Wrappers
  import opened Text
  import opened Errors
  import opened Songbird
  import opened LazyTracks
  import CQ = ConvertQuery

  const LegacyFile: string := "src/convert_query.rs"

  /** `extract_media(data, query)`: the same rules as the module version; `data` is unused. */
  function ExtractMedia<D>(data: D, query: string, parsed: Option<CQ.Url>): (r: Result<CQ.Media, Error>)
    ensures parsed.None? ==> r == Err(UrlParse)
    ensures r.Ok? ==> r == CQ.ExtractMedia(query, parsed)
    ensures r.Err? ==> CQ.ExtractMedia(query, parsed).Err?
  {
    match parsed
    case None => Err(UrlParse)
    case Some(url) =>
      match url.domain
      case None => Err(Panic("called `Option::unwrap()` on a `None` value"))
      case Some(domain) =>
        if CQ.IsYouTubeHost(domain) then
          match CQ.FindPair(url.queryPairs, "v")
          case Some(videoId) => Ok(CQ.YouTubeVideo(videoId))
          case None =>
            match CQ.FindPair(url.queryPairs, "list")
            case Some(playlistId) => Ok(CQ.YouTubePlaylist(playlistId))
            case None => Err(Lib(UrlErrorAt("Incorrect Url Format", LegacyFile, 38)))
        else if CQ.IsYoutuBeHost(domain) then
          match CQ.StripPrefix(url.path, "/")
          case Some(videoId) => Ok(CQ.YouTubeVideo(videoId))
          case None => Err(Lib(UrlErrorAt("Incorrect Url Format", LegacyFile, 44)))
        else if CQ.IsSpotifyHost(domain) then
          CQ.SpotifyMedia(url.pathSegments, LegacyFile, (48, 58, 64))
        else Ok(CQ.Search(query))
  }

  /** The result depends only on the query: the shared data is never read. */
  lemma ExtractMediaIgnoresData<D>(d1: D, d2: D, query: string, parsed: Option<CQ.Url>)
    ensures ExtractMedia(d1, query, parsed) == ExtractMedia(d2, query, parsed)
  {
  }

  /** Two results agree except, possibly, for the file and line recorded in a `LibError`. */
  predicate SameUpToLocation(a: Result<CQ.Media, Error>, b: Result<CQ.Media, Error>)
  {
    match (a, b)
    case (Ok(x), Ok(y)) => x == y
    case (Err(Lib(x)), Err(Lib(y))) => x.MissingValue? == y.MissingValue? && Description(x) == Description(y)
    case (Err(x), Err(y)) => x == y
    case _ => false
  }

  /**
   * Both copies classify every query the same way and fail with the same error
   * texts; only the recorded locations differ.
   */
  lemma AgreesWithModuleVersion<D>(data: D, query: string, parsed: Option<CQ.Url>)
    ensures SameUpToLocation(ExtractMedia(data, query, parsed), CQ.ExtractMedia(query, parsed))
    ensures ExtractMedia(data, query, parsed).Ok? ==> ExtractMedia(data, query, parsed) == CQ.ExtractMedia(query, parsed)
  {
  }

  datatype LazyQueued = Lazy(metadata: Metadata) | Lazier(query: string)

  /** `LazyQueued::new_lazy`: fails exactly when the metadata has no source_url. */
  function NewLazy(metadata: Metadata): (r: Result<LazyQueued, Error>)
    ensures r.Ok? <==> metadata.sourceUrl.Some?
    ensures r.Ok? ==> r.value == Lazy(metadata)
    ensures r.Err? ==> r.error == Lib(MissingValueAt("source_url", LegacyFile, 130))
  {
    if metadata.sourceUrl.None? then Err(Lib(MissingValueAt("source_url", LegacyFile, 130)))
    else Ok(Lazy(metadata))
  }

  /** `LazyQueued::new_lazier`: always succeeds. */
  function NewLazier(query: string): (r: Result<LazyQueued, Error>)
    ensures r.Ok? && r.value.Lazier? && r.value.query == query
  {
    Ok(Lazier(query))
  }

  /** `lazy_init`: known metadata as it is, placeholder metadata for a query. */
  function LazyInit(queued: LazyQueued): (m: Metadata)
    ensures queued.Lazy? ==> m == queued.metadata
    ensures queued.Lazier? ==> m.title == Some(queued.query) && IsLazyMetadata(m)
  {
    match queued
    case Lazy(metadata) => metadata
    case Lazier(query) => CQ.PlaceholderMetadata(query)
  }

  /** `Lazier(q)` initialises exactly as the module version's `LazySoundCloudQuery(q)`. */
  lemma LazierMatchesSoundCloudQuery(query: string)
    ensures LazyInit(Lazier(query)) == CQ.LazyInit(CQ.LazySoundCloudQuery(query))
  {
  }

  /**
   * A Spotify playlist or album track is queued as `Lazier` of its "title by
   * artists" query: a lazy placeholder titled with that query, naming every artist.
   */
  lemma QueuedSpotifyTrackIsLazy(t: CQ.TrackData, i: nat)
    requires i < |t.artists|
    ensures var q := CQ.SpotifyTrackQuery(t);
            && IsLazyMetadata(LazyInit(NewLazier(q).value))
            && LazyInit(NewLazier(q).value).title == Some(q)
            && q[..|t.title| + 4] == t.title + " by "
            && OccursAt(q, t.artists[i], |t.title| + 4 + CQ.PartOffset(t.artists, ", ", i))
  {
    CQ.SpotifyQueryNamesEveryArtist(t, i);
  }
}
