/**
 * Video and playlist metadata from YouTube Data API responses (src/youtube_api.rs).
 * The HTTP calls are foreign: their responses are parameters, and the lookup of
 * videos by a comma-joined id list is the oracle `videosFor`. The ISO 8601 duration
 * parser is the oracle `iso` (None when the text does not parse).
 */
module YoutubeApi {
  import opened Wrappers
  import opened Text
  import opened Errors
  import opened Songbird

  datatype ContentDetails = ContentDetails(duration: Option<string>)

  datatype Snippet = Snippet(title: Option<string>)

  datatype Video = Video(id: Option<string>, contentDetails: Option<ContentDetails>, snippet: Option<Snippet>)

  datatype PlaylistItem = PlaylistItem(id: Option<string>)

  const ApiFile: string := "src/youtube_api.rs"

  const ShortUrlPrefix: string := "https://youtu.be/"

  /**
   * `extract_metadata`: channels 2, sample rate 48000, duration, the youtu.be link
   * of the video id and the snippet title; the first absent field, in the order
   * contentDetails, snippet, duration, id, title, is reported.
   */
  function ExtractMetadata(video: Video, iso: string -> Option<nat>): (r: Result<Metadata, Error>)
    ensures r.Ok? ==> r.value.channels == Some(2) && r.value.sampleRate == Some(48000)
    ensures r.Ok? ==> video.id.Some? && r.value.sourceUrl == Some(ShortUrlPrefix + video.id.value)
    ensures r.Ok? ==> video.snippet.Some? && video.snippet.value.title.Some? &&
                      r.value.title == video.snippet.value.title
    ensures r.Ok? ==> video.contentDetails.Some? && video.contentDetails.value.duration.Some? &&
                      r.value.duration == iso(video.contentDetails.value.duration.value)
    ensures r.Ok? ==> r.value.track.None?
  {
    if video.contentDetails.None? then Err(Lib(MissingValueAt("contentDetails", ApiFile, 64)))
    else if video.snippet.None? then Err(Lib(MissingValueAt("snippet", ApiFile, 65)))
    else if video.contentDetails.value.duration.None? then Err(Lib(MissingValueAt("duration", ApiFile, 71)))
    else
      var text := video.contentDetails.value.duration.value;
      match iso(text)
      case None => Err(DurationParse(text))
      case Some(seconds) =>
        if video.id.None? then Err(Lib(MissingValueAt("id", ApiFile, 72)))
        else if video.snippet.value.title.None? then Err(Lib(MissingValueAt("title", ApiFile, 73)))
        else Ok(DefaultMetadata.(
          channels := Some(2), sampleRate := Some(48000), duration := Some(seconds),
          sourceUrl := Some(ShortUrlPrefix + video.id.value), title := video.snippet.value.title))
  }

  /** The fields `extract_metadata` requires, in the order it checks them. */
  function RequiredFields(video: Video): seq<(string, bool)>
  {
    [ ("contentDetails", video.contentDetails.Some?),
      ("snippet", video.snippet.Some?),
      ("duration", video.contentDetails.Some? && video.contentDetails.value.duration.Some?),
      ("id", video.id.Some?),
      ("title", video.snippet.Some? && video.snippet.value.title.Some?) ]
  }

  /**
   * A missing-value error of `extract_metadata` names the first absent required
   * field; the only other failure is a duration text the ISO 8601 parser rejects,
   * which is checked after contentDetails, snippet and duration and before id and
   * title. With every field present and a parsable duration it succeeds.
   */
  lemma ExtractMetadataReportsFirstAbsent(video: Video, iso: string -> Option<nat>)
    ensures ExtractMetadata(video, iso).Err? && ExtractMetadata(video, iso).error.Lib? ==>
              Some(Description(ExtractMetadata(video, iso).error.lib)) == FirstAbsent(RequiredFields(video))
    ensures ExtractMetadata(video, iso).Err? && !ExtractMetadata(video, iso).error.Lib? ==>
              ExtractMetadata(video, iso).error.DurationParse? &&
              video.contentDetails.Some? && video.snippet.Some? && video.contentDetails.value.duration.Some? &&
              iso(video.contentDetails.value.duration.value).None?
    ensures FirstAbsent(RequiredFields(video)).None? ==>
              (ExtractMetadata(video, iso).Ok? <==> iso(video.contentDetails.value.duration.value).Some?)
  {
    var f := RequiredFields(video);
    assert f[1..] == f[1..5];
    assert f[2..] == f[1..][1..] && f[3..] == f[2..][1..] && f[4..] == f[3..][1..] && f[4..][1..] == [];
    assert FirstAbsent(f[4..]) == if f[4].1 then None else Some("title");
    assert FirstAbsent(f[3..]) == if f[3].1 then FirstAbsent(f[4..]) else Some("id");
    assert FirstAbsent(f[2..]) == if f[2].1 then FirstAbsent(f[3..]) else Some("duration");
    assert FirstAbsent(f[1..]) == if f[1].1 then FirstAbsent(f[2..]) else Some("snippet");
    assert FirstAbsent(f) == if f[0].1 then FirstAbsent(f[1..]) else Some("contentDetails");
  }

  /** `extract_video_metadata`: the first listed video, "items" or "items[0]" when there is none. */
  function ExtractVideoMetadata(items: Option<seq<Video>>, iso: string -> Option<nat>): (r: Result<Metadata, Error>)
    ensures items.None? ==> r == Err(Lib(MissingValueAt("items", ApiFile, 24)))
    ensures items == Some([]) ==> r == Err(Lib(MissingValueAt("items[0]", ApiFile, 21)))
    ensures items.Some? && items.value != [] ==> r == ExtractMetadata(items.value[0], iso)
  {
    match items
    case None => Err(Lib(MissingValueAt("items", ApiFile, 24)))
    case Some(videos) =>
      if |videos| == 0 then Err(Lib(MissingValueAt("items[0]", ApiFile, 21)))
      else ExtractMetadata(videos[0], iso)
  }

  /** Items already collected, followed by the outcome of collecting the rest. */
  function Prefixed<T>(done: seq<T>, rest: Result<seq<T>, Error>): Result<seq<T>, Error>
  {
    match rest
    case Ok(more) => Ok(done + more)
    case Err(e) => Err(e)
  }

  lemma PrefixedNothing<T>(rest: Result<seq<T>, Error>)
    ensures Prefixed([], rest) == rest
  {
    if rest.Ok? { assert [] + rest.value == rest.value; }
  }

  lemma PrefixedTwice<T>(a: seq<T>, b: seq<T>, rest: Result<seq<T>, Error>)
    ensures Prefixed(a, Prefixed(b, rest)) == Prefixed(a + b, rest)
  {
    if rest.Ok? { assert a + (b + rest.value) == (a + b) + rest.value; }
  }

  /** The ids of the playlist items, in order; "playlist_item_id" if any item lacks one. */
  function PlaylistItemIds(items: seq<PlaylistItem>): (r: Result<seq<string>, Error>)
    ensures r.Ok? <==> forall i :: 0 <= i < |items| ==> items[i].id.Some?
    ensures r.Ok? ==> |r.value| == |items| && forall i :: 0 <= i < |items| ==> r.value[i] == items[i].id.value
    ensures r.Err? ==> r.error == Lib(MissingValueAt("playlist_item_id", ApiFile, 40))
  {
    if items == [] then Ok([])
    else if items[0].id.None? then Err(Lib(MissingValueAt("playlist_item_id", ApiFile, 40)))
    else
      var rest := PlaylistItemIds(items[1..]);
      Prefixed([items[0].id.value], rest)
  }

  /**
   * The metadata of each video in order; fails with the error of the first video
   * that fails validation.
   */
  function VideosMetadata(videos: seq<Video>, iso: string -> Option<nat>): (r: Result<seq<Metadata>, Error>)
    ensures r.Ok? <==> forall i :: 0 <= i < |videos| ==> ExtractMetadata(videos[i], iso).Ok?
    ensures r.Ok? ==> |r.value| == |videos| &&
                      forall i :: 0 <= i < |videos| ==> r.value[i] == ExtractMetadata(videos[i], iso).value
    ensures r.Err? ==> exists k :: 0 <= k < |videos| && ExtractMetadata(videos[k], iso).Err? && r.error == ExtractMetadata(videos[k], iso).error &&
                                   forall j :: 0 <= j < k ==> ExtractMetadata(videos[j], iso).Ok?
  {
    if videos == [] then Ok([])
    else
      match ExtractMetadata(videos[0], iso)
      case Err(e) => Err(e)
      case Ok(m) =>
        var rest := VideosMetadata(videos[1..], iso);
        assert rest.Err? ==> exists k :: 0 <= k < |videos| && ExtractMetadata(videos[k], iso).Err? && rest.error == ExtractMetadata(videos[k], iso).error &&
                                   forall j :: 0 <= j < k ==> ExtractMetadata(videos[j], iso).Ok? by {
          if rest.Err? {
            var k :| 0 <= k < |videos[1..]| && ExtractMetadata(videos[1..][k], iso).Err? && rest.error == ExtractMetadata(videos[1..][k], iso).error &&
                     forall j :: 0 <= j < k ==> ExtractMetadata(videos[1..][j], iso).Ok?;
            assert videos[1..][k] == videos[k + 1];
            forall j | 0 <= j < k + 1 ensures ExtractMetadata(videos[j], iso).Ok? {
              if j > 0 { assert videos[j] == videos[1..][j - 1]; }
            }
          }
        }
        Prefixed([m], rest)
  }

  /** The outcome of `extract_playlist_video_metadata`, given both API responses. */
  function PlaylistMetadata(playlistItems: Option<seq<PlaylistItem>>, videosFor: string -> Option<seq<Video>>,
                            iso: string -> Option<nat>): Result<seq<Metadata>, Error>
  {
    match playlistItems
    case None => Err(Lib(MissingValueAt("playlist_items", ApiFile, 59)))
    case Some(items) =>
      match PlaylistItemIds(items)
      case Err(e) => Err(e)
      case Ok(ids) =>
        match videosFor(Join(ids, ","))
        case None => Err(Lib(MissingValueAt("video_items", ApiFile, 56)))
        case Some(videos) => VideosMetadata(videos, iso)
  }

  /**
   * `extract_playlist_video_metadata`: collect the item ids, look the videos up by
   * the comma-joined ids, and validate each returned video in order.
   */
  method ExtractPlaylistVideoMetadata(playlistItems: Option<seq<PlaylistItem>>, videosFor: string -> Option<seq<Video>>,
                                      iso: string -> Option<nat>)
    returns (r: Result<seq<Metadata>, Error>)
    ensures r == PlaylistMetadata(playlistItems, videosFor, iso)
  {
    if playlistItems.None? {
      return Err(Lib(MissingValueAt("playlist_items", ApiFile, 59)));
    }
    var items := playlistItems.value;
    var ids: seq<string> := [];
    var i := 0;
    assert items[i..] == items;
    PrefixedNothing(PlaylistItemIds(items));
    while i < |items|
      invariant 0 <= i <= |items|
      invariant PlaylistItemIds(items) == Prefixed(ids, PlaylistItemIds(items[i..]))
    {
      assert items[i..][1..] == items[i + 1..];
      if items[i].id.None? {
        return Err(Lib(MissingValueAt("playlist_item_id", ApiFile, 40)));
      }
      assert PlaylistItemIds(items[i..]) == Prefixed([items[i].id.value], PlaylistItemIds(items[i + 1..]));
      PrefixedTwice(ids, [items[i].id.value], PlaylistItemIds(items[i + 1..]));
      ids := ids + [items[i].id.value];
      i := i + 1;
    }
    assert items[i..] == [] && ids + [] == ids;
    assert PlaylistItemIds(items) == Ok(ids);
    var videoItems := videosFor(Join(ids, ","));
    if videoItems.None? {
      return Err(Lib(MissingValueAt("video_items", ApiFile, 56)));
    }
    var videos := videoItems.value;
    var collected: seq<Metadata> := [];
    var k := 0;
    assert videos[k..] == videos;
    PrefixedNothing(VideosMetadata(videos, iso));
    while k < |videos|
      invariant 0 <= k <= |videos|
      invariant VideosMetadata(videos, iso) == Prefixed(collected, VideosMetadata(videos[k..], iso))
    {
      assert videos[k..][1..] == videos[k + 1..];
      var m := ExtractMetadata(videos[k], iso);
      if m.Err? {
        return Err(m.error);
      }
      assert VideosMetadata(videos[k..], iso) == Prefixed([m.value], VideosMetadata(videos[k + 1..], iso));
      PrefixedTwice(collected, [m.value], VideosMetadata(videos[k + 1..], iso));
      collected := collected + [m.value];
      k := k + 1;
    }
    assert videos[k..] == [] && collected + [] == collected;
    r := Ok(collected);
  }

  /** The id list sent to the video lookup gives back the playlist's ids, in order. */
  lemma PlaylistRequestListsEveryId(items: seq<PlaylistItem>)
    requires PlaylistItemIds(items).Ok? && |items| >= 1
    requires forall i :: 0 <= i < |items| ==> ',' !in items[i].id.value
    ensures Split(Join(PlaylistItemIds(items).value, ","), ',') == PlaylistItemIds(items).value
  {
    var ids := PlaylistItemIds(items).value;
    SplitJoin(ids, ',');
  }
}
