# Diwa-rs core, modelled in Dafny

Diwa is a Discord music bot. This project models the logic the bot runs between a
user's `play` query and the audio songbird plays, and proves properties of it:

- **Query classification** (`ConvertQuery`, `ConvertQueryLegacy`). `extract_media`
  turns a query into a YouTube video or playlist, a Spotify track, playlist or
  album, or a search. It works from the host, query pairs, path and path segments
  of the query's parsed URL.
- **Lazily queued tracks** (`ConvertQuery`, `ConvertQueryLegacy`). `LazyQueued`
  queues a Spotify track as a search query. Its `lazy_init` produces placeholder
  songbird metadata: the track field is the marker `$lazy_metadata$` and the title
  is the query.
- **Lazy metadata** (`LazyTracks`). `LazyMetadata`, its conversions from songbird
  metadata, and the per-track slot that `generate_lazy_metadata` fills from a search.
- **The streaming media source** (`YoutubeMedia`). `YoutubeStreamMediaSource` is a
  class over an append-only encoded buffer, a decoded cursor that is rebuilt on
  every refill, and a `bytes_read` counter checked against a 16 384-byte threshold.
  It implements `Read`, `Seek` and `MediaSource`.
- **Scraping the results page** (`YoutubeScraper`). This covers the nom
  `take_until` parsers, `string_to_duration`, and the extraction loop of `search`.
- **YouTube Data API responses** (`YoutubeApi`). `extract_metadata` validates a
  video, and the video and playlist functions handle the item lists.
- **Duration formatting** (`Utils`). `format_duration` as written, and a
  terminating correction.
- **Error values** (`Errors`). `LibError` and `VoiceError`, their `Display` and
  `description`, and the location-recording macros.

Shared modules:

- `Wrappers` holds `Option` and `Result`.
- `Text` models the Rust string operations the source uses: `split`, `join`,
  `contains`, `replace`, `u64::from_str` and nom's `take_until`.
- `Songbird` holds the fields of songbird's `Metadata` that the code reads.

Durations are whole seconds.

Foreign code becomes a parameter:

- the outcome of `Url::parse`;
- the yt-dlp metadata search (`search`);
- the ISO 8601 duration parser (`iso`);
- the YouTube API video lookup (`videosFor`);
- the HTTP body chunks and ffmpeg (`chunks` and `decode`);
- the page's script bodies.

Two behaviours of the code are worth stating outright:

- `generate_lazy_metadata` does not cache. Every call searches again and
  overwrites the slot on success (`LazyTracks.ResolvedTwice`).
- `seek` does not reject a position beyond the decoded data. It delegates to
  `std::io::Cursor`, which fails only on a negative position
  (`YoutubeMedia.SeekPastEndThenReadsNothing`).

## Model

| member | source | states |
|---|---|---|
| Errors.MissingValueAt | src/error.rs:37-42 | `missing_value!(x)` yields a MissingValue whose description is `x` verbatim, recording the invocation's file and line |
| Errors.UrlErrorAt | src/error.rs:44-49 | `url_error!(x)` yields a UrlError whose description is `x` verbatim, recording the invocation's file and line |
| Errors.DifferentChannelAt | src/error.rs:73-78 | `different_channel!()` records the invocation's file and line |
| Errors.Description | src/error.rs:24-34 | `description()` is the value a MissingValue was raised with, or the description of a UrlError, without file or line |
| Errors.Message | src/error.rs:11-21 | the displayed text after "file:line " is "Missing Value: `" or "Url Error: `", then the description, then a closing backquote |
| Errors.FirstAbsent | src/youtube_api.rs:64-73 | of fields checked in order, names the first absent one (every earlier one is present), and None iff none is absent |
| Errors.VoiceDescription | src/error.rs:65-71 | a voice error's `description()` is "Different channel" |
| Errors.Display | src/error.rs:11-21 | the displayed text ends with the error's description followed by a closing backquote |
| Errors.MessageInjective | src/error.rs:11-34 | the text after "file:line " determines the error kind (Missing Value or Url Error) and its description |
| Errors.DisplayInjective | src/error.rs:11-21 | for files without ':' in their path, two errors that display the same are the same error: kind, description, file and line |
| Errors.VoiceDisplay | src/error.rs:57-71 | a voice error displays as file ":" line " " followed by its description "Different channel" |
| LazyTracks.Empty | src/lib.rs:106-108 | `empty()` has an empty title, zero duration and an empty source_url |
| LazyTracks.LossyFromMetadata | src/lib.rs:110-112 | each present field of title, duration and source_url is kept; an absent title or source_url becomes "", an absent duration zero |
| LazyTracks.TryFrom | src/lib.rs:119-123 | `try_from` succeeds iff title, duration and source_url are all present |
| LazyTracks.TryFromReportsFirstMissing | src/lib.rs:119-123 | `try_from` fails exactly when a field is missing; its MissingValue names the first missing field in the order title, duration, source_url |
| LazyTracks.LossyAgreesWithTryFrom | src/lib.rs:110-123 | where `try_from` succeeds, `lossy_from_metadata` gives the same value |
| LazyTracks.ConversionsRoundTrip | src/lib.rs:110-123 | resolved metadata put into songbird metadata comes back unchanged through both `try_from` and `lossy_from_metadata` |
| LazyTracks.IsLazyMetadata | src/lib.rs:144-146 | a track is lazy exactly when songbird's `track` field is the marker `$lazy_metadata$` |
| LazyTracks.ResolvedMetadataIsNotLazy | src/lib.rs:144-146 | songbird metadata built from resolved metadata has no `track` and so is never taken for a placeholder |
| LazyTracks.ResolvedSkipsNonLazy | src/lib.rs:148-150 | on a track without the marker, or a lazy track without a title, the slot is unchanged |
| LazyTracks.ResolvedWritesOnlySearchResults | src/lib.rs:151-155 | the slot changes only to the validated search result for the track's title, and is written whenever search and validation both succeed |
| LazyTracks.ResolvedTwice | src/lib.rs:148-158 | no caching: a second resolution searches again, and its result replaces the first whenever it validates |
| LazyTracks.ResolvedIdempotent | src/lib.rs:148-158 | with a search that answers the same way each time, resolving twice is resolving once |
| LazyTracks.TrackHandle.constructor | src/lib.rs:135-146 | a track starts with its songbird metadata and an empty lazy-metadata slot |
| LazyTracks.TrackHandle.ReadLazyMetadata | src/lib.rs:136-138 | returns the slot's content and changes nothing |
| LazyTracks.TrackHandle.WriteLazyMetadata | src/lib.rs:140-142 | the slot holds the written metadata afterwards, whatever it held before |
| LazyTracks.TrackHandle.IsLazy | src/lib.rs:144-146 | `is_lazy` holds exactly when the handle's songbird metadata has the marker as its `track` |
| LazyTracks.TrackHandle.GenerateLazyMetadata | src/lib.rs:148-158 | the slot becomes `Resolved` of the track's metadata, this call's search and the old slot; the metadata, and so `is_lazy`, cannot change |
| ConvertQuery.FindPair | src/convert_query/mod.rs:33-35 | the value of the first query pair with the given key, and None iff no pair has that key |
| ConvertQuery.StripPrefix | src/convert_query/mod.rs:43 | `strip_prefix`: Some iff the string starts with the prefix, and then the string is prefix + result |
| ConvertQuery.ExtractMedia | src/convert_query/mod.rs:29-69 | a query that is not a URL fails to parse; a URL without a domain panics; a search keeps the query and comes only from an unknown host; a playlist comes only from youtube.com with a `list` pair and no `v` pair; a video is the first `v` pair on youtube.com or the path after '/' on youtu.be |
| ConvertQuery.PlainTextIsNotSearched | src/convert_query/mod.rs:30 | a query that does not parse as a URL is an error, never a search |
| ConvertQuery.SearchExactlyForOtherHosts | src/convert_query/mod.rs:31-67 | the result is a search iff the URL has a domain outside the YouTube, youtu.be and Spotify hosts, and the search carries the query unchanged |
| ConvertQuery.YouTubeVideoFromFirstV | src/convert_query/mod.rs:32-36 | on youtube.com the first `v` pair gives the video, whatever `list` pairs there are |
| ConvertQuery.YouTubePlaylistFromFirstList | src/convert_query/mod.rs:32-38 | on youtube.com with no `v` pair, the first `list` pair gives the playlist |
| ConvertQuery.YouTubeWithoutIdIsError | src/convert_query/mod.rs:37-39 | on youtube.com, with neither `v` nor `list`, the result is the UrlError "Incorrect Url Format" raised at line 39 |
| ConvertQuery.YoutuBeVideoIsPath | src/convert_query/mod.rs:42-46 | on youtu.be the video id is the path without its leading '/' |
| ConvertQuery.SpotifyClassification | src/convert_query/mod.rs:48-66 | on open.spotify.com, track, playlist and album take the second segment as the id, another kind is "Unknown Content Type", and fewer than two segments is "Required Arguments Missing" |
| ConvertQuery.ExtractMediaErrorsAreUrlErrors | src/convert_query/mod.rs:29-69 | every LibError `extract_media` returns is a UrlError raised in this file |
| ConvertQuery.NewLazy | src/convert_query/mod.rs:128-133 | `new_lazy` fails iff source_url is absent, with MissingValue "source_url", and otherwise wraps the metadata unchanged |
| ConvertQuery.NewLazySoundCloudQuery | src/convert_query/mod.rs:135-137 | never fails and keeps the query |
| ConvertQuery.LazyInit | src/convert_query/mod.rs:155-168 | `Lazy(m)` initialises to `m`; a query initialises to stereo, 48 kHz metadata with the lazy marker as track and the query as title |
| ConvertQuery.QueuedQueryIsLazy | src/convert_query/mod.rs:155-168 | a queued query is lazy and titled with the query, so resolving it searches exactly that query |
| ConvertQuery.SpotifyTrackQuery | src/convert_query/mod.rs:91 | the query for a Spotify track starts with its title followed by " by " |
| ConvertQuery.JoinKeepsParts | src/convert_query/mod.rs:98 | each joined artist occurs in the join at its computed offset |
| ConvertQuery.JoinKeepsSeparators | src/convert_query/mod.rs:98 | in the join, the separator follows each part but the last, and the next part starts right after it |
| ConvertQuery.SpotifyQuerySeparatesArtists | src/convert_query/mod.rs:98 | in the track's query, consecutive artists are separated by ", " |
| ConvertQuery.SpotifyQueryNamesEveryArtist | src/convert_query/mod.rs:98 | every artist's name occurs in the track's query, after "title by " |
| ConvertQueryLegacy.ExtractMedia | src/convert_query.rs:28-68 | a query that is not a URL fails to parse; every success is the module version's result, and every failure is one there too |
| ConvertQueryLegacy.ExtractMediaIgnoresData | src/convert_query.rs:28-68 | the result does not depend on the `data` argument |
| ConvertQueryLegacy.AgreesWithModuleVersion | src/convert_query.rs:28-68 | the older copy classifies every query as the module version does, with the same error kinds and texts; only the recorded file and line differ |
| ConvertQueryLegacy.NewLazy | src/convert_query.rs:128-133 | fails iff source_url is absent, with MissingValue "source_url" from this file, and otherwise wraps the metadata unchanged |
| ConvertQueryLegacy.NewLazier | src/convert_query.rs:135-137 | `new_lazier` never fails and keeps the query |
| ConvertQueryLegacy.LazyInit | src/convert_query.rs:153-166 | `Lazy(m)` initialises to `m`; `Lazier(q)` to lazy metadata titled `q` |
| ConvertQueryLegacy.LazierMatchesSoundCloudQuery | src/convert_query.rs:153-166 | `Lazier(q)` initialises exactly as the module version's `LazySoundCloudQuery(q)` |
| ConvertQueryLegacy.QueuedSpotifyTrackIsLazy | src/convert_query.rs:90-97 | a Spotify track queued as `Lazier` is lazy, titled "title by artists", and names every artist |
| YoutubeMedia.FlattenOneMore | src/convert_query/youtube_media.rs:40-43 | a refill appends its chunk's bytes, in order, after the bytes of the chunks taken before it |
| YoutubeMedia.FreshIsValid | src/convert_query/youtube_media.rs:23 | a fresh source has no decoded buffer, empty encoded buffer and zero counters, which is a reachable state with the cursor tracking `bytes_read` |
| YoutubeMedia.RefillWhenExhausted | src/convert_query/youtube_media.rs:40-46 | with the chunk stream exhausted, a refill changes nothing |
| YoutubeMedia.RefillAppendsAndDecodes | src/convert_query/youtube_media.rs:40-65 | a refill appends the next chunk, decodes the whole encoded buffer, records its size and keeps the cursor position (0 without a cursor) |
| YoutubeMedia.EncodedOnlyGrows | src/convert_query/youtube_media.rs:40-43 | refill and read only extend the encoded buffer; seek leaves it alone |
| YoutubeMedia.ReadRefillsIff | src/convert_query/youtube_media.rs:72-76 | `read` takes a chunk iff `bytes_read + 16384` exceeds the decoded size |
| YoutubeMedia.ReadCount | src/convert_query/youtube_media.rs:77-81 | a successful read returns min(len, max(0, decoded length − position)) and advances the cursor and `bytes_read` by that count; the bytes are the decoded data at the position |
| YoutubeMedia.ReadFailsWithoutBuffer | src/convert_query/youtube_media.rs:77-83 | `read` fails iff there is still no decoded buffer after its refill check; it then returns the raw OS error 0 and changes nothing beyond the refill |
| YoutubeMedia.ReadFailsOnlyOnEmptyStream | src/convert_query/youtube_media.rs:70-84 | in a reachable state `read` fails iff there is no decoded buffer and the response has no chunks at all |
| YoutubeMedia.ReadMakesProgress | src/convert_query/youtube_media.rs:70-84 | a read into a non-empty buffer, with decoded bytes left at the position, returns at least one byte (given a decoder that never loses output) |
| YoutubeMedia.OperationsPreserveValid | src/convert_query/youtube_media.rs:26-93 | refill, read and seek keep the encoded buffer equal to the chunks taken, and the decoded buffer equal to its decoding with its size recorded |
| YoutubeMedia.ReadKeepsTracking | src/convert_query/youtube_media.rs:60-81 | without seeks, reads keep the cursor position equal to `bytes_read` |
| YoutubeMedia.SeekKeepsCounters | src/convert_query/youtube_media.rs:88-93 | `seek` changes only the cursor position, fails without a decoded buffer, and changes nothing when it fails |
| YoutubeMedia.SeekPastEndThenReadsNothing | src/convert_query/youtube_media.rs:88-93 | seeking past the decoded data succeeds, and the next read without a refill returns 0 bytes |
| YoutubeMedia.YoutubeStreamMediaSource.constructor | src/convert_query/youtube_media.rs:15-24 | a new source is in the fresh state, with its content length, response chunks and decoder |
| YoutubeMedia.YoutubeStreamMediaSource.Refill | src/convert_query/youtube_media.rs:26-66 | `test2` leaves the state the refill specification gives, the byte-push loop appending the chunk in order |
| YoutubeMedia.YoutubeStreamMediaSource.Read | src/convert_query/youtube_media.rs:70-84 | the new state, the result and the bytes copied into `buf` are those of the read specification; on error `buf` is untouched |
| YoutubeMedia.YoutubeStreamMediaSource.Seek | src/convert_query/youtube_media.rs:88-93 | the new state and result are those of the seek specification |
| YoutubeMedia.YoutubeStreamMediaSource.ByteLen | src/convert_query/youtube_media.rs:97-99 | always the content length |
| YoutubeMedia.YoutubeStreamMediaSource.IsSeekable | src/convert_query/youtube_media.rs:101-103 | always false |
| Text.TakeUntil | src/youtube_scraper.rs:7-15 | nom's `take_until`: on success the input is what was recognised followed by the remainder, and the remainder starts with the tag |
| YoutubeScraper.ParseQuotes | src/youtube_scraper.rs:7-15 | on success the input holds a '"', the recognised text holds none, and the remainder starts at the closing '"' |
| YoutubeScraper.ParseBracketQuotes | src/youtube_scraper.rs:17-25 | on success the input holds a '"' and the remainder starts at the closing `"}` |
| YoutubeScraper.ParseColon | src/youtube_scraper.rs:27-29 | succeeds iff the input holds a ':'; then the input is the recognised text (without ':'), the ':' and the remainder |
| YoutubeScraper.ParseTitle | src/youtube_scraper.rs:31-49 | a title is found only in text containing `"title":`, and the remainder starts at the closing `"}` |
| YoutubeScraper.ParseVideoId | src/youtube_scraper.rs:51-64 | a video id is found only in text containing `"videoId":`; it holds no '"' and the remainder starts at its closing '"' |
| YoutubeScraper.ParseDurationText | src/youtube_scraper.rs:66-84 | a duration text is found only in text containing `"lengthText":`; it holds no '"' and the remainder starts at its closing '"' |
| YoutubeScraper.ParseColonSplits | src/youtube_scraper.rs:27-29 | `parse_colon` splits at the first ':' into (after, before) and fails without one |
| YoutubeScraper.ParseQuotesSplits | src/youtube_scraper.rs:7-15 | `parse_quotes` returns the text between the first two '"', the remainder starting at the second |
| YoutubeScraper.ParseQuotesNeedsTwo | src/youtube_scraper.rs:7-15 | `parse_quotes` fails on text with fewer than two '"' |
| YoutubeScraper.ParseBracketQuotesSplits | src/youtube_scraper.rs:17-25 | `parse_bracket_quotes` returns the text from after the first '"' to the first following `"}` |
| Text.TakeUntilSpec | src/youtube_scraper.rs:7-15 | nom's `take_until` succeeds iff its tag occurs, and then nothing it recognised contains an occurrence: it stops at the first |
| Text.TakeUntilAt | src/youtube_scraper.rs:7-15 | `take_until` on text whose first occurrence of the tag is where `rest` starts recognises exactly what precedes `rest` and leaves `rest` |
| Text.TakeUntilChar | src/youtube_scraper.rs:27-29 | for a one-character tag, `take_until` succeeds iff the character occurs, recognising text without it and leaving the character in front |
| YoutubeScraper.ParseVideoIdAfterKey | src/youtube_scraper.rs:51-64 | `parse_video_id` reads the quoted text right after the first `"videoId":` |
| YoutubeScraper.ParseVideoIdNeedsKey | src/youtube_scraper.rs:51-64 | without `"videoId":` there is no video id |
| YoutubeScraper.ParseDurationTextAfterKeys | src/youtube_scraper.rs:66-84 | reads the quoted text after the first `"simpleText":` following the first `"lengthText":` |
| YoutubeScraper.ParseTitleAfterKeys | src/youtube_scraper.rs:31-49 | reads the bracket-quoted text after the first `"text":` following the first `"title":`, with every `\"` replaced by `"` |
| YoutubeScraper.UnescapeEscape | src/youtube_scraper.rs:39 | unescaping a JSON-escaped title gives back the title, when it has no backslash |
| YoutubeScraper.StringToDuration | src/youtube_scraper.rs:86-98 | the loop returns Σ vᵢ·60ⁱ over the ':'-separated sections counted from the right |
| YoutubeScraper.SectionsValueAppend | src/youtube_scraper.rs:89-95 | a further section on the right multiplies the value so far by 60 and adds the section |
| YoutubeScraper.UnparsableSectionCountsZero | src/youtube_scraper.rs:90-94 | a section that is not a u64 adds 0 but still moves the multiplier; "" reads as 0 |
| YoutubeScraper.ThreeSections | src/youtube_scraper.rs:86-98 | "h:m:s" reads as 3600·h + 60·m + s |
| YoutubeScraper.FirstMarked | src/youtube_scraper.rs:109-110 | the first script that contains "var ytInitialData = ", or None when there is none |
| YoutubeScraper.ExtractFromScript | src/youtube_scraper.rs:111-121 | the loop body on the marked script: video id first, then title and duration from what follows the id (or from the whole script without one) |
| YoutubeScraper.SearchScripts | src/youtube_scraper.rs:109-124 | the loop returns the extraction from the first marked script, or nothing |
| YoutubeScraper.LaterScriptsIgnored | src/youtube_scraper.rs:110-122 | scripts after the first marked one never affect the result |
| YoutubeScraper.TextBeforeVideoIdIgnored | src/youtube_scraper.rs:112-120 | once a video id is found, title and duration come only from the text after it |
| YoutubeScraper.SearchUrl | src/youtube_scraper.rs:101-103 | the results URL is the results page followed by the query, character for character, with every space turned into '+' and no other change |
| YoutubeApi.ExtractMetadata | src/youtube_api.rs:63-76 | success means channels 2, sample rate 48000, the duration the ISO 8601 parser gives, source_url "https://youtu.be/" + id, the snippet title, and no `track`, so API metadata is never lazy |
| YoutubeApi.ExtractMetadataReportsFirstAbsent | src/youtube_api.rs:64-73 | a missing-value error names the first absent field of contentDetails, snippet, duration, id, title; the other failure is an unparsable duration; with all present and parsable it succeeds |
| YoutubeApi.ExtractVideoMetadata | src/youtube_api.rs:9-26 | no items is MissingValue "items", an empty list is "items[0]", and otherwise the first video alone is validated |
| YoutubeApi.PlaylistItemIds | src/youtube_api.rs:38-41 | succeeds iff every item has an id and gives the ids in order; otherwise MissingValue "playlist_item_id" |
| YoutubeApi.VideosMetadata | src/youtube_api.rs:48-55 | one metadata per video in order iff every video validates; otherwise the error of a failing video with all earlier ones valid |
| YoutubeApi.ExtractPlaylistVideoMetadata | src/youtube_api.rs:28-61 | the two loops compute the playlist specification: item ids, a lookup by the ids joined with ",", then per-video validation |
| YoutubeApi.PlaylistRequestListsEveryId | src/youtube_api.rs:45 | the comma-joined id list names exactly the playlist's ids, in order, when no id contains ',' |
| Utils.Pad2 | src/utils.rs:31-34 | a field is at least two decimal digits, exactly two below 100 |
| Utils.ClockUsesDigitsAndColons | src/utils.rs:35 | the "dd:hh:mm:ss" rendering has only digits and ':' and at least 11 characters |
| Utils.GroupIsZeroGroup | src/utils.rs:39 | a field's group starts with "00:" iff the field is zero |
| Utils.FormatDuration | src/utils.rs:30-46 | with a length, the last `length` characters; without one, for durations under an hour, exactly "mm:ss"; only digits and ':' |
| Utils.ShortRendering | src/utils.rs:31-35 | under an hour the rendering is "00:00:" followed by a five-character "mm:ss" |
| Utils.StrippingNeverEnds | src/utils.rs:38-44 | with a non-zero day or hour field, no number of turns of the stripping loop brings the rendering down to five characters |
| Utils.FormatDurationNeverEnds | src/utils.rs:38-44 | as written, for durations of an hour or more, the string is longer than five characters after any number of loop turns, so the loop never ends |
| Utils.FormatDurationCorrected | src/utils.rs:30-46 | the corrected loop ends on every duration, leaving no leading "00:" group beyond five characters |
| Utils.Pad2ParsesBack | src/utils.rs:31-34 | a padded field reads back as its value via `u64::from_str` |
| Utils.TrimmedFieldsReadBack | src/utils.rs:30-46 | the trimmed "hh:mm:ss" or "mm:ss" rendering of in-range fields reads back as 3600·h + 60·m + s |
| Utils.TrimmedReadsBack | src/utils.rs:30-46 | for durations under a day, `string_to_duration` reads the corrected `format_duration` output back as the duration |
| Utils.ClockFields | src/utils.rs:35 | splitting the full rendering at ':' gives exactly the four padded fields, days first |
| Utils.ClockFieldsReadBack | src/utils.rs:35 | `string_to_duration` reads the full rendering of any four u64 fields as d·216 000 + h·3600 + m·60 + s |
| Utils.ClockDaysReadAsSixtyCubed | src/utils.rs:35 | the full rendering reads back with days weighted 60³, not 86 400: secs + days·129 600 |

## Left out

- HTTP, yt-dlp, rustube, ffmpeg, temporary files and the tokio runtime are not modelled. Their results are parameters: the search oracle, the chunk sequence and `decode`.
- `Url::parse`, the ISO 8601 parser and the API clients are oracles. The `unwrap` on a URL without a domain is the `Panic` error value.
- `search`'s page fetch and HTML script selection (src/youtube_scraper.rs:102-108) are not modelled. The model starts from the list of script bodies. Its `unwrap`s on the HTTP calls are not modelled.
- YoutubeScraper.StringToDuration: u64 overflow of `seconds` and `multiplier` is not modelled. Sections and results are unbounded naturals, so inputs with eleven or more sections, or huge values, overflow in the source but not here.
- YoutubeMedia.YoutubeStreamMediaSource.Read: the panics of `chunk().unwrap()` and `block_on` are not modelled. The u64 counters and a cursor seek that overflows are unbounded here.
- YoutubeMedia.ReadMakesProgress: it needs a decoder that never yields fewer bytes for a longer input. Without that, a refill can shrink the decoded buffer under the cursor.
- `YoutubeStreamMediaSource::new` fetches the stream URL and the response. The model's constructor receives the content length, the chunks and the decoder.
- Durations are whole seconds. Sub-second parts of songbird durations are not modelled.
- Only the songbird metadata fields the code reads or writes are modelled: track, title, duration, source_url, channels and sample_rate.
- The `RwLock`s of the typemap and the `Call` mutex are not modelled. Access is sequential.
- Utils.FormatDuration: a `length` beyond the rendered length is excluded by its requires, because the source's subtraction underflows there and panics. A missing length on a duration of an hour or more is excluded too, because the loop never ends (see Findings).
- The Discord commands, main.rs, spotify_to_query.rs, the embed and reply rendering, and the `Data` and `MetadataEventHandler` glue are not part of this model.
- The `convert_query` loops that queue inputs, `call_restart`, `ytdl_search_metadata`, and the ffmpeg and yt-dlp spawning in src/convert_query/mod.rs are not modelled. They are process and network glue.

## Findings

| source | as written | input that shows it | evidently intended | confidence | as-written member | corrected member |
|---|---|---|---|---|---|---|
| src/utils.rs:38-44 | without a length, `while len > 5 { if starts_with("00:") strip }` keeps looping once the leading group is not "00:" | a duration of 3600 s renders "00:01:00:00", is stripped to "01:00:00", and loops forever (src/commands/play.rs:90 and src/utils.rs:49 both pass `None`) | strip leading "00:" groups only while there is one, so it ends on "01:00:00" | not executed | Utils.FormatDurationNeverEnds | Utils.FormatDurationCorrected |
