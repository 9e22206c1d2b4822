/**
 * Lazy metadata of queued tracks (src/lib.rs). A track queued from a search query
 * carries placeholder songbird metadata whose `track` field is the marker
 * "$lazy_metadata$" and whose title is the query; its real metadata is looked up
 * later and stored in a per-track slot (songbird's typemap entry for `LazyMetadata`).
 */
module LazyTracks {
  import opened Wrappers
  import opened Songbird
  import opened Errors

  /** The `track` value that marks placeholder metadata. */
  const LazyMarker: string := "$lazy_metadata$"

  const LibFile: string := "src/lib.rs"

  /** Resolved metadata of a track; the duration is in whole seconds. */
  datatype LazyMetadata = LazyMetadata(title: string, duration: nat, sourceUrl: string)

  /** `LazyMetadata::empty()`. */
  function Empty(): (m: LazyMetadata)
    ensures m.title == [] && m.duration == 0 && m.sourceUrl == []
  {
    LazyMetadata("", 0, "")
  }

  /** `LazyMetadata::lossy_from_metadata`: absent fields become "" or zero. */
  function LossyFromMetadata(m: Metadata): (r: LazyMetadata)
    ensures m.title.None? ==> r.title == []
    ensures m.title.Some? ==> r.title == m.title.value
    ensures m.duration.None? ==> r.duration == 0
    ensures m.duration.Some? ==> r.duration == m.duration.value
    ensures m.sourceUrl.None? ==> r.sourceUrl == []
    ensures m.sourceUrl.Some? ==> r.sourceUrl == m.sourceUrl.value
  {
    LazyMetadata(
      if m.title.Some? then m.title.value else "",
      if m.duration.Some? then m.duration.value else 0,
      if m.sourceUrl.Some? then m.sourceUrl.value else "")
  }

  /**
   * `LazyMetadata::try_from`: succeeds when title, duration and source_url are all
   * present; otherwise names the first absent one, in that order.
   */
  function TryFrom(m: Metadata): (r: Result<LazyMetadata, LibError>)
    ensures r.Ok? <==> m.title.Some? && m.duration.Some? && m.sourceUrl.Some?
  {
    if m.title.None? then Err(MissingValueAt("title", LibFile, 122))
    else if m.duration.None? then Err(MissingValueAt("duration", LibFile, 122))
    else if m.sourceUrl.None? then Err(MissingValueAt("source_url", LibFile, 122))
    else Ok(LazyMetadata(m.title.value, m.duration.value, m.sourceUrl.value))
  }

  /** The name of the first of title, duration, source_url that `m` lacks. */
  function FirstMissing(m: Metadata): Option<string>
  {
    var required := [("title", m.title.Some?), ("duration", m.duration.Some?), ("source_url", m.sourceUrl.Some?)];
    FirstAbsent(required)
  }

  /** `try_from` fails exactly when a field is missing, and its error names the first one. */
  lemma TryFromReportsFirstMissing(m: Metadata)
    ensures TryFrom(m).Err? <==> FirstMissing(m).Some?
    ensures TryFrom(m).Err? ==> TryFrom(m).error.MissingValue? &&
                                Description(TryFrom(m).error) == FirstMissing(m).value
  {
    var f := [("title", m.title.Some?), ("duration", m.duration.Some?), ("source_url", m.sourceUrl.Some?)];
    assert FirstMissing(m) == FirstAbsent(f);
    assert f[1..] == [f[1], f[2]] && f[1..][1..] == [f[2]] && f[1..][1..][1..] == [];
    assert FirstAbsent(f[1..][1..][1..]) == None;
    assert FirstAbsent(f[1..][1..]) == if m.sourceUrl.None? then Some("source_url") else None;
    assert FirstAbsent(f[1..]) == if m.duration.None? then Some("duration") else FirstAbsent(f[1..][1..]);
  }

  /** Where `try_from` succeeds, the lossy conversion gives the same metadata. */
  lemma LossyAgreesWithTryFrom(m: Metadata)
    ensures TryFrom(m).Ok? ==> LossyFromMetadata(m) == TryFrom(m).value
  {
  }

  /** Songbird metadata carrying exactly the fields of `l`. */
  function ToMetadata(l: LazyMetadata): Metadata
  {
    DefaultMetadata.(title := Some(l.title), duration := Some(l.duration), sourceUrl := Some(l.sourceUrl))
  }

  /** Both conversions give back resolved metadata that was put into a songbird record. */
  lemma ConversionsRoundTrip(l: LazyMetadata)
    ensures TryFrom(ToMetadata(l)) == Ok(l)
    ensures LossyFromMetadata(ToMetadata(l)) == l
  {
  }

  /** `is_lazy` on a track with this songbird metadata. */
  predicate IsLazyMetadata(m: Metadata): (b: bool)
    ensures b <==> m.track.Some? && m.track.value == LazyMarker
  {
    m.track == Some(LazyMarker)
  }

  /** Metadata built from resolved metadata carries no marker: it is never mistaken for a placeholder. */
  lemma ResolvedMetadataIsNotLazy(l: LazyMetadata)
    ensures !IsLazyMetadata(ToMetadata(l))
    ensures ToMetadata(l).track.None?
  {
  }

  /**
   * The slot after `generate_lazy_metadata`, given the slot before and the search
   * oracle. There is no check for an already resolved slot: every call searches
   * again, and any successful, validated result overwrites the slot. Failures of
   * the search or of validation leave the slot as it was.
   */
  function Resolved(meta: Metadata, search: string -> Option<Metadata>, slot: Option<LazyMetadata>): Option<LazyMetadata>
  {
    if IsLazyMetadata(meta) && meta.title.Some? then
      match search(meta.title.value)
      case None => slot
      case Some(found) =>
        match TryFrom(found)
        case Ok(l) => Some(l)
        case Err(_) => slot
    else slot
  }

  /** A track that is not lazy, or whose metadata has no title, never has its slot written. */
  lemma ResolvedSkipsNonLazy(meta: Metadata, search: string -> Option<Metadata>, slot: Option<LazyMetadata>)
    requires !IsLazyMetadata(meta) || meta.title.None?
    ensures Resolved(meta, search, slot) == slot
  {
  }

  /**
   * The slot changes only to a validated search result for the track's title; a
   * search or validation failure is swallowed.
   */
  lemma ResolvedWritesOnlySearchResults(meta: Metadata, search: string -> Option<Metadata>, slot: Option<LazyMetadata>)
    ensures Resolved(meta, search, slot) != slot ==>
              IsLazyMetadata(meta) && meta.title.Some? &&
              search(meta.title.value).Some? &&
              Resolved(meta, search, slot) == Some(TryFrom(search(meta.title.value).value).value)
    ensures IsLazyMetadata(meta) && meta.title.Some? && search(meta.title.value).Some? &&
            TryFrom(search(meta.title.value).value).Ok? ==>
              Resolved(meta, search, slot) == Some(TryFrom(search(meta.title.value).value).value)
  {
  }

  /**
   * No caching: resolving an already resolved track searches again, and the second
   * call's result wins whenever it succeeds.
   */
  lemma ResolvedTwice(meta: Metadata, first: string -> Option<Metadata>, second: string -> Option<Metadata>, slot: Option<LazyMetadata>)
    ensures Resolved(meta, second, Resolved(meta, first, slot)) ==
            (if Resolved(meta, second, None).Some? then Resolved(meta, second, None) else Resolved(meta, first, slot))
  {
  }

  /** With a search that answers the same way every time, resolving twice is resolving once. */
  lemma ResolvedIdempotent(meta: Metadata, search: string -> Option<Metadata>, slot: Option<LazyMetadata>)
    ensures Resolved(meta, search, Resolved(meta, search, slot)) == Resolved(meta, search, slot)
  {
  }

  /**
   * A queued track: songbird's metadata, fixed when the track is created, and the
   * typemap slot holding its resolved metadata.
   */
  class TrackHandle {
    const metadata: Metadata
    var lazySlot: Option<LazyMetadata>

    constructor (metadata: Metadata)
      ensures this.metadata == metadata && lazySlot == None
    {
      this.metadata := metadata;
      lazySlot := None;
    }

    /** `read_lazy_metadata`: the slot's content, no side effect. */
    method ReadLazyMetadata() returns (r: Option<LazyMetadata>)
      ensures r == lazySlot
    {
      r := lazySlot;
    }

    /** `write_lazy_metadata`: stores `m`, replacing what the slot held. */
    method WriteLazyMetadata(m: LazyMetadata)
      modifies this
      ensures lazySlot == Some(m)
    {
      lazySlot := Some(m);
    }

    /** `is_lazy`: the track's metadata carries the placeholder marker. */
    predicate IsLazy(): (b: bool)
      ensures b <==> metadata.track == Some(LazyMarker)
    {
      IsLazyMetadata(metadata)
    }

    /**
     * `generate_lazy_metadata`, with `search` standing for the yt-dlp lookup made by
     * this call.
     */
    method GenerateLazyMetadata(search: string -> Option<Metadata>)
      modifies this
      ensures lazySlot == Resolved(metadata, search, old(lazySlot))
    {
      if IsLazy() {
        if metadata.title.Some? {
          var found := search(metadata.title.value);
          if found.Some? {
            var validated := TryFrom(found.value);
            if validated.Ok? {
              WriteLazyMetadata(validated.value);
            }
          }
        }
      }
    }
  }
}
