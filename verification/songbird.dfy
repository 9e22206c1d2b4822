/**
 * The part of songbird's `input::Metadata` record that the modelled code reads or
 * writes. Every field is optional; `Metadata::default()` leaves them all absent.
 * Durations are whole seconds (`Duration::as_secs`).
 */
module Songbird {
  import opened Wrappers

  datatype Metadata = Metadata(
    track: Option<string>,
    title: Option<string>,
    duration: Option<nat>,
    sourceUrl: Option<string>,
    channels: Option<nat>,
    sampleRate: Option<nat>)

  /** `Metadata::default()`. */
  const DefaultMetadata := Metadata(None, None, None, None, None, None)
}
