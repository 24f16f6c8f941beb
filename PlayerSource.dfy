/** The player store's view of the current source, as the download and
    quality menus read it: quality labels, and a source that is either a
    set of files (one URL per quality) or one HLS manifest, each with
    optional default and overriding request headers. */
module PlayerSource {
  import opened Wrappers
  import opened Headers

  /** `SourceQuality` */
  datatype Quality = Unknown | Q360 | Q480 | Q720 | Q1080 | Q4k

  /** `source.type` */
  datatype SourceType = FileType | HlsType

  datatype Source =
    | File(qualities: map<Quality, string>, headers: Option<Headers>, preferredHeaders: Option<Headers>)
    | Hls(url: string, headers: Option<Headers>, preferredHeaders: Option<Headers>)

  /** `h || {}`: an absent record counts as empty (any object is truthy). */
  function OrEmpty(h: Option<Headers>): Headers {
    if h.Some? then h.value else []
  }
}
