/** The timeline's image lookup: a prepared entry when the image map has one,
    otherwise a single-resolution source built from the path. */
module TimelineImages {
  import opened Text

  /** `TimelineImageSource`: the fields the timeline reads from an entry. */
  datatype TimelineImageSource = TimelineImageSource(
    defaultSrc: string,
    srcSet: string,
    placeholder: string,
    width: int,
    height: int,
    aspectRatio: real)

  const FALLBACK_ASPECT_RATIO: real := 3.0 / 2.0
  const FALLBACK_WIDTH: int := 960
  const FALLBACK_HEIGHT: int := 640

  /** `buildFallbackSource(path)`. */
  function BuildFallbackSource(path: string): (source: TimelineImageSource)
    ensures StartsWith(source.defaultSrc, "/")
    ensures source.srcSet == source.defaultSrc + " 1x"
    ensures source.placeholder == ""
    ensures source.width == FALLBACK_WIDTH && source.height == FALLBACK_HEIGHT
    ensures source.height > 0 && source.width as real == source.aspectRatio * source.height as real
  {
    var normalizedPath := if StartsWith(path, "/") then path else "/images/" + path;
    assert StartsWith(normalizedPath, "/") by {
      if !StartsWith(path, "/") {
        assert normalizedPath[..1] == "/images/"[..1];
      }
    }
    TimelineImageSource(normalizedPath, normalizedPath + " 1x", "", FALLBACK_WIDTH, FALLBACK_HEIGHT,
                        FALLBACK_ASPECT_RATIO)
  }

  /** `getTimelineImageSource(path)`, for the image map `imageMap`
      (`TIMELINE_IMAGE_MAP`): `TIMELINE_IMAGE_MAP[path] ?? buildFallbackSource(path)`. */
  function GetTimelineImageSource(imageMap: map<string, TimelineImageSource>, path: string)
    : (source: TimelineImageSource)
    ensures path in imageMap ==> source == imageMap[path]
    ensures path !in imageMap ==> source == BuildFallbackSource(path)
  {
    if path in imageMap then imageMap[path] else BuildFallbackSource(path)
  }

  /** A path that already starts with `/` is served as it is, and is what
      the `srcSet` names at 1x; any other is looked for under `/images/`. */
  lemma FallbackPath(path: string)
    ensures StartsWith(path, "/") ==>
      BuildFallbackSource(path).defaultSrc == path && BuildFallbackSource(path).srcSet == path + " 1x"
    ensures !StartsWith(path, "/") ==> BuildFallbackSource(path).defaultSrc == "/images/" + path
  {
  }

  /** Entries outside the map do not affect a path's lookup. */
  lemma LookupIgnoresOtherEntries(imageMap: map<string, TimelineImageSource>, path: string,
                                  other: string, entry: TimelineImageSource)
    requires other != path
    ensures GetTimelineImageSource(imageMap[other := entry], path) == GetTimelineImageSource(imageMap, path)
  {
  }
}
