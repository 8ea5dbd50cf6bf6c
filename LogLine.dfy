/**
 * Decoding of one access-log line (`Parser.parse_line` in log_parser.py,
 * without its effect on the counters): the whitespace fields of the line,
 * the `/`-segments of its URL, and the positional constants that say where
 * the page type, the display mode and the zoom level sit.
 */
module LogLine {
  import opened Strings

  datatype Option<T> = None | Some(value: T)

  /* Positions of the fields of a log line (`__LINE__`). */
  const DateField := 0
  const TimeField := 1
  const UrlField := 2
  const LineFieldCount := 3

  /* Positions of the segments of the URL path (`__URL__`). */
  const PageSegment := 1
  const DisplayModeSegment := 4
  const ZoomSegment := 6

  const MapPage := "map"
  const UrlSeparator := '/'

  /** A map-tile request: its display mode and, when the path is long enough, its zoom. */
  datatype Tile = Tile(mode: string, zoom: Option<string>)

  /**
   * What one line is to the parser: malformed (counted as ignored), not a map
   * request (skipped without being counted), or a map-tile request.
   */
  datatype Decoded = Malformed | NotMap | MapTile(tile: Tile)

  /** The `/`-segments of the URL of a line that has the expected three fields. */
  function UrlSegments(line: string): (segments: seq<string>)
    requires |Fields(line)| == LineFieldCount
    ensures |segments| >= 1
    ensures forall i :: 0 <= i < |segments| ==> NoSpace(segments[i]) && UrlSeparator !in segments[i]
  {
    SplitOn(Fields(line)[UrlField], UrlSeparator)
  }

  function Decode(line: string): (d: Decoded)
    ensures d.Malformed? <==> |Fields(line)| != LineFieldCount
    ensures d.MapTile? <==>
      && |Fields(line)| == LineFieldCount
      && |UrlSegments(line)| > DisplayModeSegment
      && UrlSegments(line)[PageSegment] == MapPage
    ensures d.MapTile? ==> NoSpace(d.tile.mode) && UrlSeparator !in d.tile.mode
    ensures d.MapTile? && d.tile.zoom.Some? ==>
      NoSpace(d.tile.zoom.value) && UrlSeparator !in d.tile.zoom.value
  {
    if |Fields(line)| != LineFieldCount then Malformed
    else
      var url := UrlSegments(line);
      if |url| > DisplayModeSegment && url[PageSegment] == MapPage then
        var zoom := if |url| > ZoomSegment then Some(url[ZoomSegment]) else None;
        MapTile(Tile(url[DisplayModeSegment], zoom))
      else NotMap
  }

  /**
   * Any line of whitespace-free words, with leading whitespace and any runs
   * of whitespace between and after them, is malformed exactly when it has
   * not three words.
   */
  lemma DecodeWordCount(head: string, words: seq<string>, gaps: seq<string>)
    requires AllSpace(head) && |gaps| == |words| && Gaps(gaps)
    requires forall i :: 0 <= i < |words| ==> words[i] != [] && NoSpace(words[i])
    ensures Decode(head + Spread(words, gaps)).Malformed? <==> |words| != LineFieldCount
  {
    FieldsOfSpread(head, words, gaps);
  }

  /**
   * A line written as date, time and a URL built from `segments`, laid out
   * with any whitespace around them, decodes to the display mode at segment 4
   * and the zoom at segment 6 when the page segment is "map" and the path is
   * long enough, and is skipped otherwise.
   */
  lemma DecodeComposedLine(head: string, date: string, time: string, segments: seq<string>, gaps: seq<string>)
    requires AllSpace(head) && |gaps| == LineFieldCount && Gaps(gaps)
    requires date != [] && NoSpace(date) && time != [] && NoSpace(time)
    requires |segments| >= 1 && Join(UrlSeparator, segments) != []
    requires forall i :: 0 <= i < |segments| ==> NoSpace(segments[i]) && UrlSeparator !in segments[i]
    ensures Decode(head + Spread([date, time, Join(UrlSeparator, segments)], gaps)) ==
      if |segments| > DisplayModeSegment && segments[PageSegment] == MapPage then
        MapTile(Tile(segments[DisplayModeSegment],
                     if |segments| > ZoomSegment then Some(segments[ZoomSegment]) else None))
      else NotMap
  {
    var url := Join(UrlSeparator, segments);
    if |segments| > 1 {
      assert url == segments[0] + [UrlSeparator] + Join(UrlSeparator, segments[1..]);
    }
    JoinNoSpace(UrlSeparator, segments);
    FieldsOfSpread(head, [date, time, url], gaps);
    SplitJoin(segments, UrlSeparator);
  }
}
