/**
 * Worked logs for the parser: what the reference definitions, and so the
 * output of `ParseLogs`, give on a few small inputs. Modes, zooms and
 * timestamps are left as parameters, so each scenario covers every log of
 * its shape.
 */
module Scenarios {
  import opened Strings
  import opened Ordering
  import opened LogLine
  import opened History
  import opened LogParser

  /** A word as it appears in a URL segment: non-empty, no whitespace, no '/'. */
  predicate Segment(w: string)
  {
    w != [] && NoSpace(w) && UrlSeparator !in w
  }

  /** The whitespace of the template lines: a space, a tab, then the newline. */
  const LineGaps: seq<string> := [" ", "\t", "\n"]

  lemma LineGapsAreGaps()
    ensures |LineGaps| == LineFieldCount && Gaps(LineGaps)
  {
    assert AllSpace(" ") && AllSpace("\t") && AllSpace("\n");
  }

  /** A log line requesting a tile of `mode` at `zoom`, as read with its newline. */
  function TileLine(mode: string, zoom: string): string
  {
    Spread(["2017-10-06", "10:00:00", Join('/', ["", "map", "fr", "tiles", mode, "256", zoom])], LineGaps)
  }

  lemma DecodeTileLine(mode: string, zoom: string)
    requires Segment(mode) && Segment(zoom)
    ensures Decode(TileLine(mode, zoom)) == MapTile(Tile(mode, Some(zoom)))
  {
    var segments := ["", "map", "fr", "tiles", mode, "256", zoom];
    assert NoSpace("2017-10-06") && NoSpace("10:00:00");
    assert NoSpace("map") && NoSpace("fr") && NoSpace("tiles") && NoSpace("256");
    assert forall i :: 0 <= i < |segments| ==> NoSpace(segments[i]) && UrlSeparator !in segments[i];
    LineGapsAreGaps();
    DecodeComposedLine("", "2017-10-06", "10:00:00", segments, LineGaps);
    assert "" + TileLine(mode, zoom) == TileLine(mode, zoom);
  }

  /** The four requests of the max-merge log: a at z1 twice, b at z2, a at z3. */
  lemma MaxMergeTiles(a: string, b: string, z1: string, z2: string, z3: string)
    requires Segment(a) && Segment(b) && Segment(z1) && Segment(z2) && Segment(z3)
    ensures Tiles([TileLine(a, z1), TileLine(a, z1), TileLine(b, z2), TileLine(a, z3)])
         == [Tile(a, Some(z1)), Tile(a, Some(z1)), Tile(b, Some(z2)), Tile(a, Some(z3))]
  {
    var l1, l2, l3 := TileLine(a, z1), TileLine(b, z2), TileLine(a, z3);
    DecodeTileLine(a, z1);
    DecodeTileLine(b, z2);
    DecodeTileLine(a, z3);
    var s0: seq<string> := [];
    var s1 := s0 + [l1];
    var s2 := s1 + [l1];
    var s3 := s2 + [l2];
    var s4 := s3 + [l3];
    LinesAppend(s0, l1);
    LinesAppend(s1, l1);
    LinesAppend(s2, l2);
    LinesAppend(s3, l3);
    assert s4 == [l1, l1, l2, l3];
  }

  /** Modes a, a, b, a: the open run of a is dropped, and a and b have keys, in that order. */
  lemma MaxMergeKeys(a: string, b: string)
    requires a != b && a != "" && b != ""
    ensures Closed([a, a, b, a]) == [a, a, b]
    ensures SeriesKeys([a, a, b]) == [a, b]
  {
    NewModeClosesRun([a, a, b], a);
    assert [a, a, b] + [a] == [a, a, b, a];
    NoSentinelIn(a, b);
    DedupOfRepeatThenNew(a, b);
  }

  lemma NoSentinelIn(a: string, b: string)
    requires a != "" && b != ""
    ensures NonSentinel([a, a, b]) == [a, a, b]
  {
    var c0: seq<string> := [];
    var c1 := c0 + [a];
    var c2 := c1 + [a];
    var c3 := c2 + [b];
    assert c3 == [a, a, b];
    NonSentinelAppend(c0, a);
    NonSentinelAppend(c1, a);
    NonSentinelAppend(c2, b);
  }

  /** A repeated string is listed once, and a new one after it. */
  lemma DedupOfRepeatThenNew(x: string, y: string)
    requires x != y
    ensures Dedup([x, x, y]) == [x, y]
  {
    var e: seq<string> := [];
    var s1 := e + [x];
    var s2 := s1 + [x];
    var s3 := s2 + [y];
    assert s3 == [x, x, y];
    DedupAppend(e, x);
    DedupAppend(s1, x);
    assert y !in s2 by { assert s2 == [x, x]; }
    DedupAppend(s2, y);
  }

  /** In the closed runs a, a, b the longest run of a is 2 and of b is 1. */
  lemma MaxMergeBest(a: string, b: string)
    requires a != b && a != ""
    ensures Best([a, a, b], a) == 2 && Best([a, a, b], b) == 1
  {
    var c0: seq<string> := [];
    var c1 := c0 + [a];
    var c2 := c1 + [a];
    var c3 := c2 + [b];
    assert c3 == [a, a, b];
    NewModeClosesRun(c0, a);
    SameModeExtendsRun(c1, a);
    NewModeClosesRun(c2, b);
    BestStep(c0, a, a);
    BestStep(c1, a, a);
    BestStep(c2, b, a);
    BestStep(c0, a, b);
    BestStep(c1, a, b);
    BestStep(c2, b, b);
  }

  /** One more request extends `Best` by the run it ends, if that run is of `m`. */
  lemma BestStep(ms: seq<string>, x: string, m: string)
    ensures Best(ms + [x], m) == Max(Best(ms, m), if x == m then Trail(ms + [x]) else 0)
  {
    assert (ms + [x])[..|ms|] == ms;
  }

  /** The zooms requested in a are z1, z1, z3, and in b only z2. */
  lemma MaxMergeZooms(a: string, b: string, z1: string, z2: string, z3: string)
    requires a != b
    ensures ZoomsOf([Tile(a, Some(z1)), Tile(a, Some(z1)), Tile(b, Some(z2)), Tile(a, Some(z3))], a) == [z1, z1, z3]
    ensures ZoomsOf([Tile(a, Some(z1)), Tile(a, Some(z1)), Tile(b, Some(z2)), Tile(a, Some(z3))], b) == [z2]
  {
    var t1, t2, t3 := Tile(a, Some(z1)), Tile(b, Some(z2)), Tile(a, Some(z3));
    var s0: seq<Tile> := [];
    var s1 := s0 + [t1];
    var s2 := s1 + [t1];
    var s3 := s2 + [t2];
    var s4 := s3 + [t3];
    assert s4 == [t1, t1, t2, t3];
    ZoomsOfAppend(s0, t1, a);
    ZoomsOfAppend(s1, t1, a);
    ZoomsOfAppend(s2, t2, a);
    ZoomsOfAppend(s3, t3, a);
    ZoomsOfAppend(s0, t1, b);
    ZoomsOfAppend(s1, t1, b);
    ZoomsOfAppend(s2, t2, b);
    ZoomsOfAppend(s3, t3, b);
    assert ZoomsOf(s4, a) == [z1] + [z1] + [z3];
  }

  /** The zoom list is written in ascending order whatever order the zooms came in. */
  lemma SortTwo(x: string, y: string)
    requires LexLe(x, y)
    ensures Sort([x, y]) == [x, y] && Sort([y, x]) == [x, y]
  {
    assert Sorted([x, y]);
    assert multiset([y, x]) == multiset([x, y]);
    SortedUnique(Sort([x, y]), [x, y]);
    SortedUnique(Sort([y, x]), [x, y]);
  }

  /**
   * Display modes a, a, b, a with zooms z1, z1, z2, z3 (z1 before z3): a's
   * longest closed run is 2 and b's is 1; the final run of a is still open and
   * is not counted, but its zoom z3 is; keys come in first-seen order.
   */
  lemma MaxMergeScenario(a: string, b: string, z1: string, z2: string, z3: string, output: Output)
    requires Segment(a) && Segment(b) && Segment(z1) && Segment(z2) && Segment(z3)
    requires a != b && LexLe(z1, z3) && z1 != z3
    requires Reports(Tiles([TileLine(a, z1), TileLine(a, z1), TileLine(b, z2), TileLine(a, z3)]), output)
    ensures output.Written? && |output.lines| == 2
    ensures output.lines[0] == a + "\t" + "2" + "\t" + (z1 + "," + z3) + "\r\n"
    ensures output.lines[1] == b + "\t" + "1" + "\t" + z2 + "\r\n"
  {
    MaxMergeTiles(a, b, z1, z2, z3);
    MaxMergeReport(a, b, z1, z2, z3, output);
  }

  /** The same, from the requests the max-merge log decodes to. */
  lemma MaxMergeReport(a: string, b: string, z1: string, z2: string, z3: string, output: Output)
    requires a != b && a != "" && b != "" && LexLe(z1, z3) && z1 != z3
    requires Reports([Tile(a, Some(z1)), Tile(a, Some(z1)), Tile(b, Some(z2)), Tile(a, Some(z3))], output)
    ensures output.Written? && |output.lines| == 2
    ensures output.lines[0] == a + "\t" + "2" + "\t" + (z1 + "," + z3) + "\r\n"
    ensures output.lines[1] == b + "\t" + "1" + "\t" + z2 + "\r\n"
  {
    var ts := [Tile(a, Some(z1)), Tile(a, Some(z1)), Tile(b, Some(z2)), Tile(a, Some(z3))];
    assert Modes(ts) == [a, a, b, a];
    MaxMergeKeys(a, b);
    MaxMergeBest(a, b);
    MaxMergeZooms(a, b, z1, z2, z3);
    DedupOfRepeatThenNew(z1, z3);
    assert Dedup([z2]) == [z2] by { DedupAppend([], z2); assert [] + [z2] == [z2]; }
    ReportsOfTwoKeys(ts, a, b, output);
    LineOfTwoZooms(a, z1, z3);
    LineOfOneZoom(b, z2);
  }

  /** What `Reports` requires when the closed runs give exactly two keys, both with zooms. */
  lemma ReportsOfTwoKeys(ts: seq<Tile>, k1: string, k2: string, output: Output)
    requires SeriesKeys(Closed(Modes(ts))) == [k1, k2]
    requires ZoomsOf(ts, k1) != [] && ZoomsOf(ts, k2) != []
    requires Reports(ts, output)
    ensures output.Written? && |output.lines| == 2
    ensures output.lines[0] == FormatLine(k1, Best(Closed(Modes(ts)), k1), Dedup(ZoomsOf(ts, k1)))
    ensures output.lines[1] == FormatLine(k2, Best(Closed(Modes(ts)), k2), Dedup(ZoomsOf(ts, k2)))
  {
    var keys := SeriesKeys(Closed(Modes(ts)));
    assert keys[0] == k1 && keys[1] == k2;
    ReportsWritesExactly(ts, output);
    ReportedLine(ts, output, 0, k1);
    ReportedLine(ts, output, 1, k2);
  }

  /** The line `Reports` requires at position `i`. */
  lemma ReportedLine(ts: seq<Tile>, output: Output, i: nat, k: string)
    requires Reports(ts, output) && output.Written?
    requires i < |SeriesKeys(Closed(Modes(ts)))| && SeriesKeys(Closed(Modes(ts)))[i] == k
    ensures i < |output.lines|
    ensures output.lines[i] == FormatLine(k, Best(Closed(Modes(ts)), k), Dedup(ZoomsOf(ts, k)))
  {
  }

  /** The line written for a key with two zooms, z1 below z3. */
  lemma LineOfTwoZooms(k: string, z1: string, z3: string)
    requires LexLe(z1, z3)
    ensures FormatLine(k, 2, [z1, z3]) == k + "\t" + "2" + "\t" + (z1 + "," + z3) + "\r\n"
  {
    SortTwo(z1, z3);
    assert Digit(2) == '2';
    assert Decimal(2) == "2";
    assert Join(',', [z1, z3]) == z1 + "," + z3 by {
      assert [z1, z3][1..] == [z3];
    }
  }

  /** The line written for a key with one zoom. */
  lemma LineOfOneZoom(k: string, z: string)
    ensures FormatLine(k, 1, [z]) == k + "\t" + "1" + "\t" + z + "\r\n"
  {
    assert Digit(1) == '1';
    assert Decimal(1) == "1";
    assert Sort([z]) == [z];
  }

  /** A log of tile requests of `mode`, one per zoom of `zooms`, in order. */
  function TileLines(mode: string, zooms: seq<string>): seq<string>
  {
    seq(|zooms|, i requires 0 <= i < |zooms| => TileLine(mode, zooms[i]))
  }

  /** The log of `TileLines` decodes to one request per line, each of `mode`. */
  lemma TilesOfTileLines(mode: string, zooms: seq<string>)
    requires Segment(mode) && forall i :: 0 <= i < |zooms| ==> Segment(zooms[i])
    ensures |Tiles(TileLines(mode, zooms))| == |zooms|
    ensures forall i :: 0 <= i < |zooms| ==> Tiles(TileLines(mode, zooms))[i] == Tile(mode, Some(zooms[i]))
  {
    var lines := TileLines(mode, zooms);
    forall i | 0 <= i < |lines| ensures Decode(lines[i]) == MapTile(Tile(mode, Some(zooms[i]))) {
      DecodeTileLine(mode, zooms[i]);
    }
    TilesOfRequestLines(lines);
  }

  /**
   * A log whose requests are all in one display mode has no closed run, so
   * nothing is written, however many requests it holds.
   */
  lemma SingleRunScenario(m: string, zooms: seq<string>, output: Output)
    requires Segment(m) && forall i :: 0 <= i < |zooms| ==> Segment(zooms[i])
    requires Reports(Tiles(TileLines(m, zooms)), output)
    ensures output == Written([])
  {
    TilesOfTileLines(m, zooms);
    SingleRunReport(m, Tiles(TileLines(m, zooms)), output);
  }

  /** The same, for any list of requests that all have mode `m`. */
  lemma SingleRunReport(m: string, ts: seq<Tile>, output: Output)
    requires forall i :: 0 <= i < |ts| ==> ts[i].mode == m
    requires Reports(ts, output)
    ensures output == Written([])
  {
    if ts != [] {
      assert Modes(ts) == [] + Repeat(m, |ts|);
      OpenRunIsNotClosed([], m, |ts|);
    }
  }

  /** A log line for the page `page`, with a display mode in segment 4 and no zoom. */
  function PageLine(page: string, mode: string): string
  {
    Spread(["2017-10-06", "10:00:00", Join('/', ["", page, "fr", "tiles", mode])], LineGaps)
  }

  /**
   * A line with three fields and a URL long enough to carry a display mode is
   * a request exactly when segment 1 is the map page; any other page is
   * skipped without being counted.
   */
  lemma SkippedScenario(page: string, mode: string)
    requires Segment(page) && Segment(mode)
    ensures Decode(PageLine(page, mode)) == if page == MapPage then MapTile(Tile(mode, None)) else NotMap
  {
    var segments := ["", page, "fr", "tiles", mode];
    assert NoSpace("2017-10-06") && NoSpace("10:00:00");
    assert NoSpace("fr") && NoSpace("tiles");
    assert forall i :: 0 <= i < |segments| ==> NoSpace(segments[i]) && UrlSeparator !in segments[i];
    LineGapsAreGaps();
    DecodeComposedLine("", "2017-10-06", "10:00:00", segments, LineGaps);
    assert "" + PageLine(page, mode) == PageLine(page, mode);
  }

  /** A URL of fewer than five segments is skipped whatever its page segment says. */
  lemma ShortUrlScenario(date: string, time: string, page: string, rest: string)
    requires Segment(date) && Segment(time) && Segment(page) && Segment(rest)
    ensures Decode(date + " " + time + " /" + page + "/" + rest + "\n") == NotMap
  {
    assert AllSpace(" ") && AllSpace("\n");
    DecodeComposedLine("", date, time, ["", page, rest], [" ", " ", "\n"]);
    ShortUrlLine(date, time, page, rest);
  }

  /** The line of `ShortUrlScenario`, laid out as three words and their gaps. */
  lemma ShortUrlLine(date: string, time: string, page: string, rest: string)
    ensures "" + Spread([date, time, Join(UrlSeparator, ["", page, rest])], [" ", " ", "\n"])
      == date + " " + time + " /" + page + "/" + rest + "\n"
  {
    JoinThree(UrlSeparator, "", page, rest);
    var url := [UrlSeparator] + (page + [UrlSeparator] + rest);
    assert "" + [UrlSeparator] == [UrlSeparator];
    assert Join(UrlSeparator, ["", page, rest]) == url;
    SpreadThree(date, time, url, " ", " ", "\n");
    var line := date + " " + (time + " " + (url + "\n"));
    assert "" + line == line;
  }

  lemma SpreadThree(x: string, y: string, z: string, g1: string, g2: string, g3: string)
    ensures Spread([x, y, z], [g1, g2, g3]) == x + g1 + (y + g2 + (z + g3))
  {
    assert [x, y, z][1..] == [y, z] && [y, z][1..] == [z] && [z][1..] == [];
    assert [g1, g2, g3][1..] == [g2, g3] && [g2, g3][1..] == [g3] && [g3][1..] == [];
    assert Spread([z], [g3]) == z + g3 + [];
  }

  /** A line with two fields is counted as ignored. */
  lemma IgnoredScenario(date: string, time: string)
    requires Segment(date) && Segment(time)
    ensures Decode(date + " " + time + "\n") == Malformed
  {
    assert AllSpace("\n");
    FieldsOfJoin(' ', [date, time], "\n");
    assert Join(' ', [date, time]) == date + " " + time by {
      assert Join(' ', [time]) == time;
    }
  }

  lemma JoinThree(sep: char, x: string, y: string, z: string)
    ensures Join(sep, [x, y, z]) == x + [sep] + (y + [sep] + z)
  {
    assert [x, y, z][1..] == [y, z] && [y, z][1..] == [z];
    assert Join(sep, [y, z]) == y + [sep] + z;
  }

  /** An empty log writes nothing and ignores nothing. */
  lemma EmptyScenario(output: Output)
    requires Reports(Tiles([]), output)
    ensures output == Written([]) && MalformedCount([]) == 0
  {
  }
}
