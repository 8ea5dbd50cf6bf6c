/**
 * The log parser of log_parser.py: the `Parser` class, a streaming state
 * machine fed one access-log line at a time, the formatting loop of
 * `write_output`, and the driver `parse_logs` with its file handling
 * replaced by a sequence of lines.
 *
 * `_count_series` is a Python dict whose iteration order is its insertion
 * order; it is modelled by the map `countSeries` and the sequence
 * `seriesOrder` of its keys in the order they were inserted.
 */
module LogParser {
  import opened Strings
  import opened Ordering
  import opened LogLine
  import opened History

  /** The parser's fields at one moment, to say what an operation leaves unchanged. */
  datatype Counters = Counters(
    lastDisplayMode: string,
    displayModeCounter: nat,
    countSeries: map<string, nat>,
    seriesOrder: seq<string>,
    listZooms: map<string, seq<string>>,
    ignoredLines: nat)

  class Parser {
    /** Display mode of the latest map-tile request; "" before the first. */
    var lastDisplayMode: string
    /** Length of the run of `lastDisplayMode` still open. */
    var displayModeCounter: nat
    /** Longest closed run per display mode. */
    var countSeries: map<string, nat>
    /** The keys of `countSeries` in insertion order. */
    var seriesOrder: seq<string>
    /** Distinct zooms per display mode, in first-seen order. */
    var listZooms: map<string, seq<string>>
    /** Number of lines whose whitespace split does not have three fields. */
    var ignoredLines: nat
    /** Every line given to `ParseLine` so far. */
    ghost var consumed: seq<string>
    /** The map-tile requests among them. */
    ghost var requests: seq<Tile>

    ghost function Snapshot(): Counters
      reads this
    {
      Counters(lastDisplayMode, displayModeCounter, countSeries, seriesOrder, listZooms, ignoredLines)
    }

    /** Every field is what the reference definitions give for the lines consumed so far. */
    ghost predicate Valid()
      reads this
    {
      && requests == Tiles(consumed)
      && ignoredLines == MalformedCount(consumed)
      && RunsMatch(lastDisplayMode, displayModeCounter, countSeries, seriesOrder, Modes(requests))
      && ZoomsMatch(listZooms, requests)
    }

    constructor ()
      ensures Valid() && consumed == []
      ensures Snapshot() == Counters("", 0, map[], [], map[], 0)
    {
      lastDisplayMode := "";
      displayModeCounter := 0;
      countSeries := map[];
      seriesOrder := [];
      listZooms := map[];
      ignoredLines := 0;
      consumed := [];
      requests := [];
    }

    /**
     * Counts one more request with `displayMode`. The same mode as before
     * extends the open run; another mode closes it, max-merges its length
     * into `countSeries` (unless the run is the initial "" one) and opens a
     * run of length 1.
     */
    method UpdateDisplayModeCounters(displayMode: string)
      modifies this`lastDisplayMode, this`displayModeCounter, this`countSeries, this`seriesOrder
      ensures displayMode == old(lastDisplayMode) ==>
        && displayModeCounter == old(displayModeCounter) + 1
        && lastDisplayMode == old(lastDisplayMode)
        && countSeries == old(countSeries)
        && seriesOrder == old(seriesOrder)
      ensures displayMode != old(lastDisplayMode) ==>
        && displayModeCounter == 1
        && lastDisplayMode == displayMode
        && var last, run := old(lastDisplayMode), old(displayModeCounter);
           if last in old(countSeries) then
             && countSeries == old(countSeries)[last := Max(old(countSeries)[last], run)]
             && seriesOrder == old(seriesOrder)
           else if last != "" then
             && countSeries == old(countSeries)[last := run]
             && seriesOrder == old(seriesOrder) + [last]
           else
             && countSeries == old(countSeries)
             && seriesOrder == old(seriesOrder)
    {
      if displayMode != lastDisplayMode {
        if lastDisplayMode in countSeries {
          if countSeries[lastDisplayMode] < displayModeCounter {
            countSeries := countSeries[lastDisplayMode := displayModeCounter];
          }
        } else {
          if lastDisplayMode != "" {
            countSeries := countSeries[lastDisplayMode := displayModeCounter];
            seriesOrder := seriesOrder + [lastDisplayMode];
          }
        }
        displayModeCounter := 1;
        lastDisplayMode := displayMode;
      } else {
        displayModeCounter := displayModeCounter + 1;
      }
    }

    /** Adds `zoom` at the end of the zoom list of `displayMode` unless it is already there. */
    method UpdateZoomValues(displayMode: string, zoom: string)
      modifies this`listZooms
      ensures listZooms == old(listZooms)[displayMode := RecordZoom(old(listZooms), displayMode, zoom)]
    {
      if displayMode in listZooms {
        var zooms := listZooms[displayMode];
        if zoom !in zooms {
          zooms := zooms + [zoom];
          listZooms := listZooms[displayMode := zooms];
        }
      } else {
        listZooms := listZooms[displayMode := [zoom]];
      }
    }

    /**
     * Feeds one log line. A line without three whitespace fields is counted
     * as ignored and changes nothing else; a line that is not a map-tile
     * request changes nothing at all; a map-tile request updates the run
     * counters and, when it has a zoom, the zoom list of its mode.
     */
    method ParseLine(line: string)
      requires Valid()
      modifies this
      ensures Valid()
      ensures consumed == old(consumed) + [line]
      ensures Decode(line).Malformed? ==>
        Snapshot() == old(Snapshot()).(ignoredLines := old(ignoredLines) + 1)
      ensures Decode(line).NotMap? ==> Snapshot() == old(Snapshot())
      ensures Decode(line).MapTile? ==> ignoredLines == old(ignoredLines)
      ensures Decode(line).MapTile? && Decode(line).tile.zoom.None? ==> listZooms == old(listZooms)
    {
      LinesAppend(consumed, line);
      var decoded := Decode(line);
      match decoded {
        case Malformed =>
          ignoredLines := ignoredLines + 1;
        case NotMap =>
        case MapTile(t) =>
          CountRequest(t, requests);
          requests := requests + [t];
      }
      consumed := consumed + [line];
    }

    /**
     * The part of `parse_line` that handles a map-tile request `t`: the run
     * counters, then the zoom list when the request has a zoom. The fields
     * agree with the reference definitions over `ts` before, and over
     * `ts + [t]` after.
     */
    method CountRequest(t: Tile, ghost ts: seq<Tile>)
      requires RunsMatch(lastDisplayMode, displayModeCounter, countSeries, seriesOrder, Modes(ts))
      requires ZoomsMatch(listZooms, ts)
      modifies this`lastDisplayMode, this`displayModeCounter, this`countSeries, this`seriesOrder, this`listZooms
      ensures RunsMatch(lastDisplayMode, displayModeCounter, countSeries, seriesOrder, Modes(ts + [t]))
      ensures ZoomsMatch(listZooms, ts + [t])
      ensures t.zoom.None? ==> listZooms == old(listZooms)
    {
      ghost var last, run, series, order, zooms := lastDisplayMode, displayModeCounter, countSeries, seriesOrder, listZooms;
      UpdateDisplayModeCounters(t.mode);
      if t.zoom.Some? {
        UpdateZoomValues(t.mode, t.zoom.value);
      }
      ModesAppend(ts, t);
      if t.mode == last {
        RunsMatchSameMode(last, run, series, order, Modes(ts));
      } else {
        RunsMatchNewMode(last, run, series, order, Modes(ts), t.mode, countSeries, seriesOrder);
      }
      ZoomsMatchAppend(zooms, ts, t, listZooms);
    }

    /** `_count_series` as returned by `get_count_series`: its keys in order and its values. */
    function GetCountSeries(): (r: (seq<string>, map<string, nat>))
      reads this
      requires Valid()
      ensures var closed := Closed(Modes(Tiles(consumed)));
        && r.0 == SeriesKeys(closed)
        && (forall m :: m in r.1 <==> m != "" && m in closed)
        && (forall m :: m in r.1 ==> r.1[m] == Best(closed, m) >= 1)
    {
      SeriesKeysAreClosedModes(Closed(Modes(Tiles(consumed))));
      forall m | m in countSeries ensures countSeries[m] >= 1 {
        BestPositive(Closed(Modes(Tiles(consumed))), m);
      }
      (seriesOrder, countSeries)
    }

    /** `_list_zooms` as returned by `get_list_zooms`: the distinct zooms of each mode, in first-seen order. */
    function GetListZooms(): (r: map<string, seq<string>>)
      reads this
      requires Valid()
      ensures ZoomsMatch(r, Tiles(consumed))
    {
      listZooms
    }

    /** `_ignored_lines` as returned by `get_ignored_lines`. */
    function GetIgnoredLines(): (n: nat)
      reads this
      requires Valid()
      ensures n == MalformedCount(consumed)
    {
      ignoredLines
    }
  }

  /** The run fields agree with the reference definitions over the display modes `ms`. */
  ghost predicate RunsMatch(last: string, run: nat, series: map<string, nat>, order: seq<string>, ms: seq<string>)
  {
    var closed := Closed(ms);
    && last == LastMode(ms)
    && run == Trail(ms)
    && order == SeriesKeys(closed)
    && (forall m :: m in series <==> m in order)
    && (forall m :: m in series ==> series[m] == Best(closed, m))
  }

  /** The zoom lists agree with the reference definitions over the requests `ts`. */
  ghost predicate ZoomsMatch(zooms: map<string, seq<string>>, ts: seq<Tile>)
  {
    && (forall m :: m in zooms <==> ZoomsOf(ts, m) != [])
    && (forall m :: m in zooms ==> zooms[m] == Dedup(ZoomsOf(ts, m)))
  }

  /** A request with the current mode only lengthens the open run. */
  lemma RunsMatchSameMode(last: string, run: nat, series: map<string, nat>, order: seq<string>, ms: seq<string>)
    requires RunsMatch(last, run, series, order, ms)
    ensures RunsMatch(last, run + 1, series, order, ms + [last])
  {
    SameModeExtendsRun(ms, last);
  }

  /**
   * A request with another mode: max-merging the open run into the series
   * (skipping the initial "" run) and opening a run of 1 keeps the fields in
   * agreement with the reference definitions.
   */
  lemma RunsMatchNewMode(last: string, run: nat, series: map<string, nat>, order: seq<string>,
                         ms: seq<string>, x: string, series': map<string, nat>, order': seq<string>)
    requires RunsMatch(last, run, series, order, ms)
    requires x != last
    requires if last in series then series' == series[last := Max(series[last], run)] && order' == order
             else if last != "" then series' == series[last := run] && order' == order + [last]
             else series' == series && order' == order
    ensures RunsMatch(x, 1, series', order', ms + [x])
  {
    NewModeClosesRun(ms, x);
    if ms != [] {
      var closed := Closed(ms);
      SeriesKeysSplitAtOpenRun(ms);
      SeriesKeysAreClosedModes(closed);
      BestPositive(closed, last);
      forall m ensures Best(ms, m) == Max(Best(closed, m), if m == last then run else 0) {
        BestSplitsAtOpenRun(ms, m);
      }
    }
  }

  /** Recording the zoom of one more request keeps the zoom lists in agreement. */
  lemma ZoomsMatchAppend(zooms: map<string, seq<string>>, ts: seq<Tile>, t: Tile, zooms': map<string, seq<string>>)
    requires ZoomsMatch(zooms, ts)
    requires t.zoom.None? ==> zooms' == zooms
    requires t.zoom.Some? ==> zooms' == zooms[t.mode := RecordZoom(zooms, t.mode, t.zoom.value)]
    ensures ZoomsMatch(zooms', ts + [t])
  {
    forall m
      ensures m in zooms' <==> ZoomsOf(ts + [t], m) != []
      ensures m in zooms' ==> zooms'[m] == Dedup(ZoomsOf(ts + [t], m))
    {
      ZoomsOfAppend(ts, t, m);
      if t.zoom.Some? && m == t.mode {
        RecordZoomMatches(zooms, m, ZoomsOf(ts, m), t.zoom.value);
      } else {
        assert ZoomsOf(ts + [t], m) == ZoomsOf(ts, m);
      }
    }
  }

  /** Recording `z` for `m` turns the deduplicated list of `before` into that of `before + [z]`. */
  lemma RecordZoomMatches(zooms: map<string, seq<string>>, m: string, before: seq<string>, z: string)
    requires m in zooms <==> before != []
    requires m in zooms ==> zooms[m] == Dedup(before)
    ensures RecordZoom(zooms, m, z) == Dedup(before + [z])
  {
    DedupAppend(before, z);
    DedupMembers(before);
    if m !in zooms {
      assert before + [z] == [z];
    }
  }

  /** The zoom list of `mode` once `zoom` has been recorded. */
  function RecordZoom(zooms: map<string, seq<string>>, mode: string, zoom: string): seq<string>
  {
    if mode !in zooms then [zoom]
    else if zoom in zooms[mode] then zooms[mode]
    else zooms[mode] + [zoom]
  }

  /** The result of `write_output`: the lines it writes, or the key of its `KeyError`. */
  datatype Output = Written(lines: seq<string>) | KeyError(key: string)

  /** One line of the output file: mode, run length and the sorted zooms, tab-separated. */
  function FormatLine(key: string, serie: nat, zooms: seq<string>): (line: string)
    ensures |line| > |key| + 3 && line[|line| - 2..] == "\r\n"
    ensures key <= line && line[|key|] == '\t'
  {
    key + "\t" + Decimal(serie) + "\t" + Join(',', Sort(zooms)) + "\r\n"
  }

  /**
   * An output line reads back as its three tab-separated fields, the run
   * length as its decimal value and the zooms as a sorted arrangement of the
   * list they came from, provided no key or zoom holds a tab and no zoom a
   * comma (the format escapes neither).
   */
  lemma FormatLineReadsBack(key: string, serie: nat, zooms: seq<string>)
    requires '\t' !in key
    requires forall i :: 0 <= i < |zooms| ==> '\t' !in zooms[i] && ',' !in zooms[i]
    ensures var line := FormatLine(key, serie, zooms);
      && |line| >= 2 && line[|line| - 2..] == "\r\n"
      && var fields := SplitOn(line[..|line| - 2], '\t');
      && |fields| == 3
      && fields[0] == key
      && fields[1] == Decimal(serie)
      && DecimalValue(fields[1]) == serie
      && fields[2] == Join(',', Sort(zooms))
      && (zooms != [] ==> Sorted(SplitOn(fields[2], ',')) && multiset(SplitOn(fields[2], ',')) == multiset(zooms))
  {
    var sorted := Sort(zooms);
    var joined := Join(',', sorted);
    forall i | 0 <= i < |sorted| ensures '\t' !in sorted[i] && ',' !in sorted[i] {
      assert sorted[i] in multiset(zooms);
    }
    assert '\t' !in joined by {
      JoinNoTab(sorted);
    }
    var line := FormatLine(key, serie, zooms);
    var parts := [key, Decimal(serie), joined];
    assert Join('\t', parts[1..]) == Decimal(serie) + "\t" + joined by {
      assert parts[1..][1..] == [joined];
    }
    assert line == Join('\t', parts) + "\r\n";
    assert line[..|line| - 2] == Join('\t', parts);
    assert forall i :: 0 <= i < |Decimal(serie)| ==> Decimal(serie)[i] != '\t';
    SplitJoin([key, Decimal(serie), joined], '\t');
    DecimalRoundTrip(serie);
    if zooms != [] {
      SplitJoin(sorted, ',');
    }
  }

  lemma {:induction false} JoinNoTab(parts: seq<string>)
    requires forall i :: 0 <= i < |parts| ==> '\t' !in parts[i]
    ensures '\t' !in Join(',', parts)
  {
    if |parts| > 1 {
      JoinNoTab(parts[1..]);
    }
  }

  /**
   * The formatting loop of `write_output`: one line per key of the series
   * dict, in its order, with the zooms looked up in the zoom dict; a key
   * with no zoom list stops it with `KeyError`.
   */
  method WriteOutput(keys: seq<string>, series: map<string, nat>, zooms: map<string, seq<string>>)
    returns (output: Output)
    requires forall k :: k in keys ==> k in series
    ensures output.KeyError? ==>
      exists i :: 0 <= i < |keys| && keys[i] == output.key && keys[i] !in zooms
        && forall j :: 0 <= j < i ==> keys[j] in zooms
    ensures output.Written? ==>
      && (forall k :: k in keys ==> k in zooms)
      && |output.lines| == |keys|
      && forall i :: 0 <= i < |keys| ==>
           output.lines[i] == FormatLine(keys[i], series[keys[i]], zooms[keys[i]])
  {
    var lines: seq<string> := [];
    var i := 0;
    while i < |keys|
      invariant 0 <= i <= |keys|
      invariant forall j :: 0 <= j < i ==> keys[j] in zooms
      invariant |lines| == i
      invariant forall j :: 0 <= j < i ==> lines[j] == FormatLine(keys[j], series[keys[j]], zooms[keys[j]])
    {
      var key := keys[i];
      if key !in zooms {
        return KeyError(key);
      }
      lines := lines + [FormatLine(key, series[key], zooms[key])];
      i := i + 1;
    }
    output := Written(lines);
  }

  /**
   * What `write_output` produces for the requests `ts`: one line per display
   * mode that has closed a run, in the order the modes first closed one,
   * with its longest closed run and its distinct zooms; or a `KeyError` on
   * the first such mode that was never requested with a zoom.
   */
  ghost predicate Reports(ts: seq<Tile>, output: Output)
  {
    var closed := Closed(Modes(ts));
    var keys := SeriesKeys(closed);
    && (output.KeyError? ==>
          exists i :: 0 <= i < |keys| && keys[i] == output.key && ZoomsOf(ts, keys[i]) == []
            && forall j :: 0 <= j < i ==> ZoomsOf(ts, keys[j]) != [])
    && (output.Written? ==>
          && |output.lines| == |keys|
          && forall i :: 0 <= i < |keys| ==>
               && ZoomsOf(ts, keys[i]) != []
               && output.lines[i] == FormatLine(keys[i], Best(closed, keys[i]), Dedup(ZoomsOf(ts, keys[i]))))
  }

  /** Lines are written exactly when every key has been requested with a zoom; otherwise it is a `KeyError`. */
  lemma ReportsWritesExactly(ts: seq<Tile>, output: Output)
    requires Reports(ts, output)
    ensures var keys := SeriesKeys(Closed(Modes(ts)));
      output.Written? <==> forall i :: 0 <= i < |keys| ==> ZoomsOf(ts, keys[i]) != []
  {
  }

  /** At most one output satisfies `Reports`: the output of `ParseLogs` is fully determined by its input. */
  lemma ReportsDeterminesOutput(ts: seq<Tile>, o1: Output, o2: Output)
    requires Reports(ts, o1) && Reports(ts, o2)
    ensures o1 == o2
  {
    var keys := SeriesKeys(Closed(Modes(ts)));
    if o1.KeyError? && o2.KeyError? {
      var i :| 0 <= i < |keys| && keys[i] == o1.key && ZoomsOf(ts, keys[i]) == []
        && forall j :: 0 <= j < i ==> ZoomsOf(ts, keys[j]) != [];
      var k :| 0 <= k < |keys| && keys[k] == o2.key && ZoomsOf(ts, keys[k]) == []
        && forall j :: 0 <= j < k ==> ZoomsOf(ts, keys[j]) != [];
      assert i == k;
    } else if o1.Written? && o2.Written? {
      assert o1.lines == o2.lines;
    }
  }

  /** The output of the formatting loop over dicts that agree with the reference definitions. */
  lemma OutputReports(ts: seq<Tile>, keys: seq<string>, series: map<string, nat>,
                      zooms: map<string, seq<string>>, output: Output)
    requires RunsMatch(LastMode(Modes(ts)), Trail(Modes(ts)), series, keys, Modes(ts))
    requires ZoomsMatch(zooms, ts)
    requires output.KeyError? ==>
      exists i :: 0 <= i < |keys| && keys[i] == output.key && keys[i] !in zooms
        && forall j :: 0 <= j < i ==> keys[j] in zooms
    requires output.Written? ==>
      && (forall k :: k in keys ==> k in zooms)
      && |output.lines| == |keys|
      && forall i :: 0 <= i < |keys| ==>
           output.lines[i] == FormatLine(keys[i], series[keys[i]], zooms[keys[i]])
    ensures Reports(ts, output)
  {
    if output.KeyError? {
      var i :| 0 <= i < |keys| && keys[i] == output.key && keys[i] !in zooms
        && forall j :: 0 <= j < i ==> keys[j] in zooms;
      assert ZoomsOf(ts, keys[i]) == [];
    }
  }

  lemma PrefixStep(lines: seq<string>, i: nat)
    requires i < |lines|
    ensures lines[..i + 1] == lines[..i] + [lines[i]]
  {
  }

  /** The reading loop of `parse_logs`: every line, in order, through one fresh parser. */
  method ParseAll(lines: seq<string>) returns (parser: Parser)
    ensures fresh(parser)
    ensures parser.Valid() && parser.consumed == lines
  {
    parser := new Parser();
    var i := 0;
    while i < |lines|
      invariant 0 <= i <= |lines|
      invariant fresh(parser)
      invariant parser.Valid() && parser.consumed == lines[..i]
    {
      PrefixStep(lines, i);
      parser.ParseLine(lines[i]);
      i := i + 1;
    }
    assert lines[..|lines|] == lines;
  }

  /**
   * `parse_logs` without its files: parses every line, then formats the
   * parser's series and zoom dicts. The run still open at the end of the
   * input is never counted.
   */
  method ParseLogs(lines: seq<string>) returns (output: Output, ignored: nat)
    ensures ignored == MalformedCount(lines)
    ensures Reports(Tiles(lines), output)
  {
    var parser := ParseAll(lines);
    var series := parser.GetCountSeries();
    var zooms := parser.GetListZooms();
    output := WriteOutput(series.0, series.1, zooms);
    ignored := parser.GetIgnoredLines();
    OutputReports(parser.requests, series.0, series.1, zooms, output);
  }
}
