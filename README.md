# Tile-server log parser, modelled in Dafny

`log_parser.py` reads the access log of a map-tile server one line at a time.
Each line has three whitespace-separated fields: date, time and URL. The `/`-segments
of a map URL carry the page type (segment 1, `"map"`), the display mode
(segment 4) and the zoom level (segment 6).

A `Parser` object keeps track of the following:

- runs of consecutive requests with the same display mode, keeping the longest
  closed run per mode (`_count_series`);
- the distinct zoom levels requested with each mode (`_list_zooms`);
- the number of lines that do not have three fields (`_ignored_lines`).

`write_output` writes one line per mode of `_count_series`, in the dict's
insertion order: `mode \t longest run \t sorted zooms joined by ',' \r\n`.
`parse_logs` feeds every line of the log to a fresh parser and then formats its
dicts.

The model keeps the imperative shape of the code:

- `LogParser.Parser` is a class with the same fields as the Python object.
  `_count_series` becomes the map `countSeries` plus the sequence `seriesOrder`
  of its keys, because a Python dict iterates in insertion order.
- Its methods update those fields as the Python methods do, and the
  formatting loop and the reading loop are `while` loops.
- Decoding one line is lifted into pure functions. `Strings` models
  `str.split()`, `str.split('/')`, `','.join` and the decimal rendering of an
  integer. `Ordering` models `sorted()` on strings.

Each method is proved against reference definitions over the input seen so far
(module `History`):

- `Tiles`: the map-tile requests among the lines.
- `Trail`: the length of the run still open.
- `Closed`: the requests of the runs already ended.
- `Best`: the longest run of a mode.
- `SeriesKeys`: the modes that closed a run, in first-seen order, without the
  sentinel `""`.
- `ZoomsOf` and `Dedup`: the zooms of a mode, and those zooms without repeats.

The class invariant `Parser.Valid()` says every field equals its reference
definition over the lines consumed. The lemmas prove what those definitions
mean: runs, maximality, first-seen order, and no duplicates. `ParseLogs` ends
with the whole-program statement: for any list of lines, the output is the
unique output that `Reports` describes over the requests in those lines.

The run still open at the end of the input is never merged into
`_count_series`, because `parse_logs` reads the dict without closing that run
(log_parser.py:175). The model reproduces this, so a mode requested only in the
last run gets no output line.

## Model

| member | source | states |
|---|---|---|
| LogLine.Decode | log_parser.py:95-105 | A line is malformed exactly when its whitespace split does not have 3 fields. It is a map-tile request exactly when it has 3 fields, its URL has more than 4 `/`-segments and segment 1 is `"map"`. The mode and zoom taken from the URL hold no whitespace and no `/`. |
| LogLine.UrlSegments | log_parser.py:98 | The URL field splits into at least one segment, and no segment holds `/` or whitespace. |
| LogLine.DecodeWordCount | log_parser.py:95-97 | A line of whitespace-free words, with any leading whitespace and any non-empty runs of whitespace between them (spaces and tabs mixed, say) and any trailing whitespace, is malformed exactly when it does not have 3 words. |
| LogLine.DecodeComposedLine | log_parser.py:11-21 | A line built from a date, a time and a non-empty URL of `/`-segments, laid out with any leading whitespace, any non-empty runs of whitespace between them and any trailing whitespace, decodes to the mode at segment 4, with the zoom at segment 6 only when there are more than 6 segments. This happens only when segment 1 is `"map"` and there are more than 4 segments; otherwise the line is skipped. |
| Strings.Fields | log_parser.py:95 | `str.split()` yields only non-empty fields that hold no whitespace. Which fields it yields is stated by `Strings.FieldsOfSpread`. |
| Strings.FieldsAfterSpaces | log_parser.py:95 | Any run of whitespace in front of a line adds no field. |
| Strings.FieldsOfGaps | log_parser.py:95 | Whitespace-free words, each followed by a run of whitespace that is non-empty between words, split back into exactly those words. |
| Strings.FieldsOfSpread | log_parser.py:95 | The same with leading whitespace too: `str.split()` of any such line gives exactly its words. |
| Strings.FieldsOfJoin | log_parser.py:95 | Whitespace-free words joined by one whitespace character, with trailing whitespace such as the newline, split back into exactly those words. |
| Strings.IsSpace | log_parser.py:95 | Every character the model's split treats as whitespace lies below `!`, so neither `/` nor `,` nor any printable character is whitespace. Space, tab, newline and carriage return are whitespace. |
| Strings.Join | log_parser.py:150 | `','.join` starts with the first part, and the separator follows it when there is more than one part. That the join is inverted by the split is stated by `Strings.SplitJoin` and `Strings.JoinSplit`. |
| Strings.SplitOn | log_parser.py:98 | `str.split('/')` yields at least one piece, no piece holds the separator, and the pieces of a whitespace-free string are whitespace-free. |
| Strings.SplitJoin | log_parser.py:98 | Splitting the join of separator-free parts gives the parts back. |
| Strings.JoinSplit | log_parser.py:98 | Joining the pieces of a split gives the string back. |
| Strings.Decimal | log_parser.py:151 | The f-string rendering of a run length is a non-empty string of digits with no leading zero. |
| Strings.DecimalRoundTrip | log_parser.py:151 | Reading back the rendered run length gives the number. |
| Ordering.LexLe | log_parser.py:150 | In Python's string order, a string never comes before another whose first character is smaller, and a prefix comes before any string it begins. |
| Ordering.LexTotal | log_parser.py:150 | Any two strings are comparable under Python's string order. |
| Ordering.LexAntisymmetric | log_parser.py:150 | Strings that are `<=` each other are equal. |
| Ordering.LexTransitive | log_parser.py:150 | Python's string order is transitive. |
| Ordering.Insert | log_parser.py:150 | Inserting into a sorted list keeps it sorted and adds exactly that element. |
| Ordering.Sort | log_parser.py:150 | `sorted()` returns a sorted permutation of its input. |
| Ordering.SortedUnique | log_parser.py:150 | Two sorted lists with the same elements are equal, so `Sort` is the only sorted arrangement. |
| Ordering.SortDependsOnlyOnElements | log_parser.py:150 | Lists with the same elements sort to the same list, so the zoom column does not depend on the order the zooms arrived in. |
| History.MalformedCount | log_parser.py:106-107 | The ignored count never exceeds the number of lines. |
| History.Trail | log_parser.py:57-60 | The open run is never longer than the input and is at least 1 once a request was seen. |
| History.ClosedEndsAtModeChange | log_parser.py:49-58 | The closed requests are a prefix of the input that ends at a change of mode, and every request after them has the last mode. |
| History.TrailIsRun | log_parser.py:57-60 | The open-run counter counts a run of the last mode, and the request before that run has another mode. |
| History.TrailIsMaximal | log_parser.py:57-60 | No run of the last mode that reaches the end of the input is longer than the counter. |
| History.BestBoundsRuns | log_parser.py:50-55 | No run of a mode is longer than its recorded series. |
| History.BestIsAttained | log_parser.py:50-55 | The recorded series of a mode is the length of one of its runs. |
| History.BestPositive | log_parser.py:50-55 | A mode's series is at least 1 exactly when the mode occurs. |
| History.SameModeExtendsRun | log_parser.py:59-60 | A request with the last mode lengthens the open run by 1 and closes nothing. |
| History.NewModeClosesRun | log_parser.py:49-58 | A request with another mode closes the open run and opens a run of 1. |
| History.BestSplitsAtOpenRun | log_parser.py:50-55 | The longest run over the input is the maximum of the longest closed run and the open run: this is the max-merge. |
| History.SeriesKeysSplitAtOpenRun | log_parser.py:50-55 | Closing a run adds its mode to the keys only if it is new and not `""`. |
| History.SeriesKeysAreClosedModes | log_parser.py:50-55 | A mode is a key exactly when it is not `""` and has closed a run, and no key is listed twice. |
| History.DedupMembers | log_parser.py:73-80 | Deduplicating keeps every element and adds none. |
| History.DedupDistinct | log_parser.py:73-80 | A deduplicated list holds no element twice. |
| History.DedupKeepsFirstSeenOrder | log_parser.py:73-80 | Of two entries of a deduplicated list, the earlier one was first seen before any occurrence of the later one. |
| History.ZoomsOfMembers | log_parser.py:103-105 | A zoom is listed for a mode exactly when some request had that mode and that zoom. |
| History.ZoomsOfNonEmpty | log_parser.py:103-105 | A mode has a zoom list exactly when some request with that mode had a zoom. |
| History.OpenRunIsNotClosed | log_parser.py:117-123 | The run still open at the end is left out of the closed runs whatever its length, so a mode seen only in that run has no series entry. |
| History.TilesOfRequestLines | log_parser.py:95-105 | A log whose every line is a map-tile request yields one request per line, in line order. |
| History.LinesAppend | log_parser.py:95-107 | One more line adds its request, if it is a map-tile request, and adds 1 to the ignored count exactly when it is malformed. |
| LogParser.Parser.constructor | log_parser.py:29-37 | The parser starts with last mode `""`, counter 0, empty dicts and no ignored lines, and satisfies its invariant. |
| LogParser.Parser.UpdateDisplayModeCounters | log_parser.py:49-60 | With the same mode, the counter grows by 1 and nothing else changes. With another mode, the counter resets to 1 and the mode becomes last. The previous mode's entry becomes the max of old entry and counter if present, or is inserted at the end of the order if absent and not `""`. No other key changes. |
| LogParser.Parser.UpdateZoomValues | log_parser.py:73-80 | Only the list of the given mode changes. It gains the zoom at its end unless the zoom is there already, and is created as `[zoom]` if missing. |
| LogParser.Parser.ParseLine | log_parser.py:95-107 | A malformed line adds exactly 1 to the ignored count and changes no other field. A line that is not a map-tile request changes no field. A map-tile request leaves the ignored count alone, and one without a zoom leaves the zoom lists alone. The invariant is kept. |
| LogParser.Parser.CountRequest | log_parser.py:99-105 | After one more request, the run fields and the zoom lists agree with the reference definitions over the requests including it. |
| LogParser.Parser.GetCountSeries | log_parser.py:117-123 | The keys in dict order are the closed non-`""` modes in first-seen order. A mode is a key exactly when it is not `""` and has closed a run, and its value is its longest closed run, at least 1. |
| LogParser.Parser.GetListZooms | log_parser.py:109-115 | A mode has a zoom list exactly when it was requested with a zoom. Its list is the distinct zooms of that mode over all its runs, in first-seen order. |
| LogParser.Parser.GetIgnoredLines | log_parser.py:125-131 | The ignored count is the number of consumed lines without three fields. |
| LogParser.RunsMatchSameMode | log_parser.py:59-60 | Incrementing the counter on a same-mode request keeps the run fields in agreement with the reference definitions. |
| LogParser.RunsMatchNewMode | log_parser.py:49-58 | The max-merge, insert or skip on a mode change keeps the run fields in agreement with the reference definitions. |
| LogParser.ZoomsMatchAppend | log_parser.py:73-80 | Recording the zoom of one more request keeps every zoom list equal to the distinct zooms of its mode. |
| LogParser.RecordZoomMatches | log_parser.py:73-80 | The append-if-absent update of a zoom list is deduplication extended by one element. |
| LogParser.FormatLine | log_parser.py:151 | An output line starts with the key and a tab and ends with CRLF. How its fields read back is stated by `LogParser.FormatLineReadsBack`. |
| LogParser.FormatLineReadsBack | log_parser.py:150-151 | An output line ends in CRLF and splits on tabs into key, run length and zooms, provided no key or zoom holds a tab and no zoom a comma. The run length reads back as the number. The zooms split on commas into a sorted permutation of the zoom list. |
| LogParser.WriteOutput | log_parser.py:146-151 | It writes one line per series key, in key order, each formatted from that key's series and zoom list. It raises `KeyError` naming the first key, in order, that has no zoom list. |
| LogParser.OutputReports | log_parser.py:146-151 | The formatting loop over dicts that agree with the reference definitions produces what `Reports` describes. |
| LogParser.ReportsWritesExactly | log_parser.py:150 | The output is written exactly when every series key has a zoom list, and is a `KeyError` otherwise. |
| LogParser.ReportsDeterminesOutput | log_parser.py:156-176 | At most one output satisfies `Reports`, so the result of `parse_logs` is fully determined by its lines. |
| LogParser.ParseAll | log_parser.py:165-172 | Every line, in order, goes through one fresh parser, which ends up satisfying its invariant over exactly those lines. |
| LogParser.ParseLogs | log_parser.py:156-176 | The ignored count is the number of malformed lines. The output has one line per mode that closed a run, in first-seen order, carrying its longest closed run and its sorted distinct zooms, or a `KeyError` on the first such mode never requested with a zoom. |
| Scenarios.DecodeTileLine | log_parser.py:95-105 | A log line whose date and time are separated by a space and whose time and `/map/...` URL are separated by a tab decodes to its mode and zoom. |
| Scenarios.MaxMergeScenario | log_parser.py:49-60 | For modes a, a, b, a with zooms z1, z1, z2, z3 (z1 below z3), the output is `a\t2\tz1,z3\r\n` then `b\t1\tz2\r\n`: the final run of a is not counted, but its zoom is. |
| Scenarios.MaxMergeReport | log_parser.py:146-151 | The same output, stated from the four requests. |
| Scenarios.MaxMergeTiles | log_parser.py:95-105 | The four log lines decode to the four requests. |
| Scenarios.MaxMergeKeys | log_parser.py:50-55 | For modes a, a, b, a, the last a is the open run, and the keys are a then b. |
| Scenarios.MaxMergeBest | log_parser.py:50-55 | In the closed runs a, a, b, the longest run of a is 2 and of b is 1. |
| Scenarios.MaxMergeZooms | log_parser.py:103-105 | The zooms of a are z1, z1, z3 and the zooms of b are z2. |
| Scenarios.DedupOfRepeatThenNew | log_parser.py:73-80 | A repeated zoom is listed once, and a new one after it. |
| Scenarios.SortTwo | log_parser.py:150 | Two zooms are written in ascending order whatever order they arrived in. |
| Scenarios.LineOfTwoZooms | log_parser.py:150-151 | The line for a mode with run length 2 and two zooms reads `mode\t2\tz1,z3\r\n`. |
| Scenarios.LineOfOneZoom | log_parser.py:150-151 | The line for a mode with run length 1 and one zoom reads `mode\t1\tz\r\n`. |
| Scenarios.ReportsOfTwoKeys | log_parser.py:147-151 | With two series keys that both have zooms, exactly two lines are written, one per key in order. |
| Scenarios.ReportedLine | log_parser.py:147-151 | A written output holds, at position i, the line formatted for the i-th key. |
| Scenarios.TilesOfTileLines | log_parser.py:95-105 | A log of tile lines of one mode, of any length, decodes to one request of that mode per line, with its zoom. |
| Scenarios.SingleRunScenario | log_parser.py:117-123 | A log of any number of tile lines all in one mode writes nothing, because its only run is never closed. |
| Scenarios.SingleRunReport | log_parser.py:117-123 | Any list of requests that all have one mode, of any length, writes nothing. |
| Scenarios.SkippedScenario | log_parser.py:99-100 | A 3-field line whose URL has 5 segments, so a display mode is present, is a request exactly when segment 1 is `"map"`. Any other page is skipped and not counted as ignored. |
| Scenarios.ShortUrlScenario | log_parser.py:99 | A 3-field line whose URL has only 3 segments is skipped whatever its segment 1 says. |
| Scenarios.IgnoredScenario | log_parser.py:106-107 | A line with only a date and a time is malformed. |
| Scenarios.EmptyScenario | log_parser.py:156-176 | An empty log writes nothing and ignores nothing. |

## Left out

- File handling in `parse_logs` and `write_output` is replaced by values: `open`, `readline`, `writelines` and closing. The log is a sequence of lines and the output a sequence of lines or a `KeyError`.
- The `print` progress messages and the ignored-count message are left out: they are console output only.
- The command-line entry point, the default file names and the exception printer are left out: they hold no logic.
- `LogParser.ParseLogs`: `readline` returning `""` only at end of file is taken as given. Every element of the sequence is a line of the log; a final line without a newline is fine.
- `Strings.Fields`: whitespace is Python's ASCII set: space, `\t` to `\r`, and `\x1c` to `\x1f`. Python's `str.split()` also splits on non-ASCII whitespace such as U+00A0 and U+2028, which this model does not.
- `Ordering.Sort`: Python compares strings by code point. Dafny `char` values are Unicode scalar values, so characters outside the Basic Multilingual Plane are compared as one code point each, as in Python.
- `LogParser.WriteOutput`: nothing is escaped. A mode or zoom cannot hold a tab, because `LogLine.Decode` ensures both are free of whitespace. A zoom holding a comma does make the zoom column ambiguous, so `LogParser.FormatLineReadsBack` assumes no zoom holds one.
- Python's unbounded `int` for the run counter and the ignored count is modelled as `nat`, so no overflow arises.
