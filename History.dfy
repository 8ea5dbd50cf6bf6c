/**
 * Reference definitions of what the parser's counters should hold after a
 * sequence of log lines, stated over the whole input rather than step by
 * step: the map-tile requests among the lines, the run of identical display
 * modes still open at the end, the prefix of runs already closed, the longest
 * run of each mode, the order in which modes first close a run, and the zooms
 * seen with each mode. The `Parser` class is proved to keep its fields equal
 * to these.
 */
module History {
  import opened Strings
  import opened LogLine

  function Max(a: nat, b: nat): nat
  {
    if a >= b then a else b
  }

  /** Number of lines whose whitespace split does not have exactly three fields. */
  function MalformedCount(lines: seq<string>): (n: nat)
    ensures n <= |lines|
  {
    if lines == [] then 0
    else
      MalformedCount(lines[..|lines| - 1])
      + (if |Fields(lines[|lines| - 1])| != LineFieldCount then 1 else 0)
  }

  /** The map-tile requests among `lines`, in input order. */
  function Tiles(lines: seq<string>): (ts: seq<Tile>)
    ensures |ts| <= |lines|
  {
    if lines == [] then []
    else
      Tiles(lines[..|lines| - 1])
      + match Decode(lines[|lines| - 1])
        case MapTile(t) => [t]
        case _ => []
  }

  /** The display modes of the requests, in input order. */
  function Modes(ts: seq<Tile>): seq<string>
  {
    seq(|ts|, i requires 0 <= i < |ts| => ts[i].mode)
  }

  /** The mode of the latest request, or "" before any request. */
  function LastMode(ms: seq<string>): string
  {
    if ms == [] then "" else ms[|ms| - 1]
  }

  /** Length of the run of equal modes at the end of `ms` (0 when `ms` is empty). */
  function Trail(ms: seq<string>): (n: nat)
    ensures n <= |ms|
    ensures ms != [] ==> n >= 1
  {
    if ms == [] then 0
    else if |ms| > 1 && ms[|ms| - 2] == ms[|ms| - 1] then Trail(ms[..|ms| - 1]) + 1
    else 1
  }

  /** The requests that belong to runs already ended: all but the run still open. */
  function Closed(ms: seq<string>): seq<string>
  {
    ms[..|ms| - Trail(ms)]
  }

  /**
   * The closed requests are a prefix of the input that ends at a change of
   * mode, and every request after them has the last mode.
   */
  lemma ClosedEndsAtModeChange(ms: seq<string>)
    ensures Closed(ms) <= ms
    ensures Closed(ms) != [] ==> Closed(ms)[|Closed(ms)| - 1] != LastMode(ms)
    ensures forall k :: |Closed(ms)| <= k < |ms| ==> ms[k] == LastMode(ms)
  {
    TrailIsRun(ms);
  }

  /** The length of the longest run of `m` in `ms` (0 when `m` does not occur). */
  function Best(ms: seq<string>, m: string): nat
  {
    if ms == [] then 0
    else Max(Best(ms[..|ms| - 1], m), if LastMode(ms) == m then Trail(ms) else 0)
  }

  /** `ms` without the sentinel "" (a run under "" is never recorded). */
  function NonSentinel(ms: seq<string>): (r: seq<string>)
    ensures forall x :: x in r <==> x in ms && x != ""
  {
    if ms == [] then []
    else
      var p, x := ms[..|ms| - 1], ms[|ms| - 1];
      assert ms == p + [x];
      NonSentinel(p) + if x == "" then [] else [x]
  }

  /** The distinct elements of `s`, each at its first occurrence. */
  function Dedup(s: seq<string>): seq<string>
  {
    if s == [] then []
    else
      var p, x := s[..|s| - 1], s[|s| - 1];
      assert s == p + [x];
      if x in p then Dedup(p) else Dedup(p) + [x]
  }

  /** `Dedup` keeps every element of `s` and adds none. */
  lemma {:induction false} DedupMembers(s: seq<string>)
    ensures forall x :: x in Dedup(s) <==> x in s
  {
    if s != [] {
      var p := s[..|s| - 1];
      DedupMembers(p);
      DedupAppend(p, s[|s| - 1]);
      assert s == p + [s[|s| - 1]];
    }
  }

  /** `Dedup` lists no element twice. */
  lemma {:induction false} DedupDistinct(s: seq<string>)
    ensures forall i, j :: 0 <= i < j < |Dedup(s)| ==> Dedup(s)[i] != Dedup(s)[j]
  {
    if s != [] {
      var p, x := s[..|s| - 1], s[|s| - 1];
      DedupDistinct(p);
      DedupMembers(p);
      DedupAppend(p, x);
      assert s == p + [x];
    }
  }

  /** The display modes that have closed a run, in the order they first did so. */
  function SeriesKeys(closed: seq<string>): seq<string>
  {
    Dedup(NonSentinel(closed))
  }

  /** The zooms requested with display mode `m`, in input order, repetitions kept. */
  function ZoomsOf(ts: seq<Tile>, m: string): (zs: seq<string>)
  {
    if ts == [] then []
    else
      var p, t := ts[..|ts| - 1], ts[|ts| - 1];
      ZoomsOf(p, m) + if t.mode == m && t.zoom.Some? then [t.zoom.value] else []
  }

  /** A zoom is listed for `m` exactly when some request had mode `m` and that zoom. */
  lemma {:induction false} ZoomsOfMembers(ts: seq<Tile>, m: string, z: string)
    ensures z in ZoomsOf(ts, m) <==> exists i :: 0 <= i < |ts| && ts[i] == Tile(m, Some(z))
  {
    if ts != [] {
      var p := ts[..|ts| - 1];
      ZoomsOfMembers(p, m, z);
      assert forall i :: 0 <= i < |p| ==> p[i] == ts[i];
      if z in ZoomsOf(ts, m) && z !in ZoomsOf(p, m) {
        assert ts[|ts| - 1] == Tile(m, Some(z));
      }
    }
  }

  /** One more line adds its request, if it is one, at the end. */
  lemma LinesAppend(lines: seq<string>, line: string)
    ensures Tiles(lines + [line]) == Tiles(lines) + if Decode(line).MapTile? then [Decode(line).tile] else []
    ensures MalformedCount(lines + [line]) ==
      MalformedCount(lines) + if |Fields(line)| != LineFieldCount then 1 else 0
  {
    assert (lines + [line])[..|lines|] == lines;
  }

  /** A log whose every line is a map-tile request yields one request per line, in order. */
  lemma {:induction false} TilesOfRequestLines(lines: seq<string>)
    requires forall i :: 0 <= i < |lines| ==> Decode(lines[i]).MapTile?
    ensures |Tiles(lines)| == |lines|
    ensures forall i :: 0 <= i < |lines| ==> Tiles(lines)[i] == Decode(lines[i]).tile
  {
    if lines != [] {
      var n := |lines| - 1;
      var prev := lines[..n];
      assert lines == prev + [lines[n]];
      TilesOfRequestLines(prev);
      LinesAppend(prev, lines[n]);
      forall i | 0 <= i < n ensures Tiles(lines)[i] == Decode(lines[i]).tile {
        assert Tiles(lines)[i] == Tiles(prev)[i];
        assert prev[i] == lines[i];
      }
    }
  }

  lemma ModesAppend(ts: seq<Tile>, t: Tile)
    ensures Modes(ts + [t]) == Modes(ts) + [t.mode]
  {
  }

  lemma ZoomsOfAppend(ts: seq<Tile>, t: Tile, m: string)
    ensures ZoomsOf(ts + [t], m) == ZoomsOf(ts, m) + if t.mode == m && t.zoom.Some? then [t.zoom.value] else []
  {
    assert (ts + [t])[..|ts|] == ts;
  }

  /** Some zoom is listed for `m` exactly when some request with mode `m` had a zoom. */
  lemma {:induction false} ZoomsOfNonEmpty(ts: seq<Tile>, m: string)
    ensures ZoomsOf(ts, m) != [] <==> exists i :: 0 <= i < |ts| && ts[i].mode == m && ts[i].zoom.Some?
  {
    if ts != [] {
      var p := ts[..|ts| - 1];
      ZoomsOfNonEmpty(p, m);
      assert forall i :: 0 <= i < |p| ==> p[i] == ts[i];
    }
  }

  /** `s[i..j]` is made of `m` only. */
  ghost predicate IsRun(s: seq<string>, m: string, i: int, j: int)
  {
    0 <= i <= j <= |s| && forall k :: i <= k < j ==> s[k] == m
  }

  /** The trailing run is a run of the last mode, and it cannot be extended to the left. */
  lemma {:induction false} TrailIsRun(ms: seq<string>)
    ensures IsRun(ms, LastMode(ms), |ms| - Trail(ms), |ms|)
    ensures |ms| > Trail(ms) ==> ms[|ms| - Trail(ms) - 1] != LastMode(ms)
  {
    if |ms| > 1 && ms[|ms| - 2] == ms[|ms| - 1] {
      TrailIsRun(ms[..|ms| - 1]);
    }
  }

  /** No run of the last mode reaching the end is longer than the trailing run. */
  lemma {:induction false} TrailIsMaximal(ms: seq<string>, i: int)
    requires IsRun(ms, LastMode(ms), i, |ms|)
    ensures |ms| - i <= Trail(ms)
  {
    if i < |ms| - 1 {
      var p := ms[..|ms| - 1];
      assert ms[|ms| - 2] == ms[|ms| - 1];
      assert IsRun(p, LastMode(p), i, |p|);
      TrailIsMaximal(p, i);
    }
  }

  /** Every run of `m` in `ms` is at most `Best(ms, m)` long. */
  lemma {:induction false} BestBoundsRuns(ms: seq<string>, m: string, i: int, j: int)
    requires IsRun(ms, m, i, j)
    ensures j - i <= Best(ms, m)
  {
    if i < j {
      if j < |ms| {
        var p := ms[..|ms| - 1];
        assert IsRun(p, m, i, j);
        BestBoundsRuns(p, m, i, j);
      } else {
        TrailIsMaximal(ms, i);
      }
    }
  }

  /** Some run of `m` in `ms` is `Best(ms, m)` long. */
  lemma {:induction false} BestIsAttained(ms: seq<string>, m: string)
    ensures exists i, j :: IsRun(ms, m, i, j) && j - i == Best(ms, m)
  {
    if ms == [] {
      assert IsRun(ms, m, 0, 0);
    } else {
      var p := ms[..|ms| - 1];
      if Best(ms, m) == Best(p, m) {
        BestIsAttained(p, m);
        var i, j :| IsRun(p, m, i, j) && j - i == Best(p, m);
        assert IsRun(ms, m, i, j);
      } else {
        TrailIsRun(ms);
        assert IsRun(ms, m, |ms| - Trail(ms), |ms|);
      }
    }
  }

  /** A mode has a positive longest run exactly when it occurs. */
  lemma {:induction false} BestPositive(ms: seq<string>, m: string)
    ensures Best(ms, m) >= 1 <==> m in ms
  {
    if m in ms {
      var k :| 0 <= k < |ms| && ms[k] == m;
      assert IsRun(ms, m, k, k + 1);
      BestBoundsRuns(ms, m, k, k + 1);
    }
    if Best(ms, m) >= 1 {
      BestIsAttained(ms, m);
      var i, j :| IsRun(ms, m, i, j) && j - i == Best(ms, m);
      assert ms[i] == m;
    }
  }

  /** A request with the same mode as the last one extends the open run. */
  lemma SameModeExtendsRun(ms: seq<string>, x: string)
    requires x == LastMode(ms)
    ensures LastMode(ms + [x]) == x
    ensures Trail(ms + [x]) == Trail(ms) + 1
    ensures Closed(ms + [x]) == Closed(ms)
  {
    assert (ms + [x])[..|ms|] == ms;
  }

  /** A request with a different mode closes the open run and starts a new one. */
  lemma NewModeClosesRun(ms: seq<string>, x: string)
    requires x != LastMode(ms)
    ensures LastMode(ms + [x]) == x
    ensures Trail(ms + [x]) == 1
    ensures Closed(ms + [x]) == ms
  {
    assert (ms + [x])[..|ms|] == ms;
  }

  /**
   * The longest run of `m` is the longest among the closed runs, or the open
   * run when that one is a run of `m` and longer: max-merge.
   */
  lemma {:induction false} BestSplitsAtOpenRun(ms: seq<string>, m: string)
    requires ms != []
    ensures Best(ms, m) == Max(Best(Closed(ms), m), if m == LastMode(ms) then Trail(ms) else 0)
  {
    var p := ms[..|ms| - 1];
    if Trail(ms) > 1 {
      BestSplitsAtOpenRun(p, m);
      assert Closed(ms) == Closed(p);
    }
  }

  /**
   * The modes that have closed a run are those that had closed one before the
   * open run began, followed by the open run's mode if it is new and not "".
   */
  lemma {:induction false} SeriesKeysSplitAtOpenRun(ms: seq<string>)
    requires ms != []
    ensures SeriesKeys(ms) ==
      SeriesKeys(Closed(ms)) + if LastMode(ms) != "" && LastMode(ms) !in Closed(ms) then [LastMode(ms)] else []
  {
    var p, l := ms[..|ms| - 1], LastMode(ms);
    assert ms == p + [l];
    assert SeriesKeys(ms) == SeriesKeys(p) + if l != "" && l !in p then [l] else [] by {
      NonSentinelAppend(p, l);
      var ns := NonSentinel(p);
      if l != "" {
        DedupAppend(ns, l);
        assert l in ns <==> l in p;
      } else {
        assert NonSentinel(ms) == ns + [] == ns;
      }
    }
    if Trail(ms) > 1 {
      SeriesKeysSplitAtOpenRun(p);
      assert LastMode(p) == l && l in p;
      assert Closed(ms) == Closed(p);
    } else {
      assert Closed(ms) == p;
    }
  }

  lemma DedupAppend(s: seq<string>, x: string)
    ensures Dedup(s + [x]) == if x in s then Dedup(s) else Dedup(s) + [x]
  {
    assert (s + [x])[..|s|] == s;
  }

  lemma NonSentinelAppend(s: seq<string>, x: string)
    ensures NonSentinel(s + [x]) == NonSentinel(s) + if x == "" then [] else [x]
  {
    assert (s + [x])[..|s|] == s;
  }

  /** The keys are the modes other than "" that occur in the closed runs, each once. */
  lemma SeriesKeysAreClosedModes(closed: seq<string>)
    ensures forall m :: m in SeriesKeys(closed) <==> m != "" && m in closed
    ensures forall i, j :: 0 <= i < j < |SeriesKeys(closed)| ==> SeriesKeys(closed)[i] != SeriesKeys(closed)[j]
  {
    DedupMembers(NonSentinel(closed));
    DedupDistinct(NonSentinel(closed));
  }

  /**
   * First-seen order: of two distinct entries of `Dedup(s)`, the earlier one
   * occurs in `s` before every occurrence of the later one.
   */
  lemma {:induction false} DedupKeepsFirstSeenOrder(s: seq<string>, i: int, j: int, k: int)
    requires 0 <= i < j < |Dedup(s)|
    requires 0 <= k < |s| && s[k] == Dedup(s)[j]
    ensures Dedup(s)[i] in s[..k]
    decreases |s|
  {
    var p, x := s[..|s| - 1], s[|s| - 1];
    var r := Dedup(s);
    DedupMembers(p);
    if x in p {
      assert r == Dedup(p);
      if k < |p| {
        DedupKeepsFirstSeenOrder(p, i, j, k);
        assert p[..k] == s[..k];
      } else {
        var k0 :| 0 <= k0 < |p| && p[k0] == x;
        DedupKeepsFirstSeenOrder(p, i, j, k0);
        assert p[..k0] <= s[..k];
      }
    } else {
      assert r == Dedup(p) + [x];
      if j < |r| - 1 {
        assert r[j] in Dedup(p);
        assert k < |p|;
        DedupKeepsFirstSeenOrder(p, i, j, k);
        assert p[..k] == s[..k];
      } else {
        assert r[i] in Dedup(p);
        assert k == |p|;
        assert s[..k] == p;
      }
    }
  }

  /** `k` requests of `m` in a row. */
  function Repeat(m: string, k: nat): seq<string>
  {
    seq(k, _ => m)
  }

  /**
   * The run still open at the end of the input is left out of the closed
   * runs, whatever its length, so a mode seen only in that run has no key.
   */
  lemma OpenRunIsNotClosed(c: seq<string>, m: string, k: nat)
    requires k >= 1
    requires c == [] || c[|c| - 1] != m
    ensures Trail(c + Repeat(m, k)) == k
    ensures Closed(c + Repeat(m, k)) == c
    ensures m !in c ==> m !in SeriesKeys(Closed(c + Repeat(m, k)))
  {
    TrailOfRepeat(c, m, k);
    var s := c + Repeat(m, k);
    assert s[..|c|] == c;
    SeriesKeysAreClosedModes(c);
  }

  /** A run of `k` requests of `m` after a request of another mode (or none) trails for exactly `k`. */
  lemma {:induction false} TrailOfRepeat(c: seq<string>, m: string, k: nat)
    requires k >= 1
    requires c == [] || c[|c| - 1] != m
    ensures Trail(c + Repeat(m, k)) == k
  {
    var s := c + Repeat(m, k);
    if k > 1 {
      TrailOfRepeat(c, m, k - 1);
      assert s[..|s| - 1] == c + Repeat(m, k - 1);
      assert s[|s| - 2] == m == s[|s| - 1];
    } else if c != [] {
      assert s[|s| - 2] == c[|c| - 1];
    }
  }
}
