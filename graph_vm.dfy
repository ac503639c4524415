/** The live graph of one statistic in the browser client: one series of
    (timestamp, value) points per server connection, an index from server
    to series, and the per-frame trimming of old points and search for the
    points inside the visible time window. Timestamps are integers. */
module GraphVM {

  datatype Point = Point(timestamp: int, value: real)

  datatype Series = Series(server: string, points: seq<Point>)

  /** The time range shown, as offsets into the retained data. */
  datatype ViewDuration = ViewDuration(start: int, end: int)

  /** The indices of the first and last point read for drawing a series. */
  datatype Window = Window(lower: int, upper: int)

  type Streams = map<string, nat>

  /** Each timestamp is strictly later than the one before it. */
  ghost predicate Increasing(points: seq<Point>) {
    forall i :: 0 < i < |points| ==> points[i - 1].timestamp < points[i].timestamp
  }

  /** Increasing timestamps are strictly sorted. */
  lemma {:induction false} IncreasingIsSorted(points: seq<Point>, i: int, j: int)
    requires Increasing(points) && 0 <= i < j < |points|
    ensures points[i].timestamp < points[j].timestamp
    decreases j - i
  {
    if i + 1 < j {
      IncreasingIsSorted(points, i + 1, j);
    }
  }

  /** The index maps each server to the position of its own series. */
  ghost predicate IndexedByServer(data: seq<Series>, streams: Streams) {
    forall s :: s in streams ==> streams[s] < |data| && data[streams[s]].server == s
  }

  /** Every series is found under its server at its own position. */
  ghost predicate IndexCoversSeries(data: seq<Series>, streams: Streams) {
    forall i :: 0 <= i < |data| ==> data[i].server in streams && streams[data[i].server] == i
  }

  /** Every series is non-empty, with increasing timestamps. */
  ghost predicate SeriesWellFormed(data: seq<Series>) {
    forall i :: 0 <= i < |data| ==> |data[i].points| > 0 && Increasing(data[i].points)
  }

  /** The series store is consistent: the index and the positions of the
      series agree both ways, and every series is well formed. */
  ghost predicate Consistent(data: seq<Series>, streams: Streams) {
    IndexedByServer(data, streams) && IndexCoversSeries(data, streams) && SeriesWellFormed(data)
  }

  /** A point is appended when the series is empty or the point is strictly
      later than the series' last one. */
  predicate Accepts(points: seq<Point>, timestamp: int) {
    |points| == 0 || points[|points| - 1].timestamp < timestamp
  }

  /** The store after a point is posted for a connection: an unseen server
      gets the next index and a new series first. */
  function Posted(data: seq<Series>, streams: Streams, server: string, timestamp: int, value: real): (seq<Series>, Streams)
    requires Consistent(data, streams)
  {
    var (data1, streams1, index) :=
      if server in streams then (data, streams, streams[server])
      else (data + [Series(server, [])], streams[server := |data|], |data|);
    var series := data1[index];
    if Accepts(series.points, timestamp)
    then (data1[index := series.(points := series.points + [Point(timestamp, value)])], streams1)
    else (data1, streams1)
  }

  /** Posting keeps the store consistent. */
  lemma PostedConsistent(data: seq<Series>, streams: Streams, server: string, timestamp: int, value: real)
    requires Consistent(data, streams)
    ensures Consistent(Posted(data, streams, server, timestamp, value).0, Posted(data, streams, server, timestamp, value).1)
  {
    var (data', streams') := Posted(data, streams, server, timestamp, value);
    var index := if server in streams then streams[server] else |data|;
    assert |data'| == if server in streams then |data| else |data| + 1;
    forall i | 0 <= i < |data'| && i != index
      ensures data'[i] == data[i]
    {
    }
    assert data'[index].server == server;
    forall s | s in streams'
      ensures streams'[s] < |data'| && data'[streams'[s]].server == s
    {
    }
    forall i | 0 <= i < |data'|
      ensures data'[i].server in streams' && streams'[data'[i].server] == i
    {
      if i != index {
        assert data'[i].server != server;
      }
    }
  }

  /** An unseen server is given index = the old number of series, and
      exactly one series, holding just the posted point, is appended. */
  lemma PostedNewServer(data: seq<Series>, streams: Streams, server: string, timestamp: int, value: real)
    requires Consistent(data, streams) && server !in streams
    ensures var (data', streams') := Posted(data, streams, server, timestamp, value);
      && streams' == streams[server := |data|]
      && data' == data + [Series(server, [Point(timestamp, value)])]
  {
    var data1 := data + [Series(server, [])];
    var p := Point(timestamp, value);
    assert data1[|data|].points + [p] == [p];
    assert data1[|data| := Series(server, [p])] == data + [Series(server, [p])];
  }

  /** For a known server only its own series can change, by exactly the
      posted point, and only when the point is accepted; a rejected point
      changes nothing. */
  lemma PostedKnownServer(data: seq<Series>, streams: Streams, server: string, timestamp: int, value: real)
    requires Consistent(data, streams) && server in streams
    ensures var (data', streams') := Posted(data, streams, server, timestamp, value);
      var i := streams[server];
      && streams' == streams && |data'| == |data|
      && (forall j :: 0 <= j < |data| && j != i ==> data'[j] == data[j])
      && data'[i].server == server
      && data'[i].points ==
           if Accepts(data[i].points, timestamp) then data[i].points + [Point(timestamp, value)] else data[i].points
  {
  }

  /** The index after a removal: every index above the removed one moves
      down by one; the others stay. */
  function Reindexed(streams: Streams, removed: nat): Streams {
    map s | s in streams :: if streams[s] > removed then streams[s] - 1 else streams[s]
  }

  /** The store after a connection is disconnected; an unknown server
      changes nothing. */
  function Disconnected(data: seq<Series>, streams: Streams, server: string): (seq<Series>, Streams)
    requires Consistent(data, streams)
  {
    if server !in streams then (data, streams)
    else
      var index := streams[server];
      (data[..index] + data[index + 1..], Reindexed(streams - {server}, index))
  }

  /** Removing position i keeps the series before it and shifts those after
      it down by one. */
  lemma RemovedSeries(data: seq<Series>, i: nat)
    requires i < |data|
    ensures |data[..i] + data[i + 1..]| == |data| - 1
    ensures forall j :: 0 <= j < |data| - 1 ==> (data[..i] + data[i + 1..])[j] == if j < i then data[j] else data[j + 1]
  {
  }

  /** Disconnecting removes exactly the server's key and its series and
      keeps the order of the other series. */
  lemma DisconnectedRemovesOnlyThatSeries(data: seq<Series>, streams: Streams, server: string)
    requires Consistent(data, streams)
    ensures Disconnected(data, streams, server).1.Keys == streams.Keys - {server}
    ensures server in streams ==>
      var data' := Disconnected(data, streams, server).0;
      var i := streams[server];
      && |data'| == |data| - 1
      && (forall j :: 0 <= j < i ==> data'[j] == data[j])
      && (forall j :: i <= j < |data'| ==> data'[j] == data[j + 1])
  {
    if server in streams {
      RemovedSeries(data, streams[server]);
    }
  }

  /** Disconnecting keeps the store consistent. */
  lemma DisconnectedConsistent(data: seq<Series>, streams: Streams, server: string)
    requires Consistent(data, streams)
    ensures Consistent(Disconnected(data, streams, server).0, Disconnected(data, streams, server).1)
  {
    if server in streams {
      var i := streams[server];
      RemovedSeries(data, i);
      RemovalKeepsIndex(data, streams, server);
      RemovalCoversSeries(data, streams, server);
      var data' := data[..i] + data[i + 1..];
      forall j | 0 <= j < |data'|
        ensures |data'[j].points| > 0 && Increasing(data'[j].points)
      {
        assert data'[j] == data[if j < i then j else j + 1];
      }
    }
  }

  lemma RemovalKeepsIndex(data: seq<Series>, streams: Streams, server: string)
    requires Consistent(data, streams) && server in streams
    ensures IndexedByServer(Disconnected(data, streams, server).0, Disconnected(data, streams, server).1)
  {
    var i := streams[server];
    var data' := data[..i] + data[i + 1..];
    var streams' := Reindexed(streams - {server}, i);
    RemovedSeries(data, i);
    forall s | s in streams'
      ensures streams'[s] < |data'| && data'[streams'[s]].server == s
    {
      var k := streams[s];
      assert s != server && k != i;
      assert streams'[s] == if k > i then k - 1 else k;
      assert data'[streams'[s]] == data[k];
    }
  }

  lemma RemovalCoversSeries(data: seq<Series>, streams: Streams, server: string)
    requires Consistent(data, streams) && server in streams
    ensures IndexCoversSeries(Disconnected(data, streams, server).0, Disconnected(data, streams, server).1)
  {
    var i := streams[server];
    var data' := data[..i] + data[i + 1..];
    var streams' := Reindexed(streams - {server}, i);
    RemovedSeries(data, i);
    forall j | 0 <= j < |data'|
      ensures data'[j].server in streams' && streams'[data'[j].server] == j
    {
      var k := if j < i then j else j + 1;
      assert data'[j] == data[k] && streams[data[k].server] == k;
    }
  }

  /** Re-indexes after a removal by visiting every key once. */
  method Reindex(streams: Streams, removed: nat) returns (r: Streams)
    ensures r == Reindexed(streams, removed)
  {
    r := streams;
    var keys := streams.Keys;
    while keys != {}
      invariant keys <= streams.Keys && r.Keys == streams.Keys
      invariant forall s :: s in streams && s !in keys ==> r[s] == if streams[s] > removed then streams[s] - 1 else streams[s]
      invariant forall s :: s in keys ==> r[s] == streams[s]
      decreases |keys|
    {
      var s :| s in keys;
      var previous := r[s];
      if previous > removed {
        r := r[s := previous - 1];
      }
      keys := keys - {s};
    }
  }

  /** Replaces every ':' by ' ' and keeps every other character. */
  function NiceName(id: string): (r: string)
    ensures |r| == |id|
    ensures forall i :: 0 <= i < |id| ==> r[i] == if id[i] == ':' then ' ' else id[i]
  {
    if id == [] then [] else [if id[0] == ':' then ' ' else id[0]] + NiceName(id[1..])
  }

  /** A nice name has no ':' left, and making it nice again changes
      nothing. */
  lemma NiceNameIdempotent(id: string)
    ensures forall i :: 0 <= i < |NiceName(id)| ==> NiceName(id)[i] != ':'
    ensures NiceName(NiceName(id)) == NiceName(id)
  {
  }

  /** The points left after trimming: a suffix of the original from which
      a leading point is dropped only while the point after it is older than
      the cutoff, so one point always stays. */
  ghost predicate Trimmed(points: seq<Point>, kept: seq<Point>, cutoff: int) {
    && |kept| <= |points| && kept == points[|points| - |kept|..]
    && (|points| > 0 ==> |kept| > 0)
    && (forall j :: 1 <= j <= |points| - |kept| ==> points[j].timestamp < cutoff)
    && (|kept| > 1 ==> kept[1].timestamp >= cutoff)
  }

  /** Shifts old points off the front of a series. */
  method TrimOld(points: seq<Point>, cutoff: int) returns (kept: seq<Point>)
    ensures Trimmed(points, kept, cutoff)
  {
    kept := points;
    while |kept| > 1 && kept[1].timestamp < cutoff
      invariant |kept| <= |points| && kept == points[|points| - |kept|..]
      invariant |points| > 0 ==> |kept| > 0
      invariant forall j :: 1 <= j <= |points| - |kept| ==> points[j].timestamp < cutoff
    {
      kept := kept[1..];
    }
  }

  /** With increasing timestamps, trimming drops only points older than the
      cutoff and keeps every point at or after it; only the first kept point
      may be older. */
  lemma TrimmedKeepsRecent(points: seq<Point>, kept: seq<Point>, cutoff: int)
    requires Increasing(points) && Trimmed(points, kept, cutoff)
    ensures Increasing(kept)
    ensures forall i :: 1 <= i < |kept| ==> kept[i].timestamp >= cutoff
    ensures forall i :: 0 <= i < |points| - |kept| ==> points[i].timestamp < cutoff
  {
    var dropped := |points| - |kept|;
    forall i | 0 < i < |kept|
      ensures kept[i - 1].timestamp < kept[i].timestamp
    {
      assert kept[i - 1] == points[dropped + i - 1] && kept[i] == points[dropped + i];
    }
    forall i | 1 <= i < |kept|
      ensures kept[i].timestamp >= cutoff
    {
      if i > 1 {
        assert kept[1] == points[dropped + 1] && kept[i] == points[dropped + i];
        IncreasingIsSorted(points, dropped + 1, dropped + i);
      }
    }
    forall i | 0 <= i < dropped
      ensures points[i].timestamp < cutoff
    {
      assert points[i].timestamp < points[i + 1].timestamp;
    }
  }

  predicate InWindow(p: Point, start: int, end: int) {
    start <= p.timestamp <= end
  }

  /** The first index at or after k of a point inside the window, or the
      length when there is none. */
  function FirstInWindow(points: seq<Point>, start: int, end: int, k: nat): (r: nat)
    requires k <= |points|
    ensures k <= r <= |points|
    decreases |points| - k
  {
    if k == |points| then |points|
    else if InWindow(points[k], start, end) then k
    else FirstInWindow(points, start, end, k + 1)
  }

  /** The last index at or after k of a point inside the window, or -1
      when there is none. */
  function LastInWindow(points: seq<Point>, start: int, end: int, k: nat): (r: int)
    requires k <= |points|
    ensures r == -1 || k <= r < |points|
    decreases |points| - k
  {
    if k == |points| then -1
    else
      var r := LastInWindow(points, start, end, k + 1);
      if r >= 0 then r
      else if InWindow(points[k], start, end) then k
      else -1
  }

  /** FirstInWindow finds the first visible point and LastInWindow the
      last one. */
  lemma {:induction false} WindowSearch(points: seq<Point>, start: int, end: int, k: nat)
    requires k <= |points|
    ensures var f := FirstInWindow(points, start, end, k);
      && (f < |points| ==> InWindow(points[f], start, end))
      && (forall i :: k <= i < f ==> !InWindow(points[i], start, end))
    ensures var l := LastInWindow(points, start, end, k);
      && (l >= 0 ==> InWindow(points[l], start, end))
      && (forall i :: k <= i < |points| && i > l ==> !InWindow(points[i], start, end))
    decreases |points| - k
  {
    if k < |points| {
      WindowSearch(points, start, end, k + 1);
    }
  }

  /** The indices read to draw a series: the visible points widened by one
      point on either side where there is one. */
  function WindowOf(points: seq<Point>, start: int, end: int): Window {
    var lower := FirstInWindow(points, start, end, 0);
    var last := LastInWindow(points, start, end, 0);
    var upper := if last < 0 then 0 else last;
    Window(if lower > 0 then lower - 1 else lower, if upper < |points| - 1 then upper + 1 else upper)
  }

  /** For a non-empty series both window ends are valid indices, so every
      read of the drawing loop is in bounds, and every visible point lies
      between them. */
  lemma WindowInBounds(points: seq<Point>, start: int, end: int)
    requires |points| > 0
    ensures var w := WindowOf(points, start, end);
      && 0 <= w.lower < |points| && 0 <= w.upper < |points|
      && forall i :: 0 <= i < |points| && InWindow(points[i], start, end) ==> w.lower <= i <= w.upper
  {
    WindowSearch(points, start, end, 0);
  }

  /** Finds the window of a series by a backwards scan, then widens it. */
  method FindWindow(points: seq<Point>, start: int, end: int) returns (w: Window)
    ensures w == WindowOf(points, start, end)
  {
    var lower := |points|;
    var upper := 0;
    var iter := |points| - 1;
    while iter >= 0
      invariant -1 <= iter < |points|
      invariant lower == FirstInWindow(points, start, end, iter + 1)
      invariant var l := LastInWindow(points, start, end, iter + 1); upper == if l < 0 then 0 else l
      decreases iter
    {
      if InWindow(points[iter], start, end) {
        if iter < lower {
          lower := iter;
        }
        if iter > upper {
          upper := iter;
        }
      }
      iter := iter - 1;
    }
    if lower > 0 {
      lower := lower - 1;
    }
    if upper < |points| - 1 {
      upper := upper + 1;
    }
    w := Window(lower, upper);
  }

  /** A series trimmed at the cutoff, under the same server, with the
      window found for it. */
  ghost predicate TrimmedSeries(series: Series, trimmed: Series, window: Window, cutoff: int, start: int, end: int) {
    && trimmed.server == series.server
    && Trimmed(series.points, trimmed.points, cutoff)
    && window == WindowOf(trimmed.points, start, end)
  }

  ghost predicate TrimmedAll(data: seq<Series>, trimmed: seq<Series>, windows: seq<Window>, cutoff: int, start: int, end: int) {
    && |trimmed| == |data| && |windows| == |data|
    && forall s :: 0 <= s < |data| ==> TrimmedSeries(data[s], trimmed[s], windows[s], cutoff, start, end)
  }

  /** Trims one series and finds its window. */
  method TrimSeries(series: Series, cutoff: int, start: int, end: int) returns (trimmed: Series, w: Window)
    ensures TrimmedSeries(series, trimmed, w, cutoff, start, end)
  {
    var kept := TrimOld(series.points, cutoff);
    w := FindWindow(kept, start, end);
    trimmed := Series(series.server, kept);
  }

  /** The per-series loop of a frame. */
  method TrimAndFindWindows(data: seq<Series>, cutoff: int, start: int, end: int)
    returns (trimmed: seq<Series>, windows: seq<Window>)
    ensures TrimmedAll(data, trimmed, windows, cutoff, start, end)
  {
    trimmed, windows := [], [];
    var s := 0;
    while s < |data|
      invariant 0 <= s <= |data| && |trimmed| == s && |windows| == s
      invariant forall t :: 0 <= t < s ==> TrimmedSeries(data[t], trimmed[t], windows[t], cutoff, start, end)
    {
      var series, w := TrimSeries(data[s], cutoff, start, end);
      trimmed, windows := trimmed + [series], windows + [w];
      s := s + 1;
    }
  }

  /** Trimming keeps the store consistent: servers stay in place and every
      trimmed series is still non-empty and increasing. */
  lemma TrimmedConsistent(data: seq<Series>, streams: Streams, trimmed: seq<Series>, windows: seq<Window>, cutoff: int, start: int, end: int)
    requires Consistent(data, streams) && TrimmedAll(data, trimmed, windows, cutoff, start, end)
    ensures Consistent(trimmed, streams)
  {
    forall s | 0 <= s < |trimmed|
      ensures |trimmed[s].points| > 0 && Increasing(trimmed[s].points)
    {
      assert TrimmedSeries(data[s], trimmed[s], windows[s], cutoff, start, end);
      TrimmedKeepsRecent(data[s].points, trimmed[s].points, cutoff);
    }
  }

  /** The graph of one statistic. */
  class GraphVM {
    const id: string
    const name: string
    var data: seq<Series>
    var dataStreams: Streams
    /** The visible span, and how far before the newest retained time it
        ends, in milliseconds. */
    var duration: int
    var endAt: int
    /** How much history is retained, in milliseconds. */
    const dataLength: int

    ghost predicate Valid()
      reads this
    {
      Consistent(data, dataStreams)
    }

    constructor (id: string, name: string)
      ensures Valid() && data == [] && dataStreams == map[]
      ensures duration == 30000 && endAt == 0 && dataLength == 600000
    {
      this.id := id;
      this.name := name;
      data := [];
      dataStreams := map[];
      duration := 30000;
      endAt := 0;
      dataLength := 600000;
    }

    /** Removes the connection's series and re-indexes the others. */
    method DisconnectConnection(server: string)
      requires Valid()
      modifies this
      ensures Valid()
      ensures (data, dataStreams) == Disconnected(old(data), old(dataStreams), server)
      ensures duration == old(duration) && endAt == old(endAt)
    {
      DisconnectedConsistent(data, dataStreams, server);
      if server !in dataStreams {
        return;
      }
      var index := dataStreams[server];
      var streams := Reindex(dataStreams - {server}, index);
      data, dataStreams := data[..index] + data[index + 1..], streams;
    }

    method SetViewDuration(window: ViewDuration)
      modifies this
      ensures duration == window.end - window.start && endAt == dataLength - window.end
      ensures data == old(data) && dataStreams == old(dataStreams)
    {
      var endTime := dataLength - window.end;
      duration := window.end - window.start;
      endAt := endTime;
    }

    /** Adds a point to the connection's series, creating the series for an
        unseen connection. The server argument is not read: the series is
        found by the connection's server. */
    method PostData(server: string, timestamp: int, dataValue: real, connectionServer: string)
      requires Valid()
      modifies this
      ensures Valid()
      ensures (data, dataStreams) == Posted(old(data), old(dataStreams), connectionServer, timestamp, dataValue)
      ensures duration == old(duration) && endAt == old(endAt)
    {
      PostedConsistent(data, dataStreams, connectionServer, timestamp, dataValue);
      var index;
      if connectionServer in dataStreams {
        index := dataStreams[connectionServer];
      } else {
        index := |data|;
        dataStreams := dataStreams[connectionServer := index];
        data := data + [Series(connectionServer, [])];
      }
      var series := data[index];
      if |series.points| == 0 || series.points[|series.points| - 1].timestamp < timestamp {
        data := data[index := series.(points := series.points + [Point(timestamp, dataValue)])];
      }
    }

    /** The data work of one animation frame at clock time clock: every
        series is trimmed of points older than the retained history, and
        the window of points to draw is found for each. */
    method Frame(clock: int) returns (windows: seq<Window>)
      requires Valid()
      modifies this
      ensures Valid()
      ensures dataStreams == old(dataStreams) && duration == old(duration) && endAt == old(endAt)
      ensures var graphEnd := clock - 1000 - endAt;
        TrimmedAll(old(data), data, windows, graphEnd - dataLength, graphEnd - duration, graphEnd)
    {
      var now := clock - 1000;
      var graphEnd := now - endAt;
      var graphStart := graphEnd - duration;
      var trimmed;
      trimmed, windows := TrimAndFindWindows(data, graphEnd - dataLength, graphStart, graphEnd);
      TrimmedConsistent(data, dataStreams, trimmed, windows, graphEnd - dataLength, graphStart, graphEnd);
      data := trimmed;
    }
  }
}
