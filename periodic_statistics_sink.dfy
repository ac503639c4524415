/** The periodic statistics sink: metrics about the aggregated data it is
    handed. It counts data points, collects the distinct metric and
    statistic names, keeps the largest lateness ("age") seen, and on every
    timer tick emits those four values to a metrics instance and starts
    over. */
module PeriodicStatistics {
  import opened Model
  import opened Collections
  import opened BaseSource

  /** What has accumulated since the last flush. */
  datatype Summary = Summary(
    aggregatedData: nat,
    uniqueMetrics: set<string>,
    uniqueStatistics: set<string>,
    age: int)

  /** The state right after construction or a flush. */
  const Empty := Summary(0, {}, {}, 0)

  /** The values a flush emits. */
  datatype Report = Report(aggregatedData: nat, uniqueMetrics: nat, uniqueStatistics: nat, age: int)

  function ReportOf(s: Summary): Report {
    Report(s.aggregatedData, |s.uniqueMetrics|, |s.uniqueStatistics|, s.age)
  }

  /** The service and metric of a datum, joined by a dot. */
  function MetricName(d: AggregatedData): string {
    d.fqdsn.service + "." + d.fqdsn.metric
  }

  /** Cluster, host, service, metric, statistic and period of a datum,
      joined by dots; statistic and period appear as their text. */
  function StatisticName(d: AggregatedData): string {
    d.fqdsn.cluster + "." + d.host + "." + d.fqdsn.service + "." + d.fqdsn.metric + "."
      + d.fqdsn.statistic + "." + d.period.text
  }

  /** How long after the end of its period a datum is recorded. */
  function Lateness(d: AggregatedData, now: int): int {
    now - (d.periodStart + d.period.millis)
  }

  /** The running maximum of the lateness over a batch, starting from acc. */
  function MaxLateness(acc: int, batch: seq<AggregatedData>, now: int): int
    decreases |batch|
  {
    if batch == [] then acc
    else
      var n := |batch| - 1;
      var m := MaxLateness(acc, batch[..n], now);
      if Lateness(batch[n], now) > m then Lateness(batch[n], now) else m
  }

  /** The running maximum is the largest of the start value and every
      lateness in the batch. */
  lemma {:induction false} MaxLatenessIsMax(acc: int, batch: seq<AggregatedData>, now: int)
    ensures MaxLateness(acc, batch, now) >= acc
    ensures forall i :: 0 <= i < |batch| ==> MaxLateness(acc, batch, now) >= Lateness(batch[i], now)
    ensures MaxLateness(acc, batch, now) == acc
      || exists i :: 0 <= i < |batch| && MaxLateness(acc, batch, now) == Lateness(batch[i], now)
    decreases |batch|
  {
    if batch != [] {
      var n := |batch| - 1;
      MaxLatenessIsMax(acc, batch[..n], now);
      forall i | 0 <= i < n ensures batch[..n][i] == batch[i] {
      }
    }
  }

  lemma MaxLatenessStep(acc: int, batch: seq<AggregatedData>, now: int, i: nat)
    requires i < |batch|
    ensures MaxLateness(acc, batch[..i + 1], now) ==
      var m := MaxLateness(acc, batch[..i], now);
      if Lateness(batch[i], now) > m then Lateness(batch[i], now) else m
  {
    assert batch[..i + 1][..i] == batch[..i];
  }

  /** The summary after recording a batch at time now. */
  function Recorded(s: Summary, batch: seq<AggregatedData>, now: int): Summary {
    Summary(
      s.aggregatedData + |batch|,
      s.uniqueMetrics + Image(batch, MetricName),
      s.uniqueStatistics + Image(batch, StatisticName),
      MaxLateness(s.age, batch, now))
  }

  /** Recording adds exactly the batch size to the count, the names of
      exactly the batch's data to the sets (distinct by name), and raises
      the age to the largest lateness if that is larger; a non-negative age
      stays non-negative. */
  lemma RecordedProperties(s: Summary, batch: seq<AggregatedData>, now: int)
    ensures Recorded(s, batch, now).aggregatedData == s.aggregatedData + |batch|
    ensures forall name :: name in Recorded(s, batch, now).uniqueMetrics <==>
      name in s.uniqueMetrics || exists i :: 0 <= i < |batch| && MetricName(batch[i]) == name
    ensures forall name :: name in Recorded(s, batch, now).uniqueStatistics <==>
      name in s.uniqueStatistics || exists i :: 0 <= i < |batch| && StatisticName(batch[i]) == name
    ensures Recorded(s, batch, now).age >= s.age
    ensures forall i :: 0 <= i < |batch| ==> Recorded(s, batch, now).age >= Lateness(batch[i], now)
    ensures Recorded(s, batch, now).age == s.age
      || exists i :: 0 <= i < |batch| && Recorded(s, batch, now).age == Lateness(batch[i], now)
  {
    forall name ensures name in Image(batch, MetricName) <==> exists i :: 0 <= i < |batch| && MetricName(batch[i]) == name {
      ImageMembers(batch, MetricName, name);
    }
    forall name ensures name in Image(batch, StatisticName) <==> exists i :: 0 <= i < |batch| && StatisticName(batch[i]) == name {
      ImageMembers(batch, StatisticName, name);
    }
    MaxLatenessIsMax(s.age, batch, now);
  }

  /** Starting from a flush, the age is the maximum of 0 and every lateness
      recorded, so it is never negative. */
  lemma AgeNeverNegative(s: Summary, batch: seq<AggregatedData>, now: int)
    requires s.age >= 0
    ensures Recorded(s, batch, now).age >= 0
  {
    MaxLatenessIsMax(s.age, batch, now);
  }

  /** One step of a sequential history: a batch recorded at a time, or a
      flush. */
  datatype Event = RecordBatch(batch: seq<AggregatedData>, now: int) | Flush

  /** The data points recorded by a history. */
  function PointsRecorded(events: seq<Event>): nat
    decreases |events|
  {
    if events == [] then 0
    else
      var n := |events| - 1;
      PointsRecorded(events[..n]) + (if events[n].RecordBatch? then |events[n].batch| else 0)
  }

  /** The data-point counts of a sequence of reports, summed. */
  function PointsEmitted(reports: seq<Report>): nat
    decreases |reports|
  {
    if reports == [] then 0
    else PointsEmitted(reports[..|reports| - 1]) + reports[|reports| - 1].aggregatedData
  }

  /** The pending summary and emitted reports after a history that starts
      right after construction. */
  function Replay(events: seq<Event>): (Summary, seq<Report>)
    decreases |events|
  {
    if events == [] then (Empty, [])
    else
      var n := |events| - 1;
      var (s, reports) := Replay(events[..n]);
      match events[n]
      case RecordBatch(batch, now) => (Recorded(s, batch, now), reports)
      case Flush => (Empty, reports + [ReportOf(s)])
  }

  /** A flush with nothing recorded since the previous flush (or since
      construction) emits zeros and leaves the earlier reports alone. */
  lemma FlushWithoutRecordsReportsZeros(events: seq<Event>)
    requires events == [] || events[|events| - 1].Flush?
    ensures Replay(events + [Flush]).0 == Empty
    ensures Replay(events + [Flush]).1 == Replay(events).1 + [Report(0, 0, 0, 0)]
  {
    assert (events + [Flush])[..|events|] == events;
  }

  lemma PointsEmittedAppend(reports: seq<Report>, r: Report)
    ensures PointsEmitted(reports + [r]) == PointsEmitted(reports) + r.aggregatedData
  {
    assert (reports + [r])[..|reports|] == reports;
  }

  /** Every recorded data point is emitted by exactly one flush or is still
      pending: none is lost or counted twice. */
  lemma {:induction false} ReplayAccountsForEveryPoint(events: seq<Event>)
    ensures PointsEmitted(Replay(events).1) + Replay(events).0.aggregatedData == PointsRecorded(events)
    ensures Replay(events).0.age >= 0
    decreases |events|
  {
    if events != [] {
      var n := |events| - 1;
      ReplayAccountsForEveryPoint(events[..n]);
      var (s, reports) := Replay(events[..n]);
      match events[n]
      case RecordBatch(batch, now) =>
        AgeNeverNegative(s, batch, now);
      case Flush =>
        PointsEmittedAppend(reports, ReportOf(s));
    }
  }

  /** A metrics instance of the metrics client: named counters, named
      gauges and whether it has been closed. */
  class MetricsInstance {
    var counters: map<string, int>
    var gauges: map<string, int>
    var closed: bool

    constructor ()
      ensures counters == map[] && gauges == map[] && !closed
    {
      counters := map[];
      gauges := map[];
      closed := false;
    }

    method ResetCounter(name: string)
      modifies this
      ensures counters == old(counters)[name := 0]
      ensures gauges == old(gauges) && closed == old(closed)
    {
      counters := counters[name := 0];
    }

    method IncrementCounter(name: string, delta: int)
      modifies this
      ensures counters == Incremented(old(counters), name, delta)
      ensures gauges == old(gauges) && closed == old(closed)
    {
      counters := counters[name := CounterValue(counters, name) + delta];
    }

    method SetGauge(name: string, value: int)
      modifies this
      ensures gauges == old(gauges)[name := value]
      ensures counters == old(counters) && closed == old(closed)
    {
      gauges := gauges[name := value];
    }

    method Close()
      modifies this
      ensures closed
      ensures counters == old(counters) && gauges == old(gauges)
    {
      closed := true;
    }
  }

  /** A counter that was never written reads as 0. */
  function CounterValue(counters: map<string, int>, name: string): int {
    if name in counters then counters[name] else 0
  }

  function Incremented(counters: map<string, int>, name: string, delta: int): map<string, int> {
    counters[name := CounterValue(counters, name) + delta]
  }

  /** The counters of a flushed instance: each of the three named counters
      raised by the matching value of the report. */
  function Emitted(counters: map<string, int>, names: (string, string, string), r: Report): map<string, int> {
    Incremented(Incremented(Incremented(counters, names.0, r.aggregatedData), names.1, r.uniqueMetrics), names.2, r.uniqueStatistics)
  }

  /** The counters of an instance created with its three counters reset, and
      then flushed, hold exactly the reported values. */
  lemma FreshInstanceHoldsReport(names: (string, string, string), r: Report)
    requires MetricNamesDistinct(names.0, names.1, names.2)
    ensures var c := Emitted(map[names.0 := 0][names.1 := 0][names.2 := 0], names, r);
      && c.Keys == {names.0, names.1, names.2}
      && c[names.0] == r.aggregatedData && c[names.1] == r.uniqueMetrics && c[names.2] == r.uniqueStatistics
  {
  }

  /** A new metrics instance whose three counters are reset. */
  method CreateMetrics(names: (string, string, string)) returns (m: MetricsInstance)
    ensures fresh(m) && !m.closed && m.gauges == map[]
    ensures m.counters == map[names.0 := 0][names.1 := 0][names.2 := 0]
  {
    m := new MetricsInstance();
    m.ResetCounter(names.0);
    m.ResetCounter(names.1);
    m.ResetCounter(names.2);
  }

  /** Adds the report's three counts to the named counters, sets the age
      gauge and closes the instance. */
  method EmitReport(m: MetricsInstance, names: (string, string, string), ageName: string, r: Report)
    modifies m
    ensures m.counters == Emitted(old(m.counters), names, r)
    ensures m.gauges == old(m.gauges)[ageName := r.age]
    ensures m.closed
  {
    m.IncrementCounter(names.0, r.aggregatedData);
    m.IncrementCounter(names.1, r.uniqueMetrics);
    m.IncrementCounter(names.2, r.uniqueStatistics);
    m.SetGauge(ageName, r.age);
    m.Close();
  }

  class PeriodicStatisticsSink {
    const aggregatedDataName: string
    const uniqueMetricsName: string
    const uniqueStatisticsName: string
    const ageName: string

    var aggregatedData: nat
    var uniqueMetrics: set<string>
    var uniqueStatistics: set<string>
    var age: int
    /** The instance the next tick flushes. */
    var metrics: MetricsInstance

    /** Every data point ever recorded, and every report ever emitted. */
    ghost var recorded: nat
    ghost var emitted: seq<Report>

    function Names(): (string, string, string) {
      (aggregatedDataName, uniqueMetricsName, uniqueStatisticsName)
    }

    function Pending(): Summary
      reads this
    {
      Summary(aggregatedData, uniqueMetrics, uniqueStatistics, age)
    }

    /** The age is never negative, and every recorded point is either
        emitted or pending, exactly once. */
    ghost predicate Valid()
      reads this
    {
      && age >= 0
      && PointsEmitted(emitted) + aggregatedData == recorded
      && MetricNamesDistinct(aggregatedDataName, uniqueMetricsName, uniqueStatisticsName)
    }

    /** The metric names are built from the sink's metric-safe name and
        the fixed prefix and suffixes. */
    constructor (name: string)
      ensures Valid() && Pending() == Empty && recorded == 0 && emitted == []
      ensures aggregatedDataName == "Sinks/PeriodicStatisticsSink/" + MetricSafeName(name) + "/AggregatedData"
      ensures uniqueMetricsName == "Sinks/PeriodicStatisticsSink/" + MetricSafeName(name) + "/UniqueMetrics"
      ensures uniqueStatisticsName == "Sinks/PeriodicStatisticsSink/" + MetricSafeName(name) + "/UniqueStatistics"
      ensures ageName == "Sinks/PeriodicStatisticsSink/" + MetricSafeName(name) + "/Age"
      ensures fresh(metrics) && !metrics.closed && metrics.gauges == map[]
      ensures metrics.counters == map[aggregatedDataName := 0][uniqueMetricsName := 0][uniqueStatisticsName := 0]
    {
      var safeName := MetricSafeName(name);
      var names := (
        "Sinks/PeriodicStatisticsSink/" + safeName + "/AggregatedData",
        "Sinks/PeriodicStatisticsSink/" + safeName + "/UniqueMetrics",
        "Sinks/PeriodicStatisticsSink/" + safeName + "/UniqueStatistics");
      aggregatedDataName, uniqueMetricsName, uniqueStatisticsName := names.0, names.1, names.2;
      ageName := "Sinks/PeriodicStatisticsSink/" + safeName + "/Age";
      aggregatedData := 0;
      uniqueMetrics := {};
      uniqueStatistics := {};
      age := 0;
      recorded := 0;
      emitted := [];
      var m := CreateMetrics(names);
      metrics := m;
      new;
      NamesDistinct(safeName);
    }

    /** Counts the batch, then adds each datum's metric and statistic names
        and raises the age to its lateness at time now. */
    method RecordAggregateData(batch: seq<AggregatedData>, now: int)
      requires Valid()
      modifies this
      ensures Valid()
      ensures Pending() == Recorded(old(Pending()), batch, now)
      ensures recorded == old(recorded) + |batch| && emitted == old(emitted)
      ensures metrics == old(metrics)
    {
      ghost var before := Pending();
      aggregatedData, recorded := aggregatedData + |batch|, recorded + |batch|;
      var metricNames, statisticNames, maxAge := uniqueMetrics, uniqueStatistics, age;
      var i := 0;
      while i < |batch|
        invariant 0 <= i <= |batch|
        invariant metricNames == before.uniqueMetrics + Image(batch[..i], MetricName)
        invariant statisticNames == before.uniqueStatistics + Image(batch[..i], StatisticName)
        invariant maxAge == MaxLateness(before.age, batch[..i], now)
      {
        var datum := batch[i];
        assert batch[..i + 1][..i] == batch[..i];
        var lateness := Lateness(datum, now);
        metricNames, statisticNames, maxAge :=
          metricNames + {MetricName(datum)}, statisticNames + {StatisticName(datum)},
          if lateness > maxAge then lateness else maxAge;
        i := i + 1;
      }
      assert batch[..i] == batch;
      AgeNeverNegative(before, batch, now);
      uniqueMetrics, uniqueStatistics, age := metricNames, statisticNames, maxAge;
    }

    /** Takes the pending values as a report and starts over from zero. */
    method TakePending() returns (report: Report)
      requires Valid()
      modifies this
      ensures Valid()
      ensures report == ReportOf(old(Pending())) && Pending() == Empty
      ensures emitted == old(emitted) + [report] && recorded == old(recorded)
      ensures metrics == old(metrics)
    {
      report := ReportOf(Pending());
      assert PointsEmitted(emitted + [report]) == PointsEmitted(emitted) + report.aggregatedData;
      uniqueMetrics, uniqueStatistics, aggregatedData, age, emitted :=
        {}, {}, 0, 0, emitted + [report];
    }

    /** Emits the pending values to the given instance, closes it and
        starts over from zero. */
    method FlushMetrics(m: MetricsInstance) returns (report: Report)
      requires Valid()
      modifies this, m
      ensures Valid()
      ensures report == ReportOf(old(Pending())) && Pending() == Empty
      ensures emitted == old(emitted) + [report] && recorded == old(recorded)
      ensures m.counters == Emitted(old(m.counters), Names(), report)
      ensures m.gauges == old(m.gauges)[ageName := report.age]
      ensures m.closed
      ensures metrics == old(metrics)
    {
      report := TakePending();
      EmitReport(m, Names(), ageName, report);
    }

    /** A timer tick: installs a fresh instance, then flushes the previous
        one. */
    method Tick() returns (report: Report)
      requires Valid()
      modifies this, metrics
      ensures Valid()
      ensures report == ReportOf(old(Pending())) && Pending() == Empty
      ensures emitted == old(emitted) + [report] && recorded == old(recorded)
      ensures old(metrics).counters == Emitted(old(metrics.counters), Names(), report)
      ensures old(metrics).gauges == old(metrics.gauges)[ageName := report.age]
      ensures old(metrics).closed
      ensures fresh(metrics) && !metrics.closed && metrics.gauges == map[]
      ensures metrics.counters == map[aggregatedDataName := 0][uniqueMetricsName := 0][uniqueStatisticsName := 0]
    {
      var oldMetrics := metrics;
      metrics := CreateMetrics(Names());
      report := FlushMetrics(oldMetrics);
    }

    /** Shutting down: one final flush, to the installed instance, of
        whatever accumulated since the last tick. */
    method Close() returns (report: Report)
      requires Valid()
      modifies this, metrics
      ensures Valid()
      ensures report == ReportOf(old(Pending())) && Pending() == Empty
      ensures emitted == old(emitted) + [report] && recorded == old(recorded)
      ensures metrics == old(metrics) && metrics.closed
      ensures metrics.counters == Emitted(old(metrics.counters), Names(), report)
      ensures metrics.gauges == old(metrics.gauges)[ageName := report.age]
    {
      report := FlushMetrics(metrics);
    }
  }

  ghost predicate MetricNamesDistinct(a: string, b: string, c: string) {
    a != b && b != c && a != c
  }

  /** The three counter names differ, since their suffixes differ in
      length. */
  lemma NamesDistinct(safeName: string)
    ensures MetricNamesDistinct(
      "Sinks/PeriodicStatisticsSink/" + safeName + "/AggregatedData",
      "Sinks/PeriodicStatisticsSink/" + safeName + "/UniqueMetrics",
      "Sinks/PeriodicStatisticsSink/" + safeName + "/UniqueStatistics")
  {
    var p := "Sinks/PeriodicStatisticsSink/" + safeName;
    assert |p + "/AggregatedData"| == |p| + 15;
    assert |p + "/UniqueMetrics"| == |p| + 14;
    assert |p + "/UniqueStatistics"| == |p| + 17;
  }
}
