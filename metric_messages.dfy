/** The metrics protocol of the proxy's web-socket connections: subscribe
    and unsubscribe commands maintain a table service -> metric -> set of
    statistics, metric reports are forwarded only for subscribed triples,
    and a metrics list is turned into a tree of named nodes. */
module MetricMessages {
  import opened Collections

  const CommandMetricsList := "metricsList"
  const CommandReportMetric := "report"
  const CommandNewMetric := "newMetric"
  const CommandSubscribeMetric := "subscribe"
  const CommandUnsubscribeMetric := "unsubscribe"
  const CommandGetMetrics := "getMetrics"

  /** The messages a connection hands to the processor. A command carries
      its command string and the service, metric and statistic fields of
      its body. */
  datatype Message =
    | Command(command: string, service: string, metric: string, statistic: string)
    | NewMetric(service: string, metric: string, statistic: string)
    | MetricReport(service: string, metric: string, statistic: string, host: string, periodStart: int, value: real)
    | MetricsList(metrics: map<string, map<string, set<string>>>)
    | Unknown

  /** A node of the metrics tree: a name and its children. */
  datatype Node = Node(name: string, children: seq<Node>)

  /** The bodies of the commands sent to the client. */
  datatype Payload =
    | MetricDescriptor(service: string, metric: string, statistic: string)
    | ReportEvent(server: string, service: string, metric: string, timestamp: int, statistic: string, data: real)
    | MetricsTree(metrics: seq<Node>)

  /** What handling a message emits: a command sent to the client, or a
      metrics-list request to the parent actor. */
  datatype Output = SendCommand(command: string, payload: Payload) | RequestMetricsList

  type Subscriptions = map<string, map<string, set<string>>>

  /** Whether reports of the triple are forwarded. */
  predicate IsSubscribed(subs: Subscriptions, service: string, metric: string, statistic: string) {
    service in subs && metric in subs[service] && statistic in subs[service][metric]
  }

  /** The table after subscribing to a triple, creating the service and
      metric entries when missing. */
  function Subscribed(subs: Subscriptions, service: string, metric: string, statistic: string): Subscriptions {
    var metrics := if service in subs then subs[service] else map[];
    var statistics := if metric in metrics then metrics[metric] else {};
    subs[service := metrics[metric := statistics + {statistic}]]
  }

  /** The table after unsubscribing from a triple: only the statistic is
      removed; service and metric entries stay, possibly empty. */
  function Unsubscribed(subs: Subscriptions, service: string, metric: string, statistic: string): Subscriptions {
    if service in subs && metric in subs[service]
    then subs[service := subs[service][metric := subs[service][metric] - {statistic}]]
    else subs
  }

  /** Subscribing makes the triple present and changes no other triple; the
      service and metric entries are the old ones plus those of the triple. */
  lemma SubscribeAddsOnlyThatTriple(subs: Subscriptions, service: string, metric: string, statistic: string)
    ensures IsSubscribed(Subscribed(subs, service, metric, statistic), service, metric, statistic)
    ensures forall s, m, st :: (s, m, st) != (service, metric, statistic) ==>
      (IsSubscribed(Subscribed(subs, service, metric, statistic), s, m, st) <==> IsSubscribed(subs, s, m, st))
    ensures Subscribed(subs, service, metric, statistic).Keys == subs.Keys + {service}
    ensures forall s :: s in subs && s != service ==> Subscribed(subs, service, metric, statistic)[s] == subs[s]
  {
  }

  /** Subscribing to a triple that is present changes nothing, so
      subscribing twice is the same as once. */
  lemma SubscribeIdempotent(subs: Subscriptions, service: string, metric: string, statistic: string)
    ensures IsSubscribed(subs, service, metric, statistic) ==> Subscribed(subs, service, metric, statistic) == subs
    ensures var once := Subscribed(subs, service, metric, statistic);
      Subscribed(once, service, metric, statistic) == once
  {
    var once := Subscribed(subs, service, metric, statistic);
    assert once[service][metric] + {statistic} == once[service][metric];
    assert once[service][metric := once[service][metric]] == once[service];
    if IsSubscribed(subs, service, metric, statistic) {
      assert subs[service][metric] + {statistic} == subs[service][metric];
      assert subs[service][metric := subs[service][metric]] == subs[service];
    }
  }

  /** Unsubscribing makes the triple absent, changes no other triple, and
      keeps every service and metric entry. */
  lemma UnsubscribeRemovesOnlyThatTriple(subs: Subscriptions, service: string, metric: string, statistic: string)
    ensures !IsSubscribed(Unsubscribed(subs, service, metric, statistic), service, metric, statistic)
    ensures forall s, m, st :: (s, m, st) != (service, metric, statistic) ==>
      (IsSubscribed(Unsubscribed(subs, service, metric, statistic), s, m, st) <==> IsSubscribed(subs, s, m, st))
    ensures Unsubscribed(subs, service, metric, statistic).Keys == subs.Keys
    ensures forall s :: s in subs ==> Unsubscribed(subs, service, metric, statistic)[s].Keys == subs[s].Keys
  {
  }

  /** Unsubscribing from a triple that is not present changes nothing. */
  lemma UnsubscribeAbsentIsNoOp(subs: Subscriptions, service: string, metric: string, statistic: string)
    requires !IsSubscribed(subs, service, metric, statistic)
    ensures Unsubscribed(subs, service, metric, statistic) == subs
  {
    if service in subs && metric in subs[service] {
      assert subs[service][metric] - {statistic} == subs[service][metric];
      assert subs[service][metric := subs[service][metric]] == subs[service];
    }
  }

  /** Where the service and metric entries already exist, unsubscribing
      undoes a subscription to a triple that was absent. */
  lemma UnsubscribeUndoesSubscribe(subs: Subscriptions, service: string, metric: string, statistic: string)
    requires service in subs && metric in subs[service]
    requires !IsSubscribed(subs, service, metric, statistic)
    ensures Unsubscribed(Subscribed(subs, service, metric, statistic), service, metric, statistic) == subs
  {
    var once := Subscribed(subs, service, metric, statistic);
    assert subs[service][metric] + {statistic} - {statistic} == subs[service][metric];
    assert once[service][metric := subs[service][metric]] == subs[service];
    assert subs[service := subs[service]] == subs;
  }

  /** The report command for a metric report: the host becomes the server,
      the period start the timestamp and the value the data. */
  function ReportCommand(service: string, metric: string, statistic: string, host: string, periodStart: int, value: real): Output {
    SendCommand(CommandReportMetric, ReportEvent(host, service, metric, periodStart, statistic, value))
  }

  /** The commands a metric report produces: nothing when its service, its
      metric or its statistic is not subscribed, else one report. */
  function ProcessMetricReport(subs: Subscriptions, report: Message): (out: seq<Output>)
    requires report.MetricReport?
    ensures |out| == (if IsSubscribed(subs, report.service, report.metric, report.statistic) then 1 else 0)
    ensures out != [] ==>
      out[0] == ReportCommand(report.service, report.metric, report.statistic, report.host, report.periodStart, report.value)
  {
    if report.service !in subs then []
    else
      var metrics := subs[report.service];
      if report.metric !in metrics then []
      else
        var stats := metrics[report.metric];
        if report.statistic !in stats then []
        else [ReportCommand(report.service, report.metric, report.statistic, report.host, report.periodStart, report.value)]
  }

  function NameOf(n: Node): string {
    n.name
  }

  /** One leaf per statistic, each without children. */
  ghost predicate StatisticLeaves(nodes: seq<Node>, statistics: set<string>) {
    && |nodes| == |statistics|
    && Image(nodes, NameOf) == statistics
    && forall i :: 0 <= i < |nodes| ==> nodes[i].children == []
  }

  /** One node per metric, whose children are the leaves of its statistics. */
  ghost predicate MetricNodes(nodes: seq<Node>, metrics: map<string, set<string>>) {
    && |nodes| == |metrics|
    && Image(nodes, NameOf) == metrics.Keys
    && forall i :: 0 <= i < |nodes| ==>
      nodes[i].name in metrics && StatisticLeaves(nodes[i].children, metrics[nodes[i].name])
  }

  /** One node per service, whose children are the nodes of its metrics. */
  ghost predicate ServiceNodes(nodes: seq<Node>, services: Subscriptions) {
    && |nodes| == |services|
    && Image(nodes, NameOf) == services.Keys
    && forall i :: 0 <= i < |nodes| ==>
      nodes[i].name in services && MetricNodes(nodes[i].children, services[nodes[i].name])
  }

  /** The names of the nodes built so far and the keys still to visit
      split the set of all keys, one node per visited key. */
  ghost predicate Partitioned(nodes: seq<Node>, remaining: set<string>, all: set<string>) {
    && Image(nodes, NameOf) + remaining == all
    && Image(nodes, NameOf) !! remaining
    && |nodes| + |remaining| == |all|
  }

  lemma PartitionedStep(nodes: seq<Node>, remaining: set<string>, all: set<string>, node: Node)
    requires Partitioned(nodes, remaining, all) && node.name in remaining
    ensures Partitioned(nodes + [node], remaining - {node.name}, all)
  {
    assert (nodes + [node])[..|nodes|] == nodes;
    assert remaining == (remaining - {node.name}) + {node.name};
  }

  /** The leaves for a set of statistics, in the set's iteration order. */
  method BuildStatisticNodes(statistics: set<string>) returns (nodes: seq<Node>)
    ensures StatisticLeaves(nodes, statistics)
  {
    nodes := [];
    var remaining := statistics;
    while remaining != {}
      invariant Partitioned(nodes, remaining, statistics)
      invariant forall i :: 0 <= i < |nodes| ==> nodes[i].children == []
      decreases |remaining|
    {
      var statistic :| statistic in remaining;
      var leaf := Node(statistic, []);
      PartitionedStep(nodes, remaining, statistics, leaf);
      nodes := nodes + [leaf];
      remaining := remaining - {statistic};
    }
  }

  /** The nodes for the metrics of one service. */
  method BuildMetricNodes(metrics: map<string, set<string>>) returns (nodes: seq<Node>)
    ensures MetricNodes(nodes, metrics)
  {
    nodes := [];
    var remaining := metrics.Keys;
    while remaining != {}
      invariant remaining <= metrics.Keys
      invariant Partitioned(nodes, remaining, metrics.Keys)
      invariant forall i :: 0 <= i < |nodes| ==>
        nodes[i].name in metrics && StatisticLeaves(nodes[i].children, metrics[nodes[i].name])
      decreases |remaining|
    {
      var metric :| metric in remaining;
      var stats := BuildStatisticNodes(metrics[metric]);
      var node := Node(metric, stats);
      PartitionedStep(nodes, remaining, metrics.Keys, node);
      nodes := nodes + [node];
      remaining := remaining - {metric};
    }
  }

  /** The tree of a metrics list: one node per service. */
  method BuildServiceNodes(services: Subscriptions) returns (nodes: seq<Node>)
    ensures ServiceNodes(nodes, services)
  {
    nodes := [];
    var remaining := services.Keys;
    while remaining != {}
      invariant remaining <= services.Keys
      invariant Partitioned(nodes, remaining, services.Keys)
      invariant forall i :: 0 <= i < |nodes| ==>
        nodes[i].name in services && MetricNodes(nodes[i].children, services[nodes[i].name])
      decreases |remaining|
    {
      var service :| service in remaining;
      var metrics := BuildMetricNodes(services[service]);
      var node := Node(service, metrics);
      PartitionedStep(nodes, remaining, services.Keys, node);
      nodes := nodes + [node];
      remaining := remaining - {service};
    }
  }

  /** Whether handleMessage reports a message as handled: the three known
      commands and the three other message kinds. */
  predicate Handles(message: Message) {
    match message
    case Command(command, _, _, _) =>
      command == CommandGetMetrics || command == CommandSubscribeMetric || command == CommandUnsubscribeMetric
    case Unknown => false
    case _ => true
  }

  /** The protocol processor of one connection. */
  class MetricMessagesProcessor {
    var subscriptions: Subscriptions

    constructor ()
      ensures subscriptions == map[]
    {
      subscriptions := map[];
    }

    method Subscribe(service: string, metric: string, statistic: string)
      modifies this
      ensures subscriptions == Subscribed(old(subscriptions), service, metric, statistic)
    {
      ghost var before := if service in subscriptions then subscriptions[service] else map[];
      if service !in subscriptions {
        subscriptions := subscriptions[service := map[]];
      }
      var metrics := subscriptions[service];
      if metric !in metrics {
        metrics := metrics[metric := {}];
        subscriptions := subscriptions[service := metrics];
      }
      var statistics := metrics[metric];
      assert statistics == if metric in before then before[metric] else {};
      assert metrics[metric := statistics + {statistic}] == before[metric := statistics + {statistic}];
      if statistic !in statistics {
        subscriptions := subscriptions[service := metrics[metric := statistics + {statistic}]];
      } else {
        assert statistics + {statistic} == statistics;
        assert metrics[metric := statistics] == metrics;
      }
    }

    method Unsubscribe(service: string, metric: string, statistic: string)
      modifies this
      ensures subscriptions == Unsubscribed(old(subscriptions), service, metric, statistic)
    {
      if service !in subscriptions {
        return;
      }
      var metrics := subscriptions[service];
      if metric !in metrics {
        return;
      }
      var statistics := metrics[metric];
      if statistic in statistics {
        subscriptions := subscriptions[service := metrics[metric := statistics - {statistic}]];
      } else {
        assert statistics - {statistic} == statistics;
        assert metrics[metric := statistics] == metrics;
        assert subscriptions[service := metrics] == subscriptions;
      }
    }

    /** Dispatches one message; returns whether it was handled and what it
        emitted. */
    method HandleMessage(message: Message) returns (handled: bool, outputs: seq<Output>)
      modifies this
      ensures handled <==> Handles(message)
      ensures !handled ==> subscriptions == old(subscriptions) && outputs == []
      ensures message.Command? && message.command == CommandSubscribeMetric ==>
        subscriptions == Subscribed(old(subscriptions), message.service, message.metric, message.statistic) && outputs == []
      ensures message.Command? && message.command == CommandUnsubscribeMetric ==>
        subscriptions == Unsubscribed(old(subscriptions), message.service, message.metric, message.statistic) && outputs == []
      ensures message.Command? && message.command == CommandGetMetrics ==>
        subscriptions == old(subscriptions) && outputs == [RequestMetricsList]
      ensures message.NewMetric? ==>
        subscriptions == old(subscriptions)
        && outputs == [SendCommand(CommandNewMetric, MetricDescriptor(message.service, message.metric, message.statistic))]
      ensures message.MetricReport? ==>
        subscriptions == old(subscriptions) && outputs == ProcessMetricReport(old(subscriptions), message)
      ensures message.MetricsList? ==>
        && subscriptions == old(subscriptions) && |outputs| == 1
        && outputs[0].SendCommand? && outputs[0].command == CommandMetricsList
        && outputs[0].payload.MetricsTree? && ServiceNodes(outputs[0].payload.metrics, message.metrics)
    {
      outputs := [];
      match message {
        case Command(command, service, metric, statistic) =>
          if command == CommandGetMetrics {
            outputs := [RequestMetricsList];
          } else if command == CommandSubscribeMetric {
            Subscribe(service, metric, statistic);
          } else if command == CommandUnsubscribeMetric {
            Unsubscribe(service, metric, statistic);
          } else {
            return false, [];
          }
        case NewMetric(service, metric, statistic) =>
          outputs := [SendCommand(CommandNewMetric, MetricDescriptor(service, metric, statistic))];
        case MetricReport(_, _, _, _, _, _) =>
          outputs := ProcessMetricReport(subscriptions, message);
        case MetricsList(metrics) =>
          var tree := BuildServiceNodes(metrics);
          outputs := [SendCommand(CommandMetricsList, MetricsTree(tree))];
        case Unknown =>
          return false, [];
      }
      handled := true;
    }
  }
}
