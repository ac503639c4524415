# metrics core, modelled in Dafny

This project models the per-call logic of the metrics system. Three parts are covered.

- **Time-series data daemon** (`tsd-core`, a Java service):
  - the expression sink with its configuration listener;
  - the periodic statistics sink;
  - the URI configuration trigger;
  - the metric-safe source name.
- **Statistic registry**: equality and aliases of statistics, and the name table of the statistic factory.
- **Proxy and browser client**:
  - the proxy's metric message processor (subscriptions, report filtering, metrics tree);
  - the browser graph's series store (posting points, disconnecting servers, trimming old points, finding the visible window).

Every module is proved on its own terms. Stateful code is modelled as Dafny classes whose methods are proved against specification functions. Properties are proved as lemmas about those functions.

| module | file | models |
|---|---|---|
| `Wrappers` | `wrappers.dfy` | `Option` and `Result` |
| `Model` | `model.dfy` | FQDSN, period, aggregated datum, condition |
| `Collections` | `collections.dfy` | the image of a sequence under a function |
| `ExpressionPlan` | `expression_plan.dfy` | the configuration listener of the expression sink |
| `ExpressionSink` | `expression_sink.dfy` | expression evaluation and cluster-service discovery |
| `PeriodicStatistics` | `periodic_statistics_sink.dfy` | the periodic statistics sink and the metrics instance it writes to |
| `Statistics` | `statistics.dfy` | statistic equality and the name registry |
| `UriTrigger` | `uri_trigger.dfy` | the conditional-GET change trigger (RFC 7232) |
| `MetricMessages` | `metric_messages.dfy` | the proxy's metric message processor |
| `GraphVM` | `graph_vm.dfy` | the series store of a live graph |
| `BaseSource` | `base_source.dfy` | the metric-safe name |

## Modelling choices

**Expression plan.** Offering a configuration:

1. indexes the expressions by target FQDSN (`UniqueIndex`), failing on a duplicate target;
2. then runs the depth-first insertion of `insertExpression` on a `PlanBuilder` object. Its fields are the parents set and the ordered targets. A ghost stack records the parents in entry order, which yields the cycle witness.

The insertion is split into three mutually recursive methods:

- `Insert` is the membership tests.
- `Place` pushes the target, inserts its dependencies and pops it.
- `InsertDependencies` is the loop over dependencies.

Termination follows from the number of indexed targets not yet among the parents.

Ties between expressions are broken by the depth-first post-order, not by input order alone. For input positions i < j, expression i comes before expression j whenever j's target is not reachable along dependencies from expressions 0..i. `InputOrderKept` states this, and `OfferConfiguration` promises it. The converse does not hold. For [T0, T1, T2], where T0 depends on T1 and then T2, the plan is [T1, T2, T0]: T1 comes before T2 even though T2 is reachable from T0. "Independent expressions keep input order" is true only in that sense. Take the input [A, B, C] where A depends on C. The plan is [C, A, B]: B and C are independent, yet B comes before C in the input and after it in the plan, because C is placed while A is inserted. The published plan is a `PlanSlot` object shared by the listener and the sink, standing for the atomic reference.

**Evaluation.** Lua evaluation of an expression is an abstract function parameter. It returns a present datum, `Missing` or `Failed` (a script exception). The specification `Outcomes` says what each expression sees: the input and everything produced before it.

**Periodic statistics.** The four accumulators are fields of the sink object, and the metrics instance is a class with counters, gauges and a closed flag. The clock reading of `recordAggregateData` is a `now` parameter. Two ghost fields hold the whole history: the points ever recorded and the reports ever emitted. The sink's invariant says every recorded point is emitted exactly once or still pending.

**URI trigger.** The HTTP exchange is a function from the conditional request headers to an exchange result. The result is either a transport failure (the caught `IOException`) or a response: status, optional ETag, optional Last-Modified. Last-Modified is either a date in milliseconds or text that does not parse.

- The parse failure escapes `evaluateAndReset` as a runtime exception. It is modelled as the outcome `DateParseError`, with the validators left as they are.
- Java's `status / 100 != 2` truncates toward zero. `JavaDiv` models that, and `SuccessClass` proves the test accepts exactly 200..299.

**Metric messages.** The nested subscription map is a `map` of `map`s of `set`s. It is reassigned rather than mutated in place. The outputs of a message (commands sent to the client, a metrics-list request to the parent actor) are returned as a list. The metrics tree is built by three loops. Each loop picks the next key with `:|`, standing for hash-map iteration order, which the source leaves unspecified.

**Graph.** Timestamps are integers and values reals. The store is the `data` sequence of series plus the `dataStreams` map from server to position. The clock of an animation frame is a parameter.

- `Posted`, `Disconnected` and `Trimmed`/`WindowOf` specify the updates.
- `Consistent` is the invariant of the store. The index and the positions agree both ways, and every series is non-empty with strictly increasing timestamps.
- `postData` looks the series up by the connection's server (`cvm.server`); its own `server` argument is never read. The model does the same and takes both.

## Model

| member | source | states |
|---|---|---|
| `ExpressionPlan.UniqueIndex` | tsd/tsd-core/src/main/java/com/arpnetworking/tsdcore/sinks/ExpressionSink.java:268-273 | indexing succeeds exactly when the targets are pairwise distinct; on success each expression is found under its own target and the index holds nothing else; on failure two offered expressions with one target are named |
| `ExpressionPlan.PlanBuilder.constructor` | tsd/tsd-core/src/main/java/com/arpnetworking/tsdcore/sinks/ExpressionSink.java:278 | a new builder has no parents and an empty order, and satisfies the builder invariant |
| `ExpressionPlan.PlanBuilder.ResetParents` | tsd/tsd-core/src/main/java/com/arpnetworking/tsdcore/sinks/ExpressionSink.java:280 | each top-level insertion starts with an empty parents set and the order so far |
| `ExpressionPlan.PlanBuilder.Insert` | tsd/tsd-core/src/main/java/com/arpnetworking/tsdcore/sinks/ExpressionSink.java:298-339 | a target met while in progress fails with a cycle error and the dependencies do contain a cycle; otherwise the target ends up placed; the parents are restored; the order only grows and stays duplicate-free and dependencies-first; termination by the shrinking set of targets not in progress |
| `ExpressionPlan.PlanBuilder.Place` | tsd/tsd-core/src/main/java/com/arpnetworking/tsdcore/sinks/ExpressionSink.java:306-331 | an unplaced target is pushed as a parent, its dependencies are inserted, then it is appended to the order and removed from the parents; everything appended is reachable from the target |
| `ExpressionPlan.PlanBuilder.InsertDependencies` | tsd/tsd-core/src/main/java/com/arpnetworking/tsdcore/sinks/ExpressionSink.java:312-323 | every dependency that is an expression target is placed afterwards; dependencies on raw data are skipped; a failure is a real cycle |
| `ExpressionPlan.PlanBuilder.InsertAll` | tsd/tsd-core/src/main/java/com/arpnetworking/tsdcore/sinks/ExpressionSink.java:278-282 | every offered target is placed, each insertion starting with no parents; a failure is a real cycle; without internal dependencies the order is the input order; each target comes before every later one that is not reachable from it or from an earlier target |
| `ExpressionPlan.ConfigurationListener.constructor` | tsd/tsd-core/src/main/java/com/arpnetworking/tsdcore/sinks/ExpressionSink.java:257-259 | the listener publishes to the given slot and has offered an empty list |
| `ExpressionPlan.ConfigurationListener.OfferConfiguration` | tsd/tsd-core/src/main/java/com/arpnetworking/tsdcore/sinks/ExpressionSink.java:262-287 | a duplicate target fails before ordering; otherwise the offer fails exactly when the dependencies have a cycle (self-dependency included); a failure keeps the previous offer; a success offers a permutation of the input in which every expression follows each expression it depends on; without internal dependencies the input order is kept; in general expression i comes before a later-listed expression j whenever j's target is not reachable along dependencies from expressions 0..i (depth-first tie-breaking) |
| `ExpressionPlan.ConfigurationListener.ApplyConfiguration` | tsd/tsd-core/src/main/java/com/arpnetworking/tsdcore/sinks/ExpressionSink.java:289-296 | publishes exactly the last successfully offered list |
| `ExpressionPlan.CycleFromStack` | tsd/tsd-core/src/main/java/com/arpnetworking/tsdcore/sinks/ExpressionSink.java:304-337 | a target met again while it is a parent closes a dependency cycle through the chain of parents |
| `ExpressionPlan.OrderedIsAcyclic` | tsd/tsd-core/src/main/java/com/arpnetworking/tsdcore/sinks/ExpressionSink.java:325-328 | a complete dependencies-first order rules out every dependency cycle |
| `ExpressionPlan.OrderGivesPlan` | tsd/tsd-core/src/main/java/com/arpnetworking/tsdcore/sinks/ExpressionSink.java:284-286 | the complete order, mapped back to expressions, proves the list acyclic and is a plan: same multiset, dependencies first; without internal dependencies it is the input |
| `ExpressionPlan.EdgeGoesBack` | tsd/tsd-core/src/main/java/com/arpnetworking/tsdcore/sinks/ExpressionSink.java:325-328 | in a dependencies-first order every dependency between placed targets sits earlier |
| `ExpressionPlan.TopLevelStep` | tsd/tsd-core/src/main/java/com/arpnetworking/tsdcore/sinks/ExpressionSink.java:279-282 | after each top-level insertion every placed target is reachable from an expression inserted so far, so the expression just inserted comes before every later one that none of those reaches |
| `ExpressionPlan.InputOrderOfPlan` | tsd/tsd-core/src/main/java/com/arpnetworking/tsdcore/sinks/ExpressionSink.java:284-286 | the tie-breaking of the target order carries over to the list of expressions built from it |
| `ExpressionPlan.ReachesThrough` | tsd/tsd-core/src/main/java/com/arpnetworking/tsdcore/sinks/ExpressionSink.java:312-323 | a target reaches whatever its dependencies reach |
| `ExpressionPlan.DistinctSameElements` | tsd/tsd-core/src/main/java/com/arpnetworking/tsdcore/sinks/ExpressionSink.java:278-286 | two duplicate-free lists with the same elements are permutations of each other, so the ordered set mapped back is a permutation of the input |
| `ExpressionSink.ExpressionSink.EvaluateExpressions` | tsd/tsd-core/src/main/java/com/arpnetworking/tsdcore/sinks/ExpressionSink.java:179-218 | without a plan the input is returned; with one, the result is the input followed by the present results in plan order; every plan entry is evaluated; missing and failed evaluations add nothing and are counted; evaluations = new data + missing + failures |
| `ExpressionSink.SeesEarlierResults` | tsd/tsd-core/src/main/java/com/arpnetworking/tsdcore/sinks/ExpressionSink.java:193-205 | each expression is evaluated against the input plus the results of the expressions before it |
| `ExpressionSink.OutcomesPrefix` | tsd/tsd-core/src/main/java/com/arpnetworking/tsdcore/sinks/ExpressionSink.java:193-215 | later expressions never change what earlier ones saw or produced |
| `ExpressionSink.OutcomesPartition` | tsd/tsd-core/src/main/java/com/arpnetworking/tsdcore/sinks/ExpressionSink.java:195-207 | every evaluation is exactly one of produced, missing or failed |
| `ExpressionSink.ProducedAppend` | tsd/tsd-core/src/main/java/com/arpnetworking/tsdcore/sinks/ExpressionSink.java:201-207 | one more evaluation adds its datum if present and bumps the matching count by one |
| `ExpressionSink.ExpressionSink.constructor` | tsd/tsd-core/src/main/java/com/arpnetworking/tsdcore/sinks/ExpressionSink.java:220-234 | a new sink has seen no cluster-service pair and reads the listener's slot |
| `ExpressionSink.ExpressionSink.RecordAggregateData` | tsd/tsd-core/src/main/java/com/arpnetworking/tsdcore/sinks/ExpressionSink.java:73-125 | the key set grows by exactly the batch's (cluster, service) pairs; a reconfiguration starts exactly when one of them was new; the forwarded data is the evaluated batch and the conditions pass unchanged |
| `Collections.ImageMembers` | tsd/tsd-core/src/main/java/com/arpnetworking/tsdcore/sinks/ExpressionSink.java:86-100 | an element is in the set of keys of a sequence exactly when some element of the sequence has that key |
| `PeriodicStatistics.PeriodicStatisticsSink.constructor` | tsd/tsd-core/src/main/java/com/arpnetworking/tsdcore/sinks/PeriodicStatisticsSink.java:163-172 | the four metric names are built from the metric-safe name; the accumulators start at zero and empty; the installed instance has its three counters reset |
| `PeriodicStatistics.PeriodicStatisticsSink.RecordAggregateData` | tsd/tsd-core/src/main/java/com/arpnetworking/tsdcore/sinks/PeriodicStatisticsSink.java:71-102 | the counter grows by the batch size; the sets gain exactly the batch's metric and statistic names; the age becomes the running maximum of the lateness; the age stays non-negative and every recorded point is still accounted for |
| `PeriodicStatistics.RecordedProperties` | tsd/tsd-core/src/main/java/com/arpnetworking/tsdcore/sinks/PeriodicStatisticsSink.java:80-100 | recording adds exactly the batch size, adds a name exactly when some datum of the batch has it, and raises the age to the largest lateness when that is larger |
| `PeriodicStatistics.MaxLatenessIsMax` | tsd/tsd-core/src/main/java/com/arpnetworking/tsdcore/sinks/PeriodicStatisticsSink.java:100 | the accumulated age is at least its start and every lateness, and equals one of them |
| `PeriodicStatistics.AgeNeverNegative` | tsd/tsd-core/src/main/java/com/arpnetworking/tsdcore/sinks/PeriodicStatisticsSink.java:191 | an age accumulated from the neutral 0 is never negative |
| `PeriodicStatistics.FlushWithoutRecordsReportsZeros` | tsd/tsd-core/src/main/java/com/arpnetworking/tsdcore/sinks/PeriodicStatisticsSink.java:136-145 | in any history, a flush right after construction or after another flush emits zeros, leaves the earlier reports unchanged and leaves nothing pending |
| `PeriodicStatistics.ReplayAccountsForEveryPoint` | tsd/tsd-core/src/main/java/com/arpnetworking/tsdcore/sinks/PeriodicStatisticsSink.java:80-146 | over any sequential history of recordings and flushes, the emitted counts plus the pending count equal the recorded points: none lost or counted twice |
| `PeriodicStatistics.PeriodicStatisticsSink.TakePending` | tsd/tsd-core/src/main/java/com/arpnetworking/tsdcore/sinks/PeriodicStatisticsSink.java:136-145 | the pending values are taken as the report, and the counter, both sets and the age are reset |
| `PeriodicStatistics.PeriodicStatisticsSink.FlushMetrics` | tsd/tsd-core/src/main/java/com/arpnetworking/tsdcore/sinks/PeriodicStatisticsSink.java:134-147 | the given instance's three counters rise by the count and the two set sizes, the age gauge is set and the instance is closed; the sink starts over from zero |
| `PeriodicStatistics.EmitReport` | tsd/tsd-core/src/main/java/com/arpnetworking/tsdcore/sinks/PeriodicStatisticsSink.java:142-146 | the three counters rise by the report's values, the age gauge is set, the instance is closed |
| `PeriodicStatistics.CreateMetrics` | tsd/tsd-core/src/main/java/com/arpnetworking/tsdcore/sinks/PeriodicStatisticsSink.java:149-155 | a fresh open instance with exactly the three counters reset to 0 |
| `PeriodicStatistics.FreshInstanceHoldsReport` | tsd/tsd-core/src/main/java/com/arpnetworking/tsdcore/sinks/PeriodicStatisticsSink.java:142-155 | an instance created by the sink and then flushed holds exactly the reported values under the three names |
| `PeriodicStatistics.NamesDistinct` | tsd/tsd-core/src/main/java/com/arpnetworking/tsdcore/sinks/PeriodicStatisticsSink.java:168-170 | the three counter names differ whatever the sink's name |
| `PeriodicStatistics.PeriodicStatisticsSink.Tick` | tsd/tsd-core/src/main/java/com/arpnetworking/tsdcore/sinks/PeriodicStatisticsSink.java:213-216 | a tick installs a fresh instance with reset counters first; the report is the pending summary, the previous instance's three counters rise by the report's values and its age gauge is set to the report's age, then it is closed |
| `PeriodicStatistics.PeriodicStatisticsSink.Close` | tsd/tsd-core/src/main/java/com/arpnetworking/tsdcore/sinks/PeriodicStatisticsSink.java:108-117 | closing performs one final flush of the pending summary into the installed instance: its three counters rise by the report's values, its age gauge is set to the report's age, and it is closed |
| `PeriodicStatistics.MetricsInstance.ResetCounter` | tsd/tsd-core/src/main/java/com/arpnetworking/tsdcore/sinks/PeriodicStatisticsSink.java:151-153 | the named counter reads 0; nothing else changes |
| `PeriodicStatistics.MetricsInstance.IncrementCounter` | tsd/tsd-core/src/main/java/com/arpnetworking/tsdcore/sinks/PeriodicStatisticsSink.java:142-144 | the named counter rises by the delta, from 0 when never written |
| `PeriodicStatistics.MetricsInstance.SetGauge` | tsd/tsd-core/src/main/java/com/arpnetworking/tsdcore/sinks/PeriodicStatisticsSink.java:145 | the named gauge holds the value |
| `PeriodicStatistics.MetricsInstance.Close` | tsd/tsd-core/src/main/java/com/arpnetworking/tsdcore/sinks/PeriodicStatisticsSink.java:146 | the instance is closed and its values are kept |
| `Statistics.Aliases` | tsd/tsd-core/src/main/java/com/arpnetworking/tsdcore/statistics/BaseStatistic.java:35-37 | a lookup in the alias table: every kind other than count and median gets the base class's default (empty) set, and no alias repeats the kind's own name; that the names never clash across kinds is `AllKindsDistinct` |
| `Statistics.Equals` | tsd/tsd-core/src/main/java/com/arpnetworking/tsdcore/statistics/BaseStatistic.java:73-75 | equal exactly when the other is present and of the same kind, whatever the instance; never equal to null |
| `Statistics.EqualsIsEquivalence` | tsd/tsd-core/src/main/java/com/arpnetworking/tsdcore/statistics/BaseStatistic.java:73-75 | equality is reflexive, symmetric and transitive |
| `Statistics.EqualStatisticsHashAlike` | tsd/tsd-core/src/main/java/com/arpnetworking/tsdcore/statistics/BaseStatistic.java:65-75 | equal statistics have equal hash codes |
| `Statistics.Lookup` | tsd/cluster-aggregator/src/test/java/com/arpnetworking/clusteraggregator/StatisticFactoryTest.java:75-83 | a found kind is registered and claims the name; absent means no registered kind claims it |
| `Statistics.LookupUnique` | tsd/cluster-aggregator/src/test/java/com/arpnetworking/clusteraggregator/StatisticFactoryTest.java:75-83 | among kinds that never share a name, the lookup finds the one kind that claims the name |
| `Statistics.AllKindsDistinct` | tsd/cluster-aggregator/src/test/java/com/arpnetworking/clusteraggregator/StatisticFactoryTest.java:47-61 | no two registered kinds claim a common name or alias |
| `Statistics.Resolve` | tsd/cluster-aggregator/src/test/java/com/arpnetworking/clusteraggregator/StatisticFactoryTest.java:75-90 | a name resolves to the kind that claims it, and any present result claims the name |
| `Statistics.ResolveTable` | tsd/cluster-aggregator/src/test/java/com/arpnetworking/clusteraggregator/StatisticFactoryTest.java:47-61 | mean, sum, count/n, min (TP0), tp50/median, tp90, tp95, tp99, tp99.9 and max (TP100) resolve to their kinds |
| `Statistics.ResolveUnknown` | tsd/cluster-aggregator/src/test/java/com/arpnetworking/clusteraggregator/StatisticFactoryTest.java:85-90 | an unknown name resolves to absent, not an error |
| `UriTrigger.SuccessClass` | tsd/tsd-core/src/main/java/com/arpnetworking/configuration/triggers/UriTrigger.java:82 | Java's truncating `status / 100 == 2` holds exactly for 200..299 |
| `UriTrigger.ConditionalHeaders` | tsd/tsd-core/src/main/java/com/arpnetworking/configuration/triggers/UriTrigger.java:67-72 | If-None-Match is sent exactly when an ETag is stored, and If-Modified-Since exactly when a date is stored, with that value |
| `UriTrigger.FirstEvaluationTriggers` | tsd/tsd-core/src/main/java/com/arpnetworking/configuration/triggers/UriTrigger.java:179-188 | a new trigger reports a change on its first 2xx response carrying either validator |
| `UriTrigger.NotModifiedIsNoChange` | tsd/tsd-core/src/main/java/com/arpnetworking/configuration/triggers/UriTrigger.java:74-81 | 304 is no change and leaves both validators |
| `UriTrigger.FailureIsNoChange` | tsd/tsd-core/src/main/java/com/arpnetworking/configuration/triggers/UriTrigger.java:82-112 | a transport failure or a status outside 200..299 is no change and leaves both validators |
| `UriTrigger.NoValidatorsIsNoChange` | tsd/tsd-core/src/main/java/com/arpnetworking/configuration/triggers/UriTrigger.java:90-98 | a response without ETag and Last-Modified is no change |
| `UriTrigger.LaterDateTriggers` | tsd/tsd-core/src/main/java/com/arpnetworking/configuration/triggers/UriTrigger.java:142-151 | a strictly later (or first) date is a change and is stored, and the ETag is then neither examined nor stored |
| `UriTrigger.EtagDecidesOtherwise` | tsd/tsd-core/src/main/java/com/arpnetworking/configuration/triggers/UriTrigger.java:99-131 | when the date does not signal a change, a present ETag is a change exactly when it differs from the stored one, and it is stored |
| `UriTrigger.UnparseableDateIsError` | tsd/tsd-core/src/main/java/com/arpnetworking/configuration/triggers/UriTrigger.java:136-141 | an unparseable date escapes as an error before the ETag is examined, storing nothing |
| `UriTrigger.StaleDateWithoutEtagIsNoChange` | tsd/tsd-core/src/main/java/com/arpnetworking/configuration/triggers/UriTrigger.java:142-151 | a response whose only validator is a date not later than the stored one is no change and stores nothing |
| `UriTrigger.ChangesOnlyWhenTriggered` | tsd/tsd-core/src/main/java/com/arpnetworking/configuration/triggers/UriTrigger.java:99-154 | the validators change exactly when a change is reported, and then only one of them |
| `UriTrigger.DateNeverDecreases` | tsd/tsd-core/src/main/java/com/arpnetworking/configuration/triggers/UriTrigger.java:142-151 | a stored date is never forgotten nor moved earlier by one evaluation |
| `UriTrigger.RunDateNeverDecreases` | tsd/tsd-core/src/main/java/com/arpnetworking/configuration/triggers/UriTrigger.java:142-151 | over any run of evaluations the stored date never decreases |
| `UriTrigger.RepeatedExchangeSettles` | tsd/tsd-core/src/main/java/com/arpnetworking/configuration/triggers/UriTrigger.java:99-154 | repeating one exchange reports a change the second time only when the first was the date and the ETag differs, and never the third time |
| `UriTrigger.UriTrigger.constructor` | tsd/tsd-core/src/main/java/com/arpnetworking/configuration/triggers/UriTrigger.java:179-188 | a new trigger stores neither validator |
| `UriTrigger.UriTrigger.IsEtagChanged` | tsd/tsd-core/src/main/java/com/arpnetworking/configuration/triggers/UriTrigger.java:115-131 | reports and stores a present ETag that differs from the stored one, or any ETag when none is stored |
| `UriTrigger.UriTrigger.IsLastModifiedChanged` | tsd/tsd-core/src/main/java/com/arpnetworking/configuration/triggers/UriTrigger.java:133-154 | reports and stores a strictly later date, or any date when none is stored; an unparseable date is an error that stores nothing |
| `UriTrigger.UriTrigger.EvaluateAndReset` | tsd/tsd-core/src/main/java/com/arpnetworking/configuration/triggers/UriTrigger.java:59-113 | sends the conditional headers of the stored validators and returns the outcome and new validators of `Evaluate` on what comes back |
| `MetricMessages.SubscribeAddsOnlyThatTriple` | remet-proxy/app/models/protocol/v1/MetricMessagesProcessor.java:197-213 | subscribing makes the triple present, creating service and metric entries, and changes no other triple |
| `MetricMessages.SubscribeIdempotent` | remet-proxy/app/models/protocol/v1/MetricMessagesProcessor.java:198-212 | subscribing to a present triple changes nothing, so twice is once |
| `MetricMessages.UnsubscribeRemovesOnlyThatTriple` | remet-proxy/app/models/protocol/v1/MetricMessagesProcessor.java:215-229 | unsubscribing makes the triple absent, changes no other triple and keeps every service and metric entry, possibly empty |
| `MetricMessages.UnsubscribeAbsentIsNoOp` | remet-proxy/app/models/protocol/v1/MetricMessagesProcessor.java:216-228 | unsubscribing from an absent triple changes nothing |
| `MetricMessages.UnsubscribeUndoesSubscribe` | remet-proxy/app/models/protocol/v1/MetricMessagesProcessor.java:197-229 | where the service and metric entries exist, unsubscribing undoes subscribing to an absent triple |
| `MetricMessages.ProcessMetricReport` | remet-proxy/app/models/protocol/v1/MetricMessagesProcessor.java:129-166 | exactly one report command when the triple is subscribed and none otherwise, with host as server, period start as timestamp and value as data |
| `MetricMessages.PartitionedStep` | remet-proxy/app/models/protocol/v1/MetricMessagesProcessor.java:172-191 | visiting one more key keeps the built names and the remaining keys a partition of all keys |
| `MetricMessages.BuildStatisticNodes` | remet-proxy/app/models/protocol/v1/MetricMessagesProcessor.java:179-185 | one leaf per statistic, named by it, each with empty children |
| `MetricMessages.BuildMetricNodes` | remet-proxy/app/models/protocol/v1/MetricMessagesProcessor.java:175-188 | one node per metric, whose children are the leaves of its statistics |
| `MetricMessages.BuildServiceNodes` | remet-proxy/app/models/protocol/v1/MetricMessagesProcessor.java:168-195 | one node per service, whose children are the nodes of its metrics |
| `MetricMessages.MetricMessagesProcessor.constructor` | remet-proxy/app/models/protocol/v1/MetricMessagesProcessor.java:50-52 | a new processor has no subscriptions |
| `MetricMessages.MetricMessagesProcessor.Subscribe` | remet-proxy/app/models/protocol/v1/MetricMessagesProcessor.java:197-213 | the table becomes `Subscribed` of the old one |
| `MetricMessages.MetricMessagesProcessor.Unsubscribe` | remet-proxy/app/models/protocol/v1/MetricMessagesProcessor.java:215-229 | the table becomes `Unsubscribed` of the old one |
| `MetricMessages.MetricMessagesProcessor.HandleMessage` | remet-proxy/app/models/protocol/v1/MetricMessagesProcessor.java:58-105 | false for an unknown command string or message kind, with nothing changed or sent; otherwise true, and per kind: subscribe and unsubscribe update the table, getMetrics requests the list, a new metric is announced, a report is filtered, a metrics list is sent as its tree |
| `GraphVM.IncreasingIsSorted` | remet-gui/app/assets/javascripts/classes/GraphVM.ts:112-114 | points appended only when later than the last one are strictly sorted by timestamp |
| `GraphVM.PostedConsistent` | remet-gui/app/assets/javascripts/classes/GraphVM.ts:99-115 | posting keeps index and positions agreeing both ways and every series non-empty and strictly increasing |
| `GraphVM.PostedNewServer` | remet-gui/app/assets/javascripts/classes/GraphVM.ts:100-109 | an unseen server gets index = the old number of series, and exactly one series holding just the point is appended |
| `GraphVM.PostedKnownServer` | remet-gui/app/assets/javascripts/classes/GraphVM.ts:112-114 | for a known server only its own series changes, by the point exactly when it is later than the last one; a rejected point changes nothing |
| `GraphVM.DisconnectedRemovesOnlyThatSeries` | remet-gui/app/assets/javascripts/classes/GraphVM.ts:61-77 | disconnecting removes exactly the server's key and its series, keeping the order of the others; an unknown server changes nothing |
| `GraphVM.DisconnectedConsistent` | remet-gui/app/assets/javascripts/classes/GraphVM.ts:61-77 | disconnecting keeps the store consistent |
| `GraphVM.RemovalKeepsIndex` | remet-gui/app/assets/javascripts/classes/GraphVM.ts:64-75 | after the splice and re-indexing every key points at its own server's series |
| `GraphVM.RemovalCoversSeries` | remet-gui/app/assets/javascripts/classes/GraphVM.ts:64-75 | after the splice and re-indexing every series is found under its server at its new position |
| `GraphVM.RemovedSeries` | remet-gui/app/assets/javascripts/classes/GraphVM.ts:65 | the splice keeps the series before the position and shifts those after it down by one |
| `GraphVM.Reindex` | remet-gui/app/assets/javascripts/classes/GraphVM.ts:70-75 | every index above the removed one is decremented and the others are kept |
| `GraphVM.NiceName` | remet-gui/app/assets/javascripts/classes/GraphVM.ts:89-91 | same length; every ':' becomes ' ' and every other character is kept in place |
| `GraphVM.NiceNameIdempotent` | remet-gui/app/assets/javascripts/classes/GraphVM.ts:89-91 | a nice name has no ':' and is its own nice name |
| `GraphVM.TrimOld` | remet-gui/app/assets/javascripts/classes/GraphVM.ts:155-158 | keeps a suffix of at least one point, drops a leading point only while the next is older than the cutoff, and the second kept point, if any, is at or after it |
| `GraphVM.TrimmedKeepsRecent` | remet-gui/app/assets/javascripts/classes/GraphVM.ts:155-158 | on an increasing series only points older than the cutoff are dropped, every kept point but the first is at or after it, and the rest stays increasing |
| `GraphVM.WindowSearch` | remet-gui/app/assets/javascripts/classes/GraphVM.ts:161-173 | the lower search finds the first visible point and the upper one the last, with no visible point outside |
| `GraphVM.FindWindow` | remet-gui/app/assets/javascripts/classes/GraphVM.ts:161-180 | the backward scan and the widening by one point on each side compute `WindowOf` |
| `GraphVM.WindowInBounds` | remet-gui/app/assets/javascripts/classes/GraphVM.ts:161-185 | for a non-empty series both window ends are valid indices, so every read of the drawing loop is in bounds, and every visible point lies between them |
| `GraphVM.TrimSeries` | remet-gui/app/assets/javascripts/classes/GraphVM.ts:155-180 | one series is trimmed under its own server and its window is found |
| `GraphVM.TrimAndFindWindows` | remet-gui/app/assets/javascripts/classes/GraphVM.ts:149-192 | every series is trimmed at the cutoff and its window found |
| `GraphVM.TrimmedConsistent` | remet-gui/app/assets/javascripts/classes/GraphVM.ts:149-158 | trimming keeps the store consistent |
| `GraphVM.GraphVM.constructor` | remet-gui/app/assets/javascripts/classes/GraphVM.ts:40-59 | no series, an empty index, duration 30000, endAt 0, dataLength 600000 |
| `GraphVM.GraphVM.PostData` | remet-gui/app/assets/javascripts/classes/GraphVM.ts:99-115 | the store becomes `Posted` of the old one, under the connection's server, and stays consistent |
| `GraphVM.GraphVM.DisconnectConnection` | remet-gui/app/assets/javascripts/classes/GraphVM.ts:61-77 | the store becomes `Disconnected` of the old one and stays consistent |
| `GraphVM.GraphVM.SetViewDuration` | remet-gui/app/assets/javascripts/classes/GraphVM.ts:83-87 | duration = end - start and endAt = dataLength - end; the store is untouched |
| `GraphVM.GraphVM.Frame` | remet-gui/app/assets/javascripts/classes/GraphVM.ts:146-192 | with now = clock - 1000, graphEnd = now - endAt and graphStart = graphEnd - duration, every series is trimmed at graphEnd - dataLength and windowed on [graphStart, graphEnd]; the store stays consistent |
| `BaseSource.MetricSafeName` | tsd/tsd-core/src/main/java/com/arpnetworking/tsdcore/sources/BaseSource.java:63-65 | same length; every '/', '.' and ' ' becomes '_', every other character is kept in place, and none of the three is left |
| `BaseSource.MetricSafeNameOfSafe` | tsd/tsd-core/src/main/java/com/arpnetworking/tsdcore/sources/BaseSource.java:64 | a name without '/', '.' or ' ' is left as it is |
| `BaseSource.MetricSafeNameIdempotent` | tsd/tsd-core/src/main/java/com/arpnetworking/tsdcore/sources/BaseSource.java:63-65 | sanitising twice is sanitising once |

## Left out

- Dynamic configuration creation, launch and shutdown, and `ExpressionSink.close`: asynchronous machinery outside the core. A new cluster-service pair is reported by the `reconfigured` result of `RecordAggregateData` instead.
- Jackson deserialisation of expressions and the reflection scan of expression classes: foreign libraries.
- Lua expression evaluation: an abstract function parameter returning a present datum, `Missing` or `Failed`.
- Concurrency: the atomic references, concurrent sets, the long accumulator, the scheduled executor, `awaitTermination` and thread interruption. Everything is modelled sequentially, so exactly-once accounting across a concurrent swap is proved only for sequential histories.
- Logging, and the metrics counters of `ExpressionSink` and of `MetricMessagesProcessor.handleMessage`, including `initializeMetrics`: they affect no result.
- `createConcurrentSet`: its capacity is a floating-point sizing hint with no effect on contents.
- The metrics factory: `CreateMetrics` makes a new `MetricsInstance` directly.
- The system clock of `recordAggregateData` and of the animation frame: a parameter.
- `PeriodicStatistics.PeriodicStatisticsSink.RecordAggregateData`: Java's 64-bit `long` overflow of counts and lateness is not modelled; integers are unbounded.
- Statistic and period text: the statistic and the period of a datum appear as abstract text in the unique-statistic names.
- Period arithmetic: the end of a datum's period is its start plus `Period.millis`. The source adds a calendar-aware Joda period (`getPeriodStart().plus(getPeriod())`, PeriodicStatisticsSink.java:100); the model treats every period as a fixed number of milliseconds.
- Statistic text: the source names a statistic in the unique-statistic names by `BaseStatistic.toString` (BaseStatistic.java:45-60), which also embeds the instance's identity hash. The model gives each kind one text, so it assumes one instance per kind.
- The HTTP client, connection pool, timeouts and request release of `UriTrigger`: replaced by the `server` function parameter.
- HTTP-date formatting and parsing (section 7.1.1.1 of RFC 7231): dates are integers, and an unparseable value is `Unparseable`.
- The actor `tell`, `ConnectionContext.sendCommand` and the JSON nodes: modelled as the returned output records.
- `processNewMetric`'s JSON body: modelled as `MetricDescriptor`.
- A command body missing the `command` field (MetricMessagesProcessor.java:63), or a subscribe or unsubscribe body missing the `service`, `metric` or `statistic` field, makes the source throw a null-pointer exception. The model's command always carries these strings.
- `PeriodicStatistics.PeriodicStatisticsSink.constructor`: the sink's `getMetricSafeName()` is inherited from `BaseSink`, which is not part of this model. The model assumes it sanitises the name as `BaseSource.getMetricSafeName` does (BaseSource.java:63-65).
- `GraphVM.GraphVM.Frame`: the source trims each series' point array in place with `shift()`. The model builds new sequences and reassigns `data`, so aliasing of the point arrays is not modelled.
- `MetricMessages.MetricMessagesProcessor.Subscribe` and `Unsubscribe`: the nested sets are updated in place in the source; the model reassigns the whole table, so aliasing of the inner map and set objects is not modelled.
- `MetricMessages.BuildServiceNodes`, `BuildMetricNodes` and `BuildStatisticNodes`: the hash-map iteration order is a nondeterministic choice, so the order of the nodes is not specified.
- `GraphVM` rendering: Flotr drawing, `requestAnimationFrame`, pausing and throttling, the y-axis range, the DOM, colour subscriptions, `updateColor`, `start` and `shutdown`.
- The range loop of the frame (GraphVM.ts:182-191) computes floating-point minima and maxima for drawing. Only the bounds of the indices it reads are proved (`WindowInBounds`).
- The frame's skip of undefined series (GraphVM.ts:152-154): `Consistent` rules them out, since disconnecting splices the series.
- JavaScript object keys inherited from the prototype, and keys of `dataStreams` that are not strings.
- `Condition`: a plain value passed through unchanged and otherwise abstract.
- Parsers, log lines and their tests: outside the core.
- The source observer plumbing of `BaseSource`: it delegates to an observable that is not part of this model.
- The registry's kind names and aliases: the visible source fixes only the test table. Which string is the canonical name and which an alias (count has alias n, median has alias tp50, min and max are the canonical names of TP0 and TP100) is a modelling choice consistent with that table.
- Statistic kinds outside the test table: not modelled.
