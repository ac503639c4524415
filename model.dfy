/** The value types shared by the sinks: fully-qualified data-space names,
    periods, aggregated data points and conditions. */
module Model {
  import opened Wrappers

  /** The identity key of a raw or derived metric. The statistic is held by
      its textual name. */
  datatype FQDSN = FQDSN(cluster: string, service: string, metric: string, statistic: string)

  /** A period: its textual (ISO-8601) form and its length in milliseconds
      when added to the start of the period. */
  datatype Period = Period(text: string, millis: int)

  /** One computed data point for a period. The value is kept abstract. */
  datatype AggregatedData = AggregatedData(
    fqdsn: FQDSN,
    host: string,
    period: Period,
    periodStart: int,
    value: real)

  /** A threshold evaluation result; only ever passed through unchanged. */
  datatype Condition = Condition(
    name: string,
    severity: string,
    fqdsn: FQDSN,
    threshold: real,
    triggered: Option<bool>)
}
