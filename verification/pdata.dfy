/**
  The decoded OTLP payloads the normaliser walks: every payload is a list of
  resources, each holding scopes, each holding leaves (log records, metrics
  or spans). Only the fields the normaliser reads are kept. Identifiers and
  severity numbers are carried as the text the pdata library renders for
  them.
*/
module Pdata {
  import opened Props

  datatype Resource = Resource(attributes: seq<Attr>, droppedAttributesCount: UInt32)

  datatype Scope = Scope(name: string)

  /** One resource with its scopes. */
  datatype ResourceGroup<L> = ResourceGroup(resource: Resource, scopes: seq<ScopeGroup<L>>)

  /** One instrumentation scope with its leaves. */
  datatype ScopeGroup<L> = ScopeGroup(scope: Scope, items: seq<L>)

  /** A leaf together with the scope and resource it sits under. */
  datatype Leaf<L> = Leaf(resource: Resource, scope: Scope, item: L)

  /** Every leaf of a payload, in resource, then scope, then leaf order. */
  function Leaves<L>(groups: seq<ResourceGroup<L>>): (r: seq<Leaf<L>>)
    ensures |r| == LeafCount(groups)
  {
    if |groups| == 0 then []
    else Leaves(groups[..|groups| - 1]) + ResourceLeaves(groups[|groups| - 1])
  }

  function ResourceLeaves<L>(g: ResourceGroup<L>): (r: seq<Leaf<L>>)
    ensures |r| == ScopeLeafCount(g.scopes)
    ensures forall i :: 0 <= i < |r| ==> r[i].resource == g.resource
  {
    ScopeLeaves(g.resource, g.scopes)
  }

  function ScopeLeaves<L>(res: Resource, scopes: seq<ScopeGroup<L>>): (r: seq<Leaf<L>>)
    ensures |r| == ScopeLeafCount(scopes)
    ensures forall i :: 0 <= i < |r| ==> r[i].resource == res
  {
    if |scopes| == 0 then []
    else
      var s := scopes[|scopes| - 1];
      ScopeLeaves(res, scopes[..|scopes| - 1]) + seq(|s.items|, k requires 0 <= k < |s.items| => Leaf(res, s.scope, s.items[k]))
  }

  /** The number of leaves of a payload, counted group by group. */
  function LeafCount<L>(groups: seq<ResourceGroup<L>>): nat {
    if |groups| == 0 then 0
    else LeafCount(groups[..|groups| - 1]) + ScopeLeafCount(groups[|groups| - 1].scopes)
  }

  function ScopeLeafCount<L>(scopes: seq<ScopeGroup<L>>): nat {
    if |scopes| == 0 then 0
    else ScopeLeafCount(scopes[..|scopes| - 1]) + |scopes[|scopes| - 1].items|
  }

  // ---------------------------------------------------------------------------
  // Logs
  // ---------------------------------------------------------------------------

  datatype LogRecord = LogRecord(
    attributes: seq<Attr>,
    timestamp: Timestamp,
    observedTimestamp: Timestamp,
    traceId: string,
    spanId: string,
    isSampled: bool,
    severityText: string,
    severityNumber: string,
    body: AttrValue)

  // ---------------------------------------------------------------------------
  // Metrics
  // ---------------------------------------------------------------------------

  datatype NumberValue = NoValue | IntValue(i: int) | DoubleValue(d: real)

  datatype NumberDataPoint = NumberDataPoint(
    attributes: seq<Attr>,
    timestamp: Timestamp,
    noRecordedValue: bool,
    exemplarCount: nat,
    value: NumberValue)

  /** Only the timestamp and the flag are read; the two list lengths matter
      because the first bucket count and the first bound are read. */
  datatype HistogramDataPoint = HistogramDataPoint(
    timestamp: Timestamp,
    noRecordedValue: bool,
    bucketCountsLen: nat,
    explicitBoundsLen: nat)

  datatype Temporality = TemporalityUnspecified | Delta | Cumulative

  datatype MetricData =
    | EmptyData
    | Gauge(points: seq<NumberDataPoint>)
    | Sum(temporality: Temporality, isMonotonic: bool, points: seq<NumberDataPoint>)
    | Histogram(hpoints: seq<HistogramDataPoint>)
    | ExponentialHistogram
    | Summary

  datatype Metric = Metric(name: string, description: string, unit: string, data: MetricData)

  /** `MetricType.String()`. */
  function MetricTypeName(d: MetricData): string {
    match d
    case EmptyData => "Empty"
    case Gauge(_) => "Gauge"
    case Sum(_, _, _) => "Sum"
    case Histogram(_) => "Histogram"
    case ExponentialHistogram => "ExponentialHistogram"
    case Summary => "Summary"
  }

  /** `NumberDataPointValueType.String()`. */
  function ValueTypeName(v: NumberValue): string {
    match v
    case NoValue => "Empty"
    case IntValue(_) => "Int"
    case DoubleValue(_) => "Double"
  }

  /** `AggregationTemporality.String()`. */
  function TemporalityName(t: Temporality): string {
    match t
    case TemporalityUnspecified => "Unspecified"
    case Delta => "Delta"
    case Cumulative => "Cumulative"
  }

  // ---------------------------------------------------------------------------
  // Traces
  // ---------------------------------------------------------------------------

  datatype SpanKind = KindUnspecified | Internal | Server | Client | Producer | Consumer

  /** `SpanKind.String()`. */
  function SpanKindName(k: SpanKind): string {
    match k
    case KindUnspecified => "Unspecified"
    case Internal => "Internal"
    case Server => "Server"
    case Client => "Client"
    case Producer => "Producer"
    case Consumer => "Consumer"
  }

  datatype Span = Span(
    attributes: seq<Attr>,
    startTimestamp: Timestamp,
    kind: SpanKind,
    statusMessage: string,
    name: string,
    traceId: string,
    spanId: string,
    parentSpanId: string,
    eventCount: nat)
}
