/**
  The ingest normaliser (`processLogs`, `processMetrics`, `processTraces`):
  walks a decoded payload resource by resource, scope by scope and leaf by
  leaf, and sends one `Signal` per log record, per Gauge/Sum/Histogram data
  point and per span. Sending on the channel is modelled as appending to the
  output sequence.
*/
module Sever {
  import opened Text
  import opened Props
  import opened Bucket
  import opened Pdata

  /** Renderings the model leaves to the libraries: a timestamp as
      `Timestamp.AsTime().String()` prints it, a double as `%v` prints it,
      and a data-point list as `%v` prints the container. */
  datatype Formatter = Formatter(
    timeText: Timestamp -> string,
    doubleText: real -> string,
    dump: PropsContainer -> string)

  // ---------------------------------------------------------------------------
  // Walking the payload
  // ---------------------------------------------------------------------------

  /** The Signals of each leaf, one leaf after another. */
  function FlatMap<A>(xs: seq<A>, f: A -> seq<Signal>): seq<Signal> {
    if |xs| == 0 then [] else FlatMap(xs[..|xs| - 1], f) + f(xs[|xs| - 1])
  }

  lemma {:induction false} FlatMapAppend<A>(xs: seq<A>, ys: seq<A>, f: A -> seq<Signal>)
    ensures FlatMap(xs + ys, f) == FlatMap(xs, f) + FlatMap(ys, f)
  {
    if |ys| > 0 {
      var init := ys[..|ys| - 1];
      assert (xs + ys)[..|xs + ys| - 1] == xs + init;
      FlatMapAppend(xs, init, f);
    } else {
      assert xs + ys == xs;
    }
  }

  /** When every leaf yields exactly one Signal, the output lines up with the
      leaves. */
  lemma {:induction false} FlatMapSingletons<A>(xs: seq<A>, f: A -> seq<Signal>)
    requires forall x :: |f(x)| == 1
    ensures |FlatMap(xs, f)| == |xs|
    ensures forall i :: 0 <= i < |xs| ==> FlatMap(xs, f)[i] == f(xs[i])[0]
  {
    if |xs| > 0 {
      FlatMapSingletons(xs[..|xs| - 1], f);
    }
  }

  /** The leaves of one scope. */
  function ScopeGroupLeaves<L>(res: Resource, sg: ScopeGroup<L>): (r: seq<Leaf<L>>)
    ensures |r| == |sg.items|
    ensures forall k :: 0 <= k < |r| ==> r[k] == Leaf(res, sg.scope, sg.items[k])
  {
    seq(|sg.items|, k requires 0 <= k < |sg.items| => Leaf(res, sg.scope, sg.items[k]))
  }

  lemma LeavesStep<L>(groups: seq<ResourceGroup<L>>, i: nat)
    requires i < |groups|
    ensures Leaves(groups[..i + 1]) == Leaves(groups[..i]) + ScopeLeaves(groups[i].resource, groups[i].scopes)
  {
    assert groups[..i + 1][..i] == groups[..i];
  }

  lemma ScopeLeavesStep<L>(res: Resource, scopes: seq<ScopeGroup<L>>, j: nat)
    requires j < |scopes|
    ensures ScopeLeaves(res, scopes[..j + 1]) == ScopeLeaves(res, scopes[..j]) + ScopeGroupLeaves(res, scopes[j])
  {
    assert scopes[..j + 1][..j] == scopes[..j];
  }

  /** The innermost loop of every `process*` function: `emit` stands for its
      body, run on each leaf of one scope. */
  method WalkItems<L>(res: Resource, sg: ScopeGroup<L>, emit: Leaf<L> -> seq<Signal>) returns (out: seq<Signal>)
    ensures out == FlatMap(ScopeGroupLeaves(res, sg), emit)
  {
    var leaves := ScopeGroupLeaves(res, sg);
    out := [];
    for k := 0 to |sg.items|
      invariant out == FlatMap(leaves[..k], emit)
    {
      assert leaves[..k + 1][..k] == leaves[..k];
      out := out + emit(Leaf(res, sg.scope, sg.items[k]));
    }
    assert leaves[..|sg.items|] == leaves;
  }

  /** The middle loop: the scopes of one resource. */
  method WalkScopes<L>(res: Resource, scopes: seq<ScopeGroup<L>>, emit: Leaf<L> -> seq<Signal>) returns (out: seq<Signal>)
    ensures out == FlatMap(ScopeLeaves(res, scopes), emit)
  {
    out := [];
    for j := 0 to |scopes|
      invariant out == FlatMap(ScopeLeaves(res, scopes[..j]), emit)
    {
      var part := WalkItems(res, scopes[j], emit);
      ScopeLeavesStep(res, scopes, j);
      FlatMapAppend(ScopeLeaves(res, scopes[..j]), ScopeGroupLeaves(res, scopes[j]), emit);
      out := out + part;
    }
    assert scopes[..|scopes|] == scopes;
  }

  /** The outer loop: every resource of the payload. */
  method Walk<L>(groups: seq<ResourceGroup<L>>, emit: Leaf<L> -> seq<Signal>) returns (out: seq<Signal>)
    ensures out == FlatMap(Leaves(groups), emit)
  {
    out := [];
    for i := 0 to |groups|
      invariant out == FlatMap(Leaves(groups[..i]), emit)
    {
      var part := WalkScopes(groups[i].resource, groups[i].scopes, emit);
      LeavesStep(groups, i);
      FlatMapAppend(Leaves(groups[..i]), ScopeLeaves(groups[i].resource, groups[i].scopes), emit);
      out := out + part;
    }
    assert groups[..|groups|] == groups;
  }

  // ---------------------------------------------------------------------------
  // Property lists shared by all three kinds
  // ---------------------------------------------------------------------------

  /** "Resource": the attributes under "Attributes.", then the dropped count. */
  function ResourceProps(r: Resource): (c: PropsContainer)
    ensures c.name == "Resource" && |c.props| == |r.attributes| + 1
    ensures forall i :: 0 <= i < |r.attributes| ==>
              c.props[i] == Pair(QualifiedKey("Attributes", r.attributes[i].key), AsString(r.attributes[i].value))
    ensures c.props[|r.attributes|] == Pair("DroppedAttributesCount", NatToDecimal(r.droppedAttributesCount))
  {
    AddUInt32(AddMap(NewProps("Resource"), r.attributes, "Attributes"), "DroppedAttributesCount", r.droppedAttributesCount)
  }

  /** "Scope": the scope name alone. */
  function ScopeProps(s: Scope): (c: PropsContainer)
    ensures c.name == "Scope" && c.props == [Pair("Name", s.name)]
  {
    AddString(NewProps("Scope"), "Name", s.name)
  }

  /** The labels of a Signal's property lists, most specific first. */
  function Labels(s: Signal): seq<string> {
    seq(|s.properties|, i requires 0 <= i < |s.properties| => s.properties[i].name)
  }

  lemma ThreeLists(s: Signal)
    requires |s.properties| == 3
    ensures Labels(s) == [s.properties[0].name, s.properties[1].name, s.properties[2].name]
    ensures s.properties[1..] == [s.properties[1], s.properties[2]]
  {
  }

  lemma FourLists(s: Signal)
    requires |s.properties| == 4
    ensures Labels(s) == [s.properties[0].name, s.properties[1].name, s.properties[2].name, s.properties[3].name]
  {
  }

  // ---------------------------------------------------------------------------
  // Logs
  // ---------------------------------------------------------------------------

  /** "Record": attributes, both timestamps, the ids, the sampled flag, the
      severity and the body. */
  function RecordProps(r: LogRecord, f: Formatter): (c: PropsContainer)
    ensures c.name == "Record" && |c.props| == |r.attributes| + 8
  {
    var c := AddMap(NewProps("Record"), r.attributes, "Attributes");
    var c := AddTimestamp(c, "Timestamp", r.timestamp, f.timeText);
    var c := AddTimestamp(c, "ObservedTimestamp", r.observedTimestamp, f.timeText);
    var c := AddString(c, "TraceId", r.traceId);
    var c := AddString(c, "SpanId", r.spanId);
    var c := AddBool(c, "Flags.IsSampled", r.isSampled);
    var c := AddString(c, "SeverityText", r.severityText);
    var c := AddString(c, "SeverityNumber", r.severityNumber);
    AddString(c, "Body", AsString(r.body))
  }

  /** The "Record" list: the attributes, then both timestamps ("N/A" for
      zero), the ids, the sampled flag, the severity and the body. */
  lemma RecordPropsLayout(r: LogRecord, f: Formatter)
    ensures RecordProps(r, f).props == AddMap(NewProps("Record"), r.attributes, "Attributes").props + [
      Pair("Timestamp", if r.timestamp > 0 then f.timeText(r.timestamp) else "N/A"),
      Pair("ObservedTimestamp", if r.observedTimestamp > 0 then f.timeText(r.observedTimestamp) else "N/A"),
      Pair("TraceId", r.traceId), Pair("SpanId", r.spanId),
      Pair("Flags.IsSampled", BoolText(r.isSampled)),
      Pair("SeverityText", r.severityText), Pair("SeverityNumber", r.severityNumber),
      Pair("Body", AsString(r.body))]
  {
    AppendEight(AddMap(NewProps("Record"), r.attributes, "Attributes").props,
      Pair("Timestamp", if r.timestamp > 0 then f.timeText(r.timestamp) else "N/A"),
      Pair("ObservedTimestamp", if r.observedTimestamp > 0 then f.timeText(r.observedTimestamp) else "N/A"),
      Pair("TraceId", r.traceId), Pair("SpanId", r.spanId),
      Pair("Flags.IsSampled", BoolText(r.isSampled)),
      Pair("SeverityText", r.severityText), Pair("SeverityNumber", r.severityNumber),
      Pair("Body", AsString(r.body)));
  }

  lemma AppendEight<T>(s: seq<T>, x1: T, x2: T, x3: T, x4: T, x5: T, x6: T, x7: T, x8: T)
    ensures s + [x1] + [x2] + [x3] + [x4] + [x5] + [x6] + [x7] + [x8] == s + [x1, x2, x3, x4, x5, x6, x7, x8]
  {
  }

  /** The Signal of one log record. */
  function LogSignal(leaf: Leaf<LogRecord>, f: Formatter): (s: Signal)
    ensures s.kind == Log && s.time == leaf.item.timestamp && s.description == ""
    ensures s.summary == leaf.item.severityText + ": " + AsString(leaf.item.body)
    ensures Labels(s) == ["Record", "Scope", "Resource"]
    ensures s.properties[1..] == [ScopeProps(leaf.scope), ResourceProps(leaf.resource)]
  {
    var r := leaf.item;
    var s := Signal(Log, r.timestamp, r.severityText + ": " + AsString(r.body), "",
                    [RecordProps(r, f), ScopeProps(leaf.scope), ResourceProps(leaf.resource)]);
    ThreeLists(s);
    s
  }

  /** `processLogs`: one Signal per log record, in payload order. */
  method ProcessLogs(groups: seq<ResourceGroup<LogRecord>>, f: Formatter) returns (out: seq<Signal>)
    ensures |out| == LeafCount(groups)
    ensures forall i :: 0 <= i < |out| ==> out[i] == LogSignal(Leaves(groups)[i], f)
  {
    var emit := (l: Leaf<LogRecord>) => [LogSignal(l, f)];
    out := Walk(groups, emit);
    FlatMapSingletons(Leaves(groups), emit);
  }

  // ---------------------------------------------------------------------------
  // Metrics
  // ---------------------------------------------------------------------------

  /** "Metric": type, name, unit and description. */
  function MetricProps(m: Metric): (c: PropsContainer)
    ensures c.name == "Metric"
    ensures c.props == [Pair("Type", MetricTypeName(m.data)), Pair("Name", m.name),
                        Pair("Unit", m.unit), Pair("Description", m.description)]
  {
    AddString(AddString(AddString(AddString(NewProps("Metric"), "Type", MetricTypeName(m.data)),
      "Name", m.name), "Unit", m.unit), "Description", m.description)
  }

  /** The value text of a number data point: the integer in decimal, the
      double as rendered, or "N/A" when neither is set. */
  function ValueText(v: NumberValue, f: Formatter): string {
    match v
    case NoValue => "N/A"
    case IntValue(i) => IntToDecimal(i)
    case DoubleValue(d) => f.doubleText(d)
  }

  /** An integer value's text reads back to the integer. */
  lemma ValueTextReadsBack(v: NumberValue, f: Formatter)
    requires v.IntValue?
    ensures IsIntText(ValueText(v, f)) && ParseInt(ValueText(v, f)) == v.i
  {
    IntRoundTrip(v.i);
  }

  /** Go's `uint32(n)` of a length. */
  function ToUInt32(n: nat): (r: UInt32)
    ensures n < 0x1_0000_0000 ==> r == n
  {
    n % 0x1_0000_0000
  }

  /** "DataPoint" of a Gauge point; Sum points are the same without the
      exemplar count. */
  function PointProps(p: NumberDataPoint, f: Formatter, withExemplars: bool): (c: PropsContainer)
    ensures c.name == "DataPoint"
    ensures |c.props| == (if withExemplars then 1 else 0) + |p.attributes| + 3
  {
    var c := AddBool(NewProps("DataPoint"), "Flags.NoRecordedValue", p.noRecordedValue);
    var c := if withExemplars then AddUInt32(c, "Exemplars", ToUInt32(p.exemplarCount)) else c;
    var c := AddMap(c, p.attributes, "Attributes");
    var c := AddString(c, "Value", ValueText(p.value, f));
    AddString(c, "ValueType", ValueTypeName(p.value))
  }

  /** The "DataPoint" list starts with the no-recorded-value flag, then (for
      a Gauge) the exemplar count, then the attributes, and ends with the
      value and its type. */
  lemma PointPropsLayout(p: NumberDataPoint, f: Formatter, withExemplars: bool)
    ensures PointProps(p, f, withExemplars).props ==
      [Pair("Flags.NoRecordedValue", BoolText(p.noRecordedValue))]
      + (if withExemplars then [Pair("Exemplars", NatToDecimal(ToUInt32(p.exemplarCount)))] else [])
      + AddMap(NewProps(""), p.attributes, "Attributes").props
      + [Pair("Value", ValueText(p.value, f)), Pair("ValueType", ValueTypeName(p.value))]
  {
    var c0 := AddBool(NewProps("DataPoint"), "Flags.NoRecordedValue", p.noRecordedValue);
    var c1 := if withExemplars then AddUInt32(c0, "Exemplars", ToUInt32(p.exemplarCount)) else c0;
    AddMapAppends(c1, p.attributes, "Attributes");
    var head := [Pair("Flags.NoRecordedValue", BoolText(p.noRecordedValue))]
      + (if withExemplars then [Pair("Exemplars", NatToDecimal(ToUInt32(p.exemplarCount)))] else []);
    assert c1.props == head;
    AppendTwo(head + AddMap(NewProps(""), p.attributes, "Attributes").props,
      Pair("Value", ValueText(p.value, f)), Pair("ValueType", ValueTypeName(p.value)));
  }

  lemma AppendTwo<T>(s: seq<T>, x1: T, x2: T)
    ensures s + [x1] + [x2] == s + [x1, x2]
  {
  }

  /** The Metric list of a Sum: the common four pairs, then temporality and
      monotonicity. */
  function SumMetricProps(m: Metric, t: Temporality, monotonic: bool): (c: PropsContainer)
    ensures c.name == "Metric"
    ensures c.props == MetricProps(m).props + [Pair("AggregationTemporality", TemporalityName(t)),
                                               Pair("IsMonotonic", BoolText(monotonic))]
  {
    AddBool(AddString(MetricProps(m), "AggregationTemporality", TemporalityName(t)), "IsMonotonic", monotonic)
  }

  /** One "Flags.NoRecordedValue" pair per histogram point, added in order. */
  function AddFlags(c: PropsContainer, points: seq<HistogramDataPoint>): (r: PropsContainer)
    ensures r.name == c.name && |r.props| == |c.props| + |points|
    ensures r.props[..|c.props|] == c.props
    ensures forall l :: 0 <= l < |points| ==>
              r.props[|c.props| + l] == Pair("Flags.NoRecordedValue", BoolText(points[l].noRecordedValue))
  {
    if |points| == 0 then c
    else
      var init := points[..|points| - 1];
      var prev := AddFlags(c, init);
      var r := AddBool(prev, "Flags.NoRecordedValue", points[|points| - 1].noRecordedValue);
      AddFlagsStep(c, points, init, prev, r);
      r
  }

  lemma AddFlagsStep(c: PropsContainer, points: seq<HistogramDataPoint>, init: seq<HistogramDataPoint>,
                     prev: PropsContainer, r: PropsContainer)
    requires |points| >= 1 && init == points[..|points| - 1]
    requires |prev.props| == |c.props| + |init|
    requires forall l :: 0 <= l < |init| ==>
               prev.props[|c.props| + l] == Pair("Flags.NoRecordedValue", BoolText(init[l].noRecordedValue))
    requires r.props == prev.props + [Pair("Flags.NoRecordedValue", BoolText(points[|points| - 1].noRecordedValue))]
    ensures forall l :: 0 <= l < |points| ==>
              r.props[|c.props| + l] == Pair("Flags.NoRecordedValue", BoolText(points[l].noRecordedValue))
  {
    forall l | 0 <= l < |points|
      ensures r.props[|c.props| + l] == Pair("Flags.NoRecordedValue", BoolText(points[l].noRecordedValue))
    {
      if l < |init| {
        assert init[l] == points[l];
      }
    }
  }

  /** The Metric list every Signal of a Histogram shows once the payload has
      been processed: the data points share one list, and each of them adds
      its flag to it. */
  function HistogramMetricProps(m: Metric, points: seq<HistogramDataPoint>): PropsContainer {
    AddFlags(MetricProps(m), points)
  }

  /** The number of Signals a metric yields. */
  function PointCount(d: MetricData): nat {
    match d
    case Gauge(points) => |points|
    case Sum(_, _, points) => |points|
    case Histogram(hpoints) => |hpoints|
    case _ => 0
  }

  /** The first bucket count and the first bound of every histogram point are
      read, so each must have one. */
  predicate HistogramReadable(m: Metric) {
    m.data.Histogram? ==>
      forall l :: 0 <= l < |m.data.hpoints| ==>
        m.data.hpoints[l].bucketCountsLen >= 1 && m.data.hpoints[l].explicitBoundsLen >= 1
  }

  /** The Signal of a Gauge point: `name=value`, the point's list (with the
      exemplar count) and the metric's list. */
  function GaugePoint(m: Metric, p: NumberDataPoint, f: Formatter, scope: PropsContainer, res: PropsContainer): (s: Signal)
    ensures s.kind == Kind.Metric && s.description == "" && |s.properties| >= 3
    ensures s.properties[|s.properties| - 2..] == [scope, res]
  {
    Signal(Kind.Metric, p.timestamp, m.name + "=" + ValueText(p.value, f), "",
           [PointProps(p, f, true), MetricProps(m), scope, res])
  }

  /** The Signal of a Sum point: `name=value [`, the point's list as printed,
      `]`; the metric's list also holds temporality and monotonicity. */
  function SumPoint(m: Metric, t: Temporality, mono: bool, p: NumberDataPoint, f: Formatter,
                    scope: PropsContainer, res: PropsContainer): (s: Signal)
    ensures s.kind == Kind.Metric && s.description == "" && |s.properties| >= 3
    ensures s.properties[|s.properties| - 2..] == [scope, res]
  {
    var dp := PointProps(p, f, false);
    Signal(Kind.Metric, p.timestamp, m.name + "=" + ValueText(p.value, f) + " [" + f.dump(dp) + "]", "",
           [dp, SumMetricProps(m, t, mono), scope, res])
  }

  /** The Signal of a Histogram point: `name=HISTOGRAM` and the list the
      points of the histogram share. */
  function HistogramPoint(m: Metric, hpoints: seq<HistogramDataPoint>, hp: HistogramDataPoint,
                          scope: PropsContainer, res: PropsContainer): (s: Signal)
    ensures s.kind == Kind.Metric && s.description == "" && |s.properties| >= 3
    ensures s.properties[|s.properties| - 2..] == [scope, res]
  {
    Signal(Kind.Metric, hp.timestamp, m.name + "=HISTOGRAM", "", [HistogramMetricProps(m, hpoints), scope, res])
  }

  /** The Signals of one metric, one per data point. */
  function MetricSignals(leaf: Leaf<Metric>, f: Formatter): (r: seq<Signal>)
    ensures |r| == PointCount(leaf.item.data)
    ensures forall l :: 0 <= l < |r| ==>
              r[l].kind == Kind.Metric && r[l].description == "" && |r[l].properties| >= 3 &&
              r[l].properties[|r[l].properties| - 2..] == [ScopeProps(leaf.scope), ResourceProps(leaf.resource)]
  {
    var m := leaf.item;
    var scope, res := ScopeProps(leaf.scope), ResourceProps(leaf.resource);
    match m.data
    case Gauge(points) =>
      seq(|points|, l requires 0 <= l < |points| => GaugePoint(m, points[l], f, scope, res))
    case Sum(t, mono, points) =>
      seq(|points|, l requires 0 <= l < |points| => SumPoint(m, t, mono, points[l], f, scope, res))
    case Histogram(hpoints) =>
      seq(|hpoints|, l requires 0 <= l < |hpoints| => HistogramPoint(m, hpoints, hpoints[l], scope, res))
    case _ => []
  }

  /** A Gauge point's Signal: `name=value`, with the point's list (which
      carries the exemplar count) first and the metric's list second. */
  lemma GaugeSignal(leaf: Leaf<Metric>, f: Formatter, l: int)
    requires leaf.item.data.Gauge? && 0 <= l < |leaf.item.data.points|
    ensures var s := MetricSignals(leaf, f)[l];
            var p := leaf.item.data.points[l];
            && s.time == p.timestamp
            && s.summary == leaf.item.name + "=" + ValueText(p.value, f)
            && Labels(s) == ["DataPoint", "Metric", "Scope", "Resource"]
            && s.properties[0].props[1] == Pair("Exemplars", NatToDecimal(ToUInt32(p.exemplarCount)))
            && s.properties[1] == MetricProps(leaf.item)
  {
    var scope, res := ScopeProps(leaf.scope), ResourceProps(leaf.resource);
    var p := leaf.item.data.points[l];
    assert MetricSignals(leaf, f)[l] == GaugePoint(leaf.item, p, f, scope, res);
    GaugePointFacts(leaf.item, p, f, scope, res);
  }

  lemma GaugePointFacts(m: Metric, p: NumberDataPoint, f: Formatter, scope: PropsContainer, res: PropsContainer)
    requires scope.name == "Scope" && res.name == "Resource"
    ensures var s := GaugePoint(m, p, f, scope, res);
            && Labels(s) == ["DataPoint", "Metric", "Scope", "Resource"]
            && s.properties[0].props[1] == Pair("Exemplars", NatToDecimal(ToUInt32(p.exemplarCount)))
  {
    var s := GaugePoint(m, p, f, scope, res);
    FourLists(s);
    PointPropsLayout(p, f, true);
  }

  /** A Sum point's Signal: `name=value [` then the point's list as printed,
      and a metric list that already holds temporality and monotonicity. */
  lemma SumSignal(leaf: Leaf<Metric>, f: Formatter, l: int)
    requires leaf.item.data.Sum? && 0 <= l < |leaf.item.data.points|
    ensures var s := MetricSignals(leaf, f)[l];
            var m := leaf.item;
            var p := m.data.points[l];
            && s.time == p.timestamp
            && s.summary == m.name + "=" + ValueText(p.value, f) + " [" + f.dump(s.properties[0]) + "]"
            && Labels(s) == ["DataPoint", "Metric", "Scope", "Resource"]
            && s.properties[0] == PointProps(p, f, false)
            && s.properties[1].props[|s.properties[1].props| - 2..] ==
                 [Pair("AggregationTemporality", TemporalityName(m.data.temporality)),
                  Pair("IsMonotonic", BoolText(m.data.isMonotonic))]
  {
    var m := leaf.item;
    var scope, res := ScopeProps(leaf.scope), ResourceProps(leaf.resource);
    var p := m.data.points[l];
    assert MetricSignals(leaf, f)[l] == SumPoint(m, m.data.temporality, m.data.isMonotonic, p, f, scope, res);
    SumPointFacts(m, m.data.temporality, m.data.isMonotonic, p, f, scope, res);
  }

  lemma SumPointFacts(m: Metric, t: Temporality, mono: bool, p: NumberDataPoint, f: Formatter,
                      scope: PropsContainer, res: PropsContainer)
    requires scope.name == "Scope" && res.name == "Resource"
    ensures var s := SumPoint(m, t, mono, p, f, scope, res);
            && Labels(s) == ["DataPoint", "Metric", "Scope", "Resource"]
            && s.properties[1].props[|s.properties[1].props| - 2..] ==
                 [Pair("AggregationTemporality", TemporalityName(t)), Pair("IsMonotonic", BoolText(mono))]
  {
    var s := SumPoint(m, t, mono, p, f, scope, res);
    FourLists(s);
    var mp := MetricProps(m).props;
    assert s.properties[1].props[|s.properties[1].props| - 2..] == s.properties[1].props[|mp|..];
  }

  /** A Histogram point's Signal: `name=HISTOGRAM` and the shared metric list,
      which ends with one flag per point of the histogram. */
  lemma HistogramSignal(leaf: Leaf<Metric>, f: Formatter, l: int)
    requires leaf.item.data.Histogram? && 0 <= l < |leaf.item.data.hpoints|
    ensures var s := MetricSignals(leaf, f)[l];
            var m := leaf.item;
            var hp := m.data.hpoints;
            && s.time == hp[l].timestamp
            && s.summary == m.name + "=HISTOGRAM"
            && Labels(s) == ["Metric", "Scope", "Resource"]
            && |s.properties[0].props| == 4 + |hp|
            && s.properties[0].props[..4] == MetricProps(m).props
            && forall q :: 0 <= q < |hp| ==>
                 s.properties[0].props[4 + q] == Pair("Flags.NoRecordedValue", BoolText(hp[q].noRecordedValue))
  {
    var m := leaf.item;
    var scope, res := ScopeProps(leaf.scope), ResourceProps(leaf.resource);
    var hp := m.data.hpoints;
    assert MetricSignals(leaf, f)[l] == HistogramPoint(m, hp, hp[l], scope, res);
    HistogramPointFacts(m, hp, hp[l], scope, res);
  }

  lemma HistogramPointFacts(m: Metric, hpoints: seq<HistogramDataPoint>, hp: HistogramDataPoint,
                            scope: PropsContainer, res: PropsContainer)
    requires scope.name == "Scope" && res.name == "Resource"
    ensures var s := HistogramPoint(m, hpoints, hp, scope, res);
            && Labels(s) == ["Metric", "Scope", "Resource"]
            && |s.properties[0].props| == 4 + |hpoints|
            && s.properties[0].props[..4] == MetricProps(m).props
            && forall q :: 0 <= q < |hpoints| ==>
                 s.properties[0].props[4 + q] == Pair("Flags.NoRecordedValue", BoolText(hpoints[q].noRecordedValue))
  {
    var s := HistogramPoint(m, hpoints, hp, scope, res);
    ThreeLists(s);
  }

  /** A Gauge `cpu` with one integer point of 42 reads `cpu=42`. */
  lemma GaugeCpu(res: Resource, sc: Scope, p: NumberDataPoint, f: Formatter)
    requires p.value == IntValue(42)
    ensures MetricSignals(Leaf(res, sc, Pdata.Metric.Metric("cpu", "", "", Gauge([p]))), f)[0].summary == "cpu=42"
  {
    FortyTwo(f);
    GaugeSignal(Leaf(res, sc, Pdata.Metric.Metric("cpu", "", "", Gauge([p]))), f, 0);
  }

  lemma FortyTwo(f: Formatter)
    ensures ValueText(IntValue(42), f) == "42"
  {
    assert NatToDecimal(42) == "42" by {
      assert DigitChar(4) == '4' && DigitChar(2) == '2';
      assert NatToDecimal(4) == "4";
      assert NatToDecimal(42) == NatToDecimal(4) + [DigitChar(2)];
    }
  }

  /** A Sum `cpu` with one double point whose value renders as `1.5` reads
      `cpu=1.5 [...]`. */
  lemma SumCpu(res: Resource, sc: Scope, p: NumberDataPoint, f: Formatter)
    requires p.value == DoubleValue(1.5) && f.doubleText(1.5) == "1.5"
    ensures MetricSignals(Leaf(res, sc, Pdata.Metric.Metric("cpu", "", "", Sum(Cumulative, true, [p]))), f)[0].summary[..7] == "cpu=1.5"
  {
    var leaf := Leaf(res, sc, Pdata.Metric.Metric("cpu", "", "", Sum(Cumulative, true, [p])));
    SumSignal(leaf, f, 0);
    var s := MetricSignals(leaf, f)[0];
    CpuPrefix(ValueText(p.value, f), f.dump(s.properties[0]));
  }

  lemma CpuPrefix(v: string, d: string)
    requires v == "1.5"
    ensures ("cpu" + "=" + v + " [" + d + "]")[..7] == "cpu=1.5"
  {
    assert ("cpu" + "=" + v + " [" + d + "]")[..7] == "cpu" + "=" + v;
  }

  /** Exponential histograms, summaries and empty metrics yield nothing. */
  lemma OtherMetricsSilent(leaf: Leaf<Metric>, f: Formatter)
    requires leaf.item.data.ExponentialHistogram? || leaf.item.data.Summary? || leaf.item.data.EmptyData?
    ensures MetricSignals(leaf, f) == []
  {
    assert PointCount(leaf.item.data) == 0;
  }

  /** The number of data points of all metrics of a payload. */
  function TotalPoints(leaves: seq<Leaf<Metric>>): nat {
    if |leaves| == 0 then 0 else TotalPoints(leaves[..|leaves| - 1]) + PointCount(leaves[|leaves| - 1].item.data)
  }

  /** One Signal per data point, over the whole payload. */
  lemma {:induction false} MetricSignalsCount(leaves: seq<Leaf<Metric>>, f: Formatter)
    ensures |FlatMap(leaves, (l: Leaf<Metric>) => MetricSignals(l, f))| == TotalPoints(leaves)
  {
    if |leaves| > 0 {
      MetricSignalsCount(leaves[..|leaves| - 1], f);
    }
  }

  /** `processMetrics`: the Signals of every metric, in payload order. */
  method ProcessMetrics(groups: seq<ResourceGroup<Metric>>, f: Formatter) returns (out: seq<Signal>)
    requires forall i :: 0 <= i < |Leaves(groups)| ==> HistogramReadable(Leaves(groups)[i].item)
    ensures out == FlatMap(Leaves(groups), (l: Leaf<Metric>) => MetricSignals(l, f))
    ensures |out| == TotalPoints(Leaves(groups))
  {
    out := Walk(groups, (l: Leaf<Metric>) => MetricSignals(l, f));
    MetricSignalsCount(Leaves(groups), f);
  }

  // ---------------------------------------------------------------------------
  // Traces
  // ---------------------------------------------------------------------------

  /** The summary of a span: kind, status message, name, the three ids and
      the event count, comma separated. */
  function SpanSummary(sp: Span): string {
    "[" + SpanKindName(sp.kind) + "], " + sp.statusMessage + ", " + sp.name + ", " + sp.traceId + ", "
      + sp.spanId + ", " + sp.parentSpanId + ", " + NatToDecimal(sp.eventCount)
  }

  /** The Signal of one span. */
  function SpanSignal(leaf: Leaf<Span>): (s: Signal)
    ensures s.kind == Trace && s.time == leaf.item.startTimestamp && s.description == ""
    ensures Labels(s) == ["Span", "Scope", "Resource"]
    ensures s.properties[0] == AddMap(NewProps("Span"), leaf.item.attributes, "Attributes")
    ensures s.properties[1..] == [ScopeProps(leaf.scope), ResourceProps(leaf.resource)]
  {
    var sp := leaf.item;
    var s := Signal(Trace, sp.startTimestamp, SpanSummary(sp), "",
                    [AddMap(NewProps("Span"), sp.attributes, "Attributes"), ScopeProps(leaf.scope), ResourceProps(leaf.resource)]);
    ThreeLists(s);
    s
  }

  /** `processTraces`: one Signal per span, in payload order. */
  method ProcessTraces(groups: seq<ResourceGroup<Span>>) returns (out: seq<Signal>)
    ensures |out| == LeafCount(groups)
    ensures forall i :: 0 <= i < |out| ==> out[i] == SpanSignal(Leaves(groups)[i])
  {
    var emit := (l: Leaf<Span>) => [SpanSignal(l)];
    out := Walk(groups, emit);
    FlatMapSingletons(Leaves(groups), emit);
  }

  /** The last field of a span's summary is its event count, and reads back. */
  lemma SpanSummaryEndsWithEvents(sp: Span)
    ensures var t := SpanSummary(sp);
            var d := NatToDecimal(sp.eventCount);
            && |t| >= |d| + 2
            && t[|t| - |d| - 2..|t| - |d|] == ", "
            && t[|t| - |d|..] == d
            && ParseDecimal(t[|t| - |d|..]) == sp.eventCount
  {
    var d := NatToDecimal(sp.eventCount);
    var head := "[" + SpanKindName(sp.kind) + "], " + sp.statusMessage + ", " + sp.name + ", " + sp.traceId + ", "
      + sp.spanId + ", " + sp.parentSpanId;
    assert SpanSummary(sp) == head + ", " + d;
    DecimalRoundTrip(sp.eventCount);
  }
}
