/** OTLP/JSON metrics to the metrics service's inputs: one input per data
    point of every gauge, sum, histogram and summary, across every resource,
    scope and metric, in order. Exponential histograms are not converted.
    The rendering of a non-string attribute as a tag is a parameter. */
module OtlpMetrics {
  import opened Wrappers
  import opened Text
  import opened Json
  import opened OtlpCommon
  import MetricValues
  import MetricsService

  datatype Exemplar = Exemplar(traceId: string, spanId: string)

  datatype NumberDataPoint = NumberDataPoint(
    attributes: seq<KeyValue>,
    timeUnixNano: string,
    asDouble: Option<real>,
    asInt: Option<string>,
    exemplars: seq<Exemplar>)

  datatype Gauge = Gauge(dataPoints: seq<NumberDataPoint>)

  datatype Sum = Sum(dataPoints: seq<NumberDataPoint>, aggregationTemporality: int, isMonotonic: bool)

  datatype HistogramDataPoint = HistogramDataPoint(
    attributes: seq<KeyValue>,
    timeUnixNano: string,
    count: string,
    sum: Option<real>,
    bucketCounts: seq<string>,
    explicitBounds: seq<real>,
    min: Option<real>,
    max: Option<real>)

  datatype Histogram = Histogram(dataPoints: seq<HistogramDataPoint>, aggregationTemporality: int)

  datatype ExponentialHistogramDataPoint = ExponentialHistogramDataPoint(
    attributes: seq<KeyValue>, timeUnixNano: string, count: string, sum: Option<real>)

  datatype ExponentialHistogram = ExponentialHistogram(dataPoints: seq<ExponentialHistogramDataPoint>)

  datatype ValueAtQuantile = ValueAtQuantile(quantile: real, value: real)

  datatype SummaryDataPoint = SummaryDataPoint(
    attributes: seq<KeyValue>,
    timeUnixNano: string,
    count: string,
    sum: real,
    quantileValues: seq<ValueAtQuantile>)

  datatype Summary = Summary(dataPoints: seq<SummaryDataPoint>)

  /** One of the five kinds of data is expected; all that are present are
      converted. */
  datatype Metric = Metric(
    name: string,
    description: string,
    unit: string,
    gauge: Option<Gauge>,
    sum: Option<Sum>,
    histogram: Option<Histogram>,
    exponentialHistogram: Option<ExponentialHistogram>,
    summary: Option<Summary>)

  datatype ScopeMetrics = ScopeMetrics(metrics: seq<Metric>)

  datatype ResourceMetrics = ResourceMetrics(resource: Option<Resource>, scopeMetrics: seq<ScopeMetrics>)

  datatype ExportMetricsServiceRequest = ExportMetricsServiceRequest(resourceMetrics: seq<ResourceMetrics>)

  // ---------------------------------------------------------------------------
  // values

  /** `NumberDataPoint::value`: the double if present, else the integer
      text read as a number (zero when it does not read), else zero. */
  function NumberValue(dp: NumberDataPoint): (v: real)
    ensures dp.asDouble.Some? ==> v == dp.asDouble.value
    ensures dp.asDouble.None? && dp.asInt.Some? && ParseI64(dp.asInt.value).Some? ==> v == ParseI64(dp.asInt.value).value as real
    ensures dp.asDouble.None? && (dp.asInt.None? || ParseI64(dp.asInt.value).None?) ==> v == 0.0
  {
    if dp.asDouble.Some? then dp.asDouble.value
    else if dp.asInt.Some? then
      match ParseI64(dp.asInt.value)
      case Some(n) => n as real
      case None => 0.0
    else 0.0
  }

  /** A count text as `i64`, zero when it does not read. */
  function CountOf(text: string): (n: int)
    ensures ParseI64(text).Some? ==> n == ParseI64(text).value
    ensures ParseI64(text).None? ==> n == 0
  {
    ParseI64(text).GetOr(0)
  }

  /** The bucket counts that read as `i64`; the others are dropped. */
  function ParsedCounts(texts: seq<string>): seq<int> {
    FilterMap(texts, ParseI64)
  }

  /** Counts are dropped only when they do not read, and when none is
      dropped they are the counts given, in place. */
  lemma ParsedCountsKeepAllIffAllParse(texts: seq<string>)
    ensures |ParsedCounts(texts)| == |texts| <==> forall i :: 0 <= i < |texts| ==> ParseI64(texts[i]).Some?
    ensures |ParsedCounts(texts)| == |texts| ==> forall i :: 0 <= i < |texts| ==> ParsedCounts(texts)[i] == ParseI64(texts[i]).value
  {
    FilterMapKeepsAllIffAllPresent(texts, ParseI64);
  }

  /** The trace and span ids of the first exemplar, an empty id being none. */
  function ExemplarIds(exemplars: seq<Exemplar>): (ids: (Option<string>, Option<string>))
    ensures |exemplars| == 0 ==> ids == (None, None)
    ensures |exemplars| > 0 ==> ids.0 == NonEmpty(exemplars[0].traceId) && ids.1 == NonEmpty(exemplars[0].spanId)
  {
    if |exemplars| == 0 then (None, None) else (NonEmpty(exemplars[0].traceId), NonEmpty(exemplars[0].spanId))
  }

  // ---------------------------------------------------------------------------
  // tags

  const ResourcePrefix: string := "resource."

  /** A tag's text: a string attribute as it is, any other value rendered
      as JSON unless its JSON is null, in which case there is no tag. */
  function TagValue(v: AnyValue, render: Json -> string): (t: Option<string>)
    ensures v.stringValue.Some? ==> t == v.stringValue
    ensures v.stringValue.None? ==> (t.None? <==> ToJsonValue(v).JNull?)
    ensures v.stringValue.None? && t.Some? ==> t.value == render(ToJsonValue(v))
  {
    if v.stringValue.Some? then v.stringValue
    else
      var j := ToJsonValue(v);
      if j.JNull? then None else Some(render(j))
  }

  /** The attribute at `i` makes a tag. */
  predicate Tagged(attrs: seq<KeyValue>, i: nat, render: Json -> string)
    requires i < |attrs|
  {
    TagValue(attrs[i].value, render).Some?
  }

  /** The attributes inserted one after the other, under `prefix + key`. */
  function InsertTags(tags: map<string, string>, prefix: string, attrs: seq<KeyValue>, render: Json -> string)
    : map<string, string>
    decreases |attrs|
  {
    if |attrs| == 0 then tags
    else
      var n := |attrs| - 1;
      var front := InsertTags(tags, prefix, attrs[..n], render);
      match TagValue(attrs[n].value, render)
      case None => front
      case Some(t) => front[prefix + attrs[n].key := t]
  }

  /** The keys after the insertions: those there before and those of the
      attributes that make a tag. */
  lemma {:induction false} InsertTagsKeys(tags: map<string, string>, prefix: string, attrs: seq<KeyValue>, render: Json -> string)
    ensures forall k :: k in InsertTags(tags, prefix, attrs, render) <==>
      k in tags || exists i :: 0 <= i < |attrs| && Tagged(attrs, i, render) && prefix + attrs[i].key == k
    decreases |attrs|
  {
    if |attrs| > 0 {
      var n := |attrs| - 1;
      InsertTagsKeys(tags, prefix, attrs[..n], render);
      assert forall i :: 0 <= i < n ==> attrs[..n][i] == attrs[i];
    }
  }

  /** Distinct keys stay distinct under a common prefix. */
  lemma PrefixInjective(prefix: string, a: string, b: string)
    ensures prefix + a == prefix + b ==> a == b
  {
    assert (prefix + a)[|prefix|..] == a;
    assert (prefix + b)[|prefix|..] == b;
  }

  /** A tag-making attribute with no later tag-making attribute of the same
      key sets that key to its tag. */
  lemma {:induction false} InsertTagsLastWins(tags: map<string, string>, prefix: string, attrs: seq<KeyValue>,
                                              render: Json -> string, i: nat)
    requires i < |attrs| && Tagged(attrs, i, render)
    requires forall j :: i < j < |attrs| && Tagged(attrs, j, render) ==> attrs[j].key != attrs[i].key
    ensures prefix + attrs[i].key in InsertTags(tags, prefix, attrs, render)
    ensures InsertTags(tags, prefix, attrs, render)[prefix + attrs[i].key] == TagValue(attrs[i].value, render).value
    decreases |attrs|
  {
    var n := |attrs| - 1;
    if i < n {
      assert forall j :: i < j < n ==> attrs[..n][j] == attrs[j];
      InsertTagsLastWins(tags, prefix, attrs[..n], render, i);
      PrefixInjective(prefix, attrs[n].key, attrs[i].key);
    }
  }

  /** A key no tag-making attribute sets keeps its earlier value. */
  lemma {:induction false} InsertTagsKeepsOthers(tags: map<string, string>, prefix: string, attrs: seq<KeyValue>,
                                                 render: Json -> string, k: string)
    requires k in tags
    requires forall i :: 0 <= i < |attrs| && Tagged(attrs, i, render) ==> prefix + attrs[i].key != k
    ensures k in InsertTags(tags, prefix, attrs, render) && InsertTags(tags, prefix, attrs, render)[k] == tags[k]
    decreases |attrs|
  {
    if |attrs| > 0 {
      var n := |attrs| - 1;
      assert forall i :: 0 <= i < n ==> attrs[..n][i] == attrs[i];
      InsertTagsKeepsOthers(tags, prefix, attrs[..n], render, k);
    }
  }

  /** `extract_tags`: the resource's attributes under `resource.` first,
      then the data point's own attributes under their bare keys, so an own
      attribute overwrites a resource tag with the same full key. */
  function ExtractTags(attrs: seq<KeyValue>, resource: Option<Resource>, render: Json -> string): map<string, string> {
    var resourceTags := if resource.Some? then InsertTags(map[], ResourcePrefix, resource.value.attributes, render) else map[];
    InsertTags(resourceTags, "", attrs, render)
  }

  /** The tags hold exactly the keys of the tag-making attributes: the
      point's own under their bare keys, the resource's prefixed. */
  lemma TagKeys(attrs: seq<KeyValue>, resource: Option<Resource>, render: Json -> string, k: string)
    ensures k in ExtractTags(attrs, resource, render) <==>
      || (exists i :: 0 <= i < |attrs| && Tagged(attrs, i, render) && "" + attrs[i].key == k)
      || (resource.Some? && exists i :: 0 <= i < |resource.value.attributes| && Tagged(resource.value.attributes, i, render)
                                         && ResourcePrefix + resource.value.attributes[i].key == k)
  {
    var resourceTags := if resource.Some? then InsertTags(map[], ResourcePrefix, resource.value.attributes, render) else map[];
    if resource.Some? {
      InsertTagsKeys(map[], ResourcePrefix, resource.value.attributes, render);
    }
    InsertTagsKeys(resourceTags, "", attrs, render);
  }

  /** A point's own attribute, last of its key among those that make tags,
      is the tag under its bare key, whatever the resource says. */
  lemma OwnAttributeWins(attrs: seq<KeyValue>, resource: Option<Resource>, render: Json -> string, i: nat)
    requires i < |attrs| && Tagged(attrs, i, render)
    requires forall j :: i < j < |attrs| && Tagged(attrs, j, render) ==> attrs[j].key != attrs[i].key
    ensures attrs[i].key in ExtractTags(attrs, resource, render)
    ensures ExtractTags(attrs, resource, render)[attrs[i].key] == TagValue(attrs[i].value, render).value
  {
    var resourceTags := if resource.Some? then InsertTags(map[], ResourcePrefix, resource.value.attributes, render) else map[];
    InsertTagsLastWins(resourceTags, "", attrs, render, i);
    assert "" + attrs[i].key == attrs[i].key;
  }

  /** A resource attribute, last of its key among the resource's tag-making
      attributes, is the tag under `resource.` + key unless one of the
      point's own attributes has that full key. */
  lemma ResourceAttributeTagged(attrs: seq<KeyValue>, resource: Resource, render: Json -> string, i: nat)
    requires i < |resource.attributes| && Tagged(resource.attributes, i, render)
    requires forall j :: i < j < |resource.attributes| && Tagged(resource.attributes, j, render)
                         ==> resource.attributes[j].key != resource.attributes[i].key
    requires forall j :: 0 <= j < |attrs| && Tagged(attrs, j, render) ==> attrs[j].key != ResourcePrefix + resource.attributes[i].key
    ensures ResourcePrefix + resource.attributes[i].key in ExtractTags(attrs, Some(resource), render)
    ensures ExtractTags(attrs, Some(resource), render)[ResourcePrefix + resource.attributes[i].key]
            == TagValue(resource.attributes[i].value, render).value
  {
    var resourceTags := InsertTags(map[], ResourcePrefix, resource.attributes, render);
    InsertTagsLastWins(map[], ResourcePrefix, resource.attributes, render, i);
    assert forall j :: 0 <= j < |attrs| ==> "" + attrs[j].key == attrs[j].key;
    InsertTagsKeepsOthers(resourceTags, "", attrs, render, ResourcePrefix + resource.attributes[i].key);
  }

  // ---------------------------------------------------------------------------
  // one data point

  /** A gauge point: type gauge, no histogram fields, no ids. */
  function GaugeInput(m: Metric, resource: Option<Resource>, dp: NumberDataPoint, render: Json -> string)
    : MetricsService.MetricInput
  {
    MetricsService.MetricInput(
      m.name, MetricValues.TypeName(MetricValues.Gauge), NumberValue(dp), ParseNanoTimestamp(dp.timeUnixNano),
      NonEmpty(m.unit), NonEmpty(m.description), ExtractTags(dp.attributes, resource, render),
      None, None, None, None, None, None, None, None)
  }

  /** The type of a sum: a counter when monotonic, a gauge otherwise. */
  function SumType(s: Sum): MetricValues.MetricType {
    if s.isMonotonic then MetricValues.Counter else MetricValues.Gauge
  }

  /** A sum point: the ids of its first exemplar, no histogram fields. */
  function SumInput(m: Metric, resource: Option<Resource>, s: Sum, dp: NumberDataPoint, render: Json -> string)
    : MetricsService.MetricInput
  {
    var ids := ExemplarIds(dp.exemplars);
    MetricsService.MetricInput(
      m.name, MetricValues.TypeName(SumType(s)), NumberValue(dp), ParseNanoTimestamp(dp.timeUnixNano),
      NonEmpty(m.unit), NonEmpty(m.description), ExtractTags(dp.attributes, resource, render),
      None, None, None, None, None, None, ids.0, ids.1)
  }

  /** A histogram point: the value is the sum or zero; the bounds as given,
      the counts that read, the count or zero. */
  function HistogramInput(m: Metric, resource: Option<Resource>, dp: HistogramDataPoint, render: Json -> string)
    : MetricsService.MetricInput
  {
    MetricsService.MetricInput(
      m.name, MetricValues.TypeName(MetricValues.Histogram), dp.sum.GetOr(0.0), ParseNanoTimestamp(dp.timeUnixNano),
      NonEmpty(m.unit), NonEmpty(m.description), ExtractTags(dp.attributes, resource, render),
      Some(dp.explicitBounds), Some(ParsedCounts(dp.bucketCounts)), dp.sum, Some(CountOf(dp.count)), dp.min, dp.max,
      None, None)
  }

  /** The quantiles of a summary point, in order. */
  function Quantiles(qs: seq<ValueAtQuantile>): (bounds: seq<real>)
    ensures |bounds| == |qs| && forall i :: 0 <= i < |qs| ==> bounds[i] == qs[i].quantile
  {
    seq(|qs|, i requires 0 <= i < |qs| => qs[i].quantile)
  }

  function Zeros(n: nat): (zs: seq<int>)
    ensures |zs| == n && forall i :: 0 <= i < n ==> zs[i] == 0
  {
    seq(n, i => 0)
  }

  /** A summary point as a histogram: the quantiles stand for the bounds,
      every count is zero, the value and the histogram sum are the sum. */
  function SummaryInput(m: Metric, resource: Option<Resource>, dp: SummaryDataPoint, render: Json -> string)
    : MetricsService.MetricInput
  {
    MetricsService.MetricInput(
      m.name, MetricValues.TypeName(MetricValues.Histogram), dp.sum, ParseNanoTimestamp(dp.timeUnixNano),
      NonEmpty(m.unit), NonEmpty(m.description), ExtractTags(dp.attributes, resource, render),
      Some(Quantiles(dp.quantileValues)), Some(Zeros(|dp.quantileValues|)), Some(dp.sum), Some(CountOf(dp.count)),
      None, None, None, None)
  }

  // ---------------------------------------------------------------------------
  // one metric

  function GaugeInputs(m: Metric, resource: Option<Resource>, render: Json -> string): (xs: seq<MetricsService.MetricInput>)
    ensures |xs| == GaugePoints(m)
    ensures forall i :: 0 <= i < |xs| ==> xs[i] == GaugeInput(m, resource, m.gauge.value.dataPoints[i], render)
  {
    if m.gauge.None? then []
    else
      var dps := m.gauge.value.dataPoints;
      seq(|dps|, i requires 0 <= i < |dps| => GaugeInput(m, resource, dps[i], render))
  }

  function SumInputs(m: Metric, resource: Option<Resource>, render: Json -> string): (xs: seq<MetricsService.MetricInput>)
    ensures |xs| == SumPoints(m)
    ensures forall i :: 0 <= i < |xs| ==> xs[i] == SumInput(m, resource, m.sum.value, m.sum.value.dataPoints[i], render)
  {
    if m.sum.None? then []
    else
      var dps := m.sum.value.dataPoints;
      seq(|dps|, i requires 0 <= i < |dps| => SumInput(m, resource, m.sum.value, dps[i], render))
  }

  function HistogramInputs(m: Metric, resource: Option<Resource>, render: Json -> string): (xs: seq<MetricsService.MetricInput>)
    ensures |xs| == HistogramPoints(m)
    ensures forall i :: 0 <= i < |xs| ==> xs[i] == HistogramInput(m, resource, m.histogram.value.dataPoints[i], render)
  {
    if m.histogram.None? then []
    else
      var dps := m.histogram.value.dataPoints;
      seq(|dps|, i requires 0 <= i < |dps| => HistogramInput(m, resource, dps[i], render))
  }

  function SummaryInputs(m: Metric, resource: Option<Resource>, render: Json -> string): (xs: seq<MetricsService.MetricInput>)
    ensures |xs| == SummaryPoints(m)
    ensures forall i :: 0 <= i < |xs| ==> xs[i] == SummaryInput(m, resource, m.summary.value.dataPoints[i], render)
  {
    if m.summary.None? then []
    else
      var dps := m.summary.value.dataPoints;
      seq(|dps|, i requires 0 <= i < |dps| => SummaryInput(m, resource, dps[i], render))
  }

  /** `convert_metric`: the gauge's points, then the sum's, the histogram's
      and the summary's; an exponential histogram adds nothing. */
  function ConvertOtlpMetric(m: Metric, resource: Option<Resource>, render: Json -> string): (r: seq<MetricsService.MetricInput>)
    ensures |r| == GaugePoints(m) + SumPoints(m) + HistogramPoints(m) + SummaryPoints(m)
  {
    GaugeInputs(m, resource, render) + SumInputs(m, resource, render)
    + HistogramInputs(m, resource, render) + SummaryInputs(m, resource, render)
  }

  /** The number of points of each kind, zero when the kind is absent. */
  function GaugePoints(m: Metric): nat { if m.gauge.None? then 0 else |m.gauge.value.dataPoints| }
  function SumPoints(m: Metric): nat { if m.sum.None? then 0 else |m.sum.value.dataPoints| }
  function HistogramPoints(m: Metric): nat { if m.histogram.None? then 0 else |m.histogram.value.dataPoints| }
  function SummaryPoints(m: Metric): nat { if m.summary.None? then 0 else |m.summary.value.dataPoints| }

  /** One input per data point of the four converted kinds, in that order:
      the gauge's `i`-th point at `i`, the sum's after all gauge points, and
      so on. Exponential histogram points are never counted. */
  lemma ConvertedMetricLayout(m: Metric, resource: Option<Resource>, render: Json -> string)
    ensures |ConvertOtlpMetric(m, resource, render)| == GaugePoints(m) + SumPoints(m) + HistogramPoints(m) + SummaryPoints(m)
    ensures forall i :: 0 <= i < GaugePoints(m) ==>
      ConvertOtlpMetric(m, resource, render)[i] == GaugeInput(m, resource, m.gauge.value.dataPoints[i], render)
  {
    var g := GaugeInputs(m, resource, render);
    var s := SumInputs(m, resource, render);
    var h := HistogramInputs(m, resource, render);
    var z := SummaryInputs(m, resource, render);
    ConcatFourAt(g, s, h, z, 0);
    forall i | 0 <= i < GaugePoints(m)
      ensures ConvertOtlpMetric(m, resource, render)[i] == GaugeInput(m, resource, m.gauge.value.dataPoints[i], render)
    {
      ConcatFourAt(g, s, h, z, i);
    }
  }

  /** The sum's `i`-th point follows all the gauge's points. */
  lemma SumPointsFollowGauge(m: Metric, resource: Option<Resource>, render: Json -> string, i: nat)
    requires i < SumPoints(m)
    ensures GaugePoints(m) + i < |ConvertOtlpMetric(m, resource, render)|
    ensures ConvertOtlpMetric(m, resource, render)[GaugePoints(m) + i]
            == SumInput(m, resource, m.sum.value, m.sum.value.dataPoints[i], render)
  {
    var g := GaugeInputs(m, resource, render);
    var s := SumInputs(m, resource, render);
    ConcatFourAt(g, s, HistogramInputs(m, resource, render), SummaryInputs(m, resource, render), i);
    assert |g| == GaugePoints(m);
    assert s[i] == SumInput(m, resource, m.sum.value, m.sum.value.dataPoints[i], render);
  }

  /** The histogram's `i`-th point follows all gauge and sum points. */
  lemma HistogramPointsFollowSum(m: Metric, resource: Option<Resource>, render: Json -> string, i: nat)
    requires i < HistogramPoints(m)
    ensures GaugePoints(m) + SumPoints(m) + i < |ConvertOtlpMetric(m, resource, render)|
    ensures ConvertOtlpMetric(m, resource, render)[GaugePoints(m) + SumPoints(m) + i]
            == HistogramInput(m, resource, m.histogram.value.dataPoints[i], render)
  {
    var g := GaugeInputs(m, resource, render);
    var s := SumInputs(m, resource, render);
    var h := HistogramInputs(m, resource, render);
    ConcatFourAt(g, s, h, SummaryInputs(m, resource, render), i);
    assert |g| == GaugePoints(m) && |s| == SumPoints(m);
    assert h[i] == HistogramInput(m, resource, m.histogram.value.dataPoints[i], render);
  }

  /** The summary's `i`-th point comes last, after all the others. */
  lemma SummaryPointsComeLast(m: Metric, resource: Option<Resource>, render: Json -> string, i: nat)
    requires i < SummaryPoints(m)
    ensures GaugePoints(m) + SumPoints(m) + HistogramPoints(m) + i < |ConvertOtlpMetric(m, resource, render)|
    ensures ConvertOtlpMetric(m, resource, render)[GaugePoints(m) + SumPoints(m) + HistogramPoints(m) + i]
            == SummaryInput(m, resource, m.summary.value.dataPoints[i], render)
  {
    var g := GaugeInputs(m, resource, render);
    var s := SumInputs(m, resource, render);
    var h := HistogramInputs(m, resource, render);
    var z := SummaryInputs(m, resource, render);
    ConcatFourAt(g, s, h, z, i);
    assert |g| == GaugePoints(m) && |s| == SumPoints(m) && |h| == HistogramPoints(m);
    assert z[i] == SummaryInput(m, resource, m.summary.value.dataPoints[i], render);
  }

  /** A metric that only carries an exponential histogram yields nothing. */
  lemma ExponentialHistogramIsDropped(m: Metric, resource: Option<Resource>, render: Json -> string)
    requires m.gauge.None? && m.sum.None? && m.histogram.None? && m.summary.None?
    ensures ConvertOtlpMetric(m, resource, render) == []
  {
  }

  // ---------------------------------------------------------------------------
  // what ingestion makes of the inputs

  /** Gauge and sum points are always accepted by ingestion, with their
      value, their kind's type, and, for a sum, the first exemplar's ids. */
  lemma NumberPointsAccepted(m: Metric, resource: Option<Resource>, dp: NumberDataPoint, s: Sum, render: Json -> string,
                             projectId: string, id: string, now: int)
    ensures var r := MetricsService.ConvertMetric(projectId, GaugeInput(m, resource, dp, render), id, now);
      r.Ok? && r.value.metricType == MetricValues.Gauge && r.value.value == NumberValue(dp) && r.value.histogramData.None?
    ensures var r := MetricsService.ConvertMetric(projectId, SumInput(m, resource, s, dp, render), id, now);
      && r.Ok? && r.value.metricType == (if s.isMonotonic then MetricValues.Counter else MetricValues.Gauge)
      && r.value.value == NumberValue(dp) && r.value.histogramData.None?
      && r.value.traceId == ExemplarIds(dp.exemplars).0 && r.value.spanId == ExemplarIds(dp.exemplars).1
  {
    MetricValues.TypeRoundTrip(MetricValues.Gauge);
    MetricValues.TypeRoundTrip(SumType(s));
  }

  /** A histogram point is accepted exactly when the counts that read fit
      the bounds, the bounds ascend strictly and the count is not negative. */
  lemma HistogramPointAcceptedIff(m: Metric, resource: Option<Resource>, dp: HistogramDataPoint, render: Json -> string,
                                  projectId: string, id: string, now: int)
    ensures var r := MetricsService.ConvertMetric(projectId, HistogramInput(m, resource, dp, render), id, now);
      r.Ok? <==> MetricValues.CountsFit(dp.explicitBounds, ParsedCounts(dp.bucketCounts))
                 && MetricValues.StrictlyAscending(dp.explicitBounds) && CountOf(dp.count) >= 0
    ensures var r := MetricsService.ConvertMetric(projectId, HistogramInput(m, resource, dp, render), id, now);
      r.Ok? ==> r.value.metricType == MetricValues.Histogram && r.value.value == dp.sum.GetOr(0.0)
  {
    MetricValues.TypeRoundTrip(MetricValues.Histogram);
  }

  /** A well-formed OTLP histogram point (every count reads, one more count
      than bounds, bounds ascending, a non-negative count) is accepted with
      its counts as given. */
  lemma WellFormedHistogramAccepted(m: Metric, resource: Option<Resource>, dp: HistogramDataPoint, render: Json -> string,
                                    projectId: string, id: string, now: int)
    requires forall i :: 0 <= i < |dp.bucketCounts| ==> ParseI64(dp.bucketCounts[i]).Some?
    requires |dp.bucketCounts| == |dp.explicitBounds| + 1
    requires MetricValues.StrictlyAscending(dp.explicitBounds) && CountOf(dp.count) >= 0
    ensures var r := MetricsService.ConvertMetric(projectId, HistogramInput(m, resource, dp, render), id, now);
      && r.Ok? && r.value.histogramData.Some?
      && |r.value.histogramData.value.bucketCounts| == |dp.bucketCounts|
      && forall i :: 0 <= i < |dp.bucketCounts| ==> r.value.histogramData.value.bucketCounts[i] == ParseI64(dp.bucketCounts[i]).value
  {
    ParsedCountsKeepAllIffAllParse(dp.bucketCounts);
    HistogramPointAcceptedIff(m, resource, dp, render, projectId, id, now);
  }

  /** A summary point is accepted exactly when its quantiles ascend strictly
      and its count is not negative; the counts are all zero, one per
      quantile. */
  lemma SummaryPointAcceptedIff(m: Metric, resource: Option<Resource>, dp: SummaryDataPoint, render: Json -> string,
                                projectId: string, id: string, now: int)
    ensures var r := MetricsService.ConvertMetric(projectId, SummaryInput(m, resource, dp, render), id, now);
      r.Ok? <==> MetricValues.StrictlyAscending(Quantiles(dp.quantileValues)) && CountOf(dp.count) >= 0
    ensures var r := MetricsService.ConvertMetric(projectId, SummaryInput(m, resource, dp, render), id, now);
      r.Ok? ==> && r.value.metricType == MetricValues.Histogram && r.value.histogramData.Some?
                && r.value.histogramData.value.bucketCounts == Zeros(|dp.quantileValues|)
                && r.value.histogramData.value.sum == dp.sum
  {
    MetricValues.TypeRoundTrip(MetricValues.Histogram);
  }

  // ---------------------------------------------------------------------------
  // the request

  function ScopeInputLists(resource: Option<Resource>, scope: ScopeMetrics, render: Json -> string)
    : (xss: seq<seq<MetricsService.MetricInput>>)
    ensures |xss| == |scope.metrics|
    ensures forall c :: 0 <= c < |xss| ==> xss[c] == ConvertOtlpMetric(scope.metrics[c], resource, render)
  {
    seq(|scope.metrics|, c requires 0 <= c < |scope.metrics| => ConvertOtlpMetric(scope.metrics[c], resource, render))
  }

  function ResourceInputLists(rm: ResourceMetrics, render: Json -> string): (xss: seq<seq<MetricsService.MetricInput>>)
    ensures |xss| == |rm.scopeMetrics|
    ensures forall b :: 0 <= b < |xss| ==> xss[b] == Flatten(ScopeInputLists(rm.resource, rm.scopeMetrics[b], render))
  {
    seq(|rm.scopeMetrics|, b requires 0 <= b < |rm.scopeMetrics| => Flatten(ScopeInputLists(rm.resource, rm.scopeMetrics[b], render)))
  }

  function RequestInputLists(req: ExportMetricsServiceRequest, render: Json -> string): (xss: seq<seq<MetricsService.MetricInput>>)
    ensures |xss| == |req.resourceMetrics|
    ensures forall a :: 0 <= a < |xss| ==> xss[a] == Flatten(ResourceInputLists(req.resourceMetrics[a], render))
  {
    seq(|req.resourceMetrics|, a requires 0 <= a < |req.resourceMetrics| => Flatten(ResourceInputLists(req.resourceMetrics[a], render)))
  }

  /** The input is one of those converted from some metric of the scope. */
  predicate FromScopeMetric(resource: Option<Resource>, scope: ScopeMetrics, render: Json -> string, x: MetricsService.MetricInput) {
    exists c :: 0 <= c < |scope.metrics| && x in ConvertOtlpMetric(scope.metrics[c], resource, render)
  }

  /** The input is one of those converted from some metric of the resource. */
  predicate FromResourceMetric(rm: ResourceMetrics, render: Json -> string, x: MetricsService.MetricInput) {
    exists b :: 0 <= b < |rm.scopeMetrics| && FromScopeMetric(rm.resource, rm.scopeMetrics[b], render, x)
  }

  /** The input is one of those converted from some metric of the request. */
  predicate FromSomeMetric(req: ExportMetricsServiceRequest, render: Json -> string, x: MetricsService.MetricInput) {
    exists a :: 0 <= a < |req.resourceMetrics| && FromResourceMetric(req.resourceMetrics[a], render, x)
  }

  lemma ResourceInputMembers(rm: ResourceMetrics, render: Json -> string)
    ensures forall x :: x in Flatten(ResourceInputLists(rm, render)) <==> FromResourceMetric(rm, render, x)
  {
    var middle := ResourceInputLists(rm, render);
    FlattenMembers(middle);
    forall b | 0 <= b < |middle|
      ensures forall x :: x in middle[b] <==> FromScopeMetric(rm.resource, rm.scopeMetrics[b], render, x)
    {
      FlattenMembers(ScopeInputLists(rm.resource, rm.scopeMetrics[b], render));
    }
  }

  lemma RequestInputMembers(req: ExportMetricsServiceRequest, render: Json -> string)
    ensures forall x :: x in Flatten(RequestInputLists(req, render)) <==> FromSomeMetric(req, render, x)
  {
    var outer := RequestInputLists(req, render);
    FlattenMembers(outer);
    forall a | 0 <= a < |outer|
      ensures forall x :: x in outer[a] <==> FromResourceMetric(req.resourceMetrics[a], render, x)
    {
      ResourceInputMembers(req.resourceMetrics[a], render);
    }
  }

  /** `convert_otlp_metrics`: every input comes from a metric of the request,
      and every input converted from any metric of it is there. */
  function ConvertOtlpMetrics(req: ExportMetricsServiceRequest, render: Json -> string): (r: seq<MetricsService.MetricInput>)
    ensures forall x :: x in r <==> FromSomeMetric(req, render, x)
  {
    RequestInputMembers(req, render);
    Flatten(RequestInputLists(req, render))
  }

  /** Every input of metric `c` of scope `b` of resource `a` appears, in
      order, after everything the earlier resources, scopes and metrics
      produced, and carries its own resource's tags. */
  lemma OneInputPerPointInOrder(req: ExportMetricsServiceRequest, render: Json -> string, a: nat, b: nat, c: nat, i: nat)
    requires a < |req.resourceMetrics| && b < |req.resourceMetrics[a].scopeMetrics|
    requires c < |req.resourceMetrics[a].scopeMetrics[b].metrics|
    requires var rm := req.resourceMetrics[a];
      i < |ConvertOtlpMetric(rm.scopeMetrics[b].metrics[c], rm.resource, render)|
    ensures var rm := req.resourceMetrics[a];
      var outer := RequestInputLists(req, render);
      var middle := ResourceInputLists(rm, render);
      var inner := ScopeInputLists(rm.resource, rm.scopeMetrics[b], render);
      var pos := Offset(outer, a) + Offset(middle, b) + Offset(inner, c) + i;
      && pos < |ConvertOtlpMetrics(req, render)|
      && ConvertOtlpMetrics(req, render)[pos] == ConvertOtlpMetric(rm.scopeMetrics[b].metrics[c], rm.resource, render)[i]
  {
    var rm := req.resourceMetrics[a];
    var outer := RequestInputLists(req, render);
    var middle := ResourceInputLists(rm, render);
    var inner := ScopeInputLists(rm.resource, rm.scopeMetrics[b], render);
    TripleFlattenIndex(outer, middle, inner, a, b, c, i);
  }
}
