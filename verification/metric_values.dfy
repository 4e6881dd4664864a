/** The metrics domain: metric types, histogram data, metric points and rollup
    intervals. Floating-point values are modelled as reals; NaN and the
    infinities are not represented. */
module MetricValues {
  import opened Wrappers
  import opened Text

  /** Why a histogram is refused. */
  datatype HistogramProblem = CountsLengthMismatch | BoundsNotAscending | NegativeCount

  datatype MetricsError =
    | InvalidMetricName
    | InvalidMetricType(input: string)
    | InvalidMetricValue
    | InvalidTimestamp
    | InvalidHistogramData(problem: HistogramProblem)
    | ProjectNotFound
    | ProjectDeleted
    | NotOrgMember
    | NotAuthorized
    | InternalError

  // ---------------------------------------------------------------------------
  // metric types

  datatype MetricType = Counter | Gauge | Histogram

  function TypeName(t: MetricType): string {
    match t
    case Counter => "counter"
    case Gauge => "gauge"
    case Histogram => "histogram"
  }

  /** `MetricType::from_str`: the three names, in any case. */
  function TypeFromStr(s: string): (r: Result<MetricType, MetricsError>)
    ensures r.Ok? <==> ToLower(s) in {"counter", "gauge", "histogram"}
    ensures r.Ok? ==> TypeName(r.value) == ToLower(s)
    ensures r.Err? ==> r.error == InvalidMetricType(s)
  {
    match ToLower(s)
    case "counter" => Ok(Counter)
    case "gauge" => Ok(Gauge)
    case "histogram" => Ok(Histogram)
    case _ => Err(InvalidMetricType(s))
  }

  lemma TypeRoundTrip(t: MetricType)
    ensures TypeFromStr(TypeName(t)) == Ok(t)
  {
    match t
    case Counter => LowerOfLowerKeyword("counter");
    case Gauge => LowerOfLowerKeyword("gauge");
    case Histogram => LowerOfLowerKeyword("histogram");
  }

  /** The capitalised spelling of the unit test is accepted. */
  lemma CapitalisedTypeAccepted()
    ensures TypeFromStr("Counter") == Ok(Counter)
    ensures TypeFromStr("invalid").Err?
  {
    assert ToLower("Counter") == "counter";
    assert ToLower("invalid") == "invalid";
  }

  // ---------------------------------------------------------------------------
  // histograms

  datatype HistogramData = HistogramData(
    bucketBounds: seq<real>,
    bucketCounts: seq<int>,
    sum: real,
    count: int,
    min: real,
    max: real)

  predicate StrictlyAscending(bounds: seq<real>) {
    forall i :: 1 <= i < |bounds| ==> bounds[i - 1] < bounds[i]
  }

  /** Counts cover the bounds, with or without the trailing +Inf bucket. */
  predicate CountsFit(bounds: seq<real>, counts: seq<int>) {
    |counts| == |bounds| + 1 || |counts| == |bounds|
  }

  /** The ascending check of `HistogramData::new`, as its loop runs: compare
      each bound with the one before it and stop at the first that is not
      larger. */
  method CheckAscending(bounds: seq<real>) returns (ok: bool)
    ensures ok <==> StrictlyAscending(bounds)
  {
    var i := 1;
    while i < |bounds|
      invariant 1 <= i <= Max(1, |bounds|)
      invariant forall j :: 1 <= j < i ==> bounds[j - 1] < bounds[j]
    {
      if bounds[i] <= bounds[i - 1] {
        return false;
      }
      i := i + 1;
    }
    return true;
  }

  /** `HistogramData::new`: lengths, then order, then a non-negative count;
      sum, minimum, maximum and the bucket counts themselves are kept as given. */
  function NewHistogramData(bounds: seq<real>, counts: seq<int>, sum: real, count: int, min: real, max: real)
    : (r: Result<HistogramData, MetricsError>)
    ensures r.Ok? <==> CountsFit(bounds, counts) && StrictlyAscending(bounds) && count >= 0
    ensures !CountsFit(bounds, counts) ==> r == Err(InvalidHistogramData(CountsLengthMismatch))
    ensures CountsFit(bounds, counts) && !StrictlyAscending(bounds) ==> r == Err(InvalidHistogramData(BoundsNotAscending))
    ensures r.Err? ==> r.error.InvalidHistogramData?
    ensures r.Ok? ==> r.value == HistogramData(bounds, counts, sum, count, min, max)
  {
    if !CountsFit(bounds, counts) then Err(InvalidHistogramData(CountsLengthMismatch))
    else if !StrictlyAscending(bounds) then Err(InvalidHistogramData(BoundsNotAscending))
    else if count < 0 then Err(InvalidHistogramData(NegativeCount))
    else Ok(HistogramData(bounds, counts, sum, count, min, max))
  }

  /** The vectors of the unit tests: four counts over three ascending bounds are
      accepted, descending bounds are not; a count that disagrees with the
      buckets is not checked. */
  lemma HistogramVectors()
    ensures NewHistogramData([10.0, 50.0, 100.0], [5, 10, 3, 2], 1500.0, 20, 5.0, 150.0).Ok?
    ensures NewHistogramData([100.0, 50.0, 10.0], [5, 10, 3, 2], 1500.0, 20, 5.0, 150.0)
      == Err(InvalidHistogramData(BoundsNotAscending))
    ensures NewHistogramData([10.0], [1, 1], 0.0, 7, 0.0, 0.0).Ok?
  {
    var down: seq<real> := [100.0, 50.0, 10.0];
    assert down[0] >= down[1];
  }

  // ---------------------------------------------------------------------------
  // metric points

  datatype MetricPoint = MetricPoint(
    id: string,
    projectId: string,
    name: string,
    metricType: MetricType,
    value: real,
    timestamp: int,
    receivedAt: int,
    unit: Option<string>,
    description: Option<string>,
    tags: map<string, string>,
    histogramData: Option<HistogramData>,
    traceId: Option<string>,
    spanId: Option<string>)

  /** A point carries histogram data exactly when it is a histogram. */
  predicate WellShaped(m: MetricPoint) {
    m.histogramData.Some? <==> m.metricType == Histogram
  }

  /** `MetricPoint::new`: a counter or gauge point, received now. */
  function NewMetricPoint(id: string, projectId: string, name: string, metricType: MetricType, value: real, timestamp: int,
                          unit: Option<string>, description: Option<string>, tags: map<string, string>,
                          traceId: Option<string>, spanId: Option<string>, now: int): (m: MetricPoint)
    ensures m.histogramData.None? && m.receivedAt == now
    ensures metricType != Histogram ==> WellShaped(m)
    ensures m.id == id && m.projectId == projectId && m.name == name && m.metricType == metricType && m.value == value
    ensures m.timestamp == timestamp && m.unit == unit && m.description == description && m.tags == tags
    ensures m.traceId == traceId && m.spanId == spanId
  {
    MetricPoint(id, projectId, name, metricType, value, timestamp, now, unit, description, tags, None, traceId, spanId)
  }

  /** `MetricPoint::new_histogram`: always of type histogram, with its data. */
  function NewHistogramPoint(id: string, projectId: string, name: string, value: real, timestamp: int,
                             unit: Option<string>, description: Option<string>, tags: map<string, string>,
                             data: HistogramData, traceId: Option<string>, spanId: Option<string>, now: int): (m: MetricPoint)
    ensures m.metricType == Histogram && m.histogramData == Some(data) && WellShaped(m) && m.receivedAt == now
    ensures m.id == id && m.projectId == projectId && m.name == name && m.value == value
    ensures m.timestamp == timestamp && m.unit == unit && m.description == description && m.tags == tags
    ensures m.traceId == traceId && m.spanId == spanId
  {
    MetricPoint(id, projectId, name, Histogram, value, timestamp, now, unit, description, tags, Some(data), traceId, spanId)
  }

  // ---------------------------------------------------------------------------
  // rollup intervals

  datatype RollupInterval = Raw | OneMinute | OneHour | OneDay

  const DefaultRollup: RollupInterval := Raw

  function RollupName(r: RollupInterval): string {
    match r
    case Raw => "raw"
    case OneMinute => "1m"
    case OneHour => "1h"
    case OneDay => "1d"
  }

  /** The spellings each interval accepts, its name first. */
  function RollupSpellings(r: RollupInterval): seq<string> {
    match r
    case Raw => ["raw", "none"]
    case OneMinute => ["1m", "1min", "minute"]
    case OneHour => ["1h", "1hour", "hour"]
    case OneDay => ["1d", "1day", "day"]
  }

  /** `RollupInterval::from_str`: total, with anything unknown read as raw. */
  function RollupFromStr(s: string): (r: RollupInterval)
    ensures r != Raw ==> ToLower(s) in RollupSpellings(r)
    ensures forall o: RollupInterval :: ToLower(s) in RollupSpellings(o) ==> r == o
  {
    match ToLower(s)
    case "1m" => OneMinute
    case "1min" => OneMinute
    case "minute" => OneMinute
    case "1h" => OneHour
    case "1hour" => OneHour
    case "hour" => OneHour
    case "1d" => OneDay
    case "1day" => OneDay
    case "day" => OneDay
    case _ => Raw
  }

  /** Every spelling of an interval, in any case, reads back as it; in
      particular its name does. */
  lemma RollupRoundTrip(r: RollupInterval)
    ensures RollupSpellings(r)[0] == RollupName(r)
    ensures forall k :: 0 <= k < |RollupSpellings(r)| ==> RollupFromStr(RollupSpellings(r)[k]) == r
  {
    forall k | 0 <= k < |RollupSpellings(r)| ensures RollupFromStr(RollupSpellings(r)[k]) == r {
      LowerOfLowerKeyword(RollupSpellings(r)[k]);
    }
  }
}
