/** The metrics service: batch ingestion under an API key, and queries by a
    member of the project's organisation. */
module MetricsService {
  import opened Wrappers
  import opened Text
  import opened MetricValues
  import MetricsStore
  import OrgService
  import ProjectDomain
  import ProjectService

  /** `verify_project_access`: a missing and a deleted project are both
      `ProjectNotFound`; a non-member is `NotAuthorized`. */
  function VerifyMetricsAccess(s: ProjectService.ProjectStore, projectId: string, userId: string): (r: Result<(), MetricsError>)
    ensures r.Ok? <==> ProjectService.IsLiveProject(s, projectId)
                       && OrgService.IsMember(s.orgs, s.projects[projectId].organizationId, userId)
    ensures !ProjectService.IsLiveProject(s, projectId) ==> r == Err(ProjectNotFound)
    ensures r.Err? ==> r.error in {ProjectNotFound, NotAuthorized}
  {
    if projectId !in s.projects then Err(ProjectNotFound)
    else if ProjectDomain.IsProjectDeleted(s.projects[projectId]) then Err(ProjectNotFound)
    else if !OrgService.IsMember(s.orgs, s.projects[projectId].organizationId, userId) then Err(NotAuthorized)
    else Ok(())
  }

  // ---------------------------------------------------------------------------
  // ingestion

  datatype MetricInput = MetricInput(
    name: string,
    metricType: string,
    value: real,
    timestamp: Option<int>,
    unit: Option<string>,
    description: Option<string>,
    tags: map<string, string>,
    bucketBounds: Option<seq<real>>,
    bucketCounts: Option<seq<int>>,
    histogramSum: Option<real>,
    histogramCount: Option<int>,
    histogramMin: Option<real>,
    histogramMax: Option<real>,
    traceId: Option<string>,
    spanId: Option<string>)

  /** The histogram an input describes, with every missing field defaulted:
      no bounds, no counts, and zero for sum, count, minimum and maximum. */
  function InputHistogram(input: MetricInput): (r: Result<HistogramData, MetricsError>)
    ensures r == NewHistogramData(input.bucketBounds.GetOr([]), input.bucketCounts.GetOr([]), input.histogramSum.GetOr(0.0),
                                  input.histogramCount.GetOr(0), input.histogramMin.GetOr(0.0), input.histogramMax.GetOr(0.0))
  {
    NewHistogramData(input.bucketBounds.GetOr([]), input.bucketCounts.GetOr([]), input.histogramSum.GetOr(0.0),
                     input.histogramCount.GetOr(0), input.histogramMin.GetOr(0.0), input.histogramMax.GetOr(0.0))
  }

  /** One input of `ingest`: the type must parse; a histogram must carry valid
      data; a missing timestamp is now. */
  function ConvertMetric(projectId: string, input: MetricInput, id: string, now: int): (r: Result<MetricPoint, MetricsError>)
    ensures TypeFromStr(input.metricType).Err? ==> r == Err(InvalidMetricType(input.metricType))
    ensures r.Ok? <==> TypeFromStr(input.metricType).Ok?
                       && (TypeFromStr(input.metricType).value == Histogram ==> InputHistogram(input).Ok?)
    ensures r.Ok? ==>
      && WellShaped(r.value)
      && r.value.metricType == TypeFromStr(input.metricType).value
      && r.value.timestamp == input.timestamp.GetOr(now) && r.value.receivedAt == now
      && r.value.id == id && r.value.projectId == projectId && r.value.name == input.name && r.value.value == input.value
      && r.value.tags == input.tags && r.value.unit == input.unit && r.value.description == input.description
      && r.value.traceId == input.traceId && r.value.spanId == input.spanId
      && (r.value.metricType == Histogram ==> r.value.histogramData == Some(InputHistogram(input).value))
  {
    match TypeFromStr(input.metricType)
    case Err(e) => Err(e)
    case Ok(t) =>
      var timestamp := input.timestamp.GetOr(now);
      if t == Histogram then
        match InputHistogram(input)
        case Err(e) => Err(e)
        case Ok(h) =>
          Ok(NewHistogramPoint(id, projectId, input.name, input.value, timestamp, input.unit, input.description, input.tags,
                               h, input.traceId, input.spanId, now))
      else
        Ok(NewMetricPoint(id, projectId, input.name, t, input.value, timestamp, input.unit, input.description, input.tags,
                          input.traceId, input.spanId, now))
  }

  /** A counter or gauge does not look at the histogram fields. */
  lemma NonHistogramIgnoresHistogramFields(projectId: string, input: MetricInput, other: MetricInput, id: string, now: int)
    requires TypeFromStr(input.metricType).Ok? && TypeFromStr(input.metricType).value != Histogram
    requires other == input.(bucketBounds := other.bucketBounds, bucketCounts := other.bucketCounts,
                             histogramSum := other.histogramSum, histogramCount := other.histogramCount,
                             histogramMin := other.histogramMin, histogramMax := other.histogramMax)
    ensures ConvertMetric(projectId, other, id, now) == ConvertMetric(projectId, input, id, now)
    ensures ConvertMetric(projectId, input, id, now).value.histogramData.None?
  {
  }

  datatype Indexed = Indexed(index: nat, input: MetricInput)

  function Numbered(inputs: seq<MetricInput>): (xs: seq<Indexed>)
    ensures |xs| == |inputs| && forall k :: 0 <= k < |xs| ==> xs[k] == Indexed(k, inputs[k])
  {
    seq(|inputs|, k requires 0 <= k < |inputs| => Indexed(k, inputs[k]))
  }

  datatype IngestOutcome = IngestOutcome(points: seq<MetricPoint>, result: Result<nat, MetricsError>)

  /** `ingest`: every input is converted, the i-th under id `newId(i)`; the
      first bad input aborts the batch before anything is written. The answer
      is the count `save_batch` reports. */
  function Ingest(points: seq<MetricPoint>, projectId: string, inputs: seq<MetricInput>, newId: nat -> string, now: int,
                  inserts: MetricPoint -> bool, commits: bool): (o: IngestOutcome)
    ensures o.result.Err? ==> o.points == points
    ensures (exists k :: 0 <= k < |inputs| && ConvertMetric(projectId, inputs[k], newId(k), now).Err?) ==> o.result.Err?
    ensures o.result.Ok? ==>
      && o.result.value == |inputs|
      && |o.points| == |points| + |inputs| && o.points[..|points|] == points
      && forall k :: 0 <= k < |inputs| ==>
           Ok(o.points[|points| + k]) == ConvertMetric(projectId, inputs[k], newId(k), now) && WellShaped(o.points[|points| + k])
  {
    var convert := (x: Indexed) => ConvertMetric(projectId, x.input, newId(x.index), now);
    match CollectAll(Numbered(inputs), convert)
    case Err(e) => IngestOutcome(points, Err(e))
    case Ok(batch) =>
      match MetricsStore.SaveBatch(batch, inserts, commits)
      case Err(e) => IngestOutcome(points, Err(e))
      case Ok(n) =>
        assert (points + batch)[..|points|] == points;
        IngestOutcome(points + batch, Ok(n))
  }

  /** An unknown type anywhere in the batch loses the whole batch, with the
      first bad input's error. */
  lemma UnknownTypeAbortsBatch(points: seq<MetricPoint>, projectId: string, inputs: seq<MetricInput>, newId: nat -> string,
                               now: int, inserts: MetricPoint -> bool, commits: bool, k: nat)
    requires k < |inputs| && TypeFromStr(inputs[k].metricType).Err?
    requires forall j :: 0 <= j < k ==> ConvertMetric(projectId, inputs[j], newId(j), now).Ok?
    ensures Ingest(points, projectId, inputs, newId, now, inserts, commits) == IngestOutcome(points, Err(InvalidMetricType(inputs[k].metricType)))
  {
    var convert := (x: Indexed) => ConvertMetric(projectId, x.input, newId(x.index), now);
    var xs := Numbered(inputs);
    assert convert(xs[k]) == ConvertMetric(projectId, inputs[k], newId(k), now);
    assert forall j :: 0 <= j < k ==> convert(xs[j]) == ConvertMetric(projectId, inputs[j], newId(j), now);
    CollectAllFirstError(xs, convert, k);
  }

  // ---------------------------------------------------------------------------
  // queries

  datatype MetricQueryFilters = MetricQueryFilters(
    names: Option<seq<string>>,
    types: Option<seq<string>>,
    startTime: Option<int>,
    endTime: Option<int>,
    tags: Option<map<string, string>>,
    traceId: Option<string>,
    rollup: Option<string>,
    limit: Option<int>,
    offset: Option<int>)

  /** `filter_map(MetricType::from_str(t).ok())`: the types that parse, in order. */
  function ParsedTypes(types: seq<string>): (ts: seq<MetricType>)
    ensures |ts| <= |types|
    ensures forall t :: t in ts <==> exists k :: 0 <= k < |types| && TypeFromStr(types[k]) == Ok(t)
    ensures (forall k :: 0 <= k < |types| ==> TypeFromStr(types[k]).Err?) ==> ts == []
    decreases |types|
  {
    if |types| == 0 then []
    else
      var rest := ParsedTypes(types[1..]);
      assert forall k :: 1 <= k < |types| ==> types[k] == types[1..][k - 1];
      assert forall k :: 0 <= k < |types| - 1 ==> types[1..][k] == types[k + 1];
      match TypeFromStr(types[0])
      case Ok(t) => [t] + rest
      case Err(_) => rest
  }

  /** The rollup of a request: its spelling read by `RollupInterval::from_str`,
      raw when absent. */
  function RequestRollup(rollup: Option<string>): (r: RollupInterval)
    ensures rollup.None? ==> r == DefaultRollup
    ensures rollup.Some? ==> r == RollupFromStr(rollup.value)
  {
    if rollup.None? then DefaultRollup else RollupFromStr(rollup.value)
  }

  function StoreFilters(q: MetricQueryFilters): (f: MetricsStore.MetricFilters)
    ensures f.names == q.names && f.startTime == q.startTime && f.endTime == q.endTime && f.traceId == q.traceId
    ensures f.tags == q.tags
    ensures q.types.None? <==> f.metricTypes.None?
    ensures q.types.Some? ==> f.metricTypes == Some(ParsedTypes(q.types.value))
  {
    MetricsStore.MetricFilters(q.names, if q.types.None? then None else Some(ParsedTypes(q.types.value)),
                               q.startTime, q.endTime, q.tags, q.traceId)
  }

  datatype MetricDataPoint = MetricDataPoint(
    name: string,
    metricType: string,
    timestamp: int,
    avgValue: real,
    minValue: real,
    maxValue: real,
    sumValue: real,
    sampleCount: int)

  function DataPoint(a: MetricsStore.AggregatedMetric): MetricDataPoint {
    MetricDataPoint(a.name, a.metricType, a.bucket, a.avgValue, a.minValue, a.maxValue, a.sumValue, a.sampleCount)
  }

  datatype MetricQueryResponse = MetricQueryResponse(data: seq<MetricDataPoint>, total: int)

  /** `query`: access, then the store's query over the requested rollup, with
      each row reported as a data point. */
  function Query(s: ProjectService.ProjectStore, db: MetricsStore.MetricsDb, projectId: string, q: MetricQueryFilters,
                 userId: string): (r: Result<MetricQueryResponse, MetricsError>)
    ensures VerifyMetricsAccess(s, projectId, userId).Err? ==> r == Err(VerifyMetricsAccess(s, projectId, userId).error)
    ensures VerifyMetricsAccess(s, projectId, userId).Ok? ==>
      var res := MetricsStore.Query(db, projectId, StoreFilters(q), RequestRollup(q.rollup), q.limit, q.offset);
      && (r.Ok? <==> res.Ok?)
      && (r.Ok? ==>
            && r.value.total == res.value.total && |r.value.data| == |res.value.metrics|
            && forall k :: 0 <= k < |r.value.data| ==> r.value.data[k] == DataPoint(res.value.metrics[k]))
  {
    match VerifyMetricsAccess(s, projectId, userId)
    case Err(e) => Err(e)
    case Ok(_) =>
      match MetricsStore.Query(db, projectId, StoreFilters(q), RequestRollup(q.rollup), q.limit, q.offset)
      case Err(e) => Err(e)
      case Ok(res) =>
        Ok(MetricQueryResponse(seq(|res.metrics|, k requires 0 <= k < |res.metrics| => DataPoint(res.metrics[k])), res.total))
  }

  /** The points a successful ingest writes come back from a raw query of the
      project with no filters, when they fit in the first page. */
  lemma IngestedPointsAreQueried(points: seq<MetricPoint>, projectId: string, inputs: seq<MetricInput>, newId: nat -> string,
                                 now: int, inserts: MetricPoint -> bool, commits: bool, views: map<RollupInterval, seq<MetricsStore.StoredRow>>)
    requires Ingest(points, projectId, inputs, newId, now, inserts, commits).result.Ok?
    ensures var db := MetricsStore.MetricsDb(Ingest(points, projectId, inputs, newId, now, inserts, commits).points, views);
      var f := MetricsStore.MetricFilters(None, None, None, None, None, None);
      forall k :: |points| <= k < |db.points| ==>
        MetricsStore.RawRow(db.points[k]) in MetricsStore.Matching(MetricsStore.RowsOf(db, Raw), projectId, f, Raw)
  {
    var o := Ingest(points, projectId, inputs, newId, now, inserts, commits);
    var db := MetricsStore.MetricsDb(o.points, views);
    var f := MetricsStore.MetricFilters(None, None, None, None, None, None);
    forall k | |points| <= k < |db.points|
      ensures MetricsStore.RawRow(db.points[k]) in MetricsStore.Matching(MetricsStore.RowsOf(db, Raw), projectId, f, Raw)
    {
      var row := MetricsStore.RawRow(db.points[k]);
      assert MetricsStore.RowsOf(db, Raw)[k] == row;
      assert Ok(db.points[|points| + (k - |points|)]) == ConvertMetric(projectId, inputs[k - |points|], newId(k - |points|), now);
    }
  }
}
