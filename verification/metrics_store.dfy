/** The metrics table and its rollup views, as the store reads and writes them.

    `save_batch` writes one row per point inside a transaction: any failed
    insert or a failed commit loses the whole batch. `query` picks the table by
    rollup interval, builds a WHERE clause whose placeholders are numbered as it
    goes, and binds the values in a second pass; here each placeholder records
    the field it stands for, and the theorems say the n-th bound value is the
    value of placeholder `$n`. The rows of a table are in storage order;
    `ORDER BY bucket DESC` sorts the matching ones latest first before the
    page is cut. */
module MetricsStore {
  import opened Wrappers
  import opened Text
  import opened MetricValues
  import opened Ordering
  import LogSql

  // ---------------------------------------------------------------------------
  // writing

  /** The six histogram columns of a stored row. */
  datatype HistogramColumns = HistogramColumns(
    bucketBounds: Option<seq<real>>,
    bucketCounts: Option<seq<int>>,
    sum: Option<real>,
    count: Option<int>,
    min: Option<real>,
    max: Option<real>)

  /** The histogram columns written for a point: all set from its data, or all
      NULL without. */
  function HistogramColumnsOf(m: MetricPoint): (c: HistogramColumns)
    ensures c.bucketBounds.Some? <==> m.histogramData.Some?
    ensures c.bucketCounts.Some? <==> m.histogramData.Some?
    ensures c.sum.Some? <==> m.histogramData.Some?
    ensures c.count.Some? <==> m.histogramData.Some?
    ensures c.min.Some? <==> m.histogramData.Some?
    ensures c.max.Some? <==> m.histogramData.Some?
    ensures m.histogramData.Some? ==>
      var h := m.histogramData.value;
      c == HistogramColumns(Some(h.bucketBounds), Some(h.bucketCounts), Some(h.sum), Some(h.count), Some(h.min), Some(h.max))
  {
    match m.histogramData
    case None => HistogramColumns(None, None, None, None, None, None)
    case Some(h) => HistogramColumns(Some(h.bucketBounds), Some(h.bucketCounts), Some(h.sum), Some(h.count), Some(h.min), Some(h.max))
  }

  /** `save_batch`: nothing to do for an empty batch; otherwise every insert and
      the commit must succeed, and the count is the number of points. */
  function SaveBatch(points: seq<MetricPoint>, inserts: MetricPoint -> bool, commits: bool): (r: Result<nat, MetricsError>)
    ensures points == [] ==> r == Ok(0)
    ensures r.Ok? <==> points == [] || ((forall k :: 0 <= k < |points| ==> inserts(points[k])) && commits)
    ensures r.Ok? ==> r.value == |points|
    ensures r.Err? ==> r.error == InternalError
  {
    if points == [] then Ok(0)
    else if exists k :: 0 <= k < |points| && !inserts(points[k]) then Err(InternalError)
    else if !commits then Err(InternalError)
    else Ok(|points|)
  }

  // ---------------------------------------------------------------------------
  // the filters and the statement

  /** `MetricFilters`. */
  datatype MetricFilters = MetricFilters(
    names: Option<seq<string>>,
    metricTypes: Option<seq<MetricType>>,
    startTime: Option<int>,
    endTime: Option<int>,
    tags: Option<map<string, string>>,
    traceId: Option<string>)

  /** The table each interval reads. */
  function TableFor(r: RollupInterval): string {
    match r
    case Raw => "metrics"
    case OneMinute => "metrics_1m"
    case OneHour => "metrics_1h"
    case OneDay => "metrics_1d"
  }

  /** The raw table has a timestamp; the rollup views have a bucket. */
  function TimeColumn(r: RollupInterval): string {
    if r == Raw then "timestamp" else "bucket"
  }

  /** The names filter is written only for a non-empty list. */
  function NameCount(f: MetricFilters): nat {
    if f.names.Some? then |f.names.value| else 0
  }

  /** The trace filter applies to raw points only. */
  predicate FiltersTrace(f: MetricFilters, r: RollupInterval) {
    f.traceId.Some? && r == Raw
  }

  /** What a placeholder stands for. */
  datatype Role = ProjectRole | NameRole(i: nat) | StartRole | EndRole | TraceRole

  datatype Param = Param(index: nat, role: Role)

  datatype Condition = Condition(text: string, params: seq<Param>)

  function AllParams(cs: seq<Condition>): seq<Param>
    decreases |cs|
  {
    if |cs| == 0 then [] else cs[0].params + AllParams(cs[1..])
  }

  lemma {:induction false} AllParamsAppend(a: seq<Condition>, b: seq<Condition>)
    ensures AllParams(a + b) == AllParams(a) + AllParams(b)
    decreases |a|
  {
    if |a| == 0 {
      assert a + b == b;
    } else {
      assert (a + b)[1..] == a[1..] + b;
      AllParamsAppend(a[1..], b);
    }
  }

  /** Roles numbered consecutively from `from`. */
  function Numbered(roles: seq<Role>, from: nat): (ps: seq<Param>)
    ensures |ps| == |roles|
    ensures forall i :: 0 <= i < |ps| ==> ps[i] == Param(from + i, roles[i])
  {
    seq(|roles|, i requires 0 <= i < |roles| => Param(from + i, roles[i]))
  }

  function NameRoles(n: nat): (rs: seq<Role>)
    ensures |rs| == n && forall i :: 0 <= i < n ==> rs[i] == NameRole(i)
  {
    seq(n, i requires 0 <= i < n => NameRole(i))
  }

  function If<T>(present: bool, xs: seq<T>): seq<T> {
    if present then xs else []
  }

  /** The fields the placeholders stand for, in the order the clause writes
      them: the project, each name, start, end, and the trace id on raw points. */
  function PlaceholderRoles(f: MetricFilters, r: RollupInterval): seq<Role> {
    [ProjectRole] + NameRoles(NameCount(f)) + StartRoles(f) + EndRoles(f) + TraceRoles(f, r)
  }

  /** A condition with one placeholder, numbered `idx`. */
  function Single(prefix: string, idx: nat, role: Role): Condition {
    Condition(prefix + LogSql.Placeholder(idx), [Param(idx, role)])
  }

  /** `name IN ($idx, …)` for n names. */
  function NamesCondition(n: nat, idx: nat): Condition {
    Condition("name IN (" + JoinWith(seq(n, i requires 0 <= i < n => LogSql.Placeholder(idx + i)), ", ") + ")",
              seq(n, i requires 0 <= i < n => Param(idx + i, NameRole(i))))
  }

  function StartRoles(f: MetricFilters): seq<Role> {
    If(f.startTime.Some?, [StartRole])
  }

  function EndRoles(f: MetricFilters): seq<Role> {
    If(f.endTime.Some?, [EndRole])
  }

  function TraceRoles(f: MetricFilters, r: RollupInterval): seq<Role> {
    If(FiltersTrace(f, r), [TraceRole])
  }

  function NamePart(f: MetricFilters): seq<Condition> {
    If(NameCount(f) > 0, [NamesCondition(NameCount(f), 2)])
  }

  function StartPart(f: MetricFilters, r: RollupInterval): seq<Condition> {
    If(f.startTime.Some?, [Single(TimeColumn(r) + " >= ", 2 + NameCount(f), StartRole)])
  }

  function EndPart(f: MetricFilters, r: RollupInterval): seq<Condition> {
    If(f.endTime.Some?, [Single(TimeColumn(r) + " <= ", 2 + NameCount(f) + |StartRoles(f)|, EndRole)])
  }

  function TracePart(f: MetricFilters, r: RollupInterval): seq<Condition> {
    If(FiltersTrace(f, r), [Single("trace_id = ", 2 + NameCount(f) + |StartRoles(f)| + |EndRoles(f)|, TraceRole)])
  }

  /** The conditions of `query`, written with a running index that starts at 2
      after the project's `$1`. Their placeholders are the roles above, numbered
      1, 2, 3, … */
  function WhereConditions(f: MetricFilters, r: RollupInterval): (cs: seq<Condition>)
    ensures |cs| >= 1 && cs[0] == Condition("project_id = $1", [Param(1, ProjectRole)])
    ensures AllParams(cs) == Numbered(PlaceholderRoles(f, r), 1)
  {
    WhereNumbered(f, r);
    [Condition("project_id = $1", [Param(1, ProjectRole)])] + NamePart(f) + StartPart(f, r) + EndPart(f, r) + TracePart(f, r)
  }

  lemma WhereNumbered(f: MetricFilters, r: RollupInterval)
    ensures AllParams([Condition("project_id = $1", [Param(1, ProjectRole)])] + NamePart(f) + StartPart(f, r) + EndPart(f, r) + TracePart(f, r))
         == Numbered(PlaceholderRoles(f, r), 1)
  {
    var n := NameCount(f);
    var c0 := [Condition("project_id = $1", [Param(1, ProjectRole)])];
    assert AllParams(c0) == Numbered([ProjectRole], 1) by {
      assert AllParams(c0) == c0[0].params + AllParams([]);
    }
    NameParams(n);
    LaterPartsNumbered(f, r);
    ChainFive(c0, NamePart(f), StartPart(f, r), EndPart(f, r), TracePart(f, r),
              [ProjectRole], NameRoles(n), StartRoles(f), EndRoles(f), TraceRoles(f, r));
  }

  /** The start, end and trace conditions carry their roles, numbered on from
      the names. */
  lemma LaterPartsNumbered(f: MetricFilters, r: RollupInterval)
    ensures AllParams(StartPart(f, r)) == Numbered(StartRoles(f), 2 + NameCount(f))
    ensures AllParams(EndPart(f, r)) == Numbered(EndRoles(f), 2 + NameCount(f) + |StartRoles(f)|)
    ensures AllParams(TracePart(f, r)) == Numbered(TraceRoles(f, r), 2 + NameCount(f) + |StartRoles(f)| + |EndRoles(f)|)
  {
    var n := NameCount(f);
    OptionalParams(f.startTime.Some?, Single(TimeColumn(r) + " >= ", 2 + n, StartRole), [StartRole], 2 + n);
    OptionalParams(f.endTime.Some?, Single(TimeColumn(r) + " <= ", 2 + n + |StartRoles(f)|, EndRole), [EndRole],
                   2 + n + |StartRoles(f)|);
    OptionalParams(FiltersTrace(f, r), Single("trace_id = ", 2 + n + |StartRoles(f)| + |EndRoles(f)|, TraceRole), [TraceRole],
                   2 + n + |StartRoles(f)| + |EndRoles(f)|);
  }

  /** Five runs of consecutively numbered placeholders, one after the other,
      are one run from 1. */
  lemma ChainFive(c0: seq<Condition>, c1: seq<Condition>, c2: seq<Condition>, c3: seq<Condition>, c4: seq<Condition>,
                  r0: seq<Role>, r1: seq<Role>, r2: seq<Role>, r3: seq<Role>, r4: seq<Role>)
    requires AllParams(c0) == Numbered(r0, 1)
    requires AllParams(c1) == Numbered(r1, 1 + |r0|)
    requires AllParams(c2) == Numbered(r2, 1 + |r0| + |r1|)
    requires AllParams(c3) == Numbered(r3, 1 + |r0| + |r1| + |r2|)
    requires AllParams(c4) == Numbered(r4, 1 + |r0| + |r1| + |r2| + |r3|)
    ensures AllParams(c0 + c1 + c2 + c3 + c4) == Numbered(r0 + r1 + r2 + r3 + r4, 1)
  {
    ChainTwo(c0, c1, r0, r1, 1);
    ChainTwo(c0 + c1, c2, r0 + r1, r2, 1);
    ChainTwo(c0 + c1 + c2, c3, r0 + r1 + r2, r3, 1);
    ChainTwo(c0 + c1 + c2 + c3, c4, r0 + r1 + r2 + r3, r4, 1);
  }

  lemma OptionalParams(present: bool, c: Condition, roles: seq<Role>, idx: nat)
    requires c.params == Numbered(roles, idx)
    ensures AllParams(If(present, [c])) == Numbered(If(present, roles), idx)
  {
    if present {
      assert AllParams([c]) == c.params + AllParams([]);
    }
  }

  lemma NameParams(n: nat)
    ensures AllParams(If(n > 0, [NamesCondition(n, 2)])) == Numbered(NameRoles(n), 2)
  {
    if n > 0 {
      OptionalParams(true, NamesCondition(n, 2), NameRoles(n), 2);
    }
  }

  /** Two runs of consecutively numbered placeholders, one after the other, are
      one run. */
  lemma ChainTwo(a: seq<Condition>, b: seq<Condition>, ra: seq<Role>, rb: seq<Role>, from: nat)
    requires AllParams(a) == Numbered(ra, from)
    requires AllParams(b) == Numbered(rb, from + |ra|)
    ensures AllParams(a + b) == Numbered(ra + rb, from)
  {
    AllParamsAppend(a, b);
    NumberedAppend(ra, rb, from);
  }

  lemma NumberedAppend(a: seq<Role>, b: seq<Role>, from: nat)
    ensures Numbered(a + b, from) == Numbered(a, from) + Numbered(b, from + |a|)
  {
  }

  function Texts(cs: seq<Condition>): (ts: seq<string>)
    ensures |ts| == |cs| && forall k :: 0 <= k < |cs| ==> ts[k] == cs[k].text
  {
    seq(|cs|, k requires 0 <= k < |cs| => cs[k].text)
  }

  /** The clause shared by the page and count statements. */
  function WhereClause(f: MetricFilters, r: RollupInterval): string {
    JoinWith(Texts(WhereConditions(f, r)), " AND ")
  }

  /** `limit.unwrap_or(1000).min(10000)`; a negative request is passed through. */
  function LimitValue(limit: Option<int>): (l: int)
    ensures l <= 10000
    ensures limit.None? ==> l == 1000
    ensures limit.Some? ==> l == Min(limit.value, 10000)
  {
    Min(limit.GetOr(1000), 10000)
  }

  function OffsetValue(offset: Option<int>): int {
    offset.GetOr(0)
  }

  // ---------------------------------------------------------------------------
  // the bind pass

  datatype BindValue = TextBind(s: string) | TimeBind(t: int)

  /** The values bound, in order: the project, every name of a present list,
      start, end, and the trace id on raw points. */
  function Binds(projectId: string, f: MetricFilters, r: RollupInterval): seq<BindValue> {
    [TextBind(projectId)]
      + (if f.names.Some? then seq(|f.names.value|, i requires 0 <= i < |f.names.value| => TextBind(f.names.value[i])) else [])
      + (if f.startTime.Some? then [TimeBind(f.startTime.value)] else [])
      + (if f.endTime.Some? then [TimeBind(f.endTime.value)] else [])
      + (if FiltersTrace(f, r) then [TextBind(f.traceId.value)] else [])
  }

  /** The value a placeholder of this role should receive. */
  function ValueOf(projectId: string, f: MetricFilters, role: Role): BindValue {
    match role
    case ProjectRole => TextBind(projectId)
    case NameRole(i) => if f.names.Some? && i < |f.names.value| then TextBind(f.names.value[i]) else TextBind("")
    case StartRole => TimeBind(f.startTime.GetOr(0))
    case EndRole => TimeBind(f.endTime.GetOr(0))
    case TraceRole => TextBind(f.traceId.GetOr(""))
  }

  /** The two passes agree: there are as many values as placeholders, and
      placeholder `$n` (the n-th written) receives the n-th bound value, which
      is the value of its own field. */
  lemma BindsFollowPlaceholders(projectId: string, f: MetricFilters, r: RollupInterval)
    ensures var ps := AllParams(WhereConditions(f, r));
      && |Binds(projectId, f, r)| == |ps|
      && forall k :: 0 <= k < |ps| ==> ps[k].index == k + 1 && Binds(projectId, f, r)[k] == ValueOf(projectId, f, ps[k].role)
  {
    BindsAreValues(projectId, f, r);
    var ps := AllParams(WhereConditions(f, r));
    assert ps == Numbered(PlaceholderRoles(f, r), 1);
  }

  /** The bind pass binds, in order, the value of each placeholder's role. */
  lemma BindsAreValues(projectId: string, f: MetricFilters, r: RollupInterval)
    ensures Binds(projectId, f, r) == ValuesOf(projectId, f, PlaceholderRoles(f, r))
  {
    var n := NameCount(f);
    NameBindsAreValues(projectId, f);
    assert ValuesOf(projectId, f, [ProjectRole]) == [TextBind(projectId)];
    assert ValuesOf(projectId, f, StartRoles(f)) == (if f.startTime.Some? then [TimeBind(f.startTime.value)] else []);
    assert ValuesOf(projectId, f, EndRoles(f)) == (if f.endTime.Some? then [TimeBind(f.endTime.value)] else []);
    assert ValuesOf(projectId, f, TraceRoles(f, r)) == (if FiltersTrace(f, r) then [TextBind(f.traceId.value)] else []);
    ValuesOfFive(projectId, f, [ProjectRole], NameRoles(n), StartRoles(f), EndRoles(f), TraceRoles(f, r));
  }

  lemma NameBindsAreValues(projectId: string, f: MetricFilters)
    ensures ValuesOf(projectId, f, NameRoles(NameCount(f)))
         == if f.names.Some? then seq(|f.names.value|, i requires 0 <= i < |f.names.value| => TextBind(f.names.value[i])) else []
  {
  }

  /** The values the placeholders of these roles should receive, in order. */
  function ValuesOf(projectId: string, f: MetricFilters, roles: seq<Role>): (vs: seq<BindValue>)
    ensures |vs| == |roles| && forall k :: 0 <= k < |roles| ==> vs[k] == ValueOf(projectId, f, roles[k])
  {
    seq(|roles|, k requires 0 <= k < |roles| => ValueOf(projectId, f, roles[k]))
  }

  lemma ValuesOfFive(projectId: string, f: MetricFilters, r0: seq<Role>, r1: seq<Role>, r2: seq<Role>, r3: seq<Role>, r4: seq<Role>)
    ensures ValuesOf(projectId, f, r0 + r1 + r2 + r3 + r4)
         == ValuesOf(projectId, f, r0) + ValuesOf(projectId, f, r1) + ValuesOf(projectId, f, r2)
            + ValuesOf(projectId, f, r3) + ValuesOf(projectId, f, r4)
  {
  }

  // ---------------------------------------------------------------------------
  // reading

  /** A row of a table or view: raw points fill every aggregate with the value
      and a sample count of 1; a view may leave aggregates NULL. */
  datatype StoredRow = StoredRow(
    projectId: string,
    name: string,
    metricType: string,
    time: int,
    avgValue: Option<real>,
    minValue: Option<real>,
    maxValue: Option<real>,
    sumValue: Option<real>,
    sampleCount: Option<int>,
    traceId: Option<string>)

  /** A raw point as the raw query selects it: `value AS avg_value, … , 1 AS sample_count`. */
  function RawRow(m: MetricPoint): (row: StoredRow)
    ensures row.avgValue == row.minValue == row.maxValue == row.sumValue == Some(m.value)
    ensures row.sampleCount == Some(1) && row.time == m.timestamp && row.name == m.name
    ensures row.metricType == TypeName(m.metricType) && row.projectId == m.projectId
  {
    StoredRow(m.projectId, m.name, TypeName(m.metricType), m.timestamp, Some(m.value), Some(m.value), Some(m.value),
              Some(m.value), Some(1), m.traceId)
  }

  /** The database: raw points, and the rows of each rollup view. */
  datatype MetricsDb = MetricsDb(points: seq<MetricPoint>, views: map<RollupInterval, seq<StoredRow>>)

  function RowsOf(db: MetricsDb, r: RollupInterval): seq<StoredRow> {
    if r == Raw then seq(|db.points|, k requires 0 <= k < |db.points| => RawRow(db.points[k]))
    else if r in db.views then db.views[r] else []
  }

  /** The WHERE clause's meaning for one row. */
  predicate RowMatches(row: StoredRow, projectId: string, f: MetricFilters, r: RollupInterval) {
    && row.projectId == projectId
    && (NameCount(f) > 0 ==> row.name in f.names.value)
    && (f.startTime.Some? ==> row.time >= f.startTime.value)
    && (f.endTime.Some? ==> row.time <= f.endTime.value)
    && (FiltersTrace(f, r) ==> row.traceId == f.traceId)
  }

  function Matching(rows: seq<StoredRow>, projectId: string, f: MetricFilters, r: RollupInterval): (ms: seq<StoredRow>)
    ensures |ms| <= |rows|
    ensures forall x :: x in ms <==> x in rows && RowMatches(x, projectId, f, r)
    decreases |rows|
  {
    if |rows| == 0 then []
    else (if RowMatches(rows[0], projectId, f, r) then [rows[0]] else []) + Matching(rows[1..], projectId, f, r)
  }

  /** `AggregatedMetric`: a row with NULL aggregates read as 0. */
  datatype AggregatedMetric = AggregatedMetric(
    projectId: string,
    name: string,
    metricType: string,
    bucket: int,
    avgValue: real,
    minValue: real,
    maxValue: real,
    sumValue: real,
    sampleCount: int)

  function Aggregate(row: StoredRow): (a: AggregatedMetric)
    ensures a.avgValue == row.avgValue.GetOr(0.0) && a.minValue == row.minValue.GetOr(0.0)
    ensures a.maxValue == row.maxValue.GetOr(0.0) && a.sumValue == row.sumValue.GetOr(0.0)
    ensures a.sampleCount == row.sampleCount.GetOr(0)
    ensures a.name == row.name && a.bucket == row.time && a.projectId == row.projectId && a.metricType == row.metricType
  {
    AggregatedMetric(row.projectId, row.name, row.metricType, row.time, row.avgValue.GetOr(0.0), row.minValue.GetOr(0.0),
                     row.maxValue.GetOr(0.0), row.sumValue.GetOr(0.0), row.sampleCount.GetOr(0))
  }

  datatype MetricQueryResult = MetricQueryResult(metrics: seq<AggregatedMetric>, total: int)

  /** A window of at most `limit` rows starting at `offset`. */
  function Window<T>(xs: seq<T>, limit: nat, offset: nat): (w: seq<T>)
    ensures |w| <= limit
    ensures offset <= |xs| ==> w == xs[offset..Min(|xs|, offset + limit)]
    ensures offset >= |xs| ==> w == []
  {
    if offset >= |xs| then [] else xs[offset..Min(|xs|, offset + limit)]
  }

  function NegatedTime(row: StoredRow): int {
    -row.time
  }

  /** `ORDER BY bucket DESC`: the same rows, latest first. */
  function LatestFirst(ms: seq<StoredRow>): (r: seq<StoredRow>)
    ensures multiset(r) == multiset(ms) && |r| == |ms|
    ensures forall i, j :: 0 <= i < j < |r| ==> r[i].time >= r[j].time
  {
    var r := SortBy(ms, NegatedTime);
    assert |r| == |multiset(r)| == |multiset(ms)| == |ms|;
    assert forall i, j :: 0 <= i < j < |r| ==> NegatedTime(r[i]) <= NegatedTime(r[j]);
    r
  }

  /** `query`: the matching rows of the interval's table, latest first, a page
      of them, and the count of all of them. The database refuses a negative
      LIMIT or OFFSET. */
  function Query(db: MetricsDb, projectId: string, f: MetricFilters, r: RollupInterval, limit: Option<int>, offset: Option<int>)
    : (res: Result<MetricQueryResult, MetricsError>)
    ensures res.Err? <==> LimitValue(limit) < 0 || OffsetValue(offset) < 0
    ensures res.Err? ==> res.error == InternalError
    ensures res.Ok? ==>
      var ms := Matching(RowsOf(db, r), projectId, f, r);
      var sorted := LatestFirst(ms);
      var o := OffsetValue(offset);
      && res.value.total == |ms|
      && |res.value.metrics| <= LimitValue(limit) <= 10000
      && |res.value.metrics| == (if o >= |ms| then 0 else Min(LimitValue(limit), |ms| - o))
      && (forall k :: 0 <= k < |res.value.metrics| ==> o + k < |ms| && res.value.metrics[k] == Aggregate(sorted[o + k]))
      && (forall i, j :: 0 <= i < j < |res.value.metrics| ==> res.value.metrics[i].bucket >= res.value.metrics[j].bucket)
  {
    var l := LimitValue(limit);
    var o := OffsetValue(offset);
    if l < 0 || o < 0 then Err(InternalError)
    else
      var ms := Matching(RowsOf(db, r), projectId, f, r);
      Ok(MetricQueryResult(AggregatedPage(LatestFirst(ms), l, o), |ms|))
  }

  /** The first page holds the latest matching rows: a matching row later than
      an entry of the page is itself on the page. */
  lemma FirstPageIsLatest(db: MetricsDb, projectId: string, f: MetricFilters, r: RollupInterval, limit: Option<int>,
                          x: StoredRow, k: nat)
    requires Query(db, projectId, f, r, limit, None).Ok?
    requires x in Matching(RowsOf(db, r), projectId, f, r)
    requires k < |Query(db, projectId, f, r, limit, None).value.metrics|
    requires x.time > Query(db, projectId, f, r, limit, None).value.metrics[k].bucket
    ensures Aggregate(x) in Query(db, projectId, f, r, limit, None).value.metrics
  {
    var ms := Matching(RowsOf(db, r), projectId, f, r);
    var sorted := LatestFirst(ms);
    assert Query(db, projectId, f, r, limit, None) == Ok(MetricQueryResult(AggregatedPage(sorted, LimitValue(limit), 0), |ms|));
    assert x in multiset(sorted) by { assert x in multiset(ms); }
    LaterRowOnFirstPage(sorted, LimitValue(limit), x, k);
  }

  /** On the first page of rows latest first, a row later than an entry of the
      page is itself on the page. */
  lemma LaterRowOnFirstPage(sorted: seq<StoredRow>, limit: nat, x: StoredRow, k: nat)
    requires forall i, j :: 0 <= i < j < |sorted| ==> sorted[i].time >= sorted[j].time
    requires x in sorted && k < |AggregatedPage(sorted, limit, 0)|
    requires x.time > AggregatedPage(sorted, limit, 0)[k].bucket
    ensures Aggregate(x) in AggregatedPage(sorted, limit, 0)
  {
    var page := AggregatedPage(sorted, limit, 0);
    var j :| 0 <= j < |sorted| && sorted[j] == x;
    assert page[k] == Aggregate(sorted[k]);
    assert j < |page|;
    assert page[j] == Aggregate(x);
  }

  /** The page of `limit` rows from `offset`, each read as an aggregated metric. */
  function AggregatedPage(ms: seq<StoredRow>, limit: nat, offset: nat): (ps: seq<AggregatedMetric>)
    ensures |ps| <= limit
    ensures |ps| == (if offset >= |ms| then 0 else Min(limit, |ms| - offset))
    ensures forall k :: 0 <= k < |ps| ==> offset + k < |ms| && ps[k] == Aggregate(ms[offset + k])
    ensures (forall i, j :: 0 <= i < j < |ms| ==> ms[i].time >= ms[j].time) ==>
      forall i, j :: 0 <= i < j < |ps| ==> ps[i].bucket >= ps[j].bucket
  {
    var page := Window(ms, limit, offset);
    seq(|page|, k requires 0 <= k < |page| => Aggregate(page[k]))
  }

  /** On raw points every aggregate the query reports is the point's value,
      over one sample. */
  lemma RawQueryReportsValues(db: MetricsDb, projectId: string, f: MetricFilters, limit: Option<int>, offset: Option<int>)
    requires Query(db, projectId, f, Raw, limit, offset).Ok?
    ensures forall a :: a in Query(db, projectId, f, Raw, limit, offset).value.metrics ==>
      a.avgValue == a.minValue == a.maxValue == a.sumValue && a.sampleCount == 1
      && exists m :: m in db.points && m.projectId == projectId && a.sumValue == m.value && a.bucket == m.timestamp
  {
    var ms := Matching(RowsOf(db, Raw), projectId, f, Raw);
    var sorted := LatestFirst(ms);
    var res := Query(db, projectId, f, Raw, limit, offset).value;
    forall a | a in res.metrics
      ensures a.avgValue == a.minValue == a.maxValue == a.sumValue && a.sampleCount == 1
      ensures exists m :: m in db.points && m.projectId == projectId && a.sumValue == m.value && a.bucket == m.timestamp
    {
      var k :| 0 <= k < |res.metrics| && res.metrics[k] == a;
      var row := sorted[OffsetValue(offset) + k];
      assert row in multiset(ms) by { assert row in multiset(sorted); }
      RawMatchIsPoint(db, projectId, f, row);
    }
  }

  /** A matching raw row reads as one of the project's points, over one sample. */
  lemma RawMatchIsPoint(db: MetricsDb, projectId: string, f: MetricFilters, row: StoredRow)
    requires row in Matching(RowsOf(db, Raw), projectId, f, Raw)
    ensures var a := Aggregate(row);
      && a.avgValue == a.minValue == a.maxValue == a.sumValue && a.sampleCount == 1
      && exists m :: m in db.points && m.projectId == projectId && a.sumValue == m.value && a.bucket == m.timestamp
  {
    var j :| 0 <= j < |db.points| && RowsOf(db, Raw)[j] == row;
    assert db.points[j] in db.points;
  }

  /** The metric types and tags of the filters take no part in the query. */
  lemma TypesAndTagsIgnored(db: MetricsDb, projectId: string, f: MetricFilters, r: RollupInterval, limit: Option<int>, offset: Option<int>,
                            types: Option<seq<MetricType>>, tags: Option<map<string, string>>)
    ensures Query(db, projectId, f.(metricTypes := types, tags := tags), r, limit, offset) == Query(db, projectId, f, r, limit, offset)
    ensures WhereClause(f.(metricTypes := types, tags := tags), r) == WhereClause(f, r)
  {
    var g := f.(metricTypes := types, tags := tags);
    assert forall row :: RowMatches(row, projectId, g, r) == RowMatches(row, projectId, f, r);
    MatchingAgrees(RowsOf(db, r), projectId, f, g, r);
    QueryFollowsMatching(db, projectId, f, g, r, limit, offset);
    WhereIgnoresTypesAndTags(f, r, types, tags);
  }

  lemma WhereIgnoresTypesAndTags(f: MetricFilters, r: RollupInterval, types: Option<seq<MetricType>>, tags: Option<map<string, string>>)
    ensures WhereClause(f.(metricTypes := types, tags := tags), r) == WhereClause(f, r)
  {
    var g := f.(metricTypes := types, tags := tags);
    assert NamePart(g) == NamePart(f);
    assert StartPart(g, r) == StartPart(f, r);
    assert EndPart(g, r) == EndPart(f, r);
    assert TracePart(g, r) == TracePart(f, r);
    assert WhereConditions(g, r) == WhereConditions(f, r);
  }

  /** Two filters that select the same rows give the same query result. */
  lemma QueryFollowsMatching(db: MetricsDb, projectId: string, f: MetricFilters, g: MetricFilters, r: RollupInterval,
                             limit: Option<int>, offset: Option<int>)
    requires Matching(RowsOf(db, r), projectId, g, r) == Matching(RowsOf(db, r), projectId, f, r)
    ensures Query(db, projectId, g, r, limit, offset) == Query(db, projectId, f, r, limit, offset)
  {
  }

  lemma {:induction false} MatchingAgrees(rows: seq<StoredRow>, projectId: string, f: MetricFilters, g: MetricFilters, r: RollupInterval)
    requires forall row :: RowMatches(row, projectId, g, r) == RowMatches(row, projectId, f, r)
    ensures Matching(rows, projectId, g, r) == Matching(rows, projectId, f, r)
    decreases |rows|
  {
    if |rows| > 0 {
      MatchingAgrees(rows[1..], projectId, f, g, r);
    }
  }

  /** A rollup view is never filtered by trace id: its clause has no trace
      condition and its rows are not compared with one. */
  lemma RollupIgnoresTrace(f: MetricFilters, r: RollupInterval, t: Option<string>)
    requires r != Raw
    ensures PlaceholderRoles(f.(traceId := t), r) == PlaceholderRoles(f, r)
    ensures forall row, p :: RowMatches(row, p, f.(traceId := t), r) == RowMatches(row, p, f, r)
  {
  }

  /** `delete_before`: removes the project's points older than the cutoff and
      reports how many. */
  function DeleteBefore(points: seq<MetricPoint>, projectId: string, before: int): (r: (seq<MetricPoint>, nat))
    ensures forall m :: m in r.0 <==> m in points && !(m.projectId == projectId && m.timestamp < before)
    ensures r.1 == |points| - |r.0|
    decreases |points|
  {
    if |points| == 0 then ([], 0)
    else
      var rest := DeleteBefore(points[1..], projectId, before);
      if points[0].projectId == projectId && points[0].timestamp < before then (rest.0, rest.1 + 1)
      else ([points[0]] + rest.0, rest.1)
  }
}
