/** The traces service: batch ingestion of spans under an API key, and trace
    search, trace read and service listing by a member of the project's
    organisation. Span ids, the clock and the database's answers are
    parameters. */
module TraceService {
  import opened Wrappers
  import opened Text
  import opened Json
  import opened SpanValues
  import SpanStore
  import SpanSearch
  import OrgService
  import ProjectDomain
  import ProjectService

  /** `verify_project_access`: a missing and a deleted project are both
      `ProjectNotFound`; a non-member is `NotAuthorized`. */
  function VerifyTraceAccess(s: ProjectService.ProjectStore, projectId: string, userId: string): (r: Result<(), TracesError>)
    ensures r.Ok? <==> ProjectService.IsLiveProject(s, projectId)
                       && OrgService.IsMember(s.orgs, s.projects[projectId].organizationId, userId)
    ensures !ProjectService.IsLiveProject(s, projectId) ==> r == Err(ProjectNotFound)
    ensures r.Err? ==> r.error in {ProjectNotFound, NotAuthorized}
  {
    if projectId !in s.projects then Err(ProjectNotFound)
    else if ProjectDomain.IsProjectDeleted(s.projects[projectId]) then Err(ProjectNotFound)
    else if !OrgService.IsMember(s.orgs, s.projects[projectId].organizationId, userId) then Err(NotAuthorized)
    else Ok(())
  }

  // ---------------------------------------------------------------------------
  // ingestion

  /** `SpanInput`; events and links arrive in their stored shape. */
  datatype SpanInput = SpanInput(
    traceId: string,
    spanId: string,
    parentSpanId: Option<string>,
    name: string,
    kind: Option<string>,
    startTime: int,
    endTime: Option<int>,
    status: Option<string>,
    statusMessage: Option<string>,
    serviceName: Option<string>,
    serviceVersion: Option<string>,
    resourceAttributes: Json,
    attributes: Json,
    events: seq<SpanEvent>,
    links: seq<SpanLink>)

  /** The kind of an input: absent means the default, present must parse. */
  function InputKind(kind: Option<string>): (r: Result<SpanKind, TracesError>)
    ensures kind.None? ==> r == Ok(Internal)
    ensures kind.Some? ==> (r.Ok? <==> ToLower(kind.value) in {"internal", "server", "client", "producer", "consumer"})
    ensures kind.Some? && r.Ok? ==> KindName(r.value) == ToLower(kind.value)
    ensures r.Err? ==> r.error == InvalidSpanKind(kind.value)
  {
    if kind.None? then Ok(DefaultKind) else KindFromStr(kind.value)
  }

  /** The status of an input: absent means the default, present must parse. */
  function InputStatus(status: Option<string>): (r: Result<SpanStatusCode, TracesError>)
    ensures status.None? ==> r == Ok(StatusUnset)
    ensures status.Some? ==> (r.Ok? <==> ToLower(status.value) in {"unset", "ok", "error"})
    ensures status.Some? && r.Ok? ==> StatusName(r.value) == ToLower(status.value)
    ensures r.Err? ==> r.error == InvalidSpanStatus(status.value)
  {
    if status.None? then Ok(DefaultStatus) else StatusFromStr(status.value)
  }

  /** One input of `ingest`: the kind is read before the status, so a span
      with both wrong reports its kind. */
  function ConvertSpan(projectId: string, input: SpanInput, id: string, now: int): (r: Result<Span, TracesError>)
    ensures r.Ok? <==> InputKind(input.kind).Ok? && InputStatus(input.status).Ok?
    ensures InputKind(input.kind).Err? ==> r == Err(InputKind(input.kind).error)
    ensures InputKind(input.kind).Ok? && InputStatus(input.status).Err? ==> r == Err(InputStatus(input.status).error)
    ensures r.Ok? ==>
      && ConsistentDuration(r.value) && r.value.receivedAt == now
      && r.value.kind == InputKind(input.kind).value && r.value.status == InputStatus(input.status).value
      && r.value.id == id && r.value.projectId == projectId && r.value.traceId == input.traceId
      && r.value.spanId == input.spanId && r.value.parentSpanId == input.parentSpanId && r.value.name == input.name
      && r.value.startTime == input.startTime && r.value.endTime == input.endTime
      && r.value.statusMessage == input.statusMessage && r.value.serviceName == input.serviceName
      && r.value.serviceVersion == input.serviceVersion && r.value.resourceAttributes == input.resourceAttributes
      && r.value.attributes == input.attributes && r.value.events == input.events && r.value.links == input.links
  {
    match InputKind(input.kind)
    case Err(e) => Err(e)
    case Ok(kind) =>
      match InputStatus(input.status)
      case Err(e) => Err(e)
      case Ok(status) =>
        Ok(NewSpan(id, projectId, input.traceId, input.spanId, input.parentSpanId, input.name, kind, input.startTime,
                   input.endTime, status, input.statusMessage, input.serviceName, input.serviceVersion,
                   input.resourceAttributes, input.attributes, input.events, input.links, now))
  }

  datatype Indexed = Indexed(index: nat, input: SpanInput)

  function Numbered(inputs: seq<SpanInput>): (xs: seq<Indexed>)
    ensures |xs| == |inputs| && forall k :: 0 <= k < |xs| ==> xs[k] == Indexed(k, inputs[k])
  {
    seq(|inputs|, k requires 0 <= k < |inputs| => Indexed(k, inputs[k]))
  }

  /** `ingest`: every input is converted, the i-th under id `newId(i)`; the
      first input with a bad kind or status aborts the batch before anything
      is written. The answer is the count `save_batch` reports. */
  function Ingest(rows: seq<SpanStore.SpanRow>, projectId: string, inputs: seq<SpanInput>, newId: nat -> string, now: int,
                  inserts: Span -> bool, commits: bool): (o: SpanStore.SaveOutcome)
    ensures o.result.Err? ==> o.rows == rows
    ensures (exists k :: 0 <= k < |inputs| && ConvertSpan(projectId, inputs[k], newId(k), now).Err?) ==> o.result.Err?
    ensures o.result.Ok? ==>
      && o.result.value == |inputs|
      && exists spans: seq<Span> ::
           && |spans| == |inputs|
           && (forall k :: 0 <= k < |inputs| ==> Ok(spans[k]) == ConvertSpan(projectId, inputs[k], newId(k), now))
           && o.rows == SpanStore.InsertAll(rows, SpanStore.RowsOf(spans, now))
  {
    var convert := (x: Indexed) => ConvertSpan(projectId, x.input, newId(x.index), now);
    match CollectAll(Numbered(inputs), convert)
    case Err(e) => SpanStore.SaveOutcome(rows, Err(e))
    case Ok(spans) => SpanStore.SaveBatch(rows, spans, now, inserts, commits)
  }

  /** A span without kind or status gets kind internal and status unset. */
  lemma AbsentKindAndStatusDefault(projectId: string, input: SpanInput, id: string, now: int)
    requires input.kind.None? && input.status.None?
    ensures ConvertSpan(projectId, input, id, now).Ok?
    ensures ConvertSpan(projectId, input, id, now).value.kind == Internal
    ensures ConvertSpan(projectId, input, id, now).value.status == StatusUnset
  {
  }

  /** An unknown kind anywhere in the batch loses the whole batch, with the
      first bad input's error, and writes nothing. */
  lemma InvalidKindAbortsBatch(rows: seq<SpanStore.SpanRow>, projectId: string, inputs: seq<SpanInput>, newId: nat -> string,
                               now: int, inserts: Span -> bool, commits: bool, k: nat)
    requires k < |inputs| && inputs[k].kind.Some? && KindFromStr(inputs[k].kind.value).Err?
    requires forall j :: 0 <= j < k ==> ConvertSpan(projectId, inputs[j], newId(j), now).Ok?
    ensures Ingest(rows, projectId, inputs, newId, now, inserts, commits)
            == SpanStore.SaveOutcome(rows, Err(InvalidSpanKind(inputs[k].kind.value)))
  {
    var convert := (x: Indexed) => ConvertSpan(projectId, x.input, newId(x.index), now);
    var xs := Numbered(inputs);
    assert convert(xs[k]) == ConvertSpan(projectId, inputs[k], newId(k), now);
    assert forall j :: 0 <= j < k ==> convert(xs[j]) == ConvertSpan(projectId, inputs[j], newId(j), now);
    CollectAllFirstError(xs, convert, k);
  }

  /** An unknown status with a good kind loses the whole batch in the same way. */
  lemma InvalidStatusAbortsBatch(rows: seq<SpanStore.SpanRow>, projectId: string, inputs: seq<SpanInput>, newId: nat -> string,
                                 now: int, inserts: Span -> bool, commits: bool, k: nat)
    requires k < |inputs| && InputKind(inputs[k].kind).Ok?
    requires inputs[k].status.Some? && StatusFromStr(inputs[k].status.value).Err?
    requires forall j :: 0 <= j < k ==> ConvertSpan(projectId, inputs[j], newId(j), now).Ok?
    ensures Ingest(rows, projectId, inputs, newId, now, inserts, commits)
            == SpanStore.SaveOutcome(rows, Err(InvalidSpanStatus(inputs[k].status.value)))
  {
    var convert := (x: Indexed) => ConvertSpan(projectId, x.input, newId(x.index), now);
    var xs := Numbered(inputs);
    assert convert(xs[k]) == ConvertSpan(projectId, inputs[k], newId(k), now);
    assert forall j :: 0 <= j < k ==> convert(xs[j]) == ConvertSpan(projectId, inputs[j], newId(j), now);
    CollectAllFirstError(xs, convert, k);
  }

  // ---------------------------------------------------------------------------
  // search

  /** `TraceQueryFilters`: durations in milliseconds, paging optional. */
  datatype TraceQueryFilters = TraceQueryFilters(
    serviceName: Option<string>,
    spanName: Option<string>,
    status: Option<string>,
    startTime: Option<int>,
    endTime: Option<int>,
    minDurationMs: Option<int>,
    maxDurationMs: Option<int>,
    limit: Option<int>,
    offset: Option<int>)

  const NanosPerMilli: int := 1_000_000
  const DefaultSearchLimit: int := 100
  const MaxSearchLimit: int := 1000

  /** A duration bound in milliseconds as the nanoseconds the store compares. */
  function MillisToNanos(ms: Option<int>): (ns: Option<int>)
    ensures ns.Some? <==> ms.Some?
    ensures ns.Some? ==> ns.value / NanosPerMilli == ms.value && ns.value % NanosPerMilli == 0
  {
    if ms.None? then None else Some(ms.value * NanosPerMilli)
  }

  /** The paging of a search: the limit defaults to 100 and is capped at
      1000, the offset defaults to 0. Neither is checked for sign. */
  function SearchPagination(q: TraceQueryFilters): (p: SpanSearch.Pagination)
    ensures p.limit <= MaxSearchLimit
    ensures q.limit.None? ==> p.limit == DefaultSearchLimit
    ensures q.limit.Some? && q.limit.value <= MaxSearchLimit ==> p.limit == q.limit.value
    ensures q.limit.Some? && q.limit.value > MaxSearchLimit ==> p.limit == MaxSearchLimit
    ensures p.offset == if q.offset.Some? then q.offset.value else 0
  {
    SpanSearch.Pagination(Min(q.limit.GetOr(DefaultSearchLimit), MaxSearchLimit), q.offset.GetOr(0))
  }

  /** The store's filters for a request whose status has been read. */
  function SearchFilters(q: TraceQueryFilters, status: Option<SpanStatusCode>): (f: SpanSearch.TraceFilters)
    ensures f.serviceName == q.serviceName && f.spanName == q.spanName && f.status == status
    ensures f.startTime == q.startTime && f.endTime == q.endTime
    ensures f.minDurationNs == MillisToNanos(q.minDurationMs) && f.maxDurationNs == MillisToNanos(q.maxDurationMs)
  {
    SpanSearch.TraceFilters(q.serviceName, q.spanName, status, q.startTime, q.endTime,
                            MillisToNanos(q.minDurationMs), MillisToNanos(q.maxDurationMs))
  }

  /** A duration in nanoseconds shown in milliseconds. */
  function NanosToMillis(ns: Option<int>): (ms: Option<real>)
    ensures ms.Some? <==> ns.Some?
    ensures ms.Some? ==> ms.value * NanosPerMilli as real == ns.value as real
  {
    if ns.None? then None else Some(ns.value as real / NanosPerMilli as real)
  }

  datatype TraceSummaryResponse = TraceSummaryResponse(
    traceId: string,
    rootSpanName: Option<string>,
    services: set<string>,
    spanCount: nat,
    errorCount: nat,
    startTime: int,
    endTime: Option<int>,
    durationMs: Option<real>)

  function SummaryResponse(t: SpanSearch.TraceSummary): (r: TraceSummaryResponse)
    ensures r.traceId == t.traceId && r.rootSpanName == t.rootSpanName && r.services == t.serviceNames
    ensures r.spanCount == t.spanCount && r.errorCount == t.errorCount
    ensures r.startTime == t.startTime && r.endTime == t.endTime
    ensures r.durationMs == NanosToMillis(t.durationNs)
  {
    TraceSummaryResponse(t.traceId, t.rootSpanName, t.serviceNames, t.spanCount, t.errorCount, t.startTime, t.endTime,
                         NanosToMillis(t.durationNs))
  }

  datatype TraceSearchResponse = TraceSearchResponse(traces: seq<TraceSummaryResponse>, total: nat)

  /** `search_traces`: access first, then the status filter is read, then the
      store is searched with durations in nanoseconds and the capped paging. */
  function SearchTraces(s: ProjectService.ProjectStore, rows: seq<SpanStore.SpanRow>, projectId: string, q: TraceQueryFilters,
                        userId: string): (r: Result<TraceSearchResponse, TracesError>)
    ensures VerifyTraceAccess(s, projectId, userId).Err? ==> r == Err(VerifyTraceAccess(s, projectId, userId).error)
    ensures VerifyTraceAccess(s, projectId, userId).Ok? && q.status.Some? && StatusFromStr(q.status.value).Err?
            ==> r == Err(InvalidSpanStatus(q.status.value))
    ensures r.Ok? ==>
      && VerifyTraceAccess(s, projectId, userId).Ok?
      && (q.status.Some? ==> StatusFromStr(q.status.value).Ok?)
      && var status := if q.status.Some? then Some(StatusFromStr(q.status.value).value) else None;
         var res := SpanSearch.SearchTraces(rows, projectId, SearchFilters(q, status), SearchPagination(q));
         && res.Ok?
         && r.value.total == res.value.total
         && |r.value.traces| == |res.value.traces|
         && forall k :: 0 <= k < |r.value.traces| ==> r.value.traces[k] == SummaryResponse(res.value.traces[k])
  {
    match VerifyTraceAccess(s, projectId, userId)
    case Err(e) => Err(e)
    case Ok(_) =>
      if q.status.Some? && StatusFromStr(q.status.value).Err? then Err(InvalidSpanStatus(q.status.value))
      else
        var status := if q.status.Some? then Some(StatusFromStr(q.status.value).value) else None;
        match SpanSearch.SearchTraces(rows, projectId, SearchFilters(q, status), SearchPagination(q))
        case Err(e) => Err(e)
        case Ok(res) =>
          Ok(TraceSearchResponse(seq(|res.traces|, k requires 0 <= k < |res.traces| => SummaryResponse(res.traces[k])),
                                 res.total))
  }

  /** A search never returns more than 1000 traces, and no more than 100 when
      the request names no limit. */
  lemma SearchPageIsCapped(s: ProjectService.ProjectStore, rows: seq<SpanStore.SpanRow>, projectId: string, q: TraceQueryFilters,
                           userId: string)
    requires SearchTraces(s, rows, projectId, q, userId).Ok?
    ensures |SearchTraces(s, rows, projectId, q, userId).value.traces| <= MaxSearchLimit
    ensures q.limit.None? ==> |SearchTraces(s, rows, projectId, q, userId).value.traces| <= DefaultSearchLimit
  {
  }

  /** A negative limit or offset is passed on unchecked and fails in the
      database. */
  lemma NegativePagingFails(s: ProjectService.ProjectStore, rows: seq<SpanStore.SpanRow>, projectId: string, q: TraceQueryFilters,
                            userId: string)
    requires VerifyTraceAccess(s, projectId, userId).Ok?
    requires q.status.None?
    requires (q.limit.Some? && q.limit.value < 0) || (q.offset.Some? && q.offset.value < 0)
    ensures SearchTraces(s, rows, projectId, q, userId) == Err(InternalError)
  {
  }

  // ---------------------------------------------------------------------------
  // reading one trace

  function SpanStarts(spans: seq<Span>): (ts: seq<int>)
    ensures |ts| == |spans| && forall k :: 0 <= k < |spans| ==> ts[k] == spans[k].startTime
  {
    seq(|spans|, k requires 0 <= k < |spans| => spans[k].startTime)
  }

  function SpanEnds(spans: seq<Span>): (ts: seq<Option<int>>)
    ensures |ts| == |spans| && forall k :: 0 <= k < |spans| ==> ts[k] == spans[k].endTime
  {
    seq(|spans|, k requires 0 <= k < |spans| => spans[k].endTime)
  }

  /** The span of a trace in nanoseconds: from the earliest start to the
      latest end, and nothing when no span has ended. */
  function TraceDurationNs(spans: seq<Span>): (d: Option<int>)
    requires |spans| > 0
    ensures d.None? <==> forall k :: 0 <= k < |spans| ==> spans[k].endTime.None?
  {
    var start := SpanSearch.Earliest(SpanStarts(spans));
    var end := SpanSearch.Latest(SpanEnds(spans));
    if end.None? then None else Some(end.value - start)
  }

  /** The duration runs from the start of a span `i` that no span precedes
      to the end of a span `j` that no ended span exceeds. */
  lemma TraceDurationIsExtent(spans: seq<Span>) returns (i: nat, j: nat)
    requires |spans| > 0 && TraceDurationNs(spans).Some?
    ensures i < |spans| && j < |spans| && spans[j].endTime.Some?
    ensures TraceDurationNs(spans).value == spans[j].endTime.value - spans[i].startTime
    ensures forall k :: 0 <= k < |spans| ==> spans[i].startTime <= spans[k].startTime
    ensures forall k :: 0 <= k < |spans| && spans[k].endTime.Some? ==> spans[k].endTime.value <= spans[j].endTime.value
  {
    var starts := SpanStarts(spans);
    var ends := SpanEnds(spans);
    var start := SpanSearch.Earliest(starts);
    var end := SpanSearch.Latest(ends);
    i :| 0 <= i < |starts| && starts[i] == start;
    j :| 0 <= j < |ends| && ends[j] == end;
    assert spans[i].startTime == start && spans[j].endTime == end;
  }

  /** The distinct service names of the spans; the order in which the source
      lists them is that of a hash set, so the model keeps a set. */
  function TraceServices(spans: seq<Span>): (names: set<string>)
    ensures forall n :: n in names <==> exists k :: 0 <= k < |spans| && spans[k].serviceName == Some(n)
  {
    set k | 0 <= k < |spans| && spans[k].serviceName.Some? :: spans[k].serviceName.value
  }

  datatype TraceResponse = TraceResponse(traceId: string, spans: seq<Span>, services: set<string>, durationMs: Option<real>)

  /** `get_trace`: access first, then the store's read of the trace; a trace
      with no spans is `TraceNotFound`. */
  function GetTrace(s: ProjectService.ProjectStore, rows: seq<SpanStore.SpanRow>, projectId: string, traceId: string,
                    userId: string, now: int): (r: Result<TraceResponse, TracesError>)
    ensures VerifyTraceAccess(s, projectId, userId).Err? ==> r == Err(VerifyTraceAccess(s, projectId, userId).error)
    ensures VerifyTraceAccess(s, projectId, userId).Ok? ==>
      var read := SpanStore.GetTrace(rows, projectId, traceId, now);
      && (read.Err? ==> r == Err(read.error))
      && (read == Ok([]) ==> r == Err(TraceNotFound))
      && (r.Ok? <==> read.Ok? && |read.value| > 0)
      && (r.Ok? ==>
            && r.value.traceId == traceId && r.value.spans == read.value
            && r.value.services == TraceServices(read.value)
            && r.value.durationMs == NanosToMillis(TraceDurationNs(read.value)))
  {
    match VerifyTraceAccess(s, projectId, userId)
    case Err(e) => Err(e)
    case Ok(_) =>
      match SpanStore.GetTrace(rows, projectId, traceId, now)
      case Err(e) => Err(e)
      case Ok(spans) =>
        if |spans| == 0 then Err(TraceNotFound)
        else Ok(TraceResponse(traceId, spans, TraceServices(spans), NanosToMillis(TraceDurationNs(spans))))
  }

  /** No row of the trace in the project means no trace rows. */
  lemma {:induction false} NoTraceRows(rows: seq<SpanStore.SpanRow>, projectId: string, traceId: string)
    requires forall k :: 0 <= k < |rows| ==> !(rows[k].projectId == projectId && rows[k].traceId == traceId)
    ensures SpanStore.TraceRows(rows, projectId, traceId) == []
    decreases |rows|
  {
    if |rows| > 0 {
      assert forall k :: 0 <= k < |rows| - 1 ==> rows[1..][k] == rows[k + 1];
      NoTraceRows(rows[1..], projectId, traceId);
    }
  }

  /** A trace id with no span in the project is reported as not found. */
  lemma UnknownTraceIsNotFound(s: ProjectService.ProjectStore, rows: seq<SpanStore.SpanRow>, projectId: string,
                               traceId: string, userId: string, now: int)
    requires VerifyTraceAccess(s, projectId, userId).Ok?
    requires forall k :: 0 <= k < |rows| ==> !(rows[k].projectId == projectId && rows[k].traceId == traceId)
    ensures GetTrace(s, rows, projectId, traceId, userId, now) == Err(TraceNotFound)
  {
    NoTraceRows(rows, projectId, traceId);
    var ordered := SpanStore.OrderedTraceRows(rows, projectId, traceId);
    assert |ordered| == |multiset(ordered)| == 0;
  }

  /** A trace with spans is read in full: it answers every span of the trace
      in the project, earliest first. */
  lemma ReadTraceHasItsSpans(s: ProjectService.ProjectStore, rows: seq<SpanStore.SpanRow>, projectId: string,
                             traceId: string, userId: string, now: int)
    requires GetTrace(s, rows, projectId, traceId, userId, now).Ok?
    ensures var t := GetTrace(s, rows, projectId, traceId, userId, now).value;
      && |t.spans| == |SpanStore.TraceRows(rows, projectId, traceId)| > 0
      && (forall k :: 0 <= k < |t.spans| ==> t.spans[k].traceId == traceId && t.spans[k].projectId == projectId)
      && (forall i, j :: 0 <= i < j < |t.spans| ==> t.spans[i].startTime <= t.spans[j].startTime)
  {
    SpanStore.GetTraceIsTheTrace(rows, projectId, traceId, now);
  }

  // ---------------------------------------------------------------------------
  // services

  /** `list_services`: access first, then the project's distinct service names. */
  function ListServices(s: ProjectService.ProjectStore, rows: seq<SpanStore.SpanRow>, projectId: string, userId: string)
    : (r: Result<set<string>, TracesError>)
    ensures r.Err? <==> VerifyTraceAccess(s, projectId, userId).Err?
    ensures r.Err? ==> r.error == VerifyTraceAccess(s, projectId, userId).error
    ensures r.Ok? ==> forall n :: n in r.value <==>
      exists k :: 0 <= k < |rows| && rows[k].projectId == projectId && rows[k].serviceName == Some(n)
  {
    match VerifyTraceAccess(s, projectId, userId)
    case Err(e) => Err(e)
    case Ok(_) => Ok(SpanStore.ServiceNames(rows, projectId))
  }
}
