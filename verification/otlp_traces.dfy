/** OTLP/JSON traces to the traces service's span inputs: one input per
    span, across every resource and scope, in order. The clock reading that
    stands in for a missing start time is a parameter. */
module OtlpTraces {
  import opened Wrappers
  import opened Json
  import opened OtlpCommon
  import opened SpanValues
  import TraceService

  datatype OtlpSpanEvent = OtlpSpanEvent(timeUnixNano: string, name: string, attributes: seq<KeyValue>)

  datatype OtlpSpanLink = OtlpSpanLink(traceId: string, spanId: string, traceState: string, attributes: seq<KeyValue>)

  datatype OtlpSpanStatus = OtlpSpanStatus(code: int, message: string)

  datatype OtlpSpan = OtlpSpan(
    traceId: string,
    spanId: string,
    traceState: string,
    parentSpanId: string,
    name: string,
    kind: int,
    startTimeUnixNano: string,
    endTimeUnixNano: string,
    attributes: seq<KeyValue>,
    events: seq<OtlpSpanEvent>,
    links: seq<OtlpSpanLink>,
    status: Option<OtlpSpanStatus>)

  datatype ScopeSpans = ScopeSpans(spans: seq<OtlpSpan>)

  datatype ResourceSpans = ResourceSpans(resource: Option<Resource>, scopeSpans: seq<ScopeSpans>)

  datatype ExportTraceServiceRequest = ExportTraceServiceRequest(resourceSpans: seq<ResourceSpans>)

  // ---------------------------------------------------------------------------
  // kind and status codes

  /** The OTLP enum number of each kind: 1 internal up to 5 consumer (0 is
      "unspecified"). */
  function KindNumber(k: SpanKind): int {
    match k
    case Internal => 1
    case Server => 2
    case Client => 3
    case Producer => 4
    case Consumer => 5
  }

  /** The OTLP enum number of each status code. */
  function CodeNumber(c: SpanStatusCode): int {
    match c
    case StatusUnset => 0
    case StatusOk => 1
    case StatusError => 2
  }

  /** `OtlpSpan::kind_to_string`: any number that names no kind reads as
      internal, so the result always parses. */
  function KindToString(kind: int): (s: string)
    ensures KindFromStr(s).Ok?
  {
    var k := match kind
      case 2 => Server
      case 3 => Client
      case 4 => Producer
      case 5 => Consumer
      case _ => Internal;
    KindRoundTrip(k);
    KindName(k)
  }

  /** `SpanStatus::code_to_string`: any number that names no code reads as
      unset, so the result always parses. */
  function CodeToString(code: int): (s: string)
    ensures StatusFromStr(s).Ok?
  {
    var c := match code
      case 1 => StatusOk
      case 2 => StatusError
      case _ => StatusUnset;
    StatusRoundTrip(c);
    StatusName(c)
  }

  /** The kind's number reads back as that kind, and every other number as
      internal. */
  lemma KindNumbersRoundTrip(k: SpanKind, n: int)
    ensures KindFromStr(KindToString(KindNumber(k))) == Ok(k)
    ensures !(1 <= n <= 5) ==> KindFromStr(KindToString(n)) == Ok(Internal)
  {
    KindRoundTrip(k);
    KindRoundTrip(Internal);
  }

  /** The code's number reads back as that code, and every other number as
      unset. */
  lemma CodeNumbersRoundTrip(c: SpanStatusCode, n: int)
    ensures StatusFromStr(CodeToString(CodeNumber(c))) == Ok(c)
    ensures !(0 <= n <= 2) ==> StatusFromStr(CodeToString(n)) == Ok(StatusUnset)
  {
    StatusRoundTrip(c);
    StatusRoundTrip(StatusUnset);
  }

  // ---------------------------------------------------------------------------
  // events and links

  /** An event survives only with a timestamp that parses. */
  function ConvertEvent(e: OtlpSpanEvent): (r: Option<SpanEvent>)
    ensures r.Some? <==> ParseNanoTimestamp(e.timeUnixNano).Some?
    ensures r.Some? ==> r.value == SpanEvent(e.name, ParseNanoTimestamp(e.timeUnixNano).value, AttributesToJson(e.attributes))
  {
    var ts := ParseNanoTimestamp(e.timeUnixNano);
    if ts.None? then None else Some(SpanEvent(e.name, ts.value, AttributesToJson(e.attributes)))
  }

  /** The `filter_map` over the events. */
  function ConvertEvents(events: seq<OtlpSpanEvent>): seq<SpanEvent> {
    FilterMap(events, ConvertEvent)
  }

  /** Events with bad timestamps are dropped, never the span: nothing is
      dropped exactly when every timestamp parses, and then every event is
      converted in place. */
  lemma AllEventsKeptIffAllParse(events: seq<OtlpSpanEvent>)
    ensures |ConvertEvents(events)| == |events| <==>
      forall i :: 0 <= i < |events| ==> ParseNanoTimestamp(events[i].timeUnixNano).Some?
    ensures |ConvertEvents(events)| == |events| ==>
      forall i :: 0 <= i < |events| ==> ConvertEvents(events)[i] == ConvertEvent(events[i]).value
  {
    FilterMapKeepsAllIffAllPresent(events, ConvertEvent);
  }

  /** The events of two lists are those of each, in order; a single event
      is kept, converted, exactly when its timestamp parses. */
  lemma EventsDistribute(a: seq<OtlpSpanEvent>, b: seq<OtlpSpanEvent>, e: OtlpSpanEvent)
    ensures ConvertEvents(a + b) == ConvertEvents(a) + ConvertEvents(b)
    ensures ConvertEvents([e]) == if ParseNanoTimestamp(e.timeUnixNano).Some? then [ConvertEvent(e).value] else []
  {
    FilterMapAppend(a, b, ConvertEvent);
    FilterMapOfOne(e, ConvertEvent);
  }

  function ConvertLink(l: OtlpSpanLink): SpanLink {
    SpanLink(l.traceId, l.spanId, AttributesToJson(l.attributes))
  }

  /** Links are all kept, in order; the trace state is dropped. */
  function ConvertLinks(links: seq<OtlpSpanLink>): (xs: seq<SpanLink>)
    ensures |xs| == |links|
    ensures forall i :: 0 <= i < |links| ==>
      xs[i].traceId == links[i].traceId && xs[i].spanId == links[i].spanId
      && xs[i].attributes == AttributesToJson(links[i].attributes)
  {
    seq(|links|, i requires 0 <= i < |links| => ConvertLink(links[i]))
  }

  // ---------------------------------------------------------------------------
  // one span

  /** The resource's attributes as JSON, or an empty object without one. */
  function ResourceAttributes(resource: Option<Resource>): (j: Json)
    ensures j.JObject?
    ensures resource.None? ==> j.fields == map[]
    ensures resource.Some? ==> j == AttributesToJson(resource.value.attributes)
  {
    if resource.Some? then AttributesToJson(resource.value.attributes) else JObject(map[])
  }

  /** The status message is kept only when there is a status and its
      message is not empty. */
  function StatusMessage(status: Option<OtlpSpanStatus>): (m: Option<string>)
    ensures m.Some? <==> status.Some? && status.value.message != ""
    ensures m.Some? ==> m.value == status.value.message
  {
    if status.Some? && status.value.message != "" then Some(status.value.message) else None
  }

  /** One span of a resource. */
  function ConvertOtlpSpan(resource: Option<Resource>, span: OtlpSpan, now: int): (input: TraceService.SpanInput)
    ensures input.traceId == span.traceId && input.spanId == span.spanId && input.name == span.name
    ensures input.parentSpanId.None? <==> span.parentSpanId == ""
    ensures input.parentSpanId.Some? ==> input.parentSpanId.value == span.parentSpanId
    ensures input.kind == Some(KindToString(span.kind))
    ensures input.startTime == ParseNanoTimestamp(span.startTimeUnixNano).GetOr(now)
    ensures input.endTime == ParseNanoTimestamp(span.endTimeUnixNano)
    ensures input.status.Some? <==> span.status.Some?
    ensures input.status.Some? ==> input.status.value == CodeToString(span.status.value.code)
    ensures input.statusMessage == StatusMessage(span.status)
    ensures input.serviceName == (if resource.Some? then ServiceName(resource.value) else None)
    ensures input.serviceVersion == (if resource.Some? then ServiceVersion(resource.value) else None)
    ensures input.resourceAttributes == ResourceAttributes(resource)
    ensures input.attributes == AttributesToJson(span.attributes)
    ensures input.events == ConvertEvents(span.events) && input.links == ConvertLinks(span.links)
  {
    TraceService.SpanInput(
      span.traceId,
      span.spanId,
      NonEmpty(span.parentSpanId),
      span.name,
      Some(KindToString(span.kind)),
      ParseNanoTimestamp(span.startTimeUnixNano).GetOr(now),
      ParseNanoTimestamp(span.endTimeUnixNano),
      if span.status.Some? then Some(CodeToString(span.status.value.code)) else None,
      StatusMessage(span.status),
      if resource.Some? then ServiceName(resource.value) else None,
      if resource.Some? then ServiceVersion(resource.value) else None,
      ResourceAttributes(resource),
      AttributesToJson(span.attributes),
      ConvertEvents(span.events),
      ConvertLinks(span.links))
  }

  /** Each kind number reads as the kind it names, internal for any other. */
  lemma KindOfNumber(n: int)
    ensures KindFromStr(KindToString(n)).Ok?
    ensures 1 <= n <= 5 ==> KindNumber(KindFromStr(KindToString(n)).value) == n
    ensures !(1 <= n <= 5) ==> KindFromStr(KindToString(n)).value == Internal
  {
    var k: SpanKind := match n
      case 2 => Server
      case 3 => Client
      case 4 => Producer
      case 5 => Consumer
      case _ => Internal;
    KindNumbersRoundTrip(k, n);
  }

  /** Each code number reads as the code it names, unset for any other. */
  lemma CodeOfNumber(n: int)
    ensures StatusFromStr(CodeToString(n)).Ok?
    ensures 0 <= n <= 2 ==> CodeNumber(StatusFromStr(CodeToString(n)).value) == n
    ensures !(0 <= n <= 2) ==> StatusFromStr(CodeToString(n)).value == StatusUnset
  {
    var c: SpanStatusCode := match n
      case 1 => StatusOk
      case 2 => StatusError
      case _ => StatusUnset;
    CodeNumbersRoundTrip(c, n);
  }

  /** A converted span is always accepted by ingestion: its kind is the one
      its number names (internal for any other number) and its status the
      one its code names (unset without a status or for any other code). */
  lemma ConvertedSpanIsAccepted(resource: Option<Resource>, span: OtlpSpan, now: int, projectId: string, id: string, received: int)
    ensures var r := TraceService.ConvertSpan(projectId, ConvertOtlpSpan(resource, span, now), id, received);
      && r.Ok?
      && (1 <= span.kind <= 5 ==> KindNumber(r.value.kind) == span.kind)
      && (!(1 <= span.kind <= 5) ==> r.value.kind == Internal)
      && (span.status.Some? && 0 <= span.status.value.code <= 2 ==> CodeNumber(r.value.status) == span.status.value.code)
      && (span.status.None? || !(0 <= span.status.value.code <= 2) ==> r.value.status == StatusUnset)
  {
    var input := ConvertOtlpSpan(resource, span, now);
    KindOfNumber(span.kind);
    assert TraceService.InputKind(input.kind) == KindFromStr(KindToString(span.kind));
    if span.status.Some? {
      CodeOfNumber(span.status.value.code);
      assert TraceService.InputStatus(input.status) == StatusFromStr(CodeToString(span.status.value.code));
    } else {
      assert TraceService.InputStatus(input.status) == Ok(StatusUnset);
    }
  }

  // ---------------------------------------------------------------------------
  // the request

  function ScopeInputs(resource: Option<Resource>, scope: ScopeSpans, now: int): (xs: seq<TraceService.SpanInput>)
    ensures |xs| == |scope.spans|
    ensures forall c :: 0 <= c < |xs| ==> xs[c] == ConvertOtlpSpan(resource, scope.spans[c], now)
  {
    seq(|scope.spans|, c requires 0 <= c < |scope.spans| => ConvertOtlpSpan(resource, scope.spans[c], now))
  }

  function ResourceInputLists(rs: ResourceSpans, now: int): (xss: seq<seq<TraceService.SpanInput>>)
    ensures |xss| == |rs.scopeSpans|
    ensures forall b :: 0 <= b < |xss| ==> xss[b] == ScopeInputs(rs.resource, rs.scopeSpans[b], now)
  {
    seq(|rs.scopeSpans|, b requires 0 <= b < |rs.scopeSpans| => ScopeInputs(rs.resource, rs.scopeSpans[b], now))
  }

  function RequestInputLists(req: ExportTraceServiceRequest, now: int): (xss: seq<seq<TraceService.SpanInput>>)
    ensures |xss| == |req.resourceSpans|
    ensures forall a :: 0 <= a < |xss| ==> xss[a] == Flatten(ResourceInputLists(req.resourceSpans[a], now))
  {
    seq(|req.resourceSpans|, a requires 0 <= a < |req.resourceSpans| => Flatten(ResourceInputLists(req.resourceSpans[a], now)))
  }

  /** The input is the conversion of some span of the scope. */
  predicate FromScopeSpan(resource: Option<Resource>, scope: ScopeSpans, now: int, x: TraceService.SpanInput) {
    exists c :: 0 <= c < |scope.spans| && x == ConvertOtlpSpan(resource, scope.spans[c], now)
  }

  /** The input is the conversion of some span of the resource. */
  predicate FromResourceSpan(rs: ResourceSpans, now: int, x: TraceService.SpanInput) {
    exists b :: 0 <= b < |rs.scopeSpans| && FromScopeSpan(rs.resource, rs.scopeSpans[b], now, x)
  }

  /** The input is the conversion of some span of the request. */
  predicate FromSomeSpan(req: ExportTraceServiceRequest, now: int, x: TraceService.SpanInput) {
    exists a :: 0 <= a < |req.resourceSpans| && FromResourceSpan(req.resourceSpans[a], now, x)
  }

  lemma ScopeInputMembers(resource: Option<Resource>, scope: ScopeSpans, now: int)
    ensures forall x :: x in ScopeInputs(resource, scope, now) <==> FromScopeSpan(resource, scope, now, x)
  {
    var xs := ScopeInputs(resource, scope, now);
    forall x | FromScopeSpan(resource, scope, now, x) ensures x in xs {
      var c :| 0 <= c < |scope.spans| && x == ConvertOtlpSpan(resource, scope.spans[c], now);
      assert x == xs[c];
    }
  }

  lemma ResourceInputMembers(rs: ResourceSpans, now: int)
    ensures forall x :: x in Flatten(ResourceInputLists(rs, now)) <==> FromResourceSpan(rs, now, x)
  {
    var xss := ResourceInputLists(rs, now);
    FlattenMembers(xss);
    forall b | 0 <= b < |xss|
      ensures forall x :: x in xss[b] <==> FromScopeSpan(rs.resource, rs.scopeSpans[b], now, x)
    {
      ScopeInputMembers(rs.resource, rs.scopeSpans[b], now);
    }
  }

  lemma RequestInputMembers(req: ExportTraceServiceRequest, now: int)
    ensures forall x :: x in Flatten(RequestInputLists(req, now)) <==> FromSomeSpan(req, now, x)
  {
    var outer := RequestInputLists(req, now);
    FlattenMembers(outer);
    forall a | 0 <= a < |outer|
      ensures forall x :: x in outer[a] <==> FromResourceSpan(req.resourceSpans[a], now, x)
    {
      ResourceInputMembers(req.resourceSpans[a], now);
    }
  }

  /** `convert_otlp_traces`: every input converts a span of the request, and
      every span's conversion is among the inputs. */
  function ConvertOtlpTraces(req: ExportTraceServiceRequest, now: int): (r: seq<TraceService.SpanInput>)
    ensures forall x :: x in r <==> FromSomeSpan(req, now, x)
  {
    RequestInputMembers(req, now);
    Flatten(RequestInputLists(req, now))
  }

  /** Every span gives one input, at the position that follows all the
      spans of the earlier resources and, within its resource, of the
      earlier scopes; the input carries its own resource's service. */
  lemma OneInputPerSpanInOrder(req: ExportTraceServiceRequest, now: int, a: nat, b: nat, c: nat)
    requires a < |req.resourceSpans| && b < |req.resourceSpans[a].scopeSpans|
    requires c < |req.resourceSpans[a].scopeSpans[b].spans|
    ensures var outer := RequestInputLists(req, now);
      var inner := ResourceInputLists(req.resourceSpans[a], now);
      var pos := Offset(outer, a) + Offset(inner, b) + c;
      && pos < |ConvertOtlpTraces(req, now)|
      && ConvertOtlpTraces(req, now)[pos]
         == ConvertOtlpSpan(req.resourceSpans[a].resource, req.resourceSpans[a].scopeSpans[b].spans[c], now)
    ensures |ConvertOtlpTraces(req, now)| == Offset(RequestInputLists(req, now), |req.resourceSpans|)
  {
    var outer := RequestInputLists(req, now);
    var rs := req.resourceSpans[a];
    var inner := ResourceInputLists(rs, now);
    var x := ConvertOtlpSpan(rs.resource, rs.scopeSpans[b].spans[c], now);
    assert inner[b] == ScopeInputs(rs.resource, rs.scopeSpans[b], now);
    assert inner[b][c] == x;
    NestedFlattenIndex(outer, inner, a, b, c);
  }

  /** A server span with status code 1 under a resource naming its service
      reads as kind "server", status "ok", with that service. */
  lemma SimpleSpanConverts(now: int)
    ensures var resource := Resource([KeyValue("service.name", StringValue("test-service"))]);
      var span := OtlpSpan("abc123", "def456", "", "", "test-operation", 2, "1704067200000000000",
                           "1704067201000000000", [], [], [], Some(OtlpSpanStatus(1, "")));
      var input := ConvertOtlpSpan(Some(resource), span, now);
      && input.traceId == "abc123" && input.spanId == "def456" && input.name == "test-operation"
      && input.kind == Some("server") && input.status == Some("ok") && input.serviceName == Some("test-service")
      && input.parentSpanId.None? && input.statusMessage.None?
  {
    var resource := Resource([KeyValue("service.name", StringValue("test-service"))]);
    assert FirstWithKey(resource.attributes, "service.name") == Some(0);
  }
}
