/** The traces domain: span kinds and status codes, span events and links, and
    the span entity with its derived duration. Timestamps are nanoseconds since
    the epoch. */
module SpanValues {
  import opened Wrappers
  import opened Text
  import opened Json

  datatype TracesError =
    | InvalidSpanName
    | InvalidSpanKind(input: string)
    | InvalidSpanStatus(input: string)
    | InvalidTraceId
    | InvalidSpanId
    | TooManySpans(count: nat)
    | TooManyAttributes(count: nat)
    | TraceNotFound
    | ProjectNotFound
    | ProjectDeleted
    | NotOrgMember
    | NotAuthorized
    | InternalError

  // ---------------------------------------------------------------------------
  // span kinds

  datatype SpanKind = Internal | Server | Client | Producer | Consumer

  const DefaultKind: SpanKind := Internal

  function KindName(k: SpanKind): string {
    match k
    case Internal => "internal"
    case Server => "server"
    case Client => "client"
    case Producer => "producer"
    case Consumer => "consumer"
  }

  /** `SpanKind::from_str`: the five names, in any case. */
  function KindFromStr(s: string): (r: Result<SpanKind, TracesError>)
    ensures r.Ok? <==> ToLower(s) in {"internal", "server", "client", "producer", "consumer"}
    ensures r.Ok? ==> KindName(r.value) == ToLower(s)
    ensures r.Err? ==> r.error == InvalidSpanKind(s)
  {
    match ToLower(s)
    case "internal" => Ok(Internal)
    case "server" => Ok(Server)
    case "client" => Ok(Client)
    case "producer" => Ok(Producer)
    case "consumer" => Ok(Consumer)
    case _ => Err(InvalidSpanKind(s))
  }

  lemma KindRoundTrip(k: SpanKind)
    ensures KindFromStr(KindName(k)) == Ok(k)
  {
    LowerOfLowerKeyword(KindName(k));
  }

  // ---------------------------------------------------------------------------
  // status codes

  /** `SpanStatusCode`; the constructors carry a prefix so that they do not
      collide with the `Ok` of `Result`. */
  datatype SpanStatusCode = StatusUnset | StatusOk | StatusError

  const DefaultStatus: SpanStatusCode := StatusUnset

  function StatusName(c: SpanStatusCode): string {
    match c
    case StatusUnset => "unset"
    case StatusOk => "ok"
    case StatusError => "error"
  }

  /** `SpanStatusCode::from_str`: the three names, in any case. */
  function StatusFromStr(s: string): (r: Result<SpanStatusCode, TracesError>)
    ensures r.Ok? <==> ToLower(s) in {"unset", "ok", "error"}
    ensures r.Ok? ==> StatusName(r.value) == ToLower(s)
    ensures r.Err? ==> r.error == InvalidSpanStatus(s)
  {
    match ToLower(s)
    case "unset" => Ok(StatusUnset)
    case "ok" => Ok(StatusOk)
    case "error" => Ok(StatusError)
    case _ => Err(InvalidSpanStatus(s))
  }

  lemma StatusRoundTrip(c: SpanStatusCode)
    ensures StatusFromStr(StatusName(c)) == Ok(c)
  {
    LowerOfLowerKeyword(StatusName(c));
  }

  /** The unit tests' vectors: a word outside the lists is refused, and so is
      an upper-case spelling of nothing. */
  lemma UnknownNamesRefused()
    ensures KindFromStr("invalid") == Err(InvalidSpanKind("invalid"))
    ensures StatusFromStr("invalid") == Err(InvalidSpanStatus("invalid"))
    ensures KindFromStr("SERVER") == Ok(Server)
  {
    assert ToLower("invalid") == "invalid";
    assert ToLower("SERVER") == "server";
  }

  // ---------------------------------------------------------------------------
  // events, links, limits

  datatype SpanEvent = SpanEvent(name: string, timestamp: int, attributes: Json)

  datatype SpanLink = SpanLink(traceId: string, spanId: string, attributes: Json)

  const MaxSpansPerTrace: nat := 500
  const MaxAttributesPerSpan: nat := 64

  // ---------------------------------------------------------------------------
  // the span

  datatype Span = Span(
    id: string,
    projectId: string,
    traceId: string,
    spanId: string,
    parentSpanId: Option<string>,
    name: string,
    kind: SpanKind,
    startTime: int,
    endTime: Option<int>,
    durationNs: Option<int>,
    status: SpanStatusCode,
    statusMessage: Option<string>,
    receivedAt: int,
    serviceName: Option<string>,
    serviceVersion: Option<string>,
    resourceAttributes: Json,
    attributes: Json,
    events: seq<SpanEvent>,
    links: seq<SpanLink>)

  /** The duration a span derives from its start and optional end: known
      exactly when the end is, and negative when the end precedes the start. */
  function DurationOf(startTime: int, endTime: Option<int>): (d: Option<int>)
    ensures d.Some? <==> endTime.Some?
    ensures d.Some? ==> startTime + d.value == endTime.value
  {
    match endTime
    case None => None
    case Some(e) => Some(e - startTime)
  }

  /** A span whose duration agrees with its start and end, as every span built
      by `NewSpan` does. */
  predicate ConsistentDuration(s: Span) {
    s.durationNs == DurationOf(s.startTime, s.endTime)
  }

  /** `Span::new`: the duration is derived, the reception time is now, every
      other field is kept as given. */
  function NewSpan(id: string, projectId: string, traceId: string, spanId: string, parentSpanId: Option<string>,
                   name: string, kind: SpanKind, startTime: int, endTime: Option<int>, status: SpanStatusCode,
                   statusMessage: Option<string>, serviceName: Option<string>, serviceVersion: Option<string>,
                   resourceAttributes: Json, attributes: Json, events: seq<SpanEvent>, links: seq<SpanLink>, now: int)
    : (s: Span)
    ensures ConsistentDuration(s) && s.receivedAt == now
    ensures s.durationNs.Some? <==> endTime.Some?
    ensures s.id == id && s.projectId == projectId && s.traceId == traceId && s.spanId == spanId
    ensures s.parentSpanId == parentSpanId && s.name == name && s.kind == kind && s.status == status
    ensures s.startTime == startTime && s.endTime == endTime && s.statusMessage == statusMessage
    ensures s.serviceName == serviceName && s.serviceVersion == serviceVersion
    ensures s.resourceAttributes == resourceAttributes && s.attributes == attributes
    ensures s.events == events && s.links == links
  {
    Span(id, projectId, traceId, spanId, parentSpanId, name, kind, startTime, endTime, DurationOf(startTime, endTime),
         status, statusMessage, now, serviceName, serviceVersion, resourceAttributes, attributes, events, links)
  }

  /** An end before the start is not refused: the span is built with a
      negative duration. */
  lemma EndBeforeStartGivesNegativeDuration(startTime: int, endTime: int, now: int)
    requires endTime < startTime
    ensures NewSpan("", "", "", "", None, "", DefaultKind, startTime, Some(endTime), DefaultStatus,
                    None, None, None, JNull, JNull, [], [], now).durationNs.value < 0
  {
  }

  predicate IsRoot(s: Span) {
    s.parentSpanId.None?
  }

  predicate HasError(s: Span) {
    s.status == StatusError
  }
}
