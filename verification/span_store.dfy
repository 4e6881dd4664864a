/** The spans table: the row a span is written as, reading rows back, the batch
    insert that skips rows already present, the spans of one trace, the
    service names of a project, and deletion before a cutoff. The table is a
    sequence of rows in storage order. */
module SpanStore {
  import opened Wrappers
  import opened Json
  import opened SpanValues
  import opened Ordering

  /** A row of the spans table. Kind and status are stored as text. */
  datatype SpanRow = SpanRow(
    id: string,
    projectId: string,
    traceId: string,
    spanId: string,
    parentSpanId: Option<string>,
    name: string,
    kind: string,
    startTime: int,
    endTime: Option<int>,
    durationNs: Option<int>,
    status: string,
    statusMessage: Option<string>,
    receivedAt: int,
    serviceName: Option<string>,
    serviceVersion: Option<string>,
    resourceAttributes: Json,
    attributes: Json,
    events: seq<SpanEvent>,
    links: seq<SpanLink>)

  /** The values the insert binds for a span: kind and status by name, and the
      reception time of the insert itself rather than the span's. */
  function RowOf(s: Span, now: int): (row: SpanRow)
    ensures row.kind == KindName(s.kind) && row.status == StatusName(s.status) && row.receivedAt == now
    ensures row.id == s.id && row.projectId == s.projectId && row.traceId == s.traceId && row.spanId == s.spanId
    ensures row.startTime == s.startTime && row.endTime == s.endTime && row.durationNs == s.durationNs
    ensures row.parentSpanId == s.parentSpanId && row.name == s.name && row.serviceName == s.serviceName
  {
    SpanRow(s.id, s.projectId, s.traceId, s.spanId, s.parentSpanId, s.name, KindName(s.kind), s.startTime, s.endTime,
            s.durationNs, StatusName(s.status), s.statusMessage, now, s.serviceName, s.serviceVersion,
            s.resourceAttributes, s.attributes, s.events, s.links)
  }

  /** `row_to_span`: kind, then status, are parsed; the span is rebuilt with
      `Span::new`, so its duration is derived again and it is received now. */
  function RowToSpan(row: SpanRow, now: int): (r: Result<Span, TracesError>)
    ensures r.Ok? <==> KindFromStr(row.kind).Ok? && StatusFromStr(row.status).Ok?
    ensures KindFromStr(row.kind).Err? ==> r == Err(InvalidSpanKind(row.kind))
    ensures KindFromStr(row.kind).Ok? && StatusFromStr(row.status).Err? ==> r == Err(InvalidSpanStatus(row.status))
    ensures r.Ok? ==> ConsistentDuration(r.value) && r.value.receivedAt == now
    ensures r.Ok? ==> r.value.startTime == row.startTime && r.value.endTime == row.endTime
                      && r.value.serviceName == row.serviceName && r.value.traceId == row.traceId
                      && r.value.projectId == row.projectId
  {
    match KindFromStr(row.kind)
    case Err(e) => Err(e)
    case Ok(kind) =>
      match StatusFromStr(row.status)
      case Err(e) => Err(e)
      case Ok(status) =>
        Ok(NewSpan(row.id, row.projectId, row.traceId, row.spanId, row.parentSpanId, row.name, kind, row.startTime,
                   row.endTime, status, row.statusMessage, row.serviceName, row.serviceVersion,
                   row.resourceAttributes, row.attributes, row.events, row.links, now))
  }

  /** A span written and read back is the same span, except that it is
      received at the time of the read. */
  lemma ReadBackResetsReceivedAt(s: Span, written: int, now: int)
    requires ConsistentDuration(s)
    ensures RowToSpan(RowOf(s, written), now) == Ok(s.(receivedAt := now))
  {
    KindRoundTrip(s.kind);
    StatusRoundTrip(s.status);
  }

  // ---------------------------------------------------------------------------
  // save_batch

  /** The conflict key of the table. */
  datatype RowKey = RowKey(projectId: string, startTime: int, id: string)

  function KeyOf(row: SpanRow): RowKey {
    RowKey(row.projectId, row.startTime, row.id)
  }

  function Keys(rows: seq<SpanRow>): set<RowKey> {
    set k | 0 <= k < |rows| :: KeyOf(rows[k])
  }

  /** Inserts row by row with `ON CONFLICT DO NOTHING`: a row whose key is
      already present, in the table or earlier in the batch, is skipped. */
  function InsertAll(rows: seq<SpanRow>, batch: seq<SpanRow>): (r: seq<SpanRow>)
    ensures |rows| <= |r| <= |rows| + |batch|
    ensures r[..|rows|] == rows
    ensures Keys(r) == Keys(rows) + Keys(batch)
    ensures forall k :: |rows| <= k < |r| ==> r[k] in batch
    decreases |batch|
  {
    if |batch| == 0 then rows
    else
      var next := if KeyOf(batch[0]) in Keys(rows) then rows else rows + [batch[0]];
      KeysAppend(rows, batch[0]);
      assert Keys(batch) == {KeyOf(batch[0])} + Keys(batch[1..]) by {
        forall x | x in Keys(batch) ensures x in {KeyOf(batch[0])} + Keys(batch[1..]) {
          var k :| 0 <= k < |batch| && x == KeyOf(batch[k]);
          if k > 0 { assert batch[1..][k - 1] == batch[k]; }
        }
        assert forall k :: 0 <= k < |batch| - 1 ==> batch[1..][k] == batch[k + 1];
      }
      var r := InsertAll(next, batch[1..]);
      assert r[..|rows|] == r[..|next|][..|rows|];
      assert forall k :: |next| <= k < |r| ==> r[k] in batch;
      r
  }

  lemma KeysAppend(rows: seq<SpanRow>, row: SpanRow)
    ensures Keys(rows + [row]) == Keys(rows) + {KeyOf(row)}
  {
    var r := rows + [row];
    assert KeyOf(r[|rows|]) == KeyOf(row);
    forall x | x in Keys(r) ensures x in Keys(rows) + {KeyOf(row)} {
      var k :| 0 <= k < |r| && x == KeyOf(r[k]);
      if k < |rows| { assert r[k] == rows[k]; }
    }
    forall x | x in Keys(rows) ensures x in Keys(r) {
      var k :| 0 <= k < |rows| && x == KeyOf(rows[k]);
      assert r[k] == rows[k];
    }
  }

  function RowsOf(spans: seq<Span>, now: int): (rows: seq<SpanRow>)
    ensures |rows| == |spans| && forall k :: 0 <= k < |spans| ==> rows[k] == RowOf(spans[k], now)
  {
    seq(|spans|, k requires 0 <= k < |spans| => RowOf(spans[k], now))
  }

  datatype SaveOutcome = SaveOutcome(rows: seq<SpanRow>, result: Result<nat, TracesError>)

  /** `save_batch`: one transaction; any failed insert or a failed commit
      leaves the table as it was. The count returned is the number of spans
      submitted, whether or not their rows were skipped. */
  function SaveBatch(rows: seq<SpanRow>, spans: seq<Span>, now: int, inserts: Span -> bool, commits: bool): (o: SaveOutcome)
    ensures spans == [] ==> o == SaveOutcome(rows, Ok(0))
    ensures o.result.Ok? <==> spans == [] || ((forall k :: 0 <= k < |spans| ==> inserts(spans[k])) && commits)
    ensures o.result.Ok? ==> o.result.value == |spans| && o.rows == InsertAll(rows, RowsOf(spans, now))
    ensures o.result.Err? ==> o.result.error == InternalError && o.rows == rows
  {
    if spans == [] then SaveOutcome(rows, Ok(0))
    else if exists k :: 0 <= k < |spans| && !inserts(spans[k]) then SaveOutcome(rows, Err(InternalError))
    else if !commits then SaveOutcome(rows, Err(InternalError))
    else SaveOutcome(InsertAll(rows, RowsOf(spans, now)), Ok(|spans|))
  }

  /** A batch whose rows are all present already adds nothing, yet is
      reported as saved in full. */
  lemma ResavedBatchReportsFullCount(rows: seq<SpanRow>, spans: seq<Span>, now: int, inserts: Span -> bool)
    requires spans != [] && forall k :: 0 <= k < |spans| ==> inserts(spans[k])
    requires Keys(RowsOf(spans, now)) <= Keys(rows)
    ensures SaveBatch(rows, spans, now, inserts, true).result == Ok(|spans|)
    ensures |SaveBatch(rows, spans, now, inserts, true).rows| == |rows|
  {
    NothingNewInserted(rows, RowsOf(spans, now));
  }

  lemma {:induction false} NothingNewInserted(rows: seq<SpanRow>, batch: seq<SpanRow>)
    requires Keys(batch) <= Keys(rows)
    ensures InsertAll(rows, batch) == rows
    decreases |batch|
  {
    if |batch| > 0 {
      assert KeyOf(batch[0]) in Keys(batch);
      assert Keys(batch[1..]) <= Keys(batch) by {
        forall x | x in Keys(batch[1..]) ensures x in Keys(batch) {
          var k :| 0 <= k < |batch[1..]| && x == KeyOf(batch[1..][k]);
          assert batch[1..][k] == batch[k + 1];
        }
      }
      NothingNewInserted(rows, batch[1..]);
    }
  }

  // ---------------------------------------------------------------------------
  // reading a trace

  function StartOf(row: SpanRow): int {
    row.startTime
  }

  // ---------------------------------------------------------------------------
  // get_trace, get_service_names, delete_before

  function TraceRows(rows: seq<SpanRow>, projectId: string, traceId: string): (r: seq<SpanRow>)
    ensures forall x :: x in r <==> x in rows && x.projectId == projectId && x.traceId == traceId
    ensures multiset(r) <= multiset(rows)
    decreases |rows|
  {
    if |rows| == 0 then []
    else
      assert rows == [rows[0]] + rows[1..];
      (if rows[0].projectId == projectId && rows[0].traceId == traceId then [rows[0]] else [])
        + TraceRows(rows[1..], projectId, traceId)
  }

  /** The trace's rows, earliest first (`ORDER BY start_time ASC`). */
  function OrderedTraceRows(rows: seq<SpanRow>, projectId: string, traceId: string): (r: seq<SpanRow>)
    ensures Ascending(r, StartOf)
    ensures multiset(r) == multiset(TraceRows(rows, projectId, traceId))
  {
    SortBy(TraceRows(rows, projectId, traceId), StartOf)
  }

  /** `get_trace`: the trace's rows in start-time order, each read back; the
      first row that does not read back aborts the read. */
  function GetTrace(rows: seq<SpanRow>, projectId: string, traceId: string, now: int): (r: Result<seq<Span>, TracesError>)
    ensures r.Ok? <==> forall k :: 0 <= k < |OrderedTraceRows(rows, projectId, traceId)|
                          ==> RowToSpan(OrderedTraceRows(rows, projectId, traceId)[k], now).Ok?
    ensures r.Ok? ==> |r.value| == |OrderedTraceRows(rows, projectId, traceId)|
    ensures r.Ok? ==> forall k :: 0 <= k < |r.value|
                          ==> r.value[k] == RowToSpan(OrderedTraceRows(rows, projectId, traceId)[k], now).value
  {
    CollectAll(OrderedTraceRows(rows, projectId, traceId), (row: SpanRow) => RowToSpan(row, now))
  }

  /** Every span of a trace read back by `GetTrace` belongs to the trace, and
      the spans come earliest first. */
  lemma GetTraceIsTheTrace(rows: seq<SpanRow>, projectId: string, traceId: string, now: int)
    requires GetTrace(rows, projectId, traceId, now).Ok?
    ensures var spans := GetTrace(rows, projectId, traceId, now).value;
      && (forall k :: 0 <= k < |spans| ==> spans[k].projectId == projectId && spans[k].traceId == traceId)
      && (forall i, j :: 0 <= i < j < |spans| ==> spans[i].startTime <= spans[j].startTime)
      && |spans| == |TraceRows(rows, projectId, traceId)|
  {
    var ordered := OrderedTraceRows(rows, projectId, traceId);
    var spans := GetTrace(rows, projectId, traceId, now).value;
    forall k | 0 <= k < |spans| ensures spans[k].projectId == projectId && spans[k].traceId == traceId {
      assert ordered[k] in multiset(ordered);
    }
    assert |ordered| == |multiset(ordered)|;
  }

  /** `get_service_names`: the distinct service names of the project's spans. */
  function ServiceNames(rows: seq<SpanRow>, projectId: string): (names: set<string>)
    ensures forall n :: n in names <==> exists k :: 0 <= k < |rows| && rows[k].projectId == projectId && rows[k].serviceName == Some(n)
  {
    set k | 0 <= k < |rows| && rows[k].projectId == projectId && rows[k].serviceName.Some? :: rows[k].serviceName.value
  }

  /** `delete_before`: the project's rows that start before the cutoff are
      removed, every other row is kept in order; the count removed is returned. */
  function DeleteBefore(rows: seq<SpanRow>, projectId: string, before: int): (r: (seq<SpanRow>, nat))
    ensures forall x :: x in r.0 <==> x in rows && !(x.projectId == projectId && x.startTime < before)
    ensures r.1 == |rows| - |r.0|
    decreases |rows|
  {
    if |rows| == 0 then ([], 0)
    else
      var rest := DeleteBefore(rows[1..], projectId, before);
      assert rows == [rows[0]] + rows[1..];
      if rows[0].projectId == projectId && rows[0].startTime < before then (rest.0, rest.1 + 1)
      else ([rows[0]] + rest.0, rest.1)
  }
}
