/** The log service: batch ingestion with its accept and reject accounting,
    query planning with its defaults and filter conversion, and the batched
    export loop. Projects and memberships come from the project store. The log
    table is given, for a filter and an order, as the sequence of rows it
    matches in that order; generated ids and the clock are parameters. */
module LogService {
  import opened Wrappers
  import opened Text
  import opened Json
  import opened LogValues
  import opened PresetValues
  import opened LogEntities
  import LogSql
  import OrgService
  import ProjectDomain
  import ProjectService

  /** `verify_project_access` of the log service: a missing project, then a
      deleted one, then a user outside the project's organisation. */
  function VerifyLogAccess(s: ProjectService.ProjectStore, projectId: string, userId: string): (r: Result<(), LogError>)
    ensures projectId !in s.projects ==> r == Err(ProjectNotFound)
    ensures projectId in s.projects && ProjectDomain.IsProjectDeleted(s.projects[projectId]) ==> r == Err(ProjectDeleted)
    ensures r.Ok? <==>
      && projectId in s.projects && !ProjectDomain.IsProjectDeleted(s.projects[projectId])
      && OrgService.IsMember(s.orgs, s.projects[projectId].organizationId, userId)
    ensures r.Err? ==> r.error in {ProjectNotFound, ProjectDeleted, NotOrgMember}
  {
    if projectId !in s.projects then Err(ProjectNotFound)
    else if ProjectDomain.IsProjectDeleted(s.projects[projectId]) then Err(ProjectDeleted)
    else if !OrgService.IsMember(s.orgs, s.projects[projectId].organizationId, userId) then Err(NotOrgMember)
    else Ok(())
  }

  // ---------------------------------------------------------------------------
  // ingestion

  datatype LogInput = LogInput(
    level: string,
    message: string,
    timestamp: Option<int>,
    source: Option<string>,
    metadata: Option<Json>,
    traceId: Option<string>,
    spanId: Option<string>)

  function OptionThen<T>(o: Option<T>, f: T -> Option<T>): Option<T> {
    if o.None? then None else f(o.value)
  }

  /** `validate_and_convert_log`: the level must parse, then the message must be
      non-empty; trace and span ids that are not valid identifiers are dropped
      rather than refused. */
  function ValidateAndConvert(projectId: string, input: LogInput, id: string, now: int): (r: Result<LogEntry, LogError>)
    ensures r.Ok? <==> LevelFromStr(input.level).Ok? && input.message != []
    ensures LevelFromStr(input.level).Err? ==> r == Err(InvalidLevel(input.level))
    ensures LevelFromStr(input.level).Ok? && input.message == [] ==> r == Err(InvalidMessage)
    ensures r.Ok? ==>
      && r.value == NewLogEntry(id, projectId, LevelFromStr(input.level).value, input.message, input.timestamp,
                                input.source, input.metadata,
                                OptionThen(input.traceId, NewTraceId), OptionThen(input.spanId, NewSpanId), now)
      && (r.value.traceId.Some? <==> input.traceId.Some? && 1 <= ByteLen(input.traceId.value) <= MaxIdBytes)
      && (r.value.spanId.Some? <==> input.spanId.Some? && 1 <= ByteLen(input.spanId.value) <= MaxIdBytes)
  {
    match LevelFromStr(input.level)
    case Err(e) => Err(e)
    case Ok(level) =>
      if input.message == [] then Err(InvalidMessage)
      else
        Ok(NewLogEntry(id, projectId, level, input.message, input.timestamp, input.source, input.metadata,
                       OptionThen(input.traceId, NewTraceId), OptionThen(input.spanId, NewSpanId), now))
  }

  /** One line of the ingest report: input `index` refused with `error`, or the
      batch write failing. */
  datatype IngestNote = LogRejected(index: nat, error: LogError) | BatchSaveFailed

  datatype IngestResponse = IngestResponse(accepted: nat, rejected: nat, errors: seq<IngestNote>)

  /** The validation outcome of every input, in order; input `i` gets id `newId(i)`. */
  function Checked(projectId: string, inputs: seq<LogInput>, newId: nat -> string, now: int): (rs: seq<Result<LogEntry, LogError>>)
    ensures |rs| == |inputs|
    ensures forall i :: 0 <= i < |inputs| ==> rs[i] == ValidateAndConvert(projectId, inputs[i], newId(i), now)
  {
    seq(|inputs|, i requires 0 <= i < |inputs| => ValidateAndConvert(projectId, inputs[i], newId(i), now))
  }

  /** The accepted entries, in input order. */
  function Accepted(rs: seq<Result<LogEntry, LogError>>): (es: seq<LogEntry>)
    ensures forall e :: e in es ==> Ok(e) in rs
    decreases |rs|
  {
    if |rs| == 0 then []
    else
      var prior := Accepted(rs[..|rs| - 1]);
      if rs[|rs| - 1].Ok? then prior + [rs[|rs| - 1].value] else prior
  }

  /** One note per refused input, carrying its position. */
  function Rejections(rs: seq<Result<LogEntry, LogError>>): (ns: seq<IngestNote>)
    ensures forall n :: n in ns ==> n.LogRejected? && n.index < |rs| && rs[n.index] == Err(n.error)
    decreases |rs|
  {
    if |rs| == 0 then []
    else
      var prior := Rejections(rs[..|rs| - 1]);
      if rs[|rs| - 1].Err? then prior + [LogRejected(|rs| - 1, rs[|rs| - 1].error)] else prior
  }

  /** Every input is either accepted or refused. */
  lemma {:induction false} EveryInputIsCounted(rs: seq<Result<LogEntry, LogError>>)
    ensures |Accepted(rs)| + |Rejections(rs)| == |rs|
    decreases |rs|
  {
    if |rs| > 0 {
      EveryInputIsCounted(rs[..|rs| - 1]);
    }
  }

  /** `save_batch` of the log table: nothing to do for an empty batch; otherwise
      the number of rows whose insert succeeded, or a failure when the
      transaction does not commit. */
  function SaveBatch(logs: seq<LogEntry>, inserts: LogEntry -> bool, commits: bool): (r: Result<nat, LogError>)
    ensures logs == [] ==> r == Ok(0)
    ensures r.Ok? ==> r.value <= |logs|
    ensures r.Err? <==> logs != [] && !commits
    ensures r.Ok? && (forall e :: e in logs ==> inserts(e)) ==> r.value == |logs|
  {
    if logs == [] then Ok(0)
    else if !commits then Err(InternalError)
    else Ok(CountInserted(logs, inserts))
  }

  function CountInserted(logs: seq<LogEntry>, inserts: LogEntry -> bool): (n: nat)
    ensures n <= |logs|
    ensures (forall e :: e in logs ==> inserts(e)) ==> n == |logs|
    decreases |logs|
  {
    if |logs| == 0 then 0
    else (if inserts(logs[0]) then 1 else 0) + CountInserted(logs[1..], inserts)
  }

  /** `ingest`: validates every input, saves the valid ones in one batch, and
      reports how many were stored and how many refused. A refused input adds a
      note with its position; a failed batch counts every valid input as refused
      too. */
  method Ingest(projectId: string, inputs: seq<LogInput>, newId: nat -> string, now: int,
                inserts: LogEntry -> bool, commits: bool) returns (resp: IngestResponse)
    ensures var rs := Checked(projectId, inputs, newId, now);
      var valid := Accepted(rs);
      var refused := Rejections(rs);
      && (valid == [] ==> resp == IngestResponse(0, |inputs|, refused))
      && (valid != [] && commits ==>
            resp == IngestResponse(SaveBatch(valid, inserts, true).value, |refused|, refused))
      && (valid != [] && !commits ==> resp == IngestResponse(0, |inputs|, refused + [BatchSaveFailed]))
    ensures resp.accepted + resp.rejected <= |inputs|
    ensures commits && (forall e :: inserts(e)) ==> resp.accepted + resp.rejected == |inputs|
  {
    var rs := Checked(projectId, inputs, newId, now);
    var valid: seq<LogEntry> := [];
    var errors: seq<IngestNote> := [];
    var rejected := 0;
    var i := 0;
    while i < |inputs|
      invariant 0 <= i <= |inputs|
      invariant valid == Accepted(rs[..i])
      invariant errors == Rejections(rs[..i])
      invariant rejected == |errors|
    {
      assert rs[..i + 1][..i] == rs[..i];
      match ValidateAndConvert(projectId, inputs[i], newId(i), now) {
        case Ok(entry) =>
          valid := valid + [entry];
        case Err(e) =>
          rejected := rejected + 1;
          errors := errors + [LogRejected(i, e)];
      }
      i := i + 1;
    }
    assert rs[..|inputs|] == rs;
    EveryInputIsCounted(rs);
    var accepted := 0;
    if valid != [] {
      match SaveBatch(valid, inserts, commits)
      case Ok(count) =>
        accepted := count;
      case Err(_) =>
        rejected := rejected + |valid|;
        errors := errors + [BatchSaveFailed];
    }
    resp := IngestResponse(accepted, rejected, errors);
  }

  // ---------------------------------------------------------------------------
  // queries

  datatype MetadataFilterInput = MetadataFilterInput(key: string, operator: string, value: Option<Json>)

  /** A metadata filter of a request: the operator must parse, then the filter
      must be well formed. */
  function ConvertMetadataFilter(input: MetadataFilterInput): (r: Result<MetadataFilter, LogError>)
    ensures OperatorFromStr(input.operator).Err? ==> r == Err(OperatorFromStr(input.operator).error)
    ensures r.Ok? <==> OperatorFromStr(input.operator).Ok?
                       && NewMetadataFilter(input.key, OperatorFromStr(input.operator).value, input.value).Ok?
    ensures r.Ok? ==> WellFormedFilter(r.value) && r.value.key == Trim(input.key)
  {
    match OperatorFromStr(input.operator)
    case Err(e) => Err(e)
    case Ok(op) => NewMetadataFilter(input.key, op, input.value)
  }

  datatype QueryFilters = QueryFilters(
    levels: Option<seq<string>>,
    startTime: Option<int>,
    endTime: Option<int>,
    source: Option<string>,
    search: Option<string>,
    traceId: Option<string>,
    metadataFilters: Option<seq<MetadataFilterInput>>)

  /** `convert_query_filters`: every level must parse and every metadata filter
      must convert; the first failure, levels first, is the error. The other
      filters pass through unchanged. */
  function ConvertQueryFilters(f: QueryFilters): (r: Result<LogFilters, LogError>)
    ensures r.Ok? <==>
      && (f.levels.Some? ==> forall k :: 0 <= k < |f.levels.value| ==> LevelFromStr(f.levels.value[k]).Ok?)
      && (f.metadataFilters.Some? ==> forall k :: 0 <= k < |f.metadataFilters.value| ==> ConvertMetadataFilter(f.metadataFilters.value[k]).Ok?)
    ensures r.Err? && f.levels.Some? && (exists k :: 0 <= k < |f.levels.value| && LevelFromStr(f.levels.value[k]).Err?) ==>
      r.error.InvalidLevel?
    ensures r.Ok? ==>
      && (r.value.levels.Some? <==> f.levels.Some?)
      && (r.value.levels.Some? ==>
            && |r.value.levels.value| == |f.levels.value|
            && forall k :: 0 <= k < |f.levels.value| ==> r.value.levels.value[k] == LevelFromStr(f.levels.value[k]).value)
      && r.value.startTime == f.startTime && r.value.endTime == f.endTime
      && r.value.source == f.source && r.value.search == f.search && r.value.traceId == f.traceId
      && |r.value.metadataFilters| == |f.metadataFilters.GetOr([])|
      && forall k :: 0 <= k < |r.value.metadataFilters| ==> WellFormedFilter(r.value.metadataFilters[k])
  {
    var levels := if f.levels.None? then Ok(None) else
      (match CollectAll(f.levels.value, LevelFromStr) case Err(e) => Err(e) case Ok(ls) => Ok(Some(ls)));
    match levels
    case Err(e) => Err(e)
    case Ok(ls) =>
      match CollectAll(f.metadataFilters.GetOr([]), ConvertMetadataFilter)
      case Err(e) => Err(e)
      case Ok(mfs) => Ok(LogFilters(ls, f.startTime, f.endTime, f.source, f.search, f.traceId, mfs))
  }

  datatype QueryCommand = QueryCommand(
    projectId: string,
    filters: QueryFilters,
    limit: Option<int>,
    offset: Option<int>,
    sort: Option<string>,
    userId: string)

  /** The sort of a query request: exactly "asc" or "ascending" give Ascending,
      anything else, other spellings in capitals included, Descending. */
  function RequestSort(sort: Option<string>): (r: SortOrder)
    ensures r == Ascending <==> sort == Some("asc") || sort == Some("ascending")
  {
    match sort
    case Some("asc") => Ascending
    case Some("ascending") => Ascending
    case _ => Descending
  }

  /** The service's sort is the case-sensitive part of `SortOrder::from_str`:
      whatever it reads as ascending, so does the parser, but "ASC" is ascending
      only for the parser. */
  lemma RequestSortIsStricter(sort: string)
    ensures RequestSort(Some(sort)) == Ascending ==> SortFromStr(sort) == Ascending
    ensures RequestSort(Some("ASC")) == Descending && SortFromStr("ASC") == Ascending
  {
    assert ToLower("ASC") == "asc";
    if sort == "asc" { assert ToLower(sort) == "asc"; }
    if sort == "ascending" { assert ToLower(sort) == "ascending"; }
  }

  /** One page of a log query. */
  datatype LogPage = LogPage(logs: seq<LogEntry>, total: nat, hasMore: bool)

  /** `LIMIT n OFFSET k` over the matching rows; the database refuses a negative
      limit or offset. */
  function FetchPage(rows: seq<LogEntry>, p: Pagination): (r: Result<seq<LogEntry>, LogError>)
    ensures r.Ok? <==> p.limit >= 0 && p.offset >= 0
    ensures r.Ok? && p.offset <= |rows| ==> r.value == rows[p.offset..Min(p.offset + p.limit, |rows|)]
    ensures r.Ok? && p.offset > |rows| ==> r.value == []
    ensures r.Ok? ==> |r.value| <= p.limit
  {
    if p.limit < 0 || p.offset < 0 then Err(InternalError)
    else if p.offset > |rows| then Ok([])
    else Ok(rows[p.offset..Min(p.offset + p.limit, |rows|)])
  }

  /** The page the repository returns: the rows from the offset, at most
      `limit` of them, the total count, and `hasMore` exactly when rows remain
      after the window. */
  function PageOf(rows: seq<LogEntry>, p: Pagination): (r: Result<LogPage, LogError>)
    ensures r.Ok? <==> p.limit >= 0 && p.offset >= 0
    ensures r.Ok? ==>
      && r.value.total == |rows|
      && |r.value.logs| <= p.limit
      && (p.offset <= |rows| ==> p.offset + |r.value.logs| <= |rows| && r.value.logs == rows[p.offset..p.offset + |r.value.logs|])
      && (r.value.hasMore <==> p.offset + p.limit < |rows|)
  {
    match FetchPage(rows, p)
    case Err(e) => Err(e)
    case Ok(logs) =>
      LogSql.HasMoreIffRowsRemain(p.offset, p.limit, |rows|);
      Ok(LogPage(logs, |rows|, LogSql.HasMore(p.offset, |logs|, |rows|)))
  }

  /** `query`: access, then filter conversion, then the page with limit 100 and
      offset 0 by default. */
  function Query(s: ProjectService.ProjectStore, cmd: QueryCommand,
                 matching: (LogFilters, SortOrder) -> seq<LogEntry>): (r: Result<LogPage, LogError>)
    ensures VerifyLogAccess(s, cmd.projectId, cmd.userId).Err? ==> r == Err(VerifyLogAccess(s, cmd.projectId, cmd.userId).error)
    ensures VerifyLogAccess(s, cmd.projectId, cmd.userId).Ok? && ConvertQueryFilters(cmd.filters).Err? ==>
      r == Err(ConvertQueryFilters(cmd.filters).error)
    ensures r.Ok? ==>
      && VerifyLogAccess(s, cmd.projectId, cmd.userId).Ok? && ConvertQueryFilters(cmd.filters).Ok?
      && r == PageOf(matching(ConvertQueryFilters(cmd.filters).value, RequestSort(cmd.sort)),
                     Pagination(cmd.limit.GetOr(DefaultPagination.limit), cmd.offset.GetOr(DefaultPagination.offset)))
  {
    match VerifyLogAccess(s, cmd.projectId, cmd.userId)
    case Err(e) => Err(e)
    case Ok(_) =>
      match ConvertQueryFilters(cmd.filters)
      case Err(e) => Err(e)
      case Ok(filters) =>
        PageOf(matching(filters, RequestSort(cmd.sort)),
               Pagination(cmd.limit.GetOr(DefaultPagination.limit), cmd.offset.GetOr(DefaultPagination.offset)))
  }

  // ---------------------------------------------------------------------------
  // export

  datatype ExportRequest = ExportRequest(
    levels: Option<seq<string>>,
    startTime: Option<int>,
    endTime: Option<int>,
    source: Option<string>,
    search: Option<string>,
    traceId: Option<string>,
    maxLogs: Option<int>)

  const ExportBatchSize: int := 10_000
  const DefaultMaxLogs: int := 100_000

  /** The filters of an export: unknown levels are dropped, and a level list
      with nothing left filters nothing; there are no metadata filters. */
  function ExportFilters(req: ExportRequest): (f: LogFilters)
    ensures f.levels.Some? <==> req.levels.Some? && exists k :: 0 <= k < |req.levels.value| && LevelFromStr(req.levels.value[k]).Ok?
    ensures f.levels.Some? ==> f.levels.value == ParsedLevels(req.levels.value)
    ensures f.metadataFilters == []
    ensures f.startTime == req.startTime && f.endTime == req.endTime && f.source == req.source
    ensures f.search == req.search && f.traceId == req.traceId
  {
    var levels := if req.levels.None? || ParsedLevels(req.levels.value) == [] then None else Some(ParsedLevels(req.levels.value));
    LogFilters(levels, req.startTime, req.endTime, req.source, req.search, req.traceId, [])
  }

  /** Unlike a query, an export does not fail on an unknown level. */
  lemma ExportToleratesUnknownLevels(f: QueryFilters, req: ExportRequest)
    requires f.levels == req.levels && req.levels.Some?
    requires exists k :: 0 <= k < |req.levels.value| && LevelFromStr(req.levels.value[k]).Err?
    ensures ConvertQueryFilters(f).Err?
    ensures ExportFilters(req).levels.Some? ==> |ExportFilters(req).levels.value| < |req.levels.value|
  {
    var names := req.levels.value;
    if ExportFilters(req).levels.Some? {
      ParsedLevelsDropsFailures(names);
    }
  }

  lemma {:induction false} ParsedLevelsDropsFailures(names: seq<string>)
    requires exists k :: 0 <= k < |names| && LevelFromStr(names[k]).Err?
    ensures |ParsedLevels(names)| < |names|
    decreases |names|
  {
    if LevelFromStr(names[0]).Ok? {
      var k :| 0 <= k < |names| && LevelFromStr(names[k]).Err?;
      assert names[1..][k - 1] == names[k];
      ParsedLevelsDropsFailures(names[1..]);
    }
  }

  /** The export loop: pages of at most 10000 rows, each limited to what is
      left of `maxLogs`, until a short page or `maxLogs` rows. It yields the
      first `maxLogs` matching rows, or all of them when there are fewer. A
      negative `maxLogs` makes the first page request fail. */
  method ExportBatches(rows: seq<LogEntry>, maxLogs: int) returns (r: Result<seq<LogEntry>, LogError>)
    ensures maxLogs < 0 ==> r == Err(InternalError)
    ensures maxLogs >= 0 ==> r == Ok(rows[..Min(maxLogs, |rows|)])
  {
    var all: seq<LogEntry> := [];
    var offset := 0;
    while true
      invariant 0 <= offset <= |rows|
      invariant offset == 0 || offset < maxLogs
      invariant all == rows[..offset]
      decreases maxLogs - offset
    {
      var page := FetchPage(rows, Pagination(Min(ExportBatchSize, maxLogs - offset), offset));
      if page.Err? {
        return Err(page.error);
      }
      var batch := page.value;
      assert rows[..offset + |batch|] == rows[..offset] + batch;
      all := all + batch;
      offset := offset + |batch|;
      if |batch| < ExportBatchSize || offset >= maxLogs {
        return Ok(all);
      }
    }
  }

  datatype Export = Export(projectName: string, totalLogs: nat, logs: seq<LogEntry>)

  /** `export_logs` without the archive: access, the export filters, the newest
      rows first, at most `maxLogs` (100000 by default) of them. */
  method ExportLogs(s: ProjectService.ProjectStore, projectId: string, req: ExportRequest, userId: string,
                    matching: (LogFilters, SortOrder) -> seq<LogEntry>) returns (r: Result<Export, LogError>)
    ensures VerifyLogAccess(s, projectId, userId).Err? ==> r == Err(VerifyLogAccess(s, projectId, userId).error)
    ensures r.Ok? ==>
      var rows := matching(ExportFilters(req), Descending);
      var maxLogs := req.maxLogs.GetOr(DefaultMaxLogs);
      && maxLogs >= 0
      && r.value.logs == rows[..Min(maxLogs, |rows|)]
      && r.value.totalLogs == |r.value.logs|
      && r.value.projectName == s.projects[projectId].name
    ensures VerifyLogAccess(s, projectId, userId).Ok? ==> (r.Ok? <==> req.maxLogs.GetOr(DefaultMaxLogs) >= 0)
  {
    var access := VerifyLogAccess(s, projectId, userId);
    if access.Err? {
      return Err(access.error);
    }
    var rows := matching(ExportFilters(req), Descending);
    var logs := ExportBatches(rows, req.maxLogs.GetOr(DefaultMaxLogs));
    if logs.Err? {
      return Err(logs.error);
    }
    r := Ok(Export(s.projects[projectId].name, |logs.value|, logs.value));
  }
}
