/** Trace search over the spans table: the WHERE clause built from the filters
    with consecutively numbered placeholders, the binds in the same order, the
    spans the clause selects, and the per-trace summaries paged by LIMIT and
    OFFSET. */
module SpanSearch {
  import opened Wrappers
  import opened Text
  import opened SpanValues
  import opened SpanStore
  import opened Ordering
  import LogSql

  /** `TraceFilters`; durations in nanoseconds. */
  datatype TraceFilters = TraceFilters(
    serviceName: Option<string>,
    spanName: Option<string>,
    status: Option<SpanStatusCode>,
    startTime: Option<int>,
    endTime: Option<int>,
    minDurationNs: Option<int>,
    maxDurationNs: Option<int>)

  datatype Pagination = Pagination(limit: int, offset: int)

  const DefaultPagination: Pagination := Pagination(100, 0)

  // ---------------------------------------------------------------------------
  // the clause

  /** What a placeholder stands for. */
  datatype FilterRole =
    | ProjectRole | ServiceRole | NameRole | StatusRole | StartRole | EndRole | MinDurationRole | MaxDurationRole

  /** One optional condition of the builder: whether its filter is present,
      the text before its placeholder, and what it binds. */
  datatype Guard = Guard(present: bool, prefix: string, role: FilterRole)

  /** The optional conditions in the order the builder tests them. */
  function Guards(f: TraceFilters): seq<Guard> {
    [ Guard(f.serviceName.Some?, "service_name = ", ServiceRole),
      Guard(f.spanName.Some?, "name ILIKE ", NameRole),
      Guard(f.status.Some?, "status = ", StatusRole),
      Guard(f.startTime.Some?, "start_time >= ", StartRole),
      Guard(f.endTime.Some?, "start_time <= ", EndRole),
      Guard(f.minDurationNs.Some?, "duration_ns >= ", MinDurationRole),
      Guard(f.maxDurationNs.Some?, "duration_ns <= ", MaxDurationRole) ]
  }

  /** The guards whose filter is present, in order. */
  function Present(gs: seq<Guard>): (ps: seq<Guard>)
    ensures |ps| <= |gs|
    ensures forall k :: 0 <= k < |ps| ==> ps[k].present
    decreases |gs|
  {
    if |gs| == 0 then []
    else (if gs[0].present then [gs[0]] else []) + Present(gs[1..])
  }

  datatype Param = Param(index: nat, role: FilterRole)

  datatype Condition = Condition(text: string, param: Param)

  /** The present conditions, numbered as the builder's running index
      numbers them: it starts at `idx` and moves on by one for each filter
      present, so the k-th present filter gets `idx + k`. */
  function Conditions(gs: seq<Guard>, idx: nat): (cs: seq<Condition>)
    ensures |cs| == |Present(gs)|
    ensures forall k :: 0 <= k < |cs| ==> cs[k].param == Param(idx + k, Present(gs)[k].role)
    ensures forall k :: 0 <= k < |cs| ==> cs[k].text == Present(gs)[k].prefix + LogSql.Placeholder(idx + k)
  {
    var ps := Present(gs);
    seq(|ps|, k requires 0 <= k < |ps| => Condition(ps[k].prefix + LogSql.Placeholder(idx + k), Param(idx + k, ps[k].role)))
  }

  function RolesOf(gs: seq<Guard>): (rs: seq<FilterRole>)
    ensures |rs| == |gs| && forall k :: 0 <= k < |gs| ==> rs[k] == gs[k].role
  {
    seq(|gs|, k requires 0 <= k < |gs| => gs[k].role)
  }

  /** The fields the placeholders stand for, in clause order: the project,
      then each present filter. */
  function PlaceholderRoles(f: TraceFilters): seq<FilterRole> {
    [ProjectRole] + RolesOf(Present(Guards(f)))
  }

  /** The conditions of `search_traces`: `project_id = $1`, then one per
      present filter numbered from 2. The k-th condition holds placeholder
      k + 1, standing for the project and then for each present filter in
      turn. */
  function WhereConditions(f: TraceFilters): (cs: seq<Condition>)
    ensures |cs| == |PlaceholderRoles(f)|
    ensures cs[0].text == "project_id = $1"
    ensures forall k :: 0 <= k < |cs| ==> cs[k].param == Param(k + 1, PlaceholderRoles(f)[k])
  {
    var first := Condition("project_id = $1", Param(1, ProjectRole));
    var rest := Conditions(Guards(f), 2);
    assert forall k :: 1 <= k < |rest| + 1 ==> ([first] + rest)[k] == rest[k - 1];
    [first] + rest
  }

  /** The index after the last filter placeholder: the builder's running
      index once every filter has been looked at. */
  function NextIndex(f: TraceFilters): (n: nat)
    ensures n == 1 + |WhereConditions(f)|
  {
    2 + |Present(Guards(f))|
  }

  function Texts(cs: seq<Condition>): (ts: seq<string>)
    ensures |ts| == |cs| && forall k :: 0 <= k < |cs| ==> ts[k] == cs[k].text
  {
    seq(|cs|, k requires 0 <= k < |cs| => cs[k].text)
  }

  /** The clause shared by the page and the count statements. */
  function WhereClause(f: TraceFilters): string {
    JoinWith(Texts(WhereConditions(f)), " AND ")
  }

  /** The page statement ends with LIMIT and OFFSET on the next two indices. */
  function PageClause(f: TraceFilters): string {
    "LIMIT " + LogSql.Placeholder(NextIndex(f)) + " OFFSET " + LogSql.Placeholder(NextIndex(f) + 1)
  }

  // ---------------------------------------------------------------------------
  // the binds

  datatype BindValue = TextBind(s: string) | TimeBind(t: int) | IntBind(n: int)

  /** The span name filter's bind: `format!("%{}%", name)`, with nothing in
      the name escaped. */
  function NamePattern(name: string): string {
    "%" + name + "%"
  }

  /** The bind pass, filter by filter in its own order: the value it binds
      when the filter is present. The span name is wrapped in `%`. */
  function BindSteps(projectId: string, f: TraceFilters): seq<Option<BindValue>> {
    [ if f.serviceName.Some? then Some(TextBind(f.serviceName.value)) else None,
      if f.spanName.Some? then Some(TextBind(NamePattern(f.spanName.value))) else None,
      if f.status.Some? then Some(TextBind(StatusName(f.status.value))) else None,
      if f.startTime.Some? then Some(TimeBind(f.startTime.value)) else None,
      if f.endTime.Some? then Some(TimeBind(f.endTime.value)) else None,
      if f.minDurationNs.Some? then Some(IntBind(f.minDurationNs.value)) else None,
      if f.maxDurationNs.Some? then Some(IntBind(f.maxDurationNs.value)) else None ]
  }

  /** The values the steps bind, in order. */
  function Pushed(steps: seq<Option<BindValue>>): seq<BindValue>
    decreases |steps|
  {
    if |steps| == 0 then [] else (if steps[0].Some? then [steps[0].value] else []) + Pushed(steps[1..])
  }

  /** The binds of the count statement: the project, then the bind pass. */
  function FilterBinds(projectId: string, f: TraceFilters): seq<BindValue> {
    [TextBind(projectId)] + Pushed(BindSteps(projectId, f))
  }

  /** The binds of the page statement: those of the count, then limit and offset. */
  function PageBinds(projectId: string, f: TraceFilters, p: Pagination): seq<BindValue> {
    FilterBinds(projectId, f) + [IntBind(p.limit), IntBind(p.offset)]
  }

  /** The value a placeholder of the given role must receive. */
  function ValueOf(projectId: string, f: TraceFilters, role: FilterRole): BindValue {
    match role
    case ProjectRole => TextBind(projectId)
    case ServiceRole => TextBind(f.serviceName.GetOr(""))
    case NameRole => TextBind(NamePattern(f.spanName.GetOr("")))
    case StatusRole => TextBind(StatusName(f.status.GetOr(StatusUnset)))
    case StartRole => TimeBind(f.startTime.GetOr(0))
    case EndRole => TimeBind(f.endTime.GetOr(0))
    case MinDurationRole => IntBind(f.minDurationNs.GetOr(0))
    case MaxDurationRole => IntBind(f.maxDurationNs.GetOr(0))
  }

  /** The values the present guards' placeholders stand for, in order. */
  function GuardBinds(projectId: string, f: TraceFilters, ps: seq<Guard>): (bs: seq<BindValue>)
    ensures |bs| == |ps| && forall k :: 0 <= k < |ps| ==> bs[k] == ValueOf(projectId, f, ps[k].role)
  {
    seq(|ps|, k requires 0 <= k < |ps| => ValueOf(projectId, f, ps[k].role))
  }

  lemma GuardBindsAppend(projectId: string, f: TraceFilters, a: seq<Guard>, b: seq<Guard>)
    ensures GuardBinds(projectId, f, a + b) == GuardBinds(projectId, f, a) + GuardBinds(projectId, f, b)
  {
  }

  /** Steps that agree one by one with the guards, present exactly when the
      guard is and then binding the value the guard's placeholder stands for,
      bind exactly the values of the present guards' placeholders, in order. */
  lemma {:induction false} PushedFollowsGuards(projectId: string, f: TraceFilters, steps: seq<Option<BindValue>>, gs: seq<Guard>)
    requires |steps| == |gs|
    requires forall k :: 0 <= k < |gs| ==> (steps[k].Some? <==> gs[k].present)
    requires forall k :: 0 <= k < |gs| && steps[k].Some? ==> steps[k].value == ValueOf(projectId, f, gs[k].role)
    ensures Pushed(steps) == GuardBinds(projectId, f, Present(gs))
    decreases |gs|
  {
    if |gs| > 0 {
      assert forall k :: 0 <= k < |gs| - 1 ==> steps[1..][k] == steps[k + 1] && gs[1..][k] == gs[k + 1];
      PushedFollowsGuards(projectId, f, steps[1..], gs[1..]);
      GuardBindsAppend(projectId, f, if gs[0].present then [gs[0]] else [], Present(gs[1..]));
    }
  }

  /** The bind pass agrees with the builder filter by filter. */
  lemma FilterBindsAreGuardBinds(projectId: string, f: TraceFilters)
    ensures FilterBinds(projectId, f) == [TextBind(projectId)] + GuardBinds(projectId, f, Present(Guards(f)))
  {
    PushedFollowsGuards(projectId, f, BindSteps(projectId, f), Guards(f));
  }

  /** Placeholder i of the clause receives bind i: each of the count
      statement's binds is the value its placeholder stands for, there is one
      per placeholder, and the page statement's LIMIT and OFFSET placeholders
      receive the limit and the offset. */
  lemma BindsFollowPlaceholders(projectId: string, f: TraceFilters, p: Pagination)
    ensures |FilterBinds(projectId, f)| == |WhereConditions(f)|
    ensures forall k :: 0 <= k < |WhereConditions(f)| ==>
      FilterBinds(projectId, f)[WhereConditions(f)[k].param.index - 1] == ValueOf(projectId, f, WhereConditions(f)[k].param.role)
    ensures |PageBinds(projectId, f, p)| == NextIndex(f) + 1
    ensures PageBinds(projectId, f, p)[NextIndex(f) - 1] == IntBind(p.limit)
    ensures PageBinds(projectId, f, p)[NextIndex(f)] == IntBind(p.offset)
  {
    FilterBindsAreGuardBinds(projectId, f);
  }

  // ---------------------------------------------------------------------------
  // what the clause selects

  /** `needle` occurs in `hay`, at some position. */
  predicate IsInfix(needle: string, hay: string) {
    exists i :: 0 <= i <= |hay| && StartsWith(hay[i..], needle)
  }

  /** PostgreSQL's `LIKE`: `%` matches any run of characters, `_` any one
      character, and `\` makes the character after it literal. A pattern
      ending in a lone `\` matches nothing here; the database refuses one, but
      a pattern that ends in `%` never does. */
  predicate Like(p: string, t: string)
    decreases |p| + |t|
  {
    if |p| == 0 then |t| == 0
    else if p[0] == '%' then Like(p[1..], t) || (|t| > 0 && Like(p, t[1..]))
    else if p[0] == '_' then |t| > 0 && Like(p[1..], t[1..])
    else if p[0] == '\\' then |p| > 1 && |t| > 0 && t[0] == p[1] && Like(p[2..], t[1..])
    else |t| > 0 && t[0] == p[0] && Like(p[1..], t[1..])
  }

  /** `ILIKE`: `LIKE` with both sides lower-cased. */
  predicate ILike(p: string, t: string) {
    Like(ToLower(p), ToLower(t))
  }

  /** The rows the clause selects. A comparison with a NULL column selects
      nothing; the span name is matched with `ILIKE` against its pattern, so
      a `%` or `_` in the filter is a wildcard. */
  predicate Selected(row: SpanRow, projectId: string, f: TraceFilters) {
    && row.projectId == projectId
    && (f.serviceName.Some? ==> row.serviceName == f.serviceName)
    && (f.spanName.Some? ==> ILike(NamePattern(f.spanName.value), row.name))
    && (f.status.Some? ==> row.status == StatusName(f.status.value))
    && (f.startTime.Some? ==> row.startTime >= f.startTime.value)
    && (f.endTime.Some? ==> row.startTime <= f.endTime.value)
    && (f.minDurationNs.Some? ==> row.durationNs.Some? && row.durationNs.value >= f.minDurationNs.value)
    && (f.maxDurationNs.Some? ==> row.durationNs.Some? && row.durationNs.value <= f.maxDurationNs.value)
  }

  /** A text with none of the characters `LIKE` treats specially. */
  predicate NoWildcards(s: string) {
    forall k :: 0 <= k < |s| ==> s[k] != '%' && s[k] != '_' && s[k] != '\\'
  }

  /** A `%` matches any text. */
  lemma {:induction false} PercentMatchesAll(t: string)
    ensures Like("%", t)
    decreases |t|
  {
    if |t| > 0 {
      PercentMatchesAll(t[1..]);
    }
  }

  /** A pattern without wildcards followed by `%` matches exactly the texts
      that start with it. */
  lemma {:induction false} LiteralThenPercent(p: string, t: string)
    requires NoWildcards(p)
    ensures Like(p + "%", t) <==> StartsWith(t, p)
    decreases |p|
  {
    if |p| == 0 {
      assert p + "%" == "%";
      PercentMatchesAll(t);
    } else {
      assert (p + "%")[0] == p[0] && (p + "%")[1..] == p[1..] + "%";
      if |t| > 0 && t[0] == p[0] {
        LiteralThenPercent(p[1..], t[1..]);
        assert StartsWith(t, p) <==> StartsWith(t[1..], p[1..]) by {
          if |p| <= |t| {
            assert t[..|p|] == [t[0]] + t[1..][..|p| - 1];
            assert p == [p[0]] + p[1..];
          }
        }
      }
    }
  }

  /** A leading `%` lets the rest of the pattern match any suffix. */
  lemma {:induction false} PercentThen(q: string, t: string)
    ensures Like("%" + q, t) <==> exists i :: 0 <= i <= |t| && Like(q, t[i..])
    decreases |t|
  {
    var p := "%" + q;
    assert p[0] == '%' && p[1..] == q;
    assert t[0..] == t;
    if |t| > 0 {
      PercentThen(q, t[1..]);
      assert forall i :: 1 <= i <= |t| ==> t[1..][i - 1..] == t[i..];
      if exists i :: 0 <= i <= |t| && Like(q, t[i..]) {
        var i :| 0 <= i <= |t| && Like(q, t[i..]);
        if i > 0 {
          assert Like(q, t[1..][i - 1..]);
        }
      }
    }
  }

  /** With no wildcard in it, the pattern of a span name filter is a
      substring test. */
  lemma LiteralNamePattern(n: string, t: string)
    requires NoWildcards(n)
    ensures Like(NamePattern(n), t) <==> IsInfix(n, t)
  {
    assert NamePattern(n) == "%" + (n + "%");
    PercentThen(n + "%", t);
    forall i | 0 <= i <= |t| ensures Like(n + "%", t[i..]) <==> StartsWith(t[i..], n) {
      LiteralThenPercent(n, t[i..]);
    }
  }

  /** So a span name filter without `%`, `_` or `\` selects exactly the spans
      whose name contains it, ignoring ASCII case. */
  lemma PlainSpanNameIsSubstring(row: SpanRow, n: string)
    requires NoWildcards(n)
    ensures ILike(NamePattern(n), row.name) <==> IsInfix(ToLower(n), ToLower(row.name))
  {
    var ln := ToLower(n);
    assert ToLower(NamePattern(n)) == NamePattern(ln) by {
      assert ToLower(NamePattern(n))[0] == '%';
      assert ToLower(NamePattern(n))[|n| + 1] == '%';
      assert forall k :: 0 <= k < |n| ==> ToLower(NamePattern(n))[k + 1] == ln[k];
    }
    LiteralNamePattern(ln, ToLower(row.name));
  }

  /** An `_` in the filter stands for any one character: "a_c" selects a span
      named "abc", which does not contain "a_c". */
  lemma UnderscoreIsWildcard()
    ensures ILike(NamePattern("a_c"), "abc")
    ensures !IsInfix("a_c", "abc")
  {
    assert ToLower("abc") == "abc";
    assert ToLower(NamePattern("a_c")) == "%a_c%";
    var p := "%a_c%";
    assert Like(p[1..], "abc") by {
      assert p[1..] == "a_c%";
      assert "a_c%"[1..] == "_c%" && "_c%"[1..] == "c%" && "c%"[1..] == "%";
      assert "abc"[1..] == "bc" && "bc"[1..] == "c" && "c"[1..] == [];
      PercentMatchesAll([]);
    }
    forall i | 0 <= i <= 3 ensures !StartsWith("abc"[i..], "a_c") {
      if i == 0 {
        assert "abc"[..3][1] == 'b';
      }
    }
  }

  function Filtered(rows: seq<SpanRow>, projectId: string, f: TraceFilters): (r: seq<SpanRow>)
    ensures forall x :: x in r <==> x in rows && Selected(x, projectId, f)
    decreases |rows|
  {
    if |rows| == 0 then []
    else
      assert rows == [rows[0]] + rows[1..];
      (if Selected(rows[0], projectId, f) then [rows[0]] else []) + Filtered(rows[1..], projectId, f)
  }

  /** The distinct trace ids of the rows, in order of first appearance. */
  function DistinctTraceIds(rows: seq<SpanRow>): (ids: seq<string>)
    ensures forall t :: t in ids <==> exists k :: 0 <= k < |rows| && rows[k].traceId == t
    ensures forall i, j :: 0 <= i < j < |ids| ==> ids[i] != ids[j]
    decreases |rows|
  {
    if |rows| == 0 then []
    else
      var rest := DistinctTraceIds(rows[1..]);
      assert forall k :: 1 <= k < |rows| ==> rows[k] == rows[1..][k - 1];
      if rows[0].traceId in rest then rest
      else
        assert forall t :: t in rest ==> t != rows[0].traceId;
        [rows[0].traceId] + rest
  }

  // ---------------------------------------------------------------------------
  // summaries

  /** The earliest of a non-empty list of times. */
  function Earliest(ts: seq<int>): (m: int)
    requires |ts| > 0
    ensures m in ts && forall k :: 0 <= k < |ts| ==> m <= ts[k]
    decreases |ts|
  {
    if |ts| == 1 then ts[0]
    else
      var rest := Earliest(ts[1..]);
      assert forall k :: 1 <= k < |ts| ==> ts[k] == ts[1..][k - 1];
      if ts[0] <= rest then ts[0] else rest
  }

  /** The latest of the times present; nothing when none is. */
  function Latest(ts: seq<Option<int>>): (m: Option<int>)
    ensures m.None? <==> forall k :: 0 <= k < |ts| ==> ts[k].None?
    ensures m.Some? ==> m in ts && forall k :: 0 <= k < |ts| && ts[k].Some? ==> ts[k].value <= m.value
    decreases |ts|
  {
    if |ts| == 0 then None
    else
      var rest := Latest(ts[1..]);
      assert forall k :: 1 <= k < |ts| ==> ts[k] == ts[1..][k - 1];
      if ts[0].None? then rest
      else if rest.None? || rest.value <= ts[0].value then ts[0]
      else rest
  }

  function Starts(rows: seq<SpanRow>): (ts: seq<int>)
    ensures |ts| == |rows| && forall k :: 0 <= k < |rows| ==> ts[k] == rows[k].startTime
  {
    seq(|rows|, k requires 0 <= k < |rows| => rows[k].startTime)
  }

  function Ends(rows: seq<SpanRow>): (ts: seq<Option<int>>)
    ensures |ts| == |rows| && forall k :: 0 <= k < |rows| ==> ts[k] == rows[k].endTime
  {
    seq(|rows|, k requires 0 <= k < |rows| => rows[k].endTime)
  }

  function RowsOfTrace(rows: seq<SpanRow>, traceId: string): (r: seq<SpanRow>)
    ensures forall x :: x in r <==> x in rows && x.traceId == traceId
    ensures (exists k :: 0 <= k < |rows| && rows[k].traceId == traceId) ==> |r| > 0
    ensures traceId in DistinctTraceIds(rows) ==> |r| > 0
    decreases |rows|
  {
    if |rows| == 0 then []
    else
      assert rows == [rows[0]] + rows[1..];
      (if rows[0].traceId == traceId then [rows[0]] else []) + RowsOfTrace(rows[1..], traceId)
  }

  function CountWhere(rows: seq<SpanRow>, p: SpanRow -> bool): (n: nat)
    ensures n <= |rows|
    decreases |rows|
  {
    if |rows| == 0 then 0 else (if p(rows[0]) then 1 else 0) + CountWhere(rows[1..], p)
  }

  /** The names of the root spans, those without a parent, in order. */
  function RootNames(rows: seq<SpanRow>): (ns: seq<string>)
    ensures |ns| == 0 <==> forall k :: 0 <= k < |rows| ==> rows[k].parentSpanId.Some?
    ensures forall n :: n in ns <==> exists k :: 0 <= k < |rows| && rows[k].parentSpanId.None? && rows[k].name == n
    decreases |rows|
  {
    if |rows| == 0 then []
    else
      var rest := RootNames(rows[1..]);
      assert forall k :: 1 <= k < |rows| ==> rows[k] == rows[1..][k - 1];
      (if rows[0].parentSpanId.None? then [rows[0].name] else []) + rest
  }

  /** The least of the root names is no later than any root's name. */
  lemma LeastRootName(rows: seq<SpanRow>)
    ensures var r := Least(RootNames(rows));
      r.Some? ==> forall k :: 0 <= k < |rows| && rows[k].parentSpanId.None? ==> LexLessEq(r.value, rows[k].name)
  {
    var ns := RootNames(rows);
    var r := Least(ns);
    if r.Some? {
      forall k | 0 <= k < |rows| && rows[k].parentSpanId.None? ensures LexLessEq(r.value, rows[k].name) {
        assert rows[k].name in ns;
      }
    }
  }

  /** `MIN(CASE WHEN parent_span_id IS NULL THEN name END)`: the least root
      span name, texts compared by code point; none without a root span. */
  function RootSpanName(rows: seq<SpanRow>): (r: Option<string>)
    ensures r.None? <==> forall k :: 0 <= k < |rows| ==> rows[k].parentSpanId.Some?
    ensures r.Some? ==> exists k :: 0 <= k < |rows| && rows[k].parentSpanId.None? && rows[k].name == r.value
    ensures r.Some? ==> forall k :: 0 <= k < |rows| && rows[k].parentSpanId.None? ==> LexLessEq(r.value, rows[k].name)
  {
    LeastRootName(rows);
    Least(RootNames(rows))
  }

  datatype TraceSummary = TraceSummary(
    traceId: string,
    rootSpanName: Option<string>,
    serviceNames: set<string>,
    spanCount: nat,
    errorCount: nat,
    startTime: int,
    endTime: Option<int>,
    durationNs: Option<int>)

  /** One row of `trace_stats`, over the selected spans of one trace. */
  function Summarize(traceId: string, group: seq<SpanRow>): (s: TraceSummary)
    requires |group| > 0
    ensures s.traceId == traceId && s.spanCount == |group|
  {
    var start := Earliest(Starts(group));
    var end := Latest(Ends(group));
    TraceSummary(traceId, RootSpanName(group),
                 set k | 0 <= k < |group| && group[k].serviceName.Some? :: group[k].serviceName.value,
                 |group|, CountWhere(group, (r: SpanRow) => r.status == "error"),
                 start, end, DurationOf(start, end))
  }

  /** What a summary says about its group: a root name exactly when some span
      is a root, and then the name of a root span that sorts no later than
      any other root span's name; the services named by the spans, no more
      errors than spans, the earliest start, the latest end when any span has
      ended, and the duration between the two. */
  lemma SummaryFacts(traceId: string, group: seq<SpanRow>)
    requires |group| > 0
    ensures var s := Summarize(traceId, group);
      && (s.rootSpanName.None? <==> forall k :: 0 <= k < |group| ==> group[k].parentSpanId.Some?)
      && (s.rootSpanName.Some? ==> exists k :: 0 <= k < |group| && group[k].parentSpanId.None? && group[k].name == s.rootSpanName.value)
      && (s.rootSpanName.Some? ==> forall k :: 0 <= k < |group| && group[k].parentSpanId.None? ==> LexLessEq(s.rootSpanName.value, group[k].name))
      && (forall n :: n in s.serviceNames <==> exists k :: 0 <= k < |group| && group[k].serviceName == Some(n))
      && s.errorCount <= s.spanCount
      && (exists k :: 0 <= k < |group| && s.startTime == group[k].startTime)
      && (forall k :: 0 <= k < |group| ==> s.startTime <= group[k].startTime)
      && (s.endTime.None? <==> forall k :: 0 <= k < |group| ==> group[k].endTime.None?)
      && (s.endTime.Some? ==> forall k :: 0 <= k < |group| && group[k].endTime.Some? ==> group[k].endTime.value <= s.endTime.value)
      && s.durationNs == DurationOf(s.startTime, s.endTime)
  {
    var s := Summarize(traceId, group);
    var ts := Starts(group);
    assert s.startTime in ts;
    var m :| 0 <= m < |ts| && ts[m] == s.startTime;
    assert group[m].startTime == s.startTime;
    var roots := RootNames(group);
    if s.rootSpanName.Some? {
      forall k | 0 <= k < |group| && group[k].parentSpanId.None?
        ensures LexLessEq(s.rootSpanName.value, group[k].name)
      {
        assert group[k].name in roots;
        var i :| 0 <= i < |roots| && roots[i] == group[k].name;
      }
    }
  }

  /** Roots "zeta" then "alpha" report "alpha": the least name, not the first. */
  lemma RootNameIsLeastNotFirst(traceId: string, zeta: SpanRow, alpha: SpanRow)
    requires zeta.parentSpanId.None? && zeta.name == "zeta"
    requires alpha.parentSpanId.None? && alpha.name == "alpha"
    ensures Summarize(traceId, [zeta, alpha]).rootSpanName == Some("alpha")
  {
    var g := [zeta, alpha];
    var ns := RootNames(g);
    assert g[0].parentSpanId.None? && g[0].name == "zeta";
    assert g[1].parentSpanId.None? && g[1].name == "alpha";
    assert "alpha" in ns && "zeta" in ns;
    var m := Least(ns).value;
    assert m == "zeta" || m == "alpha";
    assert !LexLessEq("zeta", "alpha") by {
      assert "zeta"[0] == 'z' && "alpha"[0] == 'a';
    }
  }

  /** `s` is the summary of the selected spans of one of the traces `ids`. */
  predicate IsSummaryIn(s: TraceSummary, filtered: seq<SpanRow>, ids: seq<string>) {
    s.traceId in ids && |RowsOfTrace(filtered, s.traceId)| > 0
    && s == Summarize(s.traceId, RowsOfTrace(filtered, s.traceId))
  }

  function Summaries(filtered: seq<SpanRow>, ids: seq<string>): (ss: seq<TraceSummary>)
    requires forall k :: 0 <= k < |ids| ==> |RowsOfTrace(filtered, ids[k])| > 0
    ensures |ss| == |ids|
    ensures forall k :: 0 <= k < |ids| ==> ss[k].traceId == ids[k] && IsSummaryIn(ss[k], filtered, ids)
  {
    seq(|ids|, k requires 0 <= k < |ids| => Summarize(ids[k], RowsOfTrace(filtered, ids[k])))
  }

  function NegatedStart(s: TraceSummary): int {
    -s.startTime
  }

  datatype TraceSearchResult = TraceSearchResult(traces: seq<TraceSummary>, total: nat)

  /** `search_traces`: the selected spans grouped by trace, one summary per
      trace, latest start first, a page of them; the total counts every trace
      with a selected span. The database refuses a negative LIMIT or OFFSET. */
  function SearchTraces(rows: seq<SpanRow>, projectId: string, f: TraceFilters, p: Pagination)
    : (r: Result<TraceSearchResult, TracesError>)
    ensures r.Err? <==> p.limit < 0 || p.offset < 0
    ensures r.Err? ==> r.error == InternalError
    ensures r.Ok? ==> r.value.total == |DistinctTraceIds(Filtered(rows, projectId, f))|
    ensures r.Ok? ==> |r.value.traces| <= p.limit
    ensures r.Ok? ==> forall i, j :: 0 <= i < j < |r.value.traces| ==> r.value.traces[i].startTime >= r.value.traces[j].startTime
    ensures r.Ok? ==> forall k :: 0 <= k < |r.value.traces| ==>
      IsSummaryIn(r.value.traces[k], Filtered(rows, projectId, f), DistinctTraceIds(Filtered(rows, projectId, f)))
  {
    if p.limit < 0 || p.offset < 0 then Err(InternalError)
    else
      var filtered := Filtered(rows, projectId, f);
      var ids := DistinctTraceIds(filtered);
      var ordered := SortBy(Summaries(filtered, ids), NegatedStart);
      var page := if p.offset >= |ordered| then [] else ordered[p.offset..Min(|ordered|, p.offset + p.limit)];
      SearchPageFacts(filtered, ids, ordered, page, p);
      Ok(TraceSearchResult(page, |ids|))
  }

  /** Reading the page rows into `TraceSummaryRow` as written: its
      `service_names` is a `Vec<String>`, which NULL cannot fill, and
      `ARRAY_AGG(DISTINCT service_name) FILTER (WHERE service_name IS NOT NULL)`
      is NULL for a trace none of whose selected spans names a service. One
      such row fails the whole read. */
  function DecodeSummaries(page: seq<TraceSummary>): (r: Result<seq<TraceSummary>, TracesError>)
    ensures r.Ok? <==> forall k :: 0 <= k < |page| ==> page[k].serviceNames != {}
    ensures r.Ok? ==> r.value == page
    ensures r.Err? ==> r.error == InternalError
  {
    if exists k :: 0 <= k < |page| && page[k].serviceNames == {} then Err(InternalError) else Ok(page)
  }

  /** `search_traces` as written: the search of `SearchTraces`, whose page
      then has to decode. `SearchTraces` is the search with the aggregate
      wrapped in `COALESCE(…, '{}')`, which reads such a trace as having no
      service names. */
  function SearchTracesAsWritten(rows: seq<SpanRow>, projectId: string, f: TraceFilters, p: Pagination)
    : (r: Result<TraceSearchResult, TracesError>)
    ensures r.Ok? ==> r == SearchTraces(rows, projectId, f, p)
    ensures r.Err? <==> (SearchTraces(rows, projectId, f, p).Err?
                         || exists k :: 0 <= k < |SearchTraces(rows, projectId, f, p).value.traces|
                                        && SearchTraces(rows, projectId, f, p).value.traces[k].serviceNames == {})
  {
    match SearchTraces(rows, projectId, f, p)
    case Err(e) => Err(e)
    case Ok(res) =>
      match DecodeSummaries(res.traces)
      case Err(e) => Err(e)
      case Ok(_) => Ok(res)
  }

  /** As written, a search fails once its page holds a trace whose selected
      spans all lack a service name, where the corrected search succeeds. */
  lemma NamelessTraceFailsSearch(rows: seq<SpanRow>, projectId: string, f: TraceFilters, p: Pagination, k: nat)
    requires p.limit >= 0 && p.offset >= 0
    requires k < |SearchTraces(rows, projectId, f, p).value.traces|
    requires forall x :: x in rows && x.traceId == SearchTraces(rows, projectId, f, p).value.traces[k].traceId ==> x.serviceName.None?
    ensures SearchTraces(rows, projectId, f, p).Ok?
    ensures SearchTracesAsWritten(rows, projectId, f, p) == Err(InternalError)
  {
    var filtered := Filtered(rows, projectId, f);
    var s := SearchTraces(rows, projectId, f, p).value.traces[k];
    var group := RowsOfTrace(filtered, s.traceId);
    assert s == Summarize(s.traceId, group);
    forall i | 0 <= i < |group| ensures group[i].serviceName.None? {
      assert group[i] in filtered;
    }
    assert s.serviceNames == {};
  }

  /** One selected span without a service name is enough: the first page of
      its search fails as written. */
  lemma SingleNamelessSpanFailsSearch(row: SpanRow, projectId: string, f: TraceFilters, p: Pagination)
    requires Selected(row, projectId, f) && row.serviceName.None?
    requires p.limit >= 1 && p.offset == 0
    ensures SearchTraces([row], projectId, f, p).Ok?
    ensures SearchTracesAsWritten([row], projectId, f, p) == Err(InternalError)
  {
    var filtered := Filtered([row], projectId, f);
    assert row in filtered;
    var ids := DistinctTraceIds(filtered);
    assert row.traceId in ids by {
      var k :| 0 <= k < |filtered| && filtered[k] == row;
    }
    var r := SearchTraces([row], projectId, f, p).value;
    assert |r.traces| >= 1 by {
      var ss := Summaries(filtered, ids);
      var ordered := SortBy(ss, NegatedStart);
      SortedMembers(ss, NegatedStart);
      assert |ordered| == |ids| >= 1;
    }
    NamelessTraceFailsSearch([row], projectId, f, p, 0);
  }

  /** A reordering of the summaries holds summaries only. */
  lemma ReorderedSummaries(filtered: seq<SpanRow>, ids: seq<string>, ordered: seq<TraceSummary>)
    requires forall k :: 0 <= k < |ids| ==> |RowsOfTrace(filtered, ids[k])| > 0
    requires multiset(ordered) == multiset(Summaries(filtered, ids))
    ensures forall k :: 0 <= k < |ordered| ==> IsSummaryIn(ordered[k], filtered, ids)
  {
    var ss := Summaries(filtered, ids);
    forall k | 0 <= k < |ordered| ensures IsSummaryIn(ordered[k], filtered, ids) {
      assert ordered[k] in multiset(ordered);
      assert ordered[k] in ss;
    }
  }

  /** A page of a list that is ascending by negated start is a list of at
      most `limit` entries, descending by start, drawn from the list. */
  lemma PageFacts(ordered: seq<TraceSummary>, page: seq<TraceSummary>, p: Pagination)
    requires Ascending(ordered, NegatedStart)
    requires p.limit >= 0 && p.offset >= 0
    requires page == if p.offset >= |ordered| then [] else ordered[p.offset..Min(|ordered|, p.offset + p.limit)]
    ensures |page| <= p.limit
    ensures forall k :: 0 <= k < |page| ==> page[k] in ordered
    ensures forall i, j :: 0 <= i < j < |page| ==> page[i].startTime >= page[j].startTime
  {
    if p.offset < |ordered| {
      forall i, j | 0 <= i < j < |page| ensures page[i].startTime >= page[j].startTime {
        assert page[i] == ordered[p.offset + i] && page[j] == ordered[p.offset + j];
        assert NegatedStart(ordered[p.offset + i]) <= NegatedStart(ordered[p.offset + j]);
      }
    }
  }

  lemma SearchPageFacts(filtered: seq<SpanRow>, ids: seq<string>, ordered: seq<TraceSummary>, page: seq<TraceSummary>, p: Pagination)
    requires forall k :: 0 <= k < |ids| ==> |RowsOfTrace(filtered, ids[k])| > 0
    requires Ascending(ordered, NegatedStart) && multiset(ordered) == multiset(Summaries(filtered, ids))
    requires p.limit >= 0 && p.offset >= 0
    requires page == if p.offset >= |ordered| then [] else ordered[p.offset..Min(|ordered|, p.offset + p.limit)]
    ensures |page| <= p.limit
    ensures forall i, j :: 0 <= i < j < |page| ==> page[i].startTime >= page[j].startTime
    ensures forall k :: 0 <= k < |page| ==> IsSummaryIn(page[k], filtered, ids)
  {
    ReorderedSummaries(filtered, ids, ordered);
    PageFacts(ordered, page, p);
  }
}
