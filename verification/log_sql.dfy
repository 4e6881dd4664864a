/** The dynamic WHERE clause of the log store's query and count statements.

    The builder writes each condition with numbered placeholders (`$2`, `$3`, …),
    threading a running index; the statement then binds one value per
    placeholder in a second, separate pass over the same filters. Here every
    placeholder a condition writes is recorded together with the filter field it
    stands for (its role), and every bound value carries its role too. The
    theorems say the two passes agree: the placeholders are numbered
    consecutively after the offset, and the n-th bound value is the value of the
    n-th placeholder's field. */
module LogSql {
  import opened Wrappers
  import opened Text
  import opened Json
  import opened LogValues
  import opened PresetValues
  import opened LogEntities

  /** The filter field a placeholder or a bound value stands for. */
  datatype Role =
    | LevelParam(i: nat)
    | StartParam
    | EndParam
    | SourceParam
    | SearchParam
    | TraceParam
    | MetadataParam(j: nat)

  datatype Param = Param(index: nat, role: Role)

  /** One condition of the clause: its SQL text and the placeholders it writes, in order. */
  datatype Condition = Condition(text: string, params: seq<Param>)

  datatype BindValue = TextValue(s: string) | TimeValue(t: int)

  datatype Bind = Bind(role: Role, value: BindValue)

  /** `$n`. */
  function Placeholder(n: nat): string {
    "$" + NatToDigits(n)
  }

  // ---------------------------------------------------------------------------
  // JSONB paths and metadata conditions

  /** The accessor of one path segment: `->'segment'`, with quotes doubled. */
  function Segment(part: string): string {
    "->'" + EscapeQuotes(part) + "'"
  }

  function Segments(parts: seq<string>): string
    decreases |parts|
  {
    if |parts| == 0 then "" else Segment(parts[0]) + Segments(parts[1..])
  }

  /** `build_jsonb_path`: the key is split on '.', and a key with no '.' is
      written directly; otherwise "metadata" is followed by one accessor per part. */
  function JsonbPath(key: string): string {
    var parts := Split(key, '.');
    if |parts| == 1 then "metadata->'" + EscapeQuotes(key) + "'"
    else "metadata" + Segments(parts)
  }

  /** The single-part branch writes exactly what the general branch would, so
      the path is always "metadata" followed by one accessor per '.'-separated
      part, and nothing in a part can close its quoted literal. */
  lemma JsonbPathIsSegments(key: string)
    ensures JsonbPath(key) == "metadata" + Segments(Split(key, '.'))
    ensures forall k :: 0 <= k < |Split(key, '.')| ==> UnescapeQuotes(EscapeQuotes(Split(key, '.')[k])) == Split(key, '.')[k]
  {
    var parts := Split(key, '.');
    if |parts| == 1 {
      JoinSplit(key, '.');
      assert Join(parts, '.') == parts[0];
      assert Segments(parts) == Segment(parts[0]) + Segments([]);
    }
    forall k | 0 <= k < |parts|
      ensures UnescapeQuotes(EscapeQuotes(parts[k])) == parts[k]
    {
      UnescapeEscape(parts[k]);
    }
  }

  /** The SQL text of `build_metadata_condition` for an operator, given the
      placeholder it writes (unused by Exists). */
  function MetadataConditionText(f: MetadataFilter, p: string): string {
    var key := EscapeQuotes(f.key);
    var path := JsonbPath(f.key);
    match f.op
    case Exists => "metadata ? '" + key + "'"
    case Eq => "metadata @> jsonb_build_object('" + key + "', " + p + "::jsonb)"
    case Neq => "NOT (metadata @> jsonb_build_object('" + key + "', " + p + "::jsonb))"
    case Contains => "(" + path + " IS NOT NULL AND " + path + "::text ILIKE " + p + ")"
    case Gt => "(" + path + "::numeric > " + p + "::numeric)"
    case Lt => "(" + path + "::numeric < " + p + "::numeric)"
    case Gte => "(" + path + "::numeric >= " + p + "::numeric)"
    case Lte => "(" + path + "::numeric <= " + p + "::numeric)"
  }

  // ---------------------------------------------------------------------------
  // the whole clause

  /** One condition the builder may write, before placeholders are numbered:
      the level list (of n levels), a single-placeholder comparison, or the j-th
      metadata filter. */
  datatype Spec =
    | LevelsSpec(n: nat)
    | SingleSpec(prefix: string, role: Role)
    | MetadataSpec(filter: MetadataFilter, j: nat)

  /** The fields a condition's placeholders stand for, in the order it writes them. */
  function SpecRoles(s: Spec): (rs: seq<Role>)
    ensures s.MetadataSpec? ==> (|rs| == 0 <==> s.filter.op == Exists)
  {
    match s
    case LevelsSpec(n) => seq(n, i requires 0 <= i < n => LevelParam(i))
    case SingleSpec(_, role) => [role]
    case MetadataSpec(f, j) => if f.op == Exists then [] else [MetadataParam(j)]
  }

  /** The text of a condition whose placeholders are numbered after `idx`. */
  function SpecText(s: Spec, idx: nat): string {
    match s
    case LevelsSpec(n) => "level IN (" + JoinWith(seq(n, i requires 0 <= i < n => Placeholder(idx + 1 + i)), ", ") + ")"
    case SingleSpec(prefix, _) => prefix + Placeholder(idx + 1)
    case MetadataSpec(f, _) => MetadataConditionText(f, Placeholder(idx + 1))
  }

  /** Roles numbered consecutively from `idx + 1`. */
  function NumberFrom(roles: seq<Role>, idx: nat): (ps: seq<Param>)
    ensures |ps| == |roles|
    ensures forall i :: 0 <= i < |ps| ==> ps[i] == Param(idx + 1 + i, roles[i])
  {
    seq(|roles|, i requires 0 <= i < |roles| => Param(idx + 1 + i, roles[i]))
  }

  lemma NumberFromAppend(a: seq<Role>, b: seq<Role>, idx: nat)
    ensures NumberFrom(a + b, idx) == NumberFrom(a, idx) + NumberFrom(b, idx + |a|)
  {
  }

  function FlatRoles(specs: seq<Spec>): seq<Role>
    decreases |specs|
  {
    if |specs| == 0 then [] else SpecRoles(specs[0]) + FlatRoles(specs[1..])
  }

  lemma {:induction false} FlatRolesAppend(a: seq<Spec>, b: seq<Spec>)
    ensures FlatRoles(a + b) == FlatRoles(a) + FlatRoles(b)
    decreases |a|
  {
    if |a| == 0 {
      assert a + b == b;
    } else {
      assert (a + b)[1..] == a[1..] + b;
      FlatRolesAppend(a[1..], b);
    }
  }

  /** The placeholders of a list of conditions, in the order they appear in the clause. */
  function AllParams(conds: seq<Condition>): (ps: seq<Param>)
    decreases |conds|
  {
    if |conds| == 0 then [] else conds[0].params + AllParams(conds[1..])
  }

  /** Writes the conditions in order, threading the running index as the
      builder does: each condition numbers its placeholders after those of the
      conditions before it. The placeholders written are exactly the specs'
      roles, numbered consecutively from `idx + 1`. */
  function Conditions(specs: seq<Spec>, idx: nat): (cs: seq<Condition>)
    ensures |cs| == |specs|
    ensures AllParams(cs) == NumberFrom(FlatRoles(specs), idx)
    decreases |specs|
  {
    if |specs| == 0 then []
    else
      var roles := SpecRoles(specs[0]);
      var c := Condition(SpecText(specs[0], idx), NumberFrom(roles, idx));
      var rest := Conditions(specs[1..], idx + |roles|);
      NumberFromAppend(roles, FlatRoles(specs[1..]), idx);
      assert AllParams([c] + rest) == c.params + AllParams(rest);
      [c] + rest
  }

  function Optional(present: bool, s: Spec): (specs: seq<Spec>)
    ensures |specs| <= 1
  {
    if present then [s] else []
  }

  function MetadataSpecs(fs: seq<MetadataFilter>, j: nat): (specs: seq<Spec>)
    ensures |specs| == |fs|
    decreases |fs|
  {
    if |fs| == 0 then [] else [MetadataSpec(fs[0], j)] + MetadataSpecs(fs[1..], j + 1)
  }

  /** What `build_filter_clause` writes, in its order: the level list when it is
      non-empty, start, end, source, search and trace id when present, then one
      condition per metadata filter. */
  function FilterSpecs(f: LogFilters): seq<Spec> {
    LevelSpecs(f.levels) + FieldSpecs(f) + MetadataSpecs(f.metadataFilters, 0)
  }

  function FilterConditions(f: LogFilters, offset: nat): (cs: seq<Condition>)
    ensures AllParams(cs) == NumberFrom(FlatRoles(FilterSpecs(f)), offset)
  {
    Conditions(FilterSpecs(f), offset)
  }

  function Texts(cs: seq<Condition>): (ts: seq<string>)
    ensures |ts| == |cs|
    ensures forall k :: 0 <= k < |cs| ==> ts[k] == cs[k].text
  {
    seq(|cs|, k requires 0 <= k < |cs| => cs[k].text)
  }

  /** `build_filter_clause(filters, param_offset)`: empty when no condition is
      written, otherwise " AND " before the conditions joined by " AND "; the
      second component is the number of placeholders written. */
  function BuildFilterClause(f: LogFilters, offset: nat): (r: (string, nat))
    ensures r.1 == |FlatRoles(FilterSpecs(f))|
    ensures r.0 == "" <==> |FilterSpecs(f)| == 0
  {
    var cs := FilterConditions(f, offset);
    (if |cs| == 0 then "" else " AND " + JoinWith(Texts(cs), " AND "), |AllParams(cs)|)
  }

  // ---------------------------------------------------------------------------
  // the bind pass

  /** The value bound for a metadata filter: its JSON text for eq/neq, a
      `%…%` pattern of the string (or its JSON text) for contains, and for the
      numeric operators the number's text or the JSON text without surrounding
      double quotes. `render` is serde_json's `to_string`. */
  function MetadataBindValue(f: MetadataFilter, v: Json, render: Json -> string): string {
    match f.op
    case Eq => render(v)
    case Neq => render(v)
    case Contains => "%" + (if v.JString? then v.s else render(v)) + "%"
    case _ => if v.JInt? || v.JFloat? then render(v) else TrimMatches(render(v), '"')
  }

  /** `bind_metadata_filter_value` over the filters: Exists binds nothing,
      every other operator binds only when the filter carries a value. */
  function MetadataBinds(fs: seq<MetadataFilter>, j: nat, render: Json -> string): (bs: seq<Bind>)
    decreases |fs|
  {
    if |fs| == 0 then []
    else
      var f := fs[0];
      var rest := MetadataBinds(fs[1..], j + 1, render);
      if f.op != Exists && f.value.Some? then [Bind(MetadataParam(j), TextValue(MetadataBindValue(f, f.value.value, render)))] + rest
      else rest
  }

  function TimeBind(o: Option<int>, role: Role): (bs: seq<Bind>)
    ensures |bs| == if o.Some? then 1 else 0
  {
    if o.Some? then [Bind(role, TimeValue(o.value))] else []
  }

  /** A text bind; `pattern` wraps the value in `%` for ILIKE. */
  function TextBind(o: Option<string>, role: Role, pattern: bool): (bs: seq<Bind>)
    ensures |bs| == if o.Some? then 1 else 0
  {
    if o.Some? then [Bind(role, TextValue(if pattern then "%" + o.value + "%" else o.value))] else []
  }

  function LevelBinds(levels: Option<seq<LogLevel>>): (bs: seq<Bind>)
  {
    if levels.Some? then seq(|levels.value|, i requires 0 <= i < |levels.value| => Bind(LevelParam(i), TextValue(LevelName(levels.value[i])))) else []
  }

  /** The binds after the project id, in the order the query and count
      statements add them: every level, start, end, source, the search as a
      `%…%` pattern, the trace id, then the metadata values. */
  function FilterBinds(f: LogFilters, render: Json -> string): (bs: seq<Bind>)
  {
    LevelBinds(f.levels) + FieldBinds(f) + MetadataBinds(f.metadataFilters, 0, render)
  }

  function Roles(ps: seq<Param>): (rs: seq<Role>)
    ensures |rs| == |ps| && forall i :: 0 <= i < |ps| ==> rs[i] == ps[i].role
  {
    seq(|ps|, i requires 0 <= i < |ps| => ps[i].role)
  }

  function BindRoles(bs: seq<Bind>): (rs: seq<Role>)
    ensures |rs| == |bs| && forall i :: 0 <= i < |bs| ==> rs[i] == bs[i].role
  {
    seq(|bs|, i requires 0 <= i < |bs| => bs[i].role)
  }

  lemma BindRolesAppend(a: seq<Bind>, b: seq<Bind>)
    ensures BindRoles(a + b) == BindRoles(a) + BindRoles(b)
  {
  }

  /** Every metadata filter that needs a value has one, as `MetadataFilter::new`
      guarantees. */
  predicate MetadataValuesPresent(fs: seq<MetadataFilter>) {
    forall k :: 0 <= k < |fs| ==> RequiresValue(fs[k].op) ==> fs[k].value.Some?
  }

  /** Over the metadata filters, the bound values follow the written
      placeholders one for one when every value is present; a value-taking
      filter without a value writes a placeholder and binds nothing. */
  lemma {:induction false} MetadataBindsFollow(fs: seq<MetadataFilter>, j: nat, render: Json -> string)
    ensures MetadataValuesPresent(fs) ==> BindRoles(MetadataBinds(fs, j, render)) == FlatRoles(MetadataSpecs(fs, j))
    ensures |MetadataBinds(fs, j, render)| <= |FlatRoles(MetadataSpecs(fs, j))|
    ensures !MetadataValuesPresent(fs) ==> |MetadataBinds(fs, j, render)| < |FlatRoles(MetadataSpecs(fs, j))|
    decreases |fs|
  {
    if |fs| > 0 {
      var f := fs[0];
      var rest := MetadataBinds(fs[1..], j + 1, render);
      MetadataBindsFollow(fs[1..], j + 1, render);
      assert MetadataSpecs(fs, j)[1..] == MetadataSpecs(fs[1..], j + 1);
      assert FlatRoles(MetadataSpecs(fs, j)) == SpecRoles(MetadataSpec(f, j)) + FlatRoles(MetadataSpecs(fs[1..], j + 1));
      assert MetadataValuesPresent(fs) ==> MetadataValuesPresent(fs[1..]) by {
        if MetadataValuesPresent(fs) {
          forall k | 0 <= k < |fs[1..]| ensures RequiresValue(fs[1..][k].op) ==> fs[1..][k].value.Some? {
            assert fs[1..][k] == fs[k + 1];
          }
        }
      }
      if !MetadataValuesPresent(fs) && MetadataValuesPresent(fs[1..]) {
        var k :| 0 <= k < |fs| && RequiresValue(fs[k].op) && fs[k].value.None?;
        if k > 0 {
          assert fs[1..][k - 1] == fs[k];
        }
      }
      if f.op != Exists && f.value.Some? {
        BindRolesAppend([Bind(MetadataParam(j), TextValue(MetadataBindValue(f, f.value.value, render)))], rest);
      }
    }
  }

  lemma ConcatFollow(ps: seq<Spec>, bs: seq<Bind>, ps': seq<Spec>, bs': seq<Bind>)
    requires FlatRoles(ps) == BindRoles(bs) && FlatRoles(ps') == BindRoles(bs')
    ensures FlatRoles(ps + ps') == BindRoles(bs + bs')
  {
    FlatRolesAppend(ps, ps');
    BindRolesAppend(bs, bs');
  }

  lemma OptionalFollows(present: bool, prefix: string, role: Role, bs: seq<Bind>)
    requires |bs| == (if present then 1 else 0) && (present ==> bs[0].role == role)
    ensures FlatRoles(Optional(present, SingleSpec(prefix, role))) == BindRoles(bs)
  {
    if present {
      assert FlatRoles([SingleSpec(prefix, role)]) == [role] + FlatRoles([]);
    }
  }

  function LevelSpecs(levels: Option<seq<LogLevel>>): seq<Spec> {
    Optional(levels.Some? && |levels.value| > 0, LevelsSpec(if levels.Some? then |levels.value| else 0))
  }

  /** The single-placeholder conditions: start, end, source, search, trace id. */
  function FieldSpecs(f: LogFilters): seq<Spec> {
    Optional(f.startTime.Some?, SingleSpec("timestamp >= ", StartParam))
      + Optional(f.endTime.Some?, SingleSpec("timestamp <= ", EndParam))
      + Optional(f.source.Some?, SingleSpec("source = ", SourceParam))
      + Optional(f.search.Some?, SingleSpec("message ILIKE ", SearchParam))
      + Optional(f.traceId.Some?, SingleSpec("trace_id = ", TraceParam))
  }

  function FieldBinds(f: LogFilters): seq<Bind> {
    TimeBind(f.startTime, StartParam)
      + TimeBind(f.endTime, EndParam)
      + TextBind(f.source, SourceParam, false)
      + TextBind(f.search, SearchParam, true)
      + TextBind(f.traceId, TraceParam, false)
  }

  lemma LevelsFollow(levels: Option<seq<LogLevel>>)
    ensures FlatRoles(LevelSpecs(levels)) == BindRoles(LevelBinds(levels))
  {
    if levels.Some? && |levels.value| > 0 {
      assert FlatRoles(LevelSpecs(levels)) == SpecRoles(LevelsSpec(|levels.value|)) + FlatRoles([]);
    }
  }

  lemma FieldsFollow(f: LogFilters)
    ensures FlatRoles(FieldSpecs(f)) == BindRoles(FieldBinds(f))
  {
    var s1 := Optional(f.startTime.Some?, SingleSpec("timestamp >= ", StartParam));
    var s2 := Optional(f.endTime.Some?, SingleSpec("timestamp <= ", EndParam));
    var s3 := Optional(f.source.Some?, SingleSpec("source = ", SourceParam));
    var s4 := Optional(f.search.Some?, SingleSpec("message ILIKE ", SearchParam));
    var s5 := Optional(f.traceId.Some?, SingleSpec("trace_id = ", TraceParam));
    var b1 := TimeBind(f.startTime, StartParam);
    var b2 := TimeBind(f.endTime, EndParam);
    var b3 := TextBind(f.source, SourceParam, false);
    var b4 := TextBind(f.search, SearchParam, true);
    var b5 := TextBind(f.traceId, TraceParam, false);
    OptionalFollows(f.startTime.Some?, "timestamp >= ", StartParam, b1);
    OptionalFollows(f.endTime.Some?, "timestamp <= ", EndParam, b2);
    OptionalFollows(f.source.Some?, "source = ", SourceParam, b3);
    OptionalFollows(f.search.Some?, "message ILIKE ", SearchParam, b4);
    OptionalFollows(f.traceId.Some?, "trace_id = ", TraceParam, b5);
    ConcatFollow(s1, b1, s2, b2);
    ConcatFollow(s1 + s2, b1 + b2, s3, b3);
    ConcatFollow(s1 + s2 + s3, b1 + b2 + b3, s4, b4);
    ConcatFollow(s1 + s2 + s3 + s4, b1 + b2 + b3 + b4, s5, b5);
  }

  /** Field by field, the bind pass binds values for the same fields, in the
      same order, as the placeholders the clause writes. */
  lemma RolesAgree(f: LogFilters, render: Json -> string)
    requires MetadataValuesPresent(f.metadataFilters)
    ensures FlatRoles(FilterSpecs(f)) == BindRoles(FilterBinds(f, render))
  {
    LevelsFollow(f.levels);
    FieldsFollow(f);
    MetadataBindsFollow(f.metadataFilters, 0, render);
    ConcatFollow(LevelSpecs(f.levels), LevelBinds(f.levels), FieldSpecs(f), FieldBinds(f));
    ConcatFollow(LevelSpecs(f.levels) + FieldSpecs(f), LevelBinds(f.levels) + FieldBinds(f),
                 MetadataSpecs(f.metadataFilters, 0), MetadataBinds(f.metadataFilters, 0, render));
  }

  /** The two passes agree: when every value-taking metadata filter carries a
      value, the i-th value bound after the project id fills placeholder
      `$(offset + 1 + i)`, and both are for the same filter field. */
  lemma BindsFollowPlaceholders(f: LogFilters, offset: nat, render: Json -> string)
    requires MetadataValuesPresent(f.metadataFilters)
    ensures |AllParams(FilterConditions(f, offset))| == |FilterBinds(f, render)|
    ensures forall i :: 0 <= i < |FilterBinds(f, render)| ==>
      AllParams(FilterConditions(f, offset))[i] == Param(offset + 1 + i, FilterBinds(f, render)[i].role)
  {
    RolesAgree(f, render);
  }

  /** The statement binds as many values as the clause writes placeholders
      exactly when every value-taking metadata filter carries a value;
      otherwise it is short of values. */
  lemma BindCountMatchesPlaceholders(f: LogFilters, offset: nat, render: Json -> string)
    ensures |FilterBinds(f, render)| == BuildFilterClause(f, offset).1 <==> MetadataValuesPresent(f.metadataFilters)
    ensures |FilterBinds(f, render)| <= BuildFilterClause(f, offset).1
  {
    LevelsFollow(f.levels);
    FieldsFollow(f);
    MetadataBindsFollow(f.metadataFilters, 0, render);
    FlatRolesAppend(LevelSpecs(f.levels), FieldSpecs(f));
    FlatRolesAppend(LevelSpecs(f.levels) + FieldSpecs(f), MetadataSpecs(f.metadataFilters, 0));
  }

  // ---------------------------------------------------------------------------
  // statements

  /** A statement as the store runs it: the WHERE tail after `project_id = $1`
      and the values bound after the project id. */
  datatype Statement = Statement(projectId: string, clause: string, binds: seq<Bind>)

  /** The count statement of `count(project, filters)`: the clause numbered
      after the project id's `$1`, and the filter binds after it. */
  function CountStatement(projectId: string, f: LogFilters, render: Json -> string): (st: Statement)
    ensures st.projectId == projectId
    ensures st.clause == "" <==> FilterSpecs(f) == []
  {
    Statement(projectId, BuildFilterClause(f, 1).0, FilterBinds(f, render))
  }

  /** An empty level list writes no condition and binds nothing: it filters
      exactly as no level list at all. */
  lemma EmptyLevelsFilterNothing(f: LogFilters, projectId: string, render: Json -> string)
    requires f.levels == Some([])
    ensures CountStatement(projectId, f, render) == CountStatement(projectId, f.(levels := None), render)
  {
    assert FilterSpecs(f) == FilterSpecs(f.(levels := None));
    assert LevelBinds(f.levels) == [];
    assert FilterBinds(f, render) == FilterBinds(f.(levels := None), render);
  }

  /** `has_more` of a query page: rows remain after this page. */
  predicate HasMore(offset: int, fetched: nat, total: int) {
    offset + fetched < total
  }

  /** With a store that returns every matching row after `offset`, up to
      `limit`, a page reports more rows exactly when it did not reach the total. */
  lemma HasMoreIffRowsRemain(offset: nat, limit: nat, total: nat)
    ensures var fetched := if offset >= total then 0 else if total - offset < limit then total - offset else limit;
      HasMore(offset, fetched, total) <==> offset + limit < total
  {
  }
}
