/** Entities of the logging module: a stored log entry, the query filters, the
    filter configuration a preset saves, and the preset itself. Times are
    nanosecond instants; `now` is passed in wherever the code reads the clock. */
module LogEntities {
  import opened Wrappers
  import opened Json
  import opened LogValues
  import opened PresetValues

  /** A log record as stored: immutable once built, since the entity has no mutators. */
  datatype LogEntry = LogEntry(
    id: string,
    projectId: string,
    level: LogLevel,
    message: string,
    timestamp: int,
    receivedAt: int,
    source: Option<string>,
    metadata: Option<Json>,
    traceId: Option<string>,
    spanId: Option<string>)

  /** `LogEntry::new`: stamps `received_at` with the current time and uses it as
      the timestamp when none is supplied. */
  function NewLogEntry(
    id: string, projectId: string, level: LogLevel, message: string, timestamp: Option<int>,
    source: Option<string>, metadata: Option<Json>, traceId: Option<string>, spanId: Option<string>,
    now: int): (e: LogEntry)
    ensures e.receivedAt == now
    ensures timestamp.Some? ==> e.timestamp == timestamp.value
    ensures timestamp.None? ==> e.timestamp == e.receivedAt
    ensures e.id == id && e.projectId == projectId && e.level == level && e.message == message
    ensures e.source == source && e.metadata == metadata && e.traceId == traceId && e.spanId == spanId
  {
    LogEntry(id, projectId, level, message, timestamp.GetOr(now), now, source, metadata, traceId, spanId)
  }

  /** `LogEntry::reconstruct`: rebuilds an entry from stored columns, exactly. */
  function ReconstructLogEntry(
    id: string, projectId: string, level: LogLevel, message: string, timestamp: int, receivedAt: int,
    source: Option<string>, metadata: Option<Json>, traceId: Option<string>, spanId: Option<string>): (e: LogEntry)
    ensures e.id == id && e.projectId == projectId && e.level == level && e.message == message
    ensures e.timestamp == timestamp && e.receivedAt == receivedAt
    ensures e.source == source && e.metadata == metadata && e.traceId == traceId && e.spanId == spanId
  {
    LogEntry(id, projectId, level, message, timestamp, receivedAt, source, metadata, traceId, spanId)
  }

  /** Reconstructing an entry from its own fields gives it back. */
  lemma ReconstructIsIdentity(e: LogEntry)
    ensures ReconstructLogEntry(e.id, e.projectId, e.level, e.message, e.timestamp, e.receivedAt,
                                e.source, e.metadata, e.traceId, e.spanId) == e
  {
  }

  /** The filters of a log query or count. */
  datatype LogFilters = LogFilters(
    levels: Option<seq<LogLevel>>,
    startTime: Option<int>,
    endTime: Option<int>,
    source: Option<string>,
    search: Option<string>,
    traceId: Option<string>,
    metadataFilters: seq<MetadataFilter>)

  /** `LogFilters::default()`: nothing set, no metadata filters. */
  const NoFilters: LogFilters := LogFilters(None, None, None, None, None, None, [])

  // ---------------------------------------------------------------------------
  // filter configuration

  /** What a preset saves: the query filters plus a sort order. */
  datatype FilterConfig = FilterConfig(
    levels: Option<seq<LogLevel>>,
    startTime: Option<int>,
    endTime: Option<int>,
    source: Option<string>,
    search: Option<string>,
    traceId: Option<string>,
    metadataFilters: seq<MetadataFilter>,
    sortOrder: SortOrder)

  /** `FilterConfig::new()` / `default()`. */
  const EmptyConfig: FilterConfig := FilterConfig(None, None, None, None, None, None, [], DefaultSortOrder)

  /** `has_filters`: some filter is set; the sort order does not count. */
  predicate HasFilters(c: FilterConfig) {
    c.levels.Some? || c.startTime.Some? || c.endTime.Some? || c.source.Some?
      || c.search.Some? || c.traceId.Some? || |c.metadataFilters| > 0
  }

  /** The filter part of a configuration, ignoring its sort order. */
  function FiltersOf(c: FilterConfig): (f: LogFilters)
    ensures (f == NoFilters) <==> !HasFilters(c)
  {
    LogFilters(c.levels, c.startTime, c.endTime, c.source, c.search, c.traceId, c.metadataFilters)
  }

  /** The default configuration has no filters and sorts newest first; the
      sort order alone never makes a configuration filter anything. */
  lemma EmptyConfigHasNoFilters(order: SortOrder)
    ensures !HasFilters(EmptyConfig) && EmptyConfig.sortOrder == Descending
    ensures !HasFilters(EmptyConfig.(sortOrder := order))
  {
  }

  function WithLevels(c: FilterConfig, levels: seq<LogLevel>): (r: FilterConfig)
    ensures r.levels == Some(levels) && r.(levels := c.levels) == c
  {
    c.(levels := Some(levels))
  }

  function WithTimeRange(c: FilterConfig, start: int, end: int): (r: FilterConfig)
    ensures r.startTime == Some(start) && r.endTime == Some(end)
    ensures r.(startTime := c.startTime, endTime := c.endTime) == c
  {
    c.(startTime := Some(start), endTime := Some(end))
  }

  function WithSource(c: FilterConfig, source: string): (r: FilterConfig)
    ensures r.source == Some(source) && r.(source := c.source) == c
  {
    c.(source := Some(source))
  }

  function WithSearch(c: FilterConfig, search: string): (r: FilterConfig)
    ensures r.search == Some(search) && r.(search := c.search) == c
  {
    c.(search := Some(search))
  }

  function WithTraceId(c: FilterConfig, traceId: string): (r: FilterConfig)
    ensures r.traceId == Some(traceId) && r.(traceId := c.traceId) == c
  {
    c.(traceId := Some(traceId))
  }

  function WithMetadataFilters(c: FilterConfig, filters: seq<MetadataFilter>): (r: FilterConfig)
    ensures r.metadataFilters == filters && r.(metadataFilters := c.metadataFilters) == c
  {
    c.(metadataFilters := filters)
  }

  function WithSortOrder(c: FilterConfig, order: SortOrder): (r: FilterConfig)
    ensures r.sortOrder == order && r.(sortOrder := c.sortOrder) == c
    ensures HasFilters(r) == HasFilters(c)
  {
    c.(sortOrder := order)
  }

  /** Every builder but the sort-order one turns filtering on. */
  lemma BuildersSetAFilter(c: FilterConfig, levels: seq<LogLevel>, start: int, end: int, text: string, filters: seq<MetadataFilter>)
    ensures HasFilters(WithLevels(c, levels)) && HasFilters(WithTimeRange(c, start, end))
    ensures HasFilters(WithSource(c, text)) && HasFilters(WithSearch(c, text)) && HasFilters(WithTraceId(c, text))
    ensures HasFilters(WithMetadataFilters(c, filters)) <==> |filters| > 0 || HasFilters(c.(metadataFilters := []))
  {
  }

  // ---------------------------------------------------------------------------
  // filter preset

  datatype FilterPreset = FilterPreset(
    id: string,
    projectId: string,
    userId: string,
    name: string,
    config: FilterConfig,
    isDefault: bool,
    createdAt: int,
    updatedAt: int)

  function NewFilterPreset(id: string, projectId: string, userId: string, name: string,
                           config: FilterConfig, isDefault: bool, now: int): (p: FilterPreset)
    ensures p.id == id && p.projectId == projectId && p.userId == userId && p.name == name
    ensures p.config == config && p.isDefault == isDefault
    ensures p.createdAt == p.updatedAt == now
  {
    FilterPreset(id, projectId, userId, name, config, isDefault, now, now)
  }

  function UpdatePresetName(p: FilterPreset, name: string, now: int): (r: FilterPreset)
    ensures r.name == name && r.updatedAt == now
    ensures r.(name := p.name, updatedAt := p.updatedAt) == p
  {
    p.(name := name, updatedAt := now)
  }

  function UpdatePresetConfig(p: FilterPreset, config: FilterConfig, now: int): (r: FilterPreset)
    ensures r.config == config && r.updatedAt == now
    ensures r.(config := p.config, updatedAt := p.updatedAt) == p
  {
    p.(config := config, updatedAt := now)
  }

  function SetAsDefault(p: FilterPreset, now: int): (r: FilterPreset)
    ensures r.isDefault && r.updatedAt == now
    ensures r.(isDefault := p.isDefault, updatedAt := p.updatedAt) == p
  {
    p.(isDefault := true, updatedAt := now)
  }

  function UnsetDefault(p: FilterPreset, now: int): (r: FilterPreset)
    ensures !r.isDefault && r.updatedAt == now
    ensures r.(isDefault := p.isDefault, updatedAt := p.updatedAt) == p
  {
    p.(isDefault := false, updatedAt := now)
  }
}
