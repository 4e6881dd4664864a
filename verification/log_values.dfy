/** Value objects of the logging module: the six log levels with their names,
    aliases and severities, trace and span identifiers, sort order and paging
    defaults, and the error type every logging operation reports. */
module LogValues {
  import opened Wrappers
  import opened Text

  /** The failures of the logging module. Messages are kept as the data they are
      built from: the rejected input, or which rule failed. */
  datatype LogError =
    | InvalidLevel(input: string)
    | InvalidTimestamp
    | InvalidMessage
    | InvalidFilterPreset(problem: PresetProblem)
    | ProjectNotFound
    | ProjectDeleted
    | ApiKeyInvalid
    | ApiKeyRevoked
    | ApiKeyExpired
    | InsufficientPermissions
    | NotOrgMember
    | FilterPresetNotFound
    | FilterPresetNameExists
    | InternalError

  /** Why a filter preset or one of its parts was refused. */
  datatype PresetProblem =
    | PresetNameEmpty
    | PresetNameTooLong
    | UnknownMetadataOperator(input: string)
    | EmptyMetadataKey
    | MissingMetadataValue(operatorName: string)

  datatype LogLevel = Trace | Debug | Info | Warn | Error | Fatal

  /** The canonical lower-case name of a level. */
  function LevelName(l: LogLevel): string {
    match l
    case Trace => "trace"
    case Debug => "debug"
    case Info => "info"
    case Warn => "warn"
    case Error => "error"
    case Fatal => "fatal"
  }

  /** The extra spelling a level accepts besides its name, if any. */
  function LevelAlias(l: LogLevel): Option<string> {
    match l
    case Warn => Some("warning")
    case Error => Some("err")
    case Fatal => Some("critical")
    case _ => None
  }

  /** Spellings `LevelFromStr` accepts once its input is lower-cased. */
  predicate NamesLevel(lower: string, l: LogLevel) {
    lower == LevelName(l) || LevelAlias(l) == Some(lower)
  }

  /** `LogLevel::from_str`: lower-cases the input and accepts a level name or alias. */
  function LevelFromStr(s: string): (r: Result<LogLevel, LogError>)
    ensures r.Ok? ==> NamesLevel(ToLower(s), r.value)
    ensures r.Err? ==> r.error == InvalidLevel(s)
  {
    match ToLower(s)
    case "trace" => Ok(Trace)
    case "debug" => Ok(Debug)
    case "info" => Ok(Info)
    case "warn" => Ok(Warn)
    case "warning" => Ok(Warn)
    case "error" => Ok(Error)
    case "err" => Ok(Error)
    case "fatal" => Ok(Fatal)
    case "critical" => Ok(Fatal)
    case _ => Err(InvalidLevel(s))
  }

  /** A string parses exactly when its lower-cased form names some level, and
      then it gives that level; case never matters. */
  lemma LevelFromStrAccepts(s: string)
    ensures LevelFromStr(s).Ok? <==> exists l :: NamesLevel(ToLower(s), l)
    ensures forall l :: NamesLevel(ToLower(s), l) ==> LevelFromStr(s) == Ok(l)
    ensures LevelFromStr(ToLower(s)).ToOption() == LevelFromStr(s).ToOption()
  {
    LowerIsIdempotent(s);
    if LevelFromStr(s).Ok? {
      assert NamesLevel(ToLower(s), LevelFromStr(s).value);
    }
  }

  /** Printing a level and parsing it back gives the level; so do its alias and
      any upper-case spelling of its name. */
  lemma LevelRoundTrip(l: LogLevel)
    ensures LevelFromStr(LevelName(l)) == Ok(l)
    ensures LevelAlias(l).Some? ==> LevelFromStr(LevelAlias(l).value) == Ok(l)
    ensures LevelFromStr(ToUpper(LevelName(l))) == Ok(l)
  {
    LowerOfLowerKeyword(LevelName(l));
    if LevelAlias(l).Some? {
      LowerOfLowerKeyword(LevelAlias(l).value);
    }
  }

  /** The levels of the names that parse, in order, with the others dropped:
      `filter_map(|s| LogLevel::from_str(s).ok())`. */
  function ParsedLevels(names: seq<string>): (r: seq<LogLevel>)
    ensures |r| <= |names|
    ensures r == [] <==> forall k :: 0 <= k < |names| ==> LevelFromStr(names[k]).Err?
    ensures (forall k :: 0 <= k < |names| ==> LevelFromStr(names[k]).Ok?) ==> |r| == |names|
    decreases |names|
  {
    if |names| == 0 then []
    else
      var rest := ParsedLevels(names[1..]);
      assert forall k :: 1 <= k < |names| ==> names[k] == names[1..][k - 1];
      match LevelFromStr(names[0])
      case Ok(l) => [l] + rest
      case Err(_) => rest
  }

  /** `LogLevel::severity`: 0 for Trace up to 5 for Fatal. */
  function Severity(l: LogLevel): (r: nat)
    ensures r <= 5
    ensures l == Trace <==> r == 0
    ensures l == Fatal <==> r == 5
  {
    match l
    case Trace => 0
    case Debug => 1
    case Info => 2
    case Warn => 3
    case Error => 4
    case Fatal => 5
  }

  /** The declaration order of the levels, as their position in this list. */
  const LevelsInOrder: seq<LogLevel> := [Trace, Debug, Info, Warn, Error, Fatal]

  /** Severity strictly increases along the declaration order, so it is a
      one-to-one ranking of the levels. */
  lemma SeverityIsStrictlyIncreasing()
    ensures forall i, j :: 0 <= i < j < |LevelsInOrder| ==> Severity(LevelsInOrder[i]) < Severity(LevelsInOrder[j])
    ensures forall a, b :: Severity(a) == Severity(b) ==> a == b
  {
  }

  /** The longest trace or span identifier, in bytes. */
  const MaxIdBytes: nat := 64

  /** `TraceId::new` and `SpanId::new`: an identifier of 1 to 64 bytes, kept as
      given; anything else is no identifier. */
  function NewTraceId(id: string): (r: Option<string>)
    ensures r.Some? <==> 1 <= ByteLen(id) <= MaxIdBytes
    ensures r.Some? ==> r.value == id
  {
    if |id| == 0 || ByteLen(id) > MaxIdBytes then None else Some(id)
  }

  function NewSpanId(id: string): (r: Option<string>)
    ensures r.Some? <==> 1 <= ByteLen(id) <= MaxIdBytes
    ensures r.Some? ==> r.value == id
  {
    if |id| == 0 || ByteLen(id) > MaxIdBytes then None else Some(id)
  }

  datatype SortOrder = Ascending | Descending

  /** `SortOrder::default()`. */
  const DefaultSortOrder: SortOrder := Descending

  /** `SortOrder::from_str`: total; "asc" and "ascending" in any case give
      Ascending, everything else Descending. */
  function SortFromStr(s: string): (r: SortOrder)
    ensures r == Ascending <==> ToLower(s) == "asc" || ToLower(s) == "ascending"
  {
    match ToLower(s)
    case "asc" => Ascending
    case "ascending" => Ascending
    case _ => Descending
  }

  datatype Pagination = Pagination(limit: int, offset: int)

  /** `Pagination::default()`. */
  const DefaultPagination: Pagination := Pagination(100, 0)
}
