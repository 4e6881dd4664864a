/** OTLP/JSON logs to the log service's inputs: one input per log record,
    across every resource and scope, in order. The serialisation of a
    non-string body is a parameter. */
module OtlpLogs {
  import opened Wrappers
  import opened Text
  import opened Json
  import opened OtlpCommon
  import LogValues
  import LogService

  datatype LogRecord = LogRecord(
    timeUnixNano: string,
    observedTimeUnixNano: string,
    severityNumber: int,
    severityText: string,
    body: Option<AnyValue>,
    attributes: seq<KeyValue>,
    traceId: string,
    spanId: string)

  datatype ScopeLogs = ScopeLogs(logRecords: seq<LogRecord>)

  datatype ResourceLogs = ResourceLogs(resource: Option<Resource>, scopeLogs: seq<ScopeLogs>)

  datatype ExportLogsServiceRequest = ExportLogsServiceRequest(resourceLogs: seq<ResourceLogs>)

  // ---------------------------------------------------------------------------
  // severity

  /** `LogRecord::severity_to_level`: a non-empty severity text wins and is
      upper-cased; otherwise the number picks one of six bands of four, and
      any number outside 1..24 reads as INFO. */
  function SeverityToLevel(r: LogRecord): (level: string)
    ensures r.severityText != "" ==> level == ToUpper(r.severityText)
  {
    if r.severityText != "" then ToUpper(r.severityText)
    else if 1 <= r.severityNumber <= 4 then "TRACE"
    else if 5 <= r.severityNumber <= 8 then "DEBUG"
    else if 9 <= r.severityNumber <= 12 then "INFO"
    else if 13 <= r.severityNumber <= 16 then "WARN"
    else if 17 <= r.severityNumber <= 20 then "ERROR"
    else if 21 <= r.severityNumber <= 24 then "FATAL"
    else "INFO"
  }

  /** Without a severity text, the level always parses, and its severity is
      the number's band: (n - 1) / 4 for n in 1..24, and that of INFO for
      every other number. */
  lemma NumberLevelsParse(r: LogRecord)
    requires r.severityText == ""
    ensures LogValues.LevelFromStr(SeverityToLevel(r)).Ok?
    ensures 1 <= r.severityNumber <= 24 ==>
      LogValues.Severity(LogValues.LevelFromStr(SeverityToLevel(r)).value) == (r.severityNumber - 1) / 4
    ensures !(1 <= r.severityNumber <= 24) ==> LogValues.LevelFromStr(SeverityToLevel(r)) == Ok(LogValues.Info)
  {
    var n := r.severityNumber;
    if 1 <= n <= 4 {
      assert ToLower("TRACE") == "trace";
    } else if 5 <= n <= 8 {
      assert ToLower("DEBUG") == "debug";
    } else if 9 <= n <= 12 {
      assert ToLower("INFO") == "info";
    } else if 13 <= n <= 16 {
      assert ToLower("WARN") == "warn";
    } else if 17 <= n <= 20 {
      assert ToLower("ERROR") == "error";
    } else if 21 <= n <= 24 {
      assert ToLower("FATAL") == "fatal";
    } else {
      assert ToLower("INFO") == "info";
    }
  }

  /** A non-empty severity text wins over the number: changing the number
      never changes the level. The unit test's record, text "warn" with the
      fatal number 21, reads as "WARN". */
  lemma SeverityTextWins(r: LogRecord)
    requires r.severityText != ""
    ensures forall n: int :: SeverityToLevel(r.(severityNumber := n)) == SeverityToLevel(r)
    ensures r.severityText == "warn" ==> SeverityToLevel(r) == "WARN"
  {
    if r.severityText == "warn" {
      assert ToUpper("warn") == "WARN";
    }
  }

  // ---------------------------------------------------------------------------
  // one record

  /** The message: a body whose JSON is a string is kept verbatim, any other
      body is serialised, and a missing body is empty. */
  function Message(body: Option<AnyValue>, serialize: Json -> string): (m: string)
    ensures body.None? ==> m == ""
    ensures body.Some? && body.value.stringValue.Some? ==> m == body.value.stringValue.value
    ensures body.Some? && !ToJsonValue(body.value).JString? ==> m == serialize(ToJsonValue(body.value))
  {
    if body.None? then ""
    else
      match ToJsonValue(body.value)
      case JString(s) => s
      case other => serialize(other)
  }

  const ResourcePrefix: string := "resource."

  /** The resource's attributes with their keys prefixed. */
  function Prefixed(fields: map<string, Json>): (m: map<string, Json>)
    ensures forall k :: k in fields ==> ResourcePrefix + k in m && m[ResourcePrefix + k] == fields[k]
    ensures forall k :: k in m ==> StartsWith(k, ResourcePrefix) && k[|ResourcePrefix|..] in fields
  {
    var keys := set k | k in fields :: ResourcePrefix + k;
    assert forall k :: k in fields ==> (ResourcePrefix + k)[|ResourcePrefix|..] == k;
    map k | k in keys :: fields[k[|ResourcePrefix|..]]
  }

  /** The record's metadata: the resource's attributes under `resource.`,
      then the record's own attributes, which win on a clash; nothing when
      both are empty. */
  function Metadata(resource: Option<Resource>, attrs: seq<KeyValue>): (m: Option<Json>)
    ensures m.Some? ==> m.value.JObject?
  {
    var merged := MergedFields(resource, attrs);
    if |merged| == 0 then None else Some(JObject(merged))
  }

  function ResourceFields(resource: Option<Resource>): map<string, Json> {
    if resource.Some? then AttributesToJson(resource.value.attributes).fields else map[]
  }

  function MergedFields(resource: Option<Resource>, attrs: seq<KeyValue>): map<string, Json> {
    Prefixed(ResourceFields(resource)) + AttributesToJson(attrs).fields
  }

  /** There is metadata exactly when the record or its resource has an
      attribute. */
  lemma MetadataAbsentIffNoAttributes(resource: Option<Resource>, attrs: seq<KeyValue>)
    ensures Metadata(resource, attrs).None? <==> |attrs| == 0 && (resource.None? || |resource.value.attributes| == 0)
  {
    var own := AttributesToJson(attrs).fields;
    var prefixed := Prefixed(ResourceFields(resource));
    if |attrs| > 0 {
      assert attrs[0].key in own;
      assert attrs[0].key in MergedFields(resource, attrs);
    } else {
      assert own == map[];
    }
    if resource.Some? && |resource.value.attributes| > 0 {
      assert resource.value.attributes[0].key in ResourceFields(resource);
      assert ResourcePrefix + resource.value.attributes[0].key in MergedFields(resource, attrs);
    } else {
      assert ResourceFields(resource) == map[];
      assert prefixed == map[];
    }
  }

  /** A record's own attribute sits under its bare key with the value of
      its last occurrence, over any resource attribute of the same name. */
  lemma MetadataOwnLastWins(resource: Option<Resource>, attrs: seq<KeyValue>, i: nat)
    requires i < |attrs|
    requires forall l :: i < l < |attrs| ==> attrs[l].key != attrs[i].key
    ensures Metadata(resource, attrs).Some?
    ensures Metadata(resource, attrs).value.fields[attrs[i].key] == ToJsonValue(attrs[i].value)
  {
    MetadataAbsentIffNoAttributes(resource, attrs);
  }

  /** Every resource attribute sits under its prefixed key. */
  lemma MetadataHasResourceKeys(resource: Resource, attrs: seq<KeyValue>, i: nat)
    requires i < |resource.attributes|
    ensures Metadata(Some(resource), attrs).Some?
    ensures ResourcePrefix + resource.attributes[i].key in Metadata(Some(resource), attrs).value.fields
  {
    MetadataAbsentIffNoAttributes(Some(resource), attrs);
    assert resource.attributes[i].key in ResourceFields(Some(resource));
  }

  /** No key comes from anywhere else: a key is a record attribute's or
      carries the resource prefix. */
  lemma MetadataKeysComeFromAttributes(resource: Option<Resource>, attrs: seq<KeyValue>, k: string)
    requires Metadata(resource, attrs).Some? && k in Metadata(resource, attrs).value.fields
    ensures (exists i :: 0 <= i < |attrs| && attrs[i].key == k) || (StartsWith(k, ResourcePrefix) && resource.Some?)
  {
    if k !in AttributesToJson(attrs).fields {
      assert k in Prefixed(ResourceFields(resource));
    }
  }

  /** One record of a resource. */
  function ConvertLogRecord(resource: Option<Resource>, record: LogRecord, serialize: Json -> string): (input: LogService.LogInput)
    ensures input.level == SeverityToLevel(record)
    ensures input.message == Message(record.body, serialize)
    ensures input.timestamp == if ParseNanoTimestamp(record.timeUnixNano).Some? then ParseNanoTimestamp(record.timeUnixNano)
                               else ParseNanoTimestamp(record.observedTimeUnixNano)
    ensures input.source == if resource.Some? then ServiceName(resource.value) else None
    ensures input.metadata == Metadata(resource, record.attributes)
    ensures input.traceId == NonEmpty(record.traceId) && input.spanId == NonEmpty(record.spanId)
  {
    var timestamp := ParseNanoTimestamp(record.timeUnixNano);
    LogService.LogInput(
      SeverityToLevel(record),
      Message(record.body, serialize),
      if timestamp.Some? then timestamp else ParseNanoTimestamp(record.observedTimeUnixNano),
      if resource.Some? then ServiceName(resource.value) else None,
      Metadata(resource, record.attributes),
      NonEmpty(record.traceId),
      NonEmpty(record.spanId))
  }

  // ---------------------------------------------------------------------------
  // the request

  /** The inputs of one scope. */
  function ScopeInputs(resource: Option<Resource>, scope: ScopeLogs, serialize: Json -> string): (xs: seq<LogService.LogInput>)
    ensures |xs| == |scope.logRecords|
    ensures forall c :: 0 <= c < |xs| ==> xs[c] == ConvertLogRecord(resource, scope.logRecords[c], serialize)
  {
    seq(|scope.logRecords|, c requires 0 <= c < |scope.logRecords| => ConvertLogRecord(resource, scope.logRecords[c], serialize))
  }

  function ResourceInputLists(rl: ResourceLogs, serialize: Json -> string): (xss: seq<seq<LogService.LogInput>>)
    ensures |xss| == |rl.scopeLogs|
    ensures forall b :: 0 <= b < |xss| ==> xss[b] == ScopeInputs(rl.resource, rl.scopeLogs[b], serialize)
  {
    seq(|rl.scopeLogs|, b requires 0 <= b < |rl.scopeLogs| => ScopeInputs(rl.resource, rl.scopeLogs[b], serialize))
  }

  function RequestInputLists(req: ExportLogsServiceRequest, serialize: Json -> string): (xss: seq<seq<LogService.LogInput>>)
    ensures |xss| == |req.resourceLogs|
    ensures forall a :: 0 <= a < |xss| ==> xss[a] == Flatten(ResourceInputLists(req.resourceLogs[a], serialize))
  {
    seq(|req.resourceLogs|, a requires 0 <= a < |req.resourceLogs| => Flatten(ResourceInputLists(req.resourceLogs[a], serialize)))
  }

  /** The input is the conversion of some record of the scope. */
  predicate FromScopeRecord(resource: Option<Resource>, scope: ScopeLogs, serialize: Json -> string, x: LogService.LogInput) {
    exists c :: 0 <= c < |scope.logRecords| && x == ConvertLogRecord(resource, scope.logRecords[c], serialize)
  }

  /** The input is the conversion of some record of the resource. */
  predicate FromResourceRecord(rl: ResourceLogs, serialize: Json -> string, x: LogService.LogInput) {
    exists b :: 0 <= b < |rl.scopeLogs| && FromScopeRecord(rl.resource, rl.scopeLogs[b], serialize, x)
  }

  /** The input is the conversion of some record of the request. */
  predicate FromSomeRecord(req: ExportLogsServiceRequest, serialize: Json -> string, x: LogService.LogInput) {
    exists a :: 0 <= a < |req.resourceLogs| && FromResourceRecord(req.resourceLogs[a], serialize, x)
  }

  lemma ScopeInputMembers(resource: Option<Resource>, scope: ScopeLogs, serialize: Json -> string)
    ensures forall x :: x in ScopeInputs(resource, scope, serialize) <==> FromScopeRecord(resource, scope, serialize, x)
  {
    var xs := ScopeInputs(resource, scope, serialize);
    forall x | FromScopeRecord(resource, scope, serialize, x) ensures x in xs {
      var c :| 0 <= c < |scope.logRecords| && x == ConvertLogRecord(resource, scope.logRecords[c], serialize);
      assert x == xs[c];
    }
  }

  lemma ResourceInputMembers(rl: ResourceLogs, serialize: Json -> string)
    ensures forall x :: x in Flatten(ResourceInputLists(rl, serialize)) <==> FromResourceRecord(rl, serialize, x)
  {
    var xss := ResourceInputLists(rl, serialize);
    FlattenMembers(xss);
    forall b | 0 <= b < |xss|
      ensures forall x :: x in xss[b] <==> FromScopeRecord(rl.resource, rl.scopeLogs[b], serialize, x)
    {
      ScopeInputMembers(rl.resource, rl.scopeLogs[b], serialize);
    }
  }

  lemma RequestInputMembers(req: ExportLogsServiceRequest, serialize: Json -> string)
    ensures forall x :: x in Flatten(RequestInputLists(req, serialize)) <==> FromSomeRecord(req, serialize, x)
  {
    var outer := RequestInputLists(req, serialize);
    FlattenMembers(outer);
    forall a | 0 <= a < |outer|
      ensures forall x :: x in outer[a] <==> FromResourceRecord(req.resourceLogs[a], serialize, x)
    {
      ResourceInputMembers(req.resourceLogs[a], serialize);
    }
  }

  /** `convert_otlp_logs`: every input converts a record of the request, and
      every record's conversion is among the inputs. */
  function ConvertOtlpLogs(req: ExportLogsServiceRequest, serialize: Json -> string): (r: seq<LogService.LogInput>)
    ensures forall x :: x in r <==> FromSomeRecord(req, serialize, x)
  {
    RequestInputMembers(req, serialize);
    Flatten(RequestInputLists(req, serialize))
  }

  /** Every record gives one input, at the position that follows all the
      records of the earlier resources and, within its resource, of the
      earlier scopes; the input carries its resource's service name. */
  lemma OneInputPerRecordInOrder(req: ExportLogsServiceRequest, serialize: Json -> string, a: nat, b: nat, c: nat)
    requires a < |req.resourceLogs| && b < |req.resourceLogs[a].scopeLogs|
    requires c < |req.resourceLogs[a].scopeLogs[b].logRecords|
    ensures var outer := RequestInputLists(req, serialize);
      var inner := ResourceInputLists(req.resourceLogs[a], serialize);
      var pos := Offset(outer, a) + Offset(inner, b) + c;
      && pos < |ConvertOtlpLogs(req, serialize)|
      && ConvertOtlpLogs(req, serialize)[pos]
         == ConvertLogRecord(req.resourceLogs[a].resource, req.resourceLogs[a].scopeLogs[b].logRecords[c], serialize)
    ensures |ConvertOtlpLogs(req, serialize)| == Offset(RequestInputLists(req, serialize), |req.resourceLogs|)
  {
    var outer := RequestInputLists(req, serialize);
    var rl := req.resourceLogs[a];
    var inner := ResourceInputLists(rl, serialize);
    assert inner[b] == ScopeInputs(rl.resource, rl.scopeLogs[b], serialize);
    assert inner[b][c] == ConvertLogRecord(rl.resource, rl.scopeLogs[b].logRecords[c], serialize);
    NestedFlattenIndex(outer, inner, a, b, c);
  }

  /** A record with severity 9, a string body and a resource naming its
      service reads as an INFO log with that message from that service. */
  lemma SimpleLogConverts(serialize: Json -> string)
    ensures var resource := Resource([KeyValue("service.name", StringValue("test-service"))]);
      var record := LogRecord("1704067200000000000", "", 9, "", Some(StringValue("Test log message")), [], "", "");
      var input := ConvertLogRecord(Some(resource), record, serialize);
      && input.level == "INFO" && input.message == "Test log message" && input.source == Some("test-service")
      && input.traceId.None? && input.spanId.None?
  {
    var resource := Resource([KeyValue("service.name", StringValue("test-service"))]);
    var record := LogRecord("1704067200000000000", "", 9, "", Some(StringValue("Test log message")), [], "", "");
    assert SeverityToLevel(record) == "INFO";
    assert FirstWithKey(resource.attributes, "service.name") == Some(0);
    assert ServiceName(resource) == Some("test-service");
    assert NonEmpty("") == None;
  }
}
