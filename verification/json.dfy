/** The JSON values the backend passes around as `serde_json::Value`: rule
    configurations, log metadata, span attributes, OTLP attribute values.
    Objects are maps, as serde_json's default `Map` is: one value per key, and an
    insertion under an existing key replaces the earlier value. */
module Json {
  import opened Wrappers

  datatype Json =
    | JNull
    | JBool(b: bool)
    | JInt(i: int)
    | JFloat(r: real)
    | JString(s: string)
    | JArray(items: seq<Json>)
    | JObject(fields: map<string, Json>)

  /** `Value::get` with a string key: the field of an object, nothing otherwise. */
  function Get(v: Json, key: string): (r: Option<Json>)
    ensures r.Some? <==> v.JObject? && key in v.fields
    ensures r.Some? ==> r.value == v.fields[key]
  {
    if v.JObject? && key in v.fields then Some(v.fields[key]) else None
  }

  /** `Value::as_str`. */
  function AsStr(v: Json): (r: Option<string>)
    ensures r.Some? <==> v.JString?
  {
    if v.JString? then Some(v.s) else None
  }

  /** `Value::as_array`. */
  function AsArray(v: Json): (r: Option<seq<Json>>)
    ensures r.Some? <==> v.JArray?
  {
    if v.JArray? then Some(v.items) else None
  }

  /** The string elements of an array, in order, with every other element
      skipped: `iter().filter_map(|v| v.as_str())`. */
  function StringElements(items: seq<Json>): (r: seq<string>)
    ensures |r| <= |items|
    ensures forall k :: 0 <= k < |r| ==> JString(r[k]) in items
    ensures (forall k :: 0 <= k < |items| ==> items[k].JString?) ==> |r| == |items|
  {
    if |items| == 0 then []
    else (if items[0].JString? then [items[0].s] else []) + StringElements(items[1..])
  }
}
