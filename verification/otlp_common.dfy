/** The OTLP/JSON shapes shared by logs, traces and metrics: attribute values
    and their JSON form, resources and their service name and version, the
    nanosecond timestamps carried as decimal strings, and the flattening of
    the resource / scope / record nesting. */
module OtlpCommon {
  import opened Wrappers
  import opened Text
  import opened Json

  /** An f64 as OTLP carries it: a finite value, or NaN or an infinity. */
  datatype Double = Finite(r: real) | NonFinite

  /** `AnyValue`: at most one field is meant to be set, but nothing enforces
      it, so every combination is representable. */
  datatype AnyValue = AnyValue(
    stringValue: Option<string>,
    boolValue: Option<bool>,
    intValue: Option<string>,
    doubleValue: Option<Double>,
    arrayValue: Option<ArrayValue>,
    kvlistValue: Option<KeyValueList>,
    bytesValue: Option<string>)

  datatype ArrayValue = ArrayValue(values: seq<AnyValue>)

  datatype KeyValueList = KeyValueList(values: seq<KeyValue>)

  datatype KeyValue = KeyValue(key: string, value: AnyValue)

  /** `Resource`; the dropped-attribute count plays no part. */
  datatype Resource = Resource(attributes: seq<KeyValue>)

  const NoValue: AnyValue := AnyValue(None, None, None, None, None, None, None)

  function StringValue(s: string): AnyValue {
    NoValue.(stringValue := Some(s))
  }

  // ---------------------------------------------------------------------------
  // JSON objects built by insertion

  /** The map built by inserting the pairs in order, as a loop of
      `map.insert` does. */
  function InsertInOrder<V>(pairs: seq<(string, V)>): map<string, V>
    decreases |pairs|
  {
    if |pairs| == 0 then map[]
    else InsertInOrder(pairs[..|pairs| - 1])[pairs[|pairs| - 1].0 := pairs[|pairs| - 1].1]
  }

  /** The pair at `i` is the last one with its key. */
  predicate LastOfKey<V>(pairs: seq<(string, V)>, i: nat)
    requires i < |pairs|
  {
    forall j :: i < j < |pairs| ==> pairs[j].0 != pairs[i].0
  }

  /** Every key of the pairs is present, and a key that occurs several times
      holds the value of its last occurrence. */
  lemma InsertInOrderLastWins<V>(pairs: seq<(string, V)>)
    ensures forall k :: k in InsertInOrder(pairs) <==> exists i :: 0 <= i < |pairs| && pairs[i].0 == k
    ensures forall i :: 0 <= i < |pairs| && LastOfKey(pairs, i) ==> InsertInOrder(pairs)[pairs[i].0] == pairs[i].1
  {
    InsertInOrderKeys(pairs);
    InsertInOrderValues(pairs);
  }

  lemma {:induction false} InsertInOrderKeys<V>(pairs: seq<(string, V)>)
    ensures forall k :: k in InsertInOrder(pairs) <==> exists i :: 0 <= i < |pairs| && pairs[i].0 == k
    decreases |pairs|
  {
    if |pairs| > 0 {
      var n := |pairs| - 1;
      var front := pairs[..n];
      InsertInOrderKeys(front);
      assert InsertInOrder(pairs) == InsertInOrder(front)[pairs[n].0 := pairs[n].1];
      assert forall i :: 0 <= i < n ==> front[i] == pairs[i];
      forall k ensures k in InsertInOrder(pairs) <==> exists i :: 0 <= i < |pairs| && pairs[i].0 == k {
        if k == pairs[n].0 {
          assert pairs[n].0 == k;
        } else if k in InsertInOrder(front) {
          var i :| 0 <= i < n && front[i].0 == k;
          assert pairs[i].0 == k;
        }
      }
    }
  }

  lemma {:induction false} InsertInOrderValues<V>(pairs: seq<(string, V)>)
    ensures forall i :: 0 <= i < |pairs| && LastOfKey(pairs, i) ==>
      pairs[i].0 in InsertInOrder(pairs) && InsertInOrder(pairs)[pairs[i].0] == pairs[i].1
    decreases |pairs|
  {
    if |pairs| > 0 {
      var n := |pairs| - 1;
      var front := pairs[..n];
      InsertInOrderValues(front);
      assert InsertInOrder(pairs) == InsertInOrder(front)[pairs[n].0 := pairs[n].1];
      forall i | 0 <= i < |pairs| && LastOfKey(pairs, i)
        ensures pairs[i].0 in InsertInOrder(pairs) && InsertInOrder(pairs)[pairs[i].0] == pairs[i].1
      {
        if i < n {
          assert pairs[n].0 != pairs[i].0;
          assert front[i] == pairs[i];
          assert LastOfKey(front, i);
        }
      }
    }
  }

  // ---------------------------------------------------------------------------
  // attribute values as JSON

  /** `AnyValue::to_json_value`: the first field present decides, in the order
      string, bool, int, double, array, key-value list, bytes. An int that is
      not a 64-bit integer is kept as its text; a non-finite double is null;
      a list of pairs becomes an object in which a later key wins. */
  function ToJsonValue(v: AnyValue): (j: Json)
    ensures v.stringValue.Some? ==> j == JString(v.stringValue.value)
    ensures v.stringValue.None? && v.boolValue.Some? ==> j == JBool(v.boolValue.value)
    ensures v.stringValue.None? && v.boolValue.None? && v.intValue.Some? ==>
      j == if ParseI64(v.intValue.value).Some? then JInt(ParseI64(v.intValue.value).value) else JString(v.intValue.value)
    ensures v.stringValue.None? && v.boolValue.None? && v.intValue.None? && v.doubleValue.Some? ==>
      j == if v.doubleValue.value.Finite? then JFloat(v.doubleValue.value.r) else JNull
    ensures v.stringValue.None? && v.boolValue.None? && v.intValue.None? && v.doubleValue.None? && v.arrayValue.Some? ==>
      j.JArray? && |j.items| == |v.arrayValue.value.values|
    ensures v.stringValue.None? && v.boolValue.None? && v.intValue.None? && v.doubleValue.None? && v.arrayValue.None?
            && v.kvlistValue.Some? ==>
      j.JObject? && forall k :: k in j.fields <==> exists i :: 0 <= i < |v.kvlistValue.value.values| && v.kvlistValue.value.values[i].key == k
    ensures j.JNull? <==> v == NoValue
                          || (v.stringValue.None? && v.boolValue.None? && v.intValue.None? && v.doubleValue == Some(NonFinite))
    decreases v
  {
    if v.stringValue.Some? then JString(v.stringValue.value)
    else if v.boolValue.Some? then JBool(v.boolValue.value)
    else if v.intValue.Some? then
      match ParseI64(v.intValue.value)
      case Some(n) => JInt(n)
      case None => JString(v.intValue.value)
    else if v.doubleValue.Some? then
      match v.doubleValue.value
      case Finite(r) => JFloat(r)
      case NonFinite => JNull
    else if v.arrayValue.Some? then
      var items := v.arrayValue.value.values;
      JArray(seq(|items|, k requires 0 <= k < |items| && items[k] in items => ToJsonValue(items[k])))
    else if v.kvlistValue.Some? then
      var kvs := v.kvlistValue.value.values;
      var pairs := seq(|kvs|, k requires 0 <= k < |kvs| && kvs[k] in kvs => (kvs[k].key, ToJsonValue(kvs[k].value)));
      InsertInOrderLastWins(pairs);
      assert forall i :: 0 <= i < |kvs| ==> pairs[i].0 == kvs[i].key;
      JObject(InsertInOrder(pairs))
    else if v.bytesValue.Some? then JString(v.bytesValue.value)
    else JNull
  }

  /** Each attribute's key with its value as JSON, in order. */
  function AttributePairs(attrs: seq<KeyValue>): (ps: seq<(string, Json)>)
    ensures |ps| == |attrs| && forall k :: 0 <= k < |attrs| ==> ps[k] == (attrs[k].key, ToJsonValue(attrs[k].value))
  {
    seq(|attrs|, k requires 0 <= k < |attrs| => (attrs[k].key, ToJsonValue(attrs[k].value)))
  }

  /** `attributes_to_json`, and `Resource::to_json` on a resource's
      attributes: an object with one field per key; for a repeated key the
      later attribute wins. */
  function AttributesToJson(attrs: seq<KeyValue>): (j: Json)
    ensures j.JObject?
    ensures forall k :: k in j.fields <==> exists i :: 0 <= i < |attrs| && attrs[i].key == k
    ensures forall i :: 0 <= i < |attrs| && (forall l :: i < l < |attrs| ==> attrs[l].key != attrs[i].key)
                        ==> j.fields[attrs[i].key] == ToJsonValue(attrs[i].value)
  {
    var ps := AttributePairs(attrs);
    InsertInOrderLastWins(ps);
    assert forall i :: 0 <= i < |attrs| ==> ps[i].0 == attrs[i].key;
    assert forall i :: 0 <= i < |attrs| && (forall l :: i < l < |attrs| ==> attrs[l].key != attrs[i].key) ==> LastOfKey(ps, i);
    JObject(InsertInOrder(ps))
  }

  /** Two attributes with the same key: the JSON keeps the second. */
  lemma LaterAttributeWins(key: string, first: string, second: string)
    ensures AttributesToJson([KeyValue(key, StringValue(first)), KeyValue(key, StringValue(second))]).fields[key]
            == JString(second)
  {
    var attrs := [KeyValue(key, StringValue(first)), KeyValue(key, StringValue(second))];
    assert attrs[1].key == key;
  }

  // ---------------------------------------------------------------------------
  // service name and version

  /** The first attribute with the given key. */
  function FirstWithKey(attrs: seq<KeyValue>, key: string): (r: Option<nat>)
    ensures r.None? <==> forall j :: 0 <= j < |attrs| ==> attrs[j].key != key
    ensures r.Some? ==> r.value < |attrs| && attrs[r.value].key == key
                        && forall j :: 0 <= j < r.value ==> attrs[j].key != key
    decreases |attrs|
  {
    if |attrs| == 0 then None
    else if attrs[0].key == key then Some(0)
    else
      var rest := FirstWithKey(attrs[1..], key);
      assert forall j :: 1 <= j < |attrs| ==> attrs[j] == attrs[1..][j - 1];
      if rest.None? then None else Some(rest.value + 1)
  }

  /** The string value of the first attribute with the key; nothing when there
      is none or when that first one is not a string, whatever follows. */
  function StringAttribute(attrs: seq<KeyValue>, key: string): (r: Option<string>)
    ensures r.Some? <==> FirstWithKey(attrs, key).Some? && attrs[FirstWithKey(attrs, key).value].value.stringValue.Some?
    ensures r.Some? ==> exists i :: 0 <= i < |attrs| && attrs[i].key == key && attrs[i].value.stringValue == r
  {
    match FirstWithKey(attrs, key)
    case None => None
    case Some(i) => attrs[i].value.stringValue
  }

  /** `Resource::get_service_name`. */
  function ServiceName(r: Resource): Option<string> {
    StringAttribute(r.attributes, "service.name")
  }

  /** `Resource::get_service_version`. */
  function ServiceVersion(r: Resource): Option<string> {
    StringAttribute(r.attributes, "service.version")
  }

  /** The service name is read from the first `service.name` attribute while
      the resource's JSON keeps the last one. */
  lemma ServiceNameIsFirstJsonIsLast(a: string, b: string)
    ensures var r := Resource([KeyValue("service.name", StringValue(a)), KeyValue("service.name", StringValue(b))]);
      ServiceName(r) == Some(a) && AttributesToJson(r.attributes).fields["service.name"] == JString(b)
  {
    var r := Resource([KeyValue("service.name", StringValue(a)), KeyValue("service.name", StringValue(b))]);
    assert FirstWithKey(r.attributes, "service.name") == Some(0);
    LaterAttributeWins("service.name", a, b);
  }

  // ---------------------------------------------------------------------------
  // nanosecond timestamps

  const NanosPerSecond: int := 1_000_000_000
  const U32Modulus: int := 0x1_0000_0000

  /** Rust's `/` and `%` on integers truncate toward zero. */
  function TruncDiv(a: int, b: int): int
    requires b > 0
  {
    if a >= 0 then a / b else -((-a) / b)
  }

  function TruncRem(a: int, b: int): (r: int)
    requires b > 0
    ensures a == TruncDiv(a, b) * b + r
    ensures a >= 0 ==> 0 <= r < b
    ensures a < 0 ==> -b < r <= 0
  {
    if a >= 0 then a % b else -((-a) % b)
  }

  /** `as u32`: the low 32 bits. */
  function AsU32(x: int): (r: int)
    ensures 0 <= r < U32Modulus && (r - x) % U32Modulus == 0
  {
    x % U32Modulus
  }

  /** The nanosecond part a timestamp string yields once cast: below a second
      for a whole or non-negative count, and beyond two seconds otherwise. So
      the leap-second range that chrono also accepts is never reached. */
  lemma NanoPartIsBelowASecondOrRefused(n: int)
    ensures var part := AsU32(TruncRem(n, NanosPerSecond));
      && (n >= 0 || TruncRem(n, NanosPerSecond) == 0 ==> part == TruncRem(n, NanosPerSecond) < NanosPerSecond)
      && (n < 0 && TruncRem(n, NanosPerSecond) != 0 ==> part >= 2 * NanosPerSecond)
  {
  }

  /** `parse_nano_timestamp`, as nanoseconds since the epoch: the text must be
      a 64-bit integer; it is split into whole seconds and a nanosecond part
      with Rust's truncating division, the part is cast to `u32`, and chrono
      refuses a part of two seconds or more. */
  function ParseNanoTimestamp(text: string): (t: Option<int>)
    ensures text == "" ==> t.None?
    ensures ParseI64(text).None? ==> t.None?
    ensures ParseI64(text).Some? && ParseI64(text).value >= 0 ==> t == ParseI64(text)
    ensures ParseI64(text).Some? && ParseI64(text).value < 0 ==>
      t == if ParseI64(text).value % NanosPerSecond == 0 then ParseI64(text) else None
  {
    if text == "" then None
    else
      match ParseI64(text)
      case None => None
      case Some(n) =>
        var secs := TruncDiv(n, NanosPerSecond);
        var nsecs := AsU32(TruncRem(n, NanosPerSecond));
        NanoPartIsBelowASecondOrRefused(n);
        if nsecs < 2 * NanosPerSecond then Some(secs * NanosPerSecond + nsecs) else None
  }

  /** A non-negative count splits into whole seconds and the remaining
      nanoseconds, and reads back as itself. */
  lemma NonNegativeTimestampSplits(n: int)
    requires 0 <= n <= I64Max
    ensures ParseNanoTimestamp(IntToString(n)) == Some(n)
    ensures TruncDiv(n, NanosPerSecond) == n / NanosPerSecond && TruncRem(n, NanosPerSecond) == n % NanosPerSecond
  {
    ParseI64OfIntToString(n);
  }

  // ---------------------------------------------------------------------------
  // flattening

  /** The lists one after another. */
  function Flatten<T>(xss: seq<seq<T>>): seq<T>
    decreases |xss|
  {
    if |xss| == 0 then [] else Flatten(xss[..|xss| - 1]) + xss[|xss| - 1]
  }

  /** The number of elements before list `a`. */
  function Offset<T>(xss: seq<seq<T>>, a: nat): nat
    requires a <= |xss|
    decreases a
  {
    if a == 0 then 0 else Offset(xss, a - 1) + |xss[a - 1]|
  }

  /** Flattening keeps every element, in order: element `i` of list `a` sits
      after all the elements of the lists before `a`. */
  lemma {:induction false} FlattenIndex<T>(xss: seq<seq<T>>, a: nat, i: nat)
    requires a < |xss| && i < |xss[a]|
    ensures |Flatten(xss)| == Offset(xss, |xss|)
    ensures Offset(xss, a) + i < |Flatten(xss)| && Flatten(xss)[Offset(xss, a) + i] == xss[a][i]
    decreases |xss|
  {
    var n := |xss| - 1;
    var front := xss[..n];
    FlattenLength(xss);
    OffsetOfPrefix(xss, n, a);
    if a < n {
      FlattenIndex(front, a, i);
    } else {
      FlattenLength(front);
      OffsetOfPrefix(xss, n, n);
    }
  }

  /** Two levels of flattening: element `c` of list `b` of the lists that
      make up list `a`. */
  lemma NestedFlattenIndex<T>(outer: seq<seq<T>>, inner: seq<seq<T>>, a: nat, b: nat, c: nat)
    requires a < |outer| && outer[a] == Flatten(inner)
    requires b < |inner| && c < |inner[b]|
    ensures |Flatten(outer)| == Offset(outer, |outer|)
    ensures Offset(outer, a) + Offset(inner, b) + c < |Flatten(outer)|
    ensures Flatten(outer)[Offset(outer, a) + Offset(inner, b) + c] == inner[b][c]
  {
    FlattenIndex(inner, b, c);
    FlattenIndex(outer, a, Offset(inner, b) + c);
  }

  /** Three levels of flattening: element `i` of list `c` of the lists
      that make up list `b` of the lists that make up list `a`. */
  lemma TripleFlattenIndex<T>(outer: seq<seq<T>>, middle: seq<seq<T>>, inner: seq<seq<T>>, a: nat, b: nat, c: nat, i: nat)
    requires a < |outer| && outer[a] == Flatten(middle)
    requires b < |middle| && middle[b] == Flatten(inner)
    requires c < |inner| && i < |inner[c]|
    ensures Offset(outer, a) + Offset(middle, b) + Offset(inner, c) + i < |Flatten(outer)|
    ensures Flatten(outer)[Offset(outer, a) + Offset(middle, b) + Offset(inner, c) + i] == inner[c][i]
  {
    FlattenIndex(inner, c, i);
    NestedFlattenIndex(outer, middle, a, b, Offset(inner, c) + i);
  }

  /** Where each part of a four-part concatenation sits: position `i` of
      each part, shifted by the lengths of the parts before it. */
  lemma ConcatFourAt<T>(g: seq<T>, s: seq<T>, h: seq<T>, z: seq<T>, i: nat)
    ensures |g + s + h + z| == |g| + |s| + |h| + |z|
    ensures i < |g| ==> (g + s + h + z)[i] == g[i]
    ensures i < |s| ==> (g + s + h + z)[|g| + i] == s[i]
    ensures i < |h| ==> (g + s + h + z)[|g| + |s| + i] == h[i]
    ensures i < |z| ==> (g + s + h + z)[|g| + |s| + |h| + i] == z[i]
  {
  }

  lemma {:induction false} FlattenLength<T>(xss: seq<seq<T>>)
    ensures |Flatten(xss)| == Offset(xss, |xss|)
    decreases |xss|
  {
    if |xss| > 0 {
      var n := |xss| - 1;
      FlattenLength(xss[..n]);
      OffsetOfPrefix(xss, n, n);
    }
  }

  /** Flattening neither invents nor loses an element: something is in the
      flattened list exactly when it is in one of the lists. */
  lemma {:induction false} FlattenMembers<T>(xss: seq<seq<T>>)
    ensures forall x :: x in Flatten(xss) <==> exists a :: 0 <= a < |xss| && x in xss[a]
    decreases |xss|
  {
    if |xss| > 0 {
      var n := |xss| - 1;
      FlattenMembers(xss[..n]);
      forall x ensures x in Flatten(xss) <==> exists a :: 0 <= a < |xss| && x in xss[a] {
        if x in Flatten(xss[..n]) {
          var a :| 0 <= a < n && x in xss[..n][a];
          assert x in xss[a];
        }
        if exists a :: 0 <= a < |xss| && x in xss[a] {
          var a :| 0 <= a < |xss| && x in xss[a];
          if a < n {
            assert x in xss[..n][a];
          }
        }
      }
    }
  }

  /** Offsets do not depend on the lists after them. */
  lemma {:induction false} OffsetOfPrefix<T>(xss: seq<seq<T>>, n: nat, a: nat)
    requires a <= n <= |xss|
    ensures Offset(xss[..n], a) == Offset(xss, a)
    decreases a
  {
    if a > 0 {
      OffsetOfPrefix(xss, n, a - 1);
      assert xss[..n][a - 1] == xss[a - 1];
    }
  }

  // ---------------------------------------------------------------------------
  // filter_map

  /** An empty string is no value. */
  function NonEmpty(s: string): (r: Option<string>)
    ensures r.None? <==> s == ""
    ensures r.Some? ==> r.value == s
  {
    if s == "" then None else Some(s)
  }

  /** Rust's `filter_map`: the present results, in order. */
  function FilterMap<T, U>(xs: seq<T>, f: T -> Option<U>): (ys: seq<U>)
    ensures |ys| <= |xs|
  {
    if |xs| == 0 then []
    else (if f(xs[0]).Some? then [f(xs[0]).value] else []) + FilterMap(xs[1..], f)
  }

  /** A single element is kept, as its result, exactly when it has one. */
  lemma FilterMapOfOne<T, U>(x: T, f: T -> Option<U>)
    ensures FilterMap([x], f) == if f(x).Some? then [f(x).value] else []
  {
    assert [x][1..] == [];
  }

  /** What a list keeps is what its parts keep, in order; with
      `FilterMapOfOne` this determines the whole result. */
  lemma {:induction false} FilterMapAppend<T, U>(a: seq<T>, b: seq<T>, f: T -> Option<U>)
    ensures FilterMap(a + b, f) == FilterMap(a, f) + FilterMap(b, f)
    decreases |a|
  {
    if |a| == 0 {
      assert a + b == b;
    } else {
      var ab := a + b;
      assert ab[1..] == a[1..] + b;
      assert ab[0] == a[0];
      var head: seq<U> := if f(a[0]).Some? then [f(a[0]).value] else [];
      assert FilterMap(ab, f) == head + FilterMap(ab[1..], f);
      assert FilterMap(a, f) == head + FilterMap(a[1..], f);
      FilterMapAppend(a[1..], b, f);
      assert FilterMap(ab, f) == head + (FilterMap(a[1..], f) + FilterMap(b, f));
    }
  }

  /** Nothing is dropped exactly when every element has a result, and then
      the results line up with the elements. */
  lemma {:induction false} FilterMapKeepsAllIffAllPresent<T, U>(xs: seq<T>, f: T -> Option<U>)
    ensures |FilterMap(xs, f)| == |xs| <==> forall i :: 0 <= i < |xs| ==> f(xs[i]).Some?
    ensures |FilterMap(xs, f)| == |xs| ==> forall i :: 0 <= i < |xs| ==> FilterMap(xs, f)[i] == f(xs[i]).value
    decreases |xs|
  {
    if |xs| > 0 {
      FilterMapKeepsAllIffAllPresent(xs[1..], f);
      assert forall i :: 1 <= i < |xs| ==> xs[i] == xs[1..][i - 1];
    }
  }
}
