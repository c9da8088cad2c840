/** JSON values as they cross the HTTP boundaries of the system, with the two
    truthiness rules (Python's and JavaScript's) that the code applies to them. */
module JsonValue {
  import opened Wrappers

  /** A decoded JSON document. Numbers are kept as integers: no code path of the
      model depends on a fractional part. */
  datatype Json =
    | JNull
    | JBool(b: bool)
    | JNumber(n: int)
    | JString(s: string)
    | JArray(items: seq<Json>)
    | JObject(fields: map<string, Json>)

  /** Python truthiness of the value `json.loads` produces: None, False, 0, "", [] and {} are false. */
  predicate PyTruthy(v: Json) {
    match v
    case JNull => false
    case JBool(b) => b
    case JNumber(n) => n != 0
    case JString(s) => |s| > 0
    case JArray(items) => |items| > 0
    case JObject(fields) => |fields| > 0
  }

  /** JavaScript truthiness: null, false, 0 and "" are false; every array and object is true. */
  predicate JsTruthy(v: Json) {
    match v
    case JNull => false
    case JBool(b) => b
    case JNumber(n) => n != 0
    case JString(s) => |s| > 0
    case JArray(_) => true
    case JObject(_) => true
  }

  /** Property access `v.key` / `v.get(key)`: present only on an object holding the key. */
  function Member(v: Json, key: string): (r: Option<Json>)
    ensures r.Some? <==> v.JObject? && key in v.fields
    ensures r.Some? ==> r.value == v.fields[key]
  {
    if v.JObject? && key in v.fields then Some(v.fields[key]) else None
  }

  /** A one-field object `{key: value}`. */
  function Object1(key: string, value: Json): (r: Json)
    ensures r.JObject? && r.fields.Keys == {key} && r.fields[key] == value
  {
    JObject(map[key := value])
  }

  /** A two-field object `{k1: v1, k2: v2}` with distinct keys. */
  function Object2(k1: string, v1: Json, k2: string, v2: Json): (r: Json)
    requires k1 != k2
    ensures r.JObject? && r.fields.Keys == {k1, k2}
    ensures r.fields[k1] == v1 && r.fields[k2] == v2
  {
    JObject(map[k1 := v1, k2 := v2])
  }

  /** The JSON array of the given strings, in order. */
  function StringArray(xs: seq<string>): (r: Json)
    ensures r.JArray? && |r.items| == |xs|
    ensures forall i | 0 <= i < |xs| :: r.items[i] == JString(xs[i])
  {
    JArray(seq(|xs|, i requires 0 <= i < |xs| => JString(xs[i])))
  }
}
