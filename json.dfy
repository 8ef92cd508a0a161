/** The values that Python's `json.loads` produces, and the few Python
    operations that the service applies to them. */
module Json {

  /** A decoded JSON document: `None`, `bool`, `int`, `float`, `str`,
      `list` or `dict` on the Python side. */
  datatype JsonValue =
    | JNull
    | JBool(b: bool)
    | JInt(i: int)
    | JFloat(r: real)
    | JString(s: string)
    | JArray(items: seq<JsonValue>)
    | JObject(fields: map<string, JsonValue>)

  /** Python truthiness of a decoded value: what `if not v` tests. On the
      values an `Optional[str]` can take, only `None` and `""` are falsy. */
  predicate Truthy(v: JsonValue)
    ensures (v.JNull? || v.JString?) ==> (Truthy(v) <==> v != JNull && v != JString(""))
  {
    match v
    case JNull => false
    case JBool(b) => b
    case JInt(i) => i != 0
    case JFloat(r) => r != 0.0
    case JString(s) => s != []
    case JArray(items) => items != []
    case JObject(fields) => fields != map[]
  }

  /** The Python type name of a decoded value, as it appears in an
      `AttributeError` message. */
  function TypeName(v: JsonValue): (r: string)
    ensures r != []
    ensures r == "dict" <==> v.JObject?
  {
    match v
    case JNull => "NoneType"
    case JBool(_) => "bool"
    case JInt(_) => "int"
    case JFloat(_) => "float"
    case JString(_) => "str"
    case JArray(_) => "list"
    case JObject(_) => "dict"
  }

  /** `d.get(key)` on a decoded object: the stored value, or `None` when the
      key is absent. */
  function Get(fields: map<string, JsonValue>, key: string): (r: JsonValue)
    ensures key in fields ==> r == fields[key]
    ensures key !in fields ==> r == JNull
    ensures r != JNull ==> key in fields
  {
    if key in fields then fields[key] else JNull
  }
}
