/** The loosely typed payloads the device's diagnostic endpoints return, and
    the two dictionary lookups the facade performs on them. */
module Json {

  /** A decoded JSON value. Python's `None` and JSON `null` are the same value. */
  datatype Value =
    | Null
    | Bool(b: bool)
    | Int(i: int)
    | Str(s: string)
    | List(items: seq<Value>)
    | Object(fields: map<string, Value>)

  /** The content of one cache slot: a decoded JSON object. */
  type Payload = map<string, Value>

  /** Python truthiness: `None`, `False`, `0` and empty containers are false. */
  predicate Truthy(v: Value) {
    match v
    case Null => false
    case Bool(b) => b
    case Int(i) => i != 0
    case Str(s) => s != ""
    case List(items) => items != []
    case Object(fields) => fields != map[]
  }

  /** `d.get(key, default)`: the default only when the key is absent
      (a key present with value `null` yields `Null`, not the default). */
  function GetOr(d: Payload, key: string, default: Value): Value {
    if key in d then d[key] else default
  }

  /** `d.get(key)`: `None` when the key is absent. */
  function Get(d: Payload, key: string): Value {
    GetOr(d, key, Null)
  }
}
