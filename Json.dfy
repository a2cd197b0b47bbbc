/**
 * Decoded JSON documents as the manager sees them after `json.loads`,
 * with the Python truthiness and `dict.get` that its code applies to them.
 */
module Json {

  /** A decoded JSON value. Objects are Python dicts; numbers are integers. */
  datatype Json =
    | Null
    | Bool(b: bool)
    | Num(n: int)
    | Str(s: string)
    | Arr(items: seq<Json>)
    | Obj(fields: map<string, Json>)

  /** Python truthiness: `null`, `false`, `0`, `""`, `[]` and `{}` are false. */
  predicate Truthy(v: Json) {
    match v
    case Null => false
    case Bool(b) => b
    case Num(n) => n != 0
    case Str(s) => s != []
    case Arr(items) => items != []
    case Obj(fields) => fields != map[]
  }

  /** `d.get(k)`: a missing key reads as `None`, which is what a JSON `null` decodes to. */
  function Get(fields: map<string, Json>, k: string): Json {
    if k in fields then fields[k] else Null
  }
}
