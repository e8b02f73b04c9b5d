/**
 * Client-side JavaScript objects: a note in the browser store is a map from
 * field name to value. An absent field reads as `undefined`, and object
 * spread `{...a, ...b}` is the map union `a + b`, in which `b` wins.
 */
module Records {

  datatype Value = Str(s: string) | Bool(b: bool) | Null | Undefined

  type Record = map<string, Value>

  /** `r[k]`, with `undefined` for a field the object does not have. */
  function Get(r: Record, k: string): (v: Value)
    ensures k !in r ==> v == Undefined
  {
    if k in r then r[k] else Undefined
  }

  /** `r.id` */
  function Id(r: Record): Value
  {
    Get(r, "id")
  }

  /** JavaScript truthiness of a field value. */
  predicate Truthy(v: Value)
  {
    match v
    case Str(s) => s != ""
    case Bool(b) => b
    case Null => false
    case Undefined => false
  }
}
