/**
  The values that `json.loads` hands to the controller, and the two Python
  operations the controller applies to them without checking their type:
  truthiness (`if state.get("motion", True)`) and `<` against the float
  desired temperature.
 */
module JsonValues {
  import opened Wrappers

  /** A decoded JSON value: JSON numbers (int or float) are modelled as reals. */
  datatype Json =
    | JNull
    | JBool(b: bool)
    | JNum(n: real)
    | JStr(s: string)
    | JArray(items: seq<Json>)
    | JObject(fields: map<string, Json>)

  /** Python's `bool(v)` for a decoded JSON value. */
  predicate Truthy(v: Json) {
    match v
    case JNull => false
    case JBool(b) => b
    case JNum(n) => n != 0.0
    case JStr(s) => s != ""
    case JArray(items) => |items| != 0
    case JObject(fields) => |fields| != 0
  }

  /**
    Python's `v < bound` for a float `bound`: `bool` compares as the integer
    0 or 1, numbers compare by value, and every other value raises
    `TypeError`, modelled as `None`.
   */
  function LessThan(v: Json, bound: real): Option<bool> {
    match v
    case JBool(b) => Some((if b then 1.0 else 0.0) < bound)
    case JNum(n) => Some(n < bound)
    case _ => None
  }
}
