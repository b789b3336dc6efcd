/** Values that Python's `json.loads` produces, with the distinctions the scraper's
    code observes: an integer, a boolean and a float are different values, and
    `isinstance(v, int)` holds of both integers and booleans. */
module Json {

  datatype JsonValue =
    | JNull
    | JBool(b: bool)
    | JInt(i: int)
    | JFloat(literal: string)
    | JStr(s: string)
    | JArr(items: seq<JsonValue>)
    | JObj(fields: map<string, JsonValue>)

  /** `isinstance(v, int)`: a JSON integer, or `true`/`false` (Python's `bool` is a
      subclass of `int`). */
  predicate IsPyInt(v: JsonValue) {
    v.JInt? || v.JBool?
  }

  /** The integer a Python `int` stands for: `True == 1` and `False == 0`. */
  function PyIntValue(v: JsonValue): int
    requires IsPyInt(v)
  {
    match v
    case JInt(i) => i
    case JBool(b) => if b then 1 else 0
  }

  /** `dict.get(key, default)`. */
  function Get(fields: map<string, JsonValue>, key: string, default: JsonValue): JsonValue {
    if key in fields then fields[key] else default
  }

  /** Whether the value can be used as a `dict` key (`hash` does not raise). */
  predicate IsHashable(v: JsonValue) {
    !v.JArr? && !v.JObj?
  }

  /** A list of strings as a JSON array. */
  function StrArray(ss: seq<string>): (v: JsonValue)
    ensures v.JArr? && |v.items| == |ss|
    ensures forall i :: 0 <= i < |ss| ==> v.items[i] == JStr(ss[i])
  {
    JArr(seq(|ss|, i requires 0 <= i < |ss| => JStr(ss[i])))
  }
}
