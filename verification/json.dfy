/** Decoded JSON values as the scraper sees them after `json.loads`, with
    Python's truthiness and `str()`. */
module Json {
  import opened Text

  /** A decoded JSON value. Numbers are integers in this model. */
  datatype JValue =
    | JNull
    | JBool(b: bool)
    | JInt(n: int)
    | JStr(s: string)
    | JArray(elems: seq<JValue>)
    | JObject(fields: map<string, JValue>)

  /** Python's `bool(v)`: `None`, `False`, `0`, `''`, `[]` and `{}` are falsy. */
  predicate Truthy(v: JValue) {
    match v
    case JNull => false
    case JBool(b) => b
    case JInt(n) => n != 0
    case JStr(s) => s != ""
    case JArray(e) => e != []
    case JObject(f) => f != map[]
  }

  /** Python's `str(v)`. A list or an object is abbreviated to its brackets. */
  function PyStr(v: JValue): (r: string)
    ensures v.JStr? ==> r == v.s
    ensures !v.JStr? ==> r != ""
  {
    match v
    case JNull => "None"
    case JBool(b) => if b then "True" else "False"
    case JInt(n) => IntToString(n)
    case JStr(s) => s
    case JArray(_) => "[]"
    case JObject(_) => "{}"
  }

  /** Python's `d.get(key, default)` on a decoded object. */
  function Get(fields: map<string, JValue>, key: string, default: JValue): (r: JValue)
    ensures key in fields ==> r == fields[key]
    ensures key !in fields ==> r == default
  {
    if key in fields then fields[key] else default
  }
}
