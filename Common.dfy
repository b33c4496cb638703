/**
 Values shared by the client and the HTTP handlers: bytes, the outcome of a
 call that may raise, and parsed JSON values with Python's truthiness.
 */
module Common {

  /** One octet of audio data. */
  type byte = b: int | 0 <= b < 256

  type bytes = seq<byte>

  datatype Option<+T> = None | Some(value: T)

  /** The outcome of a call into code that may raise: it either returns a
      value or raises an exception whose `str(e)` is `message`. */
  datatype Attempt<+T> = Returned(value: T) | Raised(message: string)

  /** A parsed JSON value, as Python's `json` module produces it. */
  datatype Json =
    | JNull
    | JBool(b: bool)
    | JInt(i: int)
    | JFloat(r: real)
    | JStr(s: string)
    | JArr(items: seq<Json>)
    | JObj(fields: map<string, Json>)

  /** Python truthiness: `None`, `False`, zero, and empty strings, lists
      and dicts are falsy, everything else is truthy. */
  predicate Truthy(v: Json) {
    match v
    case JNull => false
    case JBool(b) => b
    case JInt(i) => i != 0
    case JFloat(r) => r != 0.0
    case JStr(s) => s != []
    case JArr(items) => items != []
    case JObj(fields) => fields != map[]
  }

  /** `d.get(key)`: the value under `key`, or `None` when it is absent. */
  function Get(d: map<string, Json>, key: string): Json {
    if key in d then d[key] else JNull
  }

  /** `d.get(key, default)`: the default is used only when the key is absent;
      a key present with the value `null` yields `None`. */
  function GetOr(d: map<string, Json>, key: string, default: Json): Json {
    if key in d then d[key] else default
  }
}
