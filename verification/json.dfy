/** JSON values, as the block's state and handler bodies carry them. */
module Json {

  datatype JsonValue =
    | JNull
    | JBool(b: bool)
    | JNumber(n: real)
    | JString(s: string)
    | JArray(items: seq<JsonValue>)
    | JObject(fields: map<string, JsonValue>)

  /** `dict.get(key)`: a missing key yields `None`, which serialises as null. */
  function Get(obj: map<string, JsonValue>, key: string): (v: JsonValue)
    ensures key !in obj ==> v == JNull
    ensures key in obj ==> v == obj[key]
  {
    if key in obj then obj[key] else JNull
  }

  /** `dict.get(key, default)`. */
  function GetOr(obj: map<string, JsonValue>, key: string, default: JsonValue): (v: JsonValue)
    ensures key !in obj ==> v == default
    ensures key in obj ==> v == obj[key]
  {
    if key in obj then obj[key] else default
  }
}
