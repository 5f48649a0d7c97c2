/** Decoded JSON values, with Python's `dict.get` on them. */
module JsonData {
  datatype Json =
    | JNull
    | JBool(b: bool)
    | JInt(n: int)
    | JFloat(repr: string)
    | JStr(s: string)
    | JList(items: seq<Json>)
    | JDict(fields: map<string, Json>)

  /** `value.get(key)`: absent and null read the same. */
  function Get(value: Json, key: string): Json {
    if value.JDict? && key in value.fields then value.fields[key] else JNull
  }
}
