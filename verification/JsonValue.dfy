/** Decoded JSON. */
module JsonValue {
  /** A decoded JSON value; numbers keep their token, strings are Unicode scalar values. */
  datatype Json =
    | Null
    | Bool(value: bool)
    | Num(token: string)
    | Str(text: string)
    | Arr(items: seq<Json>)
    | Obj(fields: map<string, Json>)
}
