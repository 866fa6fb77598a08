/** The values JSON.parse produces. */
module Json {

  /** A parsed JSON value. Numbers are whole numbers here (the payloads of this
      system carry uuids as strings and timestamps in milliseconds). Two values
      are equal when their contents are. */
  datatype Value =
    | Null
    | Bool(b: bool)
    | Number(n: int)
    | Str(s: string)
    | Arr(items: seq<Value>)
    | Obj(fields: map<string, Value>)
}
