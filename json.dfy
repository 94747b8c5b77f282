/** The decoded JSON documents the extractor is given (what `json.load` returns). */
module JsonValue {

  /** A JSON value. Numbers are exact; `JObj` keys are unique, as in a Python dict. */
  datatype Json =
    | JNull
    | JBool(b: bool)
    | JNum(n: real)
    | JStr(s: string)
    | JArr(elems: seq<Json>)
    | JObj(fields: map<string, Json>)

  /** The `{}` literal the source passes as a default to `.get`. */
  const EmptyObject: Json := JObj(map[])
}
