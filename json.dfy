/** Parsed JSON values, as `requests`' `.json()` and `json.load` produce them. */
module Json {

  /** A JSON document. Numbers are integers here: no field the mirror
      inspects is numeric, so floating point plays no part. */
  datatype Value =
    | Null
    | Bool(b: bool)
    | Num(n: int)
    | Str(s: string)
    | Arr(items: seq<Value>)
    | Obj(fields: map<string, Value>)
}
