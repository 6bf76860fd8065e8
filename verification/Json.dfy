/** Parsed JSON values; objects are maps with exact-case keys. */
module Json {
  import opened Options

  datatype Value =
    | Null
    | Bool(b: bool)
    | Number(n: real)
    | String(s: string)
    | Array(items: seq<Value>)
    | Object(fields: map<string, Value>)

  /** `row.get(key)`, with a missing key as None. */
  function Field(fields: map<string, Value>, key: string): Option<Value> {
    if key in fields then Some(fields[key]) else None
  }

  /** `isinstance(v, str) and v` */
  predicate NonEmptyString(v: Option<Value>) {
    v.Some? && v.value.String? && v.value.s != ""
  }
}
