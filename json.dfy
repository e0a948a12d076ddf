/**
  The part of `serde_json::Value` the program reads: indexing an object by key
  (`v["key"]`, which gives `Null` for a missing key or a non-object) and the
  typed views `as_str` and `as_array`. Numbers are integers here.
 */
module Json {
  import opened Outcomes

  datatype Value =
    | Null
    | Bool(b: bool)
    | Number(n: int)
    | Str(s: string)
    | Array(items: seq<Value>)
    | Object(fields: map<string, Value>)

  /** `v[key]` */
  function Field(v: Value, key: string): Value
  {
    if v.Object? && key in v.fields then v.fields[key] else Null
  }

  /** `v.as_str()` */
  function AsStr(v: Value): Option<string>
  {
    if v.Str? then Some(v.s) else None
  }

  /** `v.as_str().unwrap_or(default)` */
  function StrOr(v: Value, default: string): string
  {
    match AsStr(v)
    case Some(s) => s
    case None => default
  }

  /** `v.as_array()` */
  function AsArray(v: Value): Option<seq<Value>>
  {
    if v.Array? then Some(v.items) else None
  }
}
