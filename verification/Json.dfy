/** JSON values as the daemon holds them: an object is a map sorted by key. */
module Json {
  import opened Basics

  datatype Value =
    | Null
    | Bool(flag: bool)
    | Number(literal: string)
    | String(text: string)
    | Array(items: seq<Value>)
    | Object(fields: map<string, Value>)

  function AsObject(v: Value): Option<map<string, Value>> {
    if v.Object? then Some(v.fields) else None
  }

  function AsStr(v: Option<Value>): Option<string> {
    if v.Some? && v.value.String? then Some(v.value.text) else None
  }

  /** `Value::get`: absent when the value is not an object or has no such key. */
  function Get(v: Value, key: string): Option<Value> {
    if v.Object? && key in v.fields then Some(v.fields[key]) else None
  }

  /** The object stored under a key, when there is one. */
  function GetObject(fields: map<string, Value>, key: string): Option<map<string, Value>> {
    if key in fields then AsObject(fields[key]) else None
  }
}
