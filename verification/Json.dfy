/** JSON values as `serde_json::Value` holds them. Objects are finite maps: equality ignores the
    order of keys, and iteration is in key order (`serde_json` without `preserve_order`). */
module Json {
  import opened Text

  datatype Number = Integer(i: int) | Float(r: real)

  datatype Value =
    | Null
    | Bool(b: bool)
    | Num(n: Number)
    | Str(s: string)
    | Arr(items: seq<Value>)
    | Obj(fields: map<string, Value>)

  /** `Value::get` with a string index: only objects have string keys. */
  function Get(v: Value, key: string): Option<Value> {
    if v.Obj? && key in v.fields then Some(v.fields[key]) else None
  }

  /** `serde_json::from_str`, which the model leaves open. */
  type Decode = string -> Option<Value>
}
