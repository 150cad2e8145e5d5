/** Wire values of no declared shape. */
module Json {

  datatype Value =
    | Undefined
    | Null
    | Bool(b: bool)
    | Number(n: real)
    | Str(s: string)
    | Array(items: seq<Value>)
    | Object(fields: map<string, Value>)

  /** Reading a property; absent ones read as `undefined`. */
  function At(fields: map<string, Value>, key: string): Value {
    if key in fields then fields[key] else Undefined
  }
}
