/** JSON values, as facts carry them. */
module Json {
  datatype Value =
    | Null
    | Bool(flag: bool)
    | Number(number: real)
    | String(text: string)
    | Array(items: seq<Value>)
    | Object(fields: map<string, Value>)
}
