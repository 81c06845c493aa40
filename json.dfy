/**
 * The JSON values the client handles. Decoding itself (`json.loads` after
 * `bytes.decode`) is a foreign library; the model receives it as a total
 * function from a line's bytes to `Decoded`.
 */
module Json {

  datatype Value =
    | Null
    | Bool(b: bool)
    | Number(n: real)
    | Str(s: string)
    | Array(items: seq<Value>)
    | Object(fields: map<string, Value>)

  /** The outcome of decoding one line: a UTF-8 or JSON syntax error, or a value. */
  datatype Decoded = Malformed | Parsed(value: Value)
}
