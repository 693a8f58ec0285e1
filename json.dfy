/**
 * The JSON values that `json.loads` can produce, and the shape of its answer.
 * The decoder itself is not modelled: the pipeline takes it as a parameter
 * of type `Decoder`, a function from text to either a decode error or a value.
 */
module Json {

  /** A decoded JSON value. Numbers keep their literal text, so no floating point is involved. */
  datatype Value =
    | Null
    | Boolean(b: bool)
    | Number(literal: string)
    | Str(s: string)
    | Array(items: seq<Value>)
    | Object(fields: map<string, Value>)

  /** The outcome of `json.loads(text)`: a `JSONDecodeError`, or a value. */
  datatype Decoded = DecodeError | Parsed(value: Value)

  type Decoder = string -> Decoded
}
