/**
 * JSON values as the service sees them after decoding, and the optional
 * value used wherever Python returns `None` or a decoder gives up.
 */
module JsonValues {

  datatype Option<+T> = None | Some(value: T)

  /** A decoded JSON document. Numbers are kept exact; the service never does arithmetic on them. */
  datatype Json =
    | JNull
    | JBool(b: bool)
    | JNumber(n: real)
    | JString(s: string)
    | JArray(items: seq<Json>)
    | JObject(fields: map<string, Json>)

  /**
   * What Python's `json.loads` does with a `str`: return a value, raise
   * `json.JSONDecodeError` (`Malformed`), or raise some other exception
   * (`Aborted`): a `RecursionError` on very deep nesting, or a plain
   * `ValueError` on an integer literal with too many digits.
   */
  datatype Decoded = Parsed(value: Json) | Malformed | Aborted

  /**
   * A JSON decoder. The decoder is a foreign library, so every operation that
   * decodes takes one as a parameter.
   */
  type Parser = string -> Decoded
}
