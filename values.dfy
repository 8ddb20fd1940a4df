/** The loosely typed values the library passes around as `Object`. */
module Values {

  type Bytes = seq<bv8>

  /**
   * A value stored in an exported record or a JWT claim set. `Null` is a
   * key that is present and maps to Java's `null`; `Date` is a
   * `java.util.Date` as milliseconds since the epoch; `Opaque` is any other
   * object, such as the payload a format exports.
   */
  datatype Value = Null | Text(text: string) | Date(millis: int) | Opaque(bytes: Bytes)

  /** A `Map<String, Object>`: an exported record, or a claim set. */
  type Record = map<string, Value>
}
