/**
 * Request bodies as the route handlers see them after `request.json()`.
 */
module Http {
  /**
   * The body as the handler's destructuring sees it: `Unparsable` when
   * `request.json()` or the destructuring that follows it throws (a body
   * that is not JSON, or the JSON `null`), otherwise the fields it read.
   */
  datatype Json<T> = Unparsable | Parsed(value: T)

  /** A JSON string field: missing, `null`, or a string. */
  datatype Field = Absent | Null | Text(s: string)

  /** `!value` for a string field: missing, `null` or "". */
  predicate Falsy(f: Field) {
    !f.Text? || f.s == ""
  }
}
