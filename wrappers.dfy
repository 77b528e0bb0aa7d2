/** Optional values and error-or-value results shared by every module. */
module Wrappers {

  /** A value that may be absent: SQL NULL, a JavaScript `null`, or a lookup that found no row. */
  datatype Option<T> = None | Some(value: T)

  /**
   * The outcome of an operation that can throw. `Err` carries the exact text of the
   * `Error` the source throws, because callers classify failures by that text.
   */
  datatype Result<T> = Ok(value: T) | Err(error: string)
  {
    predicate IsFailure() { Err? }
  }

  /** A request field that JSON may leave out, set to `null`, or set to a value. */
  datatype Field<T> = Absent | Null | Given(value: T)

  /** What a nullable column receives from an optional field: a left-out key and `null` both give NULL. */
  function FieldValue<T>(f: Field<T>): Option<T> {
    if f.Given? then Some(f.value) else None
  }
}
