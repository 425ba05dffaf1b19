/** The optional and either-value types used throughout the model. */
module Wrappers {

  /** A value that may be absent: JavaScript's `undefined`/`null` or a missing attribute. */
  datatype Option<+T> = None | Some(value: T)

  /** The outcome of an operation that either returns a value or reports an error. */
  datatype Result<+R, +E> = Ok(value: R) | Err(error: E)

  /** JavaScript truthiness of a `string | null | undefined`: present and not empty. */
  predicate Present(s: Option<string>) {
    s.Some? && s.value != ""
  }
}
