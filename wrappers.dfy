/** Option and Result values shared by the modules of this model. */
module Wrappers {

  /** A value that may be absent: `null`/`undefined` in the original program. */
  datatype Option<+T> = None | Some(value: T)

  /** The outcome of an operation that may fail with an error of type `E`. */
  datatype Result<+T, +E> = Ok(value: T) | Err(error: E)

  /**
   * JavaScript truthiness of an optional string: absent (`null`/`undefined`)
   * and the empty string are both falsy.
   */
  predicate Truthy(s: Option<string>)
  {
    s.Some? && s.value != ""
  }
}
