/** Option and Result values used for the source's `null`/absent values and for its
    exceptions and error responses. */
module Wrappers {

  datatype Option<+T> = None | Some(value: T)

  datatype Result<+T, +E> = Ok(value: T) | Err(error: E)

  /** JavaScript truthiness of a string that may be `null` (a missing form field or
      query parameter): present and not empty. */
  predicate Truthy(s: Option<string>) {
    s.Some? && s.value != ""
  }
}
