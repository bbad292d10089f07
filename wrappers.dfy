/** Option and Result, the two shapes every module of the model uses for
    "maybe absent" and "value or thrown error". */
module Wrappers {

  datatype Option<+T> = None | Some(value: T)

  datatype Result<+T, +E> = Ok(value: T) | Err(error: E)

  /** JavaScript truthiness of a value that is either a string or absent
      (`null`/`undefined`): the empty string is falsy as well. */
  predicate Truthy(s: Option<string>) {
    s.Some? && s.value != ""
  }
}
