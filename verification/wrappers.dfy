/** Option and Result values standing in for Python's `None` and for raised exceptions. */
module Wrappers {

  /** A value that may be absent; `None` plays the role of Python's `None`. */
  datatype Option<+T> = None | Some(value: T)

  /** Either a computed value or the exception a computation raised. */
  datatype Result<+T, +E> = Success(value: T) | Failure(error: E)

  /** Python truthiness of an optional flag: only `True` is truthy, `False` and `None` are not. */
  predicate Truthy(o: Option<bool>) {
    o == Some(true)
  }
}
