/** Failure-carrying wrappers shared by the product model: Go's `(T, error)`
    pairs become `Result`, and an optional or unparseable input becomes `Option`. */
module Wrappers {

  /** A value that may be absent. */
  datatype Option<+T> = None | Some(value: T)

  /** Either a value or the error the operation reported instead. */
  datatype Result<+T, +E> = Ok(value: T) | Err(error: E)
}
