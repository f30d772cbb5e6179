/** Failure-compatible result types shared by the slug form model. */
module Wrappers {

  /** A value that may be absent: a missing form field, an unsaved page id. */
  datatype Option<+T> = None | Some(value: T)

  /** Either the cleaned value of a form field or the validation error it raised. */
  datatype Result<+R, +E> = Success(value: R) | Failure(error: E)
}
