/** Values that may be absent, and the outcome of a service operation. */
module Outcomes {

  /** A lookup that may find nothing (the `null` a repository returns). */
  datatype Option<T> = None | Some(value: T)

  /** The outcome of a service operation: a value, or one of the two
      failures the service throws (notFoundError and forbidenError). */
  datatype Result<T> = Ok(value: T) | NotFound | Forbidden
}
