/** Failure-carrying datatypes used across the model in place of JavaScript's
    `undefined` values and thrown errors. */
module Results {

  /** A value that may be absent (`undefined` in the source). */
  datatype Option<+T> = None | Some(value: T)

  /** Either a computed value or the error the source would throw. */
  datatype Result<+T, +E> = Success(value: T) | Failure(error: E)
}
