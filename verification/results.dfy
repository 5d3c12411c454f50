/**
 * Failure-carrying values. The source signals every failure by throwing an
 * exception that only the command line catches; the model returns these
 * instead.
 */
module Results {

  /** A value that may be missing (PHP's `null`, an unset array slot). */
  datatype Option<+T> = None | Some(value: T)

  /** Either the value an operation computed, or the error it stopped with. */
  datatype Result<+T, +E> = Success(value: T) | Failure(error: E)
}
