/** Null, exceptions and the values that carry them. */
module Wrappers {

  /** A Java reference that may be null: `None` is null. */
  datatype Option<+T> = None | Some(value: T)

  /** The exceptions that can leave a call in the modelled code. */
  datatype Exception =
    | NullPointerException              // a null was dereferenced
    | DataAccessException               // the database could not be reached or the statement failed
    | DataIntegrityViolationException   // a column constraint of CLIENTS refused the row

  /** A call that either returns a value or throws. */
  datatype Result<+T> = Success(value: T) | Failure(error: Exception)
}
