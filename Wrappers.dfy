/** Null references and thrown exceptions, as values. */
module Wrappers {

  /** A Java reference that may be null: `None` stands for null. */
  datatype Option<+T> = None | Some(value: T)

  /** The unchecked exceptions the service can raise. */
  datatype Exception = RuntimeException | NullPointerException

  /** The outcome of a call that either completes with a value or throws. */
  datatype Result<+T> = Ok(value: T) | Fault(exception: Exception)
}
