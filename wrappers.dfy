/** Failure-carrying values shared by the other modules, and the Python
    exceptions that the modelled code can raise, as plain values. */
module Wrappers {

  datatype Option<+T> = None | Some(value: T)

  datatype Result<+R, +E> = Success(value: R) | Failure(error: E)

  /** The exceptions the modelled code raises: an out-of-range index into a
      list, a `str + None` concatenation, and a division by zero. */
  datatype Error = IndexError | TypeError | ZeroDivisionError
}
