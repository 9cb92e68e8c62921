/** Failure-compatible result types shared by every module of the model. */
module Wrappers {

  /** A value that may be absent, as a C++ `std::optional` or a Python `None`. */
  datatype Option<+T> = None | Some(value: T)

  /** The outcome of an operation that can fail: an assertion, an exception
      or an error return in the modelled source. */
  datatype Result<+R> = Success(value: R) | Failure(error: string)
}
