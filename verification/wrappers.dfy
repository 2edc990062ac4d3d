/** Failure-carrying results shared by the loader, the sampler and the CSV reader.
    The C++ code reports failures by throwing std::runtime_error; here the
    thrown condition becomes the Failure/Fail case. */
module Wrappers {

  datatype Option<+T> = None | Some(value: T)

  datatype Result<+T, +E> = Success(value: T) | Failure(error: E)

  /** Outcome of an operation that returns nothing on success. */
  datatype Outcome<+E> = Pass | Fail(error: E)
}
