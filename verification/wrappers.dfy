/** Failure-compatible result types used throughout the model. */
module Wrappers {

  /** An optional value; `None` stands for a C++ object that was default-constructed
      and never assigned (an empty SEAL key, an uninitialised `long`). */
  datatype Option<+T> = None | Some(value: T)

  /** The outcome of an operation that can abort the session. */
  datatype Result<+R, +E> = Success(value: R) | Failure(error: E)
}
