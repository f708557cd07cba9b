/** Failure-carrying datatypes shared by the model: C#'s nullable references
    become `Option`, and the exceptions `ModelChacker.cs` lets escape become the
    `Failure` arm of a `Result`. */
module Wrappers {

  /** A value that may be absent; `None` plays the part of a C# `null`. */
  datatype Option<+T> = None | Some(value: T)

  /** Either a computed value or the error that aborted the computation. */
  datatype Result<+R, +E> = Success(value: R) | Failure(error: E)
}
