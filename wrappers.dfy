/** Wrappers that model the C# null references and exceptions as values. */
module Wrappers {

  /** A nullable value: `None` stands for the C# `null`. */
  datatype Option<+T> = None | Some(value: T)

  /** The outcome of an operation that returns a value or throws. */
  datatype Result<+T> = Success(value: T) | Failure(error: string)

  /** The outcome of an operation that returns nothing or throws. */
  datatype Outcome = Pass | Fail(error: string)
}
