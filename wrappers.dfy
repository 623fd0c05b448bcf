/** Option and Result types, and the exception kinds the map server raises. */
module Wrappers {

  /** A value that may be absent; also stands for a C# reference that may be null. */
  datatype Option<+T> = None | Some(value: T)

  /** The exception classes the core throws or lets escape. */
  datatype Error =
    | ArgumentNull         // ArgumentNullException
    | Argument             // ArgumentException
    | ArgumentOutOfRange   // ArgumentOutOfRangeException
    | InvalidOperation     // InvalidOperationException (also the repository's wrapper of store failures)
    | StoreFailure         // an exception of the backing store that escapes unwrapped

  /** The outcome of an operation that returns a value or throws. */
  datatype Result<+T> = Success(value: T) | Failure(error: Error)

  /** The outcome of an operation that returns nothing or throws. */
  datatype Outcome = Pass | Fail(error: Error)
}
