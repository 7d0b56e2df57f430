/** Outcomes of the path and file functions. */
module Errors {
  datatype Result<+T, +E> = Success(value: T) | Failure(error: E) {
    predicate IsFailure() {
      Failure?
    }

    function PropagateFailure<U>(): Result<U, E>
      requires Failure?
    {
      Failure(error)
    }

    function Extract(): T
      requires Success?
    {
      value
    }
  }

  datatype Option<+T> = None | Some(value: T)

  /** The file system's own complaints. Canonicalization reports plain absence apart from these. */
  datatype IoCause = NoEntry | NotADirectory | TooManyLinks | PermissionDenied

  datatype ResolveError =
    | BadTarget
    | InvalidPercentEncoding
    | InvalidUtf8
    | EncodedSlash
    | NullByte
    | Traversal
    | Escape
    | NotFound
    | Io(cause: IoCause)
}
