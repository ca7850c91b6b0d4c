/** Result types shared by every component. */
module Common {

  datatype Option<+T> = None | Some(value: T)

  datatype Result<+T, +E> = Success(value: T) | Failure(error: E)

  /** The sentinel errors the service maps every adapter failure to. */
  datatype Error =
    | NotFound
    | AlreadyExists
    | FailedPrecondition(reason: string)
    | InvalidArgument
    | Unavailable

  function Max(a: int, b: int): int {
    if a < b then b else a
  }
}
