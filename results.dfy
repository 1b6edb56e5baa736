/** Failure values of the engine and the Result/Option wrappers used to return them.
    The three error kinds are the exception kinds the serializer raises to its caller. */
module Results {

  /** An exception raised to the caller; the string is its message. */
  datatype Error =
    | TypeError(msg: string)
    | ValueError(msg: string)
    | LookupError(msg: string)

  datatype Option<+T> = None | Some(value: T)

  /** Either a computed value or the first exception raised while computing it. */
  datatype Result<+T> = Ok(value: T) | Err(error: Error) {
    predicate IsFailure() { Err? }

    function PropagateFailure<U>(): Result<U>
      requires Err?
    {
      Err(error)
    }

    function Extract(): T
      requires Ok?
    {
      value
    }
  }
}
