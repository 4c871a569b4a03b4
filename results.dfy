/** The exceptions the library raises, and the result of an operation that may raise one. */
module Results {

  /** The .NET exception types the modelled code raises. */
  datatype Error =
    | ArgumentOutOfRangeException
    | ArgumentException
    | IndexOutOfRangeException

  /** A value, or the exception thrown instead of returning it. */
  datatype Result<T> = Ok(value: T) | Err(error: Error)

  /** Nothing, or an exception that ended an operation with no result value. */
  datatype Option<T> = None | Some(value: T)
}
