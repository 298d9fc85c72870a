/**
 * The Java exceptions the modelled code throws, and the result types that
 * carry them back to the caller instead of unwinding.
 */
module JavaErrors {

  datatype Exception =
    | IOException(message: string)
    | EOFException(message: string)
    | IllegalArgumentException(message: string)
    | IllegalStateException(message: string)
    | UnsupportedOperationException(message: string)
    | ArrayIndexOutOfBoundsException(index: int)

  /** The value a Java method returns, or the exception it throws. */
  datatype Result<+T> = Ok(value: T) | Err(error: Exception)

  /** The outcome of a Java method returning `void`. */
  datatype Outcome = Pass | Fail(error: Exception)
}
