/** Shared result types: an optional value, a value-or-error result, and the
    Java exceptions the modelled library code raises. */
module Outcomes {

  datatype Option<+T> = None | Some(value: T)

  datatype Result<+R> = Success(value: R) | Failure(error: JavaException)

  /** The exceptions thrown by the modelled code, with the message where the
      code supplies one (None for an exception built without a message). */
  datatype JavaException =
    | IllegalArgument(message: string)
    | IllegalState(message: string)
    | UnsupportedOperation(detail: Option<string>)
    | NullPointer
    | ArithmeticDivisionByZero
    | IndexOutOfBounds
}
