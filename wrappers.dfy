/** Option and Result types, and the .NET exceptions the EngLang front end throws. */
module Wrappers {

  /** A value that may be absent: models a C# nullable reference. */
  datatype Option<+T> = None | Some(value: T)

  /** The exceptions raised by the modelled code. */
  datatype Exception =
    | NotImplementedException
    | InvalidOperationException
    | IndexOutOfRangeException
    | NullReferenceException
    | ArgumentException
    | FormatException
    | OverflowException
    | EngLangRuntimeException(message: string)

  /** The outcome of an expression-valued computation that may throw. */
  datatype Result<+T> = Ok(value: T) | Err(error: Exception) {
    predicate IsFailure() {
      Err?
    }

    function PropagateFailure<U>(): Result<U>
      requires Err?
    {
      Err(error)
    }

    function Extract(): T
      requires Ok?
    {
      value
    }
  }

  /** The outcome of a statement-valued computation (a void method that may throw). */
  datatype Outcome = Pass | Fail(error: Exception) {
    predicate IsFailure() {
      Fail?
    }

    function PropagateFailure(): Outcome
      requires Fail?
    {
      this
    }
  }
}
