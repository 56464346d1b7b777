/** Failure-carrying values shared by the whole model: `Option` for the source's
    nullable references and `Result` for operations that can raise a .NET exception. */
module Wrappers {

  /** A value that may be missing; `None` stands for a C# `null`. */
  datatype Option<+T> = None | Some(value: T) {
    function GetOr(default: T): T {
      match this
      case Some(v) => v
      case None => default
    }
  }

  /** The .NET exception kinds the modelled code can raise. */
  datatype Exception =
    | InvalidOperation(message: string)
    | HttpRequest(message: string)
    | Web(message: string)
    | Argument(message: string)
    | ArgumentOutOfRange
    | IndexOutOfRange
    | Format
    | Overflow
    | NullReference

  /** Either the value an operation returns or the exception it raises. */
  datatype Result<+T> = Ok(value: T) | Err(error: Exception) {
    predicate IsFailure() {
      Err?
    }

    function PropagateFailure<U>(): Result<U>
      requires Err?
    {
      Err(error)
    }

    function Extract(): T
      requires Ok?
    {
      value
    }
  }
}
