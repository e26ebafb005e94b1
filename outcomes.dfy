/** Option and Result values, and the exceptions the generators and converters throw. */
module Outcomes {

  /** `None` stands for a C# null where null behaves differently from an empty value. */
  datatype Option<T> = None | Some(value: T) {
    function GetOr(default: T): T {
      match this
      case Some(v) => v
      case None => default
    }
  }

  /** The .NET exception types the modelled code throws, with the offending parameter name. */
  datatype Exception =
    | ArgumentNull(param: string)
    | Argument(param: string)
    | ArgumentOutOfRange(param: string)
    | FileNotFound(path: string)

  datatype Result<T> = Ok(value: T) | Err(error: Exception)
}
