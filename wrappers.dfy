/** Option and Result types shared by every module of the model.

    A route handler either produces a value or fails with an HTTP status and
    the JSON `message` it sends back; `Result` carries both outcomes. */
module Wrappers {

  datatype Option<+T> = None | Some(value: T) {

    /** The `??` operator of the source: the held value, or a default. */
    function GetOr(default: T): T {
      match this
      case Some(v) => v
      case None => default
    }
  }

  /** An HTTP error response: its status code and its `message` field. */
  datatype Failure = Failure(status: nat, message: string)

  datatype Result<+T> = Ok(value: T) | Err(failure: Failure)

  function Fail<T>(status: nat, message: string): Result<T>
  {
    Err(Failure(status, message))
  }
}
