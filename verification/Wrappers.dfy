// Result types shared by every module.
module Wrappers {

  datatype Option<+T> = None | Some(value: T) {
    function GetOr(default: T): T {
      match this
      case Some(value) => value
      case None => default
    }
  }

  datatype Result<+R, +E> = Success(value: R) | Failure(error: E)

  datatype Outcome<+E> = Pass | Fail(error: E)

  // How an external call ends: a lost one may or may not have taken effect.
  datatype Kind = Good | Refused | LostWithoutEffect | LostWithEffect
}
