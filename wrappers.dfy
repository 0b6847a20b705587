/** Option, Result and Outcome values, and the HTTP error every failing
    check of the service raises (a status code and a detail message). */
module Wrappers {

  datatype Option<+T> = None | Some(value: T)

  datatype Result<+R, +E> = Success(value: R) | Failure(error: E)

  datatype Outcome<+E> = Pass | Fail(error: E)

  /** An HTTP error response: what the service raises as an HTTPException. */
  datatype HttpError = HttpError(status: nat, detail: string)
}
