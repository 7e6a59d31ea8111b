/** Values shared by every handler: optional request fields and the handlers' results. */
module Outcomes {

  /** A request field: `None` is a field that is absent (undefined) or null in the JSON body. */
  datatype Option<+T> = None | Some(value: T)

  /** The `error` codes the handlers answer with, one constructor per code. */
  datatype Error =
    | NameRequired     // "name_required"
    | InvalidEmail     // "invalid_email"
    | WeakPassword     // "weak_password"
    | EmailExists      // "email_exists"
    | MissingFields    // "missing_fields"
    | UserNotFound     // "user_not_found"
    | InvalidCode      // "invalid_code"
    | NotVerified      // "not_verified"
    | InvalidPassword  // "invalid_password"

  /** A handler's answer: `Success` is the `ok: true` reply, `Failure` the error reply. */
  datatype Result<+T> = Success(value: T) | Failure(error: Error)

  /** A handler's answer when the success reply carries nothing but a message. */
  datatype Outcome = Pass | Fail(error: Error)
}
