/** Small value wrappers shared by every module of the model. */
module Wrappers {

  /** A value that may be absent (a JavaScript `undefined`/`null`). */
  datatype Option<+T> = None | Some(value: T) {
    function GetOr(default: T): T {
      match this
      case Some(v) => v
      case None => default
    }
  }

  /** The outcome of a server action: a value, or the message of the error it throws. */
  datatype Result<+T> = Ok(value: T) | Err(message: string)

  /** The outcome of an HTTP route handler: a 200 response with a JSON body, or an error
      status with its `error` message. */
  datatype Reply<+T> = Json(body: T) | Fail(status: int, error: string)

  /** JavaScript truthiness of an optional string: absent and "" are both falsy. */
  predicate Truthy(s: Option<string>) {
    s.Some? && s.value != ""
  }
}
