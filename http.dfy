/** The replies of the route handlers: a success status, an error status with
    its message, or the 400 reply listing the validator errors. */
module Http {
  datatype Reply = Ok(status: nat) | Error(status: nat, message: string) | InvalidInput

  /** What every handler's catch block sends. */
  const ServerError: Reply := Error(500, "Server error")

  /** The reply of a read route: the JSON body it sends, or an error reply. */
  datatype Response<T> = Json(body: T) | Fail(reply: Reply)
}
