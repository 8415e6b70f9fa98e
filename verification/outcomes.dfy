/** Result types shared by the playlist model. */
module Outcomes {
  /** A value that may be absent: a request-body field that was not sent, or an unset document path. */
  datatype Option<+T> = None | Some(value: T)

  /** The ways a playlist handler fails, one per kind of response it sends. */
  datatype Error =
    | Unauthenticated  // 401: the `username` header is missing or empty
    | NotFound         // 404: no playlist has both the id and the caller's username
    | Duplicate        // 400: the playlist already holds an item with that mediaId
    | ServerError      // 500: schema validation at save, or the cast of a malformed id, failed

  datatype Outcome<+T> = Ok(value: T) | Fail(error: Error)
}
