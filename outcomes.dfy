/** Values shared by the whole pipeline: optional values, the failure kinds a model
    call can raise, and the reply of one call to a generative model. */
module Outcomes {

  datatype Option<+T> = None | Some(value: T)

  /** The exceptions the pipeline tells apart: google.api_core's ResourceExhausted,
      DeadlineExceeded and InvalidArgument, Python's ValueError, and every other
      exception (a TypeError, a network error, a missing screenshot, ...). */
  datatype ErrorKind =
    | ResourceExhausted
    | DeadlineExceeded
    | InvalidArgument
    | ValueError
    | OtherError

  /** What one call of a model returns: its text, or the exception it raised. */
  datatype Reply = Ok(text: string) | Err(error: ErrorKind)

  /** A generative model seen from outside: the reply to argument `arg` on attempt
      number `k` (0-based). Replies are inputs, so every possible behaviour of the
      remote service is covered. */
  type Oracle = (string, nat) -> Reply
}
