/**
 * The gRPC status codes a call can fail with, and the result of a call:
 * either a value or a status error carrying one code.
 */
module Codes {

  /** Every non-OK gRPC status code; an OK status is never an error. */
  datatype Code =
    | Canceled
    | Unknown
    | InvalidArgument
    | DeadlineExceeded
    | NotFound
    | AlreadyExists
    | PermissionDenied
    | ResourceExhausted
    | FailedPrecondition
    | Aborted
    | OutOfRange
    | Unimplemented
    | Internal
    | Unavailable
    | DataLoss
    | Unauthenticated

  /** A Go `(value, error)` pair in which exactly one side is meaningful. */
  datatype Result<+T> = Ok(value: T) | Err(code: Code)
}
