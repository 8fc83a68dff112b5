/** The outcome codes that the modelled operations hand back to their callers, and
    the basic types they share. */
module Status {

  datatype Status =
    | Ok
    | InvalidArgument
    | FailedPrecondition
    | NotFound
    | Internal
    | Cancelled
    | RateLimiterTimeout

  type Key = nat

  datatype Option<T> = None | Some(value: T)
}
