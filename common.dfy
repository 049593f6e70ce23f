/** Shared vocabulary of the services: optional values, results carrying the
    HTTP exception the service throws, and the user roles. */
module Common {
  /** Primary keys are uuid strings; foreign keys arriving in requests are plain strings. */
  type Id = string

  /** `undefined` / `null` versus a present value. */
  datatype Option<T> = None | Some(value: T)

  /** The Nest exception classes the services throw, each with its message. */
  datatype Error =
    | BadRequest(message: string)
    | Conflict(message: string)
    | NotFound(message: string)
    | Unauthorized(message: string)
    | Forbidden(message: string)
    | InternalServerError(message: string)

  /** The value a service call resolves to, or the exception it throws. */
  datatype Result<T> = Ok(value: T) | Err(error: Error) {
    predicate IsFailure() { Err? }

    function PropagateFailure<U>(): Result<U>
      requires Err?
    {
      Err(error)
    }

    function Extract(): T
      requires Ok?
    {
      value
    }
  }

  /** The `UserRole` enum of the users table. */
  datatype Role = SuperAdmin | Admin | Staff | Teacher | StudentRole

  /** JavaScript truthiness of an optional string: `undefined` and `""` are falsy. */
  predicate Truthy(s: Option<string>) {
    s.Some? && s.value != ""
  }

  /** The `??` operator. */
  function OrElse<T>(o: Option<T>, default: T): T {
    if o.Some? then o.value else default
  }

  /** Nest turns any exception that is not an HttpException into a 500. */
  const InternalError := InternalServerError("Internal server error")
}
