/** Failure-carrying wrappers and the exceptions the services throw. */
module Results {

  /** A value that may be absent (an `undefined` property or a missing row). */
  datatype Option<+T> = None | Some(value: T)

  /** The exception classes the core throws, without their messages. */
  datatype ErrorKind =
    | NotFound             // NotFoundException
    | Unauthorized         // UnauthorizedException
    | BadRequest           // BadRequestException
    | MissingConfiguration // plain Error thrown while constructing a strategy

  /** Either a returned value or a thrown exception. */
  datatype Result<+T> = Success(value: T) | Failure(error: ErrorKind)

  /** JavaScript truthiness of an optional string: absent and "" are falsy. */
  predicate Truthy(s: Option<string>)
  {
    s.Some? && s.value != ""
  }
}
