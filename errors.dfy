/** Optional values and the failure taxonomy shared by the back-end services. */
module Errors {

  datatype Option<+T> = None | Some(value: T)

  /** The exceptions the services throw, by the HTTP status NestJS maps them to. */
  datatype Failure =
    | NotFound(message: string)             // NotFoundException, 404
    | Unauthorized(message: string)         // UnauthorizedException, 401
    | Conflict(message: string)             // ConflictException, 409
    | InternalServerError(message: string)  // InternalServerErrorException, 500
    | PlainError(message: string)           // a bare `Error`, also answered with 500

  datatype Result<+T> = Ok(value: T) | Err(failure: Failure)
}
