/** The error values the core raises, and the wrappers that carry them.
    Each HttpError stands for one NestJS exception class; `message` is the
    text passed to its constructor. */
module Errors {

  /** A value that may be absent (`undefined` or `null` in the source). */
  datatype Option<+T> = None | Some(value: T)

  /** The framework exceptions the core throws. */
  datatype HttpError =
    | BadRequest(message: string)        // BadRequestException
    | NotFound(message: string)          // NotFoundException
    | Conflict(message: string)          // ConflictException
    | InternalServerError                // InternalServerErrorException, no message

  /** Either the value an operation resolves with, or the exception it throws. */
  datatype Result<+T> = Ok(value: T) | Err(error: HttpError)
}
