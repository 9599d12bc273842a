/** Failure-carrying wrappers and the HTTP error shape shared by the other modules. */
module Common {

  datatype Option<+T> = None | Some(value: T)

  datatype Result<+R, +E> = Success(value: R) | Failure(error: E)

  /** An HTTP error response as FastAPI's HTTPException carries it. */
  datatype HttpError = HttpError(status: int, detail: string, headers: map<string, string>)

  const Unauthorized: int := 401
  const UnprocessableEntity: int := 422
}
