/** The HTTP errors that the authentication code raises (FastAPI's HTTPException). */
module Http {

  datatype HttpError = HttpError(status: int, detail: string)

  const BAD_REQUEST := 400
  const UNAUTHORIZED := 401
  const CONFLICT := 409
  const UNPROCESSABLE_ENTITY := 422
  /** What the framework answers when a handler dies on an uncaught Python error. */
  const INTERNAL_SERVER_ERROR := 500

  function InternalError(): HttpError
  {
    HttpError(INTERNAL_SERVER_ERROR, "Internal Server Error")
  }
}
