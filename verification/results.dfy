/** Failure-carrying values shared by every handler model.

    A FastAPI handler either returns a value, raises `HTTPException(status_code)`
    (an `Http` error), or lets some other Python exception escape, which the
    framework answers with 500 (a `Raised` error, named by its exception class). */
module Results {

  datatype Option<+T> = None | Some(value: T)

  datatype Error =
    | Http(code: int)            // HTTPException(status_code=code)
    | Raised(exception: string)  // an uncaught Python exception

  datatype Result<+T> = Ok(value: T) | Err(error: Error)

  // The status codes the handlers use (fastapi.status).
  const OK_200 := 200
  const PARTIAL_CONTENT_206 := 206
  const BAD_REQUEST_400 := 400
  const UNAUTHORIZED_401 := 401
  const FORBIDDEN_403 := 403
  const NOT_FOUND_404 := 404
  const NOT_ACCEPTABLE_406 := 406
  const CONFLICT_409 := 409
  const PRECONDITION_FAILED_412 := 412
  const RANGE_NOT_SATISFIABLE_416 := 416
  const INTERNAL_SERVER_ERROR_500 := 500

  /** True when `r` is the HTTP error with status `code`. */
  predicate IsHttp<T>(r: Result<T>, code: int) {
    r.Err? && r.error == Http(code)
  }
}
