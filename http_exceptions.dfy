/** The exceptions that travel from the service layer to the catch-all exception filter. */
module HttpExceptions {
  import opened Wrappers
  import opened JsValues

  /**
   * Something thrown while handling a request: either an instance of the
   * framework's `HttpException`, which carries a status (`getStatus()`) and a
   * response payload (`getResponse()`), or any other thrown value.
   */
  datatype Exception =
    | HttpException(status: int, response: JsValue)
    | Thrown(value: JsValue)

  const Conflict: int := 409

  /**
   * `new ConflictException(message)`: an HTTP exception with status 409 whose
   * response payload is `{statusCode: 409, message, error: "Conflict"}`.
   */
  function ConflictException(message: string): (e: Exception)
    ensures e.HttpException? && e.status == Conflict
    ensures ReadMessage(e.response) == Some(Str(message))
    ensures e.response.Obj? && "statusCode" in e.response.props
    ensures e.response.props["statusCode"] == Num(e.status)
  {
    HttpException(Conflict, Obj(map[
      "statusCode" := Num(Conflict),
      "message" := Str(message),
      "error" := Str("Conflict")]))
  }
}
