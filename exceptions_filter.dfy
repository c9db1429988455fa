/**
 * The catch-all exception filter (`@Catch()` with no argument): any exception
 * it is given is turned into a response whose JSON body is
 * `{statusCode, message}`.
 */
module ExceptionsFilter {
  import opened Wrappers
  import opened JsValues
  import opened HttpExceptions
  import opened ApiMessages

  const InternalServerError: int := 500
  const DefaultMessage: string := "Internal server error"

  /** The JSON body the filter writes: exactly a status code and a message. */
  datatype ErrorBody = ErrorBody(statusCode: int, message: JsValue)

  /**
   * What the filter does with an exception: answer with a status and a body,
   * or throw a TypeError of its own while reading `message` from `null` or
   * `undefined`.
   */
  datatype FilterOutcome = Respond(status: int, body: ErrorBody) | FilterThrows

  /** The status: an HTTP exception's own, 500 for anything else. */
  function StatusOf(e: Exception): int {
    if e.HttpException? then e.status else InternalServerError
  }

  /**
   * The message before unwrapping: an HTTP exception's response payload, or
   * the thrown value's `message` when it is truthy and the default otherwise.
   */
  function InitialMessage(e: Exception): Option<JsValue> {
    match e
    case HttpException(_, response) => Some(response)
    case Thrown(value) =>
      match ReadMessage(value)
      case None => None
      case Some(m) => Some(if Truthy(m) then m else Str(DefaultMessage))
  }

  /** An object-typed message with a truthy `message` property is replaced by that property, once. */
  function UnwrapMessage(m: JsValue): Option<JsValue> {
    if IsObjectType(m) then
      match ReadMessage(m)
      case None => None
      case Some(inner) => Some(if Truthy(inner) then inner else m)
    else
      Some(m)
  }

  /**
   * `AllExceptionsFilter.catch`. The response status is the exception's own
   * for an HTTP exception and 500 otherwise, and the body repeats it; a
   * non-HTTP exception always gets a truthy message. The filter itself throws
   * exactly when it reads `message` from `null` or `undefined`: a thrown
   * `null` or `undefined`, or an HTTP exception whose payload is `null`.
   */
  function Catch(e: Exception): (r: FilterOutcome)
    ensures r.Respond? ==> r.body.statusCode == r.status
    ensures r.Respond? ==> r.status == if e.HttpException? then e.status else InternalServerError
    ensures r.FilterThrows? <==>
      || (e.Thrown? && IsNullish(e.value))
      || (e.HttpException? && e.response.Null?)
    ensures e.Thrown? && r.Respond? ==> Truthy(r.body.message)
  {
    match InitialMessage(e)
    case None => FilterThrows
    case Some(initial) =>
      match UnwrapMessage(initial)
      case None => FilterThrows
      case Some(message) =>
        var status := StatusOf(e);
        Respond(status, ErrorBody(status, message))
  }

  /** A string payload is emitted as it is. */
  lemma StringPayloadKept(status: int, s: string)
    ensures Catch(HttpException(status, Str(s))) == Respond(status, ErrorBody(status, Str(s)))
  {
  }

  /** An object payload with a truthy `message` property is replaced by that property. */
  lemma MessagePropertyUnwrapped(status: int, props: map<string, JsValue>)
    requires "message" in props && Truthy(props["message"])
    ensures Catch(HttpException(status, Obj(props))) == Respond(status, ErrorBody(status, props["message"]))
  {
  }

  /** An object payload without a truthy `message` property is emitted whole. */
  lemma ObjectWithoutMessageKept(status: int, props: map<string, JsValue>)
    requires !("message" in props && Truthy(props["message"]))
    ensures Catch(HttpException(status, Obj(props))) == Respond(status, ErrorBody(status, Obj(props)))
  {
  }

  /** Only one level is unwrapped: a `message` that is itself an object with a `message` is kept. */
  lemma UnwrapOneLevelOnly(status: int, s: string)
    requires s != ""
    ensures
      var inner := Obj(map["message" := Str(s)]);
      Catch(HttpException(status, Obj(map["message" := inner]))) == Respond(status, ErrorBody(status, inner))
  {
  }

  /** A thrown error with a non-empty string message answers 500 with that message. */
  lemma ThrownErrorMessage(props: map<string, JsValue>, s: string)
    requires "message" in props && props["message"] == Str(s) && s != ""
    ensures Catch(Thrown(Obj(props))) == Respond(500, ErrorBody(500, Str(s)))
  {
  }

  /**
   * A thrown value that can be read but has no truthy `message` answers 500
   * with the generic message.
   */
  lemma ThrownWithoutMessage(value: JsValue)
    requires !IsNullish(value)
    requires ReadMessage(value).Some? && !Truthy(ReadMessage(value).value)
    ensures Catch(Thrown(value)) == Respond(500, ErrorBody(500, Str(DefaultMessage)))
  {
  }

  /**
   * The conflict raised for a non-empty message reaches the client as status
   * 409 with a body holding 409 and exactly that message.
   */
  lemma ConflictResponse(message: string)
    requires message != ""
    ensures Catch(ConflictException(message)) == Respond(409, ErrorBody(409, Str(message)))
  {
  }

  /** A duplicate SIRET reaches the client as 409 with the fixed conflict message. */
  lemma DuplicateSiretResponse()
    ensures Catch(ConflictException(ClientSiretExists)) == Respond(409, ErrorBody(409, Str(ClientSiretExists)))
  {
    ConflictResponse(ClientSiretExists);
  }
}
