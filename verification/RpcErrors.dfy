/** libs/shared/src/rpc/rpc-error.ts and rpc-client.ts: errors cross each TCP hop as a payload and come
    out of the caller's client as an HTTP exception, which the next hop turns into a payload again. */
module RpcErrors {

  /** The values a `message` or `error` key can hold. */
  datatype Value = Undefined | Null | Text(text: string) | Items(list: seq<string>)

  predicate Missing(v: Value) {
    v.Undefined? || v.Null?
  }

  /** The operator ?? */
  function OrElse(v: Value, fallback: Value): Value {
    if Missing(v) then fallback else v
  }

  datatype RpcErrorPayload = RpcErrorPayload(statusCode: int, message: Value, error: Value)

  /** HttpException.getResponse(): a string, or an object with (perhaps) a message and an error. */
  datatype HttpBody = Plain(text: string) | Fields(message: Value, error: Value)

  datatype HttpException = HttpException(status: int, response: HttpBody, message: string, name: string)

  /** RpcException.getError(): a string, an object with a numeric statusCode and a message key
      (whatever that key holds), or any other object. */
  datatype RpcError = Words(text: string) | Shaped(payload: RpcErrorPayload) | Unshaped

  /** Anything a message handler can throw. */
  datatype Thrown =
    | Http(exception: HttpException)
    | Rpc(rpcError: RpcError, rpcMessage: string)
    | QueryFailed(code: string)
    | Unknown

  const PG_UNIQUE_VIOLATION: string := "23505"

  function ToRpcErrorPayload(thrown: Thrown): RpcErrorPayload {
    match thrown
    case Http(e) => (
      match e.response
      case Plain(text) => RpcErrorPayload(e.status, Text(text), Text(e.name))
      case Fields(message, error) =>
        RpcErrorPayload(e.status, OrElse(message, Text(e.message)), OrElse(error, Text(e.name)))
      )
    case Rpc(Shaped(payload), _) => payload
    case Rpc(Words(text), _) => InternalError(Text(text))
    case Rpc(Unshaped, message) => InternalError(Text(message))
    case QueryFailed(code) =>
      if code == PG_UNIQUE_VIOLATION
      then RpcErrorPayload(409, Text("Resource already exists"), Text("Conflict"))
      else InternalError(Text("Internal server error"))
    case Unknown => InternalError(Text("Internal server error"))
  }

  function InternalError(message: Value): RpcErrorPayload {
    RpcErrorPayload(500, message, Text("Internal Server Error"))
  }

  /** What RpcClient.send can catch: the service's payload, a timeout, an error with a code, or one without. */
  datatype Fault = Remote(payload: RpcErrorPayload) | TimedOut | Coded(code: string) | Uncoded

  const CONNECTION_ERROR_CODES: set<string> :=
    {"ECONNREFUSED", "ECONNRESET", "EHOSTUNREACH", "ENOTFOUND", "EPIPE"}

  /** JSON drops a key that holds undefined, and isRpcErrorPayload wants the message key. */
  predicate IsRpcErrorPayload(fault: Fault) {
    fault.Remote? && !fault.payload.message.Undefined?
  }

  function ToHttpException(service: string, fault: Fault): HttpException {
    if IsRpcErrorPayload(fault) then
      FromResponse(fault.payload.statusCode, fault.payload.message, fault.payload.error)
    else if fault.TimedOut? then
      Standard(504, "Gateway Timeout", "GatewayTimeoutException", service + " did not respond in time")
    else if fault.Coded? && fault.code in CONNECTION_ERROR_CODES then
      Standard(503, "Service Unavailable", "ServiceUnavailableException", service + " is unavailable")
    else
      Standard(502, "Bad Gateway", "BadGatewayException", "Unexpected response from " + service)
  }

  /** new HttpException({statusCode, message, error}, statusCode) */
  function FromResponse(status: int, message: Value, error: Value): HttpException {
    HttpException(status, Fields(message, error),
                  if message.Text? then message.text else "Http Exception", "HttpException")
  }

  /** new NotFoundException(message) and its siblings. */
  function Standard(status: int, title: string, name: string, message: string): HttpException {
    HttpException(status, Fields(Text(message), Text(title)), message, name)
  }

  function BadRequest(messages: seq<string>): HttpException {
    HttpException(400, Fields(Items(messages), Text("Bad Request")), "Bad Request Exception", "BadRequestException")
  }

  function BadRequestText(message: string): HttpException {
    Standard(400, "Bad Request", "BadRequestException", message)
  }

  function Unauthorized(message: string): HttpException {
    Standard(401, "Unauthorized", "UnauthorizedException", message)
  }

  function Forbidden(message: string): HttpException {
    Standard(403, "Forbidden", "ForbiddenException", message)
  }

  function NotFound(message: string): HttpException {
    Standard(404, "Not Found", "NotFoundException", message)
  }

  function Conflict(message: string): HttpException {
    Standard(409, "Conflict", "ConflictException", message)
  }

  // ---- what callers are told of each failure ----

  /** The service did not answer: a timeout is a 504, a connection that cannot be used a 503, and anything else
      a 502, each with its message and label. */
  ghost predicate Classified(service: string, fault: Fault, payload: RpcErrorPayload) {
    && (payload.statusCode == 504 <==> fault == TimedOut)
    && (payload.statusCode == 503 <==>
          exists code :: fault == Coded(code)
                         && code in ["ECONNREFUSED", "ECONNRESET", "EHOSTUNREACH", "ENOTFOUND", "EPIPE"])
    && (payload.statusCode == 504 ==>
          payload.message == Text(service + " did not respond in time") && payload.error == Text("Gateway Timeout"))
    && (payload.statusCode == 503 ==>
          payload.message == Text(service + " is unavailable") && payload.error == Text("Service Unavailable"))
    && (payload.statusCode !in {503, 504} ==>
          payload == RpcErrorPayload(502, Text("Unexpected response from " + service), Text("Bad Gateway")))
  }

  lemma FaultsAreClassified(service: string, fault: Fault)
    requires !fault.Remote?
    ensures Classified(service, fault, ToRpcErrorPayload(Http(ToHttpException(service, fault))))
  {
    if fault.Coded? {
      assert fault == Coded(fault.code);
    }
  }

  /** The status and the label by which clients know the exceptions that handlers throw. */
  lemma ExceptionsAreNamed(message: string, messages: seq<string>)
    ensures ToRpcErrorPayload(Http(BadRequest(messages))) == RpcErrorPayload(400, Items(messages), Text("Bad Request"))
    ensures ToRpcErrorPayload(Http(BadRequestText(message))) == RpcErrorPayload(400, Text(message), Text("Bad Request"))
    ensures ToRpcErrorPayload(Http(Unauthorized(message))) == RpcErrorPayload(401, Text(message), Text("Unauthorized"))
    ensures ToRpcErrorPayload(Http(Forbidden(message))) == RpcErrorPayload(403, Text(message), Text("Forbidden"))
    ensures ToRpcErrorPayload(Http(NotFound(message))) == RpcErrorPayload(404, Text(message), Text("Not Found"))
    ensures ToRpcErrorPayload(Http(Conflict(message))) == RpcErrorPayload(409, Text(message), Text("Conflict"))
  {
  }

  // ---- relaying ----

  /** One hop: the handler's filter, the wire, and the caller's client for `service`. */
  function Hop(service: string, thrown: Thrown): Thrown {
    Http(ToHttpException(service, Remote(ToRpcErrorPayload(thrown))))
  }

  /** The error after it has been relayed by the clients of `services`, in that order. */
  function Relay(services: seq<string>, thrown: Thrown): Thrown
  {
    if services == [] then thrown else Relay(services[1..], Hop(services[0], thrown))
  }

  predicate Complete(payload: RpcErrorPayload) {
    !Missing(payload.message) && !Missing(payload.error)
  }

  /** Every HTTP exception leaves its service as a complete payload. */
  lemma HttpIsComplete(exception: HttpException)
    ensures Complete(ToRpcErrorPayload(Http(exception)))
  {
  }

  /** A hop changes nothing of a payload exactly when it carries both a message and an error label. */
  lemma HopKeepsExactlyComplete(service: string, thrown: Thrown)
    ensures ToRpcErrorPayload(Hop(service, thrown)) == ToRpcErrorPayload(thrown)
            <==> Complete(ToRpcErrorPayload(thrown))
  {
  }

  /** Any number of hops keeps status, message and label of every error thrown as an HTTP exception. */
  lemma {:induction false} RelayKeepsHttpErrors(services: seq<string>, exception: HttpException)
    ensures ToRpcErrorPayload(Relay(services, Http(exception))) == ToRpcErrorPayload(Http(exception))
  {
    if services != [] {
      HttpIsComplete(exception);
      HopKeepsExactlyComplete(services[0], Http(exception));
      RelayKeepsHttpErrors(services[1..], Hop(services[0], Http(exception)).exception);
    }
  }

  /** Whatever was thrown, one hop reaches the fixpoint: later hops change nothing. */
  lemma {:induction false} FirstHopDecides(services: seq<string>, thrown: Thrown)
    requires services != []
    ensures ToRpcErrorPayload(Relay(services, thrown)) == ToRpcErrorPayload(Hop(services[0], thrown))
  {
    RelayKeepsHttpErrors(services[1..], Hop(services[0], thrown).exception);
  }

  /** What clients learn, over any number of hops, of an exception whose body is a text, whose body lacks a key, or that
      is an RpcException without a payload: the text, and otherwise the exception's own message and class name. */
  lemma BareExceptionsAreFilledIn(services: seq<string>, status: int, text: string, message: string, name: string,
                                  error: Value)
    ensures ToRpcErrorPayload(Relay(services, Http(HttpException(status, Plain(text), message, name))))
            == RpcErrorPayload(status, Text(text), Text(name))
    ensures ToRpcErrorPayload(Relay(services, Http(HttpException(status, Fields(Undefined, error), message, name))))
            == RpcErrorPayload(status, Text(message), if error.Undefined? || error.Null? then Text(name) else error)
    ensures ToRpcErrorPayload(Relay(services,
                                    Http(HttpException(status, Fields(Text(text), Undefined), message, name))))
            == RpcErrorPayload(status, Text(text), Text(name))
    ensures ToRpcErrorPayload(Relay(services, Rpc(Words(text), message)))
            == RpcErrorPayload(500, Text(text), Text("Internal Server Error"))
    ensures ToRpcErrorPayload(Relay(services, Rpc(Unshaped, message)))
            == RpcErrorPayload(500, Text(message), Text("Internal Server Error"))
  {
    RelayKeepsHttpErrors(services, HttpException(status, Plain(text), message, name));
    RelayKeepsHttpErrors(services, HttpException(status, Fields(Undefined, error), message, name));
    RelayKeepsHttpErrors(services, HttpException(status, Fields(Text(text), Undefined), message, name));
    CompleteIsKept(services, Rpc(Words(text), message));
    CompleteIsKept(services, Rpc(Unshaped, message));
  }

  lemma CompleteIsKept(services: seq<string>, thrown: Thrown)
    requires Complete(ToRpcErrorPayload(thrown))
    ensures ToRpcErrorPayload(Relay(services, thrown)) == ToRpcErrorPayload(thrown)
  {
    if services != [] {
      FirstHopDecides(services, thrown);
      HopKeepsExactlyComplete(services[0], thrown);
    }
  }

  /** Where a payload ends up after its first hop. */
  function Settled(service: string, payload: RpcErrorPayload): RpcErrorPayload {
    if payload.message.Undefined? then
      RpcErrorPayload(502, Text("Unexpected response from " + service), Text("Bad Gateway"))
    else
      RpcErrorPayload(payload.statusCode, OrElse(payload.message, Text("Http Exception")),
                      OrElse(payload.error, Text("HttpException")))
  }

  lemma HopSettles(service: string, thrown: Thrown)
    ensures ToRpcErrorPayload(Hop(service, thrown)) == Settled(service, ToRpcErrorPayload(thrown))
  {
  }

  /** The fixpoint of an RpcException payload, which is the only source of incomplete ones: a message
      without a label gets the label "HttpException" and keeps status and message; a null message
      becomes "Http Exception"; a payload whose message is undefined arrives as a 502. */
  lemma FixpointOfRpcException(services: seq<string>, payload: RpcErrorPayload, words: string)
    requires services != []
    ensures ToRpcErrorPayload(Relay(services, Rpc(Shaped(payload), words))) == Settled(services[0], payload)
  {
    FirstHopDecides(services, Rpc(Shaped(payload), words));
    HopSettles(services[0], Rpc(Shaped(payload), words));
  }

  /** Database errors and unforeseen ones reach the client, over any number of hops, as one of two
      fixed payloads: nothing of the original error is in them. */
  lemma InternalsStayInside(services: seq<string>, thrown: Thrown)
    requires thrown.QueryFailed? || thrown.Unknown?
    ensures ToRpcErrorPayload(Relay(services, thrown))
            == if thrown == QueryFailed("23505")
               then RpcErrorPayload(409, Text("Resource already exists"), Text("Conflict"))
               else RpcErrorPayload(500, Text("Internal server error"), Text("Internal Server Error"))
  {
    CompleteIsKept(services, thrown);
  }
}
