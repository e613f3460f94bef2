/** apps/api-gateway: guards, routes and the answers sent back to the HTTP client. */
module Gateway {
  import opened Wrappers
  import opened RpcErrors
  import opened Entities
  import opened Dtos
  import A = AuthService
  import C = CatalogService
  import O = OrderService

  datatype HttpCall =
    | PostRegister(registerDto: RegisterDto)
    | PostLogin(loginDto: LoginDto)
    | GetMe
    | GetMovies
    | GetMovie(id: int)
    | PostMovie(movieDto: CreateMovieDto)
    | PatchMovie(id: int, changes: UpdateMovieDto)
    | DeleteMovie(id: int)
    | PostOrder(movieId: int, quantity: int)
    | GetOrders
    | GetOrder(orderId: int)
    | PatchOrderCancel(orderId: int)

  datatype AnswerBody = Data(reply: Reply) | Problem(message: Value, error: Value)

  /** Status and body of the HTTP response. */
  datatype Answer = Answer(status: int, body: AnswerBody)

  datatype Guarded<+T> = Pass(value: T) | Deny(exception: HttpException)

  // ---- jwt-auth.guard.ts ----

  /** header.split(" ") */
  function Split(s: string): (parts: seq<string>)
    ensures parts != []
  {
    if s == "" then [""]
    else
      var rest := Split(s[1..]);
      if s[0] == ' ' then [""] + rest else [[s[0]] + rest[0]] + rest[1..]
  }

  function ExtractBearerToken(header: Option<string>): Option<string> {
    if header.None? then None
    else
      var parts := Split(header.value);
      if parts[0] == "Bearer" && |parts| > 1 && parts[1] != "" then Some(parts[1]) else None
  }

  /** The payload of a token, as far as the guard looks at it: no subject where `sub` is not an integer, and no
      role where `role` is none of ours. */
  datatype Payload = Payload(sub: Option<int>, email: string, role: Option<Role>)

  function PayloadOf(claims: A.Claims): Payload {
    Payload(Some(claims.sub), claims.email, Some(claims.role))
  }

  /** verifyAsync: the token was signed with our secret and has not expired. */
  function Verify(issued: map<string, A.Claims>, token: string, now: int): Option<Payload> {
    if token in issued && now < issued[token].exp then Some(PayloadOf(issued[token])) else None
  }

  /** canActivate, given what verifyAsync delivers for the header's token. */
  function AuthenticatePayload(header: Option<string>, verified: Option<Payload>): Guarded<AuthUser> {
    if ExtractBearerToken(header).None? then Deny(Unauthorized("Missing bearer token"))
    else if verified.None? then Deny(Unauthorized("Invalid or expired token"))
    else if verified.value.sub.None? || verified.value.role.None? then Deny(Unauthorized("Invalid token payload"))
    else Pass(AuthUser(verified.value.sub.value, verified.value.email, verified.value.role.value))
  }

  function Authenticate(issued: map<string, A.Claims>, header: Option<string>, now: int): Guarded<AuthUser> {
    var token := ExtractBearerToken(header);
    AuthenticatePayload(header, if token.Some? then Verify(issued, token.value, now) else None)
  }

  // ---- roles.guard.ts ----

  function Authorize(required: seq<Role>, user: Option<AuthUser>): Guarded<()> {
    if required == [] then Pass(())
    else if user.None? then
      Deny(HttpException(401, Fields(Text("Unauthorized"), Undefined), "Unauthorized", "UnauthorizedException"))
    else if user.value.role in required then Pass(())
    else Deny(Forbidden("Insufficient permissions"))
  }

  // ---- controllers ----

  predicate IsOrderCall(call: HttpCall) {
    call.PostOrder? || call.GetOrders? || call.GetOrder? || call.PatchOrderCancel?
  }

  predicate NeedsToken(call: HttpCall) {
    IsOrderCall(call) || call.GetMe? || RequiredRoles(call) != []
  }

  function RequiredRoles(call: HttpCall): seq<Role> {
    if call.PostMovie? || call.PatchMovie? || call.DeleteMovie? then [ADMIN] else []
  }

  /** JwtAuthGuard, then RolesGuard, where the route carries them. */
  function Guards(issued: map<string, A.Claims>, header: Option<string>, now: int, call: HttpCall)
    : Guarded<Option<AuthUser>>
  {
    if !NeedsToken(call) then Pass(None)
    else match Authenticate(issued, header, now)
      case Deny(e) => Deny(e)
      case Pass(user) => (
        match Authorize(RequiredRoles(call), Some(user))
        case Deny(e) => Deny(e)
        case Pass(_) => Pass(Some(user))
      )
  }

  /** The gateway's validation pipe. */
  ghost predicate ValidBody(call: HttpCall) {
    match call
    case PostRegister(dto) => ValidRegister(dto)
    case PostLogin(dto) => ValidLogin(dto)
    case PostMovie(dto) => ValidMovie(dto)
    case PatchMovie(_, changes) => ValidChanges(changes)
    case PostOrder(movieId, quantity) => ValidOrder(movieId, quantity)
    case _ => true
  }

  /** The RPC a controller sends; order routes carry the id of the token's user. */
  datatype Rpc = ToAuth(authCall: A.AuthCall) | ToCatalog(catalogCall: C.CatalogCall) | ToOrders(orderCall: O.OrderCall)

  function Route(call: HttpCall, user: Option<AuthUser>): Rpc
    requires NeedsToken(call) ==> user.Some?
  {
    match call
    case PostRegister(dto) => ToAuth(A.Register(dto))
    case PostLogin(dto) => ToAuth(A.Login(dto))
    case GetMe => ToAuth(A.GetProfile(user.value.id))
    case GetMovies => ToCatalog(C.FindAllMovies)
    case GetMovie(id) => ToCatalog(C.FindOneMovie(id))
    case PostMovie(dto) => ToCatalog(C.CreateMovie(dto))
    case PatchMovie(id, changes) => ToCatalog(C.UpdateMovie(id, changes))
    case DeleteMovie(id) => ToCatalog(C.DeleteMovie(id))
    case PostOrder(movieId, quantity) => ToOrders(O.CreateOrder(user.value.id, movieId, quantity))
    case GetOrders => ToOrders(O.FindUserOrders(user.value.id))
    case GetOrder(orderId) => ToOrders(O.FindUserOrder(user.value.id, orderId))
    case PatchOrderCancel(orderId) => ToOrders(O.CancelUserOrder(user.value.id, orderId))
  }

  function ServiceOf(call: HttpCall): string {
    if IsOrderCall(call) then "ORDER_SERVICE"
    else if call.PostRegister? || call.PostLogin? || call.GetMe? then "AUTH_SERVICE"
    else "CATALOG_SERVICE"
  }

  // ---- answers ----

  function AnswerException(e: HttpException): Answer {
    match e.response
    case Plain(text) => Answer(e.status, Problem(Text(text), Undefined))
    case Fields(message, error) => Answer(e.status, Problem(message, error))
  }

  function SuccessStatus(call: HttpCall): int {
    match call
    case PostRegister(_) => 201
    case PostMovie(_) => 201
    case PostOrder(_, _) => 201
    case DeleteMovie(_) => 204
    case _ => 200
  }

  /** The RPC has settled with the service's reply. */
  function AnswerReply(call: HttpCall, reply: Reply): Answer {
    if reply.Failed? then AnswerFault(call, Remote(reply.payload))
    else Answer(SuccessStatus(call), Data(if call.DeleteMovie? then NoReply else reply))
  }

  /** The RPC has thrown. */
  function AnswerFault(call: HttpCall, fault: Fault): Answer {
    AnswerException(ToHttpException(ServiceOf(call), fault))
  }

  /** The answer to a request whose RPC timed out, found no connection, or failed in some other way on the way:
      the service may or may not have handled it. */
  predicate ByClient(call: HttpCall, answer: Answer) {
    var service := ServiceOf(call);
    || answer == Answer(504, Problem(Text(service + " did not respond in time"), Text("Gateway Timeout")))
    || answer == Answer(503, Problem(Text(service + " is unavailable"), Text("Service Unavailable")))
    || answer == Answer(502, Problem(Text("Unexpected response from " + service), Text("Bad Gateway")))
  }

  /** The answer is a failure whose message says that this service did not respond, or not as it should. */
  predicate Blames(answer: Answer, service: string) {
    answer.body.Problem? && answer.status in {502, 503, 504}
    && (answer.body.message == Text(service + " did not respond in time")
        || answer.body.message == Text(service + " is unavailable")
        || answer.body.message == Text("Unexpected response from " + service))
  }

  /** Such an answer names the service that the gateway called. */
  lemma ByClientBlames(call: HttpCall, answer: Answer)
    requires ByClient(call, answer)
    ensures Blames(answer, ServiceOf(call))
  {
  }

  /** All client-side failures of an RPC end in one of the three answers. */
  lemma FaultIsByClient(call: HttpCall, fault: Fault)
    requires !fault.Remote?
    ensures ByClient(call, AnswerFault(call, fault))
  {
  }

  /** The answer is this failure's status, message and label, in the name of this service. */
  ghost predicate Fails(answer: Answer, service: string, fault: Fault) {
    && answer.body.Problem?
    && Classified(service, fault, RpcErrorPayload(answer.status, answer.body.message, answer.body.error))
  }

  /** A request whose service did not answer is told so: 504 for a timeout, 503 for a connection that cannot be used,
      502 otherwise, in the name of the service behind its route. */
  lemma FaultsAreAnswered(call: HttpCall, fault: Fault)
    requires !fault.Remote?
    ensures var answer := AnswerFault(call, fault);
            && (call.PostRegister? || call.PostLogin? || call.GetMe? ==> Fails(answer, "AUTH_SERVICE", fault))
            && (call.GetMovies? || call.GetMovie? || call.PostMovie? || call.PatchMovie? || call.DeleteMovie? ==>
                  Fails(answer, "CATALOG_SERVICE", fault))
            && (call.PostOrder? || call.GetOrders? || call.GetOrder? || call.PatchOrderCancel? ==>
                  Fails(answer, "ORDER_SERVICE", fault))
  {
    FaultHasTexts(ServiceOf(call), fault);
    FaultsAreClassified(ServiceOf(call), fault);
    hide ToHttpException, ToRpcErrorPayload, Classified;
  }

  lemma FaultHasTexts(service: string, fault: Fault)
    requires !fault.Remote?
    ensures var e := ToHttpException(service, fault);
            && AnswerException(e).body.Problem?
            && ToRpcErrorPayload(Http(e))
               == RpcErrorPayload(AnswerException(e).status, AnswerException(e).body.message,
                                  AnswerException(e).body.error)
  {
  }
}
