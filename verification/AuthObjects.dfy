/** auth.service.ts and jwt-auth.guard.ts as the objects they are. Each method of the service is a whole
    handler, run without interruption, against the steps of AuthService. */
module AuthObjects {
  import opened Wrappers
  import opened RpcErrors
  import opened Entities
  import opened Dtos
  import opened Text
  import opened Gateway
  import Identity
  import A = AuthService

  /** The steps of one handler, one after the other: it reads, and then writes or signs if it gets that far. */
  ghost function Alone(config: A.Config, db: A.AuthDb, call: A.AuthCall, env: Env): After<A.AuthDb, A.AuthPc>
    requires env.id >= db.next
    requires var pc := A.Begin(config, db.rows, call);
             pc.Verifying? ==> call.Login? && A.CanSign(db, pc.user, env.token, env.expiry)
  {
    var read := A.Step(config, db, call, A.Start, env);
    if read.pc.Done? then read else A.Step(config, read.db, call, read.pc, env)
  }

  /** Repository<User> */
  class UserRepository {
    var rows: map<int, User>
    var next: int

    constructor ()
      ensures rows == map[] && next == 1
    {
      rows, next := map[], 1;
    }

    /** A scan of the table for a user with the email. */
    method ExistsBy(email: string) returns (found: bool)
      ensures found <==> A.EmailTaken(rows, email)
    {
      var rest := rows.Keys;
      while rest != {}
        invariant rest <= rows.Keys
        invariant forall id :: id in rows && id !in rest ==> rows[id].email != email
        decreases |rest|
      {
        var id := Pick(rest);
        if rows[id].email == email { return true; }
        rest := rest - {id};
      }
      return false;
    }

    /** INSERT; the unique constraint is the last word. */
    method Save(email: string, passwordHash: PasswordHash, role: Role, id: int) returns (saved: Option<User>)
      modifies this
      ensures if A.EmailTaken(old(rows), email) then saved.None? && rows == old(rows) && next == old(next)
              else && saved == Some(User(id, email, passwordHash, role))
                   && rows == old(rows)[id := saved.value] && next == id + 1
    {
      if A.EmailTaken(rows, email) { return None; }
      var user := User(id, email, passwordHash, role);
      rows, next := rows[id := user], id + 1;
      return Some(user);
    }
  }

  /** JwtService: every token it has signed verifies until it expires. */
  class JwtService {
    var issued: map<string, A.Claims>

    constructor ()
      ensures issued == map[]
    {
      issued := map[];
    }

    method Sign(claims: A.Claims, token: string)
      modifies this
      ensures issued == old(issued)[token := claims]
    {
      issued := issued[token := claims];
    }
  }

  class AuthServiceObject {
    const users: UserRepository
    const jwt: JwtService
    const config: A.Config

    constructor (users: UserRepository, jwt: JwtService, config: A.Config)
      ensures this.users == users && this.jwt == jwt && this.config == config
    {
      this.users, this.jwt, this.config := users, jwt, config;
    }

    ghost function Db(): A.AuthDb
      reads users, jwt
    {
      A.AuthDb(users.rows, users.next, jwt.issued)
    }

    method CreateUser(email: string, password: string, role: Role, env: Env) returns (reply: Reply)
      modifies users
      ensures After(Db(), A.Done(reply)) == A.SaveUser(old(Db()), email, HashPassword(password), role, env.id)
    {
      var user := users.Save(email, HashPassword(password), role, env.id);
      if user.None? { return Throw(QueryFailed(PG_UNIQUE_VIOLATION)); }
      return UserReply(ToPublicUser(user.value));
    }

    method Register(dto: RegisterDto, env: Env) returns (reply: Reply)
      requires env.id >= users.next
      modifies users
      ensures After(Db(), A.Done(reply)) == Alone(config, old(Db()), A.Register(dto), env)
      ensures ValidRegister(dto) && dto.password != dto.confirmPassword ==>
                && reply == Failed(RpcErrorPayload(400, Value.Text("Passwords do not match"),
                                                   Value.Text("Bad Request")))
                && Db() == old(Db())
      ensures reply.UserReply? ==> dto.password == dto.confirmPassword
    {
      if !ValidRegister(dto) { return ThrowHttp(BadRequest(["invalid body"])); }
      if dto.password != dto.confirmPassword { return ThrowHttp(BadRequestText("Passwords do not match")); }
      var found := users.ExistsBy(dto.email);
      if found { return ThrowHttp(Conflict("Email is already registered")); }
      reply := CreateUser(dto.email, dto.password, USER, env);
    }

    method EnsureAdminAccount(env: Env) returns (reply: Reply)
      requires env.id >= users.next
      modifies users
      ensures After(Db(), A.Done(reply)) == Alone(config, old(Db()), A.EnsureAdminAccount, env)
      ensures !reply.Failed?
    {
      reply := NoReply;
      if config.adminEmail == "" || config.adminPassword == "" { return; }
      var email := NormalizeEmail(config.adminEmail);
      var found := users.ExistsBy(email);
      if found { return; }
      reply := CreateUser(email, config.adminPassword, ADMIN, env);
    }

    method Login(dto: LoginDto, env: Env) returns (reply: Reply)
      requires Identity.UsersOk(Db())
      requires env.id >= users.next
      requires forall id :: id in users.rows && users.rows[id].email == dto.email ==>
                 A.CanSign(Db(), users.rows[id], env.token, env.expiry)
      modifies jwt
      ensures After(Db(), A.Done(reply)) == Alone(config, old(Db()), A.Login(dto), env)
    {
      if !ValidLogin(dto) { return ThrowHttp(BadRequest(["invalid body"])); }
      if !A.EmailTaken(users.rows, dto.email) { return ThrowHttp(Unauthorized("Invalid email or password")); }
      var id :| id in users.rows && users.rows[id].email == dto.email;
      var user := users.rows[id];
      assert A.UserWithEmail(users.rows, dto.email) == Some(user);
      if !ComparePassword(dto.password, user.passwordHash) {
        return ThrowHttp(Unauthorized("Invalid email or password"));
      }
      jwt.Sign(A.ClaimsOf(user, env.expiry), env.token);
      return TokenReply(env.token, "Bearer", config.jwtExpiresIn);
    }

    method GetProfile(userId: int) returns (reply: Reply)
      ensures A.Done(reply) == A.Begin(config, users.rows, A.GetProfile(userId))
    {
      if !ValidId(userId) { return ThrowHttp(BadRequest(["invalid body"])); }
      if userId !in users.rows { return ThrowHttp(NotFound("User not found")); }
      return UserReply(ToPublicUser(users.rows[userId]));
    }
  }

  /** The request object the guards see. */
  class AuthenticatedRequest {
    const authorization: Option<string>
    var user: Option<AuthUser>

    constructor (authorization: Option<string>)
      ensures this.authorization == authorization && user == None
    {
      this.authorization, user := authorization, None;
    }
  }

  class JwtAuthGuard {
    constructor ()
    {
    }

    /** The 401 with this message. */
    predicate Refuses(thrown: Option<HttpException>, message: string) {
      thrown.Some? && ToRpcErrorPayload(Http(thrown.value))
                      == RpcErrorPayload(401, Value.Text(message), Value.Text("Unauthorized"))
    }

    /** Attaches the token's user to the request, or throws and leaves the request alone; `verified` is the
        payload that verifyAsync delivers for the header's token, if it does not throw. */
    method CanActivate(request: AuthenticatedRequest, verified: Option<Payload>) returns (thrown: Option<HttpException>)
      modifies request
      ensures var token := ExtractBearerToken(request.authorization);
              if token.None? then Refuses(thrown, "Missing bearer token")
              else if verified.None? then Refuses(thrown, "Invalid or expired token")
              else if verified.value.sub.None? || verified.value.role.None? then
                Refuses(thrown, "Invalid token payload")
              else thrown == None
      ensures match AuthenticatePayload(request.authorization, verified)
              case Pass(user) => thrown == None && request.user == Some(user)
              case Deny(exception) => thrown == Some(exception) && request.user == old(request.user)
    {
      var token := ExtractBearerToken(request.authorization);
      if token.None? { return Some(Unauthorized("Missing bearer token")); }
      if verified.None? { return Some(Unauthorized("Invalid or expired token")); }
      var payload := verified.value;
      if payload.sub.None? || payload.role.None? { return Some(Unauthorized("Invalid token payload")); }
      request.user := Some(AuthUser(payload.sub.value, payload.email, payload.role.value));
      return None;
    }
  }
}
