/** apps/auth-service/src/auth.service.ts, handler by handler and await by await. */
module AuthService {
  import opened Wrappers
  import opened RpcErrors
  import opened Entities
  import opened Dtos
  import opened Text

  datatype Config = Config(adminEmail: string, adminPassword: string, jwtExpiresIn: string)

  datatype Claims = Claims(sub: int, email: string, role: Role, exp: int)

  /** The users table with its SERIAL counter, and every token signed so far. */
  datatype AuthDb = AuthDb(rows: map<int, User>, next: int, issued: map<string, Claims>)

  datatype AuthCall =
    | Register(registerDto: RegisterDto)
    | Login(loginDto: LoginDto)
    | GetProfile(userId: int)
    | EnsureAdminAccount

  datatype AuthPc =
    | Start
    | Creating(email: string, passwordHash: PasswordHash, role: Role)
    | Verifying(user: User)
    | Done(reply: Reply)

  /** existsBy({ email }) */
  predicate EmailTaken(rows: map<int, User>, email: string) {
    exists id :: id in rows && rows[id].email == email
  }

  ghost function UserWithEmail(rows: map<int, User>, email: string): (user: Option<User>)
    ensures user.Some? <==> EmailTaken(rows, email)
    ensures user.Some? ==> exists id :: id in rows && rows[id] == user.value && user.value.email == email
  {
    if EmailTaken(rows, email) then
      var id :| id in rows && rows[id].email == email;
      Some(rows[id])
    else None
  }

  ghost function Begin(config: Config, rows: map<int, User>, call: AuthCall): AuthPc {
    match call
    case Register(dto) =>
      if !ValidRegister(dto) then Done(ThrowHttp(BadRequest(["invalid body"])))
      else if dto.password != dto.confirmPassword then Done(ThrowHttp(BadRequestText("Passwords do not match")))
      else if EmailTaken(rows, dto.email) then Done(ThrowHttp(Conflict("Email is already registered")))
      else Creating(dto.email, HashPassword(dto.password), USER)
    case Login(dto) =>
      if !ValidLogin(dto) then Done(ThrowHttp(BadRequest(["invalid body"])))
      else
        var user := UserWithEmail(rows, dto.email);
        if user.Some? then Verifying(user.value)
        else Done(ThrowHttp(Unauthorized("Invalid email or password")))
    case GetProfile(userId) =>
      if !ValidId(userId) then Done(ThrowHttp(BadRequest(["invalid body"])))
      else if userId in rows then Done(UserReply(ToPublicUser(rows[userId])))
      else Done(ThrowHttp(NotFound("User not found")))
    case EnsureAdminAccount =>
      if config.adminEmail == "" || config.adminPassword == "" then Done(NoReply)
      else if EmailTaken(rows, NormalizeEmail(config.adminEmail)) then Done(NoReply)
      else Creating(NormalizeEmail(config.adminEmail), HashPassword(config.adminPassword), ADMIN)
  }

  /** users.save of a new entity: the unique constraint decides. */
  ghost function SaveUser(db: AuthDb, email: string, hash: PasswordHash, role: Role, id: int): After<AuthDb, AuthPc> {
    if EmailTaken(db.rows, email) then
      After(db, Done(Throw(QueryFailed(PG_UNIQUE_VIOLATION))))
    else
      var user := User(id, email, hash, role);
      After(db.(rows := db.rows[id := user], next := id + 1), Done(UserReply(ToPublicUser(user))))
  }

  function ClaimsOf(user: User, exp: int): Claims {
    Claims(user.id, user.email, user.role, exp)
  }

  /** compare, then signAsync. */
  function SignIn(config: Config, db: AuthDb, dto: LoginDto, user: User, token: string, exp: int)
    : After<AuthDb, AuthPc>
  {
    if ComparePassword(dto.password, user.passwordHash) then
      After(db.(issued := db.issued[token := ClaimsOf(user, exp)]),
            Done(TokenReply(token, "Bearer", config.jwtExpiresIn)))
    else
      After(db, Done(ThrowHttp(Unauthorized("Invalid email or password"))))
  }

  /** A signed token is a non-empty word, and one text never stands for two payloads. */
  ghost predicate CanSign(db: AuthDb, user: User, token: string, exp: int) {
    && token != "" && ' ' !in token
    && (token in db.issued ==> db.issued[token] == ClaimsOf(user, exp))
  }

  ghost predicate CanStep(db: AuthDb, call: AuthCall, pc: AuthPc, env: Env) {
    match pc
    case Start => true
    case Creating(_, _, _) => env.id >= db.next
    case Verifying(user) => call.Login? && CanSign(db, user, env.token, env.expiry)
    case Done(_) => false
  }

  /** One step of a handler, up to its next await. */
  ghost function Step(config: Config, db: AuthDb, call: AuthCall, pc: AuthPc, env: Env): After<AuthDb, AuthPc>
    requires CanStep(db, call, pc, env)
  {
    match pc
    case Start => After(db, Begin(config, db.rows, call))
    case Creating(email, hash, role) => SaveUser(db, email, hash, role, env.id)
    case Verifying(user) => SignIn(config, db, call.loginDto, user, env.token, env.expiry)
  }
}
