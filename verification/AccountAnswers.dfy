/** What clients of the account routes are answered, in every run. */
module AccountAnswers {
  import opened Wrappers
  import opened RpcErrors
  import opened Entities
  import opened Dtos
  import opened Gateway
  import opened Cinema
  import opened Histories
  import opened OrderHistory
  import opened Answers
  import opened Verdicts
  import Accounts
  import Identity
  import A = AuthService

  /** GET /auth/me: 200, with the row of the token's user; there is no other answer. */
  lemma ProfileAnswered(config: A.Config, schedule: seq<Action>, r: Tid)
    requires var s := Run(Init(config), schedule);
             Heard(s, r) && s.requests[r].call == GetMe
    ensures var s := Run(Init(config), schedule);
            var request := s.requests[r];
            && request.user.Some? && request.user.value.id in s.auth.rows
            && var row := s.auth.rows[request.user.value.id];
            request.answer.value == Answer(200, Data(UserReply(PublicUser(row.id, row.email, row.role))))
  {
    var t, i := AuthAnswered(config, schedule, r);
    UsersAreValid(config, schedule, r);
    hide Run, Heard, Delivers, A.Step;
    RowsStay(config, schedule, i);
    ProfileShown(config, schedule, t, i);
    var s := At(config, schedule, i);
    ProfileIsDelivered(s.auth.rows[s.authTasks[t].call.userId], AuthAfter(config, schedule, t, i).pc.reply,
                       Run(Init(config), schedule).requests[r].answer.value);
    hide At;
  }

  lemma ProfileIsDelivered(row: User, reply: Reply, answer: Answer)
    requires reply == UserReply(PublicUser(row.id, row.email, row.role)) && Delivers(GetMe, reply, answer)
    ensures answer == Answer(200, Data(UserReply(PublicUser(row.id, row.email, row.role))))
  {
  }

  /** No later step changes a user. */
  lemma RowsStay(config: A.Config, schedule: seq<Action>, i: nat)
    requires i <= |schedule|
    ensures Identity.AuthGrows(At(config, schedule, i).auth, Run(Init(config), schedule).auth)
  {
    assert schedule == schedule[..i] + schedule[i..];
    RunConcat(Init(config), schedule[..i], schedule[i..]);
    Identity.IdentityHolds(config, schedule[..i]);
    hide Run, Identity.IdentityOk, Identity.AuthGrows;
    Identity.IdentityHoldsFrom(Run(Init(config), schedule[..i]), schedule[i..]);
  }

  lemma ProfileShown(config: A.Config, schedule: seq<Action>, t: Tid, i: nat)
    requires AuthStepAt(config, schedule, t, i) && At(config, schedule, i).authTasks[t].call.GetProfile?
    ensures var s := At(config, schedule, i);
            var userId := s.authTasks[t].call.userId;
            && userId in s.auth.rows
            && var row := s.auth.rows[userId];
            && AuthAfter(config, schedule, t, i).pc.Done?
            && AuthAfter(config, schedule, t, i).pc.reply == UserReply(PublicUser(row.id, row.email, row.role))
  {
    Identity.IdentityHolds(config, schedule[..i]);
    hide Run;
    var s := At(config, schedule, i);
    assert Identity.AuthTaskOk(s.config, s.auth, s.authTasks[t]);
    assert s.authTasks[t].pc.Start?;
    var userId := s.authTasks[t].call.userId;
    hide At, Identity.IdentityOk;
    ProfileDecides(s.config, s.auth.rows, userId);
    hide A.Begin;
  }

  lemma AuthNextTable(s: System, a: Action)
    requires a.AuthStep? && Enabled(s, a)
    ensures var task := s.authTasks[a.task];
            Next(s, a).auth == A.Step(s.config, s.auth, task.call, task.pc, a.env).db
  {
    hide A.Step;
  }

  // ---- registration ----

  /** What a registration is answered whose last step finds these users, and who there is afterwards. */
  ghost predicate ShowsRegistration(rows: map<int, User>, after: map<int, User>, dto: RegisterDto, answer: Answer) {
    && (dto.password != dto.confirmPassword ==>
          after == rows && Says(answer, 400, "Passwords do not match", "Bad Request"))
    && (dto.password == dto.confirmPassword && (exists id :: Has(rows, dto.email, id)) ==>
          after == rows && (Says(answer, 409, "Email is already registered", "Conflict")
                            || Says(answer, 409, "Resource already exists", "Conflict")))
    && (dto.password == dto.confirmPassword && (forall id :: !Has(rows, dto.email, id)) ==>
          && answer.status == 201 && answer.body.Data? && answer.body.reply.UserReply?
          && var user := answer.body.reply.user;
          && user.email == dto.email && user.role == USER && user.id !in rows
          && after == rows[user.id := User(user.id, dto.email, HashPassword(dto.password), USER)])
  }

  lemma RegisterStepShows(config: A.Config, db: A.AuthDb, dto: RegisterDto, pc: A.AuthPc, env: Env, answer: Answer)
    requires ValidRegister(dto) && A.CanStep(db, A.Register(dto), pc, env)
    requires forall id :: id in db.rows ==> id < db.next
    requires Accounts.RegistrationOk(db, AuthTask(A.Register(dto), pc))
    requires var after := A.Step(config, db, A.Register(dto), pc, env);
             after.pc.Done? && Delivers(PostRegister(dto), after.pc.reply, answer)
    ensures ShowsRegistration(db.rows, A.Step(config, db, A.Register(dto), pc, env).db.rows, dto, answer)
  {
    TakenIsHad(db.rows, dto.email);
    hide HashPassword, ValidRegister, ValidLogin;
    ExceptionsAreNamed("Passwords do not match", []);
    ExceptionsAreNamed("Email is already registered", []);
    hide BadRequestText, Conflict;
  }

  /** POST /auth/register for a valid body: 400 if the two passwords differ, 409 if somebody has the address when the
      handler ends, and otherwise 201 and one more user, with just this address and role USER. */
  lemma RegisterAnswered(config: A.Config, schedule: seq<Action>, r: Tid, dto: RegisterDto) returns (t: Tid, i: nat)
    requires var s := Run(Init(config), schedule);
             Heard(s, r) && s.requests[r].call == PostRegister(dto)
    requires ValidRegister(dto)
    ensures AuthStepAt(config, schedule, t, i)
    ensures ShowsRegistration(At(config, schedule, i).auth.rows, At(config, schedule, i + 1).auth.rows, dto,
                              TheAnswer(Run(Init(config), schedule), r))
  {
    t, i := AuthAnswered(config, schedule, r);
    var s, a := At(config, schedule, i), schedule[i];
    AtNext(config, schedule, i);
    Accounts.RegistrationsHold(config, schedule[..i]);
    Identity.IdentityHolds(config, schedule[..i]);
    hide Run;
    AuthNextTable(s, a);
    assert Accounts.RegistrationOk(s.auth, s.authTasks[t]);
    hide At, Next, Delivers, Heard, A.Step, ShowsRegistration, Accounts.RegistrationOk, ValidRegister;
    RegisterStepShows(s.config, s.auth, dto, s.authTasks[t].pc, a.env, TheAnswer(Run(Init(config), schedule), r));
  }

  // ---- login ----

  /** The step that brought a handler to where it takes another one. */
  lemma AuthStepBefore(config: A.Config, schedule: seq<Action>, t: Tid, last: nat) returns (j: nat)
    requires AuthStepAt(config, schedule, t, last) && !At(config, schedule, last).authTasks[t].pc.Start?
    ensures j < last && AuthStepAt(config, schedule, t, j)
    ensures At(config, schedule, j).authTasks[t].call == At(config, schedule, last).authTasks[t].call
    ensures AuthAfter(config, schedule, t, j).pc == At(config, schedule, last).authTasks[t].pc
    ensures !AuthAfter(config, schedule, t, j).pc.Done?
  {
    assert !At(config, schedule, last).authTasks[t].pc.Done?;
    hide Run, Enabled, A.Step;
    j := AuthReached(config, schedule[..last], t);
    assert schedule[..last][..j] == schedule[..j];
  }

  /** What a login is answered whose handler finds these users, and which tokens there are afterwards. */
  ghost predicate ShowsLogin(rows: map<int, User>, issued: map<string, A.Claims>, expiresIn: string, dto: LoginDto,
                             answer: Answer)
  {
    && (forall id :: Accounts.Knows(rows, dto, id) ==>
          && answer.status == 200 && answer.body.Data? && answer.body.reply.TokenReply?
          && var reply := answer.body.reply;
          && reply.tokenType == "Bearer" && reply.expiresIn == expiresIn && reply.token in issued
          && issued[reply.token] == A.Claims(rows[id].id, rows[id].email, rows[id].role, issued[reply.token].exp))
    && ((forall id :: !Accounts.Knows(rows, dto, id)) ==>
          Says(answer, 401, "Invalid email or password", "Unauthorized"))
  }

  /** A login that has looked the address up in these rows and found nobody, ... */
  lemma UnknownIsShown(config: A.Config, db: A.AuthDb, dto: LoginDto, issued: map<string, A.Claims>, answer: Answer)
    requires ValidLogin(dto) && A.Begin(config, db.rows, A.Login(dto)).Done?
    requires Delivers(PostLogin(dto), A.Begin(config, db.rows, A.Login(dto)).reply, answer)
    ensures ShowsLogin(db.rows, issued, config.jwtExpiresIn, dto, answer)
  {
    ExceptionsAreNamed("Invalid email or password", []);
    hide Unauthorized, HashPassword, ValidRegister, ValidLogin;
    assert !A.EmailTaken(db.rows, dto.email);
    forall id ensures !Accounts.Knows(db.rows, dto, id) {
    }
  }

  /** ... or found a user, whose hash it then compares. */
  lemma ComparisonIsShown(config: A.Config, rows: map<int, User>, db: A.AuthDb, dto: LoginDto, user: User, env: Env,
                          answer: Answer)
    requires ValidLogin(dto) && A.Begin(config, rows, A.Login(dto)) == A.Verifying(user)
    requires forall i, j :: i in rows && j in rows && rows[i].email == rows[j].email ==> i == j
    requires var after := A.SignIn(config, db, dto, user, env.token, env.expiry);
             after.pc.Done? && Delivers(PostLogin(dto), after.pc.reply, answer)
    ensures ShowsLogin(rows, A.SignIn(config, db, dto, user, env.token, env.expiry).db.issued, config.jwtExpiresIn, dto,
                       answer)
  {
    ExceptionsAreNamed("Invalid email or password", []);
    hide Unauthorized, HashPassword, ValidRegister, ValidLogin;
    var id :| id in rows && rows[id] == user && user.email == dto.email;
    forall other | Accounts.Knows(rows, dto, other) ensures other == id {
      assert rows[other].email == rows[id].email;
    }
    assert ComparePassword(dto.password, user.passwordHash) <==> Accounts.Knows(rows, dto, id);
  }

  lemma MoreTokens(rows: map<int, User>, issued: map<string, A.Claims>, more: map<string, A.Claims>, expiresIn: string,
                   dto: LoginDto, answer: Answer)
    requires ShowsLogin(rows, issued, expiresIn, dto, answer)
    requires forall token :: token in issued ==> token in more && more[token] == issued[token]
    ensures ShowsLogin(rows, more, expiresIn, dto, answer)
  {
    hide Accounts.Knows, Says;
  }

  lemma TokensAreKept(config: A.Config, schedule: seq<Action>, i: nat)
    requires i <= |schedule|
    ensures var issued, more := At(config, schedule, i).auth.issued, Run(Init(config), schedule).auth.issued;
            forall token :: token in issued ==> token in more && more[token] == issued[token]
  {
    RowsStay(config, schedule, i);
    hide Run, At;
  }

  /** The tokens after a step are kept. */
  lemma TokensStay(config: A.Config, schedule: seq<Action>, i: nat, rows: map<int, User>, expiresIn: string,
                   dto: LoginDto, answer: Answer)
    requires i < |schedule|
    requires ShowsLogin(rows, At(config, schedule, i + 1).auth.issued, expiresIn, dto, answer)
    ensures ShowsLogin(rows, Run(Init(config), schedule).auth.issued, expiresIn, dto, answer)
  {
    TokensAreKept(config, schedule, i + 1);
    hide Run, At, ShowsLogin;
    MoreTokens(rows, At(config, schedule, i + 1).auth.issued, Run(Init(config), schedule).auth.issued, expiresIn, dto,
               answer);
  }

  /** POST /auth/login for a valid body: who has the address and a password with the same hash, at the instant i of the
      look-up, gets a Bearer token with just the claims of the account; every other login gets the same 401. */
  lemma LoginAnswered(config: A.Config, schedule: seq<Action>, r: Tid, dto: LoginDto) returns (t: Tid, i: nat)
    requires var s := Run(Init(config), schedule);
             Heard(s, r) && s.requests[r].call == PostLogin(dto)
    requires ValidLogin(dto)
    ensures AuthStepAt(config, schedule, t, i) && At(config, schedule, i).authTasks[t].pc.Start?
    ensures ShowsLogin(At(config, schedule, i).auth.rows, Run(Init(config), schedule).auth.issued, config.jwtExpiresIn,
                       dto, TheAnswer(Run(Init(config), schedule), r))
  {
    var last;
    t, last := AuthAnswered(config, schedule, r);
    var s, a := At(config, schedule, last), schedule[last];
    var answer := TheAnswer(Run(Init(config), schedule), r);
    ConfigHolds(config, schedule[..last]);
    Identity.IdentityHolds(config, schedule[..last]);
    hide Run;
    assert Identity.AuthTaskOk(s.config, s.auth, s.authTasks[t]);
    if s.authTasks[t].pc.Start? {
      i := last;
      hide At, Delivers, ShowsLogin, A.Begin;
      UnknownIsShown(config, s.auth, dto, Run(Init(config), schedule).auth.issued, answer);
    } else {
      i := LooksUp(config, schedule, t, last, dto);
      AtNext(config, schedule, last);
      AuthNextTable(s, a);
      hide At, Delivers, ShowsLogin, A.Begin, A.SignIn, Next;
      ComparisonIsShown(config, At(config, schedule, i).auth.rows, s.auth, dto, s.authTasks[t].pc.user, a.env, answer);
      TokensStay(config, schedule, last, At(config, schedule, i).auth.rows, config.jwtExpiresIn, dto, answer);
    }
  }

  /** The look-up of a login that compares the passwords. */
  lemma LooksUp(config: A.Config, schedule: seq<Action>, t: Tid, last: nat, dto: LoginDto) returns (i: nat)
    requires AuthStepAt(config, schedule, t, last) && At(config, schedule, last).authTasks[t].call == A.Login(dto)
    requires At(config, schedule, last).authTasks[t].pc.Verifying?
    ensures AuthStepAt(config, schedule, t, i) && At(config, schedule, i).authTasks[t].pc.Start?
    ensures var rows := At(config, schedule, i).auth.rows;
            && A.Begin(config, rows, A.Login(dto)) == At(config, schedule, last).authTasks[t].pc
            && forall i, j :: i in rows && j in rows && rows[i].email == rows[j].email ==> i == j
  {
    i := AuthStepBefore(config, schedule, t, last);
    ConfigHolds(config, schedule[..i]);
    Identity.IdentityHolds(config, schedule[..i]);
    hide Run, A.Begin;
  }
}
