/** Registration and login as one: who has registered can log in ever after, with the passwords that bcrypt
    does not tell from the registered one. */
module Accounts {
  import opened Wrappers
  import opened RpcErrors
  import opened Entities
  import opened Dtos
  import opened Text
  import opened Gateway
  import opened Cinema
  import Bcrypt
  import Identity
  import Links
  import Verdicts
  import A = AuthService
  import AO = AuthObjects

  const REFUSED: Reply := ThrowHttp(Unauthorized("Invalid email or password"))

  /** The account has this address and a password with the same hash. */
  ghost predicate Knows(rows: map<int, User>, dto: LoginDto, id: int) {
    id in rows && rows[id].email == dto.email && rows[id].passwordHash == HashPassword(dto.password)
  }

  /** The handler may sign the token for whichever user it finds. */
  ghost predicate Signable(db: A.AuthDb, dto: LoginDto, env: Env) {
    env.id >= db.next
    && forall id :: id in db.rows && db.rows[id].email == dto.email ==>
         A.CanSign(db, db.rows[id], env.token, env.expiry)
  }

  /** A login succeeds exactly for the address of an account and a password with the same hash, and the token
      then lets that account in until it expires. Every other valid login gets the same 401 and changes
      nothing, so that it does not tell whether the address is known. */
  lemma LoginDecides(config: A.Config, db: A.AuthDb, dto: LoginDto, env: Env)
    requires Identity.UsersOk(db) && ValidLogin(dto) && Signable(db, dto, env)
    ensures var after := AO.Alone(config, db, A.Login(dto), env);
            && (forall id :: Knows(db.rows, dto, id) ==>
                  && after.pc == A.Done(TokenReply(env.token, "Bearer", config.jwtExpiresIn))
                  && after.db.rows == db.rows
                  && after.db.issued == db.issued[env.token := A.ClaimsOf(db.rows[id], env.expiry)])
            && ((forall id :: !Knows(db.rows, dto, id)) ==> after == After(db, A.Done(REFUSED)))
  {
    var after := AO.Alone(config, db, A.Login(dto), env);
    if A.EmailTaken(db.rows, dto.email) {
      var id :| id in db.rows && db.rows[id].email == dto.email;
      assert A.UserWithEmail(db.rows, dto.email) == Some(db.rows[id]);
      assert Knows(db.rows, dto, id) <==> ComparePassword(dto.password, db.rows[id].passwordHash);
    }
  }

  // ---- over runs ----

  /** The row that a registration makes. */
  function Account(dto: RegisterDto, id: int): User {
    User(id, dto.email, HashPassword(dto.password), USER)
  }

  /** The two passwords of the body agree. */
  predicate Confirmed(dto: RegisterDto) {
    dto.confirmPassword == dto.password
  }

  ghost predicate RegistrationOk(db: A.AuthDb, task: AuthTask) {
    task.call.Register? ==>
      var dto := task.call.registerDto;
      && (task.pc.Creating? ==>
            && ValidRegister(dto) && Confirmed(dto)
            && task.pc == A.Creating(dto.email, HashPassword(dto.password), USER))
      && !task.pc.Verifying?
      && (task.pc.Done? && task.pc.reply.UserReply? ==>
            var id := task.pc.reply.user.id;
            ValidRegister(dto) && Confirmed(dto) && id in db.rows && db.rows[id] == Account(dto, id)
            && task.pc.reply.user == PublicUser(id, dto.email, USER))
      && (task.pc.Done? && ValidRegister(dto) && !Confirmed(dto) ==>
            Verdicts.Refuses(task.pc.reply, 400, "Passwords do not match", "Bad Request"))
  }

  ghost predicate RegistrationsOk(s: System) {
    forall t :: t in s.authTasks ==> RegistrationOk(s.auth, s.authTasks[t])
  }

  lemma RegistrationStep(config: A.Config, db: A.AuthDb, task: AuthTask, env: Env)
    requires RegistrationOk(db, task) && A.CanStep(db, task.call, task.pc, env)
    ensures var after := A.Step(config, db, task.call, task.pc, env);
            RegistrationOk(after.db, task.(pc := after.pc))
  {
  }

  lemma RegistrationStays(db: A.AuthDb, new_: A.AuthDb, task: AuthTask)
    requires RegistrationOk(db, task) && Identity.AuthGrows(db, new_)
    ensures RegistrationOk(new_, task)
  {
  }

  lemma RegistrationsKept(s: System, a: Action)
    requires RegistrationsOk(s) && Identity.IdentityOk(s)
    ensures RegistrationsOk(Next(s, a))
  {
    var n := Next(s, a);
    Identity.IdentityKept(s, a);
    if Enabled(s, a) {
      Links.NewcomersStart(s, a);
      if a.AuthStep? {
        RegistrationStep(s.config, s.auth, s.authTasks[a.task], a.env);
        assert n.authTasks == s.authTasks[a.task := n.authTasks[a.task]];
      } else {
        Links.AuthTasksStay(s, a);
      }
      hide Next, Enabled, Identity.AuthGrows, RegistrationOk;
      forall t | t in n.authTasks && t in s.authTasks && !(a.AuthStep? && t == a.task)
        ensures RegistrationOk(n.auth, n.authTasks[t])
      {
        RegistrationStays(s.auth, n.auth, s.authTasks[t]);
      }
      StartedIsOk(n);
    }
  }

  lemma StartedIsOk(n: System)
    ensures forall t :: t in n.authTasks && n.authTasks[t].pc.Start? ==> RegistrationOk(n.auth, n.authTasks[t])
  {
  }

  lemma {:induction false} RegistrationsHold(config: A.Config, schedule: seq<Action>)
    ensures RegistrationsOk(Run(Init(config), schedule))
  {
    if schedule != [] {
      RegistrationsHold(config, schedule[..|schedule| - 1]);
      Identity.IdentityHolds(config, schedule[..|schedule| - 1]);
      RegistrationsKept(Run(Init(config), schedule[..|schedule| - 1]), schedule[|schedule| - 1]);
    }
  }

  /** Handler t has answered its registration with this user. */
  ghost predicate Registered(s: System, t: Tid, dto: RegisterDto, user: PublicUser) {
    t in s.authTasks && s.authTasks[t].call == A.Register(dto) && s.authTasks[t].pc == A.Done(UserReply(user))
  }

  lemma RegisteredHasAccount(config: A.Config, schedule: seq<Action>, t: Tid, dto: RegisterDto, user: PublicUser)
    requires Registered(Run(Init(config), schedule), t, dto, user)
    ensures var rows := Run(Init(config), schedule).auth.rows;
            user.id in rows && rows[user.id] == Account(dto, user.id) && ValidRegister(dto) && Confirmed(dto)
    ensures user == PublicUser(user.id, dto.email, USER)
  {
    var s := Run(Init(config), schedule);
    RegistrationsHold(config, schedule);
    assert RegistrationOk(s.auth, s.authTasks[t]);
  }

  /** Over every run: a registration that was answered with a user had two equal passwords, and one that passed the
      pipe with two different ones was answered 400, whatever else was in its body or in the table. */
  lemma OnlyConfirmedRegister(config: A.Config, schedule: seq<Action>, t: Tid, dto: RegisterDto)
    requires var s := Run(Init(config), schedule);
             t in s.authTasks && s.authTasks[t].call == A.Register(dto) && s.authTasks[t].pc.Done?
    ensures var reply := Run(Init(config), schedule).authTasks[t].pc.reply;
            && (reply.UserReply? ==> dto.password == dto.confirmPassword)
            && (ValidRegister(dto) && dto.password != dto.confirmPassword ==>
                  Verdicts.Refuses(reply, 400, "Passwords do not match", "Bad Request"))
  {
    var s := Run(Init(config), schedule);
    RegistrationsHold(config, schedule);
    hide Run;
    assert RegistrationOk(s.auth, s.authTasks[t]);
  }

  // ---- one account per address ----

  /** The address is as normalising leaves it. */
  predicate Normal(email: string) {
    NormalizeEmail(email) == email
  }

  ghost predicate AddressesOk(db: A.AuthDb, tasks: map<Tid, AuthTask>) {
    && (forall id :: id in db.rows ==> Normal(db.rows[id].email))
    && (forall t :: t in tasks && tasks[t].pc.Creating? ==> Normal(tasks[t].pc.email))
  }

  lemma BeginIsNormal(config: A.Config, rows: map<int, User>, call: A.AuthCall)
    ensures var pc := A.Begin(config, rows, call);
            pc.Creating? ==> Normal(pc.email)
  {
    LowerAsciiIsLowering();
    NormalizeIsIdempotent(LowerAscii, config.adminEmail);
    hide Trim, LowerAscii, HashPassword;
  }

  lemma StepKeepsAddresses(config: A.Config, db: A.AuthDb, task: AuthTask, env: Env)
    requires A.CanStep(db, task.call, task.pc, env)
    requires forall id :: id in db.rows ==> Normal(db.rows[id].email)
    requires task.pc.Creating? ==> Normal(task.pc.email)
    ensures var after := A.Step(config, db, task.call, task.pc, env);
            && (forall id :: id in after.db.rows ==> Normal(after.db.rows[id].email))
            && (after.pc.Creating? ==> Normal(after.pc.email))
  {
    BeginIsNormal(config, db.rows, task.call);
    hide A.Begin, Normal, HashPassword;
  }

  lemma AddressesKept(s: System, a: Action)
    requires AddressesOk(s.auth, s.authTasks)
    ensures AddressesOk(Next(s, a).auth, Next(s, a).authTasks)
  {
    Links.NewcomersStart(s, a);
    if a.AuthStep? && Enabled(s, a) {
      StepKeepsAddresses(s.config, s.auth, s.authTasks[a.task], a.env);
      hide A.Step, A.CanStep, Normal;
    } else {
      Links.AuthTasksStay(s, a);
      OnlyAuthSteps(s, a);
      hide Next, Enabled, Normal;
    }
  }

  lemma OnlyAuthSteps(s: System, a: Action)
    requires !(a.AuthStep? && Enabled(s, a))
    ensures Next(s, a).auth == s.auth
  {
  }

  lemma {:induction false} AddressesHold(config: A.Config, schedule: seq<Action>)
    ensures AddressesOk(Run(Init(config), schedule).auth, Run(Init(config), schedule).authTasks)
  {
    if schedule != [] {
      AddressesHold(config, schedule[..|schedule| - 1]);
      AddressesKept(Run(Init(config), schedule[..|schedule| - 1]), schedule[|schedule| - 1]);
    }
  }

  /** Over every run: no two accounts, the administrator's included, have addresses that differ in nothing but
      ASCII case and surrounding white space. */
  lemma OneAccountPerAddress(config: A.Config, schedule: seq<Action>, id: int, other: int)
    requires var rows := Run(Init(config), schedule).auth.rows;
             id in rows && other in rows && SameAddress(rows[id].email, rows[other].email)
    ensures id == other
  {
    var rows := Run(Init(config), schedule).auth.rows;
    AddressesHold(config, schedule);
    Identity.IdentityHolds(config, schedule);
    hide Run, SameAddress, NormalizeEmail;
    NormalizeEmailTells(rows[id].email, rows[other].email);
  }

  // ---- logins after the registration, interleaved with everything else ----

  /** The answer of a login for the account: a token that acts for it, if bcrypt takes the two passwords for
      one, and otherwise the 401. */
  ghost predicate Verdict(db: A.AuthDb, account: User, login: LoginDto, reply: Reply) {
    if HashPassword(login.password) == account.passwordHash then
      && reply.TokenReply? && reply.tokenType == "Bearer" && reply.token in db.issued
      && db.issued[reply.token] == A.ClaimsOf(account, db.issued[reply.token].exp)
    else reply == REFUSED
  }

  /** A login handler that began after the account was made, somewhere on its way. */
  ghost predicate LoginOk(db: A.AuthDb, task: AuthTask, account: User, login: LoginDto) {
    task.call == A.Login(login) ==>
      match task.pc
      case Start => true
      case Creating(_, _, _) => false
      case Verifying(user) => user == account
      case Done(reply) => Verdict(db, account, login, reply)
  }

  ghost predicate HasAccount(db: A.AuthDb, account: User) {
    account.id in db.rows && db.rows[account.id] == account
  }

  lemma LoginStep(config: A.Config, db: A.AuthDb, task: AuthTask, env: Env, account: User, login: LoginDto)
    requires LoginOk(db, task, account, login) && HasAccount(db, account) && Identity.UsersOk(db)
    requires ValidLogin(login) && login.email == account.email && A.CanStep(db, task.call, task.pc, env)
    ensures var after := A.Step(config, db, task.call, task.pc, env);
            LoginOk(after.db, task.(pc := after.pc), account, login)
  {
    hide HashPassword;
    if task.call == A.Login(login) && task.pc.Start? {
      assert A.EmailTaken(db.rows, login.email);
      assert A.UserWithEmail(db.rows, login.email) == Some(account);
    }
  }

  lemma LoginStays(db: A.AuthDb, new_: A.AuthDb, task: AuthTask, account: User, login: LoginDto)
    requires LoginOk(db, task, account, login) && Identity.AuthGrows(db, new_)
    ensures LoginOk(new_, task, account, login)
  {
    hide HashPassword;
  }

  ghost predicate LoginsOk(s: System, u: Tid, account: User, login: LoginDto) {
    HasAccount(s.auth, account) && (u in s.authTasks ==> LoginOk(s.auth, s.authTasks[u], account, login))
  }

  lemma LoginsKept(s: System, a: Action, u: Tid, account: User, login: LoginDto)
    requires LoginsOk(s, u, account, login) && Identity.IdentityOk(s)
    requires ValidLogin(login) && login.email == account.email
    ensures LoginsOk(Next(s, a), u, account, login)
  {
    Identity.IdentityKept(s, a);
    if Enabled(s, a) {
      Links.NewcomersStart(s, a);
      if a.AuthStep? && a.task == u {
        LoginStep(s.config, s.auth, s.authTasks[u], a.env, account, login);
        hide LoginOk, A.Step, A.CanStep, Identity.IdentityOk;
      } else {
        AuthTaskStays(s, a, u);
        hide Next, Enabled, Identity.IdentityOk, LoginOk;
        if u in s.authTasks {
          LoginStays(s.auth, Next(s, a).auth, s.authTasks[u], account, login);
        } else if u in Next(s, a).authTasks {
          StartedLogin(Next(s, a).auth, Next(s, a).authTasks[u], account, login);
        }
      }
    }
  }

  lemma StartedLogin(db: A.AuthDb, task: AuthTask, account: User, login: LoginDto)
    requires task.pc.Start?
    ensures LoginOk(db, task, account, login)
  {
  }

  lemma AuthTaskStays(s: System, a: Action, u: Tid)
    requires Enabled(s, a) && !(a.AuthStep? && a.task == u)
    ensures u in s.authTasks ==> u in Next(s, a).authTasks && Next(s, a).authTasks[u] == s.authTasks[u]
  {
    if !a.AuthStep? {
      Links.AuthTasksStay(s, a);
    }
    hide A.Step, A.CanStep;
  }

  lemma {:induction false} LoginsHold(s: System, later: seq<Action>, u: Tid, account: User, login: LoginDto)
    requires LoginsOk(s, u, account, login) && Identity.IdentityOk(s)
    requires ValidLogin(login) && login.email == account.email
    ensures LoginsOk(Run(s, later), u, account, login)
  {
    if later != [] {
      var before := later[..|later| - 1];
      LoginsHold(s, before, u, account, login);
      Identity.IdentityHoldsFrom(s, before);
      LoginsKept(Run(s, before), later[|later| - 1], u, account, login);
    }
  }

  /** Whoever has registered can log in. Once the registration is answered, every login for its address that
      begins later is answered, in any interleaving with everything else, exactly as bcrypt compares the two
      passwords: with a token that acts for the account, or with the 401. */
  lemma RegisteredCanLogIn(config: A.Config, schedule: seq<Action>, later: seq<Action>, t: Tid,
                           registered: RegisterDto, user: PublicUser, u: Tid, login: LoginDto)
    requires Registered(Run(Init(config), schedule), t, registered, user)
    requires var s := Run(Init(config), schedule);
             u in s.authTasks ==> s.authTasks[u].pc.Start?
    requires ValidLogin(login) && login.email == registered.email
    requires var n := Run(Init(config), schedule + later);
             u in n.authTasks && n.authTasks[u].call == A.Login(login) && n.authTasks[u].pc.Done?
    ensures user.role == USER && user.email == registered.email
    ensures var n := Run(Init(config), schedule + later);
            var reply := n.authTasks[u].pc.reply;
            if Bcrypt.Key(login.password) == Bcrypt.Key(registered.password) then
              && reply.TokenReply? && reply.tokenType == "Bearer" && reply.token in n.auth.issued
              && n.auth.issued[reply.token] == A.Claims(user.id, user.email, USER, n.auth.issued[reply.token].exp)
            else reply == REFUSED
  {
    var s := Run(Init(config), schedule);
    RegisteredHasAccount(config, schedule, t, registered, user);
    Identity.IdentityHolds(config, schedule);
    RunConcat(Init(config), schedule, later);
    hide Run, Identity.IdentityOk, Bcrypt.Key;
    LoginsHold(s, later, u, Account(registered, user.id), login);
  }

  /** Without NUL characters, bcrypt compares the first 72 bytes. */
  lemma CompareLooksAt72Bytes(password: string, other: string)
    requires '\0' !in password && '\0' !in other
    ensures ComparePassword(other, HashPassword(password)) <==> Bcrypt.Cut(other) == Bcrypt.Cut(password)
  {
    Bcrypt.KeysCompareCuts(password, other);
  }

  /** A login for the address with the other password opens the account registered with `password`. */
  ghost predicate LetsIn(email: string, other: string, password: string) {
    ValidLogin(LoginDto(email, other)) && ComparePassword(other, HashPassword(password))
  }

  /** Exactly when an account, registered with a password without NUL characters, opens with that password only:
      among logins without NUL characters, if the password has fewer than 72 bytes, or is 72 ASCII characters;
      among all valid logins, only in the second case. */
  lemma OnlyItsOwnPassword(email: string, password: string)
    requires ValidRegister(RegisterDto(email, password, password)) && '\0' !in password
    ensures (forall other :: LetsIn(email, other, password) && '\0' !in other ==> other == password)
            <==> |Bcrypt.Utf8(password)| < 72 || |password| == 72 == |Bcrypt.Utf8(password)|
    ensures (forall other :: LetsIn(email, other, password) ==> other == password)
            <==> |password| == 72 == |Bcrypt.Utf8(password)|
  {
    hide Bcrypt.Key, Bcrypt.Utf8;
    Bcrypt.OnlyWithoutNul(password);
    Bcrypt.OnlyOfAll(password);
    assert forall other :: LetsIn(email, other, password) <==> Bcrypt.Opens(other, password);
  }

  /** An account registered with 37 letters é opens with 36. */
  lemma AnotherPasswordGetsIn(email: string)
    requires ValidEmail(email)
    ensures var password, other := Bcrypt.Accents(37), Bcrypt.Accents(36);
            && other != password && ValidRegister(RegisterDto(email, password, password))
            && ValidLogin(LoginDto(email, other)) && ComparePassword(other, HashPassword(password))
  {
    Bcrypt.AccentsShareAKey();
    hide Bcrypt.Key, Bcrypt.Accents;
  }
}
