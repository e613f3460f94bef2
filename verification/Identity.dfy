/** Who may act: every identity in the system is a row of users, in every reachable state. */
module Identity {
  import opened Wrappers
  import opened Entities
  import opened Gateway
  import opened Text
  import opened Cinema
  import Dtos
  import RpcErrors
  import A = AuthService
  import C = CatalogService
  import O = OrderService

  /** Ids are keys below the counter, and emails are unique. */
  ghost predicate UsersOk(db: A.AuthDb) {
    && (forall id :: id in db.rows ==> db.rows[id].id == id && 1 <= id < db.next)
    && (forall i, j :: i in db.rows && j in db.rows && db.rows[i].email == db.rows[j].email ==> i == j)
  }

  /** The configured administrator. */
  ghost predicate AdminEmail(config: A.Config, email: string) {
    config.adminEmail != "" && email == NormalizeEmail(config.adminEmail)
  }

  ghost predicate AdminsSeeded(config: A.Config, db: A.AuthDb) {
    forall id :: id in db.rows && db.rows[id].role == ADMIN ==> AdminEmail(config, db.rows[id].email)
  }

  /** An identity that agrees with its users row. */
  ghost predicate Current(db: A.AuthDb, user: AuthUser) {
    user.id in db.rows && db.rows[user.id].email == user.email && db.rows[user.id].role == user.role
  }

  ghost predicate TokensOk(db: A.AuthDb) {
    forall token :: token in db.issued ==>
      && token != "" && ' ' !in token
      && Current(db, AuthUser(db.issued[token].sub, db.issued[token].email, db.issued[token].role))
  }

  ghost predicate AuthTaskOk(config: A.Config, db: A.AuthDb, task: AuthTask) {
    && (task.pc.Creating? && task.pc.role == ADMIN ==> AdminEmail(config, task.pc.email))
    && (task.pc.Creating? && !task.call.EnsureAdminAccount? ==>
          task.call.Register? && task.pc.role == USER && task.pc.email == task.call.registerDto.email)
    && (task.pc.Verifying? ==> task.pc.user.id in db.rows && db.rows[task.pc.user.id] == task.pc.user)
    && (task.call.GetProfile? ==> task.call.userId in db.rows)
  }

  ghost predicate AuthOk(config: A.Config, db: A.AuthDb) {
    db.next >= 1 && UsersOk(db) && AdminsSeeded(config, db) && TokensOk(db)
  }

  ghost predicate RequestOk(db: A.AuthDb, request: Request) {
    && (request.user.Some? ==> Current(db, request.user.value))
    && (!request.child.NoChild? && NeedsToken(request.call) ==> request.user.Some?)
    && (!request.child.NoChild? && RequiredRoles(request.call) != [] ==> request.user.value.role == ADMIN)
  }

  /** Catalog writes are sent for an administrator only. */
  ghost predicate CatalogTaskOk(db: A.AuthDb, task: CatalogTask) {
    && (task.pc.Saving? ==> C.Writes(task.call))
    && (C.Writes(task.call) ==>
          && task.caller.FromGateway? && task.caller.user.Some?
          && task.caller.user.value.role == ADMIN && Current(db, task.caller.user.value))
  }

  ghost predicate OrderTaskOk(db: A.AuthDb, task: OrderTask) {
    && task.call.userId in db.rows
    && (task.pc.Saving? ==> task.pc.draft.userId == task.call.userId)
    && (task.pc.Loaded? ==> task.pc.order.userId == task.call.userId)
  }

  ghost predicate IdentityOk(s: System) {
    && AuthOk(s.config, s.auth)
    && (forall t :: t in s.authTasks ==> AuthTaskOk(s.config, s.auth, s.authTasks[t]))
    && (forall r :: r in s.requests ==> RequestOk(s.auth, s.requests[r]))
    && (forall t :: t in s.catalogTasks ==> CatalogTaskOk(s.auth, s.catalogTasks[t]))
    && (forall t :: t in s.orderTasks ==> OrderTaskOk(s.auth, s.orderTasks[t]))
    && (forall id :: id in s.orders.rows ==> s.orders.rows[id].userId in s.auth.rows)
  }

  /** No handler updates or deletes a user, and none forgets or changes a token. */
  ghost predicate AuthGrows(old_: A.AuthDb, new_: A.AuthDb) {
    && (forall id :: id in old_.rows ==> id in new_.rows && new_.rows[id] == old_.rows[id])
    && (forall token :: token in old_.issued ==> token in new_.issued && new_.issued[token] == old_.issued[token])
    && old_.next <= new_.next
  }

  lemma AuthStepKeeps(config: A.Config, db: A.AuthDb, task: AuthTask, env: Env)
    requires AuthOk(config, db) && AuthTaskOk(config, db, task) && A.CanStep(db, task.call, task.pc, env)
    ensures var after := A.Step(config, db, task.call, task.pc, env);
            && AuthOk(config, after.db) && AuthGrows(db, after.db)
            && AuthTaskOk(config, after.db, task.(pc := after.pc))
  {
    match task.pc
    case Start => hide A.SaveUser, A.SignIn;
    case Creating(email, hash, role) =>
      SaveKeeps(config, db, email, hash, role, env.id);
      hide A.SaveUser, A.SignIn, A.Begin, AuthOk, AuthGrows;
    case Verifying(user) =>
      SignInKeeps(config, db, task.call.loginDto, user, env.token, env.expiry);
      hide A.SaveUser, A.SignIn, A.Begin, AuthOk, AuthGrows;
  }

  lemma SaveKeeps(config: A.Config, db: A.AuthDb, email: string, hash: PasswordHash, role: Role, id: int)
    requires AuthOk(config, db) && id >= db.next && (role == ADMIN ==> AdminEmail(config, email))
    ensures var after := A.SaveUser(db, email, hash, role, id);
            after.pc.Done? && AuthOk(config, after.db) && AuthGrows(db, after.db)
  {
  }

  lemma SignInKeeps(config: A.Config, db: A.AuthDb, dto: Dtos.LoginDto, user: User, token: string, exp: int)
    requires AuthOk(config, db) && user.id in db.rows && db.rows[user.id] == user && A.CanSign(db, user, token, exp)
    ensures var after := A.SignIn(config, db, dto, user, token, exp);
            after.pc.Done? && AuthOk(config, after.db) && AuthGrows(db, after.db)
  {
  }

  lemma GuardsIdentify(s: System, header: Option<string>, now: int, call: HttpCall)
    requires TokensOk(s.auth)
    ensures var g := Admit(s, header, now, call);
            && (g.Pass? && g.value.Some? ==> Current(s.auth, g.value.value))
            && (g.Pass? && RequiredRoles(call) != [] ==> g.value.Some? && g.value.value.role == ADMIN)
  {
  }

  // Each part of the state can be replaced by another that is in order.

  lemma WithRequest(s: System, r: Tid, request: Request)
    requires IdentityOk(s) && RequestOk(s.auth, request)
    ensures IdentityOk(s.(requests := s.requests[r := request]))
  {
  }

  lemma WithAuth(s: System, db: A.AuthDb)
    requires IdentityOk(s) && AuthOk(s.config, db) && AuthGrows(s.auth, db)
    ensures IdentityOk(s.(auth := db))
  {
  }

  lemma WithAuthTask(s: System, t: Tid, task: AuthTask)
    requires IdentityOk(s) && AuthTaskOk(s.config, s.auth, task)
    ensures IdentityOk(s.(authTasks := s.authTasks[t := task]))
  {
  }

  lemma WithCatalogTask(s: System, t: Tid, task: CatalogTask)
    requires IdentityOk(s) && CatalogTaskOk(s.auth, task)
    ensures IdentityOk(s.(catalogTasks := s.catalogTasks[t := task]))
  {
  }

  lemma WithOrderTask(s: System, t: Tid, task: OrderTask)
    requires IdentityOk(s) && OrderTaskOk(s.auth, task)
    ensures IdentityOk(s.(orderTasks := s.orderTasks[t := task]))
  {
  }

  lemma AdmittedKept(s: System, a: Action, user: Option<AuthUser>)
    requires IdentityOk(s) && a.Arrive? && (NeedsToken(a.call) ==> user.Some?)
    requires user.Some? ==> Current(s.auth, user.value)
    requires RequiredRoles(a.call) != [] ==> user.Some? && user.value.role == ADMIN
    ensures IdentityOk(Admitted(s, a, user, Route(a.call, user)))
  {
    hide IdentityOk;
    match Route(a.call, user)
    case ToAuth(call) =>
      var task := AuthTask(call, A.Start);
      WithAuthTask(s, a.task, task);
      WithRequest(s.(authTasks := s.authTasks[a.task := task]), a.request,
                  Request(a.call, user, AuthChild(a.task), None));
    case ToCatalog(call) =>
      var task := CatalogTask(FromGateway(a.request, user), call, C.Start);
      WithCatalogTask(s, a.task, task);
      WithRequest(s.(catalogTasks := s.catalogTasks[a.task := task]), a.request,
                  Request(a.call, user, CatalogChild(a.task), None));
    case ToOrders(call) =>
      var task := OrderTask(a.request, call, O.Start);
      WithOrderTask(s, a.task, task);
      WithRequest(s.(orderTasks := s.orderTasks[a.task := task]), a.request,
                  Request(a.call, user, OrderChild(a.task), None));
  }

  lemma ArrivalKept(s: System, a: Action)
    requires IdentityOk(s) && a.Arrive? && Enabled(s, a)
    ensures IdentityOk(Effect(s, a)) && Effect(s, a).auth == s.auth
  {
    GuardsIdentify(s, a.header, a.now, a.call);
    AdmitIdentifies(s, a.header, a.now, a.call);
    var g := Admit(s, a.header, a.now, a.call);
    hide Admit, IdentityOk, Route;
    if g.Pass? {
      AdmittedKept(s, a, g.value);
    } else {
      WithRequest(s, a.request, Request(a.call, None, NoChild, Some(AnswerException(g.exception))));
    }
  }

  lemma AuthStepKept(s: System, t: Tid, env: Env)
    requires IdentityOk(s) && Enabled(s, AuthStep(t, env))
    ensures IdentityOk(Effect(s, AuthStep(t, env))) && AuthGrows(s.auth, Effect(s, AuthStep(t, env)).auth)
  {
    var task := s.authTasks[t];
    var after := A.Step(s.config, s.auth, task.call, task.pc, env);
    AuthStepKeeps(s.config, s.auth, task, env);
    WithAuth(s, after.db);
    WithAuthTask(s.(auth := after.db), t, task.(pc := after.pc));
  }

  lemma OrderStepKept(s: System, t: Tid, env: Env)
    requires IdentityOk(s) && Enabled(s, OrderStep(t, env))
    ensures IdentityOk(Effect(s, OrderStep(t, env))) && Effect(s, OrderStep(t, env)).auth == s.auth
  {
  }

  lemma BootKept(s: System, t: Tid)
    requires IdentityOk(s) && Enabled(s, Boot(t))
    ensures IdentityOk(Effect(s, Boot(t))) && Effect(s, Boot(t)).auth == s.auth
  {
  }

  lemma CatalogStepKept(s: System, t: Tid, env: Env)
    requires IdentityOk(s) && Enabled(s, CatalogStep(t, env))
    ensures IdentityOk(Effect(s, CatalogStep(t, env))) && Effect(s, CatalogStep(t, env)).auth == s.auth
  {
  }

  lemma AskCatalogKept(s: System, t: Tid, child: Tid)
    requires IdentityOk(s) && Enabled(s, AskCatalog(t, child))
    ensures IdentityOk(Effect(s, AskCatalog(t, child))) && Effect(s, AskCatalog(t, child)).auth == s.auth
  {
  }

  lemma MovieKept(s: System, a: Action)
    requires IdentityOk(s) && Enabled(s, a) && (a.MovieArrives? || a.MovieFails?)
    ensures IdentityOk(Effect(s, a)) && Effect(s, a).auth == s.auth
  {
  }

  lemma AnswerKept(s: System, a: Action)
    requires IdentityOk(s) && Enabled(s, a) && (a.ReplyArrives? || a.RpcFails?)
    ensures IdentityOk(Effect(s, a)) && Effect(s, a).auth == s.auth
  {
  }

  /** Every step keeps all of it, and only adds users and tokens. */
  lemma IdentityKept(s: System, a: Action)
    requires IdentityOk(s)
    ensures IdentityOk(Next(s, a)) && AuthGrows(s.auth, Next(s, a).auth)
  {
    if Enabled(s, a) {
      hide Effect;
      match a
      case Boot(t) => BootKept(s, t);
      case Arrive(_, _, _, _, _) => ArrivalKept(s, a);
      case AuthStep(t, env) => AuthStepKept(s, t, env);
      case CatalogStep(t, env) => CatalogStepKept(s, t, env);
      case OrderStep(t, env) => OrderStepKept(s, t, env);
      case AskCatalog(t, child) => AskCatalogKept(s, t, child);
      case MovieArrives(_) => MovieKept(s, a);
      case MovieFails(_, _) => MovieKept(s, a);
      case ReplyArrives(_) => AnswerKept(s, a);
      case RpcFails(_, _) => AnswerKept(s, a);
    }
  }

  lemma {:induction false} IdentityHolds(config: A.Config, schedule: seq<Action>)
    ensures IdentityOk(Run(Init(config), schedule))
  {
    if schedule != [] {
      IdentityHolds(config, schedule[..|schedule| - 1]);
      IdentityKept(Run(Init(config), schedule[..|schedule| - 1]), schedule[|schedule| - 1]);
    }
  }

  lemma {:induction false} IdentityHoldsFrom(s: System, schedule: seq<Action>)
    requires IdentityOk(s)
    ensures IdentityOk(Run(s, schedule)) && AuthGrows(s.auth, Run(s, schedule).auth)
    ensures Run(s, schedule).config == s.config
  {
    if schedule != [] {
      IdentityHoldsFrom(s, schedule[..|schedule| - 1]);
      IdentityKept(Run(s, schedule[..|schedule| - 1]), schedule[|schedule| - 1]);
      ConfigFixed(Run(s, schedule[..|schedule| - 1]), schedule[|schedule| - 1]);
    }
  }

  lemma ConfigFixed(s: System, a: Action)
    ensures Next(s, a).config == s.config
  {
  }

  // ---- tokens ----

  lemma {:induction false} SplitWord(word: string)
    requires ' ' !in word
    ensures Split(word) == [word]
  {
    if word != "" {
      SplitWord(word[1..]);
      assert [word[0]] + word[1..] == word;
    }
  }

  lemma {:induction false} SplitAfterSpace(word: string, rest: string)
    requires ' ' !in word
    ensures Split(word + " " + rest) == [word] + Split(rest)
  {
    var s := word + " " + rest;
    if word == "" {
      assert s[1..] == rest && s[0] == ' ';
    } else {
      SplitAfterSpace(word[1..], rest);
      assert s[1..] == word[1..] + " " + rest && [s[0]] + word[1..] == word;
      assert ([word[1..]] + Split(rest))[1..] == Split(rest);
    }
  }

  lemma BearerToken(token: string)
    requires token != "" && ' ' !in token
    ensures ExtractBearerToken(Some("Bearer " + token)) == Some(token)
  {
    SplitAfterSpace("Bearer", token);
    SplitWord(token);
    assert "Bearer" + " " + token == "Bearer " + token;
  }

  /** A token never goes stale: in every later state the guard lets it in exactly until it expires, and
      what it attaches to the request is the users row as it is then. */
  lemma IssuedTokensStayCurrent(config: A.Config, schedule: seq<Action>, later: seq<Action>, token: string, now: int)
    requires token in Run(Init(config), schedule).auth.issued
    ensures var claims := Run(Init(config), schedule).auth.issued[token];
            var db := Run(Init(config), schedule + later).auth;
            && claims.sub in db.rows
            && Authenticate(db.issued, Some("Bearer " + token), now)
               == if now < claims.exp
                  then Pass(AuthUser(claims.sub, db.rows[claims.sub].email, db.rows[claims.sub].role))
                  else Deny(RpcErrors.Unauthorized("Invalid or expired token"))
  {
    IdentityHolds(config, schedule);
    IdentityHoldsFrom(Run(Init(config), schedule), later);
    RunConcat(Init(config), schedule, later);
    BearerToken(token);
  }

  // ---- catalog writes ----

  /** The catalog changes only by a step of a message that the gateway sent for the seeded administrator. */
  lemma CatalogWritesTraceToAdmin(config: A.Config, schedule: seq<Action>, a: Action)
    requires var s := Run(Init(config), schedule); Next(s, a).catalog.rows != s.catalog.rows
    ensures var s := Run(Init(config), schedule);
            && a.CatalogStep? && a.task in s.catalogTasks
            && var caller := s.catalogTasks[a.task].caller;
            && caller.FromGateway? && caller.user.Some?
            && var user := caller.user.value;
            && user.id in s.auth.rows && s.auth.rows[user.id].role == ADMIN
            && s.auth.rows[user.id].email == user.email && AdminEmail(config, user.email)
  {
    IdentityHolds(config, schedule);
    IdentityHoldsFrom(Init(config), schedule);
    CatalogWriter(Run(Init(config), schedule), a);
  }

  lemma CatalogWriter(s: System, a: Action)
    requires IdentityOk(s) && Next(s, a).catalog.rows != s.catalog.rows
    ensures a.CatalogStep? && a.task in s.catalogTasks && C.Writes(s.catalogTasks[a.task].call)
  {
    OnlyCatalogSteps(s, a);
    var task := s.catalogTasks[a.task];
    if !C.Writes(task.call) {
      ReadersLeaveRows(s.catalog, task.call, task.pc, a.env);
    }
  }

  lemma OnlyCatalogSteps(s: System, a: Action)
    requires Next(s, a).catalog != s.catalog
    ensures a.CatalogStep? && Enabled(s, a)
  {
  }

  lemma ReadersLeaveRows(db: C.CatalogDb, call: C.CatalogCall, pc: C.CatalogPc, env: Env)
    requires C.CanStep(db, call, pc, env) && !C.Writes(call) && !pc.Saving?
    ensures C.Step(db, call, pc, env).db.rows == db.rows
  {
  }

  /** Every order belongs to a row of users, though no foreign key says so. */
  lemma OrdersReferToUsers(config: A.Config, schedule: seq<Action>, id: int)
    requires id in Run(Init(config), schedule).orders.rows
    ensures Run(Init(config), schedule).orders.rows[id].userId in Run(Init(config), schedule).auth.rows
  {
    IdentityHolds(config, schedule);
  }
}
