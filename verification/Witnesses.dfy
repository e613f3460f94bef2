/** Runs of the whole system, from its start, in which the two surprising things happen: a deleted movie comes
    back, and two cancellations of one order are both told that they succeeded. */
module Witnesses {
  import opened Wrappers
  import opened Entities
  import opened Dtos
  import opened Money
  import opened Text
  import opened Gateway
  import opened Cinema
  import Accounts
  import Cancellation
  import CatalogSafety
  import Identity
  import Links
  import Snapshots
  import Uninterrupted
  import A = AuthService
  import C = CatalogService
  import O = OrderService
  import AO = AuthObjects
  import CO = CatalogObjects
  import OO = OrderObjects

  /** All names in use are below k. */
  ghost predicate Below(s: System, k: nat) {
    && (forall t :: t in s.requests ==> t < k)
    && (forall t :: t in s.authTasks ==> t < k)
    && (forall t :: t in s.catalogTasks ==> t < k)
    && (forall t :: t in s.orderTasks ==> t < k)
  }

  /** The token is an administrator's, and lives at instant 0 of the clock. */
  predicate SignedIn(s: System, token: string) {
    && token != "" && ' ' !in token && token in s.auth.issued
    && s.auth.issued[token].role == ADMIN && s.auth.issued[token].exp > 0
  }

  function Bearer(token: string): Option<string> {
    Some("Bearer " + token)
  }

  function UserOf(s: System, token: string): AuthUser
    requires SignedIn(s, token)
  {
    AuthUser(s.auth.issued[token].sub, s.auth.issued[token].email, ADMIN)
  }

  /** A request by the administrator, under the name k. */
  function Asking(token: string, call: HttpCall, k: nat): Action {
    Arrive(k, Bearer(token), 0, call, k)
  }

  lemma Arrival(s: System, token: string, call: HttpCall, k: nat)
    requires SignedIn(s, token) && Below(s, k) && NeedsToken(call) && ValidBody(call)
    ensures Next(s, Asking(token, call, k))
            == Admitted(s, Asking(token, call, k), Some(UserOf(s, token)), Route(call, Some(UserOf(s, token))))
  {
    Identity.BearerToken(token);
    assert Enabled(s, Asking(token, call, k));
    assert Guards(s.auth.issued, Bearer(token), 0, call) == Pass(Some(UserOf(s, token))) by { hide ExtractBearerToken; }
    hide Guards, ValidBody, Route, Admitted;
  }

  // ---- the deleted movie ----

  function PriceOnly(cents: int): UpdateMovieDto {
    UpdateMovieDto(Absent, Absent, Absent, Absent, Given(cents))
  }

  /** The movie is loaded for an update, deleted, which the client is told, and saved. */
  function Revival(token: string, id: int, cents: int, k: nat, env: Env): seq<Action> {
    [Asking(token, PatchMovie(id, PriceOnly(cents)), k), CatalogStep(k, env)]
    + [Asking(token, DeleteMovie(id), k + 1), CatalogStep(k + 1, env), ReplyArrives(k + 1)]
    + [CatalogStep(k, env)]
  }

  /** A movie of the table, which nobody doubts. */
  ghost predicate Listed(s: System, id: int) {
    && CatalogSafety.TableOk(s.catalog) && id in s.catalog.rows && C.Storable(CO.Loaded(s.catalog.rows[id]))
  }

  lemma LoadForPrice(db: C.CatalogDb, id: int, cents: int, env: Env)
    requires CatalogSafety.TableOk(db) && id in db.rows
    requires ValidPrice(cents)
    ensures C.Step(db, C.UpdateMovie(id, PriceOnly(cents)), C.Start, env)
            == After(db, C.Saving(C.Merge(db.rows[id], PriceOnly(cents))))
  {
  }

  lemma SavePrice(db: C.CatalogDb, id: int, cents: int, env: Env)
    requires CatalogSafety.TableOk(db) && id in db.rows && C.Storable(CO.Loaded(db.rows[id])) && ValidPrice(cents)
    ensures var movie := db.rows[id].(ticketPrice := cents);
            C.Save(C.CatalogDb(db.rows - {id}, db.next), C.Merge(db.rows[id], PriceOnly(cents)), env.id)
            == After(C.CatalogDb(db.rows[id := movie], db.next), C.Done(MovieReply(MovieView(movie))))
  {
    var rows, movie := db.rows - {id}, db.rows[id].(ticketPrice := cents);
    forall other | other in rows ensures !C.HasPair(rows[other], movie.title, movie.releaseYear) {
      assert CatalogSafety.SamePair(rows[other], db.rows[id]) ==> other == id;
    }
    assert rows[id := movie] == db.rows[id := movie];
    hide MovieView;
  }

  /** Request k, a DELETE of the movie, has been answered with success. */
  predicate AnsweredDeleted(s: System, id: int, k: nat) {
    && k in s.requests && s.requests[k].call == DeleteMovie(id)
    && s.requests[k].answer == Some(Answer(204, Data(NoReply)))
  }

  /** What the six steps lead to: handler k has saved the movie with its new price after the client has been
      answered that it is deleted. */
  ghost predicate Revived(s: System, n: System, id: int, cents: int, k: nat) {
    && id in s.catalog.rows && k in n.catalogTasks && k + 1 in n.catalogTasks
    && n.catalogTasks[k + 1].pc == C.Done(DeletedReply(id)) && AnsweredDeleted(n, id, k + 1)
    && n.catalog.rows == s.catalog.rows[id := s.catalog.rows[id].(ticketPrice := cents)]
    && n.catalogTasks[k].pc == C.Done(MovieReply(MovieView(n.catalog.rows[id])))
  }

  /** The system after a request to the catalog has arrived under the name k, and has got as far as pc. */
  function Handling(s: System, token: string, call: HttpCall, catalogCall: C.CatalogCall, k: nat, pc: C.CatalogPc)
    : System
    requires SignedIn(s, token)
  {
    var user := Some(UserOf(s, token));
    s.(requests := s.requests[k := Request(call, user, CatalogChild(k), None)],
       catalogTasks := s.catalogTasks[k := CatalogTask(FromGateway(k, user), catalogCall, pc)])
  }

  /** Arrival and first step of a catalog request. */
  lemma FirstStep(s: System, token: string, call: HttpCall, catalogCall: C.CatalogCall, k: nat, env: Env)
    requires SignedIn(s, token) && Below(s, k) && NeedsToken(call) && ValidBody(call)
    requires Route(call, Some(UserOf(s, token))) == ToCatalog(catalogCall)
    requires C.CanStep(s.catalog, catalogCall, C.Start, env)
    ensures var after := C.Step(s.catalog, catalogCall, C.Start, env);
            Next(Next(s, Asking(token, call, k)), CatalogStep(k, env))
            == Handling(s, token, call, catalogCall, k, after.pc).(catalog := after.db)
  {
    Arrival(s, token, call, k);
    hide C.Step, C.CanStep, Next, Route, ValidBody, SignedIn;
    assert Next(s, Asking(token, call, k)) == Handling(s, token, call, catalogCall, k, C.Start);
    hide Handling, Asking;
    HandlingSteps(s, token, call, catalogCall, k, env);
  }

  lemma HandlingSteps(s: System, token: string, call: HttpCall, catalogCall: C.CatalogCall, k: nat, env: Env)
    requires SignedIn(s, token) && C.CanStep(s.catalog, catalogCall, C.Start, env)
    ensures var after := C.Step(s.catalog, catalogCall, C.Start, env);
            Next(Handling(s, token, call, catalogCall, k, C.Start), CatalogStep(k, env))
            == Handling(s, token, call, catalogCall, k, after.pc).(catalog := after.db)
  {
    hide C.Step, C.CanStep, Next, SignedIn;
    Uninterrupted.CatalogNext(Handling(s, token, call, catalogCall, k, C.Start), k, env);
  }

  lemma BelowNext(s: System, token: string, call: HttpCall, catalogCall: C.CatalogCall, k: nat, pc: C.CatalogPc)
    requires SignedIn(s, token) && Below(s, k)
    ensures Below(Handling(s, token, call, catalogCall, k, pc), k + 1)
  {
  }

  lemma LoadPhase(s: System, token: string, id: int, cents: int, k: nat, env: Env)
    requires SignedIn(s, token) && Below(s, k) && Listed(s, id) && ValidPrice(cents)
    ensures Next(Next(s, Asking(token, PatchMovie(id, PriceOnly(cents)), k)), CatalogStep(k, env))
            == Handling(s, token, PatchMovie(id, PriceOnly(cents)), C.UpdateMovie(id, PriceOnly(cents)), k,
                        C.Saving(C.Merge(s.catalog.rows[id], PriceOnly(cents))))
  {
    LoadForPrice(s.catalog, id, cents, env);
    hide C.Merge, C.Step;
    FirstStep(s, token, PatchMovie(id, PriceOnly(cents)), C.UpdateMovie(id, PriceOnly(cents)), k, env);
    hide Next;
    assert Handling(s, token, PatchMovie(id, PriceOnly(cents)), C.UpdateMovie(id, PriceOnly(cents)), k,
                    C.Saving(C.Merge(s.catalog.rows[id], PriceOnly(cents)))).catalog == s.catalog;
  }

  lemma DeletePhase(s: System, token: string, id: int, k: nat, env: Env)
    requires SignedIn(s, token) && Below(s, k) && ValidId(id) && id in s.catalog.rows
    ensures Next(Next(s, Asking(token, DeleteMovie(id), k)), CatalogStep(k, env))
            == Handling(s, token, DeleteMovie(id), C.DeleteMovie(id), k, C.Done(DeletedReply(id)))
               .(catalog := C.CatalogDb(s.catalog.rows - {id}, s.catalog.next))
  {
    RemoveStep(s.catalog, id, env);
    hide C.Step;
    FirstStep(s, token, DeleteMovie(id), C.DeleteMovie(id), k, env);
    hide Next, Handling;
  }

  lemma SavePhase(s: System, call: C.CatalogCall, e: C.Entity, k: nat, env: Env)
    requires k in s.catalogTasks && s.catalogTasks[k].call == call && s.catalogTasks[k].pc == C.Saving(e) && e.id.Some?
    ensures var after := C.Save(s.catalog, e, env.id);
            Next(s, CatalogStep(k, env))
            == s.(catalog := after.db, catalogTasks := s.catalogTasks[k := s.catalogTasks[k].(pc := after.pc)])
  {
    SaveStep(s.catalog, call, e, env);
    hide C.Step, C.CanStep, C.Save;
    Uninterrupted.CatalogNext(s, k, env);
    hide Next;
  }

  /** Handler k is about to save the movie that handler k + 1 has deleted. */
  ghost predicate Stale(s: System, n: System, id: int, cents: int, k: nat) {
    && id in s.catalog.rows && n.catalog == C.CatalogDb(s.catalog.rows - {id}, s.catalog.next)
    && k in n.catalogTasks && n.catalogTasks[k].call == C.UpdateMovie(id, PriceOnly(cents))
    && n.catalogTasks[k].pc == C.Saving(C.Merge(s.catalog.rows[id], PriceOnly(cents)))
    && k + 1 in n.catalogTasks && n.catalogTasks[k + 1].pc == C.Done(DeletedReply(id))
  }

  /** Request k waits for handler k, which has deleted the movie. */
  predicate Deleting(s: System, id: int, k: nat) {
    && k in s.requests && s.requests[k].call == DeleteMovie(id)
    && s.requests[k].child == CatalogChild(k) && s.requests[k].answer.None?
    && k in s.catalogTasks && s.catalogTasks[k].pc == C.Done(DeletedReply(id))
  }

  lemma DeleteIsAnswered(s: System, id: int, k: nat)
    requires Deleting(s, id, k)
    ensures var n := Next(s, ReplyArrives(k));
            n == s.(requests := n.requests) && AnsweredDeleted(n, id, k)
  {
    assert ReplyOf(s, CatalogChild(k)) == Some(DeletedReply(id));
    assert Enabled(s, ReplyArrives(k));
  }

  lemma BecomesStale(s: System, token: string, id: int, cents: int, k: nat, env: Env)
    requires SignedIn(s, token) && Below(s, k) && Listed(s, id) && ValidPrice(cents)
    ensures var s2 := Next(Next(s, Asking(token, PatchMovie(id, PriceOnly(cents)), k)), CatalogStep(k, env));
            var s4 := Next(Next(s2, Asking(token, DeleteMovie(id), k + 1)), CatalogStep(k + 1, env));
            Stale(s, s4, id, cents, k) && Deleting(s4, id, k + 1)
  {
    var call, e := C.UpdateMovie(id, PriceOnly(cents)), C.Merge(s.catalog.rows[id], PriceOnly(cents));
    LoadPhase(s, token, id, cents, k, env);
    BelowNext(s, token, PatchMovie(id, PriceOnly(cents)), call, k, C.Saving(e));
    hide C.Merge, C.Storable, Next, Below;
    var s2 := Next(Next(s, Asking(token, PatchMovie(id, PriceOnly(cents)), k)), CatalogStep(k, env));
    DeletePhase(s2, token, id, k + 1, env);
    hide Asking;
  }

  lemma IsRevived(s: System, s5: System, id: int, cents: int, k: nat, env: Env)
    requires Listed(s, id) && ValidPrice(cents) && Stale(s, s5, id, cents, k) && AnsweredDeleted(s5, id, k + 1)
    ensures Revived(s, Next(s5, CatalogStep(k, env)), id, cents, k)
  {
    var call, e := C.UpdateMovie(id, PriceOnly(cents)), C.Merge(s.catalog.rows[id], PriceOnly(cents));
    assert e.id.Some?;
    SavePrice(s.catalog, id, cents, env);
    hide C.Merge, C.Save, C.Storable, Next, CatalogSafety.TableOk, MovieView;
    SavePhase(s5, call, e, k, env);
  }

  lemma RevivalRuns(s: System, token: string, id: int, cents: int, k: nat, env: Env)
    ensures var patch := Asking(token, PatchMovie(id, PriceOnly(cents)), k);
            var delete := Asking(token, DeleteMovie(id), k + 1);
            var s4 := Next(Next(Next(Next(s, patch), CatalogStep(k, env)), delete), CatalogStep(k + 1, env));
            var s5 := Next(s4, ReplyArrives(k + 1));
            && Run(s, Revival(token, id, cents, k, env)[..5]) == s5
            && Run(s, Revival(token, id, cents, k, env)) == Next(s5, CatalogStep(k, env))
  {
    var patch, delete := Asking(token, PatchMovie(id, PriceOnly(cents)), k), Asking(token, DeleteMovie(id), k + 1);
    var step, other, reply := CatalogStep(k, env), CatalogStep(k + 1, env), ReplyArrives(k + 1);
    assert Revival(token, id, cents, k, env) == [patch, step, delete, other, reply, step];
    assert Revival(token, id, cents, k, env)[..5] == [patch, step, delete, other, reply];
    hide Next, Run, Revival, Asking;
    RunSix(s, patch, step, delete, other, reply, step);
  }

  /** In every state in which an administrator is signed in, a movie can be deleted, which the client is told,
      and come back. */
  lemma MovieCanComeBack(s: System, token: string, id: int, cents: int, k: nat, env: Env)
    requires SignedIn(s, token) && Below(s, k) && Listed(s, id) && ValidPrice(cents)
    ensures var s5 := Run(s, Revival(token, id, cents, k, env)[..5]);
            id !in s5.catalog.rows && AnsweredDeleted(s5, id, k + 1)
    ensures Revived(s, Run(s, Revival(token, id, cents, k, env)), id, cents, k)
  {
    var patch, delete := Asking(token, PatchMovie(id, PriceOnly(cents)), k), Asking(token, DeleteMovie(id), k + 1);
    RevivalRuns(s, token, id, cents, k, env);
    hide Next, Run, Revival, Listed, Below, SignedIn, Revived, AnsweredDeleted, Deleting, Asking;
    BecomesStale(s, token, id, cents, k, env);
    var s4 := Next(Next(Next(Next(s, patch), CatalogStep(k, env)), delete), CatalogStep(k + 1, env));
    DeleteIsAnswered(s4, id, k + 1);
    IsRevived(s, Next(s4, ReplyArrives(k + 1)), id, cents, k, env);
  }

  lemma RemoveStep(db: C.CatalogDb, id: int, env: Env)
    requires ValidId(id) && id in db.rows
    ensures C.CanStep(db, C.DeleteMovie(id), C.Start, env)
    ensures C.Step(db, C.DeleteMovie(id), C.Start, env)
            == After(C.CatalogDb(db.rows - {id}, db.next), C.Done(DeletedReply(id)))
  {
  }

  lemma SaveStep(db: C.CatalogDb, call: C.CatalogCall, e: C.Entity, env: Env)
    requires e.id.Some?
    ensures C.CanStep(db, call, C.Saving(e), env) && C.Step(db, call, C.Saving(e), env) == C.Save(db, e, env.id)
  {
  }

  lemma RunSix(s: System, a: Action, b: Action, c: Action, d: Action, e: Action, f: Action)
    ensures Run(s, [a, b, c, d, e]) == Next(Next(Next(Next(Next(s, a), b), c), d), e)
    ensures Run(s, [a, b, c, d, e, f]) == Next(Next(Next(Next(Next(Next(s, a), b), c), d), e), f)
  {
    RunFour(s, a, b, c, d);
    hide Next;
    assert [a, b, c, d, e][..4] == [a, b, c, d];
    assert [a, b, c, d, e, f][..5] == [a, b, c, d, e];
  }

  // ---- from the start to an administrator with a movie ----

  function Credentials(config: A.Config): LoginDto {
    LoginDto(config.adminEmail, config.adminPassword)
  }

  /** An environment in which the database hands out this id and the auth service signs this token. */
  function Supplies(id: int, token: string): Env {
    Env(id, 0, token, 1, 0.0, 0.0)
  }

  /** The auth service starts and seeds the administrator, who logs in. */
  function Session(config: A.Config, token: string): seq<Action> {
    [Boot(0)] + ([AuthStep(0, Supplies(1, token)), AuthStep(0, Supplies(1, token))]
    + ([Arrive(1, None, 0, PostLogin(Credentials(config)), 1)]
    + [AuthStep(1, Supplies(2, token)), AuthStep(1, Supplies(2, token))]))
  }

  /** The configured administrator can log in, and the token is a word. */
  ghost predicate Usable(config: A.Config, token: string) {
    ValidLogin(Credentials(config)) && token != "" && ' ' !in token
  }

  ghost function Seeded(config: A.Config): A.AuthDb {
    A.AuthDb(map[1 := User(1, config.adminEmail, HashPassword(config.adminPassword), ADMIN)], 2, map[])
  }

  lemma SeedingSeeds(config: A.Config, token: string)
    requires Usable(config, token)
    ensures var begun := A.Begin(config, map[], A.EnsureAdminAccount);
            !begun.Verifying?
    ensures AO.Alone(config, A.AuthDb(map[], 1, map[]), A.EnsureAdminAccount, Supplies(1, token)).db == Seeded(config)
  {
    hide HashPassword, NormalizeEmail;
    assert !A.EmailTaken(map[], config.adminEmail);
  }

  lemma LoginSigns(config: A.Config, token: string)
    requires Usable(config, token)
    ensures var db := Seeded(config);
            && (A.Begin(config, db.rows, A.Login(Credentials(config))).Verifying? ==>
                  A.CanSign(db, A.Begin(config, db.rows, A.Login(Credentials(config))).user, token, 1))
            && AO.Alone(config, db, A.Login(Credentials(config)), Supplies(2, token)).db
               == db.(issued := map[token := A.Claims(1, config.adminEmail, ADMIN, 1)])
  {
    hide HashPassword;
    var db := Seeded(config);
    assert Accounts.Knows(db.rows, Credentials(config), 1);
    Accounts.LoginDecides(config, db, Credentials(config), Supplies(2, token));
  }

  /** An administrator is signed in as user 1, nothing is in the catalog, and nobody has ordered. */
  ghost predicate Opened(s: System, token: string) {
    && SignedIn(s, token) && s.auth.issued[token].sub == 1 && Below(s, 2)
    && s.catalog == C.CatalogDb(map[], 1) && s.orders == O.OrderDb(map[], 1)
  }

  lemma SeedPhase(config: A.Config, token: string)
    requires Usable(config, token)
    ensures var steps := [AuthStep(0, Supplies(1, token)), AuthStep(0, Supplies(1, token))];
            var s := Run(Next(Init(config), Boot(0)), steps);
            && 0 in s.authTasks
            && s == Init(config).(auth := Seeded(config), authTasks := map[0 := s.authTasks[0]])
  {
    var s1 := Next(Init(config), Boot(0));
    assert s1 == Init(config).(authTasks := map[0 := AuthTask(A.EnsureAdminAccount, A.Start)]);
    SeedingSeeds(config, token);
    hide Run, Next, AO.Alone, A.Begin, Seeded;
    Uninterrupted.AuthUninterrupted(s1, 0, Supplies(1, token));
  }

  lemma LoginPhase(config: A.Config, token: string, s: System)
    requires Usable(config, token) && 0 in s.authTasks
    requires s == Init(config).(auth := Seeded(config), authTasks := map[0 := s.authTasks[0]])
    ensures Opened(Run(Next(s, Arrive(1, None, 0, PostLogin(Credentials(config)), 1)),
                       [AuthStep(1, Supplies(2, token)), AuthStep(1, Supplies(2, token))]), token)
  {
    var s1 := Next(s, Arrive(1, None, 0, PostLogin(Credentials(config)), 1));
    LoginArrives(config, s);
    LoginSigns(config, token);
    assert Seeded(config).next == 2 && Seeded(config).issued == map[];
    hide Run, Next, AO.Alone, A.Begin, Seeded, Credentials, Usable;
    Uninterrupted.AuthUninterrupted(s1, 1, Supplies(2, token));
  }

  lemma LoginArrives(config: A.Config, s: System)
    requires ValidLogin(Credentials(config)) && 0 in s.authTasks
    requires s == Init(config).(auth := Seeded(config), authTasks := map[0 := s.authTasks[0]])
    ensures var s1 := Next(s, Arrive(1, None, 0, PostLogin(Credentials(config)), 1));
            s1 == s.(requests := map[1 := Request(PostLogin(Credentials(config)), None, AuthChild(1), None)],
                     authTasks := s.authTasks[1 := AuthTask(A.Login(Credentials(config)), A.Start)])
  {
    hide Seeded;
  }

  lemma SessionOpens(config: A.Config, token: string)
    requires Usable(config, token)
    ensures Opened(Run(Init(config), Session(config, token)), token)
  {
    var seed := [AuthStep(0, Supplies(1, token)), AuthStep(0, Supplies(1, token))];
    var login := [AuthStep(1, Supplies(2, token)), AuthStep(1, Supplies(2, token))];
    var arrive := Arrive(1, None, 0, PostLogin(Credentials(config)), 1);
    SeedPhase(config, token);
    hide Run, Next, Opened, Usable, Init, Supplies, Credentials;
    var s := Run(Next(Init(config), Boot(0)), seed);
    LoginPhase(config, token, s);
    Uninterrupted.RunAfter(s, arrive, login);
    RunConcat(Next(Init(config), Boot(0)), seed, [arrive] + login);
    Uninterrupted.RunAfter(Init(config), Boot(0), seed + ([arrive] + login));
  }

  /** The administrator adds a movie. */
  function Adding(token: string, dto: CreateMovieDto): seq<Action> {
    [Asking(token, PostMovie(dto), 2), CatalogStep(2, Supplies(1, token)), CatalogStep(2, Supplies(1, token))]
  }

  function FirstMovie(dto: CreateMovieDto): Movie {
    Movie(1, dto.title, dto.description, dto.releaseYear, dto.durationMinutes, dto.ticketPrice)
  }

  /** And now the catalog has movie 1. */
  ghost predicate Stocked(s: System, token: string, dto: CreateMovieDto) {
    && SignedIn(s, token) && s.auth.issued[token].sub == 1 && Below(s, 3)
    && s.catalog == C.CatalogDb(map[1 := FirstMovie(dto)], 2) && s.orders == O.OrderDb(map[], 1)
  }

  lemma CreateInEmpty(dto: CreateMovieDto, env: Env)
    requires ValidMovie(dto) && env.id == 1
    ensures C.Step(C.CatalogDb(map[], 1), C.CreateMovie(dto), C.Start, env)
            == After(C.CatalogDb(map[], 1), C.Saving(C.EntityOf(dto)))
    ensures C.CanStep(C.CatalogDb(map[], 1), C.CreateMovie(dto), C.Saving(C.EntityOf(dto)), env)
    ensures C.Step(C.CatalogDb(map[], 1), C.CreateMovie(dto), C.Saving(C.EntityOf(dto)), env)
            == After(C.CatalogDb(map[1 := FirstMovie(dto)], 2), C.Done(MovieReply(MovieView(FirstMovie(dto)))))
  {
    hide MovieView;
    assert !C.PairTaken(map[], dto.title, dto.releaseYear, None);
    assert !C.PairTaken(map[], dto.title, dto.releaseYear, Some(1));
  }

  lemma AddingLoads(s: System, token: string, dto: CreateMovieDto)
    requires Opened(s, token) && ValidMovie(dto)
    ensures var s2 := Next(Next(s, Asking(token, PostMovie(dto), 2)), CatalogStep(2, Supplies(1, token)));
            && s2 == Handling(s, token, PostMovie(dto), C.CreateMovie(dto), 2, C.Saving(C.EntityOf(dto)))
            && Below(s2, 3)
  {
    CreateInEmpty(dto, Supplies(1, token));
    StartCanStep(s.catalog, dto, token);
    hide C.Step, C.EntityOf, C.CanStep, Below;
    FirstStep(s, token, PostMovie(dto), C.CreateMovie(dto), 2, Supplies(1, token));
    BelowNext(s, token, PostMovie(dto), C.CreateMovie(dto), 2, C.Saving(C.EntityOf(dto)));
    hide Next;
  }

  lemma AddingSaves(s: System, token: string, dto: CreateMovieDto)
    requires SignedIn(s, token) && s.auth.issued[token].sub == 1 && Below(s, 3) && ValidMovie(dto)
    requires s.catalog == C.CatalogDb(map[], 1) && s.orders == O.OrderDb(map[], 1) && 2 in s.catalogTasks
    requires s.catalogTasks[2].call == C.CreateMovie(dto) && s.catalogTasks[2].pc == C.Saving(C.EntityOf(dto))
    ensures Stocked(Next(s, CatalogStep(2, Supplies(1, token))), token, dto)
  {
    CreateInEmpty(dto, Supplies(1, token));
    hide C.Step, C.EntityOf, C.CanStep, Below, FirstMovie, MovieView;
    Uninterrupted.CatalogNext(s, 2, Supplies(1, token));
    BelowSame(s, Next(s, CatalogStep(2, Supplies(1, token))), 3);
    hide Next;
  }

  lemma AddingStocks(s: System, token: string, dto: CreateMovieDto)
    requires Opened(s, token) && ValidMovie(dto)
    ensures Stocked(Run(s, Adding(token, dto)), token, dto)
  {
    var arrive, step := Asking(token, PostMovie(dto), 2), CatalogStep(2, Supplies(1, token));
    hide Next, Run, Below, Stocked, ValidMovie;
    AddingLoads(s, token, dto);
    AddingSaves(Next(Next(s, arrive), step), token, dto);
    RunThree(s, arrive, step, step);
  }

  lemma StartCanStep(db: C.CatalogDb, dto: CreateMovieDto, token: string)
    ensures C.CanStep(db, C.CreateMovie(dto), C.Start, Supplies(1, token))
  {
  }

  lemma BelowSame(s: System, n: System, k: nat)
    requires Below(s, k) && n.requests.Keys == s.requests.Keys && n.authTasks.Keys == s.authTasks.Keys
    requires n.catalogTasks.Keys == s.catalogTasks.Keys && n.orderTasks.Keys == s.orderTasks.Keys
    ensures Below(n, k)
  {
  }

  lemma RunThree(s: System, a: Action, b: Action, c: Action)
    ensures Run(s, [a, b, c]) == Next(Next(Next(s, a), b), c)
  {
    hide Next;
    assert [a, b, c][..2] == [a, b] && [a, b][..1] == [a];
    RunOne(s, a);
  }

  lemma StockedIsListed(s: System, token: string, dto: CreateMovieDto)
    requires Stocked(s, token, dto) && ValidMovie(dto)
    ensures Listed(s, 1) && SignedIn(s, token) && Below(s, 3) && s.catalog.rows == map[1 := FirstMovie(dto)]
  {
  }

  /** For every configuration with a usable administrator and every valid movie there is a run, from the start,
      in which a DELETE of the movie is answered 204 while the movie is gone, and the movie is in the catalog again
      afterwards, with the price of a PATCH that was under way. */
  lemma DeletedMovieComesBackInARun(config: A.Config, token: string, dto: CreateMovieDto, cents: int)
    requires Usable(config, token) && ValidMovie(dto) && ValidPrice(cents)
    ensures var before := Session(config, token) + Adding(token, dto);
            var revival := Revival(token, 1, cents, 3, Supplies(2, token));
            && Run(Init(config), before).catalog.rows == map[1 := FirstMovie(dto)]
            && 1 !in Run(Init(config), before + revival[..5]).catalog.rows
            && AnsweredDeleted(Run(Init(config), before + revival[..5]), 1, 4)
            && Run(Init(config), before + revival).catalog.rows == map[1 := FirstMovie(dto).(ticketPrice := cents)]
            && AnsweredDeleted(Run(Init(config), before + revival), 1, 4)
  {
    var before := Session(config, token) + Adding(token, dto);
    var revival := Revival(token, 1, cents, 3, Supplies(2, token));
    SessionOpens(config, token);
    hide Run, Session, Adding, Revival, Usable, Opened;
    var s := Run(Init(config), Session(config, token));
    AddingStocks(s, token, dto);
    RunConcat(Init(config), Session(config, token), Adding(token, dto));
    var m := Run(Init(config), before);
    StockedIsListed(m, token, dto);
    RunConcat(Init(config), before, revival);
    RunConcat(Init(config), before, revival[..5]);
    hide Stocked, Listed, Below, SignedIn, FirstMovie, AnsweredDeleted, Revived;
    MovieCanComeBack(m, token, 1, cents, 3, Supplies(2, token));
    FirstIsRevived(m, Run(m, revival), FirstMovie(dto), cents);
  }

  lemma FirstIsRevived(s: System, n: System, movie: Movie, cents: int)
    requires s.catalog.rows == map[1 := movie] && Revived(s, n, 1, cents, 3)
    ensures n.catalog.rows == map[1 := movie.(ticketPrice := cents)] && AnsweredDeleted(n, 1, 4)
  {
  }

  // ---- two cancellations ----

  /** Two requests to cancel the order arrive; both handlers read it, both save it, and both answers go out. */
  function TwoCancels(token: string, id: int, k: nat, env: Env): seq<Action> {
    ([Asking(token, PatchOrderCancel(id), k)] + [Asking(token, PatchOrderCancel(id), k + 1)])
    + ([OrderStep(k, env), OrderStep(k + 1, env), OrderStep(k, env), OrderStep(k + 1, env)]
       + ([ReplyArrives(k)] + [ReplyArrives(k + 1)]))
  }

  /** The administrator has a confirmed order. */
  ghost predicate HasOrder(s: System, token: string, id: int) {
    && SignedIn(s, token) && ValidId(s.auth.issued[token].sub) && ValidId(id)
    && O.Owned(s.orders.rows, s.auth.issued[token].sub, id)
    && s.orders.rows[id].id == id && s.orders.rows[id].status == CONFIRMED
  }

  /** Request k waits for handler k, which cancels the order. */
  predicate Cancelling(s: System, userId: int, id: int, k: nat) {
    && k in s.requests && s.requests[k].call == PatchOrderCancel(id)
    && s.requests[k].child == OrderChild(k) && s.requests[k].answer.None?
    && k in s.orderTasks && s.orderTasks[k].call == O.CancelUserOrder(userId, id)
  }

  /** The system after a request to cancel has arrived under the name k. */
  function WithCancel(s: System, token: string, id: int, k: nat): System
    requires SignedIn(s, token)
  {
    var user := UserOf(s, token);
    s.(requests := s.requests[k := Request(PatchOrderCancel(id), Some(user), OrderChild(k), None)],
       orderTasks := s.orderTasks[k := OrderTask(k, O.CancelUserOrder(user.id, id), O.Start)])
  }

  lemma CancelShape(s: System, token: string, id: int, k: nat)
    requires SignedIn(s, token) && Below(s, k)
    ensures Next(s, Asking(token, PatchOrderCancel(id), k)) == WithCancel(s, token, id, k)
  {
    Arrival(s, token, PatchOrderCancel(id), k);
    hide Next, SignedIn;
  }

  lemma CancelArrives(s: System, token: string, id: int, k: nat)
    requires HasOrder(s, token, id) && Below(s, k)
    ensures var n := Next(s, Asking(token, PatchOrderCancel(id), k));
            && HasOrder(n, token, id) && Below(n, k + 1) && n.orders == s.orders && n.auth == s.auth
            && Cancelling(n, s.auth.issued[token].sub, id, k) && n.orderTasks[k].pc == O.Start
            && (forall t :: t in s.requests ==> t in n.requests && n.requests[t] == s.requests[t])
            && (forall t :: t in s.orderTasks ==> t in n.orderTasks && n.orderTasks[t] == s.orderTasks[t])
  {
    CancelShape(s, token, id, k);
    CancelLeavesOrder(s, token, id, k);
    CancelWaits(s, token, id, k);
    hide Next, Asking, WithCancel, HasOrder, Below, Cancelling;
  }

  lemma CancelLeavesOrder(s: System, token: string, id: int, k: nat)
    requires HasOrder(s, token, id) && Below(s, k)
    ensures var n := WithCancel(s, token, id, k);
            HasOrder(n, token, id) && Below(n, k + 1) && n.orders == s.orders && n.auth == s.auth
  {
  }

  lemma CancelWaits(s: System, token: string, id: int, k: nat)
    requires SignedIn(s, token) && Below(s, k)
    ensures var n := WithCancel(s, token, id, k);
            && Cancelling(n, s.auth.issued[token].sub, id, k) && n.orderTasks[k].pc == O.Start
            && (forall t :: t in s.requests ==> t in n.requests && n.requests[t] == s.requests[t])
            && (forall t :: t in s.orderTasks ==> t in n.orderTasks && n.orderTasks[t] == s.orderTasks[t])
  {
  }

  lemma OrderStepsKeepRequests(s: System, t: Tid, u: Tid, env: Env)
    ensures Run(s, [OrderStep(t, env), OrderStep(u, env), OrderStep(t, env), OrderStep(u, env)]).requests == s.requests
  {
    RunFour(s, OrderStep(t, env), OrderStep(u, env), OrderStep(t, env), OrderStep(u, env));
    var s1 := Next(s, OrderStep(t, env));
    var s2 := Next(s1, OrderStep(u, env));
    var s3 := Next(s2, OrderStep(t, env));
    hide Run, Next;
    OrderStepKeepsRequests(s, t, env);
    OrderStepKeepsRequests(s1, u, env);
    OrderStepKeepsRequests(s2, t, env);
    OrderStepKeepsRequests(s3, u, env);
  }

  lemma OrderStepKeepsRequests(s: System, t: Tid, env: Env)
    ensures Next(s, OrderStep(t, env)).requests == s.requests
  {
    hide O.Step, O.CanStep;
  }

  /** Request k has been answered that the order is cancelled. */
  predicate AnsweredCancelled(s: System, id: int, k: nat) {
    && k in s.requests && s.requests[k].call == PatchOrderCancel(id) && s.requests[k].answer.Some?
    && s.requests[k].answer.value.status == 200 && s.requests[k].answer.value.body.Data?
    && s.requests[k].answer.value.body.reply.OrderReply?
    && s.requests[k].answer.value.body.reply.order.id == id
    && s.requests[k].answer.value.body.reply.order.status == CANCELLED
  }

  lemma ReplyIs(s: System, userId: int, id: int, k: nat, row: Order)
    requires Cancelling(s, userId, id, k) && Cancellation.ToldCancelled(s, k, row)
    ensures Next(s, ReplyArrives(k)) == SetAnswer(s, k, Answer(200, Data(OrderReply(OrderView(row)))))
  {
    hide OrderView;
  }

  lemma ReplyGoesOut(s: System, userId: int, id: int, k: nat, row: Order)
    requires Cancelling(s, userId, id, k) && Cancellation.ToldCancelled(s, k, row) && row.id == id
    ensures var n := Next(s, ReplyArrives(k));
            && AnsweredCancelled(n, id, k) && n.orderTasks == s.orderTasks && n.orders == s.orders
            && forall r :: r in s.requests && r != k ==> r in n.requests && n.requests[r] == s.requests[r]
  {
    ReplyIs(s, userId, id, k, row);
    hide Next;
  }

  lemma ArrivalsOfTwo(s: System, token: string, id: int, k: nat)
    requires HasOrder(s, token, id) && Below(s, k)
    ensures var userId := s.auth.issued[token].sub;
            var n := Run(s, [Asking(token, PatchOrderCancel(id), k)] + [Asking(token, PatchOrderCancel(id), k + 1)]);
            && n.orders == s.orders && Cancelling(n, userId, id, k) && Cancelling(n, userId, id, k + 1)
            && Cancellation.BothAboutToCancel(n, userId, id, k, k + 1)
            && n.orderTasks[k].pc.Start? && n.orderTasks[k + 1].pc.Start?
  {
    var first, second := Asking(token, PatchOrderCancel(id), k), Asking(token, PatchOrderCancel(id), k + 1);
    CancelArrives(s, token, id, k);
    CancelArrives(Next(s, first), token, id, k + 1);
    Uninterrupted.RunAfter(s, first, [second]);
    RunOne(Next(s, first), second);
    hide Run, Next, Below, Asking;
  }

  lemma RepliesToTwo(s: System, userId: int, id: int, k: nat, row: Order, other: Order)
    requires Cancelling(s, userId, id, k) && Cancelling(s, userId, id, k + 1) && row.id == id && other.id == id
    requires Cancellation.ToldCancelled(s, k, row) && Cancellation.ToldCancelled(s, k + 1, other)
    ensures var n := Run(s, [ReplyArrives(k)] + [ReplyArrives(k + 1)]);
            AnsweredCancelled(n, id, k) && AnsweredCancelled(n, id, k + 1)
  {
    ReplyGoesOut(s, userId, id, k, row);
    ReplyGoesOut(Next(s, ReplyArrives(k)), userId, id, k + 1, other);
    Uninterrupted.RunAfter(s, ReplyArrives(k), [ReplyArrives(k + 1)]);
    RunOne(Next(s, ReplyArrives(k)), ReplyArrives(k + 1));
    hide Run, Next;
  }

  lemma StepsOfTwo(s: System, userId: int, id: int, k: nat, env: Env)
    requires Cancellation.BothAboutToCancel(s, userId, id, k, k + 1)
    requires Cancelling(s, userId, id, k) && Cancelling(s, userId, id, k + 1)
    requires s.orderTasks[k].pc.Start? && s.orderTasks[k + 1].pc.Start? && s.orders.rows[id].status == CONFIRMED
    ensures var n := Run(s, [OrderStep(k, env), OrderStep(k + 1, env), OrderStep(k, env), OrderStep(k + 1, env)]);
            var row := s.orders.rows[id].(status := CANCELLED, updatedAt := env.now);
            && Cancelling(n, userId, id, k) && Cancelling(n, userId, id, k + 1)
            && Cancellation.ToldCancelled(n, k, row) && Cancellation.ToldCancelled(n, k + 1, row)
  {
    var steps := [OrderStep(k, env), OrderStep(k + 1, env), OrderStep(k, env), OrderStep(k + 1, env)];
    Cancellation.OverlappingCancelsBothSucceed(s, userId, id, k, k + 1, env, env);
    OrderStepsKeepRequests(s, k, k + 1, env);
    Links.RunContinues(s, steps);
    hide Run, OrderView;
  }

  /** In every state in which the administrator has a confirmed order, two requests to cancel it can both be
      answered with success. */
  lemma BothCanBeAnswered(s: System, token: string, id: int, k: nat, env: Env)
    requires HasOrder(s, token, id) && Below(s, k)
    ensures var n := Run(s, TwoCancels(token, id, k, env));
            AnsweredCancelled(n, id, k) && AnsweredCancelled(n, id, k + 1)
  {
    var arrivals := [Asking(token, PatchOrderCancel(id), k)] + [Asking(token, PatchOrderCancel(id), k + 1)];
    var steps := [OrderStep(k, env), OrderStep(k + 1, env), OrderStep(k, env), OrderStep(k + 1, env)];
    var replies := [ReplyArrives(k)] + [ReplyArrives(k + 1)];
    var userId := s.auth.issued[token].sub;
    var row := s.orders.rows[id].(status := CANCELLED, updatedAt := env.now);
    assert TwoCancels(token, id, k, env) == arrivals + (steps + replies);
    RunConcat(s, arrivals, steps + replies);
    RunConcat(Run(s, arrivals), steps, replies);
    ArrivalsOfTwo(s, token, id, k);
    hide Run, Below, AnsweredCancelled, OrderView, Asking, TwoCancels, Cancelling;
    StepsOfTwo(Run(s, arrivals), userId, id, k, env);
    RepliesToTwo(Run(Run(s, arrivals), steps), userId, id, k, row, row);
  }

  // ---- an order to cancel ----

  /** The database hands out order 1, and the driver writes the movie's price for price and total. */
  function Writes(token: string, price: int): Env {
    Env(1, 0, token, 1, ReadNumeric(price), ReadNumeric(price))
  }

  /** The administrator orders one ticket for movie 1. */
  function Ordering(token: string, price: int): seq<Action> {
    [Asking(token, PostOrder(1, 1), 3)]
    + [AskCatalog(3, 4), CatalogStep(4, Writes(token, price)), MovieArrives(3), OrderStep(3, Writes(token, price))]
  }

  function FirstOrder(movie: Movie): Order {
    Order(1, 1, movie.id, movie.title, movie.releaseYear, movie.ticketPrice, 1, movie.ticketPrice, CONFIRMED, 0, 0)
  }

  lemma OrderIsMade(movie: Movie, token: string)
    requires 0 <= movie.ticketPrice < NUMERIC_10_2 && |movie.title| <= 255 && -32768 <= movie.releaseYear < 32768
    ensures var call, sent := O.CreateOrder(1, 1, 1), OO.Answered(MovieReply(MovieView(movie)));
            var env := Writes(token, movie.ticketPrice);
            && OO.Writable(O.OrderDb(map[], 1), call, sent, env)
            && OO.CreateAlone(O.OrderDb(map[], 1), call, sent, env).db == O.OrderDb(map[1 := FirstOrder(movie)], 2)
  {
    NumberIsItsOwnText(movie.ticketPrice);
    OrderTotalIsExact(movie.ticketPrice, 1);
    assert movie.ticketPrice * 1 == movie.ticketPrice;
    hide ReadNumeric, OrderTotal, TextOf, O.Insert;
    Snapshots.InsertCopies(O.OrderDb(map[], 1), O.CreateOrder(1, 1, 1), movie, Writes(token, movie.ticketPrice));
  }

  /** The order's request has arrived, and its handler has not begun. */
  lemma OrderArrives(s: System, token: string, dto: CreateMovieDto)
    requires Stocked(s, token, dto) && ValidMovie(dto)
    ensures var n := Next(s, Asking(token, PostOrder(1, 1), 3));
            && n == s.(requests := n.requests, orderTasks := n.orderTasks) && Below(n, 4)
            && Uninterrupted.AboutToOrder(n, 3, 4) && n.orderTasks[3].call == O.CreateOrder(1, 1, 1)
            && Uninterrupted.MovieReplyFor(n, O.CreateOrder(1, 1, 1)) == MovieReply(MovieView(FirstMovie(dto)))
  {
    Arrival(s, token, PostOrder(1, 1), 3);
    hide Next, MovieView;
  }

  /** The table with the order, and one more handler of the catalog. */
  lemma OrderedState(s: System, n: System, token: string, movie: Movie, task: CatalogTask, pc: O.OrderPc)
    requires SignedIn(s, token) && s.auth.issued[token].sub == 1 && Below(s, 4) && 3 in s.orderTasks
    requires n == s.(orders := O.OrderDb(map[1 := FirstOrder(movie)], 2), catalogTasks := s.catalogTasks[4 := task],
                     orderTasks := s.orderTasks[3 := s.orderTasks[3].(pc := pc)])
    ensures HasOrder(n, token, 1) && Below(n, 5)
  {
  }

  lemma OrderIsPlaced(s: System, token: string, movie: Movie)
    requires SignedIn(s, token) && s.auth.issued[token].sub == 1 && Below(s, 4)
    requires Uninterrupted.AboutToOrder(s, 3, 4) && s.orderTasks[3].call == O.CreateOrder(1, 1, 1)
    requires Uninterrupted.MovieReplyFor(s, O.CreateOrder(1, 1, 1)) == MovieReply(MovieView(movie))
    requires s.orders == O.OrderDb(map[], 1)
    requires 0 <= movie.ticketPrice < NUMERIC_10_2 && |movie.title| <= 255 && -32768 <= movie.releaseYear < 32768
    ensures var env := Writes(token, movie.ticketPrice);
            var n := Run(s, [AskCatalog(3, 4), CatalogStep(4, env), MovieArrives(3), OrderStep(3, env)]);
            HasOrder(n, token, 1) && Below(n, 5)
  {
    var call := O.CreateOrder(1, 1, 1);
    var env, sent := Writes(token, movie.ticketPrice), OO.Answered(MovieReply(MovieView(movie)));
    OrderIsMade(movie, token);
    var n := Run(s, [AskCatalog(3, 4), CatalogStep(4, env), MovieArrives(3), OrderStep(3, env)]);
    hide Run, OO.CreateAlone, OO.Writable, Writes, MovieView, HasOrder, Below, SignedIn, FirstOrder,
      Uninterrupted.MovieReplyFor, Uninterrupted.AnsweredTask;
    Uninterrupted.CreateUninterrupted(s, 3, 4, env);
    OrderedState(s, n, token, movie, Uninterrupted.AnsweredTask(s, call),
                 OO.CreateAlone(s.orders, call, sent, env).pc);
  }

  lemma OrderingOrders(s: System, token: string, dto: CreateMovieDto)
    requires Stocked(s, token, dto) && ValidMovie(dto)
    ensures var n := Run(s, Ordering(token, dto.ticketPrice));
            HasOrder(n, token, 1) && Below(n, 5)
  {
    var arrive, env := Asking(token, PostOrder(1, 1), 3), Writes(token, dto.ticketPrice);
    OrderArrives(s, token, dto);
    var steps := [AskCatalog(3, 4), CatalogStep(4, env), MovieArrives(3), OrderStep(3, env)];
    assert Ordering(token, dto.ticketPrice) == [arrive] + steps;
    hide Next, Run, Writes, MovieView, HasOrder, Below, Ordering, Asking;
    OrderIsPlaced(Next(s, arrive), token, FirstMovie(dto));
    Uninterrupted.RunAfter(s, arrive, steps);
  }

  /** For every configuration with a usable administrator and every valid movie there is a run, from the start,
      in which two requests to cancel one order are both answered with success. */
  lemma OrderIsCancelledTwiceInARun(config: A.Config, token: string, dto: CreateMovieDto, env: Env)
    requires Usable(config, token) && ValidMovie(dto)
    ensures var schedule := Session(config, token) + Adding(token, dto) + Ordering(token, dto.ticketPrice)
                            + TwoCancels(token, 1, 5, env);
            var n := Run(Init(config), schedule);
            AnsweredCancelled(n, 1, 5) && AnsweredCancelled(n, 1, 6)
  {
    var before := Session(config, token) + Adding(token, dto);
    var ordering, cancels := Ordering(token, dto.ticketPrice), TwoCancels(token, 1, 5, env);
    SessionOpens(config, token);
    hide Run, Session, Adding, Ordering, TwoCancels, Usable, Opened, Stocked, HasOrder, Below, AnsweredCancelled;
    AddingStocks(Run(Init(config), Session(config, token)), token, dto);
    RunConcat(Init(config), Session(config, token), Adding(token, dto));
    var m := Run(Init(config), before);
    OrderingOrders(m, token, dto);
    RunConcat(Init(config), before, ordering);
    BothCanBeAnswered(Run(m, ordering), token, 1, 5, env);
    RunConcat(Init(config), before + ordering, cancels);
  }
}
