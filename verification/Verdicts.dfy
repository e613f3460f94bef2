/** What each handler answers for the table it finds, in so many words: status, message, title and data. */
module Verdicts {
  import opened Wrappers
  import opened RpcErrors
  import opened Entities
  import opened Dtos
  import opened Money
  import opened Text
  import opened Listing
  import CatalogSafety
  import Listings
  import A = AuthService
  import C = CatalogService
  import O = OrderService
  import AO = AuthObjects
  import CO = CatalogObjects

  /** The handler threw an exception with this status, message and label. */
  predicate Refuses(reply: Reply, status: int, message: string, title: string) {
    reply == Failed(RpcErrorPayload(status, Value.Text(message), Value.Text(title)))
  }

  // ---- numbers in messages ----

  /** The number that a text of digits denotes. */
  function {:tailrecursion false} Reading(s: string): int {
    if s == "" then 0 else 10 * Reading(s[..|s| - 1]) + (s[|s| - 1] as int - '0' as int)
  }

  /** A number is shown by its decimal digits, without leading zeros. */
  lemma {:induction false} DecimalReads(n: nat)
    ensures Decimal(n) != "" && Reading(Decimal(n)) == n && (forall c :: c in Decimal(n) ==> '0' <= c <= '9')
    ensures n > 0 ==> Decimal(n)[0] != '0'
  {
    if n < 10 {
      assert Decimal(n)[..0] == "";
    } else {
      DecimalReads(n / 10);
      assert Decimal(n)[..|Decimal(n)| - 1] == Decimal(n / 10);
    }
  }

  /** So is an id or a year in a message, with a sign if it has one. */
  lemma ShownReads(n: int)
    ensures n >= 0 ==> Reading(Show(n)) == n && (forall c :: c in Show(n) ==> '0' <= c <= '9')
    ensures n < 0 ==> Show(n) != "" && Show(n)[0] == '-' && Reading(Show(n)[1..]) == -n
    ensures n > 0 ==> Show(n)[0] != '0'
  {
    DecimalReads(if n < 0 then -n else n);
    assert n < 0 ==> Show(n)[1..] == Decimal(-n);
  }

  // ---- the auth service ----

  /** The one who has the address. */
  ghost predicate Has(rows: map<int, User>, email: string, id: int) {
    id in rows && rows[id].email == email
  }

  lemma TakenIsHad(rows: map<int, User>, email: string)
    ensures A.EmailTaken(rows, email) <==> exists id :: Has(rows, email, id)
  {
    if A.EmailTaken(rows, email) {
      var id :| id in rows && rows[id].email == email;
      assert Has(rows, email, id);
    }
  }

  /** A registration that passes the pipe. Two passwords are refused whatever the table holds, then a taken address;
      otherwise there is one more user, who has just what was sent, and role USER. */
  lemma RegisterDecides(config: A.Config, db: A.AuthDb, dto: RegisterDto, env: Env)
    requires env.id >= db.next && ValidRegister(dto)
    ensures var after := AO.Alone(config, db, A.Register(dto), env);
            && after.pc.Done?
            && (dto.password != dto.confirmPassword ==>
                  after.db == db && Refuses(after.pc.reply, 400, "Passwords do not match", "Bad Request"))
            && (dto.password == dto.confirmPassword && (exists id :: Has(db.rows, dto.email, id)) ==>
                  after.db == db && Refuses(after.pc.reply, 409, "Email is already registered", "Conflict"))
            && (dto.password == dto.confirmPassword && (forall id :: !Has(db.rows, dto.email, id)) ==>
                  && after.pc.reply == UserReply(PublicUser(env.id, dto.email, USER))
                  && after.db.rows == db.rows[env.id := User(env.id, dto.email, HashPassword(dto.password), USER)]
                  && after.db.issued == db.issued)
  {
    hide HashPassword, NormalizeEmail;
    TakenIsHad(db.rows, dto.email);
  }

  /** The profile of a user is the user's row, without the hash. */
  lemma ProfileDecides(config: A.Config, rows: map<int, User>, userId: int)
    requires ValidId(userId)
    ensures var pc := A.Begin(config, rows, A.GetProfile(userId));
            && pc.Done?
            && (userId in rows ==>
                  pc.reply == UserReply(PublicUser(rows[userId].id, rows[userId].email, rows[userId].role)))
            && (userId !in rows ==> Refuses(pc.reply, 404, "User not found", "Not Found"))
  {
  }

  /** Seeding adds the configured administrator, under the normalised address, unless nothing is configured or the
      address is taken. */
  lemma SeedingDecides(config: A.Config, db: A.AuthDb, env: Env)
    requires env.id >= db.next
    ensures var after := AO.Alone(config, db, A.EnsureAdminAccount, env);
            var email := NormalizeEmail(config.adminEmail);
            var seeds := config.adminEmail != "" && config.adminPassword != "" && forall id :: !Has(db.rows, email, id);
            && (seeds ==>
                  && after.db.rows == db.rows[env.id := User(env.id, email, HashPassword(config.adminPassword), ADMIN)]
                  && after.db.issued == db.issued)
            && (!seeds ==> after == After(db, A.Done(NoReply)))
  {
    hide HashPassword, NormalizeEmail;
    TakenIsHad(db.rows, NormalizeEmail(config.adminEmail));
  }

  // ---- the catalog service ----

  function NoMovie(id: int): string {
    "Movie " + Show(id) + " not found"
  }

  /** What a client is shown of a row: all columns, the price as a Number. */
  ghost predicate Depicts(movie: MovieResponse, row: Movie) {
    && movie.id == row.id && movie.title == row.title && movie.description == row.description
    && movie.releaseYear == row.releaseYear && movie.durationMinutes == row.durationMinutes
    && movie.ticketPrice == ReadNumeric(row.ticketPrice)
  }

  /** A movie is answered with all its columns, and with 404 exactly if there is none. */
  ghost predicate FindsMovie(rows: map<int, Movie>, id: int, reply: Reply) {
    && (!ValidId(id) ==> reply.Failed? && reply.payload.statusCode == 400)
    && (ValidId(id) && id in rows ==> reply.MovieReply? && Depicts(reply.movie, rows[id]))
    && (ValidId(id) && id !in rows ==> Refuses(reply, 404, NoMovie(id), "Not Found"))
  }

  lemma FindOneDecides(rows: map<int, Movie>, id: int)
    ensures var pc := C.Begin(rows, C.FindOneMovie(id));
            pc.Done? && FindsMovie(rows, id, pc.reply)
  {
    hide ReadNumeric, Show;
  }

  /** DELETE removes the movie, or answers 404 exactly if there is none. */
  ghost predicate Removes(db: C.CatalogDb, id: int, after: After<C.CatalogDb, C.CatalogPc>) {
    && after.pc.Done?
    && (!ValidId(id) ==> after.db == db && after.pc.reply.Failed? && after.pc.reply.payload.statusCode == 400)
    && (ValidId(id) && id in db.rows ==>
          && after.pc.reply == DeletedReply(id) && after.db.rows.Keys == db.rows.Keys - {id}
          && forall other :: other in after.db.rows ==> after.db.rows[other] == db.rows[other])
    && (ValidId(id) && id !in db.rows ==> after.db == db && Refuses(after.pc.reply, 404, NoMovie(id), "Not Found"))
  }

  lemma RemoveDecides(db: C.CatalogDb, id: int, env: Env)
    ensures Removes(db, id, C.Step(db, C.DeleteMovie(id), C.Start, env))
  {
    hide Show;
  }

  predicate IsNotFound(reply: Reply) {
    reply.Failed? && reply.payload.statusCode == 404
  }

  /** An update looks the movie up first, and answers 404 exactly if there is none then, ... */
  lemma UpdateDecides(rows: map<int, Movie>, id: int, changes: UpdateMovieDto)
    requires ValidId(id) && ValidChanges(changes)
    ensures var pc := C.Begin(rows, C.UpdateMovie(id, changes));
            && (id !in rows ==> pc.Done? && Refuses(pc.reply, 404, NoMovie(id), "Not Found"))
            && (id in rows ==> !pc.Done?)
  {
    hide Show;
  }

  /** ... and never afterwards, and neither does a create. */
  lemma WritersDoNotMiss(db: C.CatalogDb, call: C.CatalogCall, pc: C.CatalogPc, env: Env)
    requires C.CanStep(db, call, pc, env) && (!pc.Start? || call.CreateMovie?)
    ensures var after := C.Step(db, call, pc, env);
            after.pc.Done? ==> !IsNotFound(after.pc.reply)
  {
    hide Show;
  }

  /** A create of a valid movie answers it as it was sent, or 409 exactly if the pair is taken. */
  lemma CreateDecides(db: C.CatalogDb, dto: CreateMovieDto, env: Env)
    requires CatalogSafety.TableOk(db) && env.id >= db.next && ValidMovie(dto)
    ensures var after := CO.Alone(db, C.CreateMovie(dto), C.Start, env);
            && after.pc.Done?
            && if exists id :: id in db.rows && C.HasPair(db.rows[id], dto.title, dto.releaseYear) then
                 after.db == db && Refuses(after.pc.reply, 409, "Movie \"" + dto.title + "\" (" + Show(dto.releaseYear)
                                                                + ") already exists", "Conflict")
               else
                 && after.pc.reply == MovieReply(MovieResponse(env.id, dto.title, dto.description, dto.releaseYear,
                                                               dto.durationMinutes, ReadNumeric(dto.ticketPrice)))
                 && after.db.rows == db.rows[env.id := Movie(env.id, dto.title, dto.description, dto.releaseYear,
                                                             dto.durationMinutes, dto.ticketPrice)]
  {
    hide ReadNumeric, Show;
    assert CO.Alone(db, C.CreateMovie(dto), C.Saving(C.EntityOf(dto)), env) == C.Save(db, C.EntityOf(dto), env.id);
  }

  /** GET /movies: each movie of the table once, by ascending id, with all its columns. */
  ghost predicate ListsMovies(rows: map<int, Movie>, reply: Reply) {
    && reply.MoviesReply? && |reply.movies| == |rows|
    && (forall i, j :: 0 <= i < j < |reply.movies| ==> reply.movies[i].id < reply.movies[j].id)
    && (forall i :: 0 <= i < |reply.movies| ==>
          reply.movies[i].id in rows && Depicts(reply.movies[i], rows[reply.movies[i].id]))
    && (forall id :: id in rows ==> exists i :: 0 <= i < |reply.movies| && reply.movies[i].id == id)
  }

  lemma AllMoviesAreReplied(rows: map<int, Movie>)
    requires forall id :: id in rows ==> rows[id].id == id
    ensures var pc := C.Begin(rows, C.FindAllMovies);
            pc.Done? && ListsMovies(rows, pc.reply)
  {
    Listings.AllMoviesAreListed(rows);
    hide C.AllMovies, MovieView, ReadNumeric;
    MoviesAreListed(rows, C.AllMovies(rows));
  }

  lemma MoviesAreListed(rows: map<int, Movie>, movies: seq<MovieResponse>)
    requires forall id :: id in rows ==> rows[id].id == id
    requires forall i :: 0 <= i < |movies| ==> movies[i].id in rows && movies[i] == MovieView(rows[movies[i].id])
    requires forall i, j :: 0 <= i < j < |movies| ==> movies[i].id < movies[j].id
    requires forall id :: id in rows ==> MovieView(rows[id]) in movies
    ensures ListsMovies(rows, MoviesReply(movies))
  {
    hide ReadNumeric;
    assert forall i :: 0 <= i < |movies| ==> Depicts(movies[i], rows[movies[i].id]);
    hide Depicts;
    var ids := seq(|movies|, i requires 0 <= i < |movies| => movies[i].id);
    forall id | id in rows ensures exists i :: 0 <= i < |movies| && movies[i].id == id && ids[i] == id {
      assert MovieView(rows[id]).id == id;
      var i :| 0 <= i < |movies| && movies[i] == MovieView(rows[id]);
      assert ids[i] == id;
    }
    hide MovieView;
    AsManyAs(rows.Keys, ids);
  }

  /** A list without repetitions that holds just the elements of a set is as long as the set is large. */
  lemma {:induction false} AsManyAs<T>(all: set<T>, list: seq<T>)
    requires forall i, j :: 0 <= i < j < |list| ==> list[i] != list[j]
    requires forall x :: x in all <==> x in list
    ensures |list| == |all|
  {
    if list == [] {
      assert all == {};
    } else {
      var last := list[|list| - 1];
      AsManyAs(all - {last}, list[..|list| - 1]);
    }
  }

  /** Payloads that the pipes of the services refuse. */
  ghost predicate InvalidAuth(call: A.AuthCall) {
    match call
    case Register(dto) => !ValidRegister(dto)
    case Login(dto) => !ValidLogin(dto)
    case GetProfile(userId) => userId <= 0
    case EnsureAdminAccount => false
  }

  ghost predicate InvalidCatalog(call: C.CatalogCall) {
    match call
    case FindAllMovies => false
    case FindOneMovie(id) => id <= 0
    case CreateMovie(dto) => !ValidMovie(dto)
    case UpdateMovie(id, changes) => id <= 0 || !ValidChanges(changes)
    case DeleteMovie(id) => id <= 0
  }

  ghost predicate InvalidOrder(call: O.OrderCall) {
    match call
    case CreateOrder(userId, movieId, quantity) => userId <= 0 || movieId <= 0 || !(1 <= quantity <= 10)
    case FindUserOrders(userId) => userId <= 0
    case FindUserOrder(userId, id) => userId <= 0 || id <= 0
    case CancelUserOrder(userId, id) => userId <= 0 || id <= 0
  }

  /** No service goes on with such a payload: 400, and the table is left alone. */
  lemma InvalidPayloadsAreRefused(config: A.Config, users: A.AuthDb, movies: C.CatalogDb, orders: O.OrderDb,
                                  authCall: A.AuthCall, catalogCall: C.CatalogCall, orderCall: O.OrderCall, env: Env)
    ensures InvalidAuth(authCall) ==>
              var after := A.Step(config, users, authCall, A.Start, env);
              after.db == users && after.pc.Done? && IsBadRequest(after.pc.reply)
    ensures InvalidCatalog(catalogCall) ==>
              var after := C.Step(movies, catalogCall, C.Start, env);
              after.db == movies && after.pc.Done? && IsBadRequest(after.pc.reply)
    ensures InvalidOrder(orderCall) ==>
              && O.CanStep(orders, orderCall, O.Start, env)
              && var after := O.Step(orders, orderCall, O.Start, env);
              after.db == orders && after.pc.Done? && IsBadRequest(after.pc.reply)
  {
    hide ValidRegister, ValidLogin, ValidMovie, ValidChanges, Show;
  }

  predicate IsBadRequest(reply: Reply) {
    reply.Failed? && reply.payload.statusCode == 400
  }

  // ---- the order service ----

  /** What a client is shown of a row: all columns, both prices as Numbers. */
  ghost predicate Shows(order: OrderResponse, row: Order) {
    && order.id == row.id && order.userId == row.userId && order.movieId == row.movieId
    && order.movieTitle == row.movieTitle && order.movieReleaseYear == row.movieReleaseYear
    && order.ticketPrice == ReadNumeric(row.ticketPrice) && order.quantity == row.quantity
    && order.totalPrice == ReadNumeric(row.totalPrice) && order.status == row.status
    && order.createdAt == row.createdAt && order.updatedAt == row.updatedAt
  }

  predicate Newer(a: OrderResponse, b: OrderResponse) {
    a.createdAt > b.createdAt || (a.createdAt == b.createdAt && a.id > b.id)
  }

  /** GET /orders: each order of the user once, newest first, with all its columns. */
  ghost predicate ListsOrders(rows: map<int, Order>, userId: int, reply: Reply) {
    && reply.OrdersReply? && |reply.orders| == |set id | id in rows && rows[id].userId == userId|
    && (forall i, j :: 0 <= i < j < |reply.orders| ==> Newer(reply.orders[i], reply.orders[j]))
    && (forall i :: 0 <= i < |reply.orders| ==>
          var id := reply.orders[i].id;
          id in rows && rows[id].userId == userId && Shows(reply.orders[i], rows[id]))
    && (forall id :: id in rows && rows[id].userId == userId ==>
          exists i :: 0 <= i < |reply.orders| && reply.orders[i].id == id)
  }

  lemma UserOrdersAreReplied(rows: map<int, Order>, userId: int)
    requires Listings.Keyed(rows) && ValidId(userId)
    ensures var pc := O.Begin(rows, O.FindUserOrders(userId));
            pc.Done? && ListsOrders(rows, userId, pc.reply)
  {
    Listings.UserOrdersAreListed(rows, userId);
    hide O.Views, O.UserOrders, ListsOrders;
    OrdersAreListed(rows, userId, O.UserOrders(rows, userId));
  }

  lemma OrdersAreListed(rows: map<int, Order>, userId: int, orders: seq<Order>)
    requires Listings.Keyed(rows) && Listings.HoldsExactly(orders, rows, userId) && Listings.NewestFirst(orders)
    ensures ListsOrders(rows, userId, OrdersReply(O.Views(orders)))
  {
    var views := O.Views(orders);
    hide ReadNumeric;
    forall i | 0 <= i < |views| ensures views[i].id == orders[i].id && Shows(views[i], rows[views[i].id]) {
    }
    forall i, j | 0 <= i < j < |views| ensures Newer(views[i], views[j]) {
      assert Before(Listings.KeyOf(orders[i]), Listings.KeyOf(orders[j]));
    }
    hide O.Views, Shows;
    var own := set id | id in rows && rows[id].userId == userId;
    var ids := seq(|views|, i requires 0 <= i < |views| => views[i].id);
    forall id | id in own ensures exists i :: 0 <= i < |views| && views[i].id == id && ids[i] == id {
      var i :| 0 <= i < |orders| && orders[i] == rows[id];
      assert views[i].id == id == ids[i];
    }
    AsManyAs(own, ids);
  }

  function NoOrder(id: int): string {
    "Order " + Show(id) + " not found"
  }

  /** GET /orders/:id: the user's order with all its columns, and 404 exactly if the user has no such order. */
  ghost predicate FindsOrder(rows: map<int, Order>, userId: int, id: int, reply: Reply) {
    && (!ValidId(id) ==> reply.Failed? && reply.payload.statusCode == 400)
    && (ValidId(id) && id in rows && rows[id].userId == userId ==> reply.OrderReply? && Shows(reply.order, rows[id]))
    && (ValidId(id) && !(id in rows && rows[id].userId == userId) ==> Refuses(reply, 404, NoOrder(id), "Not Found"))
  }

  lemma FindOrderDecides(rows: map<int, Order>, userId: int, id: int)
    requires ValidId(userId)
    ensures var pc := O.Begin(rows, O.FindUserOrder(userId, id));
            pc.Done? && FindsOrder(rows, userId, id, pc.reply)
  {
    hide ReadNumeric, Show;
  }

  /** A cancellation is refused with 404 and 409 and their messages, or goes on to cancel. */
  lemma CancelDecides(rows: map<int, Order>, userId: int, id: int)
    requires ValidId(userId) && ValidId(id)
    ensures var pc := O.Begin(rows, O.CancelUserOrder(userId, id));
            var owned := id in rows && rows[id].userId == userId;
            && (!owned ==> pc.Done? && Refuses(pc.reply, 404, NoOrder(id), "Not Found"))
            && (owned && rows[id].status == CANCELLED ==>
                  pc.Done? && Refuses(pc.reply, 409, "Order " + Show(id) + " is already cancelled", "Conflict"))
            && (owned && rows[id].status == CONFIRMED ==> pc == O.Loaded(rows[id]))
  {
    hide Show;
  }

  /** A create whose call of the catalog fails on the way answers 504, 503 or 502, as the failure was, in the name
      of the catalog service; one that hears a refusal passes it on. */
  lemma CatalogFailureDecides(call: O.OrderCall, fault: Fault, reply: Reply)
    requires call.CreateOrder? && !fault.Remote?
    ensures O.MovieFailed(fault).Done? && O.MovieFailed(fault).reply.Failed?
            && Classified("CATALOG_SERVICE", fault, O.MovieFailed(fault).reply.payload)
    ensures forall status, message, title :: Refuses(reply, status, message, title) ==>
              O.MovieArrived(call, reply) == O.Done(reply)
  {
    FaultsAreClassified("CATALOG_SERVICE", fault);
    hide ToHttpException, Classified;
    forall status, message, title | Refuses(reply, status, message, title)
      ensures O.MovieArrived(call, reply) == O.Done(reply)
    {
      RelaysRefusal(call, status, message, title);
    }
  }

  lemma RelaysRefusal(call: O.OrderCall, status: int, message: string, title: string)
    requires call.CreateOrder?
    ensures var reply := Failed(RpcErrorPayload(status, Value.Text(message), Value.Text(title)));
            O.MovieArrived(call, reply) == O.Done(reply)
  {
  }
}
