/** What was written is what is read: the answers of one handler against those of the next. */
module RoundTrips {
  import opened Wrappers
  import opened Entities
  import opened Dtos
  import opened Money
  import CatalogSafety
  import Snapshots
  import Verdicts
  import C = CatalogService
  import O = OrderService
  import CO = CatalogObjects
  import OO = OrderObjects

  // ---- movies ----

  /** What GET /movies/:id is answered. */
  ghost function FoundMovie(db: C.CatalogDb, id: int): C.CatalogPc {
    C.Begin(db.rows, C.FindOneMovie(id))
  }

  ghost predicate OtherMoviesSame(db: C.CatalogDb, new_: C.CatalogDb, id: int) {
    forall other :: other != id ==> FoundMovie(new_, other) == FoundMovie(db, other)
  }

  /** A valid movie with a free pair is created as it was sent, is found as it was answered, and no other
      movie is touched. */
  lemma CreatedMovieIsFound(db: C.CatalogDb, dto: CreateMovieDto, env: Env)
    requires CatalogSafety.TableOk(db) && env.id >= db.next && ValidMovie(dto)
    requires !C.PairTaken(db.rows, dto.title, dto.releaseYear, None)
    ensures var after := CO.Alone(db, C.CreateMovie(dto), C.Start, env);
            && after.pc == C.Done(MovieReply(MovieResponse(env.id, dto.title, dto.description, dto.releaseYear,
                                                           dto.durationMinutes, ReadNumeric(dto.ticketPrice))))
            && FoundMovie(after.db, env.id) == after.pc && OtherMoviesSame(db, after.db, env.id)
  {
    hide ReadNumeric;
    assert CO.Alone(db, C.CreateMovie(dto), C.Saving(C.EntityOf(dto)), env) == C.Save(db, C.EntityOf(dto), env.id);
  }

  /** A movie other than this one has the title and year. */
  ghost predicate OtherHas(rows: map<int, Movie>, id: int, title: string, year: int) {
    exists other :: other in rows && other != id && rows[other].title == title && rows[other].releaseYear == year
  }

  lemma TakenByOther(rows: map<int, Movie>, id: int, title: string, year: int)
    ensures C.PairTaken(rows, title, year, Some(id)) <==> OtherHas(rows, id, title, year)
  {
    if C.PairTaken(rows, title, year, Some(id)) {
      var other :| other in rows && C.HasPair(rows[other], title, year) && other != id;
      assert rows[other].title == title;
    }
    if OtherHas(rows, id, title, year) {
      var other :| other in rows && other != id && rows[other].title == title && rows[other].releaseYear == year;
      assert C.HasPair(rows[other], title, year);
    }
  }

  /** An update that is accepted is found as it was answered: every property of the body, and the row's own
      value for every property that the body lacks. */
  lemma UpdatedMovieIsFound(db: C.CatalogDb, id: int, changes: UpdateMovieDto, env: Env)
    requires CatalogSafety.TableOk(db) && env.id >= db.next && id in db.rows && C.Storable(CO.Loaded(db.rows[id]))
    requires ValidChanges(changes) && !changes.title.Null? && !changes.releaseYear.Null?
    requires !changes.durationMinutes.Null? && !changes.ticketPrice.Null?
    requires var m := CatalogSafety.Updated(db.rows[id], changes);
             !OtherHas(db.rows, id, m.title, m.releaseYear)
    ensures var after := CO.Alone(db, C.UpdateMovie(id, changes), C.Start, env);
            && after.pc == C.Done(MovieReply(MovieView(CatalogSafety.Updated(db.rows[id], changes))))
            && FoundMovie(after.db, id) == after.pc && OtherMoviesSame(db, after.db, id)
  {
    CO.AloneUpdate(db, id, changes, env);
    CatalogSafety.UpdateSaves(db, db.rows[id], changes, env);
    var m := CatalogSafety.Updated(db.rows[id], changes);
    TakenByOther(db.rows, id, m.title, m.releaseYear);
    hide ReadNumeric, CO.Alone, C.Save, C.Merge, OtherHas, C.PairTaken;
  }

  /** The value that a body gives a column, or else the row's. */
  function Wanted<T>(change: Field<T>, own: T): T {
    match change
    case Given(value) => value
    case _ => own
  }

  lemma NobodyElse(db: C.CatalogDb, id: int)
    requires CatalogSafety.TableOk(db) && id in db.rows
    ensures !OtherHas(db.rows, id, db.rows[id].title, db.rows[id].releaseYear)
  {
    assert forall other :: other in db.rows && CatalogSafety.SamePair(db.rows[other], db.rows[id]) ==> other == id;
  }

  /** An update to a title and year that another movie has is refused with the 409, and changes nothing. */
  lemma UpdateConflicts(db: C.CatalogDb, id: int, changes: UpdateMovieDto, title: string, year: int, env: Env)
    requires CatalogSafety.TableOk(db) && env.id >= db.next && id in db.rows && ValidChanges(changes)
    requires title == Wanted(changes.title, db.rows[id].title)
    requires year == Wanted(changes.releaseYear, db.rows[id].releaseYear)
    requires OtherHas(db.rows, id, title, year)
    ensures var after := CO.Alone(db, C.UpdateMovie(id, changes), C.Start, env);
            && after.db == db && after.pc.Done?
            && Verdicts.Refuses(after.pc.reply, 409, "Movie \"" + title + "\" (" + Show(year) + ") already exists",
                                "Conflict")
  {
    TakenByOther(db.rows, id, title, year);
    CO.AloneUpdate(db, id, changes, env);
    NobodyElse(db, id);
    hide CO.Alone, C.Save, C.Merge, OtherHas, Show;
  }

  /** A removed movie is not found and cannot be removed again; all others are as before. */
  lemma RemovedMovieIsGone(db: C.CatalogDb, id: int)
    requires ValidId(id) && id in db.rows
    ensures var after := C.Remove(db, id);
            && after.pc == C.Done(DeletedReply(id)) && FoundMovie(after.db, id) == C.MovieNotFound(id)
            && C.Remove(after.db, id) == After(after.db, C.MovieNotFound(id)) && OtherMoviesSame(db, after.db, id)
    ensures Verdicts.Refuses(C.MovieNotFound(id).reply, 404, "Movie " + Show(id) + " not found", "Not Found")
  {
  }

  // ---- orders ----

  /** What GET /orders/:id is answered to this user. */
  ghost function FoundOrder(db: O.OrderDb, userId: int, id: int): O.OrderPc {
    O.Begin(db.rows, O.FindUserOrder(userId, id))
  }

  ghost predicate OtherOrdersSame(db: O.OrderDb, new_: O.OrderDb, id: int) {
    forall userId, other :: other != id ==> FoundOrder(new_, userId, other) == FoundOrder(db, userId, other)
  }

  /** The order that a create answers. */
  function Ordered(call: O.OrderCall, movie: Movie, env: Env): OrderResponse
    requires call.CreateOrder?
  {
    OrderResponse(env.id, call.userId, movie.id, movie.title, movie.releaseYear, ReadNumeric(movie.ticketPrice),
                  call.quantity, ReadNumeric(movie.ticketPrice * call.quantity), CONFIRMED, env.now, env.now)
  }

  lemma NewRowIsFound(db: O.OrderDb, new_: O.OrderDb, row: Order)
    requires ValidId(row.userId) && ValidId(row.id) && new_.rows == db.rows[row.id := row]
    ensures FoundOrder(new_, row.userId, row.id) == O.Done(OrderReply(OrderView(row)))
    ensures forall other :: other != row.userId && ValidId(other) ==>
              FoundOrder(new_, other, row.id) == O.OrderNotFound(row.id)
    ensures Verdicts.Refuses(O.OrderNotFound(row.id).reply, 404, "Order " + Show(row.id) + " not found", "Not Found")
    ensures OtherOrdersSame(db, new_, row.id)
  {
    hide OrderView;
  }

  /** The row that the catalog answered is ordered at its price, the buyer finds the order exactly as the
      POST was answered, nobody else finds it, and no other order is touched. */
  lemma CreatedOrderIsFound(db: O.OrderDb, call: O.OrderCall, movie: Movie, env: Env)
    requires O.AsksCatalog(call) && 1 <= db.next <= env.id && forall id :: id in db.rows ==> id < db.next
    requires 0 <= movie.ticketPrice < NUMERIC_10_2 && |movie.title| <= 255 && -32768 <= movie.releaseYear < 32768
    requires OO.Writable(db, call, OO.Answered(MovieReply(MovieView(movie))), env)
    ensures var after := OO.CreateAlone(db, call, OO.Answered(MovieReply(MovieView(movie))), env);
            && after.pc == O.Done(OrderReply(Ordered(call, movie, env)))
            && FoundOrder(after.db, call.userId, env.id) == after.pc
            && (forall other :: other != call.userId && ValidId(other) ==>
                  FoundOrder(after.db, other, env.id) == O.OrderNotFound(env.id))
            && OtherOrdersSame(db, after.db, env.id)
    ensures Verdicts.Refuses(O.OrderNotFound(env.id).reply, 404, "Order " + Show(env.id) + " not found", "Not Found")
  {
    Snapshots.InsertCopies(db, call, movie, env);
    var row := Order(env.id, call.userId, movie.id, movie.title, movie.releaseYear, movie.ticketPrice,
                     call.quantity, movie.ticketPrice * call.quantity, CONFIRMED, env.now, env.now);
    assert OO.CreateAlone(db, call, OO.Answered(MovieReply(MovieView(movie))), env)
           == O.Insert(db, O.DraftOf(call, MovieView(movie)), env) by { hide O.Insert, O.DraftOf, MovieView, TextOf; }
    NewRowIsFound(db, O.OrderDb(db.rows[env.id := row], env.id + 1), row);
    hide FoundOrder, OtherOrdersSame, ReadNumeric, O.Insert, O.DraftOf, OO.CreateAlone, TextOf, OO.Writable;
  }

  /** A cancelled order is found cancelled and otherwise as it was, cannot be cancelled again, and no other
      order is touched. */
  lemma CancelledOrderIsFound(db: O.OrderDb, userId: int, id: int, env: Env, later: Env)
    requires ValidId(userId) && ValidId(id) && O.Owned(db.rows, userId, id)
    requires db.rows[id].status == CONFIRMED && db.rows[id].id == id
    ensures var after := OO.CancelAlone(db, O.CancelUserOrder(userId, id), env);
            && after.pc == O.Done(OrderReply(OrderView(db.rows[id].(status := CANCELLED, updatedAt := env.now))))
            && FoundOrder(after.db, userId, id) == after.pc && OtherOrdersSame(db, after.db, id)
            && OO.CancelAlone(after.db, O.CancelUserOrder(userId, id), later) == After(after.db, O.AlreadyCancelled(id))
    ensures Verdicts.Refuses(O.AlreadyCancelled(id).reply, 409, "Order " + Show(id) + " is already cancelled",
                             "Conflict")
  {
    hide OrderView;
  }
}
