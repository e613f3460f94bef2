/** movies.service.ts as the object it is: entities that are changed in place, and a repository that owns
    the table. Each method is the whole handler, run without interruption, against the steps of
    CatalogService. */
module CatalogObjects {
  import opened Wrappers
  import opened RpcErrors
  import opened Entities
  import opened Dtos
  import C = CatalogService

  /** How many steps a handler has left at most. */
  function Rank(pc: C.CatalogPc): nat {
    match pc
    case Start => 3
    case Renaming(_) => 2
    case Saving(_) => 1
    case Done(_) => 0
  }

  /** The steps of one handler, one after the other. */
  ghost function Alone(db: C.CatalogDb, call: C.CatalogCall, pc: C.CatalogPc, env: Env): After<C.CatalogDb, C.CatalogPc>
    requires !pc.Done? ==> env.id >= db.next
    requires pc.Renaming? ==> call.UpdateMovie?
    decreases Rank(pc)
  {
    if pc.Done? then After(db, pc)
    else
      var after := C.Step(db, call, pc, env);
      Alone(after.db, call, after.pc, env)
  }

  /** An update that gets past its two reads saves the merged row. */
  lemma AloneUpdate(db: C.CatalogDb, id: int, changes: UpdateMovieDto, env: Env)
    requires env.id >= db.next && ValidId(id) && ValidChanges(changes) && id in db.rows && db.rows[id].id == id
    ensures var movie := db.rows[id];
            var title, year := C.Changed(changes.title, movie.title), C.Changed(changes.releaseYear, movie.releaseYear);
            Alone(db, C.UpdateMovie(id, changes), C.Start, env)
            == if (title != movie.title || year != movie.releaseYear) && C.PairTaken(db.rows, title, year, Some(id))
               then After(db, C.TitleTaken(title, year))
               else C.Save(db, C.Merge(movie, changes), env.id)
  {
    var call, movie := C.UpdateMovie(id, changes), db.rows[id];
    var saving := C.Saving(C.Merge(movie, changes));
    assert Alone(db, call, saving, env) == C.Save(db, C.Merge(movie, changes), env.id) by { hide C.Storable, C.Merge; }
    if C.Begin(db.rows, call).Renaming? {
      assert Alone(db, call, C.Renaming(movie), env)
             == Alone(db, call, C.CheckRename(db.rows, changes, movie), env);
    }
  }

  /** The entity of a row just read. */
  function Loaded(movie: Movie): C.Entity {
    C.Entity(Some(movie.id), Some(movie.title), movie.description, Some(movie.releaseYear),
             Some(movie.durationMinutes), Some(movie.ticketPrice))
  }

  /** A Movie entity in memory. */
  class MovieEntity {
    var id: Option<int>
    var title: Option<string>
    var description: Option<string>
    var releaseYear: Option<int>
    var durationMinutes: Option<int>
    var ticketPrice: Option<int>

    ghost function Value(): C.Entity
      reads this
    {
      C.Entity(id, title, description, releaseYear, durationMinutes, ticketPrice)
    }

    constructor FromRow(movie: Movie)
      ensures Value() == Loaded(movie)
    {
      id, title, description := Some(movie.id), Some(movie.title), movie.description;
      releaseYear, durationMinutes, ticketPrice :=
        Some(movie.releaseYear), Some(movie.durationMinutes), Some(movie.ticketPrice);
    }

    /** repository.create(dto) */
    constructor FromDto(dto: CreateMovieDto)
      ensures Value() == C.EntityOf(dto)
    {
      id, title, description := None, Some(dto.title), dto.description;
      releaseYear, durationMinutes, ticketPrice :=
        Some(dto.releaseYear), Some(dto.durationMinutes), Some(dto.ticketPrice);
    }

    /** repository.merge(movie, changes) */
    method Merge(changes: UpdateMovieDto)
      modifies this
      ensures forall movie: Movie :: old(Value()) == Loaded(movie) ==> Value() == C.Merge(movie, changes)
    {
      title := C.Merged(changes.title, title);
      description := C.Merged(changes.description, description);
      releaseYear := C.Merged(changes.releaseYear, releaseYear);
      durationMinutes := C.Merged(changes.durationMinutes, durationMinutes);
      ticketPrice := C.Merged(changes.ticketPrice, ticketPrice);
    }
  }

  /** Repository<Movie> */
  class MovieRepository {
    var db: C.CatalogDb

    constructor ()
      ensures db == C.CatalogDb(map[], 1)
    {
      db := C.CatalogDb(map[], 1);
    }

    /** A scan of the table for another movie with the pair. */
    method ExistsBy(title: string, releaseYear: int, except: Option<int>) returns (found: bool)
      ensures found <==> C.PairTaken(db.rows, title, releaseYear, except)
    {
      var rest := db.rows.Keys;
      while rest != {}
        invariant rest <= db.rows.Keys
        invariant forall id :: id in db.rows && id !in rest && except != Some(id) ==>
                    !C.HasPair(db.rows[id], title, releaseYear)
        decreases |rest|
      {
        var id := Pick(rest);
        if C.HasPair(db.rows[id], title, releaseYear) && except != Some(id) { return true; }
        rest := rest - {id};
      }
      return false;
    }

    method FindOneBy(id: int) returns (movie: MovieEntity?)
      ensures movie == null <==> id !in db.rows
      ensures movie != null ==> fresh(movie) && movie.Value() == Loaded(db.rows[id])
    {
      if id !in db.rows { return null; }
      movie := new MovieEntity.FromRow(db.rows[id]);
    }

    /** INSERT of a new entity, upsert of a loaded one; a violated constraint is the reply. */
    method Save(entity: MovieEntity, freshId: int) returns (reply: Reply)
      modifies this, entity`id
      ensures After(db, C.Done(reply)) == C.Save(old(db), old(entity.Value()), freshId)
    {
      var e := C.Entity(entity.id, entity.title, entity.description, entity.releaseYear, entity.durationMinutes,
                        entity.ticketPrice);
      var id := if e.id.Some? then e.id.value else freshId;
      if !C.Storable(e) { return Throw(QueryFailed("23502")); }
      if C.PairTaken(db.rows, e.title.value, e.releaseYear.value, Some(id)) {
        return Throw(QueryFailed(PG_UNIQUE_VIOLATION));
      }
      if e.id.None? {
        entity.id := Some(id);
        db := db.(next := id + 1);
      }
      db := db.(rows := db.rows[id := C.RowOf(e, id)]);
      return MovieReply(MovieView(C.RowOf(e, id)));
    }

    method Delete(id: int) returns (affected: nat)
      modifies this
      ensures db.next == old(db.next) && db.rows == old(db.rows) - {id}
      ensures affected == if id in old(db.rows) then 1 else 0
    {
      affected := if id in db.rows then 1 else 0;
      db := db.(rows := db.rows - {id});
    }
  }

  class MoviesService {
    const movies: MovieRepository

    constructor (movies: MovieRepository)
      ensures this.movies == movies
    {
      this.movies := movies;
    }

    /** Nothing, or the 409 that create and update throw. */
    method AssertTitleIsFree(title: string, releaseYear: int, excludeId: Option<int>) returns (thrown: Option<Reply>)
      ensures thrown == if C.PairTaken(movies.db.rows, title, releaseYear, excludeId)
                        then Some(Failed(RpcErrorPayload(409, Text("Movie \"" + title + "\" (" + Show(releaseYear)
                                                                   + ") already exists"), Text("Conflict"))))
                        else None
    {
      var found := movies.ExistsBy(title, releaseYear, excludeId);
      if !found { return None; }
      return Some(C.TitleTaken(title, releaseYear).reply);
    }

    method Create(dto: CreateMovieDto, env: Env) returns (reply: Reply)
      requires env.id >= movies.db.next
      modifies movies
      ensures After(movies.db, C.Done(reply)) == Alone(old(movies.db), C.CreateMovie(dto), C.Start, env)
    {
      if !ValidMovie(dto) { return C.InvalidBody().reply; }
      var thrown := AssertTitleIsFree(dto.title, dto.releaseYear, None);
      if thrown.Some? { return thrown.value; }
      var movie := new MovieEntity.FromDto(dto);
      reply := movies.Save(movie, env.id);
    }

    method Update(id: int, changes: UpdateMovieDto, env: Env) returns (reply: Reply)
      requires env.id >= movies.db.next
      requires id in movies.db.rows ==> movies.db.rows[id].id == id
      modifies movies
      ensures After(movies.db, C.Done(reply)) == Alone(old(movies.db), C.UpdateMovie(id, changes), C.Start, env)
      ensures ValidId(id) && ValidChanges(changes) && id !in old(movies.db.rows) ==>
                reply == Failed(RpcErrorPayload(404, Text("Movie " + Show(id) + " not found"), Text("Not Found")))
    {
      if !ValidId(id) || !ValidChanges(changes) { return C.InvalidBody().reply; }
      var movie := movies.FindOneBy(id);
      if movie == null { return C.MovieNotFound(id).reply; }
      AloneUpdate(movies.db, id, changes, env);
      ghost var row := movies.db.rows[id];
      var title := C.Changed(changes.title, movie.title.value);
      var releaseYear := C.Changed(changes.releaseYear, movie.releaseYear.value);
      if title != movie.title.value || releaseYear != movie.releaseYear.value {
        var thrown := AssertTitleIsFree(title, releaseYear, Some(id));
        if thrown.Some? { return thrown.value; }
      }
      movie.Merge(changes);
      assert movie.Value() == C.Merge(row, changes);
      reply := movies.Save(movie, env.id);
    }

    method Remove(id: int, env: Env) returns (reply: Reply)
      requires env.id >= movies.db.next
      modifies movies
      ensures After(movies.db, C.Done(reply)) == Alone(old(movies.db), C.DeleteMovie(id), C.Start, env)
      ensures ValidId(id) && id in old(movies.db.rows) ==>
                reply == DeletedReply(id) && movies.db.rows == old(movies.db.rows) - {id}
      ensures ValidId(id) && id !in old(movies.db.rows) ==>
                && reply == Failed(RpcErrorPayload(404, Text("Movie " + Show(id) + " not found"), Text("Not Found")))
                && movies.db == old(movies.db)
    {
      if !ValidId(id) { return C.InvalidBody().reply; }
      var affected := movies.Delete(id);
      if affected == 0 {
        assert movies.db.rows == old(movies.db.rows);
        return C.MovieNotFound(id).reply;
      }
      return DeletedReply(id);
    }
  }
}
