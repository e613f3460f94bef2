/** apps/catalog-service/src/movies.service.ts, handler by handler and await by await. */
module CatalogService {
  import opened Wrappers
  import opened RpcErrors
  import opened Entities
  import opened Dtos
  import opened Money
  import opened Listing

  /** The movies table with its SERIAL counter. */
  datatype CatalogDb = CatalogDb(rows: map<int, Movie>, next: int)

  datatype CatalogCall =
    | FindAllMovies
    | FindOneMovie(id: int)
    | CreateMovie(dto: CreateMovieDto)
    | UpdateMovie(id: int, changes: UpdateMovieDto)
    | DeleteMovie(id: int)

  predicate Writes(call: CatalogCall) {
    call.CreateMovie? || call.UpdateMovie? || call.DeleteMovie?
  }

  /** A Movie entity in memory: no id before its INSERT, and None where a column holds null. */
  datatype Entity = Entity(id: Option<int>, title: Option<string>, description: Option<string>,
                           releaseYear: Option<int>, durationMinutes: Option<int>, ticketPrice: Option<int>)

  datatype CatalogPc =
    | Start
    | Renaming(movie: Movie)
    | Saving(entity: Entity)
    | Done(reply: Reply)

  predicate HasPair(movie: Movie, title: string, year: int) {
    movie.title == title && movie.releaseYear == year
  }

  /** The movie with this title and year, other than `except`, exists. */
  predicate PairTaken(rows: map<int, Movie>, title: string, year: int, except: Option<int>) {
    exists id :: id in rows && HasPair(rows[id], title, year) && except != Some(id)
  }

  function EntityOf(dto: CreateMovieDto): Entity {
    Entity(None, Some(dto.title), dto.description, Some(dto.releaseYear), Some(dto.durationMinutes),
           Some(dto.ticketPrice))
  }

  /** `changes.key ?? loaded` */
  function Changed<T>(change: Field<T>, loaded: T): T {
    if change.Given? then change.value else loaded
  }

  /** repository.merge copies every key that is present, nulls included. */
  function Merged<T>(change: Field<T>, loaded: Option<T>): Option<T> {
    match change
    case Absent => loaded
    case Null => None
    case Given(value) => Some(value)
  }

  function Merge(movie: Movie, changes: UpdateMovieDto): Entity {
    Entity(Some(movie.id), Merged(changes.title, Some(movie.title)), Merged(changes.description, movie.description),
           Merged(changes.releaseYear, Some(movie.releaseYear)),
           Merged(changes.durationMinutes, Some(movie.durationMinutes)),
           Merged(changes.ticketPrice, Some(movie.ticketPrice)))
  }

  /** NOT NULL, CHECK and column bounds of the movies table. */
  predicate Storable(e: Entity) {
    && e.title.Some? && |e.title.value| <= 255
    && e.releaseYear.Some? && -32768 <= e.releaseYear.value < 32768
    && e.durationMinutes.Some? && 0 < e.durationMinutes.value < 32768
    && e.ticketPrice.Some? && 0 <= e.ticketPrice.value < NUMERIC_10_2
  }

  function RowOf(e: Entity, id: int): Movie
    requires Storable(e)
  {
    Movie(id, e.title.value, e.description, e.releaseYear.value, e.durationMinutes.value, e.ticketPrice.value)
  }

  /** movies.save: INSERT for a new entity, otherwise an upsert by primary key. */
  ghost function Save(db: CatalogDb, e: Entity, freshId: int): After<CatalogDb, CatalogPc> {
    var id := if e.id.Some? then e.id.value else freshId;
    if !Storable(e) then
      After(db, Done(Throw(QueryFailed("23502"))))
    else if PairTaken(db.rows, e.title.value, e.releaseYear.value, Some(id)) then
      After(db, Done(Throw(QueryFailed(PG_UNIQUE_VIOLATION))))
    else
      After(CatalogDb(db.rows[id := RowOf(e, id)], if e.id.Some? then db.next else freshId + 1),
            Done(MovieReply(MovieView(RowOf(e, id)))))
  }

  function MovieNotFound(id: int): CatalogPc {
    Done(ThrowHttp(NotFound("Movie " + Show(id) + " not found")))
  }

  function TitleTaken(title: string, year: int): CatalogPc {
    Done(ThrowHttp(Conflict("Movie \"" + title + "\" (" + Show(year) + ") already exists")))
  }

  function InvalidBody(): CatalogPc {
    Done(ThrowHttp(BadRequest(["invalid body"])))
  }

  ghost function Keys(rows: map<int, Movie>): set<Key> {
    set id | id in rows :: (-id, id)
  }

  /** find({ order: { id: "ASC" } }) */
  ghost function AllMovies(rows: map<int, Movie>): seq<MovieResponse> {
    var keys := Descending(Keys(rows));
    assert forall i :: 0 <= i < |keys| ==> keys[i] in Elements(keys);
    seq(|keys|, i requires 0 <= i < |keys| => MovieView(rows[keys[i].1]))
  }

  ghost function Begin(rows: map<int, Movie>, call: CatalogCall): CatalogPc
    requires !call.DeleteMovie?
  {
    match call
    case FindAllMovies => Done(MoviesReply(AllMovies(rows)))
    case FindOneMovie(id) =>
      if !ValidId(id) then InvalidBody()
      else if id in rows then Done(MovieReply(MovieView(rows[id])))
      else MovieNotFound(id)
    case CreateMovie(dto) =>
      if !ValidMovie(dto) then InvalidBody()
      else if PairTaken(rows, dto.title, dto.releaseYear, None) then TitleTaken(dto.title, dto.releaseYear)
      else Saving(EntityOf(dto))
    case UpdateMovie(id, changes) =>
      if !ValidId(id) || !ValidChanges(changes) then InvalidBody()
      else if id !in rows then MovieNotFound(id)
      else
        var movie := rows[id];
        if Changed(changes.title, movie.title) != movie.title
           || Changed(changes.releaseYear, movie.releaseYear) != movie.releaseYear
        then Renaming(movie)
        else Saving(Merge(movie, changes))
  }

  /** assertTitleIsFree(title, releaseYear, id) on the way to the save. */
  ghost function CheckRename(rows: map<int, Movie>, changes: UpdateMovieDto, movie: Movie): CatalogPc {
    var title := Changed(changes.title, movie.title);
    var year := Changed(changes.releaseYear, movie.releaseYear);
    if PairTaken(rows, title, year, Some(movie.id)) then TitleTaken(title, year)
    else Saving(Merge(movie, changes))
  }

  function Remove(db: CatalogDb, id: int): After<CatalogDb, CatalogPc> {
    if !ValidId(id) then After(db, InvalidBody())
    else if id in db.rows then After(db.(rows := db.rows - {id}), Done(DeletedReply(id)))
    else After(db, MovieNotFound(id))
  }

  ghost predicate CanStep(db: CatalogDb, call: CatalogCall, pc: CatalogPc, env: Env) {
    match pc
    case Start => true
    case Renaming(_) => call.UpdateMovie?
    case Saving(e) => e.id.None? ==> env.id >= db.next
    case Done(_) => false
  }

  /** One step of a handler, up to its next await. */
  ghost function Step(db: CatalogDb, call: CatalogCall, pc: CatalogPc, env: Env): After<CatalogDb, CatalogPc>
    requires CanStep(db, call, pc, env)
  {
    match pc
    case Start => if call.DeleteMovie? then Remove(db, call.id) else After(db, Begin(db.rows, call))
    case Renaming(movie) => After(db, CheckRename(db.rows, call.changes, movie))
    case Saving(e) => Save(db, e, env.id)
  }
}
