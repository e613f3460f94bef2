/** The movies table under interleaved creates, updates and deletes. */
module CatalogSafety {
  import opened Wrappers
  import opened RpcErrors
  import opened Entities
  import opened Dtos
  import opened Cinema
  import Identity
  import A = AuthService
  import C = CatalogService

  predicate SamePair(a: Movie, b: Movie) {
    a.title == b.title && a.releaseYear == b.releaseYear
  }

  /** Keys are ids below the counter, and no two movies share title and year. */
  ghost predicate TableOk(db: C.CatalogDb) {
    && db.next >= 1
    && (forall id :: id in db.rows ==> db.rows[id].id == id && 1 <= id < db.next)
    && (forall i, j :: i in db.rows && j in db.rows && SamePair(db.rows[i], db.rows[j]) ==> i == j)
  }

  /** An update works on an id that was handed out once. */
  ghost predicate PcOk(db: C.CatalogDb, pc: C.CatalogPc) {
    && (pc.Renaming? ==> 1 <= pc.movie.id < db.next)
    && (pc.Saving? && pc.entity.id.Some? ==> 1 <= pc.entity.id.value < db.next)
  }

  lemma StepKeepsTable(db: C.CatalogDb, call: C.CatalogCall, pc: C.CatalogPc, env: Env)
    requires TableOk(db) && PcOk(db, pc) && C.CanStep(db, call, pc, env)
    ensures var after := C.Step(db, call, pc, env);
            TableOk(after.db) && PcOk(after.db, after.pc) && db.next <= after.db.next
  {
  }

  ghost predicate CatalogOk(s: System) {
    && TableOk(s.catalog)
    && (forall t :: t in s.catalogTasks ==> PcOk(s.catalog, s.catalogTasks[t].pc))
  }

  lemma ArrivalKeeps(s: System, a: Action)
    requires CatalogOk(s) && Enabled(s, a) && (a.Arrive? || a.AskCatalog?)
    ensures CatalogOk(Effect(s, a))
  {
  }

  lemma CatalogKept(s: System, a: Action)
    requires CatalogOk(s)
    ensures CatalogOk(Next(s, a))
  {
    if Enabled(s, a) {
      if a.CatalogStep? {
        StepKeepsTable(s.catalog, s.catalogTasks[a.task].call, s.catalogTasks[a.task].pc, a.env);
        hide C.Step;
      } else if a.Arrive? || a.AskCatalog? {
        ArrivalKeeps(s, a);
      }
    }
  }

  /** In every run, whatever stale updates are saved: (title, releaseYear) and email are unique and every
      id is below its counter. */
  lemma {:induction false} UniquenessHolds(config: A.Config, schedule: seq<Action>)
    ensures CatalogOk(Run(Init(config), schedule))
    ensures Identity.UsersOk(Run(Init(config), schedule).auth)
  {
    Identity.IdentityHolds(config, schedule);
    if schedule != [] {
      UniquenessHolds(config, schedule[..|schedule| - 1]);
      CatalogKept(Run(Init(config), schedule[..|schedule| - 1]), schedule[|schedule| - 1]);
    }
  }

  /** The pair that assertTitleIsFree looks up is the pair that is written exactly when neither key is
      null, in particular whenever the database accepts the write. */
  lemma CheckedPairIsWritten(movie: Movie, changes: UpdateMovieDto)
    ensures var e := C.Merge(movie, changes);
            e.title == Some(C.Changed(changes.title, movie.title))
            && e.releaseYear == Some(C.Changed(changes.releaseYear, movie.releaseYear))
            <==> !changes.title.Null? && !changes.releaseYear.Null?
    ensures C.Storable(C.Merge(movie, changes)) ==> !changes.title.Null? && !changes.releaseYear.Null?
  {
  }

  // ---- stale updates ----

  /** The movie that an update saves: each column from the change, or else from the row as loaded. */
  function Updated(loaded: Movie, changes: UpdateMovieDto): Movie {
    Movie(loaded.id, C.Changed(changes.title, loaded.title),
          match changes.description case Absent => loaded.description case Null => None case Given(d) => Some(d),
          C.Changed(changes.releaseYear, loaded.releaseYear),
          C.Changed(changes.durationMinutes, loaded.durationMinutes),
          C.Changed(changes.ticketPrice, loaded.ticketPrice))
  }

  /** Exactly when a save of an update is accepted, and the whole table it leaves. The row as it is now
      plays no part: a change committed since the load is overwritten, a row deleted since is back. */
  lemma UpdateSaves(db: C.CatalogDb, loaded: Movie, changes: UpdateMovieDto, env: Env)
    requires ValidChanges(changes)
    requires C.Storable(C.Merge(loaded, UpdateMovieDto(Absent, Absent, Absent, Absent, Absent)))
    ensures var after := C.Save(db, C.Merge(loaded, changes), env.id);
            var m := Updated(loaded, changes);
            if changes.title.Null? || changes.releaseYear.Null? || changes.durationMinutes.Null?
               || changes.ticketPrice.Null?
            then after.db == db && after.pc == C.Done(Throw(QueryFailed("23502")))
            else if C.PairTaken(db.rows, m.title, m.releaseYear, Some(loaded.id))
            then after.db == db && after.pc == C.Done(Throw(QueryFailed(PG_UNIQUE_VIOLATION)))
            else after.db == db.(rows := db.rows[loaded.id := m]) && after.pc == C.Done(MovieReply(MovieView(m)))
  {
  }

  /** A movie id that is in use again after it had been handed out and was gone: this happens exactly when
      an update that had loaded the row before is saved after the delete, and nothing refuses it. */
  lemma DeletedStaysDeletedUnless(config: A.Config, schedule: seq<Action>, a: Action, id: int)
    requires var s := Run(Init(config), schedule);
             id !in s.catalog.rows && 1 <= id < s.catalog.next
    ensures var s := Run(Init(config), schedule);
            id in Next(s, a).catalog.rows <==>
              && a.CatalogStep? && a.task in s.catalogTasks && s.catalogTasks[a.task].pc.Saving?
              && var e := s.catalogTasks[a.task].pc.entity;
              && e.id == Some(id) && C.Storable(e)
              && !C.PairTaken(s.catalog.rows, e.title.value, e.releaseYear.value, Some(id))
  {
    UniquenessHolds(config, schedule);
    var s := Run(Init(config), schedule);
    if a.CatalogStep? && Enabled(s, a) {
      RevivedBy(s.catalog, s.catalogTasks[a.task].call, s.catalogTasks[a.task].pc, a.env, id);
      hide C.Step;
    } else {
      Unrevived(s, a);
    }
  }

  lemma RevivedBy(db: C.CatalogDb, call: C.CatalogCall, pc: C.CatalogPc, env: Env, id: int)
    requires C.CanStep(db, call, pc, env) && id !in db.rows && id < db.next
    ensures id in C.Step(db, call, pc, env).db.rows <==>
              && pc.Saving? && pc.entity.id == Some(id) && C.Storable(pc.entity)
              && !C.PairTaken(db.rows, pc.entity.title.value, pc.entity.releaseYear.value, Some(id))
  {
  }

  lemma Unrevived(s: System, a: Action)
    requires !(a.CatalogStep? && Enabled(s, a))
    ensures Next(s, a).catalog == s.catalog
    ensures a.CatalogStep? && a.task in s.catalogTasks && s.catalogTasks[a.task].pc.Saving?
            ==> s.catalogTasks[a.task].pc.entity.id.None?
  {
  }

  /** It does happen: an update loads movie 1, a delete of movie 1 answers success, the update is saved,
      and movie 1 is back under its old id with its old columns. */
  lemma DeletedMovieComesBack(env: Env)
    ensures var movie := Movie(1, "Arrival", None, 2016, 116, 1299);
            var db := C.CatalogDb(map[1 := movie], 2);
            var changes := UpdateMovieDto(Absent, Absent, Absent, Absent, Given(999));
            var loaded := C.Begin(db.rows, C.UpdateMovie(1, changes));
            var removed := C.Remove(db, 1);
            && removed.pc == C.Done(DeletedReply(1)) && removed.db.rows == map[]
            && loaded.Saving?
            && C.Save(removed.db, loaded.entity, env.id).db == db.(rows := map[1 := movie.(ticketPrice := 999)])
  {
  }
}
