/** Check, then act, over whole runs: what a handler of the catalog had looked up when its write was accepted. */
module CatalogHistory {
  import opened Wrappers
  import opened Entities
  import opened Cinema
  import opened OrderHistory
  import CatalogSafety
  import CreateRace
  import Histories
  import Links
  import A = AuthService
  import C = CatalogService

  /** The step that makes sure that no movie but `except` has the pair. */
  ghost predicate LooksUp(task: CatalogTask, rows: map<int, Movie>, title: string, year: int, except: Option<int>) {
    && ((task.call.CreateMovie? && task.pc.Start?) || (task.call.UpdateMovie? && task.pc.Renaming?))
    && !C.PairTaken(rows, title, year, except)
  }

  /** The step that loads the movie to be updated, which has the pair. */
  ghost predicate Loads(task: CatalogTask, rows: map<int, Movie>, title: string, year: int, id: Option<int>) {
    && task.call.UpdateMovie? && task.pc.Start?
    && task.call.id in rows && C.HasPair(rows[task.call.id], title, year) && id == Some(task.call.id)
  }

  ghost predicate Checks(task: CatalogTask, rows: map<int, Movie>, title: string, year: int, id: Option<int>) {
    LooksUp(task, rows, title, year, id) || Loads(task, rows, title, year, id)
  }

  /** One step from a read to the save: the pair to be written is the pair that was looked up, or loaded. */
  lemma ReadChecks(db: C.CatalogDb, task: CatalogTask, env: Env)
    requires C.CanStep(db, task.call, task.pc, env) && CatalogSafety.TableOk(db)
    ensures var pc := C.Step(db, task.call, task.pc, env).pc;
            pc.Saving? && C.Storable(pc.entity) ==>
              Checks(task, db.rows, pc.entity.title.value, pc.entity.releaseYear.value, pc.entity.id)
  {
    if task.call.UpdateMovie? && task.pc.Renaming? {
      CatalogSafety.CheckedPairIsWritten(task.pc.movie, task.call.changes);
    } else if task.call.UpdateMovie? && task.pc.Start? && task.call.id in db.rows {
      CatalogSafety.CheckedPairIsWritten(db.rows[task.call.id], task.call.changes);
    }
  }

  /** Action i of the schedule was a step of handler t that made sure of the pair. */
  ghost predicate Checked(config: A.Config, schedule: seq<Action>, t: Tid, e: C.Entity, i: nat)
    requires C.Storable(e)
  {
    && i < |schedule| && schedule[i].CatalogStep? && schedule[i].task == t
    && t in At(config, schedule, i).catalogTasks
    && Checks(At(config, schedule, i).catalogTasks[t], At(config, schedule, i).catalog.rows,
              e.title.value, e.releaseYear.value, e.id)
  }

  lemma CheckedStays(config: A.Config, schedule: seq<Action>, t: Tid, e: C.Entity, i: nat)
    requires schedule != [] && C.Storable(e) && Checked(config, schedule[..|schedule| - 1], t, e, i)
    ensures Checked(config, schedule, t, e, i)
  {
    LaterPrefix(config, schedule, i);
    hide At, Checks;
  }

  lemma CheckedNow(config: A.Config, schedule: seq<Action>, t: Tid, e: C.Entity)
    requires schedule != [] && C.Storable(e)
    requires schedule[|schedule| - 1].CatalogStep? && schedule[|schedule| - 1].task == t
    requires var s := Run(Init(config), schedule[..|schedule| - 1]);
             t in s.catalogTasks
             && Checks(s.catalogTasks[t], s.catalog.rows, e.title.value, e.releaseYear.value, e.id)
    ensures Checked(config, schedule, t, e, |schedule| - 1)
  {
    hide Run, Checks;
  }

  lemma {:induction false} SavingsAreChecked(config: A.Config, schedule: seq<Action>, t: Tid)
    requires var s := Run(Init(config), schedule);
             t in s.catalogTasks && s.catalogTasks[t].pc.Saving? && C.Storable(s.catalogTasks[t].pc.entity)
    ensures var e := Run(Init(config), schedule).catalogTasks[t].pc.entity;
            exists i: nat :: Checked(config, schedule, t, e, i)
  {
    var before, a := schedule[..|schedule| - 1], schedule[|schedule| - 1];
    var s, n := Run(Init(config), before), Run(Init(config), schedule);
    assert n == Next(s, a);
    hide Run, Next, Checked, C.Storable;
    var e := n.catalogTasks[t].pc.entity;
    if t in s.catalogTasks && s.catalogTasks[t].pc == n.catalogTasks[t].pc {
      SavingsAreChecked(config, before, t);
      var i: nat :| Checked(config, before, t, e, i);
      CheckedStays(config, schedule, t, e, i);
    } else {
      Histories.CatalogOwnStep(s, a, t);
      CatalogSafety.UniquenessHolds(config, before);
      ReadChecks(s.catalog, s.catalogTasks[t], a.env);
      CheckedNow(config, schedule, t, e);
    }
  }

  lemma AcceptedIsStorable(s: System, a: Action)
    requires a.CatalogStep? && Enabled(s, a) && s.catalogTasks[a.task].pc.Saving?
    requires var pc := Next(s, a).catalogTasks[a.task].pc;
             pc.Done? && pc.reply.MovieReply?
    ensures var e, movie := s.catalogTasks[a.task].pc.entity, Next(s, a).catalogTasks[a.task].pc.reply.movie;
            && C.Storable(e) && movie.title == e.title.value && movie.releaseYear == e.releaseYear.value
            && movie.id in Next(s, a).catalog.rows
            && C.HasPair(Next(s, a).catalog.rows[movie.id], movie.title, movie.releaseYear)
  {
  }

  /** In every run, when the save of a create or an update is accepted, the pair of title and year that is written
      is one that its own handler made sure of at an earlier instant: either it had looked the pair up and found
      it free of other movies, or it had loaded the movie with just this pair. */
  lemma AcceptedPairsWereChecked(config: A.Config, schedule: seq<Action>, a: Action)
    requires var s := Run(Init(config), schedule);
             a.CatalogStep? && Enabled(s, a) && s.catalogTasks[a.task].pc.Saving?
    requires var pc := Next(Run(Init(config), schedule), a).catalogTasks[a.task].pc;
             pc.Done? && pc.reply.MovieReply?
    ensures var s := Run(Init(config), schedule);
            var n := Next(s, a);
            var e, movie := s.catalogTasks[a.task].pc.entity, n.catalogTasks[a.task].pc.reply.movie;
            && C.Storable(e) && movie.title == e.title.value && movie.releaseYear == e.releaseYear.value
            && movie.id in n.catalog.rows && C.HasPair(n.catalog.rows[movie.id], movie.title, movie.releaseYear)
            && exists i: nat :: Checked(config, schedule, a.task, e, i)
  {
    AcceptedIsStorable(Run(Init(config), schedule), a);
    SavingsAreChecked(config, schedule, a.task);
    hide Run, Next, C.Storable, Checked;
  }

  // ---- one pair, created twice ----

  /** A handler of a create saves a new row, and one of an update a row that it has loaded. */
  ghost predicate SavesItsKind(task: CatalogTask) {
    task.pc.Saving? ==>
      || (task.call.CreateMovie? && task.pc.entity.id.None?)
      || (task.call.UpdateMovie? && task.pc.entity.id.Some?)
  }

  lemma StepSavesItsKind(db: C.CatalogDb, task: CatalogTask, env: Env)
    requires C.CanStep(db, task.call, task.pc, env)
    ensures SavesItsKind(task.(pc := C.Step(db, task.call, task.pc, env).pc))
  {
  }

  lemma {:induction false} HandlersSaveTheirKind(config: A.Config, schedule: seq<Action>, t: Tid)
    requires t in Run(Init(config), schedule).catalogTasks
    ensures SavesItsKind(Run(Init(config), schedule).catalogTasks[t])
  {
    var n := Run(Init(config), schedule);
    if schedule != [] && n.catalogTasks[t].pc.Saving? {
      var before, a := schedule[..|schedule| - 1], schedule[|schedule| - 1];
      var s := Run(Init(config), before);
      assert n == Next(s, a);
      hide Run, Next, SavesItsKind, C.Step, C.CanStep;
      Links.StepContinues(s, a);
      if t in s.catalogTasks && s.catalogTasks[t].pc == n.catalogTasks[t].pc {
        HandlersSaveTheirKind(config, before, t);
      } else {
        Histories.CatalogOwnStep(s, a, t);
        StepSavesItsKind(s.catalog, s.catalogTasks[t], a.env);
      }
    }
  }

  /** The step is the save of a create, and it is accepted: there is a movie with this pair now. */
  ghost predicate Creates(s: System, a: Action, title: string, year: int) {
    && a.CatalogStep? && Enabled(s, a) && s.catalogTasks[a.task].call.CreateMovie? && s.catalogTasks[a.task].pc.Saving?
    && var reply := C.Step(s.catalog, s.catalogTasks[a.task].call, s.catalogTasks[a.task].pc, a.env).pc.reply;
       reply.MovieReply? && reply.movie.title == title && reply.movie.releaseYear == year
  }

  /** The step takes the pair from the movie that has it: it deletes the movie, or saves it with another pair. */
  ghost predicate Frees(s: System, a: Action, title: string, year: int) {
    && a.CatalogStep? && Enabled(s, a)
    && var task := s.catalogTasks[a.task];
       || (task.call.DeleteMovie? && task.pc.Start? && HeldBy(s, title, year) == {task.call.id})
       || (task.call.UpdateMovie? && task.pc.Saving? && task.pc.entity.id.Some?
           && HeldBy(s, title, year) == {task.pc.entity.id.value})
  }

  ghost function HeldBy(s: System, title: string, year: int): set<int> {
    CreateRace.Holders(s.catalog.rows, title, year)
  }

  /** The unique constraint: a create is accepted only while nobody has the pair. */
  lemma CreateTakesFreePair(db: C.CatalogDb, e: C.Entity, freshId: int, title: string, year: int)
    requires CatalogSafety.TableOk(db) && e.id.None? && freshId >= db.next
    requires var reply := C.Save(db, e, freshId).pc.reply;
             reply.MovieReply? && reply.movie.title == title && reply.movie.releaseYear == year
    ensures CreateRace.Holders(db.rows, title, year) == {}
    ensures CreateRace.Holders(C.Save(db, e, freshId).db.rows, title, year) != {}
  {
    CreateRace.HoldersArePairTaken(db.rows, title, year, freshId);
    assert freshId in CreateRace.Holders(C.Save(db, e, freshId).db.rows, title, year);
  }

  lemma CreateTakes(s: System, a: Action, title: string, year: int)
    requires Creates(s, a, title, year) && CatalogSafety.TableOk(s.catalog) && SavesItsKind(s.catalogTasks[a.task])
    ensures HeldBy(s, title, year) == {} && HeldBy(Next(s, a), title, year) != {}
  {
    var task := s.catalogTasks[a.task];
    assert C.Step(s.catalog, task.call, task.pc, a.env) == C.Save(s.catalog, task.pc.entity, a.env.id);
    assert Next(s, a).catalog == C.Save(s.catalog, task.pc.entity, a.env.id).db;
    hide C.Step, C.Save, Next, CreateRace.Holders;
    CreateTakesFreePair(s.catalog, task.pc.entity, a.env.id, title, year);
  }

  /** A row that loses the pair was deleted, or saved over. */
  lemma WriteFrees(db: C.CatalogDb, task: CatalogTask, env: Env, title: string, year: int, id: int)
    requires C.CanStep(db, task.call, task.pc, env) && SavesItsKind(task) && CatalogSafety.TableOk(db)
    requires id in CreateRace.Holders(db.rows, title, year)
    requires id !in CreateRace.Holders(C.Step(db, task.call, task.pc, env).db.rows, title, year)
    ensures (task.call.DeleteMovie? && task.pc.Start? && task.call.id == id)
            || (task.call.UpdateMovie? && task.pc.Saving? && task.pc.entity.id == Some(id))
  {
  }

  lemma StepFrees(s: System, a: Action, title: string, year: int, id: int)
    requires CatalogSafety.CatalogOk(s)
    requires a.CatalogStep? && a.task in s.catalogTasks ==> SavesItsKind(s.catalogTasks[a.task])
    requires id in HeldBy(s, title, year) && HeldBy(Next(s, a), title, year) == {}
    ensures Frees(s, a, title, year)
  {
    CreateRace.SoleHolder(s, title, year, id);
    OnlyCatalogSteps(s, a);
    hide Next, CreateRace.Holders, C.Step, C.CanStep, CatalogSafety.TableOk;
    var task := s.catalogTasks[a.task];
    WriteFrees(s.catalog, task, a.env, title, year, id);
  }

  lemma SomeHolder(s: System, title: string, year: int) returns (id: int)
    requires HeldBy(s, title, year) != {}
    ensures id in HeldBy(s, title, year)
  {
    CreateRace.HoldersArePairTaken(s.catalog.rows, title, year, 0);
    id :| id in s.catalog.rows && C.HasPair(s.catalog.rows[id], title, year);
  }

  lemma OnlyCatalogSteps(s: System, a: Action)
    ensures Next(s, a).catalog == s.catalog || (a.CatalogStep? && Enabled(s, a))
    ensures a.CatalogStep? && Enabled(s, a) ==>
              var task := s.catalogTasks[a.task];
              Next(s, a).catalog == C.Step(s.catalog, task.call, task.pc, a.env).db
  {
    hide C.Step;
  }

  lemma AtIsOk(config: A.Config, schedule: seq<Action>, i: nat)
    requires i < |schedule|
    ensures var s := At(config, schedule, i);
            && CatalogSafety.CatalogOk(s)
            && (schedule[i].CatalogStep? && schedule[i].task in s.catalogTasks ==>
                  SavesItsKind(s.catalogTasks[schedule[i].task]))
  {
    hide Run, SavesItsKind, CatalogSafety.CatalogOk;
    CatalogSafety.UniquenessHolds(config, schedule[..i]);
    if schedule[i].CatalogStep? && schedule[i].task in At(config, schedule, i).catalogTasks {
      HandlersSaveTheirKind(config, schedule[..i], schedule[i].task);
    }
  }

  /** Action k of the schedule takes the pair from the one movie that has it. */
  ghost predicate FreesAt(config: A.Config, schedule: seq<Action>, k: nat, title: string, year: int) {
    && k < |schedule| && Frees(At(config, schedule, k), schedule[k], title, year)
    && HeldBy(At(config, schedule, k + 1), title, year) == {}
  }

  /** Whoever finds the pair free after it was taken comes after a step that freed it. */
  lemma {:induction false} FreedBetween(config: A.Config, schedule: seq<Action>, i: nat, j: nat,
                                        title: string, year: int)
    requires i <= j <= |schedule|
    requires HeldBy(At(config, schedule, i), title, year) != {} && HeldBy(At(config, schedule, j), title, year) == {}
    ensures exists k: nat :: i <= k < j && FreesAt(config, schedule, k, title, year)
    decreases j
  {
    hide At, Next, CreateRace.Holders, Frees, SavesItsKind, CatalogSafety.CatalogOk;
    var held := HeldBy(At(config, schedule, j - 1), title, year);
    if held == {} {
      FreedBetween(config, schedule, i, j - 1, title, year);
    } else {
      var id := SomeHolder(At(config, schedule, j - 1), title, year);
      Histories.AtNext(config, schedule, j - 1);
      AtIsOk(config, schedule, j - 1);
      StepFrees(At(config, schedule, j - 1), schedule[j - 1], title, year, id);
      assert FreesAt(config, schedule, j - 1, title, year);
    }
  }

  ghost predicate CreatesAt(config: A.Config, schedule: seq<Action>, i: nat, title: string, year: int) {
    i < |schedule| && Creates(At(config, schedule, i), schedule[i], title, year)
  }

  /** In every run, between two accepted creates of one pair there is a step that took the pair from the movie
      that had it: a DELETE of this movie, or an update that saved it with another pair. */
  lemma FreedBetweenCreates(config: A.Config, schedule: seq<Action>, i: nat, j: nat, title: string, year: int)
    requires i < j && CreatesAt(config, schedule, i, title, year) && CreatesAt(config, schedule, j, title, year)
    ensures exists k: nat :: i < k < j && FreesAt(config, schedule, k, title, year)
  {
    hide At, Next, HeldBy, Frees, SavesItsKind, CatalogSafety.TableOk, Creates;
    AtIsOk(config, schedule, i);
    AtIsOk(config, schedule, j);
    Histories.AtNext(config, schedule, i);
    CreateIsStep(config, schedule, i, title, year);
    CreateIsStep(config, schedule, j, title, year);
    CreateTakes(At(config, schedule, i), schedule[i], title, year);
    CreateTakes(At(config, schedule, j), schedule[j], title, year);
    FreedBetween(config, schedule, i + 1, j, title, year);
  }

  lemma CreateIsStep(config: A.Config, schedule: seq<Action>, i: nat, title: string, year: int)
    requires CreatesAt(config, schedule, i, title, year)
    ensures schedule[i].CatalogStep? && schedule[i].task in At(config, schedule, i).catalogTasks
  {
    hide At;
  }
}
