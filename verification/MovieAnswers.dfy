/** What clients of the movie routes are answered, in every run: for each answer there is an instant of its handler's
    life whose table the answer describes. */
module MovieAnswers {
  import opened Wrappers
  import opened RpcErrors
  import opened Entities
  import opened Dtos
  import opened Money
  import opened Gateway
  import opened Cinema
  import opened Histories
  import opened OrderHistory
  import opened Answers
  import opened Verdicts
  import CatalogSafety
  import Origins
  import Replies
  import A = AuthService
  import C = CatalogService

  /** Handlers that only read, and those that delete, have one step. */
  lemma ReadersStart(config: A.Config, schedule: seq<Action>, t: Tid, i: nat)
    requires CatalogStepAt(config, schedule, t, i)
    requires var call := At(config, schedule, i).catalogTasks[t].call;
             call.FindAllMovies? || call.FindOneMovie? || call.DeleteMovie?
    ensures At(config, schedule, i).catalogTasks[t].pc.Start?
  {
    Origins.TargetsHold(config, schedule[..i]);
    hide Run;
  }

  lemma TableAt(config: A.Config, schedule: seq<Action>, i: nat)
    requires i <= |schedule|
    ensures CatalogSafety.TableOk(At(config, schedule, i).catalog)
  {
    CatalogSafety.UniquenessHolds(config, schedule[..i]);
    hide Run, CatalogSafety.TableOk;
  }

  /** GET /movies: 200, with the movies of one instant, each once, by ascending id. */
  lemma MoviesAnswered(config: A.Config, schedule: seq<Action>, r: Tid) returns (t: Tid, i: nat)
    requires var s := Run(Init(config), schedule);
             Heard(s, r) && s.requests[r].call == GetMovies
    ensures var answer := TheAnswer(Run(Init(config), schedule), r);
            && CatalogStepAt(config, schedule, t, i) && answer.status == 200 && answer.body.Data?
            && ListsMovies(At(config, schedule, i).catalog.rows, answer.body.reply)
  {
    t, i := CatalogAnswered(config, schedule, r);
    assert At(config, schedule, i).catalogTasks[t].call == C.FindAllMovies;
    ReadersStart(config, schedule, t, i);
    TableAt(config, schedule, i);
    hide Run, Heard, ListsMovies, Says;
    AllMoviesAreReplied(At(config, schedule, i).catalog.rows);
    hide At;
  }

  /** GET /movies/:id: the movie as it is at one instant, and 404 exactly if there is none at this instant. */
  lemma MovieAnswered(config: A.Config, schedule: seq<Action>, r: Tid, id: int) returns (t: Tid, i: nat)
    requires var s := Run(Init(config), schedule);
             Heard(s, r) && s.requests[r].call == GetMovie(id)
    ensures var answer := TheAnswer(Run(Init(config), schedule), r);
            CatalogStepAt(config, schedule, t, i) && ShowsMovie(At(config, schedule, i).catalog.rows, id, answer)
  {
    t, i := CatalogAnswered(config, schedule, r);
    assert At(config, schedule, i).catalogTasks[t].call == C.FindOneMovie(id);
    ReadersStart(config, schedule, t, i);
    hide Run, Heard, FindsMovie, ShowsMovie, Delivers;
    FindOneDecides(At(config, schedule, i).catalog.rows, id);
    FindingIsShown(At(config, schedule, i).catalog.rows, id, CatalogAfter(config, schedule, t, i).pc.reply,
                   TheAnswer(Run(Init(config), schedule), r));
  }

  ghost predicate ShowsMovie(rows: map<int, Movie>, id: int, answer: Answer) {
    && (!ValidId(id) ==> answer.status == 400)
    && (ValidId(id) && id in rows ==>
          answer.status == 200 && answer.body.Data? && answer.body.reply.MovieReply?
          && Depicts(answer.body.reply.movie, rows[id]))
    && (ValidId(id) && id !in rows ==> Says(answer, 404, NoMovie(id), "Not Found"))
  }

  lemma FindingIsShown(rows: map<int, Movie>, id: int, reply: Reply, answer: Answer)
    requires FindsMovie(rows, id, reply) && Delivers(GetMovie(id), reply, answer)
    requires reply.Failed? ==> reply.payload.message != Undefined
    ensures ShowsMovie(rows, id, answer)
  {
    hide Depicts, NoMovie;
  }

  /** DELETE /movies/:id: 204, and the movie is gone, exactly if there was one when its handler deleted; otherwise
      404, and nothing changes. */
  lemma DeleteAnswered(config: A.Config, schedule: seq<Action>, r: Tid, id: int) returns (t: Tid, i: nat)
    requires var s := Run(Init(config), schedule);
             Heard(s, r) && s.requests[r].call == HttpCall.DeleteMovie(id)
    ensures CatalogStepAt(config, schedule, t, i)
    ensures ShowsDeletion(At(config, schedule, i).catalog.rows, At(config, schedule, i + 1).catalog.rows, id,
                          TheAnswer(Run(Init(config), schedule), r))
  {
    t, i := CatalogAnswered(config, schedule, r);
    ReadersStart(config, schedule, t, i);
    var s, a := At(config, schedule, i), schedule[i];
    AtNext(config, schedule, i);
    CatalogNextTable(s, a);
    hide Run, Heard, Removes, ShowsDeletion, Delivers, Next, C.Step, Enabled;
    RemoveDecides(s.catalog, id, a.env);
    RemovalIsShown(s.catalog, id, CatalogAfter(config, schedule, t, i), TheAnswer(Run(Init(config), schedule), r));
  }

  lemma CatalogNextTable(s: System, a: Action)
    requires a.CatalogStep? && Enabled(s, a)
    ensures var task := s.catalogTasks[a.task];
            Next(s, a).catalog == C.Step(s.catalog, task.call, task.pc, a.env).db
  {
    hide C.Step;
  }

  ghost predicate ShowsDeletion(rows: map<int, Movie>, after: map<int, Movie>, id: int, answer: Answer) {
    && (!ValidId(id) ==> after == rows && answer.status == 400)
    && (ValidId(id) && id in rows ==>
          && answer == Answer(204, Data(NoReply)) && after.Keys == rows.Keys - {id}
          && forall other :: other in after ==> after[other] == rows[other])
    && (ValidId(id) && id !in rows ==> after == rows && Says(answer, 404, NoMovie(id), "Not Found"))
  }

  lemma RemovalIsShown(db: C.CatalogDb, id: int, after: After<C.CatalogDb, C.CatalogPc>, answer: Answer)
    requires Removes(db, id, after) && Delivers(HttpCall.DeleteMovie(id), after.pc.reply, answer)
    requires after.pc.reply.Failed? ==> after.pc.reply.payload.message != Undefined
    ensures ShowsDeletion(db.rows, after.db.rows, id, answer)
  {
    hide NoMovie;
  }

  /** The first step of a handler. */
  lemma {:induction false} LookUp(config: A.Config, schedule: seq<Action>, t: Tid, last: nat) returns (i: nat)
    requires CatalogStepAt(config, schedule, t, last)
    ensures i <= last && CatalogStepAt(config, schedule, t, i) && At(config, schedule, i).catalogTasks[t].pc.Start?
    ensures At(config, schedule, i).catalogTasks[t].call == At(config, schedule, last).catalogTasks[t].call
    ensures i < last ==>
              && !At(config, schedule, last).catalogTasks[t].pc.Start?
              && !CatalogAfter(config, schedule, t, i).pc.Done?
    decreases last
  {
    if At(config, schedule, last).catalogTasks[t].pc.Start? {
      i := last;
    } else {
      var j := StepBefore(config, schedule, t, last);
      i := LookUp(config, schedule, t, j);
    }
  }

  /** The step that brought a handler to where it takes another one. */
  lemma StepBefore(config: A.Config, schedule: seq<Action>, t: Tid, last: nat) returns (j: nat)
    requires CatalogStepAt(config, schedule, t, last) && !At(config, schedule, last).catalogTasks[t].pc.Start?
    ensures j < last && CatalogStepAt(config, schedule, t, j)
    ensures At(config, schedule, j).catalogTasks[t].call == At(config, schedule, last).catalogTasks[t].call
    ensures CatalogAfter(config, schedule, t, j).pc == At(config, schedule, last).catalogTasks[t].pc
    ensures !CatalogAfter(config, schedule, t, j).pc.Done?
  {
    assert !At(config, schedule, last).catalogTasks[t].pc.Done?;
    hide Run, Enabled, C.Step;
    j := CatalogReached(config, schedule[..last], t);
    assert schedule[..last][..j] == schedule[..j];
  }

  /** A failure of the catalog is complete, so that its status reaches the client. */
  lemma FailuresAreComplete(config: A.Config, schedule: seq<Action>, t: Tid, i: nat)
    requires CatalogStepAt(config, schedule, t, i) && CatalogAfter(config, schedule, t, i).pc.Done?
    ensures Replies.ReplyOk(CatalogAfter(config, schedule, t, i).pc.reply)
  {
    var task := At(config, schedule, i).catalogTasks[t];
    Replies.CatalogReplies(At(config, schedule, i).catalog, task.call, task.pc, schedule[i].env);
    hide At, C.Step, Replies.ReplyOk;
  }

  lemma StatusIsKept(call: HttpCall, reply: Reply, answer: Answer)
    requires Delivers(call, reply, answer) && Replies.ReplyOk(reply)
    ensures answer.status == 404 <==> IsNotFound(reply)
    ensures reply.Failed? <==> answer.status >= 400
    ensures reply.Failed? ==> answer.status == reply.payload.statusCode
  {
  }

  /** PATCH /movies/:id: 404 exactly if there is no movie at the instant at which its handler looks it up. */
  lemma PatchAnswered(config: A.Config, schedule: seq<Action>, r: Tid, id: int, changes: UpdateMovieDto)
    returns (t: Tid, i: nat)
    requires var s := Run(Init(config), schedule);
             Heard(s, r) && s.requests[r].call == PatchMovie(id, changes)
    requires ValidId(id) && ValidChanges(changes)
    ensures CatalogStepAt(config, schedule, t, i) && At(config, schedule, i).catalogTasks[t].pc.Start?
    ensures var answer, rows := TheAnswer(Run(Init(config), schedule), r), At(config, schedule, i).catalog.rows;
            && (answer.status == 404 <==> id !in rows)
            && (id !in rows ==> Says(answer, 404, NoMovie(id), "Not Found"))
            && (answer.status < 400 ==> answer.status == 200 && answer.body.Data? && answer.body.reply.MovieReply?
                                        && answer.body.reply.movie.id == id)
  {
    var last;
    t, last := CatalogAnswered(config, schedule, r);
    i := LookUp(config, schedule, t, last);
    FailuresAreComplete(config, schedule, t, last);
    var pc := CatalogAfter(config, schedule, t, last).pc;
    StatusIsKept(PatchMovie(id, changes), pc.reply, TheAnswer(Run(Init(config), schedule), r));
    var rows := At(config, schedule, i).catalog.rows;
    UpdateDecides(rows, id, changes);
    var s := At(config, schedule, last);
    Origins.TargetsHold(config, schedule[..last]);
    if i < last {
      UpdateStepShows(s.catalog, s.catalogTasks[t], schedule[last].env);
      WritersDoNotMiss(s.catalog, s.catalogTasks[t].call, s.catalogTasks[t].pc, schedule[last].env);
    }
    hide Run, At, Heard, NoMovie, Replies.ReplyOk, C.Begin, C.Step;
  }

  /** An update that succeeds answers the movie that it was sent for. */
  lemma UpdateStepShows(db: C.CatalogDb, task: CatalogTask, env: Env)
    requires task.call.UpdateMovie? && Origins.OnTarget(task) && C.CanStep(db, task.call, task.pc, env)
    requires !task.pc.Start?
    ensures var pc := C.Step(db, task.call, task.pc, env).pc;
            pc.Done? && !pc.reply.Failed? ==> pc.reply.MovieReply? && pc.reply.movie.id == task.call.id
  {
  }

  // ---- creates ----

  /** The movie that a body describes. */
  ghost predicate AsSent(movie: MovieResponse, dto: CreateMovieDto) {
    && movie.title == dto.title && movie.description == dto.description && movie.releaseYear == dto.releaseYear
    && movie.durationMinutes == dto.durationMinutes && movie.ticketPrice == ReadNumeric(dto.ticketPrice)
  }

  /** A create looks up and then saves just the entity of its body: the last step refuses it, or makes the movie. */
  lemma CreateEnds(config: A.Config, schedule: seq<Action>, t: Tid, last: nat, dto: CreateMovieDto)
    requires CatalogStepAt(config, schedule, t, last) && ValidMovie(dto)
    requires At(config, schedule, last).catalogTasks[t].call == C.CreateMovie(dto)
    requires CatalogAfter(config, schedule, t, last).pc.Done?
    ensures var pc := At(config, schedule, last).catalogTasks[t].pc;
            pc.Start? || pc == C.Saving(C.EntityOf(dto))
  {
    var pc := At(config, schedule, last).catalogTasks[t].pc;
    if !pc.Start? {
      var j := StepBefore(config, schedule, t, last);
      Origins.TargetsHold(config, schedule[..j]);
      var s := At(config, schedule, j);
      SavesItsBody(s.catalog, s.catalogTasks[t], schedule[j].env, dto);
      hide Run, At, C.Step, C.EntityOf;
    }
  }

  lemma SavesItsBody(db: C.CatalogDb, task: CatalogTask, env: Env, dto: CreateMovieDto)
    requires Origins.OnTarget(task) && C.CanStep(db, task.call, task.pc, env) && task.call == C.CreateMovie(dto)
    ensures var pc := C.Step(db, task.call, task.pc, env).pc;
            !pc.Done? ==> pc == C.Saving(C.EntityOf(dto))
  {
  }

  lemma CreateStepDecides(db: C.CatalogDb, dto: CreateMovieDto, pc: C.CatalogPc, env: Env)
    requires ValidMovie(dto) && (pc.Start? || pc == C.Saving(C.EntityOf(dto)))
    requires C.CanStep(db, C.CreateMovie(dto), pc, env)
    ensures var after := C.Step(db, C.CreateMovie(dto), pc, env);
            var taken := exists id :: id in db.rows && C.HasPair(db.rows[id], dto.title, dto.releaseYear);
            after.pc.Done? && (forall id :: id in db.rows ==> id < db.next) ==>
              if taken then after.db == db && after.pc.reply.Failed? && after.pc.reply.payload.statusCode == 409
              else
                && after.pc.reply.MovieReply? && AsSent(after.pc.reply.movie, dto)
                && after.pc.reply.movie.id !in db.rows
                && after.db.rows.Keys == db.rows.Keys + {after.pc.reply.movie.id}
                && Depicts(after.pc.reply.movie, after.db.rows[after.pc.reply.movie.id])
  {
    hide ReadNumeric, Show;
  }

  /** POST /movies: 201, with the movie as it was sent under an id that was free, exactly if nobody has the pair at
      the instant of the handler's last step; otherwise 409. */
  lemma PostMovieAnswered(config: A.Config, schedule: seq<Action>, r: Tid, dto: CreateMovieDto)
    returns (t: Tid, i: nat)
    requires var s := Run(Init(config), schedule);
             Heard(s, r) && s.requests[r].call == PostMovie(dto)
    requires ValidMovie(dto)
    ensures CatalogStepAt(config, schedule, t, i)
    ensures var answer := TheAnswer(Run(Init(config), schedule), r);
            var rows, after := At(config, schedule, i).catalog.rows, At(config, schedule, i + 1).catalog.rows;
            if exists id :: id in rows && C.HasPair(rows[id], dto.title, dto.releaseYear)
            then answer.status == 409 && after == rows
            else
              && answer.status == 201 && answer.body.Data? && answer.body.reply.MovieReply?
              && var movie := answer.body.reply.movie;
              && AsSent(movie, dto) && movie.id !in rows && after.Keys == rows.Keys + {movie.id}
              && Depicts(movie, after[movie.id])
  {
    t, i := CatalogAnswered(config, schedule, r);
    FailuresAreComplete(config, schedule, t, i);
    CreateEnds(config, schedule, t, i, dto);
    TableAt(config, schedule, i);
    AtNext(config, schedule, i);
    var s := At(config, schedule, i);
    CatalogNextTable(s, schedule[i]);
    CreateStepDecides(s.catalog, dto, s.catalogTasks[t].pc, schedule[i].env);
    StatusIsKept(PostMovie(dto), CatalogAfter(config, schedule, t, i).pc.reply,
                 TheAnswer(Run(Init(config), schedule), r));
    hide Run, At, Next, Enabled, C.Step, C.EntityOf, Heard, AsSent, Depicts, Replies.ReplyOk;
  }
}
