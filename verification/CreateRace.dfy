/** Concurrent creates of one movie: exactly one wins, whether the others fail the check or the constraint. */
module CreateRace {
  import opened Wrappers
  import opened Entities
  import opened Dtos
  import opened Gateway
  import opened Cinema
  import opened Race
  import CatalogSafety
  import Links
  import Replies
  import A = AuthService
  import C = CatalogService

  /** The movies with this title and year. */
  ghost function Holders(rows: map<int, Movie>, title: string, year: int): set<int> {
    set id | id in rows && C.HasPair(rows[id], title, year)
  }

  /** A handler that creates this movie, somewhere on its way. */
  ghost predicate Contends(task: CatalogTask, title: string, year: int) {
    && task.call.CreateMovie? && ValidMovie(task.call.dto)
    && task.call.dto.title == title && task.call.dto.releaseYear == year
    && (task.pc.Start? || task.pc == C.Saving(C.EntityOf(task.call.dto)) || task.pc.Done?)
  }

  predicate Conflicted(pc: C.CatalogPc) {
    pc.Done? && pc.reply.Failed? && pc.reply.payload.statusCode == 409
  }

  function PhaseOf(pc: C.CatalogPc): Phase {
    if !pc.Done? then Trying else if pc.reply.Failed? then Lost else Won
  }

  ghost function Phases(s: System, team: set<Tid>): map<Tid, Phase>
    requires forall t :: t in team ==> t in s.catalogTasks
  {
    map t | t in team :: PhaseOf(s.catalogTasks[t].pc)
  }

  /** The winner's reply names a movie with the pair; every loser was told 409. */
  ghost predicate Settled(s: System, t: Tid, title: string, year: int)
    requires t in s.catalogTasks
  {
    var pc := s.catalogTasks[t].pc;
    pc.Done? ==>
      || Conflicted(pc)
      || (pc.reply.MovieReply? && pc.reply.movie.id in Holders(s.catalog.rows, title, year))
  }

  ghost predicate RaceOk(s: System, team: set<Tid>, title: string, year: int) {
    && (forall t :: t in team ==> t in s.catalogTasks && Contends(s.catalogTasks[t], title, year)
                                  && Settled(s, t, title, year))
    && Fair(Holders(s.catalog.rows, title, year) != {}, Phases(s, team))
  }

  /** The action is a step of the team, or it changes nothing about who holds the pair. */
  ghost predicate Undisturbed(s: System, a: Action, team: set<Tid>, title: string, year: int) {
    || (a.CatalogStep? && a.task in team)
    || Holders(Next(s, a).catalog.rows, title, year) == Holders(s.catalog.rows, title, year)
  }

  ghost predicate UndisturbedRun(s: System, schedule: seq<Action>, team: set<Tid>, title: string, year: int) {
    schedule != [] ==>
      var before := schedule[..|schedule| - 1];
      UndisturbedRun(s, before, team, title, year)
      && Undisturbed(Run(s, before), schedule[|schedule| - 1], team, title, year)
  }

  lemma HoldersArePairTaken(rows: map<int, Movie>, title: string, year: int, id: int)
    ensures C.PairTaken(rows, title, year, None) <==> Holders(rows, title, year) != {}
    ensures id !in rows ==> (C.PairTaken(rows, title, year, Some(id)) <==> Holders(rows, title, year) != {})
  {
    var holders := Holders(rows, title, year);
    forall i | i in holders
      ensures C.PairTaken(rows, title, year, None) && (i != id ==> C.PairTaken(rows, title, year, Some(id)))
    {
      assert i in rows && rows[i].title == title && rows[i].releaseYear == year;
    }
    forall i | i in rows && rows[i].title == title && rows[i].releaseYear == year ensures i in holders {
    }
  }

  /** One step of one contender, on the abstract race. */
  lemma ContenderStep(db: C.CatalogDb, task: CatalogTask, env: Env, title: string, year: int)
    requires Contends(task, title, year) && C.CanStep(db, task.call, task.pc, env)
    requires forall id :: id in db.rows ==> id < db.next
    ensures var after := C.Step(db, task.call, task.pc, env);
            var taken := Holders(db.rows, title, year) != {};
            var taken' := Holders(after.db.rows, title, year) != {};
            && Contends(task.(pc := after.pc), title, year)
            && Advances(taken, map[0 := PhaseOf(task.pc)], 0, taken', PhaseOf(after.pc))
            && (after.pc.Done? ==>
                  || Conflicted(after.pc)
                  || (after.pc.reply.MovieReply? && after.pc.reply.movie.id in Holders(after.db.rows, title, year)))
            && Holders(db.rows, title, year) <= Holders(after.db.rows, title, year)
  {
    HoldersArePairTaken(db.rows, title, year, env.id);
    var after := C.Step(db, task.call, task.pc, env);
    if after.pc.Done? && !after.pc.reply.Failed? {
      assert env.id in Holders(after.db.rows, title, year);
    }
  }

  lemma RaceKept(s: System, a: Action, team: set<Tid>, title: string, year: int)
    requires RaceOk(s, team, title, year) && CatalogSafety.CatalogOk(s) && Undisturbed(s, a, team, title, year)
    ensures RaceOk(Next(s, a), team, title, year)
  {
    var n := Next(s, a);
    if a.CatalogStep? && a.task in team && Enabled(s, a) {
      var t := a.task;
      var task := s.catalogTasks[t];
      ContenderStep(s.catalog, task, a.env, title, year);
      TeamStep(s, n, t, team, title, year);
    } else {
      Links.StepContinues(s, a);
      Links.StepLeavesOthers(s, a);
      OutsiderStep(s, a, n, team, title, year);
    }
  }

  lemma TeamStep(s: System, n: System, t: Tid, team: set<Tid>, title: string, year: int)
    requires RaceOk(s, team, title, year) && t in team && t in n.catalogTasks
    requires n.catalogTasks == s.catalogTasks[t := n.catalogTasks[t]]
    requires Contends(n.catalogTasks[t], title, year) && Settled(n, t, title, year)
    requires Holders(s.catalog.rows, title, year) <= Holders(n.catalog.rows, title, year)
    requires Advances(Holders(s.catalog.rows, title, year) != {}, map[0 := PhaseOf(s.catalogTasks[t].pc)], 0,
                      Holders(n.catalog.rows, title, year) != {}, PhaseOf(n.catalogTasks[t].pc))
    ensures RaceOk(n, team, title, year)
  {
    AdvanceIsFair(Holders(s.catalog.rows, title, year) != {}, Phases(s, team), t,
                  Holders(n.catalog.rows, title, year) != {}, PhaseOf(n.catalogTasks[t].pc));
    hide Holders, Contends;
    assert Phases(n, team) == Phases(s, team)[t := PhaseOf(n.catalogTasks[t].pc)];
  }

  lemma OutsiderStep(s: System, a: Action, n: System, team: set<Tid>, title: string, year: int)
    requires RaceOk(s, team, title, year)
    requires n == Next(s, a) && Links.Continues(s, n) && Links.OthersAlone(s, a, n)
    requires Holders(n.catalog.rows, title, year) == Holders(s.catalog.rows, title, year)
    requires a.CatalogStep? && a.task in team ==> n == s
    ensures RaceOk(n, team, title, year)
  {
    hide Next, RaceOk, Holders, Links.Continues, Links.OthersAlone;
    TeamStays(s, a, n, team, title, year);
    StayingIsOk(s, n, team, title, year);
  }

  lemma StayingIsOk(s: System, n: System, team: set<Tid>, title: string, year: int)
    requires RaceOk(s, team, title, year)
    requires Holders(n.catalog.rows, title, year) == Holders(s.catalog.rows, title, year)
    requires forall t :: t in team ==> t in n.catalogTasks && n.catalogTasks[t] == s.catalogTasks[t]
    ensures RaceOk(n, team, title, year)
  {
    hide Holders, Contends;
    assert Phases(n, team) == Phases(s, team);
  }

  lemma TeamStays(s: System, a: Action, n: System, team: set<Tid>, title: string, year: int)
    requires RaceOk(s, team, title, year)
    requires n == Next(s, a) && Links.Continues(s, n) && Links.OthersAlone(s, a, n)
    requires a.CatalogStep? && a.task in team ==> n == s
    ensures forall t :: t in team ==> t in n.catalogTasks && n.catalogTasks[t] == s.catalogTasks[t]
  {
    hide Next, Holders, Contends, Settled;
    forall t | t in team ensures n.catalogTasks[t] == s.catalogTasks[t] {
      if Links.TouchesCatalogTask(a, t) && !a.CatalogStep? {
        NewHandler(s, a, t);
      }
    }
  }

  lemma NewHandler(s: System, a: Action, t: Tid)
    requires Links.TouchesCatalogTask(a, t) && !a.CatalogStep? && t in s.catalogTasks
    ensures Next(s, a) == s
  {
  }

  // ---- contenders arrive at any time ----

  /** The call of handler t creates this movie. */
  ghost predicate Names(s: System, t: Tid, title: string, year: int) {
    && t in s.catalogTasks && s.catalogTasks[t].call.CreateMovie? && ValidMovie(s.catalogTasks[t].call.dto)
    && s.catalogTasks[t].call.dto.title == title && s.catalogTasks[t].call.dto.releaseYear == year
  }

  /** Newcomers that have not begun join a fair race. */
  lemma NewcomersJoin(n: System, present: set<Tid>, more: set<Tid>, title: string, year: int)
    requires RaceOk(n, present, title, year) && present <= more
    requires forall t :: t in more && t !in present ==> Names(n, t, title, year) && n.catalogTasks[t].pc.Start?
    ensures RaceOk(n, more, title, year)
  {
    hide Holders;
    JoinIsFair(Holders(n.catalog.rows, title, year) != {}, Phases(n, present), Phases(n, more));
  }

  lemma OpenRaceKept(s: System, a: Action, team: set<Tid>, title: string, year: int)
    requires RaceOk(s, Present(team, s.catalogTasks), title, year) && CatalogSafety.CatalogOk(s)
    requires Undisturbed(s, a, team, title, year)
    requires forall t :: t in Present(team, Next(s, a).catalogTasks) ==> Names(Next(s, a), t, title, year)
    ensures RaceOk(Next(s, a), Present(team, Next(s, a).catalogTasks), title, year)
  {
    var n := Next(s, a);
    if a.CatalogStep? && a.task in team && a.task !in s.catalogTasks {
      Links.AbsentStepsDoNothing(s, a);
    } else {
      Links.StepContinues(s, a);
      Links.NewcomersStart(s, a);
      hide Next, Holders, CatalogSafety.CatalogOk;
      RaceKept(s, a, Present(team, s.catalogTasks), title, year);
      hide RaceOk;
      NewcomersJoin(n, Present(team, s.catalogTasks), Present(team, n.catalogTasks), title, year);
    }
  }

  /** The members that exist at the start have not begun, and nobody holds the pair. */
  ghost predicate NotYetBegun(s: System, team: set<Tid>, title: string, year: int) {
    && (forall t :: t in team && t in s.catalogTasks ==> s.catalogTasks[t].pc.Start?)
    && Holders(s.catalog.rows, title, year) == {}
  }

  lemma RaceBegins(s: System, team: set<Tid>, title: string, year: int)
    requires NotYetBegun(s, team, title, year)
    requires forall t :: t in Present(team, s.catalogTasks) ==> Names(s, t, title, year)
    ensures RaceOk(s, Present(team, s.catalogTasks), title, year)
  {
    hide Holders;
  }

  /** At the end all members are there. */
  ghost predicate AllNamed(n: System, team: set<Tid>, title: string, year: int) {
    forall t :: t in team ==> Names(n, t, title, year)
  }

  /** A call never changes, so that a member names the pair from its arrival on. */
  lemma NamedFromArrival(s: System, later: seq<Action>, team: set<Tid>, title: string, year: int)
    requires AllNamed(Run(s, later), team, title, year)
    ensures forall t :: t in Present(team, s.catalogTasks) ==> Names(s, t, title, year)
  {
    Links.RunContinues(s, later);
    hide Run;
  }

  lemma {:induction false} RaceHolds(config: A.Config, prefix: seq<Action>, schedule: seq<Action>, rest: seq<Action>,
                                     team: set<Tid>, title: string, year: int)
    requires NotYetBegun(Run(Init(config), prefix), team, title, year)
    requires UndisturbedRun(Run(Init(config), prefix), schedule, team, title, year)
    requires AllNamed(Run(Run(Run(Init(config), prefix), schedule), rest), team, title, year)
    ensures var n := Run(Run(Init(config), prefix), schedule);
            RaceOk(n, Present(team, n.catalogTasks), title, year)
  {
    var s := Run(Init(config), prefix);
    NamedFromArrival(Run(s, schedule), rest, team, title, year);
    if schedule == [] {
      RaceBegins(s, team, title, year);
    } else {
      var before, a := schedule[..|schedule| - 1], schedule[|schedule| - 1];
      RunConcat(Run(s, before), [a], rest);
      RunOne(Run(s, before), a);
      hide RaceOk, Names, Present, AllNamed, NotYetBegun, Next, Undisturbed;
      RaceHolds(config, prefix, before, [a] + rest, team, title, year);
      RunConcat(Init(config), prefix, before);
      CatalogSafety.UniquenessHolds(config, prefix + before);
      OpenRaceKept(Run(s, before), a, team, title, year);
    }
  }

  /** The outcome: one success, one row, and 409 for everybody else. */
  ghost predicate OneWinner(s: System, team: set<Tid>, title: string, year: int, w: Tid) {
    && w in team && w in s.catalogTasks && s.catalogTasks[w].pc.Done? && s.catalogTasks[w].pc.reply.MovieReply?
    && Holders(s.catalog.rows, title, year) == {s.catalogTasks[w].pc.reply.movie.id}
    && forall t :: t in team && t != w ==> t in s.catalogTasks && Conflicted(s.catalogTasks[t].pc)
  }

  lemma RaceEnds(n: System, team: set<Tid>, title: string, year: int)
    requires team != {} && RaceOk(n, team, title, year) && CatalogSafety.CatalogOk(n)
    requires forall t :: t in team ==> t in n.catalogTasks && n.catalogTasks[t].pc.Done?
    ensures exists w :: OneWinner(n, team, title, year, w)
  {
    var phases := Phases(n, team);
    var t0 :| t0 in team;
    assert t0 in phases;
    FinishDecides(Holders(n.catalog.rows, title, year) != {}, phases);
    var w: Tid :| Decided(phases, w);
    SoleHolder(n, title, year, n.catalogTasks[w].pc.reply.movie.id);
    forall t | t in team && t != w ensures Conflicted(n.catalogTasks[t].pc) {
      assert phases[t].Lost?;
    }
    assert OneWinner(n, team, title, year, w);
  }

  /** Exactly one winner. From a state in which nobody holds the pair and no member of the team has begun, n > 0
      handlers create the same movie, each arriving whenever it does, in any interleaving among themselves and
      with everything else that leaves the pair alone. When all are done, one has succeeded, there is one row
      with the pair, which is the winner's, and all others have answered 409. */
  lemma ExactlyOneCreateWins(config: A.Config, prefix: seq<Action>, schedule: seq<Action>,
                             team: set<Tid>, title: string, year: int)
    requires team != {} && NotYetBegun(Run(Init(config), prefix), team, title, year)
    requires UndisturbedRun(Run(Init(config), prefix), schedule, team, title, year)
    requires var n := Run(Run(Init(config), prefix), schedule);
             AllNamed(n, team, title, year) && forall t :: t in team ==> n.catalogTasks[t].pc.Done?
    ensures exists w :: OneWinner(Run(Run(Init(config), prefix), schedule), team, title, year, w)
  {
    var n := Run(Run(Init(config), prefix), schedule);
    RaceHolds(config, prefix, schedule, [], team, title, year);
    assert Present(team, n.catalogTasks) == team;
    RunConcat(Init(config), prefix, schedule);
    CatalogSafety.UniquenessHolds(config, prefix + schedule);
    hide Run, UndisturbedRun, RaceOk, CatalogSafety.CatalogOk;
    RaceEnds(n, team, title, year);
  }

  lemma SoleHolder(s: System, title: string, year: int, id: int)
    requires CatalogSafety.CatalogOk(s) && id in Holders(s.catalog.rows, title, year)
    ensures Holders(s.catalog.rows, title, year) == {id}
  {
    forall i | i in Holders(s.catalog.rows, title, year) ensures i == id {
      assert CatalogSafety.SamePair(s.catalog.rows[i], s.catalog.rows[id]);
    }
  }

  // ---- what the clients see ----

  /** POST /movies requests whose handlers form the team. */
  ghost predicate AsksFor(s: System, r: Tid, team: set<Tid>) {
    && r in s.requests && s.requests[r].call.PostMovie?
    && s.requests[r].child.CatalogChild? && s.requests[r].child.task in team
  }

  /** The same race seen by its clients, none of which was answered by a client-side failure. */
  lemma ExactlyOneClientWins(config: A.Config, prefix: seq<Action>, schedule: seq<Action>,
                             clients: set<Tid>, team: set<Tid>, title: string, year: int)
    requires team != {} && NotYetBegun(Run(Init(config), prefix), team, title, year)
    requires UndisturbedRun(Run(Init(config), prefix), schedule, team, title, year)
    requires var n := Run(Run(Init(config), prefix), schedule);
             && AllNamed(n, team, title, year)
             && (forall r :: r in clients ==> AsksFor(n, r, team) && n.requests[r].answer.Some?
                                              && !ByClient(n.requests[r].call, n.requests[r].answer.value))
             && (forall t :: t in team ==> exists r :: r in clients && n.requests[r].child.task == t)
    ensures exists w :: ClientWins(Run(Run(Init(config), prefix), schedule), clients, w)
  {
    var n := Run(Run(Init(config), prefix), schedule);
    RunConcat(Init(config), prefix, schedule);
    Links.LinksHold(config, prefix + schedule);
    Replies.RepliesHold(config, prefix + schedule);
    hide Run, Links.LinksOk, Replies.RepliesOk, UndisturbedRun, NotYetBegun, Names;
    forall t | t in team ensures t in n.catalogTasks && n.catalogTasks[t].pc.Done? {
      var r :| r in clients && n.requests[r].child.task == t;
      AnsweredByHandler(n, r, team);
    }
    ExactlyOneCreateWins(config, prefix, schedule, team, title, year);
    var v: Tid :| OneWinner(n, team, title, year, v);
    var w :| w in clients && n.requests[w].child.task == v;
    forall r | r in clients
      ensures r in n.requests && n.requests[r].answer.Some?
              && n.requests[r].answer.value.status == (if r == w then 201 else 409)
    {
      AnsweredByHandler(n, r, team);
      if n.requests[r].child.task == v {
        OneRequestPerHandler(n, r, w);
      }
    }
    assert ClientWins(n, clients, w);
  }

  lemma AnsweredByHandler(n: System, r: Tid, team: set<Tid>)
    requires Links.LinksOk(n) && Replies.RepliesOk(n) && AsksFor(n, r, team)
    requires n.requests[r].answer.Some? && !ByClient(n.requests[r].call, n.requests[r].answer.value)
    ensures var t := n.requests[r].child.task;
            && t in n.catalogTasks && n.catalogTasks[t].pc.Done?
            && (Conflicted(n.catalogTasks[t].pc) ==> n.requests[r].answer.value.status == 409)
            && (n.catalogTasks[t].pc.reply.MovieReply? ==> n.requests[r].answer.value.status == 201)
  {
  }

  lemma OneRequestPerHandler(n: System, r: Tid, w: Tid)
    requires Links.LinksOk(n) && r in n.requests && w in n.requests
    requires n.requests[r].child.CatalogChild? && n.requests[r].child == n.requests[w].child
    ensures r == w
  {
  }
}
