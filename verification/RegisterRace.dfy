/** Concurrent registrations of one email: exactly one wins. */
module RegisterRace {
  import opened Entities
  import opened Dtos
  import opened Gateway
  import opened Cinema
  import opened Race
  import Identity
  import Links
  import Replies
  import A = AuthService

  /** The users with this email. */
  ghost function Holders(rows: map<int, User>, email: string): set<int> {
    set id | id in rows && rows[id].email == email
  }

  /** A handler that registers this email, somewhere on its way. */
  ghost predicate Contends(task: AuthTask, email: string) {
    && task.call.Register? && ValidRegister(task.call.registerDto)
    && task.call.registerDto.password == task.call.registerDto.confirmPassword
    && task.call.registerDto.email == email
    && (task.pc.Start? || task.pc.Done?
        || task.pc == A.Creating(email, HashPassword(task.call.registerDto.password), USER))
  }

  predicate Conflicted(pc: A.AuthPc) {
    pc.Done? && pc.reply.Failed? && pc.reply.payload.statusCode == 409
  }

  function PhaseOf(pc: A.AuthPc): Phase {
    if !pc.Done? then Trying else if pc.reply.Failed? then Lost else Won
  }

  ghost function Phases(s: System, team: set<Tid>): map<Tid, Phase>
    requires forall t :: t in team ==> t in s.authTasks
  {
    map t | t in team :: PhaseOf(s.authTasks[t].pc)
  }

  /** The winner's reply names a user with the email; every loser was told 409. */
  ghost predicate Settled(s: System, t: Tid, email: string)
    requires t in s.authTasks
  {
    var pc := s.authTasks[t].pc;
    pc.Done? ==>
      || Conflicted(pc)
      || (pc.reply.UserReply? && pc.reply.user.role == USER && pc.reply.user.id in Holders(s.auth.rows, email))
  }

  ghost predicate RaceOk(s: System, team: set<Tid>, email: string) {
    && (forall t :: t in team ==> t in s.authTasks && Contends(s.authTasks[t], email) && Settled(s, t, email))
    && Fair(Holders(s.auth.rows, email) != {}, Phases(s, team))
  }

  /** The action is a step of the team, or it adds no user with this email. */
  ghost predicate Undisturbed(s: System, a: Action, team: set<Tid>, email: string) {
    || (a.AuthStep? && a.task in team)
    || Holders(Next(s, a).auth.rows, email) == Holders(s.auth.rows, email)
  }

  ghost predicate UndisturbedRun(s: System, schedule: seq<Action>, team: set<Tid>, email: string) {
    schedule != [] ==>
      var before := schedule[..|schedule| - 1];
      UndisturbedRun(s, before, team, email)
      && Undisturbed(Run(s, before), schedule[|schedule| - 1], team, email)
  }

  lemma HoldersAreEmailTaken(rows: map<int, User>, email: string)
    ensures A.EmailTaken(rows, email) <==> Holders(rows, email) != {}
  {
    var holders := Holders(rows, email);
    forall i | i in rows && rows[i].email == email ensures i in holders {
    }
    forall i | i in holders ensures A.EmailTaken(rows, email) {
      assert i in rows && rows[i].email == email;
    }
  }

  /** One step of one contender, on the abstract race. */
  lemma ContenderStep(config: A.Config, db: A.AuthDb, task: AuthTask, env: Env, email: string)
    requires Contends(task, email) && A.CanStep(db, task.call, task.pc, env)
    requires forall id :: id in db.rows ==> id < db.next
    ensures var after := A.Step(config, db, task.call, task.pc, env);
            var taken := Holders(db.rows, email) != {};
            var taken' := Holders(after.db.rows, email) != {};
            && Contends(task.(pc := after.pc), email)
            && Advances(taken, map[0 := PhaseOf(task.pc)], 0, taken', PhaseOf(after.pc))
            && (after.pc.Done? ==>
                  || Conflicted(after.pc)
                  || (after.pc.reply.UserReply? && after.pc.reply.user.role == USER
                      && after.pc.reply.user.id in Holders(after.db.rows, email)))
            && Holders(db.rows, email) <= Holders(after.db.rows, email)
  {
    HoldersAreEmailTaken(db.rows, email);
    var after := A.Step(config, db, task.call, task.pc, env);
    if after.pc.Done? && !after.pc.reply.Failed? {
      assert env.id in Holders(after.db.rows, email);
    }
  }

  lemma RaceKept(s: System, a: Action, team: set<Tid>, email: string)
    requires RaceOk(s, team, email) && Identity.UsersOk(s.auth) && Undisturbed(s, a, team, email)
    ensures RaceOk(Next(s, a), team, email)
  {
    var n := Next(s, a);
    if a.AuthStep? && a.task in team && Enabled(s, a) {
      var t := a.task;
      ContenderStep(s.config, s.auth, s.authTasks[t], a.env, email);
      TeamStep(s, n, t, team, email);
    } else {
      OutsiderStep(s, a, team, email);
    }
  }

  lemma TeamStep(s: System, n: System, t: Tid, team: set<Tid>, email: string)
    requires RaceOk(s, team, email) && t in team && t in n.authTasks
    requires n.authTasks == s.authTasks[t := n.authTasks[t]]
    requires Contends(n.authTasks[t], email) && Settled(n, t, email)
    requires Holders(s.auth.rows, email) <= Holders(n.auth.rows, email)
    requires Advances(Holders(s.auth.rows, email) != {}, map[0 := PhaseOf(s.authTasks[t].pc)], 0,
                      Holders(n.auth.rows, email) != {}, PhaseOf(n.authTasks[t].pc))
    ensures RaceOk(n, team, email)
  {
    AdvanceIsFair(Holders(s.auth.rows, email) != {}, Phases(s, team), t,
                  Holders(n.auth.rows, email) != {}, PhaseOf(n.authTasks[t].pc));
    hide Holders, Contends;
    assert Phases(n, team) == Phases(s, team)[t := PhaseOf(n.authTasks[t].pc)];
  }

  lemma OutsiderStep(s: System, a: Action, team: set<Tid>, email: string)
    requires RaceOk(s, team, email) && Undisturbed(s, a, team, email)
    requires !(a.AuthStep? && a.task in team && Enabled(s, a))
    ensures RaceOk(Next(s, a), team, email)
  {
    OthersStay(s, a, team);
    hide Next, RaceOk, Holders, Enabled;
    StayingIsOk(s, Next(s, a), team, email);
  }

  lemma OthersStay(s: System, a: Action, team: set<Tid>)
    requires forall t :: t in team ==> t in s.authTasks
    requires !(a.AuthStep? && a.task in team && Enabled(s, a))
    ensures forall t :: t in team ==> t in Next(s, a).authTasks && Next(s, a).authTasks[t] == s.authTasks[t]
  {
    if !(a.AuthStep? && Enabled(s, a)) {
      Links.AuthTasksStay(s, a);
      hide Next, Enabled;
    }
    hide A.Step;
  }

  lemma StayingIsOk(s: System, n: System, team: set<Tid>, email: string)
    requires RaceOk(s, team, email) && Holders(n.auth.rows, email) == Holders(s.auth.rows, email)
    requires forall t :: t in team ==> t in n.authTasks && n.authTasks[t] == s.authTasks[t]
    ensures RaceOk(n, team, email)
  {
    hide Holders, Contends;
    assert Phases(n, team) == Phases(s, team);
  }

  // ---- contenders arrive at any time ----

  /** The call of handler t registers this email. */
  ghost predicate Names(s: System, t: Tid, email: string) {
    && t in s.authTasks && s.authTasks[t].call.Register? && ValidRegister(s.authTasks[t].call.registerDto)
    && s.authTasks[t].call.registerDto.password == s.authTasks[t].call.registerDto.confirmPassword
    && s.authTasks[t].call.registerDto.email == email
  }

  /** Newcomers that have not begun join a fair race. */
  lemma NewcomersJoin(n: System, present: set<Tid>, more: set<Tid>, email: string)
    requires RaceOk(n, present, email) && present <= more
    requires forall t :: t in more && t !in present ==> Names(n, t, email) && n.authTasks[t].pc.Start?
    ensures RaceOk(n, more, email)
  {
    hide Holders;
    JoinIsFair(Holders(n.auth.rows, email) != {}, Phases(n, present), Phases(n, more));
  }

  lemma OpenRaceKept(s: System, a: Action, team: set<Tid>, email: string)
    requires RaceOk(s, Present(team, s.authTasks), email) && Identity.UsersOk(s.auth)
    requires Undisturbed(s, a, team, email)
    requires forall t :: t in Present(team, Next(s, a).authTasks) ==> Names(Next(s, a), t, email)
    ensures RaceOk(Next(s, a), Present(team, Next(s, a).authTasks), email)
  {
    var n := Next(s, a);
    if a.AuthStep? && a.task in team && a.task !in s.authTasks {
      Links.AbsentStepsDoNothing(s, a);
    } else {
      Links.StepContinues(s, a);
      Links.NewcomersStart(s, a);
      hide Next, Holders, Identity.UsersOk;
      RaceKept(s, a, Present(team, s.authTasks), email);
      hide RaceOk;
      NewcomersJoin(n, Present(team, s.authTasks), Present(team, n.authTasks), email);
    }
  }

  /** The members that exist at the start have not begun, and nobody has the email. */
  ghost predicate NotYetBegun(s: System, team: set<Tid>, email: string) {
    && (forall t :: t in team && t in s.authTasks ==> s.authTasks[t].pc.Start?)
    && Holders(s.auth.rows, email) == {}
  }

  lemma RaceBegins(s: System, team: set<Tid>, email: string)
    requires NotYetBegun(s, team, email) && forall t :: t in Present(team, s.authTasks) ==> Names(s, t, email)
    ensures RaceOk(s, Present(team, s.authTasks), email)
  {
    hide Holders;
  }

  /** At the end all members are there. */
  ghost predicate AllNamed(n: System, team: set<Tid>, email: string) {
    forall t :: t in team ==> Names(n, t, email)
  }

  /** A call never changes, so that a member names the email from its arrival on. */
  lemma NamedFromArrival(s: System, later: seq<Action>, team: set<Tid>, email: string)
    requires AllNamed(Run(s, later), team, email)
    ensures forall t :: t in Present(team, s.authTasks) ==> Names(s, t, email)
  {
    Links.RunContinues(s, later);
    hide Run;
  }

  lemma {:induction false} RaceHolds(config: A.Config, prefix: seq<Action>, schedule: seq<Action>, rest: seq<Action>,
                                     team: set<Tid>, email: string)
    requires NotYetBegun(Run(Init(config), prefix), team, email)
    requires UndisturbedRun(Run(Init(config), prefix), schedule, team, email)
    requires AllNamed(Run(Run(Run(Init(config), prefix), schedule), rest), team, email)
    ensures var n := Run(Run(Init(config), prefix), schedule);
            RaceOk(n, Present(team, n.authTasks), email)
  {
    var s := Run(Init(config), prefix);
    NamedFromArrival(Run(s, schedule), rest, team, email);
    if schedule == [] {
      RaceBegins(s, team, email);
    } else {
      var before, a := schedule[..|schedule| - 1], schedule[|schedule| - 1];
      RunConcat(Run(s, before), [a], rest);
      RunOne(Run(s, before), a);
      hide RaceOk, Names, Present, AllNamed, NotYetBegun, Next, Undisturbed;
      RaceHolds(config, prefix, before, [a] + rest, team, email);
      RunConcat(Init(config), prefix, before);
      Identity.IdentityHolds(config, prefix + before);
      OpenRaceKept(Run(s, before), a, team, email);
    }
  }

  /** The outcome: one success, one row, and 409 for everybody else. */
  ghost predicate OneWinner(s: System, team: set<Tid>, email: string, w: Tid) {
    && w in team && w in s.authTasks && s.authTasks[w].pc.Done? && s.authTasks[w].pc.reply.UserReply?
    && Holders(s.auth.rows, email) == {s.authTasks[w].pc.reply.user.id}
    && forall t :: t in team && t != w ==> t in s.authTasks && Conflicted(s.authTasks[t].pc)
  }

  lemma RaceEnds(n: System, team: set<Tid>, email: string)
    requires team != {} && RaceOk(n, team, email) && Identity.UsersOk(n.auth)
    requires forall t :: t in team ==> t in n.authTasks && n.authTasks[t].pc.Done?
    ensures exists w :: OneWinner(n, team, email, w)
  {
    var phases := Phases(n, team);
    var t0 :| t0 in team;
    assert t0 in phases;
    FinishDecides(Holders(n.auth.rows, email) != {}, phases);
    var w: Tid :| Decided(phases, w);
    SoleHolder(n, email, n.authTasks[w].pc.reply.user.id);
    forall t | t in team && t != w ensures Conflicted(n.authTasks[t].pc) {
      assert phases[t].Lost?;
    }
    assert OneWinner(n, team, email, w);
  }

  /** n > 0 registrations of one free email, each arriving whenever it does, in any interleaving among
      themselves and with everything else that does not take the email: one account, one success, and 409 for
      all others. */
  lemma ExactlyOneRegistrationWins(config: A.Config, prefix: seq<Action>, schedule: seq<Action>,
                                   team: set<Tid>, email: string)
    requires team != {} && NotYetBegun(Run(Init(config), prefix), team, email)
    requires UndisturbedRun(Run(Init(config), prefix), schedule, team, email)
    requires var n := Run(Run(Init(config), prefix), schedule);
             AllNamed(n, team, email) && forall t :: t in team ==> n.authTasks[t].pc.Done?
    ensures exists w :: OneWinner(Run(Run(Init(config), prefix), schedule), team, email, w)
  {
    var n := Run(Run(Init(config), prefix), schedule);
    RaceHolds(config, prefix, schedule, [], team, email);
    assert Present(team, n.authTasks) == team;
    RunConcat(Init(config), prefix, schedule);
    Identity.IdentityHolds(config, prefix + schedule);
    hide Run, UndisturbedRun, RaceOk;
    RaceEnds(n, team, email);
  }

  lemma SoleHolder(s: System, email: string, id: int)
    requires Identity.UsersOk(s.auth) && id in Holders(s.auth.rows, email)
    ensures Holders(s.auth.rows, email) == {id}
  {
    assert forall i :: i in Holders(s.auth.rows, email) ==> i == id;
  }

  // ---- what the clients see ----

  /** No two requests share an auth handler. */
  ghost predicate OwnHandlers(s: System) {
    forall r, q :: r in s.requests && q in s.requests && r != q ==>
      s.requests[r].child.AuthChild? ==> s.requests[q].child != s.requests[r].child
  }

  lemma OwnHandlersKept(s: System, a: Action)
    requires OwnHandlers(s) && Links.LinksOk(s)
    ensures OwnHandlers(Next(s, a))
  {
    Links.StepContinues(s, a);
    Links.StepLeavesOthers(s, a);
    forall r | r in s.requests && s.requests[r].child.AuthChild? ensures s.requests[r].child.task in s.authTasks {
      assert Links.ChildOk(s, r, s.requests[r]);
    }
    if a.Arrive? && Enabled(s, a) {
      NewChild(s, a);
    } else {
      NoNewRequest(s, a);
    }
    hide Next, Links.LinksOk, Enabled;
  }

  lemma NewChild(s: System, a: Action)
    requires a.Arrive? && Enabled(s, a)
    ensures var n := Next(s, a);
            && a.request !in s.requests && a.task !in s.authTasks && a.request in n.requests
            && n.requests == s.requests[a.request := n.requests[a.request]]
            && (n.requests[a.request].child.AuthChild? ==> n.requests[a.request].child.task == a.task)
  {
    Links.ArrivalAdds(s, a);
    hide Effect, Enabled;
  }

  lemma NoNewRequest(s: System, a: Action)
    requires !(a.Arrive? && Enabled(s, a))
    ensures Next(s, a).requests.Keys == s.requests.Keys
  {
  }

  lemma {:induction false} OwnHandlersHold(config: A.Config, schedule: seq<Action>)
    ensures OwnHandlers(Run(Init(config), schedule))
  {
    if schedule != [] {
      OwnHandlersHold(config, schedule[..|schedule| - 1]);
      Links.LinksHold(config, schedule[..|schedule| - 1]);
      OwnHandlersKept(Run(Init(config), schedule[..|schedule| - 1]), schedule[|schedule| - 1]);
    }
  }

  /** POST /auth/register requests whose handlers form the team. */
  ghost predicate AsksFor(s: System, r: Tid, team: set<Tid>) {
    && r in s.requests && s.requests[r].call.PostRegister?
    && s.requests[r].child.AuthChild? && s.requests[r].child.task in team
  }

  /** The same race seen by its clients, none of which was answered by a client-side failure. */
  lemma ExactlyOneClientRegisters(config: A.Config, prefix: seq<Action>, schedule: seq<Action>,
                                  clients: set<Tid>, team: set<Tid>, email: string)
    requires team != {} && NotYetBegun(Run(Init(config), prefix), team, email)
    requires UndisturbedRun(Run(Init(config), prefix), schedule, team, email)
    requires var n := Run(Run(Init(config), prefix), schedule);
             && AllNamed(n, team, email)
             && (forall r :: r in clients ==> AsksFor(n, r, team) && n.requests[r].answer.Some?
                                              && !ByClient(n.requests[r].call, n.requests[r].answer.value))
             && (forall t :: t in team ==> exists r :: r in clients && n.requests[r].child.task == t)
    ensures exists w :: ClientWins(Run(Run(Init(config), prefix), schedule), clients, w)
  {
    var n := Run(Run(Init(config), prefix), schedule);
    RunConcat(Init(config), prefix, schedule);
    Links.LinksHold(config, prefix + schedule);
    Replies.RepliesHold(config, prefix + schedule);
    OwnHandlersHold(config, prefix + schedule);
    hide Run, Links.LinksOk, Replies.RepliesOk, UndisturbedRun, NotYetBegun, Names;
    forall t | t in team ensures t in n.authTasks && n.authTasks[t].pc.Done? {
      var r :| r in clients && n.requests[r].child.task == t;
      AnsweredByHandler(n, r, team);
    }
    ExactlyOneRegistrationWins(config, prefix, schedule, team, email);
    var v: Tid :| OneWinner(n, team, email, v);
    var w :| w in clients && n.requests[w].child.task == v;
    forall r | r in clients
      ensures r in n.requests && n.requests[r].answer.Some?
              && n.requests[r].answer.value.status == (if r == w then 201 else 409)
    {
      AnsweredByHandler(n, r, team);
    }
    assert ClientWins(n, clients, w);
  }

  lemma AnsweredByHandler(n: System, r: Tid, team: set<Tid>)
    requires Links.LinksOk(n) && Replies.RepliesOk(n) && AsksFor(n, r, team)
    requires n.requests[r].answer.Some? && !ByClient(n.requests[r].call, n.requests[r].answer.value)
    ensures var t := n.requests[r].child.task;
            && t in n.authTasks && n.authTasks[t].pc.Done?
            && (Conflicted(n.authTasks[t].pc) ==> n.requests[r].answer.value.status == 409)
            && (n.authTasks[t].pc.reply.UserReply? ==> n.requests[r].answer.value.status == 201)
  {
  }
}
