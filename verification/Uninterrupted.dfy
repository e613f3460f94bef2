/** The methods of the service objects and the steps of the system are the same programs: a handler whose
    steps no other request interrupts leaves the system exactly as the method leaves its table. */
module Uninterrupted {
  import opened Entities
  import opened Cinema
  import A = AuthService
  import C = CatalogService
  import O = OrderService
  import AO = AuthObjects
  import CO = CatalogObjects
  import OO = OrderObjects

  function Repeated(a: Action, k: nat): seq<Action> {
    seq(k, _ => a)
  }

  lemma RunAfter(s: System, a: Action, rest: seq<Action>)
    ensures Run(s, [a] + rest) == Run(Next(s, a), rest)
  {
    RunConcat(s, [a], rest);
    assert [a][..0] == [];
    assert Run(s, [a]) == Next(s, a);
  }

  // ---- catalog ----

  lemma CatalogNext(s: System, t: Tid, env: Env)
    requires t in s.catalogTasks && C.CanStep(s.catalog, s.catalogTasks[t].call, s.catalogTasks[t].pc, env)
    ensures var after := C.Step(s.catalog, s.catalogTasks[t].call, s.catalogTasks[t].pc, env);
            Next(s, CatalogStep(t, env))
            == s.(catalog := after.db, catalogTasks := s.catalogTasks[t := s.catalogTasks[t].(pc := after.pc)])
  {
  }

  ghost predicate CatalogReady(s: System, t: Tid, env: Env) {
    t in s.catalogTasks
    && var task := s.catalogTasks[t];
    (!task.pc.Done? ==> env.id >= s.catalog.next) && (task.pc.Renaming? ==> task.call.UpdateMovie?)
  }

  ghost function AfterCatalog(s: System, t: Tid, env: Env): System
    requires CatalogReady(s, t, env)
  {
    var alone := CO.Alone(s.catalog, s.catalogTasks[t].call, s.catalogTasks[t].pc, env);
    s.(catalog := alone.db, catalogTasks := s.catalogTasks[t := s.catalogTasks[t].(pc := alone.pc)])
  }

  /** The handler on its own has one step less to go ... */
  lemma StepDescends(db: C.CatalogDb, call: C.CatalogCall, pc: C.CatalogPc, env: Env)
    requires C.CanStep(db, call, pc, env)
    ensures var after := C.Step(db, call, pc, env);
            CO.Rank(after.pc) < CO.Rank(pc) && (after.pc.Renaming? ==> call.UpdateMovie?)
    ensures !C.Step(db, call, pc, env).pc.Done? ==> C.Step(db, call, pc, env).db.next == db.next
  {
    hide C.PairTaken, C.Storable, MovieView;
  }

  /** ... to the same end. */
  lemma AloneUnfolds(db: C.CatalogDb, call: C.CatalogCall, pc: C.CatalogPc, env: Env)
    requires !pc.Done? && env.id >= db.next && (pc.Renaming? ==> call.UpdateMovie?)
    requires var after := C.Step(db, call, pc, env);
             (!after.pc.Done? ==> env.id >= after.db.next) && (after.pc.Renaming? ==> call.UpdateMovie?)
    ensures var after := C.Step(db, call, pc, env);
            CO.Alone(db, call, pc, env) == CO.Alone(after.db, call, after.pc, env)
  {
    hide C.Step;
  }

  lemma CatalogDescends(s: System, t: Tid, env: Env)
    requires CatalogReady(s, t, env) && !s.catalogTasks[t].pc.Done?
    ensures var n := Next(s, CatalogStep(t, env));
            && CatalogReady(n, t, env) && CO.Rank(n.catalogTasks[t].pc) < CO.Rank(s.catalogTasks[t].pc)
            && AfterCatalog(n, t, env) == AfterCatalog(s, t, env)
  {
    var task := s.catalogTasks[t];
    StepDescends(s.catalog, task.call, task.pc, env);
    AloneUnfolds(s.catalog, task.call, task.pc, env);
    CatalogNext(s, t, env);
    hide Next, CO.Alone, C.Step, C.CanStep, CO.Rank, AfterCatalog;
    AfterSteps(s, t, C.Step(s.catalog, task.call, task.pc, env), env);
  }

  lemma AfterSteps(s: System, t: Tid, after: After<C.CatalogDb, C.CatalogPc>, env: Env)
    requires CatalogReady(s, t, env)
    requires var n := s.(catalog := after.db, catalogTasks := s.catalogTasks[t := s.catalogTasks[t].(pc := after.pc)]);
             CatalogReady(n, t, env)
             && CO.Alone(s.catalog, s.catalogTasks[t].call, s.catalogTasks[t].pc, env)
                == CO.Alone(after.db, s.catalogTasks[t].call, after.pc, env)
    ensures var n := s.(catalog := after.db, catalogTasks := s.catalogTasks[t := s.catalogTasks[t].(pc := after.pc)]);
            AfterCatalog(n, t, env) == AfterCatalog(s, t, env)
  {
    hide CO.Alone, CO.Rank;
  }

  lemma CatalogIsDone(s: System, t: Tid, env: Env)
    requires CatalogReady(s, t, env) && s.catalogTasks[t].pc.Done?
    ensures Next(s, CatalogStep(t, env)) == s == AfterCatalog(s, t, env)
  {
  }

  /** MoviesService: create, update and remove. */
  lemma {:induction false} CatalogUninterrupted(s: System, t: Tid, env: Env, k: nat)
    requires CatalogReady(s, t, env) && CO.Rank(s.catalogTasks[t].pc) <= k
    ensures Run(s, Repeated(CatalogStep(t, env), k)) == AfterCatalog(s, t, env)
    decreases k
  {
    var a := CatalogStep(t, env);
    if s.catalogTasks[t].pc.Done? {
      CatalogIsDone(s, t, env);
    } else {
      CatalogDescends(s, t, env);
    }
    hide Next, AfterCatalog, CatalogReady;
    if k != 0 {
      assert Repeated(a, k) == [a] + Repeated(a, k - 1);
      RunAfter(s, a, Repeated(a, k - 1));
      CatalogUninterrupted(Next(s, a), t, env, k - 1);
    }
  }

  // ---- orders ----

  lemma OrderNext(s: System, t: Tid, env: Env)
    requires t in s.orderTasks && O.CanStep(s.orders, s.orderTasks[t].call, s.orderTasks[t].pc, env)
    ensures var after := O.Step(s.orders, s.orderTasks[t].call, s.orderTasks[t].pc, env);
            Next(s, OrderStep(t, env))
            == s.(orders := after.db, orderTasks := s.orderTasks[t := s.orderTasks[t].(pc := after.pc)])
  {
  }

  /** OrdersService: cancel. */
  lemma CancelUninterrupted(s: System, t: Tid, env: Env)
    requires t in s.orderTasks && s.orderTasks[t].call.CancelUserOrder? && s.orderTasks[t].pc.Start?
    ensures var alone := OO.CancelAlone(s.orders, s.orderTasks[t].call, env);
            Run(s, [OrderStep(t, env), OrderStep(t, env)])
            == s.(orders := alone.db, orderTasks := s.orderTasks[t := s.orderTasks[t].(pc := alone.pc)])
  {
    var a := OrderStep(t, env);
    assert [a, a] == [a] + [a] && [a] == [a] + [];
    RunAfter(s, a, [a]);
    var s1 := Next(s, a);
    RunAfter(s1, a, []);
    OrderNext(s, t, env);
    if s1.orderTasks[t].pc.Loaded? {
      OrderNext(s1, t, env);
    } else {
      assert s1.orderTasks[t].pc.Done?;
      assert Next(s1, a) == s1;
    }
    hide Next;
  }

  /** A create asks the catalog under the name c, and nothing else happens until it is done. */
  ghost predicate AboutToOrder(s: System, t: Tid, c: Tid) {
    && t in s.orderTasks && O.AsksCatalog(s.orderTasks[t].call) && s.orderTasks[t].pc.Start?
    && c !in s.authTasks && c !in s.catalogTasks && c !in s.orderTasks
  }

  /** What findOne answers for the order's movie. */
  ghost function MovieReplyFor(s: System, call: O.OrderCall): Reply
    requires O.AsksCatalog(call)
  {
    C.Begin(s.catalog.rows, C.FindOneMovie(call.movieId)).reply
  }

  /** The catalog's handler for the order's message, when it is done. */
  ghost function AnsweredTask(s: System, call: O.OrderCall): CatalogTask
    requires O.AsksCatalog(call)
  {
    CatalogTask(FromOrders(call.userId), C.FindOneMovie(call.movieId), C.Done(MovieReplyFor(s, call)))
  }

  lemma FoundAtOnce(s: System, call: O.OrderCall, env: Env)
    requires O.AsksCatalog(call)
    ensures C.CanStep(s.catalog, C.FindOneMovie(call.movieId), C.Start, env)
    ensures C.Step(s.catalog, C.FindOneMovie(call.movieId), C.Start, env)
            == After(s.catalog, C.Done(MovieReplyFor(s, call)))
  {
  }

  lemma AskAndHear(s: System, t: Tid, c: Tid, env: Env)
    requires AboutToOrder(s, t, c)
    ensures var call := s.orderTasks[t].call;
            Next(Next(Next(s, AskCatalog(t, c)), CatalogStep(c, env)), MovieArrives(t))
            == s.(catalogTasks := s.catalogTasks[c := AnsweredTask(s, call)],
                  orderTasks := s.orderTasks[t := s.orderTasks[t]
                    .(pc := OO.Heard(call, OO.Answered(MovieReplyFor(s, call))))])
  {
    var call := s.orderTasks[t].call;
    var s2 := Next(Next(s, AskCatalog(t, c)), CatalogStep(c, env));
    AskAndFind(s, t, c, env);
    hide Next, O.MovieArrived, MovieReplyFor;
    HearNext(s2, t);
    assert s2.orderTasks[t := s.orderTasks[t].(pc := OO.Heard(call, OO.Answered(MovieReplyFor(s, call))))]
           == s.orderTasks[t := s.orderTasks[t].(pc := OO.Heard(call, OO.Answered(MovieReplyFor(s, call))))];
  }

  lemma AskAndFind(s: System, t: Tid, c: Tid, env: Env)
    requires AboutToOrder(s, t, c)
    ensures Next(Next(s, AskCatalog(t, c)), CatalogStep(c, env))
            == s.(catalogTasks := s.catalogTasks[c := AnsweredTask(s, s.orderTasks[t].call)],
                  orderTasks := s.orderTasks[t := s.orderTasks[t].(pc := O.AwaitingMovie(c))])
  {
    var call := s.orderTasks[t].call;
    AskNext(s, t, c);
    FoundAtOnce(s, call, env);
    hide Next, MovieReplyFor, C.Step, C.CanStep;
    CatalogNext(Next(s, AskCatalog(t, c)), c, env);
    var s2 := Next(Next(s, AskCatalog(t, c)), CatalogStep(c, env));
    assert s2.catalogTasks == s.catalogTasks[c := AnsweredTask(s, call)];
  }

  lemma AskNext(s: System, t: Tid, c: Tid)
    requires AboutToOrder(s, t, c)
    ensures var call := s.orderTasks[t].call;
            Next(s, AskCatalog(t, c))
            == s.(orderTasks := s.orderTasks[t := s.orderTasks[t].(pc := O.AwaitingMovie(c))],
                  catalogTasks := s.catalogTasks[c := CatalogTask(FromOrders(call.userId),
                                                                  C.FindOneMovie(call.movieId), C.Start)])
  {
  }

  lemma HearNext(s: System, t: Tid)
    requires AwaitsMovie(s, t) && ReplyOf(s, CatalogChild(s.orderTasks[t].pc.child)).Some?
    ensures Next(s, MovieArrives(t))
            == s.(orderTasks := s.orderTasks[t := s.orderTasks[t].(pc :=
                    O.MovieArrived(s.orderTasks[t].call, ReplyOf(s, CatalogChild(s.orderTasks[t].pc.child)).value))])
  {
  }

  lemma CreateEnds(db: O.OrderDb, call: O.OrderCall, sent: OO.Sent, env: Env)
    requires O.AsksCatalog(call) && OO.Writable(db, call, sent, env)
    ensures var pc := OO.Heard(call, sent);
            && (pc.Done? || O.CanStep(db, call, pc, env))
            && OO.CreateAlone(db, call, sent, env) == if pc.Done? then After(db, pc) else O.Step(db, call, pc, env)
  {
  }

  lemma LastOrderStep(s: System, t: Tid, env: Env)
    requires t in s.orderTasks
    requires s.orderTasks[t].pc.Done? || O.CanStep(s.orders, s.orderTasks[t].call, s.orderTasks[t].pc, env)
    ensures var task, n := s.orderTasks[t], Next(s, OrderStep(t, env));
            var after := if task.pc.Done? then After(s.orders, task.pc) else O.Step(s.orders, task.call, task.pc, env);
            n == s.(orders := after.db, orderTasks := s.orderTasks[t := task.(pc := after.pc)])
  {
  }

  /** OrdersService: create, with the catalog's answer of the moment; besides the order and its handler there is
      only the catalog's handler for the order's message. */
  lemma CreateUninterrupted(s: System, t: Tid, c: Tid, env: Env)
    requires AboutToOrder(s, t, c)
    requires OO.Writable(s.orders, s.orderTasks[t].call, OO.Answered(MovieReplyFor(s, s.orderTasks[t].call)), env)
    ensures var call := s.orderTasks[t].call;
            var alone := OO.CreateAlone(s.orders, call, OO.Answered(MovieReplyFor(s, call)), env);
            var n := Run(s, [AskCatalog(t, c), CatalogStep(c, env), MovieArrives(t), OrderStep(t, env)]);
            n == s.(orders := alone.db, catalogTasks := s.catalogTasks[c := AnsweredTask(s, call)],
                    orderTasks := s.orderTasks[t := s.orderTasks[t].(pc := alone.pc)])
  {
    var call := s.orderTasks[t].call;
    hide Next, Run, MovieReplyFor, OO.CreateAlone, OO.Writable, OO.Heard, O.Step, O.CanStep;
    RunFour(s, AskCatalog(t, c), CatalogStep(c, env), MovieArrives(t), OrderStep(t, env));
    AskAndHear(s, t, c, env);
    CreateEnds(s.orders, call, OO.Answered(MovieReplyFor(s, call)), env);
    LastOrderStep(Next(Next(Next(s, AskCatalog(t, c)), CatalogStep(c, env)), MovieArrives(t)), t, env);
  }

  // ---- auth ----

  lemma AuthNext(s: System, t: Tid, env: Env)
    requires t in s.authTasks && A.CanStep(s.auth, s.authTasks[t].call, s.authTasks[t].pc, env)
    ensures var after := A.Step(s.config, s.auth, s.authTasks[t].call, s.authTasks[t].pc, env);
            Next(s, AuthStep(t, env))
            == s.(auth := after.db, authTasks := s.authTasks[t := s.authTasks[t].(pc := after.pc)])
  {
  }

  /** AuthService: register, login and ensureAdminAccount. */
  lemma AuthUninterrupted(s: System, t: Tid, env: Env)
    requires t in s.authTasks && s.authTasks[t].pc.Start? && env.id >= s.auth.next
    requires var pc := A.Begin(s.config, s.auth.rows, s.authTasks[t].call);
             pc.Verifying? ==> s.authTasks[t].call.Login? && A.CanSign(s.auth, pc.user, env.token, env.expiry)
    ensures var alone := AO.Alone(s.config, s.auth, s.authTasks[t].call, env);
            Run(s, [AuthStep(t, env), AuthStep(t, env)])
            == s.(auth := alone.db, authTasks := s.authTasks[t := s.authTasks[t].(pc := alone.pc)])
  {
    var a := AuthStep(t, env);
    assert [a, a] == [a] + [a] && [a] == [a] + [];
    RunAfter(s, a, [a]);
    var s1 := Next(s, a);
    RunAfter(s1, a, []);
    AuthNext(s, t, env);
    if s1.authTasks[t].pc.Done? {
      assert Next(s1, a) == s1;
    } else {
      AuthNext(s1, t, env);
    }
    hide Next, A.Begin;
  }
}
