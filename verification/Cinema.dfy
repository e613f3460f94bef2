/** The whole system: three databases, the gateway and the three services, with any number of requests in
    flight. One action is one step of one request, up to its next await; any request may take the next
    step, and a caller that gives up leaves its callee running. An action that is not enabled does nothing. */
module Cinema {
  import opened Wrappers
  import opened RpcErrors
  import opened Entities
  import opened Gateway
  import A = AuthService
  import C = CatalogService
  import O = OrderService

  /** Names one HTTP request, or one message being handled by one service. */
  type Tid = nat

  datatype Child = NoChild | AuthChild(task: Tid) | CatalogChild(task: Tid) | OrderChild(task: Tid)

  /** An HTTP request: who it acts for, the RPC sent on its behalf, and its one answer. */
  datatype Request = Request(call: HttpCall, user: Option<AuthUser>, child: Child, answer: Option<Answer>)

  datatype AuthTask = AuthTask(call: A.AuthCall, pc: A.AuthPc)

  /** Who sent a catalog message: the gateway for a request, or the order service for a user's order. */
  datatype Caller = FromGateway(request: Tid, user: Option<AuthUser>) | FromOrders(userId: int)

  datatype CatalogTask = CatalogTask(caller: Caller, call: C.CatalogCall, pc: C.CatalogPc)

  datatype OrderTask = OrderTask(request: Tid, call: O.OrderCall, pc: O.OrderPc)

  datatype System = System(
    config: A.Config,
    auth: A.AuthDb,
    catalog: C.CatalogDb,
    orders: O.OrderDb,
    requests: map<Tid, Request>,
    authTasks: map<Tid, AuthTask>,
    catalogTasks: map<Tid, CatalogTask>,
    orderTasks: map<Tid, OrderTask>)

  function Init(config: A.Config): System {
    System(config, A.AuthDb(map[], 1, map[]), C.CatalogDb(map[], 1), O.OrderDb(map[], 1),
           map[], map[], map[], map[])
  }

  datatype Action =
    | Boot(task: Tid)                                       // the auth service starts
    | Arrive(request: Tid, header: Option<string>, now: int, call: HttpCall, task: Tid)
    | AuthStep(task: Tid, env: Env)
    | CatalogStep(task: Tid, env: Env)
    | OrderStep(task: Tid, env: Env)
    | AskCatalog(task: Tid, child: Tid)                     // an order create sends its catalog message
    | MovieArrives(task: Tid)                               // and hears from the catalog
    | MovieFails(task: Tid, fault: Fault)                   // or stops waiting
    | ReplyArrives(request: Tid)                            // the gateway hears from a service
    | RpcFails(request: Tid, fault: Fault)                  // or stops waiting

  /** Timeouts and transport errors; the callee is not told. */
  predicate ClientSide(fault: Fault) {
    !fault.Remote?
  }

  // ---- arrival ----

  ghost function Admit(s: System, header: Option<string>, now: int, call: HttpCall): Guarded<Option<AuthUser>> {
    match Guards(s.auth.issued, header, now, call)
    case Deny(e) => Deny(e)
    case Pass(user) => if ValidBody(call) then Pass(user) else Deny(BadRequest(["invalid body"]))
  }

  lemma AdmitIdentifies(s: System, header: Option<string>, now: int, call: HttpCall)
    ensures var g := Admit(s, header, now, call);
            g.Pass? && NeedsToken(call) ==> g.value.Some?
  {
  }

  ghost predicate CanArrive(s: System, a: Action)
    requires a.Arrive?
  {
    && a.request !in s.requests
    && a.task !in s.authTasks && a.task !in s.catalogTasks && a.task !in s.orderTasks
  }

  /** The request is let in: its RPC is sent, and a handler starts. */
  function Admitted(s: System, a: Action, user: Option<AuthUser>, rpc: Rpc): System
    requires a.Arrive?
  {
    match rpc
    case ToAuth(call) =>
      s.(requests := s.requests[a.request := Request(a.call, user, AuthChild(a.task), None)],
         authTasks := s.authTasks[a.task := AuthTask(call, A.Start)])
    case ToCatalog(call) =>
      s.(requests := s.requests[a.request := Request(a.call, user, CatalogChild(a.task), None)],
         catalogTasks := s.catalogTasks[a.task := CatalogTask(FromGateway(a.request, user), call, C.Start)])
    case ToOrders(call) =>
      s.(requests := s.requests[a.request := Request(a.call, user, OrderChild(a.task), None)],
         orderTasks := s.orderTasks[a.task := OrderTask(a.request, call, O.Start)])
  }

  ghost function Arrived(s: System, a: Action): System
    requires a.Arrive?
  {
    var g := Admit(s, a.header, a.now, a.call);
    AdmitIdentifies(s, a.header, a.now, a.call);
    match g
    case Deny(e) =>
      s.(requests := s.requests[a.request := Request(a.call, None, NoChild, Some(AnswerException(e)))])
    case Pass(user) => Admitted(s, a, user, Route(a.call, user))
  }

  // ---- replies ----

  /** The reply of the service a request waits for, once there is one. */
  function ReplyOf(s: System, child: Child): Option<Reply> {
    match child
    case NoChild => None
    case AuthChild(t) => if t in s.authTasks && s.authTasks[t].pc.Done? then Some(s.authTasks[t].pc.reply) else None
    case CatalogChild(t) =>
      if t in s.catalogTasks && s.catalogTasks[t].pc.Done? then Some(s.catalogTasks[t].pc.reply) else None
    case OrderChild(t) => if t in s.orderTasks && s.orderTasks[t].pc.Done? then Some(s.orderTasks[t].pc.reply) else None
  }

  predicate Waiting(s: System, r: Tid) {
    r in s.requests && s.requests[r].answer.None? && !s.requests[r].child.NoChild?
  }

  predicate AwaitsMovie(s: System, t: Tid) {
    t in s.orderTasks && s.orderTasks[t].pc.AwaitingMovie? && s.orderTasks[t].call.CreateOrder?
  }

  // ---- the transition ----

  ghost predicate Enabled(s: System, a: Action) {
    match a
    case Boot(t) => t !in s.authTasks && t !in s.catalogTasks && t !in s.orderTasks
    case Arrive(_, _, _, _, _) => CanArrive(s, a)
    case AuthStep(t, env) => t in s.authTasks && A.CanStep(s.auth, s.authTasks[t].call, s.authTasks[t].pc, env)
    case CatalogStep(t, env) =>
      t in s.catalogTasks && C.CanStep(s.catalog, s.catalogTasks[t].call, s.catalogTasks[t].pc, env)
    case OrderStep(t, env) => t in s.orderTasks && O.CanStep(s.orders, s.orderTasks[t].call, s.orderTasks[t].pc, env)
    case AskCatalog(t, child) =>
      && t in s.orderTasks && s.orderTasks[t].pc.Start? && O.AsksCatalog(s.orderTasks[t].call)
      && child !in s.authTasks && child !in s.catalogTasks && child !in s.orderTasks
    case MovieArrives(t) =>
      && AwaitsMovie(s, t)
      && ReplyOf(s, CatalogChild(s.orderTasks[t].pc.child)).Some?
    case MovieFails(t, fault) => AwaitsMovie(s, t) && ClientSide(fault)
    case ReplyArrives(r) => Waiting(s, r) && ReplyOf(s, s.requests[r].child).Some?
    case RpcFails(r, fault) => Waiting(s, r) && ClientSide(fault)
  }

  function SetOrderPc(s: System, t: Tid, pc: O.OrderPc): System
    requires t in s.orderTasks
  {
    s.(orderTasks := s.orderTasks[t := s.orderTasks[t].(pc := pc)])
  }

  function SetAnswer(s: System, r: Tid, answer: Answer): System
    requires r in s.requests
  {
    s.(requests := s.requests[r := s.requests[r].(answer := Some(answer))])
  }

  ghost function Effect(s: System, a: Action): System
    requires Enabled(s, a)
  {
    match a
    case Boot(t) => s.(authTasks := s.authTasks[t := AuthTask(A.EnsureAdminAccount, A.Start)])
    case Arrive(_, _, _, _, _) => Arrived(s, a)
    case AuthStep(t, env) =>
      var task := s.authTasks[t];
      var after := A.Step(s.config, s.auth, task.call, task.pc, env);
      s.(auth := after.db, authTasks := s.authTasks[t := task.(pc := after.pc)])
    case CatalogStep(t, env) =>
      var task := s.catalogTasks[t];
      var after := C.Step(s.catalog, task.call, task.pc, env);
      s.(catalog := after.db, catalogTasks := s.catalogTasks[t := task.(pc := after.pc)])
    case OrderStep(t, env) =>
      var task := s.orderTasks[t];
      var after := O.Step(s.orders, task.call, task.pc, env);
      s.(orders := after.db, orderTasks := s.orderTasks[t := task.(pc := after.pc)])
    case AskCatalog(t, child) =>
      var task := s.orderTasks[t];
      SetOrderPc(s, t, O.AwaitingMovie(child))
        .(catalogTasks := s.catalogTasks[child := CatalogTask(FromOrders(task.call.userId),
                                                              C.FindOneMovie(task.call.movieId), C.Start)])
    case MovieArrives(t) =>
      var task := s.orderTasks[t];
      SetOrderPc(s, t, O.MovieArrived(task.call, ReplyOf(s, CatalogChild(task.pc.child)).value))
    case MovieFails(t, fault) => SetOrderPc(s, t, O.MovieFailed(fault))
    case ReplyArrives(r) =>
      SetAnswer(s, r, AnswerReply(s.requests[r].call, ReplyOf(s, s.requests[r].child).value))
    case RpcFails(r, fault) => SetAnswer(s, r, AnswerFault(s.requests[r].call, fault))
  }

  ghost function Next(s: System, a: Action): System {
    if Enabled(s, a) then Effect(s, a) else s
  }

  /** The state after a whole schedule. */
  ghost function Run(s: System, schedule: seq<Action>): System {
    if schedule == [] then s
    else Next(Run(s, schedule[..|schedule| - 1]), schedule[|schedule| - 1])
  }

  /** Every action of the schedule is enabled when its turn comes. */
  ghost predicate Proper(s: System, schedule: seq<Action>) {
    schedule != [] ==>
      var before := schedule[..|schedule| - 1];
      Proper(s, before) && Enabled(Run(s, before), schedule[|schedule| - 1])
  }

  lemma {:induction false} RunConcat(s: System, first: seq<Action>, second: seq<Action>)
    ensures Run(s, first + second) == Run(Run(s, first), second)
  {
    if second == [] {
      assert first + second == first;
    } else {
      var n := |second| - 1;
      RunConcat(s, first, second[..n]);
      assert (first + second)[..|first + second| - 1] == first + second[..n];
    }
  }

  lemma RunOne(s: System, a: Action)
    ensures Run(s, [a]) == Next(s, a)
  {
    assert [a][..0] == [];
    hide Next;
  }

  lemma RunFour(s: System, a: Action, b: Action, c: Action, d: Action)
    ensures Run(s, [a, b, c, d]) == Next(Next(Next(Next(s, a), b), c), d)
  {
    assert [a, b, c, d][..3] == [a, b, c] && [a, b, c][..2] == [a, b] && [a, b][..1] == [a] && [a][..0] == [];
    hide Next;
    assert Run(s, [a]) == Next(s, a);
    assert Run(s, [a, b]) == Next(Run(s, [a]), b);
    assert Run(s, [a, b, c]) == Next(Run(s, [a, b]), c);
  }
}
