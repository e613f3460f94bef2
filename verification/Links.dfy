/** Who waits for whom: requests, handlers and answers fit together in every reachable state. */
module Links {
  import opened Wrappers
  import opened RpcErrors
  import opened Entities
  import opened Gateway
  import opened Cinema
  import A = AuthService
  import C = CatalogService
  import O = OrderService

  /** The handler was started for request r and handles the RPC its route sends. */
  ghost predicate ChildOk(s: System, r: Tid, request: Request) {
    match request.child
    case NoChild => request.answer.Some? && request.answer.value.status in {400, 401, 403}
    case AuthChild(t) =>
      && t in s.authTasks && !IsOrderCall(request.call)
      && (NeedsToken(request.call) ==> request.user.Some?)
      && Route(request.call, request.user) == ToAuth(s.authTasks[t].call)
    case CatalogChild(t) =>
      && t in s.catalogTasks && s.catalogTasks[t].caller == FromGateway(r, request.user)
      && !IsOrderCall(request.call)
      && (NeedsToken(request.call) ==> request.user.Some?)
      && Route(request.call, request.user) == ToCatalog(s.catalogTasks[t].call)
    case OrderChild(t) =>
      && t in s.orderTasks && s.orderTasks[t].request == r
      && IsOrderCall(request.call) && request.user.Some?
      && Route(request.call, request.user) == ToOrders(s.orderTasks[t].call)
  }

  /** An answer is the relayed reply of the handler, or one of the three client-side failures. */
  ghost predicate AnswerOk(s: System, request: Request) {
    request.answer.Some? && !request.child.NoChild? ==>
      || ByClient(request.call, request.answer.value)
      || (ReplyOf(s, request.child).Some?
          && request.answer.value == AnswerReply(request.call, ReplyOf(s, request.child).value))
  }

  ghost predicate CallerOk(s: System, t: Tid, task: CatalogTask) {
    match task.caller
    case FromGateway(r, user) => r in s.requests && s.requests[r].child == CatalogChild(t) && s.requests[r].user == user
    case FromOrders(_) => task.call.FindOneMovie?
  }

  ghost predicate OrderTaskOk(s: System, t: Tid, task: OrderTask) {
    && task.request in s.requests && s.requests[task.request].child == OrderChild(t)
    && (task.pc.AwaitingMovie? ==>
          && O.AsksCatalog(task.call)
          && task.pc.child in s.catalogTasks
          && s.catalogTasks[task.pc.child].caller == FromOrders(task.call.userId)
          && s.catalogTasks[task.pc.child].call == C.FindOneMovie(task.call.movieId))
    && (task.pc.Saving? ==> O.AsksCatalog(task.call))
    && (task.pc.Loaded? ==> task.call.CancelUserOrder?)
  }

  ghost predicate LinksOk(s: System) {
    && (forall r :: r in s.requests ==> ChildOk(s, r, s.requests[r]) && AnswerOk(s, s.requests[r]))
    && (forall t :: t in s.catalogTasks ==> CallerOk(s, t, s.catalogTasks[t]))
    && (forall t :: t in s.orderTasks ==> OrderTaskOk(s, t, s.orderTasks[t]))
  }

  // What a step does to the bookkeeping: nothing is forgotten, calls and callers never change, a
  // handler that is done stays as it is, and so does a request that has its answer.

  ghost predicate RequestsGo(m: map<Tid, Request>, n: map<Tid, Request>) {
    forall r :: r in m ==>
      && r in n && n[r] == m[r].(answer := n[r].answer)
      && (m[r].answer.Some? ==> n[r] == m[r])
  }

  ghost predicate AuthTasksGo(m: map<Tid, AuthTask>, n: map<Tid, AuthTask>) {
    forall t :: t in m ==> t in n && n[t] == m[t].(pc := n[t].pc) && (m[t].pc.Done? ==> n[t] == m[t])
  }

  ghost predicate CatalogTasksGo(m: map<Tid, CatalogTask>, n: map<Tid, CatalogTask>) {
    forall t :: t in m ==> t in n && n[t] == m[t].(pc := n[t].pc) && (m[t].pc.Done? ==> n[t] == m[t])
  }

  ghost predicate OrderTasksGo(m: map<Tid, OrderTask>, n: map<Tid, OrderTask>) {
    forall t :: t in m ==> t in n && n[t] == m[t].(pc := n[t].pc) && (m[t].pc.Done? ==> n[t] == m[t])
  }

  ghost predicate Continues(s: System, n: System) {
    && RequestsGo(s.requests, n.requests)
    && AuthTasksGo(s.authTasks, n.authTasks)
    && CatalogTasksGo(s.catalogTasks, n.catalogTasks)
    && OrderTasksGo(s.orderTasks, n.orderTasks)
  }

  /** An arrival adds one request and at most one handler, which has not begun, and changes nothing else. */
  ghost predicate Adds(s: System, a: Action, n: System)
    requires a.Arrive?
  {
    && a.request !in s.requests && a.task !in s.authTasks && a.task !in s.catalogTasks && a.task !in s.orderTasks
    && n == s.(requests := n.requests, authTasks := n.authTasks, catalogTasks := n.catalogTasks,
               orderTasks := n.orderTasks)
    && a.request in n.requests && n.requests == s.requests[a.request := n.requests[a.request]]
    && (n.requests[a.request].child.AuthChild? ==> n.requests[a.request].child.task == a.task)
    && (n.authTasks == s.authTasks
        || (a.task in n.authTasks && n.authTasks[a.task].pc.Start?
            && n.authTasks == s.authTasks[a.task := n.authTasks[a.task]]))
    && (n.catalogTasks == s.catalogTasks
        || (a.task in n.catalogTasks && n.catalogTasks[a.task].pc.Start? && n.orderTasks == s.orderTasks
            && n.catalogTasks == s.catalogTasks[a.task := n.catalogTasks[a.task]]))
    && (n.orderTasks == s.orderTasks
        || (a.task in n.orderTasks && n.orderTasks[a.task].pc.Start?
            && n.orderTasks == s.orderTasks[a.task := n.orderTasks[a.task]]))
  }

  lemma AdmittedAdds(s: System, a: Action, user: Option<AuthUser>, rpc: Rpc)
    requires a.Arrive? && CanArrive(s, a)
    ensures Adds(s, a, Admitted(s, a, user, rpc))
  {
  }

  lemma ArrivalAdds(s: System, a: Action)
    requires a.Arrive? && Enabled(s, a)
    ensures Adds(s, a, Effect(s, a))
  {
    AdmitIdentifies(s, a.header, a.now, a.call);
    var g := Admit(s, a.header, a.now, a.call);
    hide Admit, Route, Admitted, AnswerException;
    if g.Pass? {
      AdmittedAdds(s, a, g.value, Route(a.call, g.value));
      hide Adds;
    }
  }

  lemma ArrivalContinues(s: System, a: Action)
    requires a.Arrive? && Enabled(s, a)
    ensures Continues(s, Effect(s, a))
  {
    ArrivalAdds(s, a);
    hide Effect, Enabled;
  }

  lemma ServiceStepContinues(s: System, a: Action)
    requires Enabled(s, a) && (a.Boot? || a.AuthStep? || a.CatalogStep? || a.OrderStep?)
    ensures Continues(s, Effect(s, a))
  {
  }

  lemma AskContinues(s: System, a: Action)
    requires Enabled(s, a) && a.AskCatalog?
    ensures Continues(s, Effect(s, a))
  {
    hide O.AsksCatalog;
  }

  lemma HearContinues(s: System, a: Action)
    requires Enabled(s, a) && (a.MovieArrives? || a.MovieFails?)
    ensures Continues(s, Effect(s, a))
  {
    hide ReplyOf, O.MovieArrived, O.MovieFailed;
  }

  lemma AnswerContinues(s: System, a: Action)
    requires Enabled(s, a) && (a.ReplyArrives? || a.RpcFails?)
    ensures Continues(s, Effect(s, a))
  {
  }

  lemma StepContinues(s: System, a: Action)
    ensures Continues(s, Next(s, a))
  {
    if Enabled(s, a) {
      hide Effect;
      if a.Arrive? {
        ArrivalContinues(s, a);
      } else if a.Boot? || a.AuthStep? || a.CatalogStep? || a.OrderStep? {
        ServiceStepContinues(s, a);
      } else if a.AskCatalog? {
        AskContinues(s, a);
      } else if a.MovieArrives? || a.MovieFails? {
        HearContinues(s, a);
      } else {
        AnswerContinues(s, a);
      }
    }
  }

  /** What was in order before a step and was not touched by it stays in order. */
  lemma FrameRequest(s: System, n: System, r: Tid)
    requires Continues(s, n) && r in s.requests && n.requests[r] == s.requests[r]
    requires ChildOk(s, r, s.requests[r]) && AnswerOk(s, s.requests[r])
    ensures ChildOk(n, r, n.requests[r]) && AnswerOk(n, n.requests[r])
  {
  }

  lemma FrameCatalogTask(s: System, n: System, t: Tid)
    requires Continues(s, n) && t in s.catalogTasks && CallerOk(s, t, s.catalogTasks[t])
    ensures CallerOk(n, t, n.catalogTasks[t])
  {
  }

  lemma FrameOrderTask(s: System, n: System, t: Tid)
    requires Continues(s, n) && t in s.orderTasks && n.orderTasks[t].pc == s.orderTasks[t].pc
    requires OrderTaskOk(s, t, s.orderTasks[t])
    ensures OrderTaskOk(n, t, n.orderTasks[t])
  {
  }

  // ---- what a step touches ----

  predicate TouchesRequest(a: Action, r: Tid) {
    (a.Arrive? || a.ReplyArrives? || a.RpcFails?) && a.request == r
  }

  predicate TouchesCatalogTask(a: Action, t: Tid) {
    ((a.Arrive? || a.CatalogStep?) && a.task == t) || (a.AskCatalog? && a.child == t)
  }

  predicate TouchesOrderTask(a: Action, t: Tid) {
    (a.Arrive? || a.OrderStep? || a.AskCatalog? || a.MovieArrives? || a.MovieFails?) && a.task == t
  }

  /** Requests and handlers that the action does not name are as before. */
  ghost predicate OthersAlone(s: System, a: Action, n: System) {
    && (forall r :: r in n.requests && !TouchesRequest(a, r) ==> r in s.requests && n.requests[r] == s.requests[r])
    && (forall t :: t in n.catalogTasks && !TouchesCatalogTask(a, t) ==>
          t in s.catalogTasks && n.catalogTasks[t] == s.catalogTasks[t])
    && (forall t :: t in n.orderTasks && !TouchesOrderTask(a, t) ==>
          t in s.orderTasks && n.orderTasks[t] == s.orderTasks[t])
  }

  lemma ArrivalLeavesOthers(s: System, a: Action)
    requires a.Arrive? && Enabled(s, a)
    ensures OthersAlone(s, a, Effect(s, a))
  {
    ArrivalAdds(s, a);
    hide Effect, Enabled;
  }

  lemma LeavesOthers(s: System, a: Action)
    requires !a.Arrive? && Enabled(s, a)
    ensures OthersAlone(s, a, Effect(s, a))
  {
    hide A.Step, C.Step, O.Step, A.CanStep, C.CanStep, O.CanStep, O.MovieArrived, O.MovieFailed, ReplyOf, AnswerReply,
      AnswerFault;
  }

  lemma StepLeavesOthers(s: System, a: Action)
    ensures OthersAlone(s, a, Next(s, a))
  {
    if Enabled(s, a) {
      hide Effect;
      if a.Arrive? {
        ArrivalLeavesOthers(s, a);
      } else {
        LeavesOthers(s, a);
      }
    }
  }

  /** The handlers that appear have not begun. */
  ghost predicate NewcomersBegin(s: System, n: System) {
    && (forall t :: t in n.authTasks && t !in s.authTasks ==> n.authTasks[t].pc.Start?)
    && (forall t :: t in n.catalogTasks && t !in s.catalogTasks ==> n.catalogTasks[t].pc.Start?)
    && (forall t :: t in n.orderTasks && t !in s.orderTasks ==> n.orderTasks[t].pc.Start?)
  }

  lemma NewcomersStart(s: System, a: Action)
    ensures NewcomersBegin(s, Next(s, a))
  {
    if Enabled(s, a) && a.Arrive? {
      ArrivalAdds(s, a);
      hide Effect;
    }
    hide A.Step, C.Step, O.Step, A.CanStep, C.CanStep, O.CanStep, O.MovieArrived, O.MovieFailed, ReplyOf, AnswerReply,
      AnswerFault;
  }

  /** Only its own steps advance an auth handler. */
  lemma AuthTasksStay(s: System, a: Action)
    requires !(a.AuthStep? && Enabled(s, a))
    ensures forall t :: t in s.authTasks ==> t in Next(s, a).authTasks && Next(s, a).authTasks[t] == s.authTasks[t]
  {
  }

  /** A handler that is not there takes no step. */
  lemma AbsentStepsDoNothing(s: System, a: Action)
    requires (a.AuthStep? && a.task !in s.authTasks) || (a.CatalogStep? && a.task !in s.catalogTasks)
    ensures Next(s, a) == s
  {
  }

  // ---- the touched ones ----

  lemma DenialStatus(s: System, header: Option<string>, now: int, call: HttpCall)
    ensures var g := Admit(s, header, now, call);
            g.Deny? ==> AnswerException(g.exception).status in {400, 401, 403}
  {
  }

  /** Everything the action names is in order afterwards. */
  ghost predicate TouchedOk(a: Action, n: System) {
    && (forall r :: r in n.requests && TouchesRequest(a, r) ==>
          ChildOk(n, r, n.requests[r]) && AnswerOk(n, n.requests[r]))
    && (forall t :: t in n.catalogTasks && TouchesCatalogTask(a, t) ==> CallerOk(n, t, n.catalogTasks[t]))
    && (forall t :: t in n.orderTasks && TouchesOrderTask(a, t) ==> OrderTaskOk(n, t, n.orderTasks[t]))
  }

  lemma ArrivalTouchedOk(s: System, a: Action)
    requires a.Arrive? && Enabled(s, a)
    ensures TouchedOk(a, Effect(s, a))
  {
    AdmitIdentifies(s, a.header, a.now, a.call);
    DenialStatus(s, a.header, a.now, a.call);
    hide Admit;
    var g := Admit(s, a.header, a.now, a.call);
    var n := Effect(s, a);
    if g.Pass? {
      RouteKind(a.call, g.value);
      AdmittedOk(s, a, n, Route(a.call, g.value), g.value);
    } else {
      assert ChildOk(n, a.request, n.requests[a.request]) && AnswerOk(n, n.requests[a.request]);
      hide ChildOk, AnswerOk, CallerOk, OrderTaskOk, Enabled;
      assert n.catalogTasks == s.catalogTasks && n.orderTasks == s.orderTasks;
      NewTask(s, a);
    }
  }

  lemma NewTask(s: System, a: Action)
    requires a.Arrive? && Enabled(s, a)
    ensures a.task !in s.catalogTasks && a.task !in s.orderTasks
  {
  }

  lemma AdmittedOk(s: System, a: Action, n: System, rpc: Rpc, user: Option<AuthUser>)
    requires a.Arrive? && a.task !in s.catalogTasks && a.task !in s.orderTasks
    requires (NeedsToken(a.call) ==> user.Some?) && rpc == Route(a.call, user)
    requires (rpc.ToOrders? <==> IsOrderCall(a.call)) && n == Admitted(s, a, user, rpc)
    ensures TouchedOk(a, n)
  {
  }

  lemma RouteKind(call: HttpCall, user: Option<AuthUser>)
    requires NeedsToken(call) ==> user.Some?
    ensures Route(call, user).ToOrders? <==> IsOrderCall(call)
  {
  }

  lemma OrderPcOk(db: O.OrderDb, call: O.OrderCall, pc: O.OrderPc, env: Env)
    requires O.CanStep(db, call, pc, env)
    ensures var after := O.Step(db, call, pc, env);
            after.pc.Done? || (after.pc.Loaded? && call.CancelUserOrder?)
  {
  }

  lemma ServiceTouchedOk(s: System, a: Action)
    requires LinksOk(s) && Enabled(s, a) && (a.Boot? || a.AuthStep? || a.CatalogStep?)
    ensures TouchedOk(a, Effect(s, a))
  {
  }

  lemma OrderTouchedOk(s: System, a: Action)
    requires LinksOk(s) && Enabled(s, a) && a.OrderStep?
    ensures TouchedOk(a, Effect(s, a))
  {
    var task := s.orderTasks[a.task];
    OrderPcOk(s.orders, task.call, task.pc, a.env);
    assert OrderTaskOk(s, a.task, task);
    hide O.Step, O.CanStep, LinksOk, ChildOk, AnswerOk, CallerOk;
  }

  lemma AskTouchedOk(s: System, a: Action)
    requires LinksOk(s) && Enabled(s, a) && a.AskCatalog?
    ensures TouchedOk(a, Effect(s, a))
  {
    assert OrderTaskOk(s, a.task, s.orderTasks[a.task]);
    hide O.AsksCatalog, LinksOk, ChildOk, AnswerOk, CallerOk;
    AskedOk(s, a, Effect(s, a));
  }

  lemma AskedOk(s: System, a: Action, n: System)
    requires a.AskCatalog? && a.task in s.orderTasks && O.AsksCatalog(s.orderTasks[a.task].call)
    requires OrderTaskOk(s, a.task, s.orderTasks[a.task]) && n.requests == s.requests
    requires var task := s.orderTasks[a.task];
             && n.orderTasks == s.orderTasks[a.task := task.(pc := O.AwaitingMovie(a.child))]
             && n.catalogTasks == s.catalogTasks[a.child := CatalogTask(FromOrders(task.call.userId),
                                                                        C.FindOneMovie(task.call.movieId), C.Start)]
    ensures TouchedOk(a, n)
  {
    hide O.AsksCatalog, ChildOk, AnswerOk;
  }

  lemma HeardMovie(s: System, a: Action)
    requires Enabled(s, a) && (a.MovieArrives? || a.MovieFails?)
    ensures a.task in s.orderTasks && s.orderTasks[a.task].call.CreateOrder? && a.task in Effect(s, a).orderTasks
    ensures var pc := Effect(s, a).orderTasks[a.task].pc;
            Effect(s, a) == SetOrderPc(s, a.task, pc) && (pc.Saving? || pc.Done?)
  {
    hide ReplyOf;
  }

  lemma HeardOk(s: System, a: Action, n: System, pc: O.OrderPc)
    requires (a.MovieArrives? || a.MovieFails?) && a.task in s.orderTasks && O.AsksCatalog(s.orderTasks[a.task].call)
    requires OrderTaskOk(s, a.task, s.orderTasks[a.task])
    requires n == SetOrderPc(s, a.task, pc) && (pc.Saving? || pc.Done?)
    ensures TouchedOk(a, n)
  {
    hide ChildOk, AnswerOk, CallerOk;
  }

  lemma MovieTouchedOk(s: System, a: Action)
    requires LinksOk(s) && Enabled(s, a) && (a.MovieArrives? || a.MovieFails?)
    ensures TouchedOk(a, Effect(s, a))
  {
    HeardMovie(s, a);
    assert OrderTaskOk(s, a.task, s.orderTasks[a.task]);
    hide LinksOk, Effect, Enabled, OrderTaskOk, TouchedOk;
    HeardOk(s, a, Effect(s, a), Effect(s, a).orderTasks[a.task].pc);
  }

  lemma AnsweredOk(s: System, a: Action, n: System, answer: Answer)
    requires (a.ReplyArrives? || a.RpcFails?) && a.request in s.requests && s.requests[a.request].answer.None?
    requires n == SetAnswer(s, a.request, answer) && ChildOk(s, a.request, s.requests[a.request])
    requires AnswerOk(s, s.requests[a.request].(answer := Some(answer)))
    ensures TouchedOk(a, n)
  {
  }

  lemma AnswerTouchedOk(s: System, a: Action)
    requires LinksOk(s) && Enabled(s, a) && (a.ReplyArrives? || a.RpcFails?)
    ensures TouchedOk(a, Effect(s, a))
  {
    var request := s.requests[a.request];
    assert ChildOk(s, a.request, request);
    if a.RpcFails? {
      FaultIsByClient(request.call, a.fault);
    }
    hide LinksOk, CallerOk, OrderTaskOk, AnswerReply, AnswerFault, Route, TouchedOk, ChildOk, ByClient;
    AnsweredOk(s, a, Effect(s, a), if a.RpcFails? then AnswerFault(request.call, a.fault)
                                   else AnswerReply(request.call, ReplyOf(s, request.child).value));
  }

  lemma StepTouchedOk(s: System, a: Action)
    requires LinksOk(s) && Enabled(s, a)
    ensures TouchedOk(a, Effect(s, a))
  {
    hide Effect;
    if a.Arrive? {
      ArrivalTouchedOk(s, a);
    } else if a.Boot? || a.AuthStep? || a.CatalogStep? {
      ServiceTouchedOk(s, a);
    } else if a.OrderStep? {
      OrderTouchedOk(s, a);
    } else if a.AskCatalog? {
      AskTouchedOk(s, a);
    } else if a.MovieArrives? || a.MovieFails? {
      MovieTouchedOk(s, a);
    } else {
      AnswerTouchedOk(s, a);
    }
  }

  /** What a step touches is in order, and what it does not is as before. */
  ghost predicate Stepped(s: System, a: Action, n: System) {
    LinksOk(s) && Continues(s, n) && OthersAlone(s, a, n) && TouchedOk(a, n)
  }

  lemma RequestsKept(s: System, a: Action, n: System)
    requires Stepped(s, a, n)
    ensures forall r :: r in n.requests ==> ChildOk(n, r, n.requests[r]) && AnswerOk(n, n.requests[r])
  {
    hide ChildOk, AnswerOk, CallerOk, OrderTaskOk, Continues, TouchesRequest, TouchesCatalogTask, TouchesOrderTask;
    forall r | r in n.requests ensures ChildOk(n, r, n.requests[r]) && AnswerOk(n, n.requests[r]) {
      if !TouchesRequest(a, r) { FrameRequest(s, n, r); }
    }
  }

  lemma CatalogTasksKept(s: System, a: Action, n: System)
    requires Stepped(s, a, n)
    ensures forall t :: t in n.catalogTasks ==> CallerOk(n, t, n.catalogTasks[t])
  {
    hide ChildOk, AnswerOk, CallerOk, OrderTaskOk, Continues, TouchesRequest, TouchesCatalogTask, TouchesOrderTask;
    forall t | t in n.catalogTasks ensures CallerOk(n, t, n.catalogTasks[t]) {
      if !TouchesCatalogTask(a, t) { FrameCatalogTask(s, n, t); }
    }
  }

  lemma OrderTasksKept(s: System, a: Action, n: System)
    requires Stepped(s, a, n)
    ensures forall t :: t in n.orderTasks ==> OrderTaskOk(n, t, n.orderTasks[t])
  {
    hide ChildOk, AnswerOk, CallerOk, OrderTaskOk, Continues, TouchesRequest, TouchesCatalogTask, TouchesOrderTask;
    forall t | t in n.orderTasks ensures OrderTaskOk(n, t, n.orderTasks[t]) {
      if !TouchesOrderTask(a, t) { FrameOrderTask(s, n, t); }
    }
  }

  lemma SteppedIsOk(s: System, a: Action, n: System)
    requires Stepped(s, a, n)
    ensures LinksOk(n)
  {
    RequestsKept(s, a, n);
    CatalogTasksKept(s, a, n);
    OrderTasksKept(s, a, n);
    hide ChildOk, AnswerOk, CallerOk, OrderTaskOk, Stepped;
  }

  lemma LinksKept(s: System, a: Action)
    requires LinksOk(s)
    ensures LinksOk(Next(s, a))
  {
    hide LinksOk, Continues, OthersAlone, TouchedOk, Effect, Enabled;
    if Enabled(s, a) {
      StepContinues(s, a);
      StepLeavesOthers(s, a);
      StepTouchedOk(s, a);
      SteppedIsOk(s, a, Next(s, a));
    }
  }

  lemma {:induction false} LinksHold(config: A.Config, schedule: seq<Action>)
    ensures LinksOk(Run(Init(config), schedule))
  {
    if schedule != [] {
      LinksHold(config, schedule[..|schedule| - 1]);
      LinksKept(Run(Init(config), schedule[..|schedule| - 1]), schedule[|schedule| - 1]);
    }
  }

  /** Requests and handlers over any continuation of a run. */
  lemma {:induction false} RunContinues(s: System, later: seq<Action>)
    ensures Continues(s, Run(s, later))
  {
    if later != [] {
      RunContinues(s, later[..|later| - 1]);
      StepContinues(Run(s, later[..|later| - 1]), later[|later| - 1]);
    }
  }
}
