/** Every change of the databases, traced to the HTTP request that asked for it, and what order routes show. */
module Origins {
  import opened Wrappers
  import opened Entities
  import opened Gateway
  import opened Cinema
  import Cancellation
  import CatalogSafety
  import Identity
  import Links
  import Listings
  import Observer
  import OrderHistory
  import Replies
  import Snapshots
  import A = AuthService
  import C = CatalogService
  import O = OrderService

  /** Request r was let in for this user with this call. */
  ghost predicate Asked(s: System, r: Tid, userId: int, call: HttpCall) {
    && r in s.requests && s.requests[r].call == call
    && s.requests[r].user.Some? && s.requests[r].user.value.id == userId
  }

  lemma OrderTaskIsAsked(s: System, t: Tid)
    requires Links.LinksOk(s) && t in s.orderTasks
    ensures var call := s.orderTasks[t].call;
            Asked(s, s.orderTasks[t].request, call.userId,
                  match call
                  case CreateOrder(_, movieId, quantity) => PostOrder(movieId, quantity)
                  case FindUserOrders(_) => GetOrders
                  case FindUserOrder(_, orderId) => GetOrder(orderId)
                  case CancelUserOrder(_, orderId) => PatchOrderCancel(orderId))
  {
    var task := s.orderTasks[t];
    assert Links.OrderTaskOk(s, t, task);
    assert Links.ChildOk(s, task.request, s.requests[task.request]);
  }

  /** Every order is what its buyer asked for: a POST /orders of just this movie and quantity, by this user. */
  lemma OrdersComeFromTheirBuyers(config: A.Config, schedule: seq<Action>, id: int)
    requires id in Run(Init(config), schedule).orders.rows
    ensures var s := Run(Init(config), schedule);
            var row := s.orders.rows[id];
            exists r :: Asked(s, r, row.userId, PostOrder(row.movieId, row.quantity)) && OrderHistory.MadeFor(s, id, r)
  {
    var s, log := Observer.Observe(config, schedule).sys, Observer.Observe(config, schedule).log;
    Snapshots.SnapshotsHold(config, schedule);
    Links.LinksHold(config, schedule);
    assert Snapshots.OrderRowOk(s, log, id);
    var t := log.maker[id];
    hide Run, Observer.Observe, Snapshots.SnapshotsOk, Links.LinksOk;
    OrderTaskIsAsked(s, t);
    assert OrderHistory.MadeBy(s, id, t);
    assert OrderHistory.MadeFor(s, id, s.orderTasks[t].request);
  }

  /** An order changes only by a PATCH /orders/:id/cancel of just this order by its owner. */
  lemma OnlyTheOwnersRequestChangesAnOrder(config: A.Config, schedule: seq<Action>, a: Action, id: int)
    requires Listings.Changes(Run(Init(config), schedule), a, id)
    ensures var s := Run(Init(config), schedule);
            a.OrderStep? && a.task in s.orderTasks
            && Asked(s, s.orderTasks[a.task].request, s.orders.rows[id].userId, PatchOrderCancel(id))
  {
    var s := Run(Init(config), schedule);
    Cancellation.OnlyTheOwnersCancelMovesAnOrder(config, schedule, a, id);
    Links.LinksHold(config, schedule);
    hide Run, Links.LinksOk, Next;
    OrderTaskIsAsked(s, a.task);
  }

  // ---- movies ----

  /** The one movie that a request may write; 0 for a new one. */
  function Target(call: HttpCall): int {
    match call
    case PatchMovie(id, _) => id
    case DeleteMovie(id) => id
    case _ => 0
  }

  /** A handler of the catalog works on the movie that its message names. */
  ghost predicate OnTarget(task: CatalogTask) {
    && (task.call.UpdateMovie? ==>
          && (task.pc.Renaming? ==> task.pc.movie.id == task.call.id)
          && (task.pc.Saving? ==> task.pc.entity.id == Some(task.call.id)))
    && (task.call.CreateMovie? ==> !task.pc.Renaming? && (task.pc.Saving? ==> task.pc.entity.id == None))
    && (task.pc.Saving? ==> task.call.CreateMovie? || task.call.UpdateMovie?)
  }

  lemma StepOnTarget(db: C.CatalogDb, task: CatalogTask, env: Env)
    requires CatalogSafety.TableOk(db) && OnTarget(task) && C.CanStep(db, task.call, task.pc, env)
    ensures OnTarget(task.(pc := C.Step(db, task.call, task.pc, env).pc))
  {
  }

  /** A step writes one row at most: that of the movie its message names, or of the fresh id. */
  lemma StepWrites(db: C.CatalogDb, task: CatalogTask, env: Env)
    requires CatalogSafety.TableOk(db) && OnTarget(task) && C.CanStep(db, task.call, task.pc, env)
    ensures var rows := C.Step(db, task.call, task.pc, env).db.rows;
            forall id :: (id in rows) != (id in db.rows) || (id in rows && rows[id] != db.rows[id]) ==>
              match task.call
              case CreateMovie(_) => id == env.id
              case UpdateMovie(target, _) => id == target
              case DeleteMovie(target) => id == target
              case _ => false
  {
  }

  ghost predicate AllOnTarget(s: System) {
    forall t :: t in s.catalogTasks ==> OnTarget(s.catalogTasks[t])
  }

  lemma TargetsKept(s: System, a: Action)
    requires AllOnTarget(s) && CatalogSafety.TableOk(s.catalog)
    ensures AllOnTarget(Next(s, a))
  {
    Links.StepLeavesOthers(s, a);
    if Enabled(s, a) {
      if a.CatalogStep? {
        StepOnTarget(s.catalog, s.catalogTasks[a.task], a.env);
        hide C.Step, C.CanStep;
      } else {
        NewCatalogTasksStart(s, a);
        hide Next, Enabled;
      }
    }
  }

  lemma NewCatalogTasksStart(s: System, a: Action)
    requires Enabled(s, a) && !a.CatalogStep?
    ensures forall t :: t in Next(s, a).catalogTasks && Links.TouchesCatalogTask(a, t) ==>
              Next(s, a).catalogTasks[t].pc.Start?
  {
    if a.Arrive? {
      Links.ArrivalAdds(s, a);
      hide Effect;
    }
  }

  lemma {:induction false} TargetsHold(config: A.Config, schedule: seq<Action>)
    ensures AllOnTarget(Run(Init(config), schedule))
  {
    if schedule != [] {
      TargetsHold(config, schedule[..|schedule| - 1]);
      CatalogSafety.UniquenessHolds(config, schedule[..|schedule| - 1]);
      TargetsKept(Run(Init(config), schedule[..|schedule| - 1]), schedule[|schedule| - 1]);
    }
  }

  /** The row of movie `id` changes, appears or disappears. */
  ghost predicate Writes(s: System, a: Action, id: int) {
    var rows := Next(s, a).catalog.rows;
    (id in rows) != (id in s.catalog.rows) || (id in rows && rows[id] != s.catalog.rows[id])
  }

  ghost predicate ByAdministrator(s: System, userId: int) {
    && userId in s.auth.rows && s.auth.rows[userId].role == ADMIN
    && Identity.AdminEmail(s.config, s.auth.rows[userId].email)
  }

  /** A catalog write for a user was asked for by that user's request. */
  lemma CatalogTaskIsAsked(s: System, t: Tid)
    requires Links.LinksOk(s) && t in s.catalogTasks && C.Writes(s.catalogTasks[t].call)
    requires s.catalogTasks[t].caller.FromGateway? && s.catalogTasks[t].caller.user.Some?
    ensures var task := s.catalogTasks[t];
            Asked(s, task.caller.request, task.caller.user.value.id,
                  match task.call
                  case CreateMovie(dto) => PostMovie(dto)
                  case UpdateMovie(id, changes) => PatchMovie(id, changes)
                  case DeleteMovie(id) => DeleteMovie(id)
                  case _ => GetMovies)
  {
    assert Links.CallerOk(s, t, s.catalogTasks[t]);
    var r := s.catalogTasks[t].caller.request;
    assert Links.ChildOk(s, r, s.requests[r]);
  }

  /** What a message asks for, and which movie its handler may write. */
  predicate AsksToWrite(s: System, call: HttpCall, id: int) {
    (call.PostMovie? && id >= s.catalog.next) || ((call.PatchMovie? || call.DeleteMovie?) && Target(call) == id)
  }

  /** The step that writes movie `id` belongs to a message for just that. */
  lemma WriterAsks(s: System, a: Action, id: int)
    requires Links.LinksOk(s) && CatalogSafety.TableOk(s.catalog) && AllOnTarget(s)
    requires a.CatalogStep? && Enabled(s, a) && Writes(s, a, id)
    requires var task := s.catalogTasks[a.task];
             C.Writes(task.call) && task.caller.FromGateway? && task.caller.user.Some?
    ensures var caller := s.catalogTasks[a.task].caller;
            && Asked(s, caller.request, caller.user.value.id, s.requests[caller.request].call)
            && AsksToWrite(s, s.requests[caller.request].call, id)
  {
    CatalogNextRows(s, a);
    var task := s.catalogTasks[a.task];
    StepWrites(s.catalog, task, a.env);
    hide Links.LinksOk, C.Step, CatalogSafety.TableOk, Next, C.CanStep;
    CatalogTaskIsAsked(s, a.task);
  }

  /** Movie `id` is written only on behalf of a request for just that: a POST /movies, which writes a fresh
      id, or a PATCH or DELETE of this id, by a users row with role ADMIN and the configured address. */
  lemma OnlyAnAdministratorsRequestWritesAMovie(config: A.Config, schedule: seq<Action>, a: Action, id: int)
    requires Writes(Run(Init(config), schedule), a, id)
    ensures var s := Run(Init(config), schedule);
            exists r, userId, call ::
              Asked(s, r, userId, call) && ByAdministrator(s, userId) && AsksToWrite(s, call, id)
  {
    var s := Run(Init(config), schedule);
    TargetsHold(config, schedule);
    CatalogSafety.UniquenessHolds(config, schedule);
    Links.LinksHold(config, schedule);
    Identity.IdentityHoldsFrom(Init(config), schedule);
    hide Run, Links.LinksOk, CatalogSafety.TableOk, AllOnTarget, Next;
    Identity.CatalogWritesTraceToAdmin(config, schedule, a);
    Identity.OnlyCatalogSteps(s, a);
    var caller := s.catalogTasks[a.task].caller;
    WriterIsWriter(config, schedule, a);
    WriterAsks(s, a, id);
    assert ByAdministrator(s, caller.user.value.id);
  }

  lemma WriterIsWriter(config: A.Config, schedule: seq<Action>, a: Action)
    requires var s := Run(Init(config), schedule);
             Next(s, a).catalog.rows != s.catalog.rows
    ensures var s := Run(Init(config), schedule);
            a.CatalogStep? && a.task in s.catalogTasks && C.Writes(s.catalogTasks[a.task].call)
  {
    Identity.IdentityHolds(config, schedule);
    Identity.CatalogWriter(Run(Init(config), schedule), a);
  }

  lemma CatalogNextRows(s: System, a: Action)
    requires a.CatalogStep? && Enabled(s, a)
    ensures a.task in s.catalogTasks
    ensures var task := s.catalogTasks[a.task];
            C.CanStep(s.catalog, task.call, task.pc, a.env)
            && Next(s, a).catalog == C.Step(s.catalog, task.call, task.pc, a.env).db
    ensures s.catalogTasks[a.task].pc.Saving? && s.catalogTasks[a.task].pc.entity.id.None? ==>
              a.env.id >= s.catalog.next
  {
    hide C.Step;
  }

  // ---- what order routes show ----

  /** Every order in the reply is the user's. */
  predicate ShowsOnly(reply: Reply, userId: int) {
    && (reply.OrderReply? ==> reply.order.userId == userId)
    && (reply.OrdersReply? ==> forall i :: 0 <= i < |reply.orders| ==> reply.orders[i].userId == userId)
  }

  ghost predicate ShowsOwn(task: OrderTask) {
    && (task.pc.Done? ==> ShowsOnly(task.pc.reply, task.call.userId))
    && (task.pc.Saving? ==> task.pc.draft.userId == task.call.userId)
    && (task.pc.Loaded? ==> task.pc.order.userId == task.call.userId)
  }

  lemma StepShowsOwn(db: O.OrderDb, task: OrderTask, env: Env)
    requires ShowsOwn(task) && O.CanStep(db, task.call, task.pc, env)
    requires forall id :: id in db.rows ==> db.rows[id].id == id
    ensures ShowsOwn(task.(pc := O.Step(db, task.call, task.pc, env).pc))
  {
    if task.pc.Start? && task.call.FindUserOrders? {
      Listings.UserOrdersAreListed(db.rows, task.call.userId);
    }
    hide O.UserOrders;
  }

  lemma ShowsOwnKept(s: System, log: Observer.Log, a: Action)
    requires Snapshots.SnapshotsOk(s, log) && forall t :: t in s.orderTasks ==> ShowsOwn(s.orderTasks[t])
    ensures forall t :: t in Next(s, a).orderTasks ==> ShowsOwn(Next(s, a).orderTasks[t])
  {
    Links.StepLeavesOthers(s, a);
    if Enabled(s, a) {
      if a.OrderStep? {
        Snapshots.RowsKeyed(s, log);
        Cancellation.CancelShape(s, a.task, a.env);
        StepShowsOwn(s.orders, s.orderTasks[a.task], a.env);
        hide Next, O.Step, O.CanStep, Snapshots.SnapshotsOk;
      } else {
        TouchedShowsOwn(s, a);
        hide Next, Enabled, Snapshots.SnapshotsOk;
      }
    }
  }

  lemma TouchedShowsOwn(s: System, a: Action)
    requires Enabled(s, a) && !a.OrderStep?
    ensures forall t :: t in Next(s, a).orderTasks && Links.TouchesOrderTask(a, t) ==>
              ShowsOwn(Next(s, a).orderTasks[t])
  {
    if a.Arrive? {
      Links.ArrivalAdds(s, a);
      hide Effect;
    }
  }

  lemma {:induction false} ShowsOwnHolds(config: A.Config, schedule: seq<Action>)
    ensures forall t :: t in Run(Init(config), schedule).orderTasks ==>
              ShowsOwn(Run(Init(config), schedule).orderTasks[t])
  {
    if schedule != [] {
      var before := schedule[..|schedule| - 1];
      ShowsOwnHolds(config, before);
      Snapshots.SnapshotsHold(config, before);
      ShowsOwnKept(Run(Init(config), before), Observer.Observe(config, before).log, schedule[|schedule| - 1]);
    }
  }

  /** In every run, whatever an order route answers shows orders of the request's own user only. */
  lemma AnswersShowOwnOrders(config: A.Config, schedule: seq<Action>, r: Tid)
    requires var s := Run(Init(config), schedule);
             r in s.requests && IsOrderCall(s.requests[r].call)
             && s.requests[r].answer.Some? && s.requests[r].answer.value.status < 300
    ensures var request := Run(Init(config), schedule).requests[r];
            && request.user.Some? && request.answer.value.body.Data?
            && ShowsOnly(request.answer.value.body.reply, request.user.value.id)
  {
    var s := Run(Init(config), schedule);
    Links.LinksHold(config, schedule);
    ShowsOwnHolds(config, schedule);
    var request := s.requests[r];
    assert Links.ChildOk(s, r, request) && Links.AnswerOk(s, request);
    if ByClient(request.call, request.answer.value) {
      ByClientBlames(request.call, request.answer.value);
    }
    Replies.RepliesHold(config, schedule);
    Replies.AnswerKeepsStatus(request.call, s.orderTasks[request.child.task].pc.reply);
    hide Run, Links.LinksOk;
    OrderTaskIsAsked(s, request.child.task);
  }
}
