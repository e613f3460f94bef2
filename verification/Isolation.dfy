/** Owner isolation, as an unwinding theorem: take any run, delete every step of other users' order
    requests, and what is left is still a run, in which everyone else sees exactly what they saw before. */
module Isolation {
  import opened Wrappers
  import opened Entities
  import opened Money
  import opened Gateway
  import opened Cinema
  import Identity
  import Links
  import Listing
  import Observer
  import Snapshots
  import A = AuthService
  import C = CatalogService
  import O = OrderService

  // ---- what stays ----

  /** Not an order request of another user. */
  predicate KeepsRequest(me: int, request: Request) {
    IsOrderCall(request.call) && request.user.Some? ==> request.user.value.id == me
  }

  predicate KeepsCatalogTask(me: int, task: CatalogTask) {
    task.caller.FromOrders? ==> task.caller.userId == me
  }

  predicate KeepsOrderTask(me: int, task: OrderTask) {
    task.call.userId == me
  }

  /** The action is a step of something that stays. */
  ghost predicate Concerns(me: int, s: System, a: Action) {
    match a
    case Boot(_) => true
    case Arrive(_, header, now, call, _) =>
      var g := Admit(s, header, now, call);
      IsOrderCall(call) && g.Pass? && g.value.Some? ==> g.value.value.id == me
    case AuthStep(_, _) => true
    case CatalogStep(t, _) => t in s.catalogTasks ==> KeepsCatalogTask(me, s.catalogTasks[t])
    case OrderStep(t, _) => t in s.orderTasks ==> KeepsOrderTask(me, s.orderTasks[t])
    case AskCatalog(t, _) => t in s.orderTasks ==> KeepsOrderTask(me, s.orderTasks[t])
    case MovieArrives(t) => t in s.orderTasks ==> KeepsOrderTask(me, s.orderTasks[t])
    case MovieFails(t, _) => t in s.orderTasks ==> KeepsOrderTask(me, s.orderTasks[t])
    case ReplyArrives(r) => r in s.requests ==> KeepsRequest(me, s.requests[r])
    case RpcFails(r, _) => r in s.requests ==> KeepsRequest(me, s.requests[r])
  }

  /** The schedule without the steps of other users' order requests, and without actions that did nothing. */
  ghost function Purge(me: int, s: System, schedule: seq<Action>): seq<Action> {
    if schedule == [] then []
    else
      var before := schedule[..|schedule| - 1];
      var a := schedule[|schedule| - 1];
      if Enabled(Run(s, before), a) && Concerns(me, Run(s, before), a)
      then Purge(me, s, before) + [a]
      else Purge(me, s, before)
  }

  // ---- the relation between a state and its purged counterpart ----

  ghost predicate RequestsOwn(me: int, m: map<Tid, Request>, q: map<Tid, Request>) {
    && (forall k :: k in q ==> k in m && q[k] == m[k] && KeepsRequest(me, m[k]))
    && (forall k :: k in m && KeepsRequest(me, m[k]) ==> k in q)
  }

  ghost predicate CatalogTasksOwn(me: int, m: map<Tid, CatalogTask>, q: map<Tid, CatalogTask>) {
    && (forall k :: k in q ==> k in m && q[k] == m[k] && KeepsCatalogTask(me, m[k]))
    && (forall k :: k in m && KeepsCatalogTask(me, m[k]) ==> k in q)
  }

  ghost predicate OrderTasksOwn(me: int, m: map<Tid, OrderTask>, q: map<Tid, OrderTask>) {
    && (forall k :: k in q ==> k in m && q[k] == m[k] && KeepsOrderTask(me, m[k]))
    && (forall k :: k in m && KeepsOrderTask(me, m[k]) ==> k in q)
  }

  ghost predicate RowsOwn(me: int, m: map<int, Order>, q: map<int, Order>) {
    && (forall k :: k in q ==> k in m && q[k] == m[k] && m[k].userId == me)
    && (forall k :: k in m && m[k].userId == me ==> k in q)
  }

  ghost predicate OrdersOwn(me: int, db: O.OrderDb, own: O.OrderDb) {
    RowsOwn(me, db.rows, own.rows) && own.next <= db.next
  }

  /** p is s without other users' order requests. */
  ghost predicate Own(me: int, s: System, p: System) {
    && p.config == s.config && p.auth == s.auth && p.catalog == s.catalog && p.authTasks == s.authTasks
    && OrdersOwn(me, s.orders, p.orders)
    && RequestsOwn(me, s.requests, p.requests)
    && CatalogTasksOwn(me, s.catalogTasks, p.catalogTasks)
    && OrderTasksOwn(me, s.orderTasks, p.orderTasks)
  }

  /** What the other invariants say that isolation rests on. */
  ghost predicate Ready(s: System) {
    && Links.LinksOk(s) && Identity.IdentityOk(s)
    && (forall t :: t in s.orderTasks ==> Snapshots.LoadedOk(s.orders, s.orderTasks[t]))
    && (forall id :: id in s.orders.rows ==> s.orders.rows[id].id == id && id < s.orders.next)
  }

  // ---- the order service shows a user nothing but the user's own rows ----

  lemma OwnOrders(me: int, rows: map<int, Order>, own: map<int, Order>)
    requires RowsOwn(me, rows, own)
    ensures O.UserOrders(rows, me) == O.UserOrders(own, me)
  {
    assert O.Keys(rows, me) == O.Keys(own, me);
    var keys := Listing.Descending(O.Keys(rows, me));
    forall i | 0 <= i < |keys| ensures keys[i].1 in rows && keys[i].1 in own && rows[keys[i].1] == own[keys[i].1] {
      assert keys[i] in Listing.Elements(keys);
    }
  }

  lemma OwnBegin(me: int, rows: map<int, Order>, own: map<int, Order>, call: O.OrderCall)
    requires RowsOwn(me, rows, own) && call.userId == me && !O.AsksCatalog(call)
    ensures O.Begin(rows, call) == O.Begin(own, call)
  {
    OwnOrders(me, rows, own);
    hide O.UserOrders;
  }

  lemma OwnInsert(me: int, db: O.OrderDb, own: O.OrderDb, draft: O.Draft, env: Env)
    requires OrdersOwn(me, db, own) && draft.userId == me && env.id >= db.next
    ensures var after, alone := O.Insert(db, draft, env), O.Insert(own, draft, env);
            after.pc == alone.pc && OrdersOwn(me, after.db, alone.db)
  {
    hide StoreNumeric;
  }

  lemma OwnCancel(me: int, db: O.OrderDb, own: O.OrderDb, order: Order, now: int)
    requires OrdersOwn(me, db, own) && order.userId == me
    requires order.id in db.rows && Snapshots.SameOrder(db.rows[order.id], order)
    ensures var after, alone := O.SaveCancelled(db, order, now), O.SaveCancelled(own, order, now);
            after.pc == alone.pc && OrdersOwn(me, after.db, alone.db)
  {
    hide OrderView;
  }

  lemma OwnStep(me: int, db: O.OrderDb, own: O.OrderDb, task: OrderTask, env: Env)
    requires OrdersOwn(me, db, own) && task.call.userId == me && O.CanStep(db, task.call, task.pc, env)
    requires task.pc.Saving? ==> task.pc.draft.userId == me
    requires Snapshots.LoadedOk(db, task) && (task.pc.Loaded? ==> task.pc.order.userId == me)
    ensures O.CanStep(own, task.call, task.pc, env)
    ensures var after, alone := O.Step(db, task.call, task.pc, env), O.Step(own, task.call, task.pc, env);
            after.pc == alone.pc && OrdersOwn(me, after.db, alone.db)
  {
    hide O.Begin, O.Insert, O.SaveCancelled;
    if task.pc.Start? {
      OwnBegin(me, db.rows, own.rows, task.call);
    } else if task.pc.Saving? {
      OwnInsert(me, db, own, task.pc.draft, env);
    } else {
      OwnCancel(me, db, own, task.pc.order, env.now);
    }
  }

  lemma ForeignStep(me: int, db: O.OrderDb, own: O.OrderDb, task: OrderTask, env: Env)
    requires OrdersOwn(me, db, own) && task.call.userId != me && O.CanStep(db, task.call, task.pc, env)
    requires task.pc.Saving? ==> task.pc.draft.userId != me
    requires Snapshots.LoadedOk(db, task) && (task.pc.Loaded? ==> task.pc.order.userId != me)
    requires forall id :: id in db.rows ==> db.rows[id].id == id && id < db.next
    ensures OrdersOwn(me, O.Step(db, task.call, task.pc, env).db, own)
  {
  }

  /** A foreign order answers exactly as a missing one. */
  lemma ForeignAnswersAsMissing(rows: map<int, Order>, call: O.OrderCall, id: int)
    requires !O.AsksCatalog(call) && id in rows && rows[id].userId != call.userId
    ensures O.Begin(rows, call) == O.Begin(rows - {id}, call)
  {
    hide O.Begin, O.AsksCatalog;
    var own := map k | k in rows && rows[k].userId == call.userId :: rows[k];
    OwnBegin(call.userId, rows, own, call);
    OwnBegin(call.userId, rows - {id}, own, call);
  }

  // ---- writing to both sides ----

  lemma PutRequest(me: int, m: map<Tid, Request>, q: map<Tid, Request>, k: Tid, v: Request)
    requires RequestsOwn(me, m, q) && (KeepsRequest(me, v) || k !in q)
    ensures RequestsOwn(me, m[k := v], if KeepsRequest(me, v) then q[k := v] else q)
  {
  }

  lemma PutCatalogTask(me: int, m: map<Tid, CatalogTask>, q: map<Tid, CatalogTask>, k: Tid, v: CatalogTask)
    requires CatalogTasksOwn(me, m, q) && (KeepsCatalogTask(me, v) || k !in q)
    ensures CatalogTasksOwn(me, m[k := v], if KeepsCatalogTask(me, v) then q[k := v] else q)
  {
  }

  lemma PutOrderTask(me: int, m: map<Tid, OrderTask>, q: map<Tid, OrderTask>, k: Tid, v: OrderTask)
    requires OrderTasksOwn(me, m, q) && (KeepsOrderTask(me, v) || k !in q)
    ensures OrderTasksOwn(me, m[k := v], if KeepsOrderTask(me, v) then q[k := v] else q)
  {
  }

  // ---- an action that concerns what stays does the same on both sides ----

  // What an arrival adds, on both sides: a request, and possibly a handler.

  lemma SeenRequest(me: int, s: System, p: System, r: Tid, request: Request)
    requires Own(me, s, p) && KeepsRequest(me, request)
    ensures Own(me, s.(requests := s.requests[r := request]), p.(requests := p.requests[r := request]))
  {
  }

  lemma SeenAdmitted(me: int, s: System, p: System, a: Action, user: Option<AuthUser>, rpc: Rpc)
    requires Own(me, s, p) && a.Arrive? && (IsOrderCall(a.call) && user.Some? ==> user.value.id == me)
    requires rpc.ToOrders? ==> IsOrderCall(a.call) && user.Some? && rpc.orderCall.userId == user.value.id
    ensures Own(me, Admitted(s, a, user, rpc), Admitted(p, a, user, rpc))
  {
  }

  lemma SeenArrival(me: int, s: System, p: System, a: Action)
    requires Own(me, s, p) && a.Arrive? && Enabled(s, a) && Concerns(me, s, a)
    ensures Enabled(p, a) && Own(me, Effect(s, a), Effect(p, a))
  {
    AdmitIdentifies(s, a.header, a.now, a.call);
    var g := Admit(s, a.header, a.now, a.call);
    assert g == Admit(p, a.header, a.now, a.call);
    hide Admit;
    assert Enabled(p, a) by { SeenCanArrive(me, s, p, a); }
    hide Own, Enabled, Admitted;
    if g.Pass? {
      RouteOwner(a.call, g.value);
      hide Route;
      SeenAdmitted(me, s, p, a, g.value, Route(a.call, g.value));
    } else {
      SeenRequest(me, s, p, a.request, Request(a.call, None, NoChild, Some(AnswerException(g.exception))));
    }
  }

  /** Order messages carry the id of the request's user. */
  lemma RouteOwner(call: HttpCall, user: Option<AuthUser>)
    requires NeedsToken(call) ==> user.Some?
    ensures Route(call, user).ToOrders? ==>
              IsOrderCall(call) && user.Some? && Route(call, user).orderCall.userId == user.value.id
  {
  }

  lemma SeenCanArrive(me: int, s: System, p: System, a: Action)
    requires Own(me, s, p) && a.Arrive? && Enabled(s, a)
    ensures Enabled(p, a)
  {
  }

  lemma SeenServiceStep(me: int, s: System, p: System, a: Action)
    requires Own(me, s, p) && (a.Boot? || a.AuthStep? || a.CatalogStep?) && Enabled(s, a) && Concerns(me, s, a)
    ensures Enabled(p, a) && Own(me, Effect(s, a), Effect(p, a))
  {
  }

  lemma SeenOrderStep(me: int, s: System, p: System, a: Action)
    requires Ready(s) && Own(me, s, p) && a.OrderStep? && Enabled(s, a) && Concerns(me, s, a)
    ensures Enabled(p, a) && Own(me, Effect(s, a), Effect(p, a))
  {
    var task := s.orderTasks[a.task];
    assert Identity.OrderTaskOk(s.auth, task) && Snapshots.LoadedOk(s.orders, task);
    OwnStep(me, s.orders, p.orders, task, a.env);
    hide O.Step, O.CanStep, OrdersOwn, Ready;
    PutOrderTask(me, s.orderTasks, p.orderTasks, a.task,
                 task.(pc := O.Step(s.orders, task.call, task.pc, a.env).pc));
  }

  lemma SeenAsk(me: int, s: System, p: System, a: Action)
    requires Own(me, s, p) && a.AskCatalog? && Enabled(s, a) && Concerns(me, s, a)
    ensures Enabled(p, a) && Own(me, Effect(s, a), Effect(p, a))
  {
    var task := s.orderTasks[a.task];
    hide O.AsksCatalog;
    PutOrderTask(me, s.orderTasks, p.orderTasks, a.task, task.(pc := O.AwaitingMovie(a.child)));
    PutCatalogTask(me, s.catalogTasks, p.catalogTasks, a.child,
                   CatalogTask(FromOrders(task.call.userId), C.FindOneMovie(task.call.movieId), C.Start));
  }

  lemma SeenMovieFails(me: int, s: System, p: System, a: Action)
    requires Own(me, s, p) && a.MovieFails? && Enabled(s, a) && Concerns(me, s, a)
    ensures Enabled(p, a) && Own(me, Effect(s, a), Effect(p, a))
  {
  }

  /** The catalog message that my order waits for stays. */
  lemma SameMovie(me: int, s: System, p: System, t: Tid)
    requires Ready(s) && Own(me, s, p) && AwaitsMovie(s, t) && KeepsOrderTask(me, s.orderTasks[t])
    ensures AwaitsMovie(p, t) && p.orderTasks[t] == s.orderTasks[t]
    ensures var child := CatalogChild(s.orderTasks[t].pc.child);
            ReplyOf(p, child) == ReplyOf(s, child)
  {
    assert Links.OrderTaskOk(s, t, s.orderTasks[t]);
    hide Ready, OrdersOwn, RequestsOwn, O.AsksCatalog;
    SameCatalogReply(me, s, p, s.orderTasks[t].pc.child);
    hide Links.OrderTaskOk, CatalogTasksOwn;
  }

  lemma SameCatalogReply(me: int, s: System, p: System, c: Tid)
    requires CatalogTasksOwn(me, s.catalogTasks, p.catalogTasks)
    requires c in s.catalogTasks && KeepsCatalogTask(me, s.catalogTasks[c])
    ensures ReplyOf(p, CatalogChild(c)) == ReplyOf(s, CatalogChild(c))
  {
  }

  lemma SeenMovieArrives(me: int, s: System, p: System, a: Action)
    requires Ready(s) && Own(me, s, p) && a.MovieArrives? && Enabled(s, a) && Concerns(me, s, a)
    ensures Enabled(p, a) && Own(me, Effect(s, a), Effect(p, a))
  {
    var task := s.orderTasks[a.task];
    SameMovie(me, s, p, a.task);
    hide Ready, O.MovieArrived, ReplyOf, OrdersOwn, RequestsOwn, CatalogTasksOwn;
    PutOrderTask(me, s.orderTasks, p.orderTasks, a.task,
                 task.(pc := O.MovieArrived(task.call, ReplyOf(s, CatalogChild(task.pc.child)).value)));
  }

  /** The handler of a request that stays, stays. */
  lemma SameReply(me: int, s: System, p: System, r: Tid)
    requires Ready(s) && Own(me, s, p) && r in s.requests && KeepsRequest(me, s.requests[r])
    ensures ReplyOf(p, s.requests[r].child) == ReplyOf(s, s.requests[r].child)
  {
    assert Links.ChildOk(s, r, s.requests[r]);
    hide Ready, OrdersOwn, RequestsOwn, Links.LinksOk;
    if s.requests[r].child.CatalogChild? {
      SameCatalogReply(me, s, p, s.requests[r].child.task);
    } else if s.requests[r].child.OrderChild? {
      RouteOwner(s.requests[r].call, s.requests[r].user);
      hide Route, IsOrderCall;
    }
    hide CatalogTasksOwn;
  }

  lemma SeenAnswer(me: int, s: System, p: System, a: Action)
    requires Ready(s) && Own(me, s, p) && (a.ReplyArrives? || a.RpcFails?) && Enabled(s, a) && Concerns(me, s, a)
    ensures Enabled(p, a) && Own(me, Effect(s, a), Effect(p, a))
  {
    SameReply(me, s, p, a.request);
    hide Ready, ReplyOf, AnswerReply, AnswerFault;
    PutRequest(me, s.requests, p.requests, a.request, Effect(s, a).requests[a.request]);
  }

  // ---- every other action does nothing that stays ----

  lemma UnseenArrival(me: int, s: System, p: System, a: Action)
    requires Own(me, s, p) && a.Arrive? && Enabled(s, a) && !Concerns(me, s, a)
    ensures Own(me, Effect(s, a), p)
  {
    var g := Admit(s, a.header, a.now, a.call);
    hide Admit;
    var call := Route(a.call, g.value);
    Links.RouteKind(a.call, g.value);
    PutRequest(me, s.requests, p.requests, a.request, Request(a.call, g.value, OrderChild(a.task), None));
    PutOrderTask(me, s.orderTasks, p.orderTasks, a.task, OrderTask(a.request, call.orderCall, O.Start));
  }

  lemma UnseenCatalogStep(me: int, s: System, p: System, a: Action)
    requires Ready(s) && Own(me, s, p) && a.CatalogStep? && Enabled(s, a) && !Concerns(me, s, a)
    ensures Own(me, Effect(s, a), p)
  {
  }

  lemma UnseenOrderStep(me: int, s: System, p: System, a: Action)
    requires Ready(s) && Own(me, s, p) && a.OrderStep? && Enabled(s, a) && !Concerns(me, s, a)
    ensures Own(me, Effect(s, a), p)
  {
    var task := s.orderTasks[a.task];
    assert Identity.OrderTaskOk(s.auth, task) && Snapshots.LoadedOk(s.orders, task);
    ForeignStep(me, s.orders, p.orders, task, a.env);
    hide O.Step, O.CanStep, OrdersOwn, Ready;
    PutOrderTask(me, s.orderTasks, p.orderTasks, a.task,
                 task.(pc := O.Step(s.orders, task.call, task.pc, a.env).pc));
  }

  lemma UnseenWait(me: int, s: System, p: System, a: Action)
    requires Own(me, s, p) && (a.AskCatalog? || a.MovieArrives? || a.MovieFails?)
    requires Enabled(s, a) && !Concerns(me, s, a)
    ensures Own(me, Effect(s, a), p)
  {
    var task := s.orderTasks[a.task];
    hide O.AsksCatalog, O.MovieArrived, O.MovieFailed, ReplyOf;
    PutOrderTask(me, s.orderTasks, p.orderTasks, a.task, Effect(s, a).orderTasks[a.task]);
    if a.AskCatalog? {
      PutCatalogTask(me, s.catalogTasks, p.catalogTasks, a.child,
                     CatalogTask(FromOrders(task.call.userId), C.FindOneMovie(task.call.movieId), C.Start));
    }
  }

  lemma UnseenAnswer(me: int, s: System, p: System, a: Action)
    requires Own(me, s, p) && (a.ReplyArrives? || a.RpcFails?) && Enabled(s, a) && !Concerns(me, s, a)
    ensures Own(me, Effect(s, a), p)
  {
  }

  // ---- unwinding ----

  lemma Seen(me: int, s: System, p: System, a: Action)
    requires Ready(s) && Own(me, s, p) && Enabled(s, a) && Concerns(me, s, a)
    ensures Enabled(p, a) && Own(me, Next(s, a), Next(p, a))
  {
    hide Ready, Own, Concerns, Effect;
    if a.Arrive? {
      SeenArrival(me, s, p, a);
    } else if a.OrderStep? {
      SeenOrderStep(me, s, p, a);
    } else if a.AskCatalog? {
      SeenAsk(me, s, p, a);
    } else if a.MovieArrives? {
      SeenMovieArrives(me, s, p, a);
    } else if a.MovieFails? {
      SeenMovieFails(me, s, p, a);
    } else if a.ReplyArrives? || a.RpcFails? {
      SeenAnswer(me, s, p, a);
    } else {
      SeenServiceStep(me, s, p, a);
    }
  }

  lemma Unseen(me: int, s: System, p: System, a: Action)
    requires Ready(s) && Own(me, s, p) && Enabled(s, a) && !Concerns(me, s, a)
    ensures Own(me, Next(s, a), p)
  {
    hide Ready, Own, Effect;
    if a.Arrive? {
      UnseenArrival(me, s, p, a);
    } else if a.CatalogStep? {
      UnseenCatalogStep(me, s, p, a);
    } else if a.OrderStep? {
      UnseenOrderStep(me, s, p, a);
    } else if a.AskCatalog? || a.MovieArrives? || a.MovieFails? {
      UnseenWait(me, s, p, a);
    } else {
      UnseenAnswer(me, s, p, a);
    }
  }

  lemma ReadyHolds(config: A.Config, schedule: seq<Action>)
    ensures Ready(Run(Init(config), schedule))
  {
    var o := Observer.Observe(config, schedule);
    Links.LinksHold(config, schedule);
    Identity.IdentityHolds(config, schedule);
    Snapshots.SnapshotsHold(config, schedule);
    Snapshots.RowsKeyed(o.sys, o.log);
    hide Links.LinksOk, Identity.IdentityOk, Run;
  }

  lemma {:induction false} PurgedRuns(config: A.Config, me: int, schedule: seq<Action>)
    ensures var s, purged := Init(config), Purge(me, Init(config), schedule);
            Proper(s, purged) && Own(me, Run(s, schedule), Run(s, purged))
  {
    if schedule != [] {
      var before := schedule[..|schedule| - 1];
      var a := schedule[|schedule| - 1];
      PurgedRuns(config, me, before);
      ReadyHolds(config, before);
      var s := Run(Init(config), before);
      var kept := Purge(me, Init(config), before);
      var p := Run(Init(config), kept);
      hide Ready, Own, Concerns, Next;
      if Enabled(s, a) {
        if Concerns(me, s, a) {
          Seen(me, s, p, a);
          assert (kept + [a])[..|kept + [a]| - 1] == kept;
        } else {
          Unseen(me, s, p, a);
        }
      }
    }
  }

  /** Nobody else's order request is left in the purged run, every request that stays is answered in it as
      in the full run, and the user's orders are the same. */
  lemma OthersOrdersDoNotMatter(config: A.Config, me: int, schedule: seq<Action>)
    ensures var s := Run(Init(config), schedule);
            var purged := Purge(me, Init(config), schedule);
            var p := Run(Init(config), purged);
            && Proper(Init(config), purged)
            && (forall r :: r in p.requests ==> KeepsRequest(me, p.requests[r]))
            && (forall r :: r in s.requests && KeepsRequest(me, s.requests[r]) ==>
                  r in p.requests && p.requests[r].answer == s.requests[r].answer)
            && (forall id :: id in s.orders.rows && s.orders.rows[id].userId == me ==>
                  id in p.orders.rows && p.orders.rows[id] == s.orders.rows[id])
  {
    PurgedRuns(config, me, schedule);
  }
}
