/** What clients of the order routes are answered, in every run. */
module OrderAnswers {
  import opened Wrappers
  import opened RpcErrors
  import opened Entities
  import opened Dtos
  import opened Money
  import opened Gateway
  import opened Cinema
  import opened Histories
  import opened OrderHistory
  import opened Answers
  import opened Verdicts
  import Identity
  import Links
  import Listings
  import MovieAnswers
  import Observer
  import Snapshots
  import A = AuthService
  import C = CatalogService
  import O = OrderService

  /** A handler on its way, in a reachable state. */
  ghost predicate Sound(s: System, t: Tid) {
    && t in s.orderTasks && Links.OrderTaskOk(s, t, s.orderTasks[t]) && ValidId(s.orderTasks[t].call.userId)
    && Listings.Keyed(s.orders.rows)
  }

  lemma SoundAt(config: A.Config, schedule: seq<Action>, t: Tid, i: nat)
    requires OrderMoveAt(config, schedule, t, i)
    ensures Sound(At(config, schedule, i), t)
  {
    var before := schedule[..i];
    Links.LinksHold(config, before);
    Identity.IdentityHolds(config, before);
    Snapshots.SnapshotsHold(config, before);
    Snapshots.RowsKeyed(Observer.Observe(config, before).sys, Observer.Observe(config, before).log);
    hide Run, Observer.Observe, Snapshots.SnapshotsOk, Enabled;
  }

  /** A handler that is not a create moves by steps on its table: it reads, and a cancellation then saves. */
  lemma OwnTable(s: System, a: Action, t: Tid)
    requires Sound(s, t) && Enabled(s, a) && Links.TouchesOrderTask(a, t) && !a.Arrive?
    requires !s.orderTasks[t].call.CreateOrder?
    ensures a.OrderStep? && O.CanStep(s.orders, s.orderTasks[t].call, s.orderTasks[t].pc, a.env)
    ensures s.orderTasks[t].pc.Start? || (s.orderTasks[t].pc.Loaded? && s.orderTasks[t].call.CancelUserOrder?)
  {
  }

  lemma TableStep(s: System, a: Action, t: Tid)
    requires a.OrderStep? && a.task == t && Enabled(s, a)
    ensures t in s.orderTasks && O.CanStep(s.orders, s.orderTasks[t].call, s.orderTasks[t].pc, a.env)
    ensures var n := Next(s, a);
            && t in n.orderTasks
            && n.orderTasks[t].pc == O.Step(s.orders, s.orderTasks[t].call, s.orderTasks[t].pc, a.env).pc
  {
    hide O.Step;
  }

  /** A handler that answers after its first read. */
  lemma ReadAnswers(config: A.Config, schedule: seq<Action>, t: Tid, i: nat)
    requires OrderMoveAt(config, schedule, t, i)
    requires At(config, schedule, i).orderTasks[t].call.FindUserOrders?
             || At(config, schedule, i).orderTasks[t].call.FindUserOrder?
    ensures Sound(At(config, schedule, i), t)
    ensures var s := At(config, schedule, i);
            && t in Next(s, schedule[i]).orderTasks
            && Next(s, schedule[i]).orderTasks[t].pc == O.Begin(s.orders.rows, s.orderTasks[t].call)
  {
    SoundAt(config, schedule, t, i);
    var s := At(config, schedule, i);
    hide At, Sound, O.Begin;
    OwnTable(s, schedule[i], t);
    TableStep(s, schedule[i], t);
    hide Next, Enabled;
  }

  /** GET /orders: 200, with the user's orders of one instant, each once, newest first. */
  lemma OrdersAnswered(config: A.Config, schedule: seq<Action>, r: Tid) returns (t: Tid, i: nat)
    requires var s := Run(Init(config), schedule);
             Heard(s, r) && s.requests[r].call == GetOrders
    ensures var request := Run(Init(config), schedule).requests[r];
            && OrderMoveAt(config, schedule, t, i) && request.user.Some?
            && request.answer.value.status == 200 && request.answer.value.body.Data?
            && ListsOrders(At(config, schedule, i).orders.rows, request.user.value.id, request.answer.value.body.reply)
  {
    t, i := OrderAnswered(config, schedule, r);
    ReadAnswers(config, schedule, t, i);
    var s := At(config, schedule, i);
    var userId := Run(Init(config), schedule).requests[r].user.value.id;
    assert s.orderTasks[t].call == O.FindUserOrders(userId);
    hide Run, At, Next, Heard, ListsOrders, OrderMoveAt, Enabled;
    UserOrdersAreReplied(s.orders.rows, userId);
    hide O.Begin;
  }

  ghost predicate ShowsOrder(rows: map<int, Order>, userId: int, id: int, answer: Answer) {
    && (!ValidId(id) ==> answer.status == 400)
    && (ValidId(id) && id in rows && rows[id].userId == userId ==>
          answer.status == 200 && answer.body.Data? && answer.body.reply.OrderReply?
          && Shows(answer.body.reply.order, rows[id]))
    && (ValidId(id) && !(id in rows && rows[id].userId == userId) ==> Says(answer, 404, NoOrder(id), "Not Found"))
  }

  lemma FindingIsShown(rows: map<int, Order>, userId: int, id: int, reply: Reply, answer: Answer)
    requires FindsOrder(rows, userId, id, reply) && Delivers(GetOrder(id), reply, answer)
    requires reply.Failed? ==> reply.payload.message != Undefined
    ensures ShowsOrder(rows, userId, id, answer)
  {
    hide Shows, NoOrder;
  }

  /** GET /orders/:id: the user's order as it is at one instant, and 404 exactly if the user has no such order then. */
  lemma OrderFound(config: A.Config, schedule: seq<Action>, r: Tid, id: int) returns (t: Tid, i: nat)
    requires var s := Run(Init(config), schedule);
             Heard(s, r) && s.requests[r].call == GetOrder(id)
    ensures var request := Run(Init(config), schedule).requests[r];
            && OrderMoveAt(config, schedule, t, i) && request.user.Some?
            && ShowsOrder(At(config, schedule, i).orders.rows, request.user.value.id, id, request.answer.value)
  {
    t, i := OrderAnswered(config, schedule, r);
    ReadAnswers(config, schedule, t, i);
    var s := At(config, schedule, i);
    var request := Run(Init(config), schedule).requests[r];
    assert s.orderTasks[t].call == O.FindUserOrder(request.user.value.id, id);
    hide Run, At, Next, Heard, FindsOrder, ShowsOrder, OrderMoveAt, Enabled, Delivers;
    FindOrderDecides(s.orders.rows, request.user.value.id, id);
    ReadIsComplete(s.orders.rows, request.user.value.id, id);
    hide O.Begin;
    FindingIsShown(s.orders.rows, request.user.value.id, id, Next(s, schedule[i]).orderTasks[t].pc.reply,
                   request.answer.value);
  }

  lemma ReadIsComplete(rows: map<int, Order>, userId: int, id: int)
    ensures var pc := O.Begin(rows, O.FindUserOrder(userId, id));
            pc.Done? && pc.reply.Failed? ==> pc.reply.payload.message != Undefined
  {
  }

  // ---- cancellations ----

  /** The move that brought a handler to where it makes another one. */
  lemma MoveBefore(config: A.Config, schedule: seq<Action>, t: Tid, last: nat) returns (j: nat)
    requires OrderMoveAt(config, schedule, t, last) && !At(config, schedule, last).orderTasks[t].pc.Start?
    ensures j < last && OrderMoveAt(config, schedule, t, j)
    ensures At(config, schedule, j).orderTasks[t].call == At(config, schedule, last).orderTasks[t].call
    ensures var n := Next(At(config, schedule, j), schedule[j]);
            t in n.orderTasks && n.orderTasks[t].pc == At(config, schedule, last).orderTasks[t].pc
  {
    hide Run, Enabled, Next;
    j := OrderReached(config, schedule[..last], t);
    assert schedule[..last][..j] == schedule[..j];
  }

  /** What a cancellation is answered that finds these orders. */
  ghost predicate ShowsCancellation(rows: map<int, Order>, userId: int, id: int, answer: Answer) {
    var owned := id in rows && rows[id].userId == userId;
    && (ValidId(id) && !owned ==> Says(answer, 404, NoOrder(id), "Not Found"))
    && (ValidId(id) && owned && rows[id].status == CANCELLED ==>
          Says(answer, 409, "Order " + Show(id) + " is already cancelled", "Conflict"))
    && (ValidId(id) && owned && rows[id].status == CONFIRMED ==>
          && answer.status == 200 && answer.body.Data? && answer.body.reply.OrderReply?
          && var order := answer.body.reply.order;
          Shows(order, rows[id].(status := CANCELLED, updatedAt := order.updatedAt)))
  }

  lemma RefusalIsShown(rows: map<int, Order>, userId: int, id: int, reply: Reply, answer: Answer)
    requires ValidId(userId) && O.Begin(rows, O.CancelUserOrder(userId, id)) == O.Done(reply)
    requires Delivers(PatchOrderCancel(id), reply, answer)
    ensures ShowsCancellation(rows, userId, id, answer)
  {
    if ValidId(id) {
      CancelDecides(rows, userId, id);
      hide O.Begin, NoOrder, Show;
    }
  }

  lemma SuccessIsShown(rows: map<int, Order>, userId: int, id: int, order: Order, now: int, reply: Reply,
                       answer: Answer)
    requires ValidId(userId) && O.Begin(rows, O.CancelUserOrder(userId, id)) == O.Loaded(order)
    requires reply == OrderReply(OrderView(order.(status := CANCELLED, updatedAt := now)))
    requires Delivers(PatchOrderCancel(id), reply, answer)
    ensures ShowsCancellation(rows, userId, id, answer)
  {
    hide ReadNumeric, Show;
  }

  /** PATCH /orders/:id/cancel: the table that the handler reads decides. 404 if the user has no such order, 409 if it
      is cancelled, and otherwise 200 with the order, cancelled and otherwise as it was. */
  lemma CancelAnswered(config: A.Config, schedule: seq<Action>, r: Tid, id: int) returns (t: Tid, i: nat)
    requires var s := Run(Init(config), schedule);
             Heard(s, r) && s.requests[r].call == PatchOrderCancel(id)
    ensures var request := Run(Init(config), schedule).requests[r];
            && OrderMoveAt(config, schedule, t, i) && request.user.Some?
            && At(config, schedule, i).orderTasks[t].pc.Start?
            && ShowsCancellation(At(config, schedule, i).orders.rows, request.user.value.id, id, request.answer.value)
  {
    var last;
    t, last := OrderAnswered(config, schedule, r);
    var request := Run(Init(config), schedule).requests[r];
    var s, a := At(config, schedule, last), schedule[last];
    SoundAt(config, schedule, t, last);
    OwnTable(s, a, t);
    TableStep(s, a, t);
    var reply := Next(s, a).orderTasks[t].pc.reply;
    if s.orderTasks[t].pc.Start? {
      i := last;
      hide Run, At, Next, Delivers, O.Begin, ShowsCancellation, Enabled;
      RefusalIsShown(s.orders.rows, request.user.value.id, id, reply, request.answer.value);
    } else {
      i := MoveBefore(config, schedule, t, last);
      LoadedByRead(config, schedule, t, i);
      hide Run, At, Next, Delivers, O.Begin, ShowsCancellation, OrderView, Enabled;
      SuccessIsShown(At(config, schedule, i).orders.rows, request.user.value.id, id, s.orderTasks[t].pc.order,
                     a.env.now, reply, request.answer.value);
    }
  }

  lemma LoadedByRead(config: A.Config, schedule: seq<Action>, t: Tid, i: nat)
    requires OrderMoveAt(config, schedule, t, i) && At(config, schedule, i).orderTasks[t].call.CancelUserOrder?
    requires t in Next(At(config, schedule, i), schedule[i]).orderTasks
    requires !Next(At(config, schedule, i), schedule[i]).orderTasks[t].pc.Done?
    ensures var s := At(config, schedule, i);
            && Sound(s, t) && s.orderTasks[t].pc.Start?
            && Next(s, schedule[i]).orderTasks[t].pc == O.Begin(s.orders.rows, s.orderTasks[t].call)
  {
    var s := At(config, schedule, i);
    SoundAt(config, schedule, t, i);
    OwnTable(s, schedule[i], t);
    TableStep(s, schedule[i], t);
    hide At, Next, O.Begin, Enabled;
  }

  // ---- creates ----

  /** Order handler t hears at instant k of the movie that catalog handler c has looked up for it at instant j. */
  ghost predicate CatalogRead(config: A.Config, schedule: seq<Action>, t: Tid, k: nat, c: Tid, j: nat, movieId: int) {
    && k < |schedule| && schedule[k] == MovieArrives(t) && t in At(config, schedule, k).orderTasks
    && At(config, schedule, k).orderTasks[t].pc == O.AwaitingMovie(c)
    && j < k && CatalogStepAt(config, schedule, c, j)
    && At(config, schedule, j).catalogTasks[c].call == C.FindOneMovie(movieId)
  }

  lemma HearStep(s: System, a: Action, t: Tid)
    requires Sound(s, t) && Enabled(s, a) && a == MovieArrives(t)
    ensures s.orderTasks[t].pc.AwaitingMovie? && s.orderTasks[t].call.CreateOrder?
    ensures var c, call := s.orderTasks[t].pc.child, s.orderTasks[t].call;
            && c in s.catalogTasks && s.catalogTasks[c].pc.Done?
            && s.catalogTasks[c].call == C.FindOneMovie(call.movieId)
            && t in Next(s, a).orderTasks
            && Next(s, a).orderTasks[t].pc == O.MovieArrived(call, s.catalogTasks[c].pc.reply)
  {
  }

  lemma MovieIsHeard(config: A.Config, schedule: seq<Action>, t: Tid, k: nat) returns (c: Tid, j: nat)
    requires OrderMoveAt(config, schedule, t, k) && schedule[k] == MovieArrives(t)
    requires At(config, schedule, k).orderTasks[t].call.CreateOrder?
    ensures var s := At(config, schedule, k);
            && CatalogRead(config, schedule, t, k, c, j, s.orderTasks[t].call.movieId) && c in s.catalogTasks
            && s.catalogTasks[c].pc.Done? && t in Next(s, schedule[k]).orderTasks
            && Next(s, schedule[k]).orderTasks[t].pc == O.MovieArrived(s.orderTasks[t].call, s.catalogTasks[c].pc.reply)
            && FindsMovie(At(config, schedule, j).catalog.rows, s.orderTasks[t].call.movieId,
                          s.catalogTasks[c].pc.reply)
  {
    var s := At(config, schedule, k);
    SoundAt(config, schedule, t, k);
    HearStep(s, schedule[k], t);
    hide Run, Next, O.MovieArrived, FindsMovie, Enabled, Sound;
    c := s.orderTasks[t].pc.child;
    j := CatalogReached(config, schedule[..k], c);
    assert schedule[..k][..j] == schedule[..j];
    MovieAnswers.ReadersStart(config, schedule, c, j);
    FindOneDecides(At(config, schedule, j).catalog.rows, s.orderTasks[t].call.movieId);
  }

  /** The ways in which the handler of a valid create moves. */
  lemma CreateMoves(s: System, a: Action, t: Tid)
    requires Sound(s, t) && Enabled(s, a) && Links.TouchesOrderTask(a, t) && !a.Arrive?
    requires O.AsksCatalog(s.orderTasks[t].call) && t in Next(s, a).orderTasks
    ensures var pc, new_ := s.orderTasks[t].pc, Next(s, a).orderTasks[t].pc;
            || (a.OrderStep? && pc.Saving? && new_ == O.Insert(s.orders, pc.draft, a.env).pc)
            || (a.AskCatalog? && new_.AwaitingMovie?)
            || (a == MovieArrives(t) && pc.AwaitingMovie?)
            || (a.MovieFails? && !a.fault.Remote? && new_ == O.MovieFailed(a.fault))
  {
    hide O.Insert, O.MovieFailed, O.MovieArrived;
  }

  /** A draft comes from the catalog's answer. */
  lemma SavingIsHeard(s: System, a: Action, t: Tid)
    requires Sound(s, t) && Enabled(s, a) && Links.TouchesOrderTask(a, t) && !a.Arrive?
    requires O.AsksCatalog(s.orderTasks[t].call) && t in Next(s, a).orderTasks && Next(s, a).orderTasks[t].pc.Saving?
    ensures a == MovieArrives(t)
  {
    CreateMoves(s, a, t);
    hide Next, Enabled;
  }

  lemma InsertSucceeds(config: A.Config, schedule: seq<Action>, t: Tid, i: nat)
    requires OrderMoveAt(config, schedule, t, i) && schedule[i].OrderStep?
    requires At(config, schedule, i).orderTasks[t].pc.Saving?
    ensures var s := At(config, schedule, i);
            && t in Next(s, schedule[i]).orderTasks
            && Next(s, schedule[i]).orderTasks[t].pc.Done? && Next(s, schedule[i]).orderTasks[t].pc.reply.OrderReply?
  {
    assert schedule[i] == OrderStep(t, schedule[i].env);
    hide Next, Run, Enabled;
    InsertsSucceed(config, schedule[..i], t, schedule[i].env);
    TableStep(At(config, schedule, i), schedule[i], t);
  }

  /** The catalog could not be asked: 504, 503 or 502, as the failure was, in the catalog's name. */
  ghost predicate CatalogFailed(answer: Answer, fault: Fault) {
    && answer.body.Problem? && !fault.Remote?
    && Classified("CATALOG_SERVICE", fault, RpcErrorPayload(answer.status, answer.body.message, answer.body.error))
  }

  /** The order that a create answers: the user's, of the movie as the catalog had it. */
  ghost predicate Orders(order: OrderResponse, userId: int, quantity: int, row: Movie) {
    && order.userId == userId && order.quantity == quantity && order.status == CONFIRMED
    && order.movieId == row.id && order.movieTitle == row.title && order.movieReleaseYear == row.releaseYear
    && order.ticketPrice == ReadNumeric(row.ticketPrice)
  }

  /** What the client is answered when the catalog has looked the movie up in these rows. */
  ghost predicate ShowsCreation(rows: map<int, Movie>, userId: int, movieId: int, quantity: int, answer: Answer) {
    && (movieId in rows ==>
          answer.status == 201 && answer.body.Data? && answer.body.reply.OrderReply?
          && Orders(answer.body.reply.order, userId, quantity, rows[movieId]))
    && (movieId !in rows ==> Says(answer, 404, NoMovie(movieId), "Not Found"))
  }

  lemma FailureIsShown(call: HttpCall, fault: Fault, answer: Answer)
    requires call.PostOrder? && !fault.Remote? && Delivers(call, O.MovieFailed(fault).reply, answer)
    ensures CatalogFailed(answer, fault)
  {
    CatalogFailureDecides(O.CreateOrder(1, 1, 1), fault, NoReply);
    FailureHasTexts(fault);
    hide Classified, ToHttpException;
  }

  lemma FailureHasTexts(fault: Fault)
    requires !fault.Remote?
    ensures O.MovieFailed(fault).Done? && O.MovieFailed(fault).reply.Failed?
    ensures O.MovieFailed(fault).reply.payload.message.Text? && O.MovieFailed(fault).reply.payload.error.Text?
  {
  }

  lemma MissIsShown(rows: map<int, Movie>, call: O.OrderCall, quantity: int, heard: Reply, answer: Answer)
    requires call.CreateOrder? && ValidId(call.movieId) && FindsMovie(rows, call.movieId, heard)
    requires O.MovieArrived(call, heard).Done?
    requires Delivers(PostOrder(call.movieId, quantity), O.MovieArrived(call, heard).reply, answer)
    ensures ShowsCreation(rows, call.userId, call.movieId, quantity, answer)
  {
    if call.movieId !in rows {
      RelaysRefusal(call, 404, NoMovie(call.movieId), "Not Found");
    }
    hide ToHttpException, NoMovie, O.DraftOf, Depicts, Orders;
  }

  lemma OrderIsShown(rows: map<int, Movie>, call: O.OrderCall, heard: Reply, db: O.OrderDb, env: Env, answer: Answer)
    requires call.CreateOrder? && ValidId(call.movieId) && FindsMovie(rows, call.movieId, heard)
    requires O.MovieArrived(call, heard).Saving?
    requires var pc := O.Insert(db, O.MovieArrived(call, heard).draft, env).pc;
             pc.Done? && pc.reply.OrderReply? && Delivers(PostOrder(call.movieId, call.quantity), pc.reply, answer)
    ensures ShowsCreation(rows, call.userId, call.movieId, call.quantity, answer)
  {
    hide NoMovie, ReadNumeric, OrderTotal, StoreNumeric;
    if call.movieId !in rows {
      RelaysRefusal(call, 404, NoMovie(call.movieId), "Not Found");
    }
  }

  /** The last move of the handler of a valid create, and what the client is answered then. */
  ghost predicate Ends(config: A.Config, schedule: seq<Action>, t: Tid, last: nat, answer: Answer) {
    && OrderMoveAt(config, schedule, t, last) && t in Next(At(config, schedule, last), schedule[last]).orderTasks
    && var call := At(config, schedule, last).orderTasks[t].call;
    var pc := Next(At(config, schedule, last), schedule[last]).orderTasks[t].pc;
    && O.AsksCatalog(call) && pc.Done? && Delivers(PostOrder(call.movieId, call.quantity), pc.reply, answer)
  }

  lemma EndsByMiss(config: A.Config, schedule: seq<Action>, t: Tid, last: nat, answer: Answer) returns (c: Tid, j: nat)
    requires Ends(config, schedule, t, last, answer) && schedule[last] == MovieArrives(t)
    ensures var call := At(config, schedule, last).orderTasks[t].call;
            && CatalogRead(config, schedule, t, last, c, j, call.movieId)
            && ShowsCreation(At(config, schedule, j).catalog.rows, call.userId, call.movieId, call.quantity, answer)
  {
    var s := At(config, schedule, last);
    hide At, Next, Delivers, O.MovieArrived, ShowsCreation, FindsMovie, CatalogRead;
    c, j := MovieIsHeard(config, schedule, t, last);
    MissIsShown(At(config, schedule, j).catalog.rows, s.orderTasks[t].call, s.orderTasks[t].call.quantity,
                s.catalogTasks[c].pc.reply, answer);
  }

  lemma EndsByInsert(config: A.Config, schedule: seq<Action>, t: Tid, last: nat, answer: Answer)
    returns (k: nat, c: Tid, j: nat)
    requires Ends(config, schedule, t, last, answer) && schedule[last].OrderStep?
    requires At(config, schedule, last).orderTasks[t].pc.Saving?
    ensures var call := At(config, schedule, last).orderTasks[t].call;
            && OrderMoveAt(config, schedule, t, k) && CatalogRead(config, schedule, t, k, c, j, call.movieId)
            && ShowsCreation(At(config, schedule, j).catalog.rows, call.userId, call.movieId, call.quantity, answer)
  {
    var s, a := At(config, schedule, last), schedule[last];
    var call := s.orderTasks[t].call;
    SoundAt(config, schedule, t, last);
    CreateMoves(s, a, t);
    InsertSucceeds(config, schedule, t, last);
    hide At, Next, Delivers, O.MovieArrived, O.Insert, ShowsCreation, FindsMovie, Sound, CatalogRead, O.AsksCatalog;
    k := MoveBefore(config, schedule, t, last);
    var before := At(config, schedule, k);
    SoundAt(config, schedule, t, k);
    SavingIsHeard(before, schedule[k], t);
    c, j := MovieIsHeard(config, schedule, t, k);
    OrderIsShown(At(config, schedule, j).catalog.rows, call, before.catalogTasks[c].pc.reply, s.orders, a.env, answer);
  }

  /** POST /orders for a valid body, whatever its two services do: if the handler hears from the catalog, the movies of
      the instant j at which the catalog looked decide, 201 with the order of just this movie or 404 exactly if there
      was none; if it does not, the answer is 504, 503 or 502 in the catalog's name. There is no other answer. */
  lemma PostOrderAnswered(config: A.Config, schedule: seq<Action>, r: Tid, movieId: int, quantity: int)
    returns (t: Tid, k: nat, c: Tid, j: nat)
    requires var s := Run(Init(config), schedule);
             Heard(s, r) && s.requests[r].call == PostOrder(movieId, quantity)
    requires ValidOrder(movieId, quantity)
    ensures var request := Run(Init(config), schedule).requests[r];
            && request.user.Some? && OrderMoveAt(config, schedule, t, k)
            && if schedule[k].MovieFails? then CatalogFailed(request.answer.value, schedule[k].fault)
               else
                 && CatalogRead(config, schedule, t, k, c, j, movieId)
                 && ShowsCreation(At(config, schedule, j).catalog.rows, request.user.value.id, movieId, quantity,
                                  request.answer.value)
  {
    t, k := OrderAnswered(config, schedule, r);
    var request := Run(Init(config), schedule).requests[r];
    var s, a := At(config, schedule, k), schedule[k];
    SoundAt(config, schedule, t, k);
    assert s.orderTasks[t].call == O.CreateOrder(request.user.value.id, movieId, quantity);
    CreateMoves(s, a, t);
    c, j := t, k;
    hide Run, At, Next, Delivers, O.MovieFailed, ShowsCreation, CatalogFailed, Enabled, Sound, CatalogRead;
    if a.MovieFails? {
      FailureIsShown(request.call, a.fault, request.answer.value);
    } else if a == MovieArrives(t) {
      c, j := EndsByMiss(config, schedule, t, k, request.answer.value);
    } else {
      k, c, j := EndsByInsert(config, schedule, t, k, request.answer.value);
    }
  }
}
