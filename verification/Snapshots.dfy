/** What an order records: one version of one movie, read while the order was being made. */
module Snapshots {
  import opened Entities
  import opened Money
  import opened Gateway
  import opened Cinema
  import opened Observer
  import Links
  import A = AuthService
  import C = CatalogService
  import O = OrderService

  /** Keys are ids, and prices fit their column. */
  ghost predicate MoviesOk(rows: map<int, Movie>) {
    forall id :: id in rows ==> rows[id].id == id && 0 <= rows[id].ticketPrice < NUMERIC_10_2
                                && |rows[id].title| <= 255 && -32768 <= rows[id].releaseYear < 32768
  }

  ghost predicate VersionsOk(s: System, log: Log) {
    && log.versions != [] && log.versions[|log.versions| - 1] == s.catalog.rows
    && (forall i :: 0 <= i < |log.versions| ==> MoviesOk(log.versions[i]))
  }

  /** Handler t began before now, and what it read it read since. */
  ghost predicate ReadSince(log: Log, t: Tid) {
    t in log.startedAt && t in log.readAt && log.startedAt[t] <= log.readAt[t] < |log.versions|
  }

  ghost predicate CatalogTaskOk(log: Log, t: Tid, task: CatalogTask) {
    && t in log.startedAt && log.startedAt[t] < |log.versions|
    && (task.call.FindOneMovie? ==> task.pc.Start? || task.pc.Done?)
    && (task.call.FindOneMovie? && task.pc.Done? && task.pc.reply.MovieReply? ==>
          && ReadSince(log, t)
          && task.call.id in log.versions[log.readAt[t]]
          && task.pc.reply.movie == MovieView(log.versions[log.readAt[t]][task.call.id]))
  }

  ghost predicate OrderTaskOk(log: Log, t: Tid, task: OrderTask) {
    && t in log.startedAt && log.startedAt[t] < |log.versions|
    && (task.pc.AwaitingMovie? ==>
          task.pc.child in log.startedAt && log.startedAt[t] <= log.startedAt[task.pc.child])
    && (task.pc.Saving? ==>
          && O.AsksCatalog(task.call)
          && ReadSince(log, t)
          && task.call.movieId in log.versions[log.readAt[t]]
          && task.pc.draft == O.DraftOf(task.call, MovieView(log.versions[log.readAt[t]][task.call.movieId])))
  }

  /** The row copies the movie of this version, and its total is exact. */
  predicate Copies(row: Order, call: O.OrderCall, version: map<int, Movie>) {
    && call.CreateOrder? && call.movieId in version
    && row.userId == call.userId && row.quantity == call.quantity
    && row.movieId == call.movieId
    && row.movieTitle == version[call.movieId].title
    && row.movieReleaseYear == version[call.movieId].releaseYear
    && row.ticketPrice == version[call.movieId].ticketPrice
    && row.totalPrice == row.ticketPrice * row.quantity
  }

  /** The reply of a create is the row it inserted, as read back from the database. */
  predicate Announces(task: OrderTask, row: Order) {
    && task.call.CreateOrder? && task.pc.Done?
    && task.pc.reply == OrderReply(OrderView(row.(status := CONFIRMED, updatedAt := row.createdAt)))
  }

  ghost predicate OrderRowOk(s: System, log: Log, id: int) {
    && id in s.orders.rows && s.orders.rows[id].id == id && 1 <= id < s.orders.next
    && id in log.maker && log.maker[id] in s.orderTasks
    && ReadSince(log, log.maker[id])
    && log.maker[id] in log.doneAt && log.readAt[log.maker[id]] < log.doneAt[log.maker[id]] < |log.versions|
    && Copies(s.orders.rows[id], s.orderTasks[log.maker[id]].call, log.versions[log.readAt[log.maker[id]]])
    && Announces(s.orderTasks[log.maker[id]], s.orders.rows[id])
  }

  /** A create that reports an order has inserted it. */
  ghost predicate MadeOk(s: System, log: Log, t: Tid, task: OrderTask) {
    task.call.CreateOrder? && task.pc.Done? && task.pc.reply.OrderReply? ==>
      task.pc.reply.order.id in s.orders.rows && task.pc.reply.order.id in log.maker
      && log.maker[task.pc.reply.order.id] == t
  }

  /** Nothing of a row but its status and its time of update ever differs from `row`. */
  predicate SameOrder(row: Order, other: Order) {
    other == row.(status := other.status, updatedAt := other.updatedAt)
  }

  /** The entity that a cancellation is about to save is its row, up to status and time of update. */
  ghost predicate LoadedOk(db: O.OrderDb, task: OrderTask) {
    task.pc.Loaded? ==> task.pc.order.id in db.rows && SameOrder(db.rows[task.pc.order.id], task.pc.order)
  }

  ghost predicate SnapshotsOk(s: System, log: Log) {
    && VersionsOk(s, log)
    && s.orders.next >= 1
    && s.catalogTasks.Keys !! s.orderTasks.Keys
    && (forall t :: t in s.orderTasks ==> LoadedOk(s.orders, s.orderTasks[t]))
    && (forall t :: t in s.catalogTasks ==> CatalogTaskOk(log, t, s.catalogTasks[t]))
    && (forall t :: t in s.orderTasks ==> OrderTaskOk(log, t, s.orderTasks[t]) && MadeOk(s, log, t, s.orderTasks[t]))
    && (forall id :: id in s.orders.rows ==> OrderRowOk(s, log, id))
  }

  // ---- one step ----

  lemma SavedMovieOk(db: C.CatalogDb, call: C.CatalogCall, pc: C.CatalogPc, env: Env)
    requires MoviesOk(db.rows) && C.CanStep(db, call, pc, env)
    ensures MoviesOk(C.Step(db, call, pc, env).db.rows)
  {
  }

  lemma VersionsKept(s: System, log: Log, a: Action)
    requires VersionsOk(s, log)
    ensures VersionsOk(Next(s, a), Note(s, log, a))
  {
    if a.CatalogStep? && Enabled(s, a) {
      var task := s.catalogTasks[a.task];
      SavedMovieOk(s.catalog, task.call, task.pc, a.env);
    }
  }

  /** The log only grows, and what it says of handlers that the action does not advance stays. */
  ghost predicate LogGrows(s: System, log: Log, a: Action, new_: Log) {
    && |log.versions| + 1 == |new_.versions|
    && (forall i :: 0 <= i < |log.versions| ==> new_.versions[i] == log.versions[i])
    && (forall t :: t in log.startedAt && (t in s.catalogTasks || t in s.orderTasks) ==>
          t in new_.startedAt && new_.startedAt[t] == log.startedAt[t])
    && (forall t :: t in log.readAt && t in s.catalogTasks && !Links.TouchesCatalogTask(a, t) ==>
          t in new_.readAt && new_.readAt[t] == log.readAt[t])
    && (forall t :: t in log.readAt && t in s.orderTasks
                    && (s.orderTasks[t].pc.Done? || !Links.TouchesOrderTask(a, t)) ==>
          t in new_.readAt && new_.readAt[t] == log.readAt[t])
    && (forall t :: t in log.doneAt && t in s.orderTasks
                    && (s.orderTasks[t].pc.Done? || !Links.TouchesOrderTask(a, t)) ==>
          t in new_.doneAt && new_.doneAt[t] == log.doneAt[t])
    && (forall id :: id in log.maker && id in s.orders.rows ==> id in new_.maker && new_.maker[id] == log.maker[id])
  }

  lemma BeginnersAreFresh(s: System, a: Action, when_: nat)
    requires Enabled(s, a)
    ensures forall t :: t in Begins(a, when_) ==> t !in s.catalogTasks && t !in s.orderTasks
  {
  }

  lemma ReadersAdvance(s: System, log: Log, a: Action)
    requires Enabled(s, a)
    ensures forall t :: t in Reads(s, log, a) ==>
              || (t in s.catalogTasks && Links.TouchesCatalogTask(a, t))
              || (t in s.orderTasks && Links.TouchesOrderTask(a, t) && !s.orderTasks[t].pc.Done?)
  {
  }

  lemma FinishersAdvance(s: System, n: System, a: Action, when_: nat)
    requires Enabled(s, a)
    ensures forall t :: t in Finishes(n, a, when_) ==>
              Links.TouchesOrderTask(a, t) && t in s.orderTasks && !s.orderTasks[t].pc.Done?
  {
  }

  lemma LogWithMoreGrows(s: System, log: Log, a: Action, rows: map<int, Movie>, begins: map<Tid, nat>,
                         looks: map<Tid, nat>, finishes: map<Tid, nat>, inserts: map<int, Tid>)
    requires s.catalogTasks.Keys !! s.orderTasks.Keys
    requires forall t :: t in begins ==> t !in s.catalogTasks && t !in s.orderTasks
    requires forall t :: t in looks ==>
               || (t in s.catalogTasks && Links.TouchesCatalogTask(a, t))
               || (t in s.orderTasks && Links.TouchesOrderTask(a, t) && !s.orderTasks[t].pc.Done?)
    requires forall t :: t in finishes ==>
               Links.TouchesOrderTask(a, t) && t in s.orderTasks && !s.orderTasks[t].pc.Done?
    requires forall id :: id in inserts ==> id !in s.orders.rows
    ensures LogGrows(s, log, a, Log(log.versions + [rows], log.startedAt + begins, log.readAt + looks,
                                    log.doneAt + finishes, log.maker + inserts))
  {
  }

  lemma NoteGrows(s: System, log: Log, a: Action)
    requires s.catalogTasks.Keys !! s.orderTasks.Keys && log.versions != []
    ensures LogGrows(s, log, a, Note(s, log, a))
  {
    var n := Next(s, a);
    hide Next, Begins, Reads, Finishes, LogGrows;
    if Enabled(s, a) {
      BeginnersAreFresh(s, a, |log.versions|);
      ReadersAdvance(s, log, a);
      FinishersAdvance(s, n, a, |log.versions|);
      hide Enabled;
      LogWithMoreGrows(s, log, a, n.catalog.rows, Begins(a, |log.versions|), Reads(s, log, a),
                       Finishes(n, a, |log.versions|), Inserts(s, n, a));
    } else {
      hide Enabled;
      StutterGrows(s, log, a, n.catalog.rows);
    }
  }

  lemma StutterGrows(s: System, log: Log, a: Action, rows: map<int, Movie>)
    ensures LogGrows(s, log, a, log.(versions := log.versions + [rows]))
  {
  }

  // ---- order rows ----

  /** Rows stay, up to status and time of update. */
  ghost predicate OrdersGrow(db: O.OrderDb, new_: O.OrderDb) {
    && db.next <= new_.next
    && forall id :: id in db.rows ==> id in new_.rows && SameOrder(db.rows[id], new_.rows[id])
  }

  lemma OrderStepGrows(db: O.OrderDb, task: OrderTask, env: Env)
    requires O.CanStep(db, task.call, task.pc, env) && LoadedOk(db, task)
    requires forall id :: id in db.rows ==> db.rows[id].id == id && id < db.next
    ensures var after := O.Step(db, task.call, task.pc, env);
            OrdersGrow(db, after.db) && LoadedOk(after.db, task.(pc := after.pc))
  {
  }

  lemma OnlyOrderSteps(s: System, a: Action)
    requires Next(s, a).orders != s.orders
    ensures a.OrderStep? && Enabled(s, a)
  {
  }

  lemma OrdersOnlyGrow(s: System, log: Log, a: Action)
    requires SnapshotsOk(s, log)
    ensures OrdersGrow(s.orders, Next(s, a).orders)
  {
    if Next(s, a).orders != s.orders {
      OnlyOrderSteps(s, a);
      assert forall id :: id in s.orders.rows ==> OrderRowOk(s, log, id);
      OrderStepGrows(s.orders, s.orderTasks[a.task], a.env);
    }
  }

  // ---- frames ----

  lemma FrameCatalogTask(s: System, log: Log, a: Action, new_: Log, t: Tid)
    requires LogGrows(s, log, a, new_) && t in s.catalogTasks && !Links.TouchesCatalogTask(a, t)
    requires CatalogTaskOk(log, t, s.catalogTasks[t])
    ensures CatalogTaskOk(new_, t, s.catalogTasks[t])
  {
  }

  lemma FrameOrderTask(s: System, log: Log, a: Action, new_: Log, t: Tid)
    requires LogGrows(s, log, a, new_) && t in s.orderTasks && !Links.TouchesOrderTask(a, t)
    requires OrderTaskOk(log, t, s.orderTasks[t]) && Links.OrderTaskOk(s, t, s.orderTasks[t])
    ensures OrderTaskOk(new_, t, s.orderTasks[t])
  {
  }

  lemma FrameMade(s: System, log: Log, a: Action, n: System, new_: Log, t: Tid)
    requires LogGrows(s, log, a, new_) && t in s.orderTasks && OrdersGrow(s.orders, n.orders)
    requires MadeOk(s, log, t, s.orderTasks[t]) && LoadedOk(s.orders, s.orderTasks[t])
    ensures MadeOk(n, new_, t, s.orderTasks[t]) && LoadedOk(n.orders, s.orderTasks[t])
  {
  }

  lemma FrameRow(s: System, log: Log, a: Action, n: System, new_: Log, id: int)
    requires LogGrows(s, log, a, new_) && OrdersGrow(s.orders, n.orders)
    requires Links.OrderTasksGo(s.orderTasks, n.orderTasks)
    requires OrderRowOk(s, log, id)
    ensures OrderRowOk(n, new_, id)
  {
  }

  // ---- the handler that an action advances ----

  lemma FoundOk(log: Log, new_: Log, t: Tid, task: CatalogTask, pc: C.CatalogPc)
    requires CatalogTaskOk(log, t, task) && log.versions != []
    requires task.call.FindOneMovie? ==>
               && task.pc.Start? && pc == C.Begin(log.versions[|log.versions| - 1], task.call)
               && t in new_.readAt && new_.readAt[t] == |log.versions| - 1
    requires new_.startedAt == log.startedAt && |new_.versions| == |log.versions| + 1
    requires forall i :: 0 <= i < |log.versions| ==> new_.versions[i] == log.versions[i]
    ensures CatalogTaskOk(new_, t, task.(pc := pc))
  {
  }

  lemma FindOneLogged(s: System, log: Log, t: Tid, env: Env)
    requires Enabled(s, CatalogStep(t, env)) && log.versions != []
    ensures var new_ := Note(s, log, CatalogStep(t, env));
            && new_.startedAt == log.startedAt && |new_.versions| == |log.versions| + 1
            && (forall i :: 0 <= i < |log.versions| ==> new_.versions[i] == log.versions[i])
            && (s.catalogTasks[t].pc.Start? ==> t in new_.readAt && new_.readAt[t] == |log.versions| - 1)
  {
  }

  lemma FindOneStep(s: System, log: Log, t: Tid, env: Env)
    requires SnapshotsOk(s, log) && Enabled(s, CatalogStep(t, env))
    ensures var a := CatalogStep(t, env);
            CatalogTaskOk(Note(s, log, a), t, Next(s, a).catalogTasks[t])
  {
    var task := s.catalogTasks[t];
    assert CatalogTaskOk(log, t, task);
    FindOneLogged(s, log, t, env);
    hide SnapshotsOk, Note, CatalogTaskOk, C.Begin;
    FoundOk(log, Note(s, log, CatalogStep(t, env)), t, task, C.Step(s.catalog, task.call, task.pc, env).pc);
  }

  /** The catalog's answer makes a draft of the version that the catalog's handler read. */
  lemma HeardOk(log: Log, new_: Log, t: Tid, task: OrderTask, child: CatalogTask)
    requires OrderTaskOk(log, t, task) && task.pc.AwaitingMovie? && O.AsksCatalog(task.call)
    requires CatalogTaskOk(log, task.pc.child, child)
    requires child.call == C.FindOneMovie(task.call.movieId) && child.pc.Done?
    requires new_.startedAt == log.startedAt && |new_.versions| == |log.versions| + 1
    requires forall i :: 0 <= i < |log.versions| ==> new_.versions[i] == log.versions[i]
    requires task.pc.child in log.readAt ==> t in new_.readAt && new_.readAt[t] == log.readAt[task.pc.child]
    ensures OrderTaskOk(new_, t, task.(pc := O.MovieArrived(task.call, child.pc.reply)))
  {
    hide O.AsksCatalog, O.DraftOf, MovieView;
  }

  lemma HearLogged(s: System, log: Log, t: Tid)
    requires Enabled(s, MovieArrives(t)) && log.versions != []
    ensures var new_ := Note(s, log, MovieArrives(t));
            && new_.startedAt == log.startedAt && |new_.versions| == |log.versions| + 1
            && (forall i :: 0 <= i < |log.versions| ==> new_.versions[i] == log.versions[i])
            && (s.orderTasks[t].pc.child in log.readAt ==>
                  t in new_.readAt && new_.readAt[t] == log.readAt[s.orderTasks[t].pc.child])
  {
    assert AwaitsMovie(s, t);
    UnionOfNone(log.startedAt);
    hide Next, Enabled, Finishes, Inserts;
  }

  lemma HearShape(s: System, t: Tid)
    requires Enabled(s, MovieArrives(t))
    ensures var task := s.orderTasks[t];
            && AwaitsMovie(s, t) && task.pc.child in s.catalogTasks && s.catalogTasks[task.pc.child].pc.Done?
            && t in Next(s, MovieArrives(t)).orderTasks
            && Next(s, MovieArrives(t)).orderTasks[t]
               == task.(pc := O.MovieArrived(task.call, s.catalogTasks[task.pc.child].pc.reply))
  {
    hide O.MovieArrived;
  }

  lemma MovieArrivesStep(s: System, log: Log, t: Tid)
    requires SnapshotsOk(s, log) && Links.LinksOk(s) && Enabled(s, MovieArrives(t))
    ensures t in Next(s, MovieArrives(t)).orderTasks
    ensures OrderTaskOk(Note(s, log, MovieArrives(t)), t, Next(s, MovieArrives(t)).orderTasks[t])
  {
    var task := s.orderTasks[t];
    HearShape(s, t);
    HearLogged(s, log, t);
    assert Links.OrderTaskOk(s, t, task) && OrderTaskOk(log, t, task);
    assert CatalogTaskOk(log, task.pc.child, s.catalogTasks[task.pc.child]);
    hide SnapshotsOk, Links.LinksOk, Next, Note, Enabled, OrderTaskOk, CatalogTaskOk;
    HeardOk(log, Note(s, log, MovieArrives(t)), t, task, s.catalogTasks[task.pc.child]);
  }

  /** The only texts the driver can send for an entity made from a catalog row store that row's cents,
      so every constraint of the orders table holds and the insert succeeds. */
  lemma InsertCopies(db: O.OrderDb, call: O.OrderCall, movie: Movie, env: Env)
    requires O.AsksCatalog(call) && 0 <= movie.ticketPrice < NUMERIC_10_2
    requires |movie.title| <= 255 && -32768 <= movie.releaseYear < 32768
    requires var draft := O.DraftOf(call, MovieView(movie));
             TextOf(env.priceText, draft.ticketPrice) && TextOf(env.totalText, draft.totalPrice)
    ensures var row := Order(env.id, call.userId, movie.id, movie.title, movie.releaseYear, movie.ticketPrice,
                             call.quantity, movie.ticketPrice * call.quantity, CONFIRMED, env.now, env.now);
            O.Insert(db, O.DraftOf(call, MovieView(movie)), env)
            == After(O.OrderDb(db.rows[env.id := row], env.id + 1), O.Done(OrderReply(OrderView(row))))
  {
    OrderTotalIsExact(movie.ticketPrice, call.quantity);
    StoredTotalIsExact(movie.ticketPrice, call.quantity, env.priceText, env.totalText);
  }

  /** What an insert does to the state and to the log. */
  lemma InsertShape(s: System, t: Tid, env: Env, row: Order)
    requires Enabled(s, OrderStep(t, env)) && s.orderTasks[t].pc.Saving?
    requires O.Insert(s.orders, s.orderTasks[t].pc.draft, env)
             == After(O.OrderDb(s.orders.rows[env.id := row], env.id + 1), O.Done(OrderReply(OrderView(row))))
    ensures Next(s, OrderStep(t, env))
            == s.(orders := O.OrderDb(s.orders.rows[env.id := row], env.id + 1),
                  orderTasks := s.orderTasks[t := s.orderTasks[t].(pc := O.Done(OrderReply(OrderView(row))))])
  {
    hide O.Insert, OrderView, O.CanStep;
  }

  lemma InsertLogged(s: System, log: Log, n: System, t: Tid, env: Env)
    requires t in s.orderTasks && s.orderTasks[t].pc.Saving? && t in n.orderTasks && n.orderTasks[t].pc.Done?
    requires env.id !in s.orders.rows && env.id in n.orders.rows
    ensures var a := OrderStep(t, env);
            && Begins(a, |log.versions|) == map[] && Reads(s, log, a) == map[]
            && Finishes(n, a, |log.versions|) == map[t := |log.versions|]
            && Inserts(s, n, a) == map[env.id := t]
  {
  }

  lemma InsertNote(s: System, log: Log, t: Tid, env: Env, n: System)
    requires Enabled(s, OrderStep(t, env)) && n == Next(s, OrderStep(t, env))
    requires t in s.orderTasks && s.orderTasks[t].pc.Saving? && t in n.orderTasks && n.orderTasks[t].pc.Done?
    requires env.id !in s.orders.rows && env.id in n.orders.rows
    ensures var new_ := Note(s, log, OrderStep(t, env));
            && new_.versions == log.versions + [n.catalog.rows]
            && new_.startedAt == log.startedAt && new_.readAt == log.readAt
            && new_.doneAt == log.doneAt[t := |log.versions|]
            && new_.maker == log.maker[env.id := t]
  {
    InsertLogged(s, log, n, t, env);
    hide Next, Enabled, Begins, Reads, Finishes, Inserts;
    UnionOfNone(log.startedAt);
    UnionOfNone(log.readAt);
    UnionOfOne(log.doneAt, t, |log.versions|);
    UnionOfOne(log.maker, env.id, t);
  }

  lemma UnionOfNone<K, V>(m: map<K, V>)
    ensures m + map[] == m
  {
  }

  lemma UnionOfOne<K, V>(m: map<K, V>, k: K, v: V)
    ensures m + map[k := v] == m[k := v]
  {
  }

  /** The row that an insert adds. */
  lemma InsertedRow(s: System, log: Log, t: Tid, env: Env) returns (row: Order)
    requires SnapshotsOk(s, log) && Enabled(s, OrderStep(t, env)) && s.orderTasks[t].pc.Saving?
    ensures t in s.orderTasks && ReadSince(log, t) && row.id == env.id && s.orders.next <= env.id
    ensures Copies(row, s.orderTasks[t].call, log.versions[log.readAt[t]])
    ensures row.status == CONFIRMED && row.updatedAt == row.createdAt
    ensures O.Insert(s.orders, s.orderTasks[t].pc.draft, env)
            == After(O.OrderDb(s.orders.rows[env.id := row], env.id + 1), O.Done(OrderReply(OrderView(row))))
  {
    var task := s.orderTasks[t];
    assert OrderTaskOk(log, t, task);
    var version := log.versions[log.readAt[t]];
    assert MoviesOk(version);
    var movie := version[task.call.movieId];
    InsertCopies(s.orders, task.call, movie, env);
    row := Order(env.id, task.call.userId, movie.id, movie.title, movie.releaseYear, movie.ticketPrice,
                 task.call.quantity, movie.ticketPrice * task.call.quantity, CONFIRMED, env.now, env.now);
    hide Effect, O.Insert, OrderTotal, ReadNumeric;
  }

  lemma InsertStep(s: System, log: Log, t: Tid, env: Env)
    requires SnapshotsOk(s, log) && Enabled(s, OrderStep(t, env)) && s.orderTasks[t].pc.Saving?
    ensures var a := OrderStep(t, env);
            AdvancedOk(s, a, Next(s, a), Note(s, log, a))
  {
    var row := InsertedRow(s, log, t, env);
    IdsBelow(s, log);
    hide SnapshotsOk, Enabled, Effect, O.Insert, OrderView, Copies, ReadSince, Next, Note;
    InsertShape(s, t, env, row);
    InsertNote(s, log, t, env, Next(s, OrderStep(t, env)));
    InsertAdvances(s, log, Next(s, OrderStep(t, env)), Note(s, log, OrderStep(t, env)), t, env, row);
  }

  lemma IdsBelow(s: System, log: Log)
    requires SnapshotsOk(s, log)
    ensures forall id :: id in s.orders.rows ==> id < s.orders.next
  {
  }

  lemma InsertAdvances(s: System, log: Log, n: System, new_: Log, t: Tid, env: Env, row: Order)
    requires SnapshotsOk(s, log)
    requires t in s.orderTasks && ReadSince(log, t) && row.id == env.id >= s.orders.next
    requires Copies(row, s.orderTasks[t].call, log.versions[log.readAt[t]])
    requires row.status == CONFIRMED && row.updatedAt == row.createdAt
    requires n.orders == O.OrderDb(s.orders.rows[env.id := row], env.id + 1) && n.catalogTasks == s.catalogTasks
    requires n.orderTasks == s.orderTasks[t := s.orderTasks[t].(pc := O.Done(OrderReply(OrderView(row))))]
    requires new_.versions == log.versions + [s.catalog.rows]
    requires new_.startedAt == log.startedAt && new_.readAt == log.readAt
    requires new_.doneAt == log.doneAt[t := |log.versions|] && new_.maker == log.maker[env.id := t]
    ensures AdvancedOk(s, OrderStep(t, env), n, new_)
  {
    InsertedRowOk(s, log, n, new_, t, row);
    assert OrderTaskOk(log, t, s.orderTasks[t]);
    InsertedHandlerOk(s, log, n, new_, t, row);
    hide OrderRowOk, VersionsOk, CatalogTaskOk, OrderTaskOk, MadeOk, LoadedOk, OrderView, Copies, ReadSince;
  }

  lemma InsertedHandlerOk(s: System, log: Log, n: System, new_: Log, t: Tid, row: Order)
    requires t in s.orderTasks && OrderTaskOk(log, t, s.orderTasks[t])
    requires n.orders == O.OrderDb(s.orders.rows[row.id := row], row.id + 1)
    requires n.orderTasks == s.orderTasks[t := s.orderTasks[t].(pc := O.Done(OrderReply(OrderView(row))))]
    requires |new_.versions| == |log.versions| + 1 && new_.startedAt == log.startedAt
    requires new_.maker == log.maker[row.id := t]
    ensures OrderTaskOk(new_, t, n.orderTasks[t]) && MadeOk(n, new_, t, n.orderTasks[t])
    ensures LoadedOk(n.orders, n.orderTasks[t])
  {
  }

  lemma InsertedRowOk(s: System, log: Log, n: System, new_: Log, t: Tid, row: Order)
    requires t in s.orderTasks && ReadSince(log, t) && log.readAt[t] < |log.versions|
    requires Copies(row, s.orderTasks[t].call, log.versions[log.readAt[t]])
    requires row.status == CONFIRMED && row.updatedAt == row.createdAt && row.id >= 1
    requires n.orders == O.OrderDb(s.orders.rows[row.id := row], row.id + 1)
    requires n.orderTasks == s.orderTasks[t := s.orderTasks[t].(pc := O.Done(OrderReply(OrderView(row))))]
    requires new_.versions == log.versions + [s.catalog.rows]
    requires new_.startedAt == log.startedAt && new_.readAt == log.readAt
    requires new_.doneAt == log.doneAt[t := |log.versions|] && new_.maker == log.maker[row.id := t]
    ensures OrderRowOk(n, new_, row.id)
  {
  }

  /** Everything that the action advances or inserts is in order afterwards. */
  ghost predicate AdvancedOk(s: System, a: Action, n: System, new_: Log) {
    && (forall t :: t in n.catalogTasks && Links.TouchesCatalogTask(a, t) ==> CatalogTaskOk(new_, t, n.catalogTasks[t]))
    && (forall t :: t in n.orderTasks && Links.TouchesOrderTask(a, t) ==>
          && OrderTaskOk(new_, t, n.orderTasks[t]) && MadeOk(n, new_, t, n.orderTasks[t])
          && LoadedOk(n.orders, n.orderTasks[t]))
    && (forall id :: id in n.orders.rows && id !in s.orders.rows ==> OrderRowOk(n, new_, id))
    && n.catalogTasks.Keys !! n.orderTasks.Keys && n.orders.next >= 1
  }

  /** What an arrival does to handlers and log. */
  lemma ArrivalShape(s: System, log: Log, a: Action)
    requires a.Arrive? && Enabled(s, a)
    ensures var n := Next(s, a);
            && n.orders == s.orders
            && (n.catalogTasks == s.catalogTasks || n.orderTasks == s.orderTasks)
            && (forall t :: t in n.catalogTasks && t !in s.catalogTasks ==>
                  t == a.task && n.catalogTasks[t].pc == C.Start)
            && (forall t :: t in n.orderTasks && t !in s.orderTasks ==> t == a.task && n.orderTasks[t].pc == O.Start)
            && a.task !in s.orderTasks && a.task !in s.catalogTasks
    ensures var new_ := Note(s, log, a);
            && |new_.versions| == |log.versions| + 1
            && a.task in new_.startedAt && new_.startedAt[a.task] == |log.versions|
  {
    Links.ArrivalAdds(s, a);
    hide Effect, Reads, Finishes, Inserts;
  }

  lemma NewHandlersOk(s: System, log: Log, a: Action, n: System, new_: Log)
    requires SnapshotsOk(s, log) && a.Arrive? && a.task !in s.orderTasks && a.task !in s.catalogTasks
    requires n.orders == s.orders && (n.catalogTasks == s.catalogTasks || n.orderTasks == s.orderTasks)
    requires forall t :: t in n.catalogTasks && t !in s.catalogTasks ==> t == a.task && n.catalogTasks[t].pc == C.Start
    requires forall t :: t in n.orderTasks && t !in s.orderTasks ==> t == a.task && n.orderTasks[t].pc == O.Start
    requires |new_.versions| == |log.versions| + 1 && a.task in new_.startedAt
    requires new_.startedAt[a.task] == |log.versions|
    ensures AdvancedOk(s, a, n, new_)
  {
  }

  lemma ArrivalAdvances(s: System, log: Log, a: Action)
    requires SnapshotsOk(s, log) && a.Arrive? && Enabled(s, a)
    ensures AdvancedOk(s, a, Next(s, a), Note(s, log, a))
  {
    ArrivalShape(s, log, a);
    hide SnapshotsOk, Enabled, Effect, Next, Note, AdvancedOk;
    NewHandlersOk(s, log, a, Next(s, a), Note(s, log, a));
  }

  lemma CatalogAdvances(s: System, log: Log, a: Action)
    requires SnapshotsOk(s, log) && a.CatalogStep? && Enabled(s, a)
    ensures AdvancedOk(s, a, Next(s, a), Note(s, log, a))
  {
    FindOneStep(s, log, a.task, a.env);
    hide CatalogTaskOk, OrderRowOk, OrderTaskOk;
  }

  lemma OrderReadShape(s: System, log: Log, t: Tid, env: Env)
    requires Enabled(s, OrderStep(t, env)) && !s.orderTasks[t].pc.Saving?
    ensures var n := Next(s, OrderStep(t, env));
            var after := O.Step(s.orders, s.orderTasks[t].call, s.orderTasks[t].pc, env);
            && n.orders == after.db && n.catalogTasks == s.catalogTasks
            && n.orderTasks == s.orderTasks[t := s.orderTasks[t].(pc := after.pc)]
    ensures var new_ := Note(s, log, OrderStep(t, env));
            && |new_.versions| == |log.versions| + 1 && new_.startedAt == log.startedAt
  {
  }

  lemma OrderReadPc(db: O.OrderDb, task: OrderTask, env: Env)
    requires O.CanStep(db, task.call, task.pc, env) && !task.pc.Saving?
    requires LoadedOk(db, task) && (task.pc.Loaded? ==> task.call.CancelUserOrder?)
    ensures var after := O.Step(db, task.call, task.pc, env);
            && (after.pc.Loaded? || after.pc.Done?)
            && (task.call.CreateOrder? && after.pc.Done? ==> !after.pc.reply.OrderReply?)
            && after.db.rows.Keys == db.rows.Keys && after.db.next == db.next
  {
  }

  lemma OrderReadStep(s: System, log: Log, t: Tid, env: Env)
    requires SnapshotsOk(s, log) && Links.LinksOk(s) && Enabled(s, OrderStep(t, env)) && !s.orderTasks[t].pc.Saving?
    ensures var a := OrderStep(t, env);
            AdvancedOk(s, a, Next(s, a), Note(s, log, a))
  {
    assert LoadedOk(s.orders, s.orderTasks[t]) && Links.OrderTaskOk(s, t, s.orderTasks[t]);
    OrderReadShape(s, log, t, env);
    RowsKeyed(s, log);
    OrderReadPc(s.orders, s.orderTasks[t], env);
    OrderStepGrows(s.orders, s.orderTasks[t], env);
    hide Enabled, Effect, Next, Note, O.Step, Links.LinksOk, Links.OrderTaskOk;
    OrderReadAdvances(s, log, Next(s, OrderStep(t, env)), Note(s, log, OrderStep(t, env)), t, env);
  }

  lemma RowsKeyed(s: System, log: Log)
    requires SnapshotsOk(s, log)
    ensures forall id :: id in s.orders.rows ==> s.orders.rows[id].id == id && id < s.orders.next
  {
  }

  lemma OrderReadAdvances(s: System, log: Log, n: System, new_: Log, t: Tid, env: Env)
    requires SnapshotsOk(s, log) && t in s.orderTasks && t in n.orderTasks
    requires n.orderTasks == s.orderTasks[t := n.orderTasks[t]] && n.orderTasks[t].call == s.orderTasks[t].call
    requires n.catalogTasks == s.catalogTasks
    requires n.orders.rows.Keys == s.orders.rows.Keys && n.orders.next == s.orders.next
    requires n.orderTasks[t].pc.Loaded? || n.orderTasks[t].pc.Done?
    requires n.orderTasks[t].call.CreateOrder? && n.orderTasks[t].pc.Done? ==> !n.orderTasks[t].pc.reply.OrderReply?
    requires LoadedOk(n.orders, n.orderTasks[t])
    requires |new_.versions| == |log.versions| + 1 && new_.startedAt == log.startedAt
    ensures AdvancedOk(s, OrderStep(t, env), n, new_)
  {
  }

  lemma OrderAdvances(s: System, log: Log, a: Action)
    requires SnapshotsOk(s, log) && Links.LinksOk(s) && a.OrderStep? && Enabled(s, a)
    ensures AdvancedOk(s, a, Next(s, a), Note(s, log, a))
  {
    hide SnapshotsOk, Links.LinksOk, Next, Effect, Note, AdvancedOk;
    if s.orderTasks[a.task].pc.Saving? {
      InsertStep(s, log, a.task, a.env);
    } else {
      OrderReadStep(s, log, a.task, a.env);
    }
  }

  lemma AskShape(s: System, log: Log, a: Action)
    requires a.AskCatalog? && Enabled(s, a)
    ensures var n := Next(s, a);
            && a.task in s.orderTasks && a.child !in s.catalogTasks && a.child !in s.orderTasks
            && n.orders == s.orders
            && n.orderTasks == s.orderTasks[a.task := s.orderTasks[a.task].(pc := O.AwaitingMovie(a.child))]
            && n.catalogTasks.Keys == s.catalogTasks.Keys + {a.child} && n.catalogTasks[a.child].pc == C.Start
            && O.AsksCatalog(s.orderTasks[a.task].call)
    ensures var new_ := Note(s, log, a);
            |new_.versions| == |log.versions| + 1 && new_.startedAt == log.startedAt[a.child := |log.versions|]
  {
  }

  lemma AskedOk(s: System, log: Log, a: Action, n: System, new_: Log)
    requires SnapshotsOk(s, log) && a.AskCatalog?
    requires a.task in s.orderTasks && a.child !in s.catalogTasks && a.child !in s.orderTasks && n.orders == s.orders
    requires n.orderTasks == s.orderTasks[a.task := s.orderTasks[a.task].(pc := O.AwaitingMovie(a.child))]
    requires n.catalogTasks.Keys == s.catalogTasks.Keys + {a.child} && n.catalogTasks[a.child].pc == C.Start
    requires |new_.versions| == |log.versions| + 1 && new_.startedAt == log.startedAt[a.child := |log.versions|]
    ensures AdvancedOk(s, a, n, new_)
  {
  }

  lemma AskAdvances(s: System, log: Log, a: Action)
    requires SnapshotsOk(s, log) && a.AskCatalog? && Enabled(s, a)
    ensures AdvancedOk(s, a, Next(s, a), Note(s, log, a))
  {
    AskShape(s, log, a);
    hide SnapshotsOk, AdvancedOk, Enabled, Effect, Next, Note;
    AskedOk(s, log, a, Next(s, a), Note(s, log, a));
  }

  lemma MovieStep(s: System, log: Log, a: Action)
    requires SnapshotsOk(s, log) && Links.LinksOk(s) && Enabled(s, a) && (a.MovieArrives? || a.MovieFails?)
    ensures a.task in Next(s, a).orderTasks && OrderTaskOk(Note(s, log, a), a.task, Next(s, a).orderTasks[a.task])
  {
    assert OrderTaskOk(log, a.task, s.orderTasks[a.task]);
    if a.MovieArrives? {
      MovieArrivesStep(s, log, a.task);
    }
  }

  lemma MovieAdvances(s: System, log: Log, a: Action)
    requires SnapshotsOk(s, log) && Links.LinksOk(s) && Enabled(s, a) && (a.MovieArrives? || a.MovieFails?)
    ensures AdvancedOk(s, a, Next(s, a), Note(s, log, a))
  {
    MovieStep(s, log, a);
    MovieShape(s, a);
    hide Enabled, Effect, Next, Note, Links.LinksOk, SnapshotsOk, AdvancedOk, OrderTaskOk;
    MovieHandlerOk(s, log, a, Next(s, a), Note(s, log, a));
  }

  lemma MovieHandlerOk(s: System, log: Log, a: Action, n: System, new_: Log)
    requires SnapshotsOk(s, log) && (a.MovieArrives? || a.MovieFails?)
    requires n.orders == s.orders && n.catalogTasks == s.catalogTasks
    requires a.task in s.orderTasks && a.task in n.orderTasks
    requires n.orderTasks == s.orderTasks[a.task := n.orderTasks[a.task]]
    requires OrderTaskOk(new_, a.task, n.orderTasks[a.task])
    requires var pc := n.orderTasks[a.task].pc;
             pc.Saving? || (pc.Done? && !pc.reply.OrderReply?)
    ensures AdvancedOk(s, a, n, new_)
  {
    hide OrderRowOk, VersionsOk, OrderTaskOk, CatalogTaskOk;
  }

  lemma MovieShape(s: System, a: Action)
    requires Enabled(s, a) && (a.MovieArrives? || a.MovieFails?)
    ensures var n := Next(s, a);
            && n.orders == s.orders && n.catalogTasks == s.catalogTasks && n.catalog == s.catalog
            && a.task in s.orderTasks && n.orderTasks == s.orderTasks[a.task := n.orderTasks[a.task]]
            && var pc := n.orderTasks[a.task].pc;
            pc.Saving? || (pc.Done? && !pc.reply.OrderReply?)
  {
  }

  lemma AnswerAdvances(s: System, log: Log, a: Action)
    requires SnapshotsOk(s, log) && Enabled(s, a) && (a.Boot? || a.AuthStep? || a.ReplyArrives? || a.RpcFails?)
    ensures AdvancedOk(s, a, Next(s, a), Note(s, log, a))
  {
    AnswerShape(s, a);
    hide Next, Note, Enabled, SnapshotsOk, AdvancedOk;
    NothingAdvanced(s, log, a, Next(s, a), Note(s, log, a));
  }

  lemma NothingAdvanced(s: System, log: Log, a: Action, n: System, new_: Log)
    requires SnapshotsOk(s, log) && (a.Boot? || a.AuthStep? || a.ReplyArrives? || a.RpcFails?)
    requires n.orders == s.orders && n.catalogTasks == s.catalogTasks && n.orderTasks == s.orderTasks
    ensures AdvancedOk(s, a, n, new_)
  {
    hide CatalogTaskOk, OrderTaskOk, MadeOk, LoadedOk, OrderRowOk, VersionsOk;
  }

  lemma AnswerShape(s: System, a: Action)
    requires Enabled(s, a) && (a.Boot? || a.AuthStep? || a.ReplyArrives? || a.RpcFails?)
    ensures var n := Next(s, a);
            n.orders == s.orders && n.catalogTasks == s.catalogTasks && n.orderTasks == s.orderTasks
  {
    hide A.Step, A.CanStep, ReplyOf, AnswerReply, AnswerFault;
  }

  lemma StepAdvances(s: System, log: Log, a: Action)
    requires SnapshotsOk(s, log) && Links.LinksOk(s) && Enabled(s, a)
    ensures AdvancedOk(s, a, Next(s, a), Note(s, log, a))
  {
    hide Next, Effect, Note, SnapshotsOk, AdvancedOk;
    if a.Arrive? {
      ArrivalAdvances(s, log, a);
    } else if a.CatalogStep? {
      CatalogAdvances(s, log, a);
    } else if a.OrderStep? {
      OrderAdvances(s, log, a);
    } else if a.AskCatalog? {
      AskAdvances(s, log, a);
    } else if a.MovieArrives? || a.MovieFails? {
      MovieAdvances(s, log, a);
    } else {
      AnswerAdvances(s, log, a);
    }
  }

  lemma CatalogFrames(s: System, log: Log, a: Action, n: System, new_: Log)
    requires SnapshotsOk(s, log) && LogGrows(s, log, a, new_) && Links.OthersAlone(s, a, n) && AdvancedOk(s, a, n, new_)
    ensures forall t :: t in n.catalogTasks ==> CatalogTaskOk(new_, t, n.catalogTasks[t])
  {
    hide CatalogTaskOk, OrderTaskOk, MadeOk, OrderRowOk, VersionsOk, LogGrows, LoadedOk;
    forall t | t in n.catalogTasks ensures CatalogTaskOk(new_, t, n.catalogTasks[t]) {
      if !Links.TouchesCatalogTask(a, t) { FrameCatalogTask(s, log, a, new_, t); }
    }
  }

  lemma OrderFrames(s: System, log: Log, a: Action, n: System, new_: Log)
    requires SnapshotsOk(s, log) && Links.LinksOk(s)
    requires LogGrows(s, log, a, new_) && OrdersGrow(s.orders, n.orders)
    requires Links.OthersAlone(s, a, n) && AdvancedOk(s, a, n, new_)
    ensures forall t :: t in n.orderTasks ==>
              && OrderTaskOk(new_, t, n.orderTasks[t]) && MadeOk(n, new_, t, n.orderTasks[t])
              && LoadedOk(n.orders, n.orderTasks[t])
  {
    hide CatalogTaskOk, OrderTaskOk, MadeOk, OrderRowOk, VersionsOk, LogGrows, LoadedOk, OrdersGrow, Links.OrderTaskOk;
    forall t | t in n.orderTasks
      ensures OrderTaskOk(new_, t, n.orderTasks[t]) && MadeOk(n, new_, t, n.orderTasks[t])
      ensures LoadedOk(n.orders, n.orderTasks[t])
    {
      if !Links.TouchesOrderTask(a, t) {
        FrameOrderTask(s, log, a, new_, t);
        FrameMade(s, log, a, n, new_, t);
      }
    }
  }

  lemma RowFrames(s: System, log: Log, a: Action, n: System, new_: Log)
    requires SnapshotsOk(s, log) && LogGrows(s, log, a, new_) && OrdersGrow(s.orders, n.orders)
    requires Links.OrderTasksGo(s.orderTasks, n.orderTasks) && AdvancedOk(s, a, n, new_)
    ensures forall id :: id in n.orders.rows ==> OrderRowOk(n, new_, id)
  {
    hide CatalogTaskOk, OrderTaskOk, MadeOk, OrderRowOk, VersionsOk, LogGrows, LoadedOk, OrdersGrow, Links.OrderTasksGo;
    forall id | id in n.orders.rows ensures OrderRowOk(n, new_, id) {
      if id in s.orders.rows { FrameRow(s, log, a, n, new_, id); }
    }
  }

  lemma Assembled(n: System, new_: Log)
    requires VersionsOk(n, new_) && n.orders.next >= 1 && n.catalogTasks.Keys !! n.orderTasks.Keys
    requires forall t :: t in n.catalogTasks ==> CatalogTaskOk(new_, t, n.catalogTasks[t])
    requires forall t :: t in n.orderTasks ==>
               && OrderTaskOk(new_, t, n.orderTasks[t]) && MadeOk(n, new_, t, n.orderTasks[t])
               && LoadedOk(n.orders, n.orderTasks[t])
    requires forall id :: id in n.orders.rows ==> OrderRowOk(n, new_, id)
    ensures SnapshotsOk(n, new_)
  {
    hide CatalogTaskOk, OrderTaskOk, MadeOk, OrderRowOk, VersionsOk, LoadedOk;
  }

  lemma FramesHold(s: System, log: Log, a: Action, n: System, new_: Log)
    requires SnapshotsOk(s, log) && Links.LinksOk(s)
    requires VersionsOk(n, new_) && LogGrows(s, log, a, new_) && OrdersGrow(s.orders, n.orders)
    requires Links.Continues(s, n) && Links.OthersAlone(s, a, n) && AdvancedOk(s, a, n, new_)
    ensures SnapshotsOk(n, new_)
  {
    assert n.orders.next >= 1 && n.catalogTasks.Keys !! n.orderTasks.Keys by {
      hide SnapshotsOk, Links.LinksOk, LogGrows;
    }
    assert Links.OrderTasksGo(s.orderTasks, n.orderTasks);
    hide SnapshotsOk, AdvancedOk, VersionsOk, LogGrows, OrdersGrow, Links.LinksOk, Links.Continues, Links.OthersAlone,
      CatalogTaskOk, OrderTaskOk, MadeOk, LoadedOk, OrderRowOk, Links.OrderTasksGo;
    CatalogFrames(s, log, a, n, new_);
    OrderFrames(s, log, a, n, new_);
    RowFrames(s, log, a, n, new_);
    Assembled(n, new_);
  }

  lemma StutterHolds(s: System, log: Log, new_: Log)
    requires SnapshotsOk(s, log) && new_ == log.(versions := log.versions + [s.catalog.rows]) && VersionsOk(s, new_)
    ensures SnapshotsOk(s, new_)
  {
  }

  lemma SnapshotsKept(s: System, log: Log, a: Action)
    requires SnapshotsOk(s, log) && Links.LinksOk(s)
    ensures SnapshotsOk(Next(s, a), Note(s, log, a))
  {
    hide Effect;
    VersionsKept(s, log, a);
    if Enabled(s, a) {
      NoteGrows(s, log, a);
      OrdersOnlyGrow(s, log, a);
      Links.StepContinues(s, a);
      Links.StepLeavesOthers(s, a);
      StepAdvances(s, log, a);
      hide Enabled, Note, Next, VersionsOk;
      FramesHold(s, log, a, Next(s, a), Note(s, log, a));
    } else {
      StutterHolds(s, log, Note(s, log, a));
    }
  }

  lemma {:induction false} SnapshotsHold(config: A.Config, schedule: seq<Action>)
    ensures SnapshotsOk(Observe(config, schedule).sys, Observe(config, schedule).log)
  {
    if schedule != [] {
      var before := schedule[..|schedule| - 1];
      SnapshotsHold(config, before);
      Links.LinksHold(config, before);
      SnapshotsKept(Observe(config, before).sys, Observe(config, before).log, schedule[|schedule| - 1]);
    }
  }
}
