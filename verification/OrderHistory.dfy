/** Orders over whole runs: the snapshot each one holds, how often one is made, and what the client is told. */
module OrderHistory {
  import opened Entities
  import opened Gateway
  import opened Cinema
  import opened Observer
  import Identity
  import Links
  import Replies
  import Snapshots
  import A = AuthService
  import O = OrderService

  ghost function At(config: A.Config, schedule: seq<Action>, i: nat): System
    requires i <= |schedule|
  {
    Run(Init(config), schedule[..i])
  }

  /** Handler t exists at instant i and not before. */
  ghost predicate BeginsAt(config: A.Config, schedule: seq<Action>, t: Tid, i: nat) {
    1 <= i <= |schedule| && t in At(config, schedule, i).orderTasks && t !in At(config, schedule, i - 1).orderTasks
  }

  /** Handler t is done at instant j and not before. */
  ghost predicate EndsAt(config: A.Config, schedule: seq<Action>, t: Tid, j: nat) {
    && 1 <= j <= |schedule|
    && t in At(config, schedule, j).orderTasks && At(config, schedule, j).orderTasks[t].pc.Done?
    && t in At(config, schedule, j - 1).orderTasks && !At(config, schedule, j - 1).orderTasks[t].pc.Done?
  }

  lemma LaterPrefix(config: A.Config, schedule: seq<Action>, i: nat)
    requires schedule != [] && i < |schedule|
    ensures At(config, schedule, i) == At(config, schedule[..|schedule| - 1], i)
    ensures At(config, schedule, |schedule| - 1) == Run(Init(config), schedule[..|schedule| - 1])
    ensures At(config, schedule, |schedule|) == Run(Init(config), schedule)
  {
    hide Run;
    assert schedule[..i] == schedule[..|schedule| - 1][..i];
    assert schedule[..|schedule|] == schedule;
  }

  lemma NewHandlerBegins(s: System, log: Log, a: Action, t: Tid)
    requires t !in s.orderTasks && t in Next(s, a).orderTasks
    ensures t in Note(s, log, a).startedAt && Note(s, log, a).startedAt[t] == |log.versions|
    ensures Next(s, a).orderTasks[t].pc.Start?
  {
    Links.StepLeavesOthers(s, a);
    assert Enabled(s, a);
    hide Next, Effect;
    assert a.Arrive?;
    NewHandlerStarts(s, a, t);
  }

  lemma NewHandlerStarts(s: System, a: Action, t: Tid)
    requires a.Arrive? && Enabled(s, a) && t !in s.orderTasks && t in Next(s, a).orderTasks
    ensures t == a.task && Next(s, a).orderTasks[t].pc.Start?
  {
  }

  lemma FinishingHandlerEnds(s: System, log: Log, a: Action, t: Tid)
    requires t in s.orderTasks && !s.orderTasks[t].pc.Done?
    requires t in Next(s, a).orderTasks && Next(s, a).orderTasks[t].pc.Done?
    ensures t in Note(s, log, a).doneAt && Note(s, log, a).doneAt[t] == |log.versions|
  {
    Links.StepLeavesOthers(s, a);
    if a.Arrive? || a.AskCatalog? {
      NotByArrival(s, a, t);
    }
    hide Next, Effect;
  }

  lemma NotByArrival(s: System, a: Action, t: Tid)
    requires (a.Arrive? || a.AskCatalog?) && t in s.orderTasks && !s.orderTasks[t].pc.Done?
    ensures t in Next(s, a).orderTasks && !Next(s, a).orderTasks[t].pc.Done?
  {
  }

  lemma BeginStays(config: A.Config, schedule: seq<Action>, t: Tid, i: nat)
    requires schedule != [] && BeginsAt(config, schedule[..|schedule| - 1], t, i)
    ensures BeginsAt(config, schedule, t, i)
  {
    hide At;
    LaterPrefix(config, schedule, i);
    LaterPrefix(config, schedule, i - 1);
  }

  lemma EndStays(config: A.Config, schedule: seq<Action>, t: Tid, j: nat)
    requires schedule != [] && EndsAt(config, schedule[..|schedule| - 1], t, j)
    ensures EndsAt(config, schedule, t, j)
  {
    hide At;
    LaterPrefix(config, schedule, j);
    LaterPrefix(config, schedule, j - 1);
  }

  lemma LastInstant(config: A.Config, schedule: seq<Action>, t: Tid)
    requires schedule != []
    ensures var s, n := Run(Init(config), schedule[..|schedule| - 1]), Run(Init(config), schedule);
            && (t !in s.orderTasks && t in n.orderTasks ==> BeginsAt(config, schedule, t, |schedule|))
            && (t in s.orderTasks && !s.orderTasks[t].pc.Done? && t in n.orderTasks && n.orderTasks[t].pc.Done? ==>
                  EndsAt(config, schedule, t, |schedule|))
  {
    hide Run, At;
    LaterPrefix(config, schedule, 0);
  }

  /** The log's begin and end instants are those of the run. */
  lemma {:induction false} LogIsTrue(config: A.Config, schedule: seq<Action>, t: Tid)
    requires t in Run(Init(config), schedule).orderTasks
    ensures var log := Observe(config, schedule).log;
            && t in log.startedAt && BeginsAt(config, schedule, t, log.startedAt[t])
            && (Run(Init(config), schedule).orderTasks[t].pc.Done? ==>
                  t in log.doneAt && EndsAt(config, schedule, t, log.doneAt[t]))
  {
    var before := schedule[..|schedule| - 1];
    var a := schedule[|schedule| - 1];
    var s, log := Observe(config, before).sys, Observe(config, before).log;
    VersionsAreStates(config, before, 0);
    Snapshots.SnapshotsHold(config, before);
    Snapshots.NoteGrows(s, log, a);
    Links.StepContinues(s, a);
    LastInstant(config, schedule, t);
    assert Observe(config, schedule) == Observed(Next(s, a), Note(s, log, a));
    hide Observe, Next, Note, Snapshots.SnapshotsOk, Run, BeginsAt, EndsAt;
    if t in s.orderTasks {
      LogIsTrue(config, before, t);
      BeginStays(config, schedule, t, log.startedAt[t]);
      if s.orderTasks[t].pc.Done? {
        EndStays(config, schedule, t, log.doneAt[t]);
      } else if Next(s, a).orderTasks[t].pc.Done? {
        FinishingHandlerEnds(s, log, a, t);
      }
    } else {
      NewHandlerBegins(s, log, a, t);
    }
  }

  // ---- snapshots ----

  /** Order `id` was made by handler t, which began at instant i, read the catalog at instant m and was
      done at instant j; its snapshot is the movie's row at instant m, and its total is exact. */
  ghost predicate Snapshot(config: A.Config, schedule: seq<Action>, id: int, t: Tid, i: nat, m: nat, j: nat) {
    var s := Run(Init(config), schedule);
    && i <= m < j <= |schedule|
    && BeginsAt(config, schedule, t, i) && EndsAt(config, schedule, t, j)
    && t in s.orderTasks && id in s.orders.rows
    && Snapshots.Copies(s.orders.rows[id], s.orderTasks[t].call, At(config, schedule, m).catalog.rows)
    && Snapshots.Announces(s.orderTasks[t], s.orders.rows[id])
  }

  /** Snapshot consistency: in every run, each order holds one single version of one movie, which was in
      the catalog at one instant of the lifetime of the handler that made the order. */
  lemma OrdersAreSnapshots(config: A.Config, schedule: seq<Action>, id: int)
    requires id in Run(Init(config), schedule).orders.rows
    ensures exists t: Tid, i: nat, m: nat, j: nat :: Snapshot(config, schedule, id, t, i, m, j)
  {
    var s, log := Observe(config, schedule).sys, Observe(config, schedule).log;
    Snapshots.SnapshotsHold(config, schedule);
    assert Snapshots.OrderRowOk(s, log, id);
    var t := log.maker[id];
    LogIsTrue(config, schedule, t);
    VersionsAreStates(config, schedule, log.readAt[t]);
    assert Snapshot(config, schedule, id, t, log.startedAt[t], log.readAt[t], log.doneAt[t]);
  }

  lemma SnapshotRefers(config: A.Config, schedule: seq<Action>, id: int, t: Tid, i: nat, m: nat, j: nat)
    requires Snapshot(config, schedule, id, t, i, m, j)
    ensures m < |schedule|
    ensures Run(Init(config), schedule).orders.rows[id].movieId in At(config, schedule, m).catalog.rows
  {
    hide Run, At, BeginsAt, EndsAt, Snapshots.Announces;
  }

  /** Order `id` refers to a movie of instant m. */
  ghost predicate RefersAt(config: A.Config, schedule: seq<Action>, id: int, m: nat) {
    && m < |schedule| && id in Run(Init(config), schedule).orders.rows
    && Run(Init(config), schedule).orders.rows[id].movieId in At(config, schedule, m).catalog.rows
  }

  /** Referential integrity without foreign keys: the order's user is a row of users now, and its movie was a
      row of movies at some instant of the run, whatever has happened to that movie since. */
  lemma OrdersReferToUsersAndMovies(config: A.Config, schedule: seq<Action>, id: int)
    requires id in Run(Init(config), schedule).orders.rows
    ensures Run(Init(config), schedule).orders.rows[id].userId in Run(Init(config), schedule).auth.rows
    ensures exists m: nat :: RefersAt(config, schedule, id, m)
  {
    Identity.OrdersReferToUsers(config, schedule, id);
    OrdersAreSnapshots(config, schedule, id);
    hide Run, At, Snapshot;
    var t: Tid, i: nat, m: nat, j: nat :| Snapshot(config, schedule, id, t, i, m, j);
    SnapshotRefers(config, schedule, id, t, i, m, j);
    assert RefersAt(config, schedule, id, m);
  }

  /** Whatever happens later, no column of an order but its status and time of update changes, and no
      order disappears. */
  lemma {:induction false} SnapshotsNeverChange(config: A.Config, schedule: seq<Action>, later: seq<Action>)
    ensures Snapshots.OrdersGrow(Run(Init(config), schedule).orders, Run(Init(config), schedule + later).orders)
  {
    if later == [] {
      assert schedule + later == schedule;
    } else {
      var mid := later[..|later| - 1];
      SnapshotsNeverChange(config, schedule, mid);
      assert (schedule + later)[..|schedule + later| - 1] == schedule + mid;
      var o, a := Observe(config, schedule + mid), later[|later| - 1];
      assert Run(Init(config), schedule + later) == Next(o.sys, a);
      Snapshots.SnapshotsHold(config, schedule + mid);
      hide Run, Observe, Next, Snapshots.SnapshotsOk;
      Snapshots.OrdersOnlyGrow(o.sys, o.log, a);
    }
  }

  /** Every insert that an order handler attempts succeeds: the total fits its column and both CHECKs
      hold. The prices it answers are the Numbers any later read of the row delivers. */
  lemma InsertsSucceed(config: A.Config, schedule: seq<Action>, t: Tid, env: Env)
    requires var s := Run(Init(config), schedule);
             Enabled(s, OrderStep(t, env)) && s.orderTasks[t].pc.Saving?
    ensures var s := Run(Init(config), schedule);
            var n := Next(s, OrderStep(t, env));
            && env.id !in s.orders.rows && env.id in n.orders.rows
            && n.orderTasks[t].pc == O.Done(OrderReply(OrderView(n.orders.rows[env.id])))
            && n.orders.rows[env.id].totalPrice == n.orders.rows[env.id].ticketPrice * n.orders.rows[env.id].quantity
  {
    var s, log := Observe(config, schedule).sys, Observe(config, schedule).log;
    Snapshots.SnapshotsHold(config, schedule);
    Snapshots.IdsBelow(s, log);
    var row := Snapshots.InsertedRow(s, log, t, env);
    Snapshots.InsertShape(s, t, env, row);
  }

  // ---- at most once ----

  /** Order `id` is what handler t reported to have made. */
  ghost predicate MadeBy(s: System, id: int, t: Tid) {
    && t in s.orderTasks && s.orderTasks[t].call.CreateOrder? && s.orderTasks[t].pc.Done?
    && s.orderTasks[t].pc.reply.OrderReply? && s.orderTasks[t].pc.reply.order.id == id
  }

  /** Rows and successful creates are the same thing: every order was made by exactly one handler, for
      exactly one request, and every handler that reports an order has made it. */
  lemma OrdersHaveOneMaker(config: A.Config, schedule: seq<Action>)
    ensures var s := Run(Init(config), schedule);
            && (forall id :: id in s.orders.rows ==> exists t :: MadeBy(s, id, t))
            && (forall id, t :: MadeBy(s, id, t) ==> id in s.orders.rows)
            && (forall id, t, u :: MadeBy(s, id, t) && MadeBy(s, id, u) ==> t == u)
  {
    var s, log := Observe(config, schedule).sys, Observe(config, schedule).log;
    Snapshots.SnapshotsHold(config, schedule);
    forall id | id in s.orders.rows ensures exists t :: MadeBy(s, id, t) {
      assert Snapshots.OrderRowOk(s, log, id);
      assert MadeBy(s, id, log.maker[id]);
    }
    forall id, t | MadeBy(s, id, t) ensures id in log.maker && log.maker[id] == t && id in s.orders.rows {
      assert Snapshots.MadeOk(s, log, t, s.orderTasks[t]);
    }
  }

  /** The order was made on behalf of request r. */
  ghost predicate MadeFor(s: System, id: int, r: Tid) {
    exists t :: MadeBy(s, id, t) && s.orderTasks[t].request == r
  }

  /** Each POST /orders makes at most one order, whatever times out. */
  lemma AtMostOneOrderPerRequest(config: A.Config, schedule: seq<Action>, r: Tid, id: int, other: int)
    requires MadeFor(Run(Init(config), schedule), id, r) && MadeFor(Run(Init(config), schedule), other, r)
    ensures id == other
  {
    var s := Run(Init(config), schedule);
    Links.LinksHold(config, schedule);
    var t :| MadeBy(s, id, t) && s.orderTasks[t].request == r;
    var u :| MadeBy(s, other, u) && s.orderTasks[u].request == r;
    assert Links.OrderTaskOk(s, t, s.orderTasks[t]) && Links.OrderTaskOk(s, u, s.orderTasks[u]);
  }

  lemma MadeIsKept(s: System, n: System, id: int, t: Tid)
    requires Links.Continues(s, n) && MadeBy(s, id, t)
    ensures MadeBy(n, id, t) && n.orderTasks[t] == s.orderTasks[t]
  {
  }

  /** A request whose handler did not make an order has no order made for it. */
  lemma NothingMade(n: System, r: Tid)
    requires Links.LinksOk(n) && r in n.requests
    requires n.requests[r].child.OrderChild? ==>
               var t := n.requests[r].child.task;
               t in n.orderTasks && n.orderTasks[t].pc.Done? && n.orderTasks[t].pc.reply.Failed?
    ensures forall id :: !MadeFor(n, id, r)
  {
  }

  /** The handler of a POST /orders, and what its answer comes from. */
  lemma OrderAnswer(config: A.Config, s: System, schedule: seq<Action>, r: Tid)
    requires s == Run(Init(config), schedule) && r in s.requests
    requires s.requests[r].call.PostOrder? && s.requests[r].answer.Some?
    requires !ByClient(s.requests[r].call, s.requests[r].answer.value)
    ensures var answer := s.requests[r].answer.value;
            match s.requests[r].child
            case NoChild => answer.status != 201
            case OrderChild(t) =>
              && t in s.orderTasks && s.orderTasks[t].request == r && s.orderTasks[t].call.CreateOrder?
              && s.orderTasks[t].pc.Done?
              && var reply := s.orderTasks[t].pc.reply;
              && (reply.OrderReply? ==> answer == Answer(201, Data(reply)))
              && (!reply.OrderReply? ==> reply.Failed? && answer.status != 201)
            case _ => false
  {
    Links.LinksHold(config, schedule);
    Replies.RepliesHold(config, schedule);
    var request := s.requests[r];
    assert Links.ChildOk(s, r, request) && Links.AnswerOk(s, request);
    if request.child.OrderChild? {
      var t := request.child.task;
      Replies.AnswerKeepsStatus(request.call, s.orderTasks[t].pc.reply);
    }
  }

  /** What the client of a POST /orders may conclude from its answer. A success names the one order the
      request made, with the prices any read of that order delivers; every failure but one of the gateway's
      own, for its call of the order service, means that the request made no order and, in every continuation
      of the run, never will. */
  lemma AnswersTellTheTruth(config: A.Config, schedule: seq<Action>, later: seq<Action>, r: Tid)
    requires r in Run(Init(config), schedule).requests
    requires Run(Init(config), schedule).requests[r].call.PostOrder?
    requires Run(Init(config), schedule).requests[r].answer.Some?
    ensures var s := Run(Init(config), schedule);
            var n := Run(Init(config), schedule + later);
            var answer := s.requests[r].answer.value;
            && (answer.status == 201 ==>
                  && answer.body.Data? && answer.body.reply.OrderReply?
                  && var order := answer.body.reply.order;
                  && MadeFor(n, order.id, r) && order.id in n.orders.rows
                  && order == OrderView(n.orders.rows[order.id].(status := CONFIRMED,
                                                                 updatedAt := n.orders.rows[order.id].createdAt)))
            && (answer.status != 201 && !ByClient(s.requests[r].call, answer) ==>
                  forall id :: !MadeFor(n, id, r))
  {
    var s := Run(Init(config), schedule);
    var n := Run(Init(config), schedule + later);
    RunConcat(Init(config), schedule, later);
    Links.RunContinues(s, later);
    Links.LinksHold(config, schedule + later);
    if ByClient(s.requests[r].call, s.requests[r].answer.value) {
      ByClientBlames(s.requests[r].call, s.requests[r].answer.value);
    } else {
      OrderAnswer(config, s, schedule, r);
      hide ByClient;
      if s.requests[r].answer.value.status == 201 {
        var t := s.requests[r].child.task;
        var order := s.orderTasks[t].pc.reply.order;
        assert MadeBy(s, order.id, t);
        MadeIsKept(s, n, order.id, t);
        Snapshots.SnapshotsHold(config, schedule + later);
        var log := Observe(config, schedule + later).log;
        assert Snapshots.MadeOk(n, log, t, n.orderTasks[t]) && Snapshots.OrderRowOk(n, log, order.id);
        assert Snapshots.Announces(n.orderTasks[t], n.orders.rows[order.id]);
      } else {
        NothingMade(n, r);
      }
    }
  }

  /** The two services' names tell the gateway's own failures from the relayed ones. */
  lemma BlamesOneService(answer: Answer)
    requires Blames(answer, "CATALOG_SERVICE")
    ensures !Blames(answer, "ORDER_SERVICE")
  {
    var catalog, order := "CATALOG_SERVICE", "ORDER_SERVICE";
    var unexpected := "Unexpected response from ";
    assert (unexpected + catalog)[25] != (unexpected + order)[25];
    assert forall suffix :: (catalog + suffix)[0] == 'C' && (order + suffix)[0] == 'O';
  }

  /** A 502, 503 or 504 that blames the catalog was relayed by the order service: no order was made for the
      request, and none ever will be. */
  lemma BlamingTheCatalogMeansNoOrder(config: A.Config, schedule: seq<Action>, later: seq<Action>, r: Tid)
    requires r in Run(Init(config), schedule).requests
    requires Run(Init(config), schedule).requests[r].call.PostOrder?
    requires Run(Init(config), schedule).requests[r].answer.Some?
    requires Blames(Run(Init(config), schedule).requests[r].answer.value, "CATALOG_SERVICE")
    ensures forall id :: !MadeFor(Run(Init(config), schedule + later), id, r)
  {
    var request := Run(Init(config), schedule).requests[r];
    BlamesOneService(request.answer.value);
    if ByClient(request.call, request.answer.value) {
      ByClientBlames(request.call, request.answer.value);
    }
    AnswersTellTheTruth(config, schedule, later, r);
    hide Run, ByClient;
  }

  /** A request has one answer: late replies and late failures change nothing the client saw. */
  lemma AnswersAreFinal(s: System, later: seq<Action>, r: Tid)
    requires r in s.requests && s.requests[r].answer.Some?
    ensures r in Run(s, later).requests && Run(s, later).requests[r] == s.requests[r]
  {
    Links.RunContinues(s, later);
  }
}
