/** Cancelling orders: a status flips at most once, what the handler read decides its answer, and of
    cancellations that do not overlap exactly the first succeeds. */
module Cancellation {
  import opened Entities
  import opened Dtos
  import opened Cinema
  import opened Observer
  import opened OrderHistory
  import Identity
  import Links
  import Snapshots
  import A = AuthService
  import O = OrderService

  /** The orders table at every instant of a run. */
  type Tables = seq<map<int, Order>>

  ghost function TablesOf(config: A.Config, schedule: seq<Action>): (tables: Tables)
    ensures |tables| == |schedule| + 1
  {
    if schedule == [] then [map[]]
    else TablesOf(config, schedule[..|schedule| - 1]) + [Run(Init(config), schedule).orders.rows]
  }

  lemma {:induction false} TableAt(config: A.Config, schedule: seq<Action>, i: nat)
    requires i <= |schedule|
    ensures TablesOf(config, schedule)[i] == At(config, schedule, i).orders.rows
  {
    hide Next;
    if i == |schedule| {
      assert schedule[..i] == schedule;
    } else {
      TableAt(config, schedule[..|schedule| - 1], i);
      assert schedule[..|schedule| - 1][..i] == schedule[..i];
    }
  }

  /** Row `id` is cancelled. */
  predicate IsCancelled(rows: map<int, Order>, id: int) {
    id in rows && rows[id].status == CANCELLED
  }

  /** What a cancellation is told when its handler reads this table. */
  ghost predicate Verdict(rows: map<int, Order>, call: O.OrderCall, reply: Reply)
    requires call.CancelUserOrder?
  {
    if !ValidId(call.userId) || !ValidId(call.orderId) then reply.Failed? && reply.payload.statusCode == 400
    else if !O.Owned(rows, call.userId, call.orderId) then reply.Failed? && reply.payload.statusCode == 404
    else if IsCancelled(rows, call.orderId) then reply.Failed? && reply.payload.statusCode == 409
    else reply.OrderReply? && reply.order.id == call.orderId && reply.order.status == CANCELLED
  }

  // ---- the invariant ----

  /** A done cancellation has been told what the table it read says, and a success was carried out. */
  ghost predicate OutcomeOk(tables: Tables, log: Log, t: Tid, call: O.OrderCall, reply: Reply)
    requires call.CancelUserOrder?
  {
    && Snapshots.ReadSince(log, t) && t in log.doneAt && log.readAt[t] < log.doneAt[t] < |tables|
    && Verdict(tables[log.readAt[t]], call, reply)
    && (reply.OrderReply? ==> IsCancelled(tables[log.doneAt[t]], call.orderId))
  }

  /** A loaded cancellation holds the owner's order, confirmed when it was read. */
  ghost predicate LoadedOk(tables: Tables, log: Log, t: Tid, call: O.OrderCall, order: Order)
    requires call.CancelUserOrder?
  {
    && ValidId(call.userId) && ValidId(call.orderId) && order.id == call.orderId && order.userId == call.userId
    && Snapshots.ReadSince(log, t) && log.readAt[t] < |tables|
    && O.Owned(tables[log.readAt[t]], call.userId, call.orderId)
    && !IsCancelled(tables[log.readAt[t]], call.orderId)
  }

  ghost predicate CancelTaskOk(tables: Tables, log: Log, t: Tid, task: OrderTask) {
    task.call.CancelUserOrder? ==>
      match task.pc
      case Start => true
      case Loaded(order) => LoadedOk(tables, log, t, task.call, order)
      case Done(reply) => OutcomeOk(tables, log, t, task.call, reply)
      case _ => false
  }

  /** Handler t, the owner's, cancelled the order and was done by instant i. */
  ghost predicate CancelledBy(s: System, log: Log, userId: int, id: int, i: nat, t: Tid) {
    && t in s.orderTasks && s.orderTasks[t].call == O.CancelUserOrder(userId, id)
    && s.orderTasks[t].pc.Done? && t in log.doneAt && log.doneAt[t] <= i
  }

  ghost predicate FlipsOk(s: System, tables: Tables, log: Log) {
    forall i, id :: 0 <= i < |tables| && IsCancelled(tables[i], id) ==>
      exists t :: CancelledBy(s, log, tables[i][id].userId, id, i, t)
  }

  ghost predicate CancelOk(s: System, tables: Tables, log: Log) {
    && |tables| == |log.versions| && tables != [] && tables[|tables| - 1] == s.orders.rows
    && (forall t :: t in s.orderTasks ==> CancelTaskOk(tables, log, t, s.orderTasks[t]))
    && FlipsOk(s, tables, log)
  }

  /** The action completes the owner's cancellation of order `id`, which becomes `row`. */
  predicate Flips(s: System, a: Action, id: int, row: Order) {
    && a.OrderStep? && a.task in s.orderTasks && id in s.orders.rows
    && s.orderTasks[a.task].pc.Loaded?
    && s.orderTasks[a.task].call == O.CancelUserOrder(s.orders.rows[id].userId, id)
    && row == s.orders.rows[id].(status := CANCELLED, updatedAt := a.env.now)
  }

  // ---- one step of the order service ----

  /** Nothing un-cancels an order, and a step cancels at most the order it has loaded. */
  lemma StepMoves(db: O.OrderDb, task: OrderTask, env: Env)
    requires O.CanStep(db, task.call, task.pc, env) && Snapshots.LoadedOk(db, task)
    requires forall id :: id in db.rows ==> db.rows[id].id == id && id < db.next
    ensures var after := O.Step(db, task.call, task.pc, env);
            forall id :: id in db.rows ==>
              && id in after.db.rows
              && (task.pc.Loaded? && id == task.pc.order.id ==>
                    after.db.rows[id] == db.rows[id].(status := CANCELLED, updatedAt := env.now))
              && (!(task.pc.Loaded? && id == task.pc.order.id) ==> after.db.rows[id] == db.rows[id])
  {
  }

  /** In one step an order changes only by its owner's cancellation of just that order, and then only its
      status, to CANCELLED, and its time of update. */
  lemma StatusMoves(s: System, log: Log, tables: Tables, a: Action)
    requires Snapshots.SnapshotsOk(s, log) && Links.LinksOk(s) && CancelOk(s, tables, log)
    ensures forall id :: id in s.orders.rows ==>
              && id in Next(s, a).orders.rows
              && (Next(s, a).orders.rows[id] != s.orders.rows[id] ==> Flips(s, a, id, Next(s, a).orders.rows[id]))
  {
    if Next(s, a).orders != s.orders {
      Snapshots.RowsKeyed(s, log);
      Snapshots.OnlyOrderSteps(s, a);
      var task := s.orderTasks[a.task];
      assert Snapshots.LoadedOk(s.orders, task) && CancelTaskOk(tables, log, a.task, task)
             && Links.OrderTaskOk(s, a.task, task);
      StepMoves(s.orders, task, a.env);
      assert Next(s, a).orders == O.Step(s.orders, task.call, task.pc, a.env).db;
      hide O.Step, O.CanStep, Next, Links.OrderTaskOk, Snapshots.SnapshotsOk;
    }
  }

  /** A cancellation that has read the table has its verdict, or the confirmed order. */
  lemma ReadDecides(rows: map<int, Order>, call: O.OrderCall)
    requires call.CancelUserOrder? && forall id :: id in rows ==> rows[id].id == id
    ensures var pc := O.Begin(rows, call);
            || (pc.Done? && pc.reply.Failed? && Verdict(rows, call, pc.reply))
            || (pc.Loaded? && ValidId(call.userId) && ValidId(call.orderId)
                && O.Owned(rows, call.userId, call.orderId) && !IsCancelled(rows, call.orderId)
                && pc.order == rows[call.orderId])
  {
  }

  lemma CancelShape(s: System, t: Tid, env: Env)
    requires Enabled(s, OrderStep(t, env))
    ensures var n := Next(s, OrderStep(t, env));
            var after := O.Step(s.orders, s.orderTasks[t].call, s.orderTasks[t].pc, env);
            n.orders == after.db && n.orderTasks == s.orderTasks[t := s.orderTasks[t].(pc := after.pc)]
  {
  }

  lemma CancelLogged(s: System, log: Log, t: Tid, env: Env)
    requires Enabled(s, OrderStep(t, env)) && log.versions != []
    requires !s.orderTasks[t].pc.Saving? && t in Next(s, OrderStep(t, env)).orderTasks
    ensures var new_ := Note(s, log, OrderStep(t, env));
            && new_.startedAt == log.startedAt && |new_.versions| == |log.versions| + 1
            && new_.readAt == (if s.orderTasks[t].pc.Start? then log.readAt[t := |log.versions| - 1] else log.readAt)
            && (Next(s, OrderStep(t, env)).orderTasks[t].pc.Done? ==>
                  t in new_.doneAt && new_.doneAt[t] == |log.versions|)
  {
  }

  lemma ReadOk(tables: Tables, log: Log, new_: Log, t: Tid, call: O.OrderCall, pc: O.OrderPc)
    requires call.CancelUserOrder? && tables != [] && |tables| == |log.versions|
    requires var rows := tables[|tables| - 1];
             pc == O.Begin(rows, call) && forall id :: id in rows ==> rows[id].id == id
    requires t in log.startedAt && log.startedAt[t] < |log.versions|
    requires new_.startedAt == log.startedAt && |new_.versions| == |log.versions| + 1
    requires new_.readAt == log.readAt[t := |log.versions| - 1]
    requires pc.Done? ==> t in new_.doneAt && new_.doneAt[t] == |log.versions|
    ensures var more := tables + [tables[|tables| - 1]];
            if pc.Loaded? then LoadedOk(more, new_, t, call, pc.order)
            else pc.Done? && OutcomeOk(more, new_, t, call, pc.reply)
  {
    ReadDecides(tables[|tables| - 1], call);
    hide O.Begin, Verdict;
  }

  lemma ReadStep(s: System, tables: Tables, log: Log, t: Tid, env: Env)
    requires Snapshots.SnapshotsOk(s, log) && CancelOk(s, tables, log)
    requires Enabled(s, OrderStep(t, env)) && s.orderTasks[t].call.CancelUserOrder? && s.orderTasks[t].pc.Start?
    ensures var n := Next(s, OrderStep(t, env));
            CancelTaskOk(tables + [n.orders.rows], Note(s, log, OrderStep(t, env)), t, n.orderTasks[t])
  {
    var task := s.orderTasks[t];
    Snapshots.RowsKeyed(s, log);
    CancelShape(s, t, env);
    CancelLogged(s, log, t, env);
    assert Snapshots.OrderTaskOk(log, t, task);
    hide Snapshots.SnapshotsOk, Next, Enabled, Note, O.Begin, LoadedOk, OutcomeOk;
    ReadOk(tables, log, Note(s, log, OrderStep(t, env)), t, task.call, O.Begin(s.orders.rows, task.call));
  }

  lemma SaveStep(s: System, tables: Tables, log: Log, t: Tid, env: Env)
    requires Snapshots.SnapshotsOk(s, log) && CancelOk(s, tables, log)
    requires Enabled(s, OrderStep(t, env)) && s.orderTasks[t].call.CancelUserOrder? && s.orderTasks[t].pc.Loaded?
    ensures var n := Next(s, OrderStep(t, env));
            CancelTaskOk(tables + [n.orders.rows], Note(s, log, OrderStep(t, env)), t, n.orderTasks[t])
  {
  }

  /** No other action advances a cancellation. */
  lemma OthersDoNotCancel(s: System, a: Action)
    requires Links.LinksOk(s) && Enabled(s, a) && !a.OrderStep?
    ensures forall t :: t in Next(s, a).orderTasks && Links.TouchesOrderTask(a, t) ==>
              Next(s, a).orderTasks[t].call.CancelUserOrder? ==> Next(s, a).orderTasks[t].pc.Start?
  {
  }

  lemma TouchedCancelOk(s: System, tables: Tables, log: Log, a: Action, t: Tid)
    requires Snapshots.SnapshotsOk(s, log) && Links.LinksOk(s) && CancelOk(s, tables, log) && Enabled(s, a)
    requires t in Next(s, a).orderTasks && Links.TouchesOrderTask(a, t)
    ensures CancelTaskOk(tables + [Next(s, a).orders.rows], Note(s, log, a), t, Next(s, a).orderTasks[t])
  {
    if a.OrderStep? {
      CancelShape(s, t, a.env);
      assert CancelTaskOk(tables, log, t, s.orderTasks[t]);
      hide Snapshots.SnapshotsOk, Links.LinksOk, Next, Note, O.Step, CancelOk;
      if s.orderTasks[t].call.CancelUserOrder? {
        if s.orderTasks[t].pc.Start? {
          ReadStep(s, tables, log, t, a.env);
        } else {
          SaveStep(s, tables, log, t, a.env);
        }
      }
    } else {
      OthersDoNotCancel(s, a);
      hide Snapshots.SnapshotsOk, Links.LinksOk, Next, Note, Enabled;
    }
  }

  lemma FrameCancelTask(s: System, tables: Tables, log: Log, a: Action, new_: Log, rows: map<int, Order>, t: Tid)
    requires Snapshots.LogGrows(s, log, a, new_) && t in s.orderTasks && !Links.TouchesOrderTask(a, t)
    requires CancelTaskOk(tables, log, t, s.orderTasks[t]) && t in log.startedAt && |tables| == |log.versions|
    ensures CancelTaskOk(tables + [rows], new_, t, s.orderTasks[t])
  {
  }

  // ---- who cancelled ----

  lemma FrameCancelledBy(s: System, log: Log, a: Action, n: System, new_: Log, userId: int, id: int, i: nat, t: Tid)
    requires Snapshots.LogGrows(s, log, a, new_) && Links.OrderTasksGo(s.orderTasks, n.orderTasks)
    requires CancelledBy(s, log, userId, id, i, t)
    ensures CancelledBy(n, new_, userId, id, i, t)
  {
  }

  lemma FlipsStep(s: System, tables: Tables, log: Log, a: Action, id: int)
    requires Snapshots.SnapshotsOk(s, log) && Links.LinksOk(s) && CancelOk(s, tables, log)
    requires id in s.orders.rows && !IsCancelled(s.orders.rows, id) && IsCancelled(Next(s, a).orders.rows, id)
    ensures CancelledBy(Next(s, a), Note(s, log, a), Next(s, a).orders.rows[id].userId, id, |tables|, a.task)
  {
    StatusMoves(s, log, tables, a);
    assert Flips(s, a, id, Next(s, a).orders.rows[id]);
    CancelShape(s, a.task, a.env);
    CancelLogged(s, log, a.task, a.env);
  }

  lemma NewRowsAreConfirmed(s: System, log: Log, a: Action, id: int)
    requires Snapshots.SnapshotsOk(s, log) && id !in s.orders.rows && id in Next(s, a).orders.rows
    ensures Next(s, a).orders.rows[id].status == CONFIRMED
  {
    Snapshots.OnlyOrderSteps(s, a);
    var task := s.orderTasks[a.task];
    assert Snapshots.LoadedOk(s.orders, task);
    CancelShape(s, a.task, a.env);
    hide Next, Snapshots.SnapshotsOk;
  }

  lemma StillCancelled(s: System, tables: Tables, log: Log, a: Action, n: System, new_: Log, id: int)
    requires Snapshots.LogGrows(s, log, a, new_) && Links.OrderTasksGo(s.orderTasks, n.orderTasks)
    requires FlipsOk(s, tables, log)
    requires tables != [] && tables[|tables| - 1] == s.orders.rows && IsCancelled(s.orders.rows, id)
    requires id in n.orders.rows && n.orders.rows[id].userId == s.orders.rows[id].userId
    ensures exists t :: CancelledBy(n, new_, n.orders.rows[id].userId, id, |tables|, t)
  {
    hide Snapshots.LogGrows, CancelledBy, Links.OrderTasksGo;
    var owner := s.orders.rows[id].userId;
    assert IsCancelled(tables[|tables| - 1], id);
    var t :| CancelledBy(s, log, owner, id, |tables| - 1, t);
    FrameCancelledBy(s, log, a, n, new_, owner, id, |tables| - 1, t);
    Later(n, new_, owner, id, |tables| - 1, |tables|, t);
  }

  lemma LastTableOk(s: System, tables: Tables, log: Log, a: Action, id: int)
    requires Snapshots.SnapshotsOk(s, log) && Links.LinksOk(s) && CancelOk(s, tables, log)
    requires IsCancelled(Next(s, a).orders.rows, id)
    requires Snapshots.LogGrows(s, log, a, Note(s, log, a))
    ensures exists t :: CancelledBy(Next(s, a), Note(s, log, a), Next(s, a).orders.rows[id].userId, id, |tables|, t)
  {
    hide Next, Note, Snapshots.SnapshotsOk, Links.LinksOk, Snapshots.LogGrows, CancelledBy, FlipsOk, CancelTaskOk;
    if id !in s.orders.rows {
      NewRowsAreConfirmed(s, log, a, id);
    } else if IsCancelled(s.orders.rows, id) {
      StatusMoves(s, log, tables, a);
      Links.StepContinues(s, a);
      StillCancelled(s, tables, log, a, Next(s, a), Note(s, log, a), id);
    } else {
      FlipsStep(s, tables, log, a, id);
    }
  }

  lemma Later(s: System, log: Log, userId: int, id: int, i: nat, j: nat, t: Tid)
    requires CancelledBy(s, log, userId, id, i, t) && i <= j
    ensures CancelledBy(s, log, userId, id, j, t)
  {
  }

  lemma TasksKept(s: System, tables: Tables, log: Log, a: Action)
    requires Snapshots.SnapshotsOk(s, log) && Links.LinksOk(s) && CancelOk(s, tables, log) && Enabled(s, a)
    requires Snapshots.LogGrows(s, log, a, Note(s, log, a))
    ensures var n := Next(s, a);
            forall t :: t in n.orderTasks ==>
              CancelTaskOk(tables + [n.orders.rows], Note(s, log, a), t, n.orderTasks[t])
  {
    Links.StepLeavesOthers(s, a);
    assert forall t :: t in s.orderTasks ==> Snapshots.OrderTaskOk(log, t, s.orderTasks[t]);
    hide Next, Note, Enabled, Snapshots.SnapshotsOk, Links.LinksOk, CancelTaskOk, Snapshots.LogGrows;
    var n, new_ := Next(s, a), Note(s, log, a);
    forall t | t in n.orderTasks ensures CancelTaskOk(tables + [n.orders.rows], new_, t, n.orderTasks[t]) {
      if Links.TouchesOrderTask(a, t) {
        TouchedCancelOk(s, tables, log, a, t);
      } else {
        FrameCancelTask(s, tables, log, a, new_, n.orders.rows, t);
      }
    }
  }

  lemma FlipsKept(s: System, tables: Tables, log: Log, a: Action)
    requires Snapshots.SnapshotsOk(s, log) && Links.LinksOk(s) && CancelOk(s, tables, log)
    requires Snapshots.LogGrows(s, log, a, Note(s, log, a))
    ensures FlipsOk(Next(s, a), tables + [Next(s, a).orders.rows], Note(s, log, a))
  {
    Links.StepContinues(s, a);
    hide Next, Note, Snapshots.SnapshotsOk, Links.LinksOk, CancelTaskOk, Snapshots.LogGrows, CancelledBy;
    var n, new_ := Next(s, a), Note(s, log, a);
    var more := tables + [n.orders.rows];
    forall i, id | 0 <= i < |more| && IsCancelled(more[i], id)
      ensures exists t :: CancelledBy(n, new_, more[i][id].userId, id, i, t)
    {
      if i < |tables| {
        var t :| CancelledBy(s, log, tables[i][id].userId, id, i, t);
        FrameCancelledBy(s, log, a, n, new_, tables[i][id].userId, id, i, t);
      } else {
        LastTableOk(s, tables, log, a, id);
      }
    }
  }

  lemma StutterKept(s: System, tables: Tables, log: Log, new_: Log)
    requires CancelOk(s, tables, log) && new_ == log.(versions := log.versions + [s.catalog.rows])
    ensures CancelOk(s, tables + [s.orders.rows], new_)
  {
    var more := tables + [s.orders.rows];
    forall t | t in s.orderTasks ensures CancelTaskOk(more, new_, t, s.orderTasks[t]) {
      assert CancelTaskOk(tables, log, t, s.orderTasks[t]);
      hide Verdict;
    }
    forall i, id | 0 <= i < |more| && IsCancelled(more[i], id)
      ensures exists t :: CancelledBy(s, new_, more[i][id].userId, id, i, t)
    {
      var j := if i < |tables| then i else i - 1;
      var t :| CancelledBy(s, log, tables[j][id].userId, id, j, t);
      assert CancelledBy(s, new_, more[i][id].userId, id, i, t);
    }
  }

  lemma Assembled(n: System, tables: Tables, new_: Log)
    requires |new_.versions| == |tables| + 1
    requires forall t :: t in n.orderTasks ==> CancelTaskOk(tables + [n.orders.rows], new_, t, n.orderTasks[t])
    requires FlipsOk(n, tables + [n.orders.rows], new_)
    ensures CancelOk(n, tables + [n.orders.rows], new_)
  {
  }

  lemma CancelKept(s: System, tables: Tables, log: Log, a: Action)
    requires Snapshots.SnapshotsOk(s, log) && Links.LinksOk(s) && CancelOk(s, tables, log)
    ensures CancelOk(Next(s, a), tables + [Next(s, a).orders.rows], Note(s, log, a))
  {
    Snapshots.NoteGrows(s, log, a);
    assert |tables| == |log.versions|;
    if Enabled(s, a) {
      assert |Note(s, log, a).versions| == |log.versions| + 1 by { hide Next; }
      hide Next, Note, Enabled, CancelTaskOk, FlipsOk, CancelOk, Snapshots.SnapshotsOk, Links.LinksOk,
        Snapshots.LogGrows;
      TasksKept(s, tables, log, a);
      FlipsKept(s, tables, log, a);
      Assembled(Next(s, a), tables, Note(s, log, a));
    } else {
      StutterKept(s, tables, log, Note(s, log, a));
    }
  }

  lemma {:induction false} CancelHolds(config: A.Config, schedule: seq<Action>)
    ensures CancelOk(Observe(config, schedule).sys, TablesOf(config, schedule), Observe(config, schedule).log)
  {
    if schedule == [] {
    } else {
      var before := schedule[..|schedule| - 1];
      CancelHolds(config, before);
      Snapshots.SnapshotsHold(config, before);
      Links.LinksHold(config, before);
      hide CancelOk, Next, Note, Snapshots.SnapshotsOk, Links.LinksOk;
      CancelKept(Observe(config, before).sys, TablesOf(config, before), Observe(config, before).log,
                 schedule[|schedule| - 1]);
    }
  }

  // ---- results ----

  /** In every run, a step changes an order only by completing its owner's cancellation of just that order:
      the status becomes CANCELLED, the time of update is set, and no other column and no other order moves. */
  lemma OnlyTheOwnersCancelMovesAnOrder(config: A.Config, schedule: seq<Action>, a: Action, id: int)
    requires id in Run(Init(config), schedule).orders.rows
    ensures var s := Run(Init(config), schedule);
            && id in Next(s, a).orders.rows
            && (Next(s, a).orders.rows[id] != s.orders.rows[id] ==>
                  && a.OrderStep? && a.task in s.orderTasks
                  && s.orderTasks[a.task].call == O.CancelUserOrder(s.orders.rows[id].userId, id)
                  && Next(s, a).orders.rows[id] == s.orders.rows[id].(status := CANCELLED, updatedAt := a.env.now)
                  && forall other :: other in s.orders.rows && other != id ==>
                       Next(s, a).orders.rows[other] == s.orders.rows[other])
  {
    var o := Observe(config, schedule);
    Snapshots.SnapshotsHold(config, schedule);
    Links.LinksHold(config, schedule);
    CancelHolds(config, schedule);
    StatusMoves(o.sys, o.log, TablesOf(config, schedule), a);
    hide Next, CancelOk, Snapshots.SnapshotsOk, Links.LinksOk;
  }

  /** A cancelled order stays cancelled. */
  lemma {:induction false} CancelledStaysCancelled(config: A.Config, schedule: seq<Action>, i: nat, j: nat, id: int)
    requires i <= j <= |schedule| && IsCancelled(At(config, schedule, i).orders.rows, id)
    ensures IsCancelled(At(config, schedule, j).orders.rows, id)
    ensures At(config, schedule, j).orders.rows[id].userId == At(config, schedule, i).orders.rows[id].userId
  {
    if i < j {
      CancelledStaysCancelled(config, schedule, i, j - 1, id);
      assert schedule[..j][..j - 1] == schedule[..j - 1];
      OnlyTheOwnersCancelMovesAnOrder(config, schedule[..j - 1], schedule[j - 1], id);
    }
  }

  /** Where order `id` exists, it is cancelled from instant f on and confirmed before. */
  ghost predicate FlipsAt(config: A.Config, schedule: seq<Action>, id: int, f: nat) {
    forall i :: 0 <= i <= |schedule| && id in At(config, schedule, i).orders.rows ==>
      (At(config, schedule, i).orders.rows[id].status == CANCELLED <==> f <= i)
  }

  /** Over every run a status flips at most once, from CONFIRMED to CANCELLED, and never back. */
  lemma StatusFlipsOnce(config: A.Config, schedule: seq<Action>, id: int)
    ensures exists f: nat :: FlipsAt(config, schedule, id, f)
  {
    var f := 0;
    while f <= |schedule| && !IsCancelled(At(config, schedule, f).orders.rows, id)
      invariant 0 <= f <= |schedule| + 1
      invariant forall i :: 0 <= i < f ==> !IsCancelled(At(config, schedule, i).orders.rows, id)
    {
      f := f + 1;
    }
    forall i | f <= i <= |schedule| ensures IsCancelled(At(config, schedule, i).orders.rows, id) {
      CancelledStaysCancelled(config, schedule, f, i, id);
    }
    hide At;
    assert FlipsAt(config, schedule, id, f);
  }

  /** Handler t began at instant i, read the table at instant m and was done at instant j; its answer is
      what the table said at m, and a success left the order cancelled at j. */
  ghost predicate Outcome(config: A.Config, schedule: seq<Action>, t: Tid, i: nat, m: nat, j: nat) {
    var tasks := Run(Init(config), schedule).orderTasks;
    && i <= m < j <= |schedule|
    && BeginsAt(config, schedule, t, i) && EndsAt(config, schedule, t, j)
    && t in tasks && tasks[t].call.CancelUserOrder? && tasks[t].pc.Done?
    && Verdict(At(config, schedule, m).orders.rows, tasks[t].call, tasks[t].pc.reply)
    && (tasks[t].pc.reply.OrderReply? ==> IsCancelled(At(config, schedule, j).orders.rows, tasks[t].call.orderId))
  }

  /** The table as one instant of its lifetime decides a cancellation: 400 for an invalid id, 404 unless
      the order is the caller's, 409 if it is cancelled, and success exactly if it is confirmed. */
  lemma ReadDecidesTheAnswer(config: A.Config, schedule: seq<Action>, t: Tid)
    requires var tasks := Run(Init(config), schedule).orderTasks;
             t in tasks && tasks[t].call.CancelUserOrder? && tasks[t].pc.Done?
    ensures exists i: nat, m: nat, j: nat :: Outcome(config, schedule, t, i, m, j)
  {
    var o := Observe(config, schedule);
    CancelHolds(config, schedule);
    LogIsTrue(config, schedule, t);
    assert CancelTaskOk(TablesOf(config, schedule), o.log, t, o.sys.orderTasks[t]);
    TableAt(config, schedule, o.log.readAt[t]);
    TableAt(config, schedule, o.log.doneAt[t]);
    hide CancelOk, Verdict, Observe, BeginsAt, EndsAt, TablesOf;
    assert Outcome(config, schedule, t, o.log.startedAt[t], o.log.readAt[t], o.log.doneAt[t]);
  }

  /** `ts` are all cancellations of the user's order `id`; all are done, and each ends before the next begins. */
  ghost predicate OneByOne(o: Observed, userId: int, id: int, ts: seq<Tid>) {
    && (forall t :: t in ts <==> t in o.sys.orderTasks && o.sys.orderTasks[t].call == O.CancelUserOrder(userId, id))
    && (forall t :: t in ts ==> o.sys.orderTasks[t].pc.Done? && t in o.log.startedAt && t in o.log.doneAt)
    && (forall i, j :: 0 <= i < j < |ts| ==> o.log.doneAt[ts[i]] <= o.log.startedAt[ts[j]])
  }

  /** The user had the order when handler t began. */
  ghost predicate OwnedAtStart(config: A.Config, schedule: seq<Action>, userId: int, id: int, t: Tid) {
    var log := Observe(config, schedule).log;
    t in log.startedAt && log.startedAt[t] <= |schedule|
    && O.Owned(At(config, schedule, log.startedAt[t]).orders.rows, userId, id)
  }

  lemma OwnedLater(config: A.Config, schedule: seq<Action>, userId: int, id: int, i: nat, j: nat)
    requires i <= j <= |schedule| && O.Owned(At(config, schedule, i).orders.rows, userId, id)
    ensures O.Owned(At(config, schedule, j).orders.rows, userId, id) && ValidId(userId) && ValidId(id)
  {
    assert schedule[..j] == schedule[..i] + schedule[i..j];
    SnapshotsNeverChange(config, schedule[..i], schedule[i..j]);
    Identity.IdentityHolds(config, schedule[..i]);
    Snapshots.SnapshotsHold(config, schedule[..i]);
    assert Snapshots.OrderRowOk(At(config, schedule, i), Observe(config, schedule[..i]).log, id);
    hide Run, Observe, Snapshots.SnapshotsOk;
  }

  /** What handler t was told, given the order is the user's from its start. */
  lemma OwnerIsTold(config: A.Config, schedule: seq<Action>, userId: int, id: int, t: Tid)
    requires var tasks := Run(Init(config), schedule).orderTasks;
             t in tasks && tasks[t].call == O.CancelUserOrder(userId, id) && tasks[t].pc.Done?
    requires OwnedAtStart(config, schedule, userId, id, t)
    ensures var log := Observe(config, schedule).log;
            var tables := TablesOf(config, schedule);
            var reply := Run(Init(config), schedule).orderTasks[t].pc.reply;
            && OutcomeOk(tables, log, t, O.CancelUserOrder(userId, id), reply)
            && (IsCancelled(tables[log.readAt[t]], id) ==> reply.Failed? && reply.payload.statusCode == 409)
            && (!IsCancelled(tables[log.readAt[t]], id) ==>
                  reply.OrderReply? && reply.order.id == id && reply.order.status == CANCELLED)
  {
    var o := Observe(config, schedule);
    CancelHolds(config, schedule);
    assert CancelTaskOk(TablesOf(config, schedule), o.log, t, o.sys.orderTasks[t]);
    OwnedLater(config, schedule, userId, id, o.log.startedAt[t], o.log.readAt[t]);
    TableAt(config, schedule, o.log.readAt[t]);
    hide CancelOk, Observe, Run, TablesOf;
  }

  /** The first of several cancellations, one by one, finds the order confirmed. */
  lemma FirstFindsItConfirmed(config: A.Config, schedule: seq<Action>, userId: int, id: int, ts: seq<Tid>)
    requires ts != [] && OneByOne(Observe(config, schedule), userId, id, ts)
    requires OwnedAtStart(config, schedule, userId, id, ts[0])
    ensures var log := Observe(config, schedule).log;
            ts[0] in log.readAt && log.readAt[ts[0]] <= |schedule|
            && !IsCancelled(At(config, schedule, log.readAt[ts[0]]).orders.rows, id)
  {
    var o, tables := Observe(config, schedule), TablesOf(config, schedule);
    assert ts[0] in ts;
    OwnerIsTold(config, schedule, userId, id, ts[0]);
    CancelHolds(config, schedule);
    var m := o.log.readAt[ts[0]];
    OwnedLater(config, schedule, userId, id, o.log.startedAt[ts[0]], m);
    TableAt(config, schedule, m);
    hide Observe, Run, TablesOf;
    if IsCancelled(tables[m], id) {
      var t :| CancelledBy(o.sys, o.log, userId, id, m, t);
      assert t in ts;
      var k :| 0 <= k < |ts| && ts[k] == t;
      StartsBeforeItEnds(config, schedule, t);
      assert false;
    }
  }

  lemma StartsBeforeItEnds(config: A.Config, schedule: seq<Action>, t: Tid)
    requires var tasks := Run(Init(config), schedule).orderTasks;
             t in tasks && tasks[t].call.CancelUserOrder? && tasks[t].pc.Done?
    ensures var log := Observe(config, schedule).log;
            t in log.startedAt && t in log.doneAt && log.startedAt[t] < log.doneAt[t]
  {
    var o := Observe(config, schedule);
    CancelHolds(config, schedule);
    assert CancelTaskOk(TablesOf(config, schedule), o.log, t, o.sys.orderTasks[t]);
    hide CancelOk, Observe, Run;
  }

  /** In every sequence of cancellations by the owner that do not overlap and run to completion, exactly the
      first succeeds, and all later ones are told 409. */
  lemma FirstCancelWins(config: A.Config, schedule: seq<Action>, userId: int, id: int, ts: seq<Tid>)
    requires ts != [] && OneByOne(Observe(config, schedule), userId, id, ts)
    requires OwnedAtStart(config, schedule, userId, id, ts[0])
    ensures var tasks := Run(Init(config), schedule).orderTasks;
            && tasks[ts[0]].pc.reply.OrderReply? && tasks[ts[0]].pc.reply.order.id == id
            && tasks[ts[0]].pc.reply.order.status == CANCELLED
            && forall k :: 0 < k < |ts| ==>
                 tasks[ts[k]].pc.reply.Failed? && tasks[ts[k]].pc.reply.payload.statusCode == 409
  {
    var o := Observe(config, schedule);
    assert ts[0] in ts;
    FirstFindsItConfirmed(config, schedule, userId, id, ts);
    OwnerIsTold(config, schedule, userId, id, ts[0]);
    assert TablesOf(config, schedule)[o.log.readAt[ts[0]]] == At(config, schedule, o.log.readAt[ts[0]]).orders.rows
      by { TableAt(config, schedule, o.log.readAt[ts[0]]); }
    hide TablesOf, At, Observe, Run, OutcomeOk, OwnedAtStart, IsCancelled;
    forall k | 0 < k < |ts|
      ensures o.sys.orderTasks[ts[k]].pc.reply.Failed? && o.sys.orderTasks[ts[k]].pc.reply.payload.statusCode == 409
    {
      assert ts[k] in ts;
      LaterIsRefused(config, schedule, userId, id, ts[0], ts[k]);
    }
  }

  lemma LaterIsRefused(config: A.Config, schedule: seq<Action>, userId: int, id: int, first: Tid, t: Tid)
    requires var o := Observe(config, schedule);
             && first in o.sys.orderTasks && o.sys.orderTasks[first].call == O.CancelUserOrder(userId, id)
             && o.sys.orderTasks[first].pc.Done? && o.sys.orderTasks[first].pc.reply.OrderReply?
             && t in o.sys.orderTasks && o.sys.orderTasks[t].call == O.CancelUserOrder(userId, id)
             && o.sys.orderTasks[t].pc.Done?
             && first in o.log.doneAt && t in o.log.startedAt && o.log.doneAt[first] <= o.log.startedAt[t]
    requires OwnedAtStart(config, schedule, userId, id, first)
    ensures var reply := Run(Init(config), schedule).orderTasks[t].pc.reply;
            reply.Failed? && reply.payload.statusCode == 409
  {
    var o := Observe(config, schedule);
    OwnerIsTold(config, schedule, userId, id, first);
    LogIsTrue(config, schedule, t);
    OwnedLater(config, schedule, userId, id, o.log.startedAt[first], o.log.startedAt[t]);
    OwnerIsTold(config, schedule, userId, id, t);
    TableAt(config, schedule, o.log.doneAt[first]);
    TableAt(config, schedule, o.log.readAt[t]);
    hide TablesOf, Observe, Run;
    CancelledStaysCancelled(config, schedule, o.log.doneAt[first], o.log.readAt[t], id);
  }

  // ---- overlapping cancellations ----

  /** Handlers t and u both cancel the user's confirmed order `id`. */
  predicate BothAboutToCancel(s: System, userId: int, id: int, t: Tid, u: Tid) {
    && t != u && t in s.orderTasks && u in s.orderTasks
    && s.orderTasks[t].call == O.CancelUserOrder(userId, id) && s.orderTasks[u].call == O.CancelUserOrder(userId, id)
    && ValidId(userId) && ValidId(id)
    && O.Owned(s.orders.rows, userId, id) && s.orders.rows[id].id == id
  }

  lemma LoadStep(s: System, userId: int, id: int, t: Tid, u: Tid, env: Env)
    requires BothAboutToCancel(s, userId, id, t, u)
    requires s.orderTasks[t].pc.Start? && s.orders.rows[id].status == CONFIRMED
    ensures Next(s, OrderStep(t, env)) == SetOrderPc(s, t, O.Loaded(s.orders.rows[id]))
  {
  }

  lemma SaveLoaded(s: System, userId: int, id: int, t: Tid, u: Tid, env: Env)
    requires BothAboutToCancel(s, userId, id, t, u)
    requires s.orderTasks[t].pc.Loaded? && Snapshots.SameOrder(s.orders.rows[id], s.orderTasks[t].pc.order)
    ensures var n := Next(s, OrderStep(t, env));
            var row := s.orders.rows[id].(status := CANCELLED, updatedAt := env.now);
            && n.orderTasks == s.orderTasks[t := s.orderTasks[t].(pc := O.Done(OrderReply(OrderView(row))))]
            && n.orders == s.orders.(rows := s.orders.rows[id := row])
  {
  }

  /** Handler t has been told that the order, now `row`, is cancelled. */
  predicate ToldCancelled(s: System, t: Tid, row: Order) {
    row.status == CANCELLED && t in s.orderTasks && s.orderTasks[t].pc == O.Done(OrderReply(OrderView(row)))
  }

  /** Overlapping cancellations are another matter: when both read the order before either saves it, both
      are told that they cancelled it. */
  lemma OverlappingCancelsBothSucceed(s: System, userId: int, id: int, t: Tid, u: Tid, e: Env, f: Env)
    requires BothAboutToCancel(s, userId, id, t, u)
    requires s.orderTasks[t].pc.Start? && s.orderTasks[u].pc.Start? && s.orders.rows[id].status == CONFIRMED
    ensures var n := Run(s, [OrderStep(t, e), OrderStep(u, e), OrderStep(t, e), OrderStep(u, f)]);
            && ToldCancelled(n, t, s.orders.rows[id].(status := CANCELLED, updatedAt := e.now))
            && ToldCancelled(n, u, s.orders.rows[id].(status := CANCELLED, updatedAt := f.now))
  {
    RunFour(s, OrderStep(t, e), OrderStep(u, e), OrderStep(t, e), OrderStep(u, f));
    var s1 := Next(s, OrderStep(t, e));
    LoadStep(s, userId, id, t, u, e);
    var s2 := Next(s1, OrderStep(u, e));
    LoadStep(s1, userId, id, u, t, e);
    var s3 := Next(s2, OrderStep(t, e));
    hide Next, OrderView, Run;
    SaveLoaded(s2, userId, id, t, u, e);
    SaveLoaded(s3, userId, id, u, t, f);
  }
}
