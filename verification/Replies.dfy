/** What services answer: a failed handler always answers a complete error payload with an error status,
    so that every hop up to the client keeps it. */
module Replies {
  import opened RpcErrors
  import opened Entities
  import opened Gateway
  import opened Cinema
  import Links
  import A = AuthService
  import C = CatalogService
  import O = OrderService

  ghost predicate ReplyOk(reply: Reply) {
    reply.Failed? ==> Complete(reply.payload) && 400 <= reply.payload.statusCode < 600
  }

  ghost predicate RepliesOk(s: System) {
    && (forall t :: t in s.authTasks && s.authTasks[t].pc.Done? ==> ReplyOk(s.authTasks[t].pc.reply))
    && (forall t :: t in s.catalogTasks && s.catalogTasks[t].pc.Done? ==> ReplyOk(s.catalogTasks[t].pc.reply))
    && (forall t :: t in s.orderTasks && s.orderTasks[t].pc.Done? ==>
          && ReplyOk(s.orderTasks[t].pc.reply)
          && (s.orderTasks[t].call.CreateOrder? ==>
                s.orderTasks[t].pc.reply.OrderReply? || s.orderTasks[t].pc.reply.Failed?))
  }

  lemma AuthReplies(config: A.Config, db: A.AuthDb, call: A.AuthCall, pc: A.AuthPc, env: Env)
    requires A.CanStep(db, call, pc, env)
    ensures var after := A.Step(config, db, call, pc, env);
            after.pc.Done? ==> ReplyOk(after.pc.reply)
  {
  }

  lemma CatalogReplies(db: C.CatalogDb, call: C.CatalogCall, pc: C.CatalogPc, env: Env)
    requires C.CanStep(db, call, pc, env)
    ensures var after := C.Step(db, call, pc, env);
            after.pc.Done? ==> ReplyOk(after.pc.reply)
  {
  }

  lemma OrderReplies(db: O.OrderDb, call: O.OrderCall, pc: O.OrderPc, env: Env)
    requires O.CanStep(db, call, pc, env) && (pc.Loaded? ==> call.CancelUserOrder?)
    ensures var after := O.Step(db, call, pc, env);
            OrderPcOk(call, after.pc)
  {
    if pc.Start? {
      ReadReplies(db.rows, call);
    }
    hide O.Begin, OrderView;
  }

  lemma ReadReplies(rows: map<int, Order>, call: O.OrderCall)
    requires !O.AsksCatalog(call)
    ensures OrderPcOk(call, O.Begin(rows, call))
  {
    hide O.UserOrders, O.Views, OrderView;
  }

  /** The order service relays the catalog's payload, or one of its own for a client-side failure. */
  lemma RelayedReplies(call: O.OrderCall, reply: Reply, fault: Fault)
    requires call.CreateOrder? && ReplyOk(reply) && ClientSide(fault)
    ensures var pc := O.MovieFailed(fault);
            pc.Done? && pc.reply.Failed? && ReplyOk(pc.reply)
    ensures var pc := O.MovieArrived(call, reply);
            pc.Done? ==> pc.reply.Failed? && ReplyOk(pc.reply)
    ensures reply.Failed? ==> O.MovieArrived(call, reply) == O.Done(reply)
  {
  }

  /** The gateway's answer carries the status of a failed handler. */
  lemma AnswerKeepsStatus(call: HttpCall, reply: Reply)
    requires ReplyOk(reply)
    ensures reply.Failed? ==>
              AnswerReply(call, reply) == Answer(reply.payload.statusCode,
                                                 Problem(reply.payload.message, reply.payload.error))
    ensures !reply.Failed? ==> AnswerReply(call, reply).body.Data? && AnswerReply(call, reply).status < 300
  {
  }

  // Each handler's program counter can be replaced by one whose reply, if any, is in order.

  lemma AuthReplyKept(s: System, n: System, t: Tid)
    requires RepliesOk(s) && t in n.authTasks && n.authTasks == s.authTasks[t := n.authTasks[t]]
    requires n.catalogTasks == s.catalogTasks && n.orderTasks == s.orderTasks
    requires n.authTasks[t].pc.Done? ==> ReplyOk(n.authTasks[t].pc.reply)
    ensures RepliesOk(n)
  {
    hide ReplyOk;
  }

  lemma CatalogReplyKept(s: System, n: System, t: Tid)
    requires RepliesOk(s) && t in n.catalogTasks && n.catalogTasks == s.catalogTasks[t := n.catalogTasks[t]]
    requires n.authTasks == s.authTasks && n.orderTasks == s.orderTasks
    requires n.catalogTasks[t].pc.Done? ==> ReplyOk(n.catalogTasks[t].pc.reply)
    ensures RepliesOk(n)
  {
    hide ReplyOk;
  }

  /** What the reply of an order handler must be. */
  ghost predicate OrderPcOk(call: O.OrderCall, pc: O.OrderPc) {
    pc.Done? ==> ReplyOk(pc.reply) && (call.CreateOrder? ==> pc.reply.OrderReply? || pc.reply.Failed?)
  }

  lemma OrderReplyKept(s: System, n: System, t: Tid)
    requires RepliesOk(s) && t in n.orderTasks && n.orderTasks == s.orderTasks[t := n.orderTasks[t]]
    requires n.authTasks == s.authTasks && n.catalogTasks == s.catalogTasks
    requires OrderPcOk(n.orderTasks[t].call, n.orderTasks[t].pc)
    ensures RepliesOk(n)
  {
    hide ReplyOk;
  }

  lemma ServiceRepliesKept(s: System, a: Action)
    requires RepliesOk(s) && Enabled(s, a) && (a.AuthStep? || a.CatalogStep?)
    ensures RepliesOk(Effect(s, a))
  {
    hide A.Step, C.Step, ReplyOk, RepliesOk;
    if a.AuthStep? {
      AuthReplies(s.config, s.auth, s.authTasks[a.task].call, s.authTasks[a.task].pc, a.env);
      AuthReplyKept(s, Effect(s, a), a.task);
    } else {
      CatalogReplies(s.catalog, s.catalogTasks[a.task].call, s.catalogTasks[a.task].pc, a.env);
      CatalogReplyKept(s, Effect(s, a), a.task);
    }
  }

  lemma OrderStepRepliesKept(s: System, a: Action)
    requires RepliesOk(s) && Enabled(s, a) && a.OrderStep?
    requires s.orderTasks[a.task].pc.Loaded? ==> s.orderTasks[a.task].call.CancelUserOrder?
    ensures RepliesOk(Effect(s, a))
  {
    var task := s.orderTasks[a.task];
    hide O.Step, ReplyOk, RepliesOk;
    OrderReplies(s.orders, task.call, task.pc, a.env);
    OrderReplyKept(s, Effect(s, a), a.task);
  }

  lemma MovieRepliesKept(s: System, a: Action)
    requires RepliesOk(s) && Enabled(s, a) && (a.MovieArrives? || a.MovieFails?)
    ensures RepliesOk(Effect(s, a))
  {
    var task := s.orderTasks[a.task];
    if a.MovieArrives? {
      RelayedReplies(task.call, s.catalogTasks[task.pc.child].pc.reply, Uncoded);
    } else {
      RelayedReplies(task.call, NoReply, a.fault);
    }
    hide O.MovieArrived, O.MovieFailed, ReplyOk, RepliesOk;
    OrderReplyKept(s, Effect(s, a), a.task);
  }

  /** No other action gives a handler a reply. */
  lemma OtherRepliesKept(s: System, a: Action)
    requires RepliesOk(s) && Enabled(s, a)
    requires a.Boot? || a.Arrive? || a.AskCatalog? || a.ReplyArrives? || a.RpcFails?
    ensures RepliesOk(Effect(s, a))
  {
    NoNewReplies(s, a);
    hide ReplyOk, Effect, Enabled;
  }

  /** Handlers that are done were there, and as they are, before. */
  ghost predicate SameDone(s: System, n: System) {
    && (forall t :: t in n.authTasks && n.authTasks[t].pc.Done? ==>
          t in s.authTasks && n.authTasks[t] == s.authTasks[t])
    && (forall t :: t in n.catalogTasks && n.catalogTasks[t].pc.Done? ==>
          t in s.catalogTasks && n.catalogTasks[t] == s.catalogTasks[t])
    && (forall t :: t in n.orderTasks && n.orderTasks[t].pc.Done? ==>
          t in s.orderTasks && n.orderTasks[t] == s.orderTasks[t])
  }

  lemma ArrivalRepliesNothing(s: System, a: Action)
    requires a.Arrive? && Enabled(s, a)
    ensures SameDone(s, Effect(s, a))
  {
    Links.ArrivalAdds(s, a);
    hide Effect, Enabled;
  }

  lemma NoNewReplies(s: System, a: Action)
    requires Enabled(s, a) && (a.Boot? || a.Arrive? || a.AskCatalog? || a.ReplyArrives? || a.RpcFails?)
    ensures SameDone(s, Effect(s, a))
  {
    if a.Arrive? {
      ArrivalRepliesNothing(s, a);
      hide Effect;
    }
    hide ReplyOf, AnswerReply, AnswerFault, O.AsksCatalog;
  }

  lemma RepliesKept(s: System, a: Action)
    requires RepliesOk(s)
    requires forall t :: t in s.orderTasks && s.orderTasks[t].pc.Loaded? ==> s.orderTasks[t].call.CancelUserOrder?
    ensures RepliesOk(Next(s, a))
  {
    if Enabled(s, a) {
      assert a.OrderStep? ==> a.task in s.orderTasks;
      hide Effect, RepliesOk, Enabled;
      if a.AuthStep? || a.CatalogStep? {
        ServiceRepliesKept(s, a);
      } else if a.OrderStep? {
        OrderStepRepliesKept(s, a);
      } else if a.MovieArrives? || a.MovieFails? {
        MovieRepliesKept(s, a);
      } else {
        OtherRepliesKept(s, a);
      }
    }
  }

  lemma {:induction false} RepliesHold(config: A.Config, schedule: seq<Action>)
    ensures RepliesOk(Run(Init(config), schedule))
  {
    if schedule != [] {
      var before := schedule[..|schedule| - 1];
      RepliesHold(config, before);
      Links.LinksHold(config, before);
      var s := Run(Init(config), before);
      assert forall t :: t in s.orderTasks ==> Links.OrderTaskOk(s, t, s.orderTasks[t]);
      hide Next, RepliesOk;
      RepliesKept(s, schedule[|schedule| - 1]);
    }
  }
}
