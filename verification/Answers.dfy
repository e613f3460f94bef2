/** An answer that the gateway did not make up itself is that of the handler's last step, in every run. */
module Answers {
  import opened Wrappers
  import opened RpcErrors
  import opened Entities
  import opened Dtos
  import opened Gateway
  import opened Cinema
  import opened Histories
  import opened OrderHistory
  import Identity
  import Links
  import A = AuthService

  /** Request r was let in, and its answer comes from the service. */
  ghost predicate Heard(s: System, r: Tid) {
    && r in s.requests && s.requests[r].answer.Some? && !s.requests[r].child.NoChild?
    && !ByClient(s.requests[r].call, s.requests[r].answer.value)
  }

  function TheAnswer(s: System, r: Tid): Answer
    requires r in s.requests && s.requests[r].answer.Some?
  {
    s.requests[r].answer.value
  }

  /** The answer is an error with this status, message and label. */
  predicate Says(answer: Answer, status: int, message: string, title: string) {
    answer == Answer(status, Problem(Text(message), Text(title)))
  }

  /** What the client gets for a reply of the handler: with success the data, and nothing for a DELETE; otherwise
      the error as it is. */
  ghost predicate Delivers(call: HttpCall, reply: Reply, answer: Answer) {
    && (!reply.Failed? ==>
          && answer.status == (if call.PostRegister? || call.PostMovie? || call.PostOrder? then 201
                               else if call.DeleteMovie? then 204 else 200)
          && answer.body == Data(if call.DeleteMovie? then NoReply else reply))
    && (forall status, message, title ::
          reply == Failed(RpcErrorPayload(status, Text(message), Text(title))) ==> Says(answer, status, message, title))
    && (reply.Failed? && reply.payload.message != Undefined ==> answer.status == reply.payload.statusCode)
  }

  lemma RepliesAreAnswered(call: HttpCall, reply: Reply)
    ensures Delivers(call, reply, AnswerReply(call, reply))
  {
  }

  /** The handler of a request, and what its service has answered. */
  lemma ChildHasReplied(config: A.Config, schedule: seq<Action>, r: Tid)
    requires Heard(Run(Init(config), schedule), r)
    ensures var s := Run(Init(config), schedule);
            var request := s.requests[r];
            && (NeedsToken(request.call) ==> request.user.Some?)
            && ReplyOf(s, request.child).Some?
            && Delivers(request.call, ReplyOf(s, request.child).value, request.answer.value)
            && match request.child
               case AuthChild(t) =>
                 t in s.authTasks && Route(request.call, request.user) == ToAuth(s.authTasks[t].call)
               case CatalogChild(t) =>
                 t in s.catalogTasks && Route(request.call, request.user) == ToCatalog(s.catalogTasks[t].call)
               case OrderChild(t) =>
                 t in s.orderTasks && Route(request.call, request.user) == ToOrders(s.orderTasks[t].call)
               case NoChild => false
  {
    var s := Run(Init(config), schedule);
    Links.LinksHold(config, schedule);
    assert Links.ChildOk(s, r, s.requests[r]) && Links.AnswerOk(s, s.requests[r]);
    RepliesAreAnswered(s.requests[r].call, ReplyOf(s, s.requests[r].child).value);
    hide Run, Links.LinksOk, Delivers, AnswerReply, ByClient, ReplyOf;
  }

  /** The last step of the handler of a request to the catalog. */
  lemma CatalogAnswered(config: A.Config, schedule: seq<Action>, r: Tid) returns (t: Tid, i: nat)
    requires Heard(Run(Init(config), schedule), r)
    requires !IsOrderCall(Run(Init(config), schedule).requests[r].call)
    requires ServiceOf(Run(Init(config), schedule).requests[r].call) == "CATALOG_SERVICE"
    ensures var request := Run(Init(config), schedule).requests[r];
            && CatalogStepAt(config, schedule, t, i) && CatalogAfter(config, schedule, t, i).pc.Done?
            && request.child == CatalogChild(t)
            && (NeedsToken(request.call) ==> request.user.Some?)
            && Route(request.call, request.user) == ToCatalog(At(config, schedule, i).catalogTasks[t].call)
            && Delivers(request.call, CatalogAfter(config, schedule, t, i).pc.reply, request.answer.value)
  {
    var s := Run(Init(config), schedule);
    ChildHasReplied(config, schedule, r);
    assert s.requests[r].child.CatalogChild?;
    t := s.requests[r].child.task;
    hide Run, Delivers, Heard;
    i := CatalogReached(config, schedule, t);
  }

  lemma AuthAnswered(config: A.Config, schedule: seq<Action>, r: Tid) returns (t: Tid, i: nat)
    requires Heard(Run(Init(config), schedule), r)
    requires ServiceOf(Run(Init(config), schedule).requests[r].call) == "AUTH_SERVICE"
    ensures var request := Run(Init(config), schedule).requests[r];
            && AuthStepAt(config, schedule, t, i) && AuthAfter(config, schedule, t, i).pc.Done?
            && request.child == AuthChild(t)
            && (NeedsToken(request.call) ==> request.user.Some?)
            && Route(request.call, request.user) == ToAuth(At(config, schedule, i).authTasks[t].call)
            && Delivers(request.call, AuthAfter(config, schedule, t, i).pc.reply, request.answer.value)
  {
    var s := Run(Init(config), schedule);
    ChildHasReplied(config, schedule, r);
    assert s.requests[r].child.AuthChild?;
    t := s.requests[r].child.task;
    hide Run, Delivers, Heard;
    i := AuthReached(config, schedule, t);
  }

  lemma OrderAnswered(config: A.Config, schedule: seq<Action>, r: Tid) returns (t: Tid, i: nat)
    requires Heard(Run(Init(config), schedule), r)
    requires IsOrderCall(Run(Init(config), schedule).requests[r].call)
    ensures var request := Run(Init(config), schedule).requests[r];
            && OrderMoveAt(config, schedule, t, i) && request.child == OrderChild(t) && request.user.Some?
            && Route(request.call, request.user) == ToOrders(At(config, schedule, i).orderTasks[t].call)
            && t in Next(At(config, schedule, i), schedule[i]).orderTasks
            && var pc := Next(At(config, schedule, i), schedule[i]).orderTasks[t].pc;
            pc.Done? && Delivers(request.call, pc.reply, request.answer.value)
  {
    var s := Run(Init(config), schedule);
    ChildHasReplied(config, schedule, r);
    assert s.requests[r].child.OrderChild?;
    t := s.requests[r].child.task;
    hide Run, Next, Delivers, Heard;
    i := OrderReached(config, schedule, t);
  }

  /** Whoever acts is a user of the table, at every instant since the request was let in. */
  lemma UsersAreValid(config: A.Config, schedule: seq<Action>, r: Tid)
    requires r in Run(Init(config), schedule).requests && Run(Init(config), schedule).requests[r].user.Some?
    ensures var s := Run(Init(config), schedule);
            var user := s.requests[r].user.value;
            && user.id in s.auth.rows && ValidId(user.id)
            && s.auth.rows[user.id].id == user.id
  {
    Identity.IdentityHolds(config, schedule);
    hide Run;
  }

  /** A client whose request failed on the way is told how, and in the name of which service. */
  lemma FailureIsAnswered(s: System, r: Tid, fault: Fault)
    requires Enabled(s, RpcFails(r, fault))
    ensures var n := Next(s, RpcFails(r, fault));
            && r in n.requests && n.requests[r].answer.Some?
            && var call, answer := n.requests[r].call, n.requests[r].answer.value;
            && (call.PostRegister? || call.PostLogin? || call.GetMe? ==> Fails(answer, "AUTH_SERVICE", fault))
            && (call.GetMovies? || call.GetMovie? || call.PostMovie? || call.PatchMovie? || call.DeleteMovie? ==>
                  Fails(answer, "CATALOG_SERVICE", fault))
            && (call.PostOrder? || call.GetOrders? || call.GetOrder? || call.PatchOrderCancel? ==>
                  Fails(answer, "ORDER_SERVICE", fault))
  {
    hide AnswerFault, Fails;
    FaultsAreAnswered(s.requests[r].call, fault);
  }
}
