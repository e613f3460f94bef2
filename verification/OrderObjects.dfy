/** orders.service.ts as the object it is. Each method is a whole handler, run without interruption, against
    the steps of OrderService; what the catalog answers is an input. */
module OrderObjects {
  import opened Wrappers
  import opened RpcErrors
  import opened Entities
  import opened Dtos
  import opened Money
  import O = OrderService

  /** How catalog.send settles. */
  datatype Sent = Answered(reply: Reply) | Thrown(fault: Fault)

  function Heard(call: O.OrderCall, sent: Sent): O.OrderPc
    requires call.CreateOrder?
  {
    match sent
    case Answered(reply) => O.MovieArrived(call, reply)
    case Thrown(fault) => O.MovieFailed(fault)
  }

  /** The steps of a create, one after the other: the catalog's answer, then the insert. */
  ghost function CreateAlone(db: O.OrderDb, call: O.OrderCall, sent: Sent, env: Env): After<O.OrderDb, O.OrderPc>
    requires call.CreateOrder? && Writable(db, call, sent, env)
  {
    if !O.AsksCatalog(call) then O.Step(db, call, O.Start, env)
    else
      var pc := Heard(call, sent);
      if pc.Done? then After(db, pc) else O.Step(db, call, pc, env)
  }

  /** The driver writes the two prices as texts that read back to the same Numbers. */
  ghost predicate Writable(db: O.OrderDb, call: O.OrderCall, sent: Sent, env: Env)
    requires call.CreateOrder?
  {
    var pc := Heard(call, sent);
    env.id >= db.next
    && (pc.Saving? ==> TextOf(env.priceText, pc.draft.ticketPrice) && TextOf(env.totalText, pc.draft.totalPrice))
  }

  /** The steps of a cancellation, one after the other. */
  ghost function CancelAlone(db: O.OrderDb, call: O.OrderCall, env: Env): After<O.OrderDb, O.OrderPc>
    requires call.CancelUserOrder?
  {
    var read := O.Step(db, call, O.Start, env);
    if read.pc.Loaded? then O.Step(read.db, call, read.pc, env) else read
  }

  /** An Order entity in memory, as far as the service changes it; the rest is as it was loaded. */
  class OrderEntity {
    const loaded: Order
    var status: OrderStatus
    var updatedAt: int

    ghost function Value(): Order
      reads this
    {
      loaded.(status := status, updatedAt := updatedAt)
    }

    constructor FromRow(row: Order)
      ensures Value() == row && loaded == row
    {
      loaded, status, updatedAt := row, row.status, row.updatedAt;
    }
  }

  /** Repository<Order> */
  class OrderRepository {
    var db: O.OrderDb

    constructor ()
      ensures db == O.OrderDb(map[], 1)
    {
      db := O.OrderDb(map[], 1);
    }

    /** findOneBy({ id, userId }) */
    method FindOneBy(id: int, userId: int) returns (order: OrderEntity?)
      ensures order != null <==> O.Owned(db.rows, userId, id)
      ensures order != null ==> fresh(order) && order.Value() == db.rows[id]
    {
      if !O.Owned(db.rows, userId, id) { return null; }
      order := new OrderEntity.FromRow(db.rows[id]);
    }

    /** save of a new entity */
    method Insert(draft: O.Draft, env: Env) returns (reply: Reply)
      modifies this
      ensures After(db, O.Done(reply)) == O.Insert(old(db), draft, env)
    {
      var price, total := StoreNumeric(env.priceText), StoreNumeric(env.totalText);
      if !O.Storable(draft, price, total) { return Throw(QueryFailed("22003")); }
      db := O.OrderDb(db.rows[env.id := Order(env.id, draft.userId, draft.movieId, draft.movieTitle,
                                              draft.movieReleaseYear, price, draft.quantity, total, CONFIRMED,
                                              env.now, env.now)],
                      env.id + 1);
      return OrderReply(OrderResponse(env.id, draft.userId, draft.movieId, draft.movieTitle, draft.movieReleaseYear,
                                      draft.ticketPrice, draft.quantity, draft.totalPrice, CONFIRMED,
                                      env.now, env.now));
    }

    /** save of a loaded entity: only the columns that may be updated reach the row. */
    method Save(entity: OrderEntity, now: int) returns (reply: Reply)
      modifies this, entity
      ensures entity.Value() == old(entity.Value()).(updatedAt := now)
      ensures db == old(db).(rows := O.Upsert(old(db).rows, entity.Value()))
      ensures reply == OrderReply(OrderView(entity.Value()))
    {
      entity.updatedAt := now;
      var e := entity.loaded.(status := entity.status, updatedAt := now);
      if e.id in db.rows {
        var row := db.rows[e.id];
        db := db.(rows := db.rows[e.id := row.(userId := e.userId, movieId := e.movieId, status := e.status,
                                               createdAt := e.createdAt, updatedAt := e.updatedAt)]);
      } else {
        db := db.(rows := db.rows[e.id := e]);
      }
      return OrderReply(OrderView(e));
    }
  }

  class OrdersService {
    const orders: OrderRepository

    constructor (orders: OrderRepository)
      ensures this.orders == orders
    {
      this.orders := orders;
    }

    method Create(userId: int, movieId: int, quantity: int, sent: Sent, env: Env) returns (reply: Reply)
      requires Writable(orders.db, O.CreateOrder(userId, movieId, quantity), sent, env)
      modifies orders
      ensures After(orders.db, O.Done(reply))
              == CreateAlone(old(orders.db), O.CreateOrder(userId, movieId, quantity), sent, env)
    {
      var call := O.CreateOrder(userId, movieId, quantity);
      if !ValidId(userId) || !ValidOrder(movieId, quantity) { return O.InvalidBody().reply; }
      match sent {
        case Answered(MovieReply(movie)) =>
          var total := FromCents(Times(ToCents(movie.ticketPrice), quantity as real));
          var draft := O.Draft(userId, movie.id, movie.title, movie.releaseYear, movie.ticketPrice, quantity, total);
          reply := orders.Insert(draft, env);
        case _ =>
          return Heard(call, sent).reply;
      }
    }

    /** The order, or the 404 that it throws. */
    method FindOneForUser(userId: int, orderId: int) returns (order: OrderEntity?, thrown: Option<Reply>)
      ensures O.Owned(orders.db.rows, userId, orderId) ==>
                thrown == None && order != null && fresh(order) && order.Value() == orders.db.rows[orderId]
      ensures !O.Owned(orders.db.rows, userId, orderId) ==>
                order == null
                && thrown == Some(Failed(RpcErrorPayload(404, Text("Order " + Show(orderId) + " not found"),
                                                         Text("Not Found"))))
    {
      order := orders.FindOneBy(orderId, userId);
      thrown := if order == null then Some(O.OrderNotFound(orderId).reply) else None;
    }

    method Cancel(userId: int, orderId: int, env: Env) returns (reply: Reply)
      modifies orders
      ensures After(orders.db, O.Done(reply)) == CancelAlone(old(orders.db), O.CancelUserOrder(userId, orderId), env)
    {
      if !ValidId(userId) || !ValidId(orderId) { return O.InvalidBody().reply; }
      var order, thrown := FindOneForUser(userId, orderId);
      if thrown.Some? { return thrown.value; }
      if order.status == CANCELLED { return O.AlreadyCancelled(orderId).reply; }
      order.status := CANCELLED;
      reply := orders.Save(order, env.now);
    }
  }
}
