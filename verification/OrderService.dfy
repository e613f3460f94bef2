/** apps/order-service/src/orders.service.ts, handler by handler and await by await. */
module OrderService {
  import opened RpcErrors
  import opened Entities
  import opened Dtos
  import opened Money
  import opened Listing

  /** The orders table with its SERIAL counter. */
  datatype OrderDb = OrderDb(rows: map<int, Order>, next: int)

  datatype OrderCall =
    | CreateOrder(userId: int, movieId: int, quantity: int)
    | FindUserOrders(userId: int)
    | FindUserOrder(userId: int, orderId: int)
    | CancelUserOrder(userId: int, orderId: int)

  /** The entity that create hands to save: Numbers, not yet cents. */
  datatype Draft = Draft(userId: int, movieId: int, movieTitle: string, movieReleaseYear: int,
                         ticketPrice: real, quantity: int, totalPrice: real)

  datatype OrderPc =
    | Start
    | AwaitingMovie(child: nat)
    | Saving(draft: Draft)
    | Loaded(order: Order)
    | Done(reply: Reply)

  function DraftOf(call: OrderCall, movie: MovieResponse): Draft
    requires call.CreateOrder?
  {
    Draft(call.userId, movie.id, movie.title, movie.releaseYear, movie.ticketPrice, call.quantity,
          OrderTotal(movie.ticketPrice, call.quantity))
  }

  const CATALOG: string := "CATALOG_SERVICE"

  /** catalog.send has settled with the catalog's answer. */
  function MovieArrived(call: OrderCall, reply: Reply): OrderPc
    requires call.CreateOrder?
  {
    match reply
    case MovieReply(movie) => Saving(DraftOf(call, movie))
    case Failed(payload) => MovieFailed(Remote(payload))
    case _ => MovieFailed(Uncoded)
  }

  /** catalog.send has thrown. */
  function MovieFailed(fault: Fault): OrderPc {
    Done(ThrowHttp(ToHttpException(CATALOG, fault)))
  }

  function OrderNotFound(orderId: int): OrderPc {
    Done(ThrowHttp(NotFound("Order " + Show(orderId) + " not found")))
  }

  function AlreadyCancelled(orderId: int): OrderPc {
    Done(ThrowHttp(Conflict("Order " + Show(orderId) + " is already cancelled")))
  }

  function InvalidBody(): OrderPc {
    Done(ThrowHttp(BadRequest(["invalid body"])))
  }

  /** findOneBy({ id, userId }) */
  predicate Owned(rows: map<int, Order>, userId: int, orderId: int) {
    orderId in rows && rows[orderId].userId == userId
  }

  ghost function Keys(rows: map<int, Order>, userId: int): set<Key> {
    set id | id in rows && rows[id].userId == userId :: (rows[id].createdAt, id)
  }

  /** find({ where: { userId }, order: { createdAt: "DESC", id: "DESC" } }) */
  ghost function UserOrders(rows: map<int, Order>, userId: int): seq<Order> {
    var keys := Descending(Keys(rows, userId));
    assert forall i :: 0 <= i < |keys| ==> keys[i] in Elements(keys);
    seq(|keys|, i requires 0 <= i < |keys| => rows[keys[i].1])
  }

  function Views(orders: seq<Order>): seq<OrderResponse> {
    seq(|orders|, i requires 0 <= i < |orders| => OrderView(orders[i]))
  }

  predicate AsksCatalog(call: OrderCall) {
    call.CreateOrder? && ValidId(call.userId) && ValidOrder(call.movieId, call.quantity)
  }

  ghost function Begin(rows: map<int, Order>, call: OrderCall): OrderPc
    requires !AsksCatalog(call)
  {
    if !ValidId(call.userId) then InvalidBody()
    else match call
      case CreateOrder(_, _, _) => InvalidBody()
      case FindUserOrders(userId) => Done(OrdersReply(Views(UserOrders(rows, userId))))
      case FindUserOrder(userId, orderId) =>
        if !ValidId(orderId) then InvalidBody()
        else if !Owned(rows, userId, orderId) then OrderNotFound(orderId)
        else Done(OrderReply(OrderView(rows[orderId])))
      case CancelUserOrder(userId, orderId) =>
        if !ValidId(orderId) then InvalidBody()
        else if !Owned(rows, userId, orderId) then OrderNotFound(orderId)
        else if rows[orderId].status.CANCELLED? then AlreadyCancelled(orderId)
        else Loaded(rows[orderId])
  }

  /** CHECK constraints and column bounds of the orders table. */
  predicate Storable(draft: Draft, price: int, total: int) {
    && |draft.movieTitle| <= 255 && -32768 <= draft.movieReleaseYear < 32768
    && 0 < draft.quantity < 32768
    && -NUMERIC_10_2 < price < NUMERIC_10_2
    && 0 <= total < NUMERIC_12_2
  }

  /** orders.save of the new entity. */
  ghost function Insert(db: OrderDb, draft: Draft, env: Env): After<OrderDb, OrderPc> {
    var price, total := StoreNumeric(env.priceText), StoreNumeric(env.totalText);
    if !Storable(draft, price, total) then
      After(db, Done(Throw(QueryFailed("22003"))))
    else
      After(OrderDb(db.rows[env.id := Order(env.id, draft.userId, draft.movieId, draft.movieTitle,
                                            draft.movieReleaseYear, price, draft.quantity, total, CONFIRMED,
                                            env.now, env.now)],
                    env.id + 1),
            Done(OrderReply(OrderResponse(env.id, draft.userId, draft.movieId, draft.movieTitle,
                                          draft.movieReleaseYear, draft.ticketPrice, draft.quantity,
                                          draft.totalPrice, CONFIRMED, env.now, env.now))))
  }

  /** orders.save of a loaded entity: an upsert by primary key that leaves `update: false` columns alone. */
  function Upsert(rows: map<int, Order>, e: Order): map<int, Order> {
    if e.id in rows then
      rows[e.id := rows[e.id].(userId := e.userId, movieId := e.movieId, status := e.status,
                               createdAt := e.createdAt, updatedAt := e.updatedAt)]
    else rows[e.id := e]
  }

  function SaveCancelled(db: OrderDb, order: Order, now: int): After<OrderDb, OrderPc> {
    var entity := order.(status := CANCELLED, updatedAt := now);
    After(db.(rows := Upsert(db.rows, entity)), Done(OrderReply(OrderView(entity))))
  }

  ghost predicate CanStep(db: OrderDb, call: OrderCall, pc: OrderPc, env: Env) {
    match pc
    case Start => !AsksCatalog(call)
    case AwaitingMovie(_) => false
    case Saving(draft) =>
      env.id >= db.next && TextOf(env.priceText, draft.ticketPrice) && TextOf(env.totalText, draft.totalPrice)
    case Loaded(_) => true
    case Done(_) => false
  }

  /** One step of a handler on its own database, up to its next await. */
  ghost function Step(db: OrderDb, call: OrderCall, pc: OrderPc, env: Env): After<OrderDb, OrderPc>
    requires CanStep(db, call, pc, env)
  {
    match pc
    case Start => After(db, Begin(db.rows, call))
    case Saving(draft) => Insert(db, draft, env)
    case Loaded(order) => SaveCancelled(db, order, env.now)
  }
}
