/** What the two list endpoints return: exactly the rows asked for, each once, in the promised order. */
module Listings {
  import opened Entities
  import opened Cinema
  import opened Listing
  import Cancellation
  import Links
  import Observer
  import Snapshots
  import A = AuthService
  import C = CatalogService
  import O = OrderService

  function KeyOf(order: Order): Key {
    (order.createdAt, order.id)
  }

  ghost predicate Keyed(rows: map<int, Order>) {
    forall id :: id in rows ==> rows[id].id == id
  }

  ghost predicate NewestFirst(orders: seq<Order>) {
    forall i, j :: 0 <= i < j < |orders| ==> Before(KeyOf(orders[i]), KeyOf(orders[j]))
  }

  /** `orders` holds exactly the user's rows. */
  ghost predicate HoldsExactly(orders: seq<Order>, rows: map<int, Order>, userId: int) {
    && (forall k :: 0 <= k < |orders| ==>
          orders[k].userId == userId && orders[k].id in rows && rows[orders[k].id] == orders[k])
    && (forall id :: id in rows && rows[id].userId == userId ==> rows[id] in orders)
  }

  lemma ListedAt(rows: map<int, Order>, userId: int, i: nat)
    requires Keyed(rows) && i < |O.UserOrders(rows, userId)|
    ensures var keys := Descending(O.Keys(rows, userId));
            var order := O.UserOrders(rows, userId)[i];
            |keys| == |O.UserOrders(rows, userId)| && KeyOf(order) == keys[i]
            && order.userId == userId && order.id in rows && rows[order.id] == order
  {
    var keys := Descending(O.Keys(rows, userId));
    assert keys[i] in Elements(keys);
  }

  /** The listing is the user's rows, each once, strictly descending by (createdAt, id). */
  lemma UserOrdersAreListed(rows: map<int, Order>, userId: int)
    requires Keyed(rows)
    ensures HoldsExactly(O.UserOrders(rows, userId), rows, userId)
    ensures NewestFirst(O.UserOrders(rows, userId))
  {
    var orders := O.UserOrders(rows, userId);
    var keys := Descending(O.Keys(rows, userId));
    forall i | 0 <= i < |orders|
      ensures KeyOf(orders[i]) == keys[i]
      ensures orders[i].userId == userId && orders[i].id in rows && rows[orders[i].id] == orders[i]
    {
      ListedAt(rows, userId, i);
    }
    forall id | id in rows && rows[id].userId == userId ensures rows[id] in orders {
      assert (rows[id].createdAt, id) in O.Keys(rows, userId);
      var i :| 0 <= i < |keys| && keys[i] == (rows[id].createdAt, id);
      assert orders[i] == rows[id];
    }
  }

  ghost function KeysOf(orders: seq<Order>): (keys: seq<Key>)
    ensures |keys| == |orders| && forall i :: 0 <= i < |keys| ==> keys[i] == KeyOf(orders[i])
  {
    seq(|orders|, i requires 0 <= i < |orders| => KeyOf(orders[i]))
  }

  lemma ElementsOfListing(orders: seq<Order>, rows: map<int, Order>, userId: int)
    requires Keyed(rows) && HoldsExactly(orders, rows, userId)
    ensures Elements(KeysOf(orders)) == O.Keys(rows, userId)
  {
  }

  /** And it is the only such list. */
  lemma ListingIsDetermined(rows: map<int, Order>, userId: int, orders: seq<Order>)
    requires Keyed(rows) && HoldsExactly(orders, rows, userId) && NewestFirst(orders)
    ensures orders == O.UserOrders(rows, userId)
  {
    var listed := O.UserOrders(rows, userId);
    UserOrdersAreListed(rows, userId);
    ElementsOfListing(orders, rows, userId);
    ElementsOfListing(listed, rows, userId);
    ListingIsUnique(KeysOf(orders), KeysOf(listed));
    forall i | 0 <= i < |orders| ensures orders[i] == listed[i] {
      assert KeysOf(orders)[i] == KeysOf(listed)[i];
    }
  }

  /** Cancelling an order changes one element of its owner's listing, where it stands, and no other listing. */
  lemma CancelMovesNothing(rows: map<int, Order>, id: int, now: int, userId: int)
    requires Keyed(rows) && id in rows
    ensures var row := rows[id].(status := CANCELLED, updatedAt := now);
            var before, after := O.UserOrders(rows, userId), O.UserOrders(rows[id := row], userId);
            if rows[id].userId != userId then after == before
            else exists k :: 0 <= k < |before| && before[k] == rows[id] && after == before[k := row]
  {
    var row := rows[id].(status := CANCELLED, updatedAt := now);
    var before := O.UserOrders(rows, userId);
    UserOrdersAreListed(rows, userId);
    if rows[id].userId != userId {
      ListingIsDetermined(rows[id := row], userId, before);
    } else {
      var k :| 0 <= k < |before| && before[k] == rows[id];
      var after := before[k := row];
      assert NewestFirst(after);
      Replaced(rows, id, row, before, k);
      ListingIsDetermined(rows[id := row], userId, after);
    }
  }

  lemma Replaced(rows: map<int, Order>, id: int, row: Order, before: seq<Order>, k: nat)
    requires Keyed(rows) && id in rows && k < |before| && before[k] == rows[id]
    requires HoldsExactly(before, rows, rows[id].userId) && NewestFirst(before)
    requires row.id == id && row.userId == rows[id].userId
    ensures HoldsExactly(before[k := row], rows[id := row], rows[id].userId)
  {
    var after := before[k := row];
    forall i | 0 <= i < |after| && i != k ensures after[i].id != id {
      assert before[i].id in rows && rows[before[i].id] == before[i];
    }
    forall other | other in rows && other != id && rows[other].userId == rows[id].userId
      ensures rows[other] in after
    {
      var i :| 0 <= i < |before| && before[i] == rows[other];
      assert after[i] == rows[other];
    }
    assert after[k] == row;
  }

  /** The action changes order `id`, which exists. */
  ghost predicate Changes(s: System, a: Action, id: int) {
    id in s.orders.rows && (id in Next(s, a).orders.rows ==> Next(s, a).orders.rows[id] != s.orders.rows[id])
  }

  /** A step that changes an order changes nothing else in the table. */
  lemma ChangeIsCancellation(config: A.Config, schedule: seq<Action>, a: Action, id: int)
    requires Changes(Run(Init(config), schedule), a, id)
    ensures var s := Run(Init(config), schedule);
            a.OrderStep? && Keyed(s.orders.rows)
            && Next(s, a).orders.rows
               == s.orders.rows[id := s.orders.rows[id].(status := CANCELLED, updatedAt := a.env.now)]
  {
    var o := Observer.Observe(config, schedule);
    var s := o.sys;
    Snapshots.SnapshotsHold(config, schedule);
    Snapshots.RowsKeyed(s, o.log);
    Links.LinksHold(config, schedule);
    Cancellation.CancelHolds(config, schedule);
    Cancellation.StatusMoves(s, o.log, Cancellation.TablesOf(config, schedule), a);
    assert Cancellation.Flips(s, a, id, Next(s, a).orders.rows[id]);
    var task := s.orderTasks[a.task];
    Cancellation.CancelShape(s, a.task, a.env);
    assert Snapshots.LoadedOk(s.orders, task)
           && Cancellation.CancelTaskOk(Cancellation.TablesOf(config, schedule), o.log, a.task, task);
    hide Next, Run, Snapshots.SnapshotsOk, Cancellation.CancelOk;
  }

  /** Over every run: a step that changes an existing order leaves every user's listing as it is, except for
      the owner's, where exactly that one element changes, and only its status and time of update. */
  lemma StepKeepsListings(config: A.Config, schedule: seq<Action>, a: Action, id: int, userId: int)
    requires Changes(Run(Init(config), schedule), a, id)
    ensures var s := Run(Init(config), schedule);
            var before, after := O.UserOrders(s.orders.rows, userId), O.UserOrders(Next(s, a).orders.rows, userId);
            if s.orders.rows[id].userId != userId then after == before
            else a.OrderStep? && exists k ::
                   && 0 <= k < |before| && before[k] == s.orders.rows[id]
                   && after == before[k := before[k].(status := CANCELLED, updatedAt := a.env.now)]
  {
    var s := Run(Init(config), schedule);
    ChangeIsCancellation(config, schedule, a, id);
    hide Next, Run;
    CancelMovesNothing(s.orders.rows, id, a.env.now, userId);
  }

  // ---- GET /movies ----

  /** find({ order: { id: "ASC" } }): every movie once, by ascending id, with the Number its price reads as. */
  lemma AllMoviesAreListed(rows: map<int, Movie>)
    requires forall id :: id in rows ==> rows[id].id == id
    ensures var movies := C.AllMovies(rows);
            && (forall i :: 0 <= i < |movies| ==> movies[i].id in rows && movies[i] == MovieView(rows[movies[i].id]))
            && (forall i, j :: 0 <= i < j < |movies| ==> movies[i].id < movies[j].id)
            && (forall id :: id in rows ==> MovieView(rows[id]) in movies)
  {
    var keys := Descending(C.Keys(rows));
    var movies := C.AllMovies(rows);
    forall i | 0 <= i < |keys|
      ensures keys[i].1 in rows && keys[i].0 == -keys[i].1 && movies[i] == MovieView(rows[keys[i].1])
    {
      assert keys[i] in Elements(keys);
    }
    forall id | id in rows ensures MovieView(rows[id]) in movies {
      assert (-id, id) in Elements(keys);
      var i :| 0 <= i < |keys| && keys[i] == (-id, id);
      assert movies[i] == MovieView(rows[id]);
    }
    forall i, j | 0 <= i < j < |movies| ensures movies[i].id < movies[j].id {
      assert Before(keys[i], keys[j]);
    }
  }
}
