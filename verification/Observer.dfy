/** A log kept beside a run. The system never reads it; it only records when things happened.
    Instant i is the state after i actions. */
module Observer {
  import opened Entities
  import opened Cinema
  import A = AuthService

  datatype Log = Log(
    versions: seq<map<int, Movie>>,   // the movies table at every instant so far
    startedAt: map<Tid, nat>,         // first instant of a catalog or order handler
    readAt: map<Tid, nat>,            // instant of the row, or lack of it, that the handler acts on
    doneAt: map<Tid, nat>,            // first instant at which an order handler is done
    maker: map<int, Tid>)             // the handler that inserted an order

  datatype Observed = Observed(sys: System, log: Log)

  function Start(config: A.Config): Observed {
    Observed(Init(config), Log([map[]], map[], map[], map[], map[]))
  }

  /** The handler that begins with this action. */
  function Begins(a: Action, when_: nat): map<Tid, nat> {
    match a
    case Arrive(_, _, _, _, t) => map[t := when_]
    case AskCatalog(_, child) => map[child := when_]
    case _ => map[]
  }

  /** The handler that reads the database row it acts on, and when it did. */
  function Reads(s: System, log: Log, a: Action): map<Tid, nat> {
    var now := |log.versions| - 1;
    match a
    case CatalogStep(t, _) =>
      if t in s.catalogTasks && s.catalogTasks[t].pc.Start? && now >= 0 then map[t := now] else map[]
    case OrderStep(t, _) => if t in s.orderTasks && s.orderTasks[t].pc.Start? && now >= 0 then map[t := now] else map[]
    case MovieArrives(t) =>
      if AwaitsMovie(s, t) && s.orderTasks[t].pc.child in log.readAt
      then map[t := log.readAt[s.orderTasks[t].pc.child]] else map[]
    case _ => map[]
  }

  /** The order handler that is done with this action. */
  function Finishes(n: System, a: Action, when_: nat): map<Tid, nat> {
    if (a.OrderStep? || a.MovieArrives? || a.MovieFails?) && a.task in n.orderTasks && n.orderTasks[a.task].pc.Done?
    then map[a.task := when_] else map[]
  }

  function Inserts(s: System, n: System, a: Action): map<int, Tid> {
    if a.OrderStep? && a.task in s.orderTasks && s.orderTasks[a.task].pc.Saving?
       && a.env.id in n.orders.rows && a.env.id !in s.orders.rows
    then map[a.env.id := a.task] else map[]
  }

  ghost function Note(s: System, log: Log, a: Action): Log {
    var n := Next(s, a);
    var when_ := |log.versions|;
    if !Enabled(s, a) then log.(versions := log.versions + [n.catalog.rows])
    else Log(log.versions + [n.catalog.rows],
             log.startedAt + Begins(a, when_),
             log.readAt + Reads(s, log, a),
             log.doneAt + Finishes(n, a, when_),
             log.maker + Inserts(s, n, a))
  }

  ghost function Observe(config: A.Config, schedule: seq<Action>): (o: Observed)
    ensures o.sys == Run(Init(config), schedule)
  {
    if schedule == [] then Start(config)
    else
      var o := Observe(config, schedule[..|schedule| - 1]);
      var a := schedule[|schedule| - 1];
      Observed(Next(o.sys, a), Note(o.sys, o.log, a))
  }

  /** The recorded versions are the movies tables of the run's own prefixes. */
  lemma {:induction false} VersionsAreStates(config: A.Config, schedule: seq<Action>, i: nat)
    requires i <= |schedule|
    ensures |Observe(config, schedule).log.versions| == |schedule| + 1
    ensures Observe(config, schedule).log.versions[i] == Run(Init(config), schedule[..i]).catalog.rows
  {
    if schedule != [] {
      var before := schedule[..|schedule| - 1];
      if i == |schedule| {
        VersionsAreStates(config, before, 0);
        assert schedule[..i] == schedule;
      } else {
        VersionsAreStates(config, before, i);
        assert schedule[..i] == before[..i];
      }
    }
  }
}
