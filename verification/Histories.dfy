/** Where a handler stands is where its own last step has brought it, in every run. */
module Histories {
  import opened Entities
  import opened Cinema
  import opened OrderHistory
  import Identity
  import Links
  import A = AuthService
  import C = CatalogService
  import O = OrderService

  lemma AtNext(config: A.Config, schedule: seq<Action>, i: nat)
    requires i < |schedule|
    ensures At(config, schedule, i + 1) == Next(At(config, schedule, i), schedule[i])
  {
    hide Next;
    assert schedule[..i + 1][..i] == schedule[..i];
  }

  lemma {:induction false} ConfigHolds(config: A.Config, schedule: seq<Action>)
    ensures Run(Init(config), schedule).config == config
  {
    if schedule != [] {
      ConfigHolds(config, schedule[..|schedule| - 1]);
      Identity.ConfigFixed(Run(Init(config), schedule[..|schedule| - 1]), schedule[|schedule| - 1]);
    }
  }

  // ---- handlers of the auth service ----

  /** Action i of the schedule is a step of auth handler t. */
  ghost predicate AuthStepAt(config: A.Config, schedule: seq<Action>, t: Tid, i: nat) {
    && i < |schedule| && schedule[i].AuthStep? && schedule[i].task == t
    && t in At(config, schedule, i).authTasks && Enabled(At(config, schedule, i), schedule[i])
  }

  /** What the step of handler t makes of the table and the program counter at instant i. */
  ghost function AuthAfter(config: A.Config, schedule: seq<Action>, t: Tid, i: nat): After<A.AuthDb, A.AuthPc>
    requires AuthStepAt(config, schedule, t, i)
  {
    var s := At(config, schedule, i);
    A.Step(s.config, s.auth, s.authTasks[t].call, s.authTasks[t].pc, schedule[i].env)
  }

  lemma AuthOwnStep(s: System, a: Action, t: Tid)
    requires t in Next(s, a).authTasks && !Next(s, a).authTasks[t].pc.Start?
    requires !(t in s.authTasks && s.authTasks[t].pc == Next(s, a).authTasks[t].pc)
    ensures t in s.authTasks && a.AuthStep? && a.task == t && Enabled(s, a)
    ensures var task := s.authTasks[t];
            A.CanStep(s.auth, task.call, task.pc, a.env)
            && Next(s, a).authTasks[t].pc == A.Step(s.config, s.auth, task.call, task.pc, a.env).pc
  {
    Links.NewcomersStart(s, a);
    Links.StepContinues(s, a);
    if !(a.AuthStep? && Enabled(s, a)) {
      Links.AuthTasksStay(s, a);
    }
    hide A.Step, A.CanStep, Links.Continues;
  }

  /** A handler that has begun has got where it is by a step of its own, at some instant i. */
  lemma {:induction false} AuthReached(config: A.Config, schedule: seq<Action>, t: Tid) returns (i: nat)
    requires t in Run(Init(config), schedule).authTasks && !Run(Init(config), schedule).authTasks[t].pc.Start?
    ensures AuthStepAt(config, schedule, t, i)
    ensures var task := Run(Init(config), schedule).authTasks[t];
            At(config, schedule, i).authTasks[t].call == task.call && AuthAfter(config, schedule, t, i).pc == task.pc
  {
    var before, a := schedule[..|schedule| - 1], schedule[|schedule| - 1];
    var s, n := Run(Init(config), before), Run(Init(config), schedule);
    assert n == Next(s, a);
    Links.StepContinues(s, a);
    hide Run, Next, A.Step, Enabled;
    if t in s.authTasks && s.authTasks[t].pc == n.authTasks[t].pc {
      i := AuthReached(config, before, t);
      LaterPrefix(config, schedule, i);
    } else {
      AuthOwnStep(s, a, t);
      i := |schedule| - 1;
    }
  }

  // ---- handlers of the catalog service ----

  /** Action i of the schedule is a step of catalog handler t. */
  ghost predicate CatalogStepAt(config: A.Config, schedule: seq<Action>, t: Tid, i: nat) {
    && i < |schedule| && schedule[i].CatalogStep? && schedule[i].task == t
    && t in At(config, schedule, i).catalogTasks && Enabled(At(config, schedule, i), schedule[i])
  }

  ghost function CatalogAfter(config: A.Config, schedule: seq<Action>, t: Tid, i: nat): After<C.CatalogDb, C.CatalogPc>
    requires CatalogStepAt(config, schedule, t, i)
  {
    var s := At(config, schedule, i);
    C.Step(s.catalog, s.catalogTasks[t].call, s.catalogTasks[t].pc, schedule[i].env)
  }

  lemma CatalogOwnStep(s: System, a: Action, t: Tid)
    requires t in Next(s, a).catalogTasks && !Next(s, a).catalogTasks[t].pc.Start?
    requires !(t in s.catalogTasks && s.catalogTasks[t].pc == Next(s, a).catalogTasks[t].pc)
    ensures t in s.catalogTasks && a.CatalogStep? && a.task == t && Enabled(s, a)
    ensures var task := s.catalogTasks[t];
            C.CanStep(s.catalog, task.call, task.pc, a.env)
            && Next(s, a).catalogTasks[t].pc == C.Step(s.catalog, task.call, task.pc, a.env).pc
  {
    Links.NewcomersStart(s, a);
    Links.StepLeavesOthers(s, a);
    hide C.Step, C.CanStep;
  }

  lemma {:induction false} CatalogReached(config: A.Config, schedule: seq<Action>, t: Tid) returns (i: nat)
    requires t in Run(Init(config), schedule).catalogTasks && !Run(Init(config), schedule).catalogTasks[t].pc.Start?
    ensures CatalogStepAt(config, schedule, t, i)
    ensures var task := Run(Init(config), schedule).catalogTasks[t];
            && At(config, schedule, i).catalogTasks[t].call == task.call
            && CatalogAfter(config, schedule, t, i).pc == task.pc
  {
    var before, a := schedule[..|schedule| - 1], schedule[|schedule| - 1];
    var s, n := Run(Init(config), before), Run(Init(config), schedule);
    assert n == Next(s, a);
    Links.StepContinues(s, a);
    hide Run, Next, C.Step, Enabled;
    if t in s.catalogTasks && s.catalogTasks[t].pc == n.catalogTasks[t].pc {
      i := CatalogReached(config, before, t);
      LaterPrefix(config, schedule, i);
    } else {
      CatalogOwnStep(s, a, t);
      i := |schedule| - 1;
    }
  }

  // ---- handlers of the order service ----

  /** Action i of the schedule moves order handler t: a step on its table, or the message to the catalog and what
      becomes of it. */
  ghost predicate OrderMoveAt(config: A.Config, schedule: seq<Action>, t: Tid, i: nat) {
    && i < |schedule| && t in At(config, schedule, i).orderTasks && Enabled(At(config, schedule, i), schedule[i])
    && Links.TouchesOrderTask(schedule[i], t) && !schedule[i].Arrive?
  }

  lemma OrderOwnMove(s: System, a: Action, t: Tid)
    requires t in Next(s, a).orderTasks && !Next(s, a).orderTasks[t].pc.Start?
    requires !(t in s.orderTasks && s.orderTasks[t].pc == Next(s, a).orderTasks[t].pc)
    ensures t in s.orderTasks && Links.TouchesOrderTask(a, t) && Enabled(s, a) && !a.Arrive?
  {
    Links.NewcomersStart(s, a);
    Links.StepLeavesOthers(s, a);
    if a.Arrive? && Enabled(s, a) {
      Links.ArrivalAdds(s, a);
      hide Effect;
    }
    hide O.Step, O.CanStep;
  }

  lemma {:induction false} OrderReached(config: A.Config, schedule: seq<Action>, t: Tid) returns (i: nat)
    requires t in Run(Init(config), schedule).orderTasks && !Run(Init(config), schedule).orderTasks[t].pc.Start?
    ensures OrderMoveAt(config, schedule, t, i)
    ensures var task := Run(Init(config), schedule).orderTasks[t];
            && At(config, schedule, i).orderTasks[t].call == task.call
            && t in Next(At(config, schedule, i), schedule[i]).orderTasks
            && Next(At(config, schedule, i), schedule[i]).orderTasks[t].pc == task.pc
  {
    var before, a := schedule[..|schedule| - 1], schedule[|schedule| - 1];
    var s, n := Run(Init(config), before), Run(Init(config), schedule);
    assert n == Next(s, a);
    Links.StepContinues(s, a);
    hide Run, Next, Enabled;
    if t in s.orderTasks && s.orderTasks[t].pc == n.orderTasks[t].pc {
      i := OrderReached(config, before, t);
      LaterPrefix(config, schedule, i);
    } else {
      OrderOwnMove(s, a, t);
      i := |schedule| - 1;
    }
  }
}
