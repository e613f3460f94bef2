/** A race for one free key: contenders check, then act, and a unique constraint has the last word. */
module Race {
  import opened Cinema

  datatype Phase = Trying | Won | Lost

  /** While the key is free everyone is still trying; once it is taken, exactly one contender has won it. */
  ghost predicate Fair(taken: bool, phases: map<nat, Phase>) {
    if !taken then forall t :: t in phases ==> phases[t].Trying?
    else exists w :: OnlyWinner(phases, w)
  }

  ghost predicate OnlyWinner(phases: map<nat, Phase>, w: nat) {
    w in phases && phases[w].Won? && forall t :: t in phases && t != w ==> !phases[t].Won?
  }

  /** One contender goes on: it keeps trying, loses a taken key, or takes a free one. */
  ghost predicate Advances(taken: bool, phases: map<nat, Phase>, t: nat, taken': bool, phase': Phase) {
    && t in phases && phases[t].Trying?
    && match phase'
       case Trying => taken' == taken
       case Lost => taken && taken'
       case Won => !taken && taken'
  }

  lemma AdvanceIsFair(taken: bool, phases: map<nat, Phase>, t: nat, taken': bool, phase': Phase)
    requires Fair(taken, phases) && Advances(taken, phases, t, taken', phase')
    ensures Fair(taken', phases[t := phase'])
  {
    if phase'.Won? {
      assert OnlyWinner(phases[t := phase'], t);
    } else if taken {
      var w :| OnlyWinner(phases, w);
      assert OnlyWinner(phases[t := phase'], w);
    }
  }

  /** Newcomers are still trying, and join a fair race. */
  lemma JoinIsFair(taken: bool, phases: map<nat, Phase>, joined: map<nat, Phase>)
    requires Fair(taken, phases)
    requires forall t :: t in phases ==> t in joined && joined[t] == phases[t]
    requires forall t :: t in joined && t !in phases ==> joined[t].Trying?
    ensures Fair(taken, joined)
  {
    if taken {
      var w :| OnlyWinner(phases, w);
      assert OnlyWinner(joined, w);
    }
  }

  /** When nobody is trying any more, one contender has won and all others have lost. */
  ghost predicate Decided(phases: map<nat, Phase>, w: nat) {
    w in phases && phases[w].Won? && forall t :: t in phases && t != w ==> phases[t].Lost?
  }

  lemma FinishDecides(taken: bool, phases: map<nat, Phase>)
    requires Fair(taken, phases) && phases != map[]
    requires forall t :: t in phases ==> !phases[t].Trying?
    ensures taken && exists w :: Decided(phases, w)
  {
    var t :| t in phases;
    var w :| OnlyWinner(phases, w);
    assert Decided(phases, w);
  }

  // ---- contenders are handlers, and behind them there are clients ----

  /** The members of the team that have arrived. */
  ghost function Present<T>(team: set<Tid>, tasks: map<Tid, T>): set<Tid> {
    set t | t in team && t in tasks
  }

  /** One client is answered 201, and all others 409. */
  ghost predicate ClientWins(s: System, clients: set<Tid>, w: Tid) {
    && w in clients && w in s.requests && s.requests[w].answer.Some? && s.requests[w].answer.value.status == 201
    && forall r :: r in clients && r != w ==>
         r in s.requests && s.requests[r].answer.Some? && s.requests[r].answer.value.status == 409
  }
}
