/**
 * The connection a hub keeps to each node, shared by any number of concurrent callers through a gate with one token.
 * A call is a sequence of atomic steps; the schedule and every outcome are arbitrary.
 */
module RpcPool {
  import opened Base

  /** Where a caller stands in its call. A round is one attempt to get an answer over a connection. */
  datatype Place =
    | Start
    | Waiting
    | Entered
    | Connecting(round: nat)
    | Opening(round: nat, connection: nat)
    | Asking(round: nat, connection: nat)
    | Dropping(round: nat, connection: nat)
    | Leaving(answered: bool)
    | Finished(answered: bool)

  datatype Caller = Caller(place: Place, dials: nat, trips: nat)

  /** The pool and its callers. Connections are numbered in the order they are dialled. */
  datatype State = State(tokens: nat, client: Option<nat>, dialled: nat, closed: set<nat>, callers: seq<Caller>)

  /** What happens at a step: it goes well, the caller gives up, the transport fails, or the node declines. */
  datatype Outcome = Good | Canceled | Broken | Declined

  datatype Choice = Choice(outcome: Outcome, idle: bool)

  const MAX_ROUNDS := 2

  function Init(n: nat): State {
    State(1, None, 0, {}, seq(n, _ => Caller(Start, 0, 0)))
  }

  predicate Holds(p: Place) {
    !p.Start? && !p.Waiting? && !p.Finished?
  }

  // ---- Steps -----------------------------------------------------------------------------------------------------

  function At(s: State, i: nat, c: Caller): State
    requires i < |s.callers|
  {
    s.(callers := s.callers[i := c])
  }

  function Closing(s: State, connection: nat): State {
    s.(closed := s.closed + {connection})
  }

  /** One step of caller `i`. A caller that has to wait for the token stays where it is. */
  function Step(s: State, i: nat, choice: Choice): State
    requires i < |s.callers|
  {
    var me := s.callers[i];
    match me.place
    case Start =>
      At(s, i, me.(place := if choice.outcome == Canceled then Finished(false) else Waiting))
    case Waiting =>
      if choice.outcome == Canceled then At(s, i, me.(place := Finished(false)))
      else if s.tokens == 0 then s
      else At(s.(tokens := s.tokens - 1), i, me.(place := Entered))
    case Entered =>
      if choice.outcome == Canceled then At(s, i, me.(place := Leaving(false)))
      else if s.client.Some? && choice.idle then
        At(Closing(s, s.client.value).(client := None), i, me.(place := Connecting(1)))
      else At(s, i, me.(place := Connecting(1)))
    case Connecting(round) =>
      if s.client.Some? then At(s, i, me.(place := Opening(round, s.client.value)))
      else if choice.outcome != Good then At(s, i, me.(place := Leaving(false), dials := me.dials + 1))
      else
        At(s.(client := Some(s.dialled), dialled := s.dialled + 1), i,
           me.(place := Opening(round, s.dialled), dials := me.dials + 1))
    case Opening(round, connection) =>
      var next := me.(trips := me.trips + 1);
      if choice.outcome == Good then At(s, i, next.(place := Asking(round, connection)))
      else
        At(if choice.outcome == Canceled then Closing(s, connection) else s, i, next.(place := Dropping(round, connection)))
    case Asking(round, connection) =>
      (match choice.outcome
       case Good => At(s, i, me.(place := Leaving(true)))
       case Declined => At(s, i, me.(place := Leaving(false)))
       case Broken => At(s, i, me.(place := Dropping(round, connection)))
       case Canceled => At(Closing(s, connection), i, me.(place := Dropping(round, connection))))
    case Dropping(round, connection) =>
      At(Closing(s, connection).(client := None), i,
         me.(place := if round == 1 && choice.outcome != Canceled then Connecting(2) else Leaving(false)))
    case Leaving(answered) =>
      At(s.(tokens := s.tokens + 1), i, me.(place := Finished(answered)))
    case Finished(_) => s
  }

  function Run(s: State, schedule: seq<(nat, Choice)>): State
    requires forall k :: 0 <= k < |schedule| ==> schedule[k].0 < |s.callers|
    decreases |schedule|
  {
    if schedule == [] then s else Run(Step(s, schedule[0].0, schedule[0].1), schedule[1..])
  }

  // ---- Invariants ------------------------------------------------------------------------------------------------

  function Holders(callers: seq<Caller>): nat {
    if callers == [] then 0 else (if Holds(callers[0].place) then 1 else 0) + Holders(callers[1..])
  }

  /** The pooled connection, if there is one, was not closed by the pool. */
  predicate Clean(s: State) {
    s.client.Some? ==> s.client.value !in s.closed
  }

  /** What a caller at its place may rely on, and what it has used up. */
  predicate Consistent(s: State, c: Caller) {
    match c.place
    case Start => c.dials == c.trips == 0
    case Waiting => c.dials == c.trips == 0
    case Entered => Clean(s) && c.dials == c.trips == 0
    case Connecting(round) => Clean(s) && 1 <= round <= MAX_ROUNDS && c.dials < round && c.trips == round - 1
    case Opening(round, connection) =>
      Clean(s) && s.client == Some(connection) && 1 <= round <= MAX_ROUNDS && c.dials <= round && c.trips == round - 1
    case Asking(round, connection) =>
      Clean(s) && s.client == Some(connection) && 1 <= round <= MAX_ROUNDS && c.dials <= round && c.trips == round
    case Dropping(round, connection) =>
      s.client == Some(connection) && 1 <= round <= MAX_ROUNDS && c.dials <= round && c.trips == round
    case Leaving(_) => Clean(s) && c.dials <= MAX_ROUNDS && c.trips <= MAX_ROUNDS
    case Finished(_) => c.dials <= MAX_ROUNDS && c.trips <= MAX_ROUNDS
  }

  ghost predicate Inv(s: State) {
    && s.tokens + Holders(s.callers) == 1
    && (s.tokens == 1 ==> Clean(s))
    && (s.client.Some? ==> s.client.value < s.dialled)
    && (forall id :: id in s.closed ==> id < s.dialled)
    && (forall id :: 0 <= id < s.dialled ==> s.client == Some(id) || id in s.closed)
    && forall i :: 0 <= i < |s.callers| ==> Consistent(s, s.callers[i])
  }

  lemma {:induction false} HoldersReplaced(callers: seq<Caller>, i: nat, c: Caller)
    requires i < |callers|
    ensures Holders(callers[i := c]) + (if Holds(callers[i].place) then 1 else 0)
            == Holders(callers) + (if Holds(c.place) then 1 else 0)
    decreases callers
  {
    if i == 0 {
      assert callers[0 := c][1..] == callers[1..];
    } else {
      assert callers[i := c][1..] == callers[1..][i - 1 := c];
      HoldersReplaced(callers[1..], i - 1, c);
    }
  }

  lemma {:induction false} HolderCounts(callers: seq<Caller>, i: nat)
    requires i < |callers| && Holds(callers[i].place)
    ensures Holders(callers) >= 1
    decreases i
  {
    if i > 0 {
      HolderCounts(callers[1..], i - 1);
    }
  }

  /** Never two callers between taking and giving back the token. */
  lemma {:induction false} OneHolder(callers: seq<Caller>, i: nat, j: nat)
    requires Holders(callers) <= 1 && i < |callers| && j < |callers|
    requires Holds(callers[i].place) && Holds(callers[j].place)
    ensures i == j
    decreases callers
  {
    if i == 0 && j > 0 {
      HolderCounts(callers[1..], j - 1);
    } else if j == 0 && i > 0 {
      HolderCounts(callers[1..], i - 1);
    } else if i > 0 && j > 0 {
      OneHolder(callers[1..], i - 1, j - 1);
    }
  }

  lemma {:induction false} NoHolders(n: nat)
    ensures Holders(seq(n, _ => Caller(Start, 0, 0))) == 0
  {
    if n > 0 {
      NoHolders(n - 1);
      assert seq(n, _ => Caller(Start, 0, 0))[1..] == seq(n - 1, _ => Caller(Start, 0, 0));
    }
  }

  /** A step moves the token between the gate and the stepping caller, and changes no other caller. */
  lemma StepMovesToken(s: State, i: nat, choice: Choice)
    requires i < |s.callers|
    ensures var t := Step(s, i, choice);
            && |t.callers| == |s.callers| && t.callers == s.callers[i := t.callers[i]]
            && t.tokens + (if Holds(t.callers[i].place) then 1 else 0)
               == s.tokens + (if Holds(s.callers[i].place) then 1 else 0)
  {
  }

  /** The token is in the gate or with one caller. */
  lemma StepKeepsToken(s: State, i: nat, choice: Choice)
    requires i < |s.callers| && s.tokens + Holders(s.callers) == 1
    ensures var t := Step(s, i, choice); |t.callers| == |s.callers| && t.tokens + Holders(t.callers) == 1
  {
    hide Step;
    StepMovesToken(s, i, choice);
    HoldersReplaced(s.callers, i, Step(s, i, choice).callers[i]);
  }

  /** No connection is lost: each one dialled is pooled or closed. */
  lemma StepKeepsConnections(s: State, i: nat, choice: Choice)
    requires Inv(s) && i < |s.callers|
    ensures var t := Step(s, i, choice);
            && (t.client.Some? ==> t.client.value < t.dialled)
            && (forall id :: id in t.closed ==> id < t.dialled)
            && (forall id :: 0 <= id < t.dialled ==> t.client == Some(id) || id in t.closed)
  {
    hide Holders;
    assert Consistent(s, s.callers[i]);
  }

  /** The stepping caller finds at its new place what it may rely on there, and leaves a clean pool behind. */
  lemma StepKeepsOwn(s: State, i: nat, choice: Choice)
    requires Inv(s) && i < |s.callers|
    ensures var t := Step(s, i, choice); i < |t.callers| && Consistent(t, t.callers[i]) && (t.tokens == 1 ==> Clean(t))
  {
    hide Holders;
    assert Consistent(s, s.callers[i]);
    if Holds(s.callers[i].place) {
      HolderCounts(s.callers, i);
    }
  }

  /** Callers outside the gate rely on nothing another caller could change. */
  lemma StepKeepsOthers(s: State, i: nat, choice: Choice, j: nat)
    requires Inv(s) && i < |s.callers| && j < |s.callers| && i != j
    ensures var t := Step(s, i, choice); t.callers[j] == s.callers[j] && Consistent(t, t.callers[j])
  {
    var t := Step(s, i, choice);
    assert Consistent(s, s.callers[j]) && Consistent(s, s.callers[i]);
    if Holds(s.callers[j].place) {
      HolderCounts(s.callers, j);
      if Holds(s.callers[i].place) {
        OneHolder(s.callers, i, j);
      }
    }
  }

  lemma StepKeepsInv(s: State, i: nat, choice: Choice)
    requires Inv(s) && i < |s.callers|
    ensures Inv(Step(s, i, choice))
  {
    hide Step, Consistent;
    var t := Step(s, i, choice);
    StepKeepsToken(s, i, choice);
    StepKeepsConnections(s, i, choice);
    StepKeepsOwn(s, i, choice);
    forall j | 0 <= j < |t.callers|
      ensures Consistent(t, t.callers[j])
    {
      if j != i {
        StepKeepsOthers(s, i, choice, j);
      }
    }
  }

  lemma {:induction false} RunKeepsInv(s: State, schedule: seq<(nat, Choice)>)
    requires Inv(s) && forall k :: 0 <= k < |schedule| ==> schedule[k].0 < |s.callers|
    ensures Inv(Run(s, schedule))
    decreases |schedule|
  {
    if schedule != [] {
      var i, choice := schedule[0].0, schedule[0].1;
      StepKeepsInv(s, i, choice);
      assert |Step(s, i, choice).callers| == |s.callers|;
      RunKeepsInv(Step(s, i, choice), schedule[1..]);
    }
  }

  // ---- What holds at any moment of any run -----------------------------------------------------------------------

  /**
   * For any number of callers and any schedule: the token is in the gate or with exactly one caller; while the gate
   * is free, the pooled connection was not closed by the pool; no connection is lost; no call dials or asks more
   * than twice.
   */
  lemma PoolIsSafe(n: nat, schedule: seq<(nat, Choice)>)
    requires forall k :: 0 <= k < |schedule| ==> schedule[k].0 < n
    ensures var s := Run(Init(n), schedule);
            && s.tokens + Holders(s.callers) == 1
            && (s.tokens == 1 && s.client.Some? ==> s.client.value !in s.closed)
            && (forall id :: 0 <= id < s.dialled ==> s.client == Some(id) || id in s.closed)
            && forall i :: 0 <= i < |s.callers| ==> s.callers[i].dials <= MAX_ROUNDS && s.callers[i].trips <= MAX_ROUNDS
  {
    NoHolders(n);
    RunKeepsInv(Init(n), schedule);
    var s := Run(Init(n), schedule);
    forall i | 0 <= i < |s.callers|
      ensures s.callers[i].dials <= MAX_ROUNDS && s.callers[i].trips <= MAX_ROUNDS
    {
      assert Consistent(s, s.callers[i]);
    }
  }

  /** A caller that asks over a connection has it to itself, and nobody has closed it. */
  lemma AskingIsExclusive(n: nat, schedule: seq<(nat, Choice)>, i: nat, j: nat)
    requires (forall k :: 0 <= k < |schedule| ==> schedule[k].0 < n)
    requires var s := Run(Init(n), schedule);
             && i < |s.callers| && j < |s.callers| && i != j && s.callers[i].place.Asking?
    ensures var s := Run(Init(n), schedule);
            && s.client == Some(s.callers[i].place.connection) && s.callers[i].place.connection !in s.closed
            && !Holds(s.callers[j].place)
  {
    NoHolders(n);
    RunKeepsInv(Init(n), schedule);
    var s := Run(Init(n), schedule);
    assert Consistent(s, s.callers[i]);
    if Holds(s.callers[j].place) {
      OneHolder(s.callers, i, j);
    }
  }

  /** How many steps a caller needs at most before it is through, once it has the token. */
  function StepsLeft(p: Place): nat {
    match p
    case Start => 12
    case Waiting => 11
    case Entered => 10
    case Connecting(round) => if round == 1 then 9 else 5
    case Opening(round, _) => if round == 1 then 8 else 4
    case Asking(round, _) => if round == 1 then 7 else 3
    case Dropping(round, _) => if round == 1 then 6 else 2
    case Leaving(_) => 1
    case Finished(_) => 0
  }

  /** Every step brings a caller closer to its end, unless it has to wait for the token: the token always comes back. */
  lemma EveryStepAdvances(s: State, i: nat, choice: Choice)
    requires Inv(s) && i < |s.callers| && !s.callers[i].place.Finished?
    requires !(s.callers[i].place.Waiting? && s.tokens == 0 && choice.outcome != Canceled)
    ensures StepsLeft(Step(s, i, choice).callers[i].place) < StepsLeft(s.callers[i].place)
  {
    assert Consistent(s, s.callers[i]);
  }

  // ---- When a call is answered -----------------------------------------------------------------------------------

  /** How far an outcome brings a call at its place towards failing: a call survives one lost round, and no more. */
  function Trouble(p: Place, o: Outcome): nat {
    match p
    case Start => if o == Canceled then 2 else 0
    case Waiting => if o == Canceled then 2 else 0
    case Entered => if o == Canceled then 2 else 0
    case Connecting(_) => if o == Good then 0 else 2
    case Opening(_, _) => if o == Good then 0 else 1
    case Asking(_, _) => if o == Good then 0 else if o == Declined then 2 else 1
    case Dropping(_, _) => if o == Canceled then 1 else 0
    case Leaving(_) => 0
    case Finished(_) => 0
  }

  /** The trouble a call at this place has already had. */
  function Suffered(p: Place): nat {
    match p
    case Connecting(round) => if round == 1 then 0 else 1
    case Opening(round, _) => if round == 1 then 0 else 1
    case Asking(round, _) => if round == 1 then 0 else 1
    case Dropping(round, _) => if round == 1 then 1 else 2
    case Leaving(answered) => if answered then 0 else 2
    case Finished(answered) => if answered then 0 else 2
    case _ => 0
  }

  /** The trouble of one caller over a whole schedule. */
  function Troubles(s: State, schedule: seq<(nat, Choice)>, i: nat): nat
    requires i < |s.callers| && forall k :: 0 <= k < |schedule| ==> schedule[k].0 < |s.callers|
    decreases |schedule|
  {
    if schedule == [] then 0
    else
      var (who, choice) := schedule[0];
      (if who == i then Trouble(s.callers[i].place, choice.outcome) else 0)
      + Troubles(Step(s, who, choice), schedule[1..], i)
  }

  lemma StepSuffers(s: State, i: nat, choice: Choice)
    requires Inv(s) && i < |s.callers|
    ensures Suffered(Step(s, i, choice).callers[i].place)
            <= Suffered(s.callers[i].place) + Trouble(s.callers[i].place, choice.outcome)
  {
    assert Consistent(s, s.callers[i]);
  }

  lemma {:induction false} RunSuffers(s: State, schedule: seq<(nat, Choice)>, i: nat)
    requires Inv(s) && i < |s.callers| && forall k :: 0 <= k < |schedule| ==> schedule[k].0 < |s.callers|
    ensures i < |Run(s, schedule).callers|
    ensures Suffered(Run(s, schedule).callers[i].place) <= Suffered(s.callers[i].place) + Troubles(s, schedule, i)
    decreases |schedule|
  {
    if schedule != [] {
      var (who, choice) := schedule[0];
      StepKeepsInv(s, who, choice);
      StepMovesToken(s, who, choice);
      if who == i {
        StepSuffers(s, i, choice);
      } else {
        StepKeepsOthers(s, who, choice, i);
      }
      RunSuffers(Step(s, who, choice), schedule[1..], i);
    }
  }

  /**
   However the other callers behave, a call that is not given up or declined, whose dials succeed and that loses its
   connection at most once, is answered when it is through.
   */
  lemma OneLossIsSurvived(n: nat, schedule: seq<(nat, Choice)>, i: nat)
    requires i < n && forall k :: 0 <= k < |schedule| ==> schedule[k].0 < n
    requires Troubles(Init(n), schedule, i) <= 1
    ensures i < |Run(Init(n), schedule).callers|
    ensures var p := Run(Init(n), schedule).callers[i].place; p.Finished? ==> p.answered
  {
    NoHolders(n);
    RunSuffers(Init(n), schedule, i);
  }
}
