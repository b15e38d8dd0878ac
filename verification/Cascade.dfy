/**
 * Updating a tree of machines: every relay first rehearses the update of its subtree, then carries it out.
 * Every remote call may fail before, during or after the work it starts, unless the run is called reliable; targets of
 * one level run concurrently.
 */
module Cascade {
  import opened Base
  import F = FleetManifest
  import B = RelayBundle
  import R = RelayLoad

  /** A target by its position: the way to it from the machine of the operator. */
  type At = seq<nat>

  /** The shape of a resolved tree. */
  datatype Node = Leaf | Relay(children: seq<Node>)

  datatype Plan = Noop | Proceed | Deferred | Failing

  datatype Outcome = Current | Postponed | Applied | Relayed | Failed

  datatype Document = Document(plans: seq<Plan>, results: seq<Outcome>)

  datatype Event =
    | LeafPlanned(at: At)        // the plan of a leaf ended without error
    | Unreachable(at: At)        // a relay did not answer and was deferred
    | DryRunPassed(at: At)       // a rehearsal on a machine found no error among its targets
    | Installing(at: At)         // the installer of a leaf is about to be started
    | Ended(at: At, failed: bool)  // the update of a target was recorded

  // ---- Traces ----------------------------------------------------------------------------------------------------

  function Elements(trace: seq<Event>): set<Event> {
    set e | e in trace
  }

  /** Two traces running at once, in the order given by the choices. */
  function Interleave(a: seq<Event>, b: seq<Event>, choices: seq<bool>): seq<Event>
    decreases |a| + |b|
  {
    if a == [] then b
    else if b == [] then a
    else if choices != [] && choices[0] then [a[0]] + Interleave(a[1..], b, choices[1..])
    else [b[0]] + Interleave(a, b[1..], if choices == [] then [] else choices[1..])
  }

  /** What came before some event of a trace also came before it in the interleaving. */
  ghost predicate ComesFrom(trace: seq<Event>, whole: seq<Event>, k: nat)
    requires k < |whole|
  {
    exists i :: 0 <= i < |trace| && trace[i] == whole[k] && Elements(trace[..i]) <= Elements(whole[..k])
  }

  lemma {:induction false} InterleaveOrigin(a: seq<Event>, b: seq<Event>, choices: seq<bool>, k: nat)
    requires k < |Interleave(a, b, choices)|
    ensures var whole := Interleave(a, b, choices); ComesFrom(a, whole, k) || ComesFrom(b, whole, k)
    decreases |a| + |b|
  {
    var whole := Interleave(a, b, choices);
    if a == [] {
      assert b[k] == whole[k];
    } else if b == [] {
      assert a[k] == whole[k];
    } else {
      var more := if choices == [] then [] else choices[1..];
      var first := choices != [] && choices[0];
      var rest := if first then Interleave(a[1..], b, more) else Interleave(a, b[1..], more);
      if k == 0 {
        assert Elements([]) <= Elements(whole[..0]);
        assert if first then a[0] == whole[0] && a[..0] == [] else b[0] == whole[0] && b[..0] == [];
      } else {
        assert whole[..k] == [whole[0]] + rest[..k - 1] && whole[k] == rest[k - 1];
        if first {
          InterleaveOrigin(a[1..], b, more, k - 1);
          OriginShifts(a, b, rest, whole, k);
        } else {
          InterleaveOrigin(a, b[1..], more, k - 1);
          OriginShifts(b, a, rest, whole, k);
        }
      }
    }
  }

  lemma OriginShifts(a: seq<Event>, b: seq<Event>, rest: seq<Event>, whole: seq<Event>, k: nat)
    requires a != [] && 0 < k < |whole| && whole == [a[0]] + rest
    requires ComesFrom(a[1..], rest, k - 1) || ComesFrom(b, rest, k - 1)
    ensures ComesFrom(a, whole, k) || ComesFrom(b, whole, k)
  {
    assert whole[..k] == [a[0]] + rest[..k - 1] && whole[k] == rest[k - 1];
    assert Elements(rest[..k - 1]) <= Elements(whole[..k]) && a[0] in Elements(whole[..k]);
    if ComesFrom(a[1..], rest, k - 1) {
      var i :| 0 <= i < |a[1..]| && a[1..][i] == rest[k - 1] && Elements(a[1..][..i]) <= Elements(rest[..k - 1]);
      assert a[..i + 1] == [a[0]] + a[1..][..i];
      assert Elements(a[..i + 1]) <= Elements(whole[..k]) && a[i + 1] == whole[k];
    } else {
      var i :| 0 <= i < |b| && b[i] == rest[k - 1] && Elements(b[..i]) <= Elements(rest[..k - 1]);
      assert b[i] == whole[k] && Elements(b[..i]) <= Elements(whole[..k]);
    }
  }

  lemma FirstElement(e: Event, rest: seq<Event>)
    ensures Elements([e] + rest) == {e} + Elements(rest)
  {
  }

  lemma {:induction false} InterleaveElements(a: seq<Event>, b: seq<Event>, choices: seq<bool>)
    ensures Elements(Interleave(a, b, choices)) == Elements(a) + Elements(b)
    decreases |a| + |b|
  {
    if a != [] && b != [] {
      var more := if choices == [] then [] else choices[1..];
      if choices != [] && choices[0] {
        InterleaveElements(a[1..], b, more);
        FirstElement(a[0], a[1..]);
        FirstElement(a[0], Interleave(a[1..], b, more));
        assert a == [a[0]] + a[1..];
      } else {
        InterleaveElements(a, b[1..], more);
        FirstElement(b[0], b[1..]);
        FirstElement(b[0], Interleave(a, b[1..], more));
        assert b == [b[0]] + b[1..];
      }
    }
  }

  // ---- What a run must keep --------------------------------------------------------------------------------------

  /** Every target that could be reached was rehearsed without error, at every depth. */
  ghost predicate CleanRun(targets: seq<Node>, at: At, seen: set<Event>)
    decreases targets
  {
    forall i :: 0 <= i < |targets| ==>
      match targets[i]
      case Leaf => LeafPlanned(at + [i]) in seen
      case Relay(children) =>
        || Unreachable(at + [i]) in seen
        || (DryRunPassed(at + [i]) in seen && CleanRun(children, at + [i], seen))
  }

  /** The target at `p` was planned without error, and every relay above it passed a clean rehearsal. */
  ghost predicate Guarded(targets: seq<Node>, at: At, p: At, seen: set<Event>)
    decreases targets
  {
    && |at| < |p| && at + [p[|at|]] <= p && p[|at|] < |targets|
    && var t, next := targets[p[|at|]], at + [p[|at|]];
       match t
       case Leaf => p == next && LeafPlanned(p) in seen
       case Relay(children) =>
         DryRunPassed(next) in seen && CleanRun(children, next, seen) && Guarded(children, next, p, seen)
  }

  /** No installer is started before its target is guarded. */
  ghost predicate SafeTrace(targets: seq<Node>, at: At, given: set<Event>, trace: seq<Event>) {
    forall k :: 0 <= k < |trace| && trace[k].Installing? ==>
                  Guarded(targets, at, trace[k].at, given + Elements(trace[..k]))
  }

  /** Every target below ended without error; what hangs below an unreachable relay was left alone. */
  ghost predicate Accounted(targets: seq<Node>, at: At, seen: set<Event>)
    decreases targets
  {
    forall i :: 0 <= i < |targets| ==>
      && Ended(at + [i], false) in seen
      && (targets[i].Relay? ==> Unreachable(at + [i]) in seen || Accounted(targets[i].children, at + [i], seen))
  }

  /** All events concern targets below `at`, the machine itself included. */
  ghost predicate Within(at: At, trace: seq<Event>) {
    forall e :: e in trace ==> at <= e.at
  }

  ghost predicate TouchesNothing(trace: seq<Event>) {
    forall e :: e in trace ==> !e.Installing? && !e.Ended?
  }

  ghost predicate NoFailureBelow(at: At, trace: seq<Event>) {
    forall e :: e in trace && e.Ended? && e.failed ==> !(at <= e.at)
  }

  lemma {:induction false} CleanRunGrows(targets: seq<Node>, at: At, seen: set<Event>, more: set<Event>)
    requires CleanRun(targets, at, seen) && seen <= more
    ensures CleanRun(targets, at, more)
    decreases targets
  {
    forall i | 0 <= i < |targets| && targets[i].Relay? && CleanRun(targets[i].children, at + [i], seen)
      ensures CleanRun(targets[i].children, at + [i], more)
    {
      CleanRunGrows(targets[i].children, at + [i], seen, more);
    }
  }

  lemma {:induction false} GuardedGrows(targets: seq<Node>, at: At, p: At, seen: set<Event>, more: set<Event>)
    requires Guarded(targets, at, p, seen) && seen <= more
    ensures Guarded(targets, at, p, more)
    decreases targets
  {
    var t, next := targets[p[|at|]], at + [p[|at|]];
    if t.Relay? {
      CleanRunGrows(t.children, next, seen, more);
      GuardedGrows(t.children, next, p, seen, more);
    }
  }

  lemma {:induction false} AccountedGrows(targets: seq<Node>, at: At, seen: set<Event>, more: set<Event>)
    requires Accounted(targets, at, seen) && seen <= more
    ensures Accounted(targets, at, more)
    decreases targets
  {
    forall i | 0 <= i < |targets| && targets[i].Relay? && Accounted(targets[i].children, at + [i], seen)
      ensures Accounted(targets[i].children, at + [i], more)
    {
      AccountedGrows(targets[i].children, at + [i], seen, more);
    }
  }

  /** Running two safe parts at once is safe. */
  lemma InterleavingIsSafe(targets: seq<Node>, at: At, given: set<Event>, a: seq<Event>, b: seq<Event>,
                           choices: seq<bool>)
    requires SafeTrace(targets, at, given, a) && SafeTrace(targets, at, given, b)
    ensures SafeTrace(targets, at, given, Interleave(a, b, choices))
  {
    hide Guarded;
    var whole := Interleave(a, b, choices);
    forall k | 0 <= k < |whole| && whole[k].Installing?
      ensures Guarded(targets, at, whole[k].at, given + Elements(whole[..k]))
    {
      InterleaveOrigin(a, b, choices, k);
      var trace := if ComesFrom(a, whole, k) then a else b;
      var i :| 0 <= i < |trace| && trace[i] == whole[k] && Elements(trace[..i]) <= Elements(whole[..k]);
      GuardedGrows(targets, at, whole[k].at, given + Elements(trace[..i]), given + Elements(whole[..k]));
    }
  }

  /** A rehearsal that touched nothing may come first; the rest may then rely on what it showed. */
  lemma AfterRehearsal(targets: seq<Node>, at: At, rehearsal: seq<Event>, trace: seq<Event>)
    requires TouchesNothing(rehearsal) && SafeTrace(targets, at, Elements(rehearsal), trace)
    ensures SafeTrace(targets, at, {}, rehearsal + trace)
  {
    hide Guarded;
    var whole := rehearsal + trace;
    forall k | 0 <= k < |whole| && whole[k].Installing?
      ensures Guarded(targets, at, whole[k].at, {} + Elements(whole[..k]))
    {
      if k >= |rehearsal| {
        var i := k - |rehearsal|;
        assert trace[i] == whole[k] && whole[..k] == rehearsal + trace[..i];
        assert {} + Elements(whole[..k]) == Elements(rehearsal) + Elements(trace[..i]);
      }
    }
  }

  /** What is safe for a relay's own list is safe for the list the relay stands in, once the relay was rehearsed. */
  lemma SafeBelow(targets: seq<Node>, at: At, i: nat, given: set<Event>, trace: seq<Event>)
    requires i < |targets| && targets[i].Relay? && SafeTrace(targets[i].children, at + [i], {}, trace)
    requires DryRunPassed(at + [i]) in given && CleanRun(targets[i].children, at + [i], given)
    ensures SafeTrace(targets, at, given, trace)
  {
    hide CleanRun;
    var next := at + [i];
    forall k | 0 <= k < |trace| && trace[k].Installing?
      ensures Guarded(targets, at, trace[k].at, given + Elements(trace[..k]))
    {
      var p, seen := trace[k].at, given + Elements(trace[..k]);
      assert Guarded(targets[i].children, next, p, {} + Elements(trace[..k]));
      GuardedGrows(targets[i].children, next, p, {} + Elements(trace[..k]), seen);
      CleanRunGrows(targets[i].children, next, given, seen);
      assert next <= p && p[|at|] == next[|at|];
    }
  }

  // ---- Planning --------------------------------------------------------------------------------------------------

  predicate PlansHealthy(plans: seq<Plan>) {
    forall i :: 0 <= i < |plans| ==> plans[i] != Failing
  }

  predicate ResultsHealthy(results: seq<Outcome>) {
    forall i :: 0 <= i < |results| ==> results[i] != Failed
  }

  /** What a plan says about what was seen. */
  ghost predicate PlanHolds(t: Node, at: At, plan: Plan, seen: set<Event>) {
    match t
    case Leaf => plan != Deferred && (plan != Failing ==> LeafPlanned(at) in seen)
    case Relay(children) =>
      && plan != Noop
      && (plan == Deferred ==> Unreachable(at) in seen)
      && (plan == Proceed ==> DryRunPassed(at) in seen && CleanRun(children, at, seen))
  }

  ghost predicate PlansHold(targets: seq<Node>, at: At, plans: seq<Plan>, seen: set<Event>) {
    |plans| <= |targets| && forall i :: 0 <= i < |plans| ==> PlanHolds(targets[i], at + [i], plans[i], seen)
  }

  lemma PlansHoldGrows(targets: seq<Node>, at: At, plans: seq<Plan>, seen: set<Event>, more: set<Event>)
    requires PlansHold(targets, at, plans, seen) && seen <= more
    ensures PlansHold(targets, at, plans, more)
  {
    hide CleanRun;
    forall i | 0 <= i < |plans|
      ensures PlanHolds(targets[i], at + [i], plans[i], more)
    {
      assert PlanHolds(targets[i], at + [i], plans[i], seen);
      if targets[i].Relay? && plans[i] == Proceed {
        CleanRunGrows(targets[i].children, at + [i], seen, more);
      }
    }
  }

  /** Plans without an error describe a clean rehearsal. */
  lemma HealthyIsClean(targets: seq<Node>, at: At, plans: seq<Plan>, seen: set<Event>)
    requires PlansHold(targets, at, plans, seen) && PlansHealthy(plans) && |plans| == |targets|
    ensures CleanRun(targets, at, seen)
  {
    forall i | 0 <= i < |targets|
      ensures PlanHolds(targets[i], at + [i], plans[i], seen) && plans[i] != Failing
    {
    }
  }

  /** Every relay of the tree has targets. */
  predicate WellShaped(targets: seq<Node>)
    decreases targets
  {
    forall i :: 0 <= i < |targets| ==> WellShapedNode(targets[i])
  }

  predicate WellShapedNode(t: Node)
    decreases t
  {
    t.Relay? ==> t.children != [] && WellShaped(t.children)
  }

  /** The plan of one leaf: whatever is checked there, it ends with an error or without. */
  method PlanLeaf(at: At, reliable: bool) returns (plan: Plan, ghost trace: seq<Event>)
    ensures PlanHolds(Leaf, at, plan, Elements(trace)) && Within(at, trace) && TouchesNothing(trace)
    ensures reliable ==> plan != Failing
  {
    var failed: bool, current: bool := *, *;
    if failed && !reliable {
      return Failing, [];
    }
    trace := [LeafPlanned(at)];
    plan := if current then Noop else Proceed;
  }

  method PlanRelay(t: Node, at: At, reliable: bool) returns (plan: Plan, ghost trace: seq<Event>)
    requires t.Relay?
    ensures reliable && WellShapedNode(t) ==> plan == Proceed
    ensures PlanHolds(t, at, plan, Elements(trace)) && Within(at, trace) && TouchesNothing(trace)
    decreases t, 1
  {
    hide CleanRun;
    var answers: bool, hashed: bool := *, *;
    if !answers && !reliable {
      return Deferred, [Unreachable(at)];
    }
    if !hashed && !reliable {
      return Failing, [];
    }
    var document;
    document, trace := RunRelay(t, at, false, reliable);
    if document.None? || !PlansHealthy(document.value.plans) {
      return Failing, trace;
    }
    plan := Proceed;
  }

  method PlanTargets(targets: seq<Node>, at: At, reliable: bool) returns (plans: seq<Plan>, ghost trace: seq<Event>)
    ensures |plans| == |targets| && PlansHold(targets, at, plans, Elements(trace))
    ensures reliable && WellShaped(targets) ==> PlansHealthy(plans) && Deferred !in plans
    ensures Within(at, trace) && TouchesNothing(trace)
    decreases targets, 0
  {
    hide CleanRun, PlanHolds;
    plans, trace := [], [];
    while |plans| < |targets|
      invariant |plans| <= |targets| && PlansHold(targets, at, plans, Elements(trace))
      invariant reliable && WellShaped(targets) ==> PlansHealthy(plans) && Deferred !in plans
      invariant Within(at, trace) && TouchesNothing(trace)
    {
      var i := |plans|;
      var plan;
      ghost var own: seq<Event>;
      if targets[i].Leaf? {
        plan, own := PlanLeaf(at + [i], reliable);
      } else {
        plan, own := PlanRelay(targets[i], at + [i], reliable);
      }
      ghost var choices: seq<bool> := *;
      InterleaveElements(trace, own, choices);
      ghost var whole := Interleave(trace, own, choices);
      PlansHoldGrows(targets, at, plans, Elements(trace), Elements(whole));
      OnePlanGrows(targets[i], at + [i], plan, Elements(own), Elements(whole));
      BothWithin(at, at + [i], trace, own, whole);
      trace := whole;
      plans := plans + [plan];
    }
  }

  lemma OnePlanGrows(t: Node, at: At, plan: Plan, seen: set<Event>, more: set<Event>)
    requires PlanHolds(t, at, plan, seen) && seen <= more
    ensures PlanHolds(t, at, plan, more)
  {
    if t.Relay? && plan == Proceed {
      CleanRunGrows(t.children, at, seen, more);
    }
  }

  lemma BothWithin(at: At, below: At, a: seq<Event>, b: seq<Event>, whole: seq<Event>)
    requires Within(at, a) && Within(below, b) && at <= below && Elements(whole) == Elements(a) + Elements(b)
    ensures Within(at, whole)
    ensures TouchesNothing(a) && TouchesNothing(b) ==> TouchesNothing(whole)
  {
    forall e | e in whole
      ensures at <= e.at && (TouchesNothing(a) && TouchesNothing(b) ==> !e.Installing? && !e.Ended?)
    {
      assert e in Elements(whole);
      assert e in a || e in b;
    }
  }

  // ---- Carrying out ----------------------------------------------------------------------------------------------

  /** What a result says about what happened, if it is not a failure. */
  ghost predicate ResultHolds(t: Node, at: At, result: Outcome, given: set<Event>, trace: seq<Event>) {
    result != Failed ==>
      && Ended(at, false) in trace
      && NoFailureBelow(at, trace)
      && (t.Leaf? ==> result == Current || (result == Applied && Installing(at) in trace))
      && (t.Relay? ==>
            || (result == Postponed && Unreachable(at) in given)
            || (result == Relayed && Accounted(t.children, at, given + Elements(trace))))
  }

  ghost predicate ResultsHold(targets: seq<Node>, at: At, results: seq<Outcome>, given: set<Event>, trace: seq<Event>) {
    |results| <= |targets| && forall i :: 0 <= i < |results| ==> ResultHolds(targets[i], at + [i], results[i], given, trace)
  }

  /** The events of the first `n` targets. */
  ghost predicate WithinFirst(at: At, n: nat, trace: seq<Event>) {
    forall e :: e in trace ==> |at| < |e.at| && at <= e.at && e.at[|at|] < n
  }

  method ApplyTargets(targets: seq<Node>, at: At, plans: seq<Plan>, reliable: bool, ghost given: set<Event>)
    returns (results: seq<Outcome>, ghost trace: seq<Event>)
    requires |plans| == |targets| && PlansHold(targets, at, plans, given)
    ensures |results| == |targets| && ResultsHold(targets, at, results, given, trace)
    ensures SafeTrace(targets, at, given, trace) && WithinFirst(at, |targets|, trace)
    ensures reliable && WellShaped(targets) && PlansHealthy(plans) ==> ResultsHealthy(results)
    decreases targets, 1
  {
    hide CleanRun, Guarded, Accounted, PlanHolds, ResultHolds;
    results, trace := [], [];
    while |results| < |targets|
      invariant |results| <= |targets| && ResultsHold(targets, at, results, given, trace)
      invariant reliable && WellShaped(targets) && PlansHealthy(plans) ==> ResultsHealthy(results)
      invariant SafeTrace(targets, at, given, trace) && WithinFirst(at, |results|, trace)
    {
      var i := |results|;
      assert PlanHolds(targets[i], at + [i], plans[i], given);
      var result;
      ghost var own: seq<Event>;
      result, own := ApplyOne(targets, at, i, plans[i], reliable, given);
      ghost var choices: seq<bool> := *;
      ghost var whole := Interleave(trace, own, choices);
      InterleaveElements(trace, own, choices);
      InterleavingIsSafe(targets, at, given, trace, own, choices);
      ResultsStay(targets, at, results, given, trace, own, whole);
      ResultStays(targets[i], at, i, result, given, trace, own, whole);
      results, trace := results + [result], whole;
    }
  }

  method ApplyOne(targets: seq<Node>, at: At, i: nat, plan: Plan, reliable: bool, ghost given: set<Event>)
    returns (result: Outcome, ghost trace: seq<Event>)
    requires i < |targets| && PlanHolds(targets[i], at + [i], plan, given)
    ensures ResultHolds(targets[i], at + [i], result, given, trace)
    ensures SafeTrace(targets, at, given, trace) && Within(at + [i], trace)
    ensures plan == Noop ==> result == Current
    ensures plan == Deferred ==> result == Postponed
    ensures plan == Failing ==> result == Failed
    ensures plan == Proceed ==> result in {Applied, Relayed, Failed}
    ensures reliable && WellShaped(targets) && plan != Failing ==> result != Failed
    decreases targets, 0
  {
    hide CleanRun, Accounted;
    var t, here := targets[i], at + [i];
    match plan {
      case Noop =>
        result, trace := Current, [Ended(here, false)];
      case Deferred =>
        result, trace := Postponed, [Ended(here, false)];
      case Failing =>
        result, trace := Failed, [Ended(here, true)];
      case Proceed =>
        if t.Leaf? {
          var installed: bool := *;
          installed := installed || reliable;
          result := if installed then Applied else Failed;
          trace := [Installing(here), Ended(here, !installed)];
        } else {
          var document;
          document, trace := RunRelay(t, here, true, reliable);
          SafeBelow(targets, at, i, given, trace);
          var failed := document.None? || !ResultsHealthy(document.value.results);
          RelayEnds(targets, at, i, given, trace, failed);
          if !failed {
            AccountedGrows(t.children, here, Elements(trace), given + Elements(trace + [Ended(here, false)]));
          }
          result, trace := if failed then Failed else Relayed, trace + [Ended(here, failed)];
        }
    }
  }

  lemma RelayEnds(targets: seq<Node>, at: At, i: nat, given: set<Event>, trace: seq<Event>, failed: bool)
    requires SafeTrace(targets, at, given, trace) && Within(at + [i], trace)
    ensures var whole := trace + [Ended(at + [i], failed)];
            && SafeTrace(targets, at, given, whole) && Within(at + [i], whole)
            && (!failed && NoFailureBelow(at + [i], trace) ==> NoFailureBelow(at + [i], whole))
  {
    hide Guarded;
    var whole := trace + [Ended(at + [i], failed)];
    forall k | 0 <= k < |whole| && whole[k].Installing?
      ensures Guarded(targets, at, whole[k].at, given + Elements(whole[..k]))
    {
      assert whole[..k] == trace[..k] && whole[k] == trace[k];
    }
  }

  lemma ResultsStay(targets: seq<Node>, at: At, results: seq<Outcome>, given: set<Event>, trace: seq<Event>,
                    own: seq<Event>, whole: seq<Event>)
    requires |results| < |targets| && ResultsHold(targets, at, results, given, trace)
    requires WithinFirst(at, |results|, trace) && Within(at + [|results|], own)
    requires Elements(whole) == Elements(trace) + Elements(own)
    ensures ResultsHold(targets, at, results, given, whole) && WithinFirst(at, |results| + 1, whole)
  {
    hide Accounted;
    var n := |results|;
    forall e | e in whole
      ensures (e in trace || (e in own && at + [n] <= e.at)) && |at| < |e.at| && at <= e.at && e.at[|at|] < n + 1
    {
      assert e in Elements(whole);
      assert e in own ==> (at + [n])[|at|] == n;
    }
    forall i | 0 <= i < n
      ensures ResultHolds(targets[i], at + [i], results[i], given, whole)
    {
      assert ResultHolds(targets[i], at + [i], results[i], given, trace);
      assert (at + [i])[|at|] == i;
      assert Elements(trace) <= Elements(whole);
      if results[i] == Relayed && targets[i].Relay? {
        AccountedGrows(targets[i].children, at + [i], given + Elements(trace), given + Elements(whole));
      }
      assert forall e :: e in trace ==> e in Elements(trace) && e in Elements(whole);
    }
  }

  lemma ResultStays(t: Node, at: At, i: nat, result: Outcome, given: set<Event>, trace: seq<Event>, own: seq<Event>,
                    whole: seq<Event>)
    requires ResultHolds(t, at + [i], result, given, own) && WithinFirst(at, i, trace)
    requires Elements(whole) == Elements(trace) + Elements(own)
    ensures ResultHolds(t, at + [i], result, given, whole)
  {
    hide Accounted;
    forall e | e in whole
      ensures e in own || (e in trace && |at| < |e.at| && e.at[|at|] < i)
    {
      assert e in Elements(whole);
    }
    assert (at + [i])[|at|] == i;
    assert Elements(own) <= Elements(whole);
    if result == Relayed && t.Relay? {
      AccountedGrows(t.children, at + [i], given + Elements(own), given + Elements(whole));
    }
    assert forall e :: e in own ==> e in Elements(own) && e in Elements(whole);
  }

  /** Results without an error account for every target. */
  lemma HealthyIsAccounted(targets: seq<Node>, at: At, results: seq<Outcome>, given: set<Event>, trace: seq<Event>)
    requires ResultsHold(targets, at, results, given, trace) && ResultsHealthy(results) && |results| == |targets|
    ensures Accounted(targets, at, given + Elements(trace))
  {
    forall i | 0 <= i < |targets|
      ensures ResultHolds(targets[i], at + [i], results[i], given, trace) && results[i] != Failed
    {
    }
  }

  lemma NoneFailed(targets: seq<Node>, at: At, results: seq<Outcome>, rehearsal: seq<Event>, trace: seq<Event>)
    requires ResultsHold(targets, at, results, Elements(rehearsal), trace) && ResultsHealthy(results)
    requires |results| == |targets| && WithinFirst(at, |targets|, trace) && TouchesNothing(rehearsal)
    ensures NoFailureBelow(at, rehearsal + trace)
  {
    hide Accounted;
    forall e | e in rehearsal + trace
      ensures !(e.Ended? && e.failed)
    {
      if e in trace {
        var i := e.at[|at|];
        assert ResultHolds(targets[i], at + [i], results[i], Elements(rehearsal), trace);
        assert at + [i] <= e.at;
      }
    }
  }

  // ---- A run on one machine --------------------------------------------------------------------------------------

  /** What a finished call to a relay tells its caller. */
  ghost predicate RelayTold(children: seq<Node>, at: At, apply: bool, document: Option<Document>, trace: seq<Event>) {
    && Within(at, trace)
    && (!apply ==> TouchesNothing(trace))
    && (!apply && document.Some? && PlansHealthy(document.value.plans) ==>
          DryRunPassed(at) in trace && CleanRun(children, at, Elements(trace)))
    && (apply ==> SafeTrace(children, at, {}, trace))
    && (apply && document.Some? && ResultsHealthy(document.value.results) ==>
          NoFailureBelow(at, trace) && Accounted(children, at, Elements(trace)))
  }

  /** Hands the bundle to a relay and has it run the update of its own targets. The connection may break at any point. */
  method RunRelay(t: Node, at: At, apply: bool, reliable: bool)
    returns (document: Option<Document>, ghost trace: seq<Event>)
    requires t.Relay?
    ensures reliable && WellShapedNode(t) ==>
              document.Some? && PlansHealthy(document.value.plans) && ResultsHealthy(document.value.results)
    ensures RelayTold(t.children, at, apply, document, trace)
    decreases t, 0
  {
    hide CleanRun, Guarded, Accounted;
    if |t.children| == 0 {
      return None, [];
    }
    var staged: bool, loaded: bool, kept: bool, parsed: bool := *, *, *, *;
    if (!staged || !loaded) && !reliable {
      return None, [];
    }
    var healthy, answer;
    healthy, answer, trace := RunCascade(t.children, at, apply, reliable);
    if !kept && !reliable {
      ghost var n :| 0 <= n <= |trace|;
      CutShort(t.children, at, apply, trace, n);
      trace := trace[..n];
      return None, trace;
    }
    if !healthy || (!parsed && !reliable) {
      return None, trace;
    }
    document := Some(answer);
  }

  lemma CutShort(children: seq<Node>, at: At, apply: bool, trace: seq<Event>, n: nat)
    requires n <= |trace| && Within(at, trace) && (!apply ==> TouchesNothing(trace))
    requires apply ==> SafeTrace(children, at, {}, trace)
    ensures RelayTold(children, at, apply, None, trace[..n])
  {
    hide CleanRun, Guarded, Accounted;
    assert forall e :: e in trace[..n] ==> e in trace;
    forall k | apply && 0 <= k < n && trace[..n][k].Installing?
      ensures Guarded(children, at, trace[..n][k].at, {} + Elements(trace[..n][..k]))
    {
      assert trace[..n][..k] == trace[..k] && trace[k].Installing?;
    }
  }

  /** The program itself: plans, and with `apply` also carries the plans out. */
  method RunCascade(targets: seq<Node>, at: At, apply: bool, reliable: bool)
    returns (healthy: bool, document: Document, ghost trace: seq<Event>)
    ensures Within(at, trace)
    ensures !apply ==> TouchesNothing(trace) && healthy == PlansHealthy(document.plans)
    ensures apply ==> SafeTrace(targets, at, {}, trace) && healthy == ResultsHealthy(document.results)
    ensures healthy ==> RelayTold(targets, at, apply, Some(document), trace)
    ensures |document.plans| == |targets| && |document.results| == if apply then |targets| else 0
    ensures reliable && WellShaped(targets) ==>
              healthy && PlansHealthy(document.plans) && ResultsHealthy(document.results)
    decreases targets, 2
  {
    hide CleanRun, Guarded, Accounted, PlanHolds;
    var plans;
    ghost var rehearsal: seq<Event>;
    plans, rehearsal := PlanTargets(targets, at, reliable);
    if !apply {
      healthy, document := PlansHealthy(plans), Document(plans, []);
      trace := rehearsal;
      if healthy {
        HealthyIsClean(targets, at, plans, Elements(rehearsal));
        trace := rehearsal + [DryRunPassed(at)];
        CleanRunGrows(targets, at, Elements(rehearsal), Elements(trace));
      }
      return;
    }
    var results;
    ghost var applied: seq<Event>;
    results, applied := ApplyTargets(targets, at, plans, reliable, Elements(rehearsal));
    healthy, document := ResultsHealthy(results), Document(plans, results);
    trace := rehearsal + applied;
    AfterRehearsal(targets, at, rehearsal, applied);
    assert Within(at, trace);
    if healthy {
      HealthyIsAccounted(targets, at, results, Elements(rehearsal), applied);
      assert Elements(rehearsal) + Elements(applied) == Elements(trace);
      NoneFailed(targets, at, results, rehearsal, applied);
    }
  }

  // ---- Reading the guarantees ------------------------------------------------------------------------------------

  /** The targets of the relay that stands `n` steps from the operator on the way to `p`. */
  function SubtreeAt(targets: seq<Node>, at: At, p: At, n: nat): seq<Node>
    requires |at| < n <= |p|
    decreases targets
  {
    if p[|at|] >= |targets| || targets[p[|at|]].Leaf? then []
    else if n == |at| + 1 then targets[p[|at|]].children
    else SubtreeAt(targets[p[|at|]].children, at + [p[|at|]], p, n)
  }

  /** A guarded target: each relay above it passed a clean rehearsal of its subtree, and its own plan had no error. */
  lemma {:induction false} GuardedMeans(targets: seq<Node>, at: At, p: At, seen: set<Event>)
    requires Guarded(targets, at, p, seen)
    ensures LeafPlanned(p) in seen
    ensures forall n :: |at| < n < |p| ==>
              DryRunPassed(p[..n]) in seen && CleanRun(SubtreeAt(targets, at, p, n), p[..n], seen)
    decreases targets
  {
    hide CleanRun;
    var t, next := targets[p[|at|]], at + [p[|at|]];
    if t.Relay? {
      GuardedMeans(t.children, next, p, seen);
      assert p[..|at| + 1] == next;
    }
  }

  /**
   Whenever an installer is started anywhere in the tree, every relay on the way to it had passed its rehearsal
   before, that of every target below it that could be reached, and the target's own plan had ended without error.
   */
  lemma InstalledAfterRehearsals(targets: seq<Node>, trace: seq<Event>, k: nat, n: nat)
    requires SafeTrace(targets, [], {}, trace) && k < |trace| && trace[k].Installing? && 0 < n < |trace[k].at|
    ensures exists j :: 0 <= j < k && trace[j] == DryRunPassed(trace[k].at[..n])
    ensures exists j :: 0 <= j < k && trace[j] == LeafPlanned(trace[k].at)
    ensures CleanRun(SubtreeAt(targets, [], trace[k].at, n), trace[k].at[..n], Elements(trace[..k]))
  {
    hide CleanRun;
    var p, seen := trace[k].at, {} + Elements(trace[..k]);
    assert seen == Elements(trace[..k]);
    GuardedMeans(targets, [], p, seen);
    assert DryRunPassed(p[..n]) in trace[..k] && LeafPlanned(p) in trace[..k];
  }

  /** After a clean rehearsal every target below was planned or rehearsed without error, or could not be reached. */
  lemma {:induction false} CleanRunMeans(targets: seq<Node>, at: At, p: At, seen: set<Event>)
    requires CleanRun(targets, at, seen) && IsTarget(targets, at, p) && at <= p
    ensures || LeafPlanned(p) in seen || DryRunPassed(p) in seen
            || exists n :: |at| < n <= |p| && Unreachable(p[..n]) in seen
    decreases targets
  {
    var i := p[|at|];
    assert p[..|at| + 1] == at + [i];
    if |p| == |at| + 1 {
      assert p == at + [i] && p[..|p|] == p;
    } else if Unreachable(at + [i]) !in seen {
      assert targets[i].Relay?;
      CleanRunMeans(targets[i].children, at + [i], p, seen);
    }
  }

  /** The target at the end of a path. */
  predicate IsTarget(targets: seq<Node>, at: At, p: At)
    decreases targets
  {
    && |at| < |p| && p[|at|] < |targets|
    && var t := targets[p[|at|]];
       |p| == |at| + 1 || (t.Relay? && IsTarget(t.children, at + [p[|at|]], p))
  }

  /** A target accounted for ended without error, or a relay above it could not be reached. */
  lemma {:induction false} AccountedMeans(targets: seq<Node>, at: At, p: At, seen: set<Event>)
    requires Accounted(targets, at, seen) && IsTarget(targets, at, p) && at <= p
    ensures Ended(p, false) in seen || exists n :: |at| < n < |p| && Unreachable(p[..n]) in seen
    decreases targets
  {
    var i := p[|at|];
    assert p[..|at| + 1] == at + [i];
    if |p| == |at| + 1 {
      assert p == at + [i];
    } else if Unreachable(at + [i]) !in seen {
      assert targets[i].Relay?;
      AccountedMeans(targets[i].children, at + [i], p, seen);
    }
  }

  // ---- The tree on every machine ---------------------------------------------------------------------------------

  function Shape(targets: seq<F.Target>): seq<Node>
    decreases targets
  {
    if targets == [] then []
    else [if targets[0].role == "relay" then Relay(Shape(targets[0].children)) else Leaf] + Shape(targets[1..])
  }

  /** The tree a relay reads from its bundle has the shape of the tree that was sent. */
  lemma {:induction false} ShapeIsKept(host: F.Host, stage: F.Path, targets: seq<F.Target>, timeout: nat, index: nat)
    ensures Shape(R.Relocated(host, stage, targets, timeout, index)) == Shape(targets)
    decreases targets
  {
    if targets != [] {
      var t := targets[0];
      var next := index + 1 + F.Count(B.WrittenList(host, t.children));
      ShapeIsKept(host, stage, t.children, timeout, index + 1);
      ShapeIsKept(host, stage, targets[1..], timeout, next);
      var all := R.Relocated(host, stage, targets, timeout, index);
      assert all[1..] == R.Relocated(host, stage, targets[1..], timeout, next);
    }
  }

  /** A tree that the loader accepted gives every relay something to do. */
  lemma {:induction false} LoadedIsWellShaped(targets: seq<F.Target>, nested: bool)
    requires R.GoodTree(targets, nested)
    ensures WellShaped(Shape(targets))
    decreases targets
  {
    hide F.SafeLabel, F.SafeSsh;
    if targets != [] {
      var t := targets[0];
      LoadedIsWellShaped(t.children, true);
      LoadedIsWellShaped(targets[1..], nested);
      assert Shape(targets)[1..] == Shape(targets[1..]);
      forall i | 0 <= i < |Shape(targets)|
        ensures WellShapedNode(Shape(targets)[i])
      {
        assert i > 0 ==> Shape(targets)[i] == Shape(targets[1..])[i - 1];
      }
    }
  }
}
