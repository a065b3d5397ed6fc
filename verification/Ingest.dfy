/**
 Messages a driver sends before the supervisor has wired its ingest hook are buffered, and
 drained when the hook is set, while the reader may already be calling the hook itself.
 Messages are named by the order in which they arrive: 0, 1, 2, ...
 */
module Ingest {

  datatype Hand = Empty | Holding(message: nat)

  datatype State = State(
    arrived: nat,          // messages received so far
    hookSet: bool,
    queue: seq<nat>,       // the pre-hook buffer
    hand: Hand,            // the reader, between reading the hook and calling it
    draining: seq<nat>,    // what setIngestHook has taken and not yet handed over
    ingested: seq<nat>)    // hook calls, in order

  datatype Step = Arrive | CallHook | SetHook | DrainOne

  predicate Enabled(s: State, step: Step) {
    match step
    case Arrive => s.hand.Empty?
    case CallHook => s.hand.Holding?
    case SetHook => !s.hookSet
    case DrainOne => |s.draining| > 0
  }

  function Apply(s: State, step: Step): State
    requires Enabled(s, step)
  {
    match step
    case Arrive =>
      if s.hookSet then s.(arrived := s.arrived + 1, hand := Holding(s.arrived))
      else s.(arrived := s.arrived + 1, queue := s.queue + [s.arrived])
    case CallHook => s.(hand := Empty, ingested := s.ingested + [s.hand.message])
    case SetHook => s.(hookSet := true, draining := s.queue, queue := [])
    case DrainOne => s.(draining := s.draining[1..], ingested := s.ingested + [s.draining[0]])
  }

  const INITIAL := State(0, false, [], Empty, [], [])

  ghost predicate IsRun(run: seq<State>, steps: seq<Step>) {
    && |run| == |steps| + 1 && run[0] == INITIAL
    && forall i | 0 <= i < |steps| :: Enabled(run[i], steps[i]) && run[i + 1] == Apply(run[i], steps[i])
  }

  function InHand(h: Hand): seq<nat> { if h.Empty? then [] else [h.message] }

  function UpTo(n: nat): (r: seq<nat>)
    ensures |r| == n && forall i | 0 <= i < n :: r[i] == i
  {
    seq(n, i requires 0 <= i => i)
  }

  ghost predicate Shape(s: State) {
    && (!s.hookSet ==> s.hand.Empty? && s.draining == [] && s.ingested == [])
    && (s.hookSet ==> s.queue == [])
  }

  /** Every message is in exactly one place. */
  ghost predicate Conserved(s: State) {
    multiset(s.ingested) + multiset(s.draining) + multiset(s.queue) + multiset(InHand(s.hand))
    == multiset(UpTo(s.arrived))
  }

  lemma UpToGrows(n: nat)
    ensures UpTo(n + 1) == UpTo(n) + [n]
  {
  }

  lemma OneMore(a: seq<nat>, x: nat)
    ensures multiset(a + [x]) == multiset(a) + multiset{x}
  {
  }

  lemma FirstOff(a: seq<nat>)
    requires |a| > 0
    ensures multiset(a) == multiset{a[0]} + multiset(a[1..])
  {
    assert a == [a[0]] + a[1..];
  }

  lemma StepKeepsShape(s: State, step: Step)
    requires Shape(s) && Enabled(s, step)
    ensures Shape(Apply(s, step))
  {
  }

  lemma ArriveConserves(s: State)
    requires Shape(s) && Conserved(s) && Enabled(s, Arrive)
    ensures Conserved(Apply(s, Arrive))
  {
    UpToGrows(s.arrived);
    OneMore(UpTo(s.arrived), s.arrived);
    OneMore(s.queue, s.arrived);
  }

  lemma StepConserves(s: State, step: Step)
    requires Shape(s) && Conserved(s) && Enabled(s, step)
    ensures Shape(Apply(s, step)) && Conserved(Apply(s, step))
  {
    StepKeepsShape(s, step);
    match step {
      case Arrive => ArriveConserves(s);
      case CallHook => OneMore(s.ingested, s.hand.message);
      case SetHook =>
      case DrainOne =>
        FirstOff(s.draining);
        OneMore(s.ingested, s.draining[0]);
    }
  }

  lemma {:induction false} RunConserves(run: seq<State>, steps: seq<Step>, n: nat)
    requires IsRun(run, steps) && n < |run|
    ensures Shape(run[n]) && Conserved(run[n])
  {
    if n > 0 {
      RunConserves(run, steps, n - 1);
      StepConserves(run[n - 1], steps[n - 1]);
    }
  }

  /** When the hook is set and both goroutines are through, each message has reached it exactly once. */
  lemma EachMessageOnce(run: seq<State>, steps: seq<Step>)
    requires IsRun(run, steps)
    ensures var s := run[|steps|];
            s.hookSet && s.draining == [] && s.hand.Empty? ==> multiset(s.ingested) == multiset(UpTo(s.arrived))
    ensures forall m :: multiset(run[|steps|].ingested)[m] <= 1
  {
    RunConserves(run, steps, |steps|);
    var s := run[|steps|];
    forall m ensures multiset(s.ingested)[m] <= 1 {
      DistinctUpTo(s.arrived, m);
      assert multiset(s.ingested)[m] <= multiset(UpTo(s.arrived))[m];
    }
  }

  lemma {:induction false} DistinctUpTo(n: nat, m: int)
    ensures multiset(UpTo(n))[m] == if 0 <= m < n then 1 else 0
  {
    if n > 0 {
      DistinctUpTo(n - 1, m);
      UpToGrows(n - 1);
    }
  }

  // ---------------------------------------------------------------- order

  /** The reader hands a new message over while older ones still wait to be drained. */
  predicate Overtakes(s: State, step: Step) { step.CallHook? && |s.draining| > 0 }

  ghost predicate NoOvertaking(run: seq<State>, steps: seq<Step>, n: nat)
    requires |run| == |steps| + 1 && n <= |steps|
  {
    forall i | 0 <= i < n :: !Overtakes(run[i], steps[i])
  }

  /** Everything in arrival order. */
  ghost predicate Lined(s: State) {
    s.ingested + s.draining + s.queue + InHand(s.hand) == UpTo(s.arrived)
  }

  /** The hook has been called in arrival order so far. */
  ghost predicate InOrder(s: State) {
    |s.ingested| <= s.arrived && s.ingested == UpTo(|s.ingested|)
  }

  lemma StepLines(s: State, step: Step)
    requires Shape(s) && Lined(s) && Enabled(s, step)
    ensures !Overtakes(s, step) ==> Lined(Apply(s, step))
    ensures Overtakes(s, step) ==> !InOrder(Apply(s, step))
  {
    var s', all := Apply(s, step), UpTo(s.arrived);
    UpToGrows(s.arrived);
    if Overtakes(s, step) {
      var k := |s.ingested|;
      assert all[k] == s.draining[0] && all[|all| - 1] == s.hand.message;
      assert s'.ingested[k] == s.hand.message == |all| - 1 && |s.draining| > 0;
    } else if step.DrainOne? {
      assert s.draining == [s.draining[0]] + s.draining[1..];
      assert s'.ingested + s'.draining == s.ingested + s.draining;
    } else if step.CallHook? {
      assert s'.ingested + s'.draining + s'.queue + [] == s.ingested + s.draining + s.queue + [s.hand.message];
    } else {
      assert s'.ingested + s'.draining + s'.queue + InHand(s'.hand) == UpTo(s'.arrived);
    }
  }

  lemma LinedIsInOrder(s: State)
    requires Lined(s)
    ensures InOrder(s)
  {
    var all := UpTo(s.arrived);
    assert forall i | 0 <= i < |s.ingested| :: s.ingested[i] == all[i];
  }

  /** A wrong order is never repaired: hook calls only get longer. */
  lemma DisorderStays(s: State, step: Step)
    requires Enabled(s, step) && !InOrder(s) && |s.ingested| <= s.arrived
    ensures !InOrder(Apply(s, step))
  {
    var s' := Apply(s, step);
    var i :| 0 <= i < |s.ingested| && s.ingested[i] != i;
    assert s'.ingested[i] == s.ingested[i];
  }

  lemma OrderStep(s: State, step: Step)
    requires Shape(s) && Conserved(s) && Enabled(s, step)
    ensures Lined(s) && !Overtakes(s, step) ==> Lined(Apply(s, step)) && InOrder(Apply(s, step))
    ensures Lined(s) && Overtakes(s, step) ==> !InOrder(Apply(s, step))
    ensures !InOrder(s) ==> !InOrder(Apply(s, step))
  {
    CountedUpTo(s);
    if Lined(s) {
      StepLines(s, step);
      if !Overtakes(s, step) { LinedIsInOrder(Apply(s, step)); }
    }
    if !InOrder(s) { DisorderStays(s, step); }
  }

  lemma OrderStepAt(run: seq<State>, steps: seq<Step>, n: nat)
    requires IsRun(run, steps) && n < |steps|
    ensures Lined(run[n]) && !Overtakes(run[n], steps[n]) ==> Lined(run[n + 1]) && InOrder(run[n + 1])
    ensures Lined(run[n]) && Overtakes(run[n], steps[n]) ==> !InOrder(run[n + 1])
    ensures !InOrder(run[n]) ==> !InOrder(run[n + 1])
  {
    RunConserves(run, steps, n);
    OrderStep(run[n], steps[n]);
  }

  lemma {:induction false} OrderIff(run: seq<State>, steps: seq<Step>, n: nat)
    requires IsRun(run, steps) && n <= |steps|
    ensures NoOvertaking(run, steps, n) ==> Lined(run[n]) && InOrder(run[n])
    ensures !NoOvertaking(run, steps, n) ==> !InOrder(run[n])
  {
    if n > 0 {
      OrderIff(run, steps, n - 1);
      OrderStepAt(run, steps, n - 1);
      assert NoOvertaking(run, steps, n) <==> NoOvertaking(run, steps, n - 1) && !Overtakes(run[n - 1], steps[n - 1]);
    }
  }

  lemma CountedUpTo(s: State)
    requires Conserved(s)
    ensures |s.ingested| <= s.arrived
  {
    var elsewhere := multiset(s.draining) + multiset(s.queue) + multiset(InHand(s.hand));
    assert multiset(UpTo(s.arrived)) == multiset(s.ingested) + elsewhere;
    assert |multiset(s.ingested) + elsewhere| == |multiset(UpTo(s.arrived))|;
  }

  /**
   The hook sees the messages in the order the driver sent them if and only if the reader
   never calls it while the buffer is still being drained.
   */
  lemma HookOrder(run: seq<State>, steps: seq<Step>)
    requires IsRun(run, steps)
    ensures InOrder(run[|steps|]) <==> NoOvertaking(run, steps, |steps|)
  {
    OrderIff(run, steps, |steps|);
  }

  /** Overtaking does happen: one message buffered, the hook set, a second message handed over first. */
  lemma OvertakingHappens(steps: seq<Step>)
    requires steps == [Arrive, SetHook, Arrive, CallHook, DrainOne]
    ensures exists run: seq<State> :: IsRun(run, steps) && run[5].ingested == [1, 0]
  {
    var s1 := Apply(INITIAL, Arrive);
    var s2 := Apply(s1, SetHook);
    var s3 := Apply(s2, Arrive);
    var s4 := Apply(s3, CallHook);
    var s5 := Apply(s4, DrainOne);
    assert s2.draining == [0] && s3.hand == Holding(1) && s4.ingested == [1] && s5.ingested == [1, 0];
    assert IsRun([INITIAL, s1, s2, s3, s4, s5], steps);
  }
}
