/**
 The gate between producers that send on a subscriber's channel and the callers of
 `Close`: a read-write lock, the closed flag, the closed signal and a once guard.
 A send on a closed channel and a second close are panics in Go; `Panics` names those steps.
 */
module CloseFence {

  datatype Sender = Sender(id: nat, blocking: bool)

  /** The owner of the once guard, step by step. */
  datatype Closer =
    | NotCalled      // the once guard is unused
    | Unregistering  // about to leave the registered list
    | Signalling     // about to close the signal channel
    | Requesting     // signal given, write lock not yet asked for
    | Waiting        // asked for the write lock
    | Exclusive      // holds the write lock, flag not yet set
    | Flagged        // flag set, channel not yet closed
    | Unlocking      // channel closed, write lock still held
    | Finished

  datatype State = State(
    checking: set<Sender>,   // hold the read lock, flag not yet read
    offering: set<Sender>,   // hold the read lock, saw the flag down, at the channel
    leaving: set<Sender>,    // hold the read lock, about to release it
    closer: Closer, callersWaiting: set<nat>, callersDone: set<nat>,
    isClosed: bool, signalled: bool, channelClosed: bool,
    buffered: nat, capacity: nat)

  datatype Step =
    | Enter(s: Sender)
    | ReadFlag(s: Sender)
    | Push(s: Sender)
    | Refuse(s: Sender)        // a non-blocking send on a full channel
    | GiveUp(s: Sender)        // a blocking send sees the closed signal
    | Cancelled(s: Sender)     // a blocking send sees its context end
    | Leave(s: Sender)
    | Consume
    | CallClose(c: nat)
    | CloserStep
    | CallerReturns(c: nat)

  function Readers(s: State): set<Sender> { s.checking + s.offering + s.leaving }

  predicate WriteLocked(s: State) { s.closer.Exclusive? || s.closer.Flagged? || s.closer.Unlocking? }

  predicate Enabled(s: State, step: Step) {
    match step
    // A waiting writer keeps new readers out.
    case Enter(x) => x !in Readers(s) && !WriteLocked(s) && !s.closer.Waiting?
    case ReadFlag(x) => x in s.checking
    case Push(x) => x in s.offering && (s.channelClosed || s.buffered < s.capacity)
    case Refuse(x) => x in s.offering && !x.blocking && s.buffered >= s.capacity
    case GiveUp(x) => x in s.offering && x.blocking && s.signalled
    case Cancelled(x) => x in s.offering && x.blocking
    case Leave(x) => x in s.leaving
    case Consume => s.buffered > 0
    case CallClose(c) => c !in s.callersWaiting && c !in s.callersDone
    case CloserStep =>
      match s.closer {
        case NotCalled => false
        case Finished => false
        case Waiting => Readers(s) == {}
        case _ => true
      }
    case CallerReturns(c) => c in s.callersWaiting && s.closer.Finished?
  }

  function AdvanceCloser(s: State): State
    requires Enabled(s, CloserStep)
  {
    match s.closer
    case Unregistering => s.(closer := Signalling)
    case Signalling => s.(closer := Requesting, signalled := true)
    case Requesting => s.(closer := Waiting)
    case Waiting => s.(closer := Exclusive)
    case Exclusive => s.(closer := Flagged, isClosed := true)
    case Flagged => s.(closer := Unlocking, channelClosed := true)
    case Unlocking => s.(closer := Finished)
  }

  function ToLeaving(s: State, x: Sender): State {
    s.(offering := s.offering - {x}, leaving := s.leaving + {x})
  }

  function Apply(s: State, step: Step): State
    requires Enabled(s, step)
  {
    match step
    case Enter(x) => s.(checking := s.checking + {x})
    case ReadFlag(x) =>
      if s.isClosed then s.(checking := s.checking - {x}, leaving := s.leaving + {x})
      else s.(checking := s.checking - {x}, offering := s.offering + {x})
    case Push(x) => ToLeaving(s, x).(buffered := s.buffered + 1)
    case Refuse(x) => ToLeaving(s, x)
    case GiveUp(x) => ToLeaving(s, x)
    case Cancelled(x) => ToLeaving(s, x)
    case Leave(x) => s.(leaving := s.leaving - {x})
    case Consume => s.(buffered := s.buffered - 1)
    case CallClose(c) =>
      s.(callersWaiting := s.callersWaiting + {c},
         closer := if s.closer.NotCalled? then Unregistering else s.closer)
    case CloserStep => AdvanceCloser(s)
    case CallerReturns(c) => s.(callersWaiting := s.callersWaiting - {c}, callersDone := s.callersDone + {c})
  }

  predicate Init(s: State) {
    && Readers(s) == {} && s.closer.NotCalled? && s.callersWaiting == {} && s.callersDone == {}
    && !s.isClosed && !s.signalled && !s.channelClosed && s.buffered == 0
  }

  ghost predicate IsRun(run: seq<State>, steps: seq<Step>) {
    && |run| == |steps| + 1 && Init(run[0])
    && forall i | 0 <= i < |steps| :: Enabled(run[i], steps[i]) && run[i + 1] == Apply(run[i], steps[i])
  }

  ghost predicate Inv(s: State) {
    && s.checking !! s.offering && s.checking !! s.leaving && s.offering !! s.leaving
    && (WriteLocked(s) ==> Readers(s) == {})
    && (s.isClosed <==> s.closer.Flagged? || s.closer.Unlocking? || s.closer.Finished?)
    && (s.channelClosed <==> s.closer.Unlocking? || s.closer.Finished?)
    && (s.signalled <==> !(s.closer.NotCalled? || s.closer.Unregistering? || s.closer.Signalling?))
    && (s.isClosed ==> s.offering == {})
    && (s.callersDone != {} ==> s.closer.Finished?)
    && (s.closer.NotCalled? ==> s.callersWaiting == {})
    && s.callersWaiting !! s.callersDone
    && s.buffered <= s.capacity
  }

  /** A send on a closed channel, or a second close of it. */
  predicate Panics(s: State, step: Step) {
    s.channelClosed && (step.Push? || (step.CloserStep? && s.closer.Flagged?))
  }

  lemma StepKeepsInv(s: State, step: Step)
    requires Inv(s) && Enabled(s, step)
    ensures Inv(Apply(s, step))
  {
    if s.isClosed { assert s.offering == {}; }
  }

  /**
   In every interleaving of senders, consumers and any number of Close callers: no send
   reaches a closed channel, the channel is closed at most once, and every Close call that
   has returned finds the channel closed.
   */
  lemma {:induction false} FenceIsSafe(run: seq<State>, steps: seq<Step>, n: nat)
    requires IsRun(run, steps) && n < |run|
    ensures Inv(run[n])
    ensures n < |steps| ==> !Panics(run[n], steps[n])
    ensures run[n].callersDone != {} ==> run[n].channelClosed && run[n].offering == {}
  {
    if n > 0 {
      FenceIsSafe(run, steps, n - 1);
      StepKeepsInv(run[n - 1], steps[n - 1]);
    }
    if n < |steps| && steps[n].Push? { assert steps[n].s in run[n].offering; }
  }

  // ---------------------------------------------------------------- nothing gets out of step

  /** The read lock is taken by entering, given back by leaving, and held throughout in between. */
  lemma ReadersAreAccounted(s: State, step: Step)
    requires Inv(s) && Enabled(s, step)
    ensures Readers(Apply(s, step)) ==
            if step.Enter? then Readers(s) + {step.s}
            else if step.Leave? then Readers(s) - {step.s}
            else Readers(s)
  {
  }

  /** A sender that reads the flag turns back when it is up and goes to the channel when it is down; others stay put. */
  lemma FlagDecides(s: State, step: Step, x: Sender, y: Sender)
    requires Inv(s) && Enabled(s, step) && step == ReadFlag(x)
    ensures var s' := Apply(s, step);
            && x in (if s.isClosed then s'.leaving else s'.offering) && x !in s'.checking
            && (y != x ==> (y in s'.checking <==> y in s.checking) && (y in s'.offering <==> y in s.offering)
                           && (y in s'.leaving <==> y in s.leaving))
  {
  }

  lemma StepMovesCallers(s: State, step: Step, c: nat)
    requires Enabled(s, step)
    ensures var s' := Apply(s, step);
            && (c in s'.callersWaiting + s'.callersDone <==>
                c in s.callersWaiting + s.callersDone || step == CallClose(c))
            && (c in s'.callersDone <==> c in s.callersDone || step == CallerReturns(c))
  {
  }

  /** Every caller of Close is waiting or has returned, never both. */
  lemma {:induction false} CallersAreAccounted(run: seq<State>, steps: seq<Step>, n: nat, c: nat)
    requires IsRun(run, steps) && n < |run|
    ensures c in run[n].callersWaiting + run[n].callersDone <==> CallClose(c) in steps[..n]
    ensures c in run[n].callersDone <==> CallerReturns(c) in steps[..n]
  {
    if n > 0 {
      CallersAreAccounted(run, steps, n - 1, c);
      assert steps[..n] == steps[..n - 1] + [steps[n - 1]];
      StepMovesCallers(run[n - 1], steps[n - 1], c);
    }
  }

  function Count(steps: seq<Step>, n: nat, step: Step -> bool): nat
    requires n <= |steps|
  {
    if n == 0 then 0 else Count(steps, n - 1, step) + if step(steps[n - 1]) then 1 else 0
  }

  /** The channel holds what was sent and not yet consumed, and never more than its capacity. */
  lemma {:induction false} BufferIsAccounted(run: seq<State>, steps: seq<Step>, n: nat)
    requires IsRun(run, steps) && n < |run|
    ensures run[n].buffered + Count(steps, n, (x: Step) => x.Consume?) == Count(steps, n, (x: Step) => x.Push?)
    ensures run[n].buffered <= run[n].capacity == run[0].capacity
  {
    FenceIsSafe(run, steps, n);
    if n > 0 {
      BufferIsAccounted(run, steps, n - 1);
      assert Enabled(run[n - 1], steps[n - 1]) && run[n] == Apply(run[n - 1], steps[n - 1]);
    }
  }

  /** A sender at the channel of a closed subscriber would panic: none ever is. */
  lemma NoSenderAtClosedChannel(run: seq<State>, steps: seq<Step>, x: Sender)
    requires IsRun(run, steps) && x in run[|steps|].offering
    ensures !run[|steps|].channelClosed && !run[|steps|].isClosed
  {
    FenceIsSafe(run, steps, |steps|);
  }

  // ---------------------------------------------------------------- Close always gets through

  function CloserWork(c: Closer): nat {
    match c
    case NotCalled => 8 case Unregistering => 7 case Signalling => 6 case Requesting => 5 case Waiting => 4
    case Exclusive => 3 case Flagged => 2 case Unlocking => 1 case Finished => 0
  }

  /** Steps the lock holders and the closer still have in front of them. */
  function Work(s: State): nat {
    3 * |s.checking| + 2 * |s.offering| + |s.leaving| + CloserWork(s.closer)
  }

  /** The steps a lock holder or the closer makes on its own, without consumer, context or caller. */
  predicate Internal(step: Step) {
    step.ReadFlag? || step.Push? || step.Refuse? || step.GiveUp? || step.Leave? || step.CloserStep?
  }

  /** The closer has asked for the write lock and has not finished: no new reader gets in. */
  predicate LockAsked(s: State) { s.closer.Waiting? || WriteLocked(s) }

  lemma StepWork(s: State, step: Step)
    requires Inv(s) && Enabled(s, step) && LockAsked(s)
    ensures Work(Apply(s, step)) <= Work(s)
    ensures Internal(step) ==> Work(Apply(s, step)) < Work(s)
  {
    var s' := Apply(s, step);
    match step {
      case ReadFlag(x) =>
        assert |s'.checking| == |s.checking| - 1;
        assert !s.isClosed ==> |s'.offering| == |s.offering| + 1 && |s'.leaving| == |s.leaving|;
        assert s.isClosed ==> |s'.leaving| == |s.leaving| + 1 && |s'.offering| == |s.offering|;
      case Push(x) => MoveWork(s, x);
      case Refuse(x) => MoveWork(s, x);
      case GiveUp(x) => MoveWork(s, x);
      case Cancelled(x) => MoveWork(s, x);
      case Leave(x) => assert |s'.leaving| == |s.leaving| - 1;
      case _ =>
    }
  }

  lemma MoveWork(s: State, x: Sender)
    requires x in s.offering && x !in s.leaving
    ensures |ToLeaving(s, x).offering| == |s.offering| - 1 && |ToLeaving(s, x).leaving| == |s.leaving| + 1
  {
  }

  /** Each step of the closer takes it one stage on, and nothing takes it back. */
  lemma CloserAdvances(s: State, step: Step)
    requires Enabled(s, step)
    ensures step.CloserStep? ==> CloserWork(Apply(s, step).closer) == CloserWork(s.closer) - 1
    ensures step.CallClose? && s.closer.NotCalled? ==> CloserWork(Apply(s, step).closer) == CloserWork(s.closer) - 1
    ensures !step.CloserStep? && !(step.CallClose? && s.closer.NotCalled?) ==> Apply(s, step).closer == s.closer
  {
  }

  lemma StageAfter(run: seq<State>, steps: seq<Step>, k: nat)
    requires IsRun(run, steps) && k < |steps|
    ensures CloserWork(run[k + 1].closer) <= CloserWork(run[k].closer)
    ensures steps[k].CloserStep? ==> CloserWork(run[k + 1].closer) < CloserWork(run[k].closer)
  {
    CloserAdvances(run[k], steps[k]);
  }

  function Stages(run: seq<State>): (w: seq<nat>)
    ensures |w| == |run| && forall i | 0 <= i < |run| :: w[i] == CloserWork(run[i].closer)
  {
    seq(|run|, i requires 0 <= i < |run| => CloserWork(run[i].closer))
  }

  lemma {:induction false} NeverRises(w: seq<nat>, i: nat, j: nat)
    requires i <= j < |w| && forall k | 0 <= k < |w| - 1 :: w[k + 1] <= w[k]
    ensures w[j] <= w[i]
  {
    if i < j { NeverRises(w, i, j - 1); }
  }

  lemma CloserNeverGoesBack(run: seq<State>, steps: seq<Step>, i: nat, j: nat)
    requires IsRun(run, steps) && i <= j < |run|
    ensures CloserWork(run[j].closer) <= CloserWork(run[i].closer)
  {
    forall k | 0 <= k < |steps| ensures Stages(run)[k + 1] <= Stages(run)[k] { StageAfter(run, steps, k); }
    NeverRises(Stages(run), i, j);
  }

  /** The channel is closed once, whatever number of callers there is. */
  lemma ClosedOnce(run: seq<State>, steps: seq<Step>, i: nat, j: nat)
    requires IsRun(run, steps) && i < |steps| && j < |steps|
    requires steps[i].CloserStep? && run[i].closer.Flagged? && steps[j].CloserStep? && run[j].closer.Flagged?
    ensures i == j
  {
    StageAfter(run, steps, i);
    StageAfter(run, steps, j);
    if i < j { CloserNeverGoesBack(run, steps, i + 1, j); }
    if j < i { CloserNeverGoesBack(run, steps, j + 1, i); }
  }

  /** Anybody may call Close at any time, and every call can return once the closer is through. */
  lemma CallersGetThrough(s: State, c: nat)
    ensures c !in s.callersWaiting + s.callersDone ==>
              Enabled(s, CallClose(c)) && !Apply(s, CallClose(c)).closer.NotCalled?
    ensures c in s.callersWaiting && s.closer.Finished? ==> Enabled(s, CallerReturns(c))
  {
  }

  /** A blocked send ends with its context, with the signal, or with room that the consumer makes. */
  lemma BlockedSendEnds(s: State, x: Sender)
    requires x in s.offering && x.blocking
    ensures Enabled(s, Cancelled(x)) && (s.signalled ==> Enabled(s, GiveUp(x)))
    ensures 0 < s.buffered <= s.capacity ==> Enabled(s, Consume) && Enabled(Apply(s, Consume), Push(x))
  {
  }

  /** Before the signal nothing holds the closer up. */
  lemma CloseGetsToSignal(s: State)
    requires s.closer.Unregistering? || s.closer.Signalling?
    ensures Enabled(s, CloserStep)
    ensures s.closer.Signalling? ==> Apply(s, CloserStep).signalled
  {
  }

  /** Once Close has signalled, some lock holder or the closer itself can always move. */
  lemma CloseIsNeverStuck(s: State) returns (step: Step)
    requires Inv(s) && s.signalled && !s.closer.Finished?
    ensures Internal(step) && Enabled(s, step)
    ensures s.closer.Requesting? ==> Enabled(s, CloserStep) && LockAsked(Apply(s, CloserStep))
  {
    if x :| x in s.checking {
      step := ReadFlag(x);
    } else if x :| x in s.offering {
      step := if x.blocking then GiveUp(x) else if s.buffered < s.capacity then Push(x) else Refuse(x);
    } else if x :| x in s.leaving {
      step := Leave(x);
    } else {
      assert Readers(s) == {};
      step := CloserStep;
    }
  }

  lemma {:induction false} StaysAsked(run: seq<State>, steps: seq<Step>, n: nat, m: nat)
    requires IsRun(run, steps) && n <= m < |run| && LockAsked(run[n])
    requires forall i | n <= i <= m :: !run[i].closer.Finished?
    ensures LockAsked(run[m])
    decreases m - n
  {
    if n < m {
      StaysAsked(run, steps, n, m - 1);
      WorkFalls(run, steps, m);
    }
  }

  lemma {:induction false} WorkAddsUp(works: seq<nat>, steps: seq<Step>, n: nat, m: nat)
    requires n <= m < |works| == |steps| + 1
    requires forall k | n < k <= m :: works[k] + (if Internal(steps[k - 1]) then 1 else 0) <= works[k - 1]
    ensures works[m] + InternalSteps(steps, n, m) <= works[n]
    decreases m - n
  {
    if n < m { WorkAddsUp(works, steps, n, m - 1); }
  }

  /**
   A Close that has asked for the write lock finishes: whatever else is scheduled, it takes
   at most `Work` internal steps, because none of the other steps adds work.
   */
  lemma CloseFinishes(run: seq<State>, steps: seq<Step>, n: nat, m: nat)
    requires IsRun(run, steps) && n <= m < |run| && LockAsked(run[n])
    requires forall i | n <= i < m :: !run[i].closer.Finished?
    ensures LockAsked(run[m]) || run[m].closer.Finished?
    ensures Work(run[m]) + InternalSteps(steps, n, m) <= Work(run[n])
  {
    if n < m {
      StaysAsked(run, steps, n, m - 1);
      WorkFalls(run, steps, m);
    }
    WorksFall(run, steps, n, m);
    WorkAddsUp(Works(run), steps, n, m);
  }

  /** Between the signal and the request senders still get in, so no bound holds before the request. */
  lemma SendersSlipIn(s: State, x: Sender)
    requires Inv(s) && s.closer.Requesting? && x !in Readers(s)
    ensures Enabled(s, Enter(x)) && Work(Apply(s, Enter(x))) == Work(s) + 3
  {
    assert |s.checking + {x}| == |s.checking| + 1;
  }

  function Works(run: seq<State>): (w: seq<nat>)
    ensures |w| == |run| && forall i | 0 <= i < |run| :: w[i] == Work(run[i])
  {
    seq(|run|, i requires 0 <= i < |run| => Work(run[i]))
  }

  lemma WorksFall(run: seq<State>, steps: seq<Step>, n: nat, m: nat)
    requires IsRun(run, steps) && n <= m < |run| && LockAsked(run[n])
    requires forall i | n <= i < m :: !run[i].closer.Finished?
    ensures forall k | n < k <= m :: Works(run)[k] + (if Internal(steps[k - 1]) then 1 else 0) <= Works(run)[k - 1]
  {
    forall k | n < k <= m ensures Works(run)[k] + (if Internal(steps[k - 1]) then 1 else 0) <= Works(run)[k - 1] {
      WorksFallAt(run, steps, n, k);
    }
  }

  lemma WorksFallAt(run: seq<State>, steps: seq<Step>, n: nat, k: nat)
    requires IsRun(run, steps) && n < k < |run| && LockAsked(run[n])
    requires forall i | n <= i < k :: !run[i].closer.Finished?
    ensures Works(run)[k] + (if Internal(steps[k - 1]) then 1 else 0) <= Works(run)[k - 1]
  {
    StaysAsked(run, steps, n, k - 1);
    WorkFalls(run, steps, k);
  }

  lemma WorkFalls(run: seq<State>, steps: seq<Step>, k: nat)
    requires IsRun(run, steps) && 0 < k <= |steps| && LockAsked(run[k - 1])
    ensures LockAsked(run[k]) || run[k].closer.Finished?
    ensures Work(run[k]) + (if Internal(steps[k - 1]) then 1 else 0) <= Work(run[k - 1])
  {
    FenceIsSafe(run, steps, k - 1);
    StepWork(run[k - 1], steps[k - 1]);
  }

  function InternalSteps(steps: seq<Step>, n: nat, m: nat): nat
    requires n <= m <= |steps|
    decreases m - n
  {
    if n == m then 0 else InternalSteps(steps, n, m - 1) + (if Internal(steps[m - 1]) then 1 else 0)
  }
}
