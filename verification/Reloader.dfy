/**
 The debounced config reloader: triggers append their source and then signal a one-slot
 channel; one loop waits for the signal, sleeps, drains the signal, takes everything pending
 and applies it.
 */
module Reloader {
  type TriggerId = nat

  datatype Request = Request(id: TriggerId, source: string)

  datatype Loop =
    | Waiting
    | Debouncing
    | Draining
    | Taking
    | Taken(batch: seq<Request>)
    | Applying(source: string)
    | Recording(message: string) // "" for success
    | Stopped

  datatype State = State(
    pending: seq<Request>, signal: bool, lastErr: string, loop: Loop,
    midway: set<TriggerId>,     // triggers between their append and their signal
    appended: seq<Request>,     // every append, in order
    begun: seq<Request>,        // the batches of all applies begun, joined
    sources: seq<string>,       // the source tag of each apply begun
    results: seq<string>)       // what each finished apply returned

  datatype Step =
    | Append(r: Request)
    | Signal(id: TriggerId)
    | Wake
    | TimerFires
    | Drain
    | Take
    | BeginApply
    | EndApply(message: string)
    | Record
    | Stop

  predicate Fresh(s: State, id: TriggerId) { forall r | r in s.appended :: r.id != id }

  predicate Enabled(s: State, step: Step) {
    match step
    case Append(r) => Fresh(s, r.id)
    case Signal(id) => id in s.midway
    case Wake => s.loop.Waiting? && s.signal
    case TimerFires => s.loop.Debouncing?
    case Drain => s.loop.Draining?
    case Take => s.loop.Taking?
    case BeginApply => s.loop.Taken?
    case EndApply(_) => s.loop.Applying?
    case Record => s.loop.Recording?
    case Stop => s.loop.Waiting? || s.loop.Debouncing?
  }

  /** The tag an apply is made under: that of the oldest request, if there is one. */
  function SourceOf(batch: seq<Request>): string { if |batch| > 0 then batch[0].source else "unknown" }

  function Apply(s: State, step: Step): State
    requires Enabled(s, step)
  {
    match step
    case Append(r) => s.(pending := s.pending + [r], appended := s.appended + [r], midway := s.midway + {r.id})
    case Signal(id) => s.(signal := true, midway := s.midway - {id})
    case Wake => s.(signal := false, loop := Debouncing)
    case TimerFires => s.(loop := Draining)
    case Drain => s.(signal := false, loop := Taking)
    case Take => s.(pending := [], loop := Taken(s.pending))
    case BeginApply =>
      var source := SourceOf(s.loop.batch);
      s.(loop := Applying(source), begun := s.begun + s.loop.batch, sources := s.sources + [source])
    case EndApply(message) => s.(loop := Recording(message), results := s.results + [message])
    case Record => s.(loop := Waiting, lastErr := s.loop.message)
    case Stop => s.(loop := Stopped)
  }

  const INITIAL := State([], false, "", Waiting, {}, [], [], [], [])

  ghost predicate IsRun(run: seq<State>, steps: seq<Step>) {
    && |run| == |steps| + 1 && run[0] == INITIAL
    && forall i | 0 <= i < |steps| :: Enabled(run[i], steps[i]) && run[i + 1] == Apply(run[i], steps[i])
  }

  // ---------------------------------------------------------------- no lost reload

  /** The loop is past its signal and has yet to take what is pending. */
  predicate AboutToTake(l: Loop) { l.Debouncing? || l.Draining? || l.Taking? }

  /** Somebody will still bring the loop to this pending request. */
  predicate Reachable(s: State, r: Request) {
    r.id in s.midway || s.signal || AboutToTake(s.loop) || s.loop.Stopped?
  }

  ghost predicate NotLost(s: State) { forall r | r in s.pending :: Reachable(s, r) }

  function InHand(l: Loop): seq<Request> { if l.Taken? then l.batch else [] }

  /** Requests are applied in the order they came, each in exactly one batch. */
  ghost predicate Conserved(s: State) { s.appended == s.begun + InHand(s.loop) + s.pending }

  /** The error shown is that of the latest apply that has finished recording. */
  ghost predicate ErrorIsLatest(s: State) {
    && (s.loop.Recording? ==> s.results != [] && s.results[|s.results| - 1] == s.loop.message)
    && (!s.loop.Recording? ==> s.lastErr == if s.results == [] then "" else s.results[|s.results| - 1])
  }

  ghost predicate Inv(s: State) { NotLost(s) && Conserved(s) && ErrorIsLatest(s) }

  lemma StepConserves(s: State, step: Step)
    requires Conserved(s) && Enabled(s, step)
    ensures Conserved(Apply(s, step))
  {
    if step.Append? {
      var front := s.begun + InHand(s.loop);
      assert (front + s.pending) + [step.r] == front + (s.pending + [step.r]);
    } else if step.Take? {
      assert s.begun + [] + s.pending == s.begun + s.pending + [];
    } else if step.BeginApply? {
      assert (s.begun + s.loop.batch) + [] + s.pending == s.begun + s.loop.batch + s.pending;
    }
  }

  lemma StepKeepsInv(s: State, step: Step)
    requires Inv(s) && Enabled(s, step)
    ensures Inv(Apply(s, step))
  {
    StepConserves(s, step);
  }

  lemma {:induction false} RunKeepsInv(run: seq<State>, steps: seq<Step>, n: nat)
    requires IsRun(run, steps) && n < |run|
    ensures Inv(run[n])
  {
    if n > 0 {
      RunKeepsInv(run, steps, n - 1);
      StepKeepsInv(run[n - 1], steps[n - 1]);
    }
  }

  /** Apply step `k` of the run starts an apply whose batch holds this request. */
  ghost predicate CoveredAt(run: seq<State>, steps: seq<Step>, k: nat, r: Request)
    requires |run| == |steps| + 1 && k < |steps|
  {
    steps[k].BeginApply? && run[k].loop.Taken? && r in run[k].loop.batch
  }

  /** A request that has been begun was put into an apply at some step after its append. */
  lemma {:induction false} BegunWasCovered(run: seq<State>, steps: seq<Step>, n: nat, r: Request) returns (k: nat)
    requires IsRun(run, steps) && n < |run| && r in run[n].begun
    ensures k < n && CoveredAt(run, steps, k, r) && r in run[k].appended
  {
    var s := run[n - 1];
    RunKeepsInv(run, steps, n - 1);
    if r in s.begun {
      k := BegunWasCovered(run, steps, n - 1, r);
    } else {
      k := n - 1;
      assert run[n] == Apply(s, steps[n - 1]);
      assert r in s.loop.batch;
      assert s.appended == s.begun + s.loop.batch + s.pending;
      assert r in s.appended;
    }
  }

  /** The trigger that made this request has returned. */
  predicate Completed(s: State, r: Request) { r in s.appended && r.id !in s.midway }

  /**
   No reload is lost: in every interleaving each pending request has its own trigger about to
   signal, a waiting signal, or a loop about to take it, unless the loop was stopped. So
   whenever the loop waits with an empty signal, every completed trigger, whatever other
   triggers are half way through, was part of an apply begun after its append.
   */
  lemma NoLostReload(run: seq<State>, steps: seq<Step>, r: Request)
    requires IsRun(run, steps)
    ensures NotLost(run[|steps|])
    ensures var s := run[|steps|];
            s.loop.Waiting? && !s.signal && Completed(s, r) ==>
              exists k: nat :: k < |steps| && CoveredAt(run, steps, k, r) && r in run[k].appended
  {
    RunKeepsInv(run, steps, |steps|);
    var s := run[|steps|];
    if s.loop.Waiting? && !s.signal && Completed(s, r) {
      assert r in s.pending ==> Reachable(s, r);
      assert s.begun + [] + s.pending == s.begun + s.pending;
      var k := BegunWasCovered(run, steps, |steps|, r);
    }
  }

  /** With no trigger half way either, nothing is pending and everything requested was applied, in order. */
  lemma IdleIsCaughtUp(run: seq<State>, steps: seq<Step>)
    requires IsRun(run, steps)
    ensures var s := run[|steps|];
            s.loop.Waiting? && !s.signal && s.midway == {} ==> s.pending == [] && s.appended == s.begun
  {
    RunKeepsInv(run, steps, |steps|);
    var s := run[|steps|];
    if s.loop.Waiting? && !s.signal && s.midway == {} {
      assert |s.pending| > 0 ==> Reachable(s, s.pending[0]);
      assert s.begun + [] + [] == s.begun;
    }
  }

  /** A waiting loop with something pending wakes, or the request's own trigger is about to wake it. */
  lemma PendingIsReachable(run: seq<State>, steps: seq<Step>, r: Request)
    requires IsRun(run, steps)
    ensures var s := run[|steps|];
            r in s.pending && s.loop.Waiting? ==> Enabled(s, Wake) || Enabled(s, Signal(r.id))
    ensures var s := run[|steps|];
            !s.loop.Recording? ==> s.lastErr == if s.results == [] then "" else s.results[|s.results| - 1]
  {
    RunKeepsInv(run, steps, |steps|);
    assert r in run[|steps|].pending ==> Reachable(run[|steps|], r);
  }

  /** An apply goes under the name of the oldest request that no apply has covered yet, if there is one. */
  lemma ApplyNamesOldest(run: seq<State>, steps: seq<Step>, k: nat)
    requires IsRun(run, steps) && k < |steps| && steps[k].BeginApply?
    ensures var s, s' := run[k], run[k + 1];
            && |s.begun| <= |s'.begun| <= |s.appended| && |s'.sources| == |s.sources| + 1
            && s'.sources[|s.sources|] == (if |s'.begun| > |s.begun| then s.appended[|s.begun|].source else "unknown")
            && s'.loop == Applying(s'.sources[|s.sources|])
  {
    RunKeepsInv(run, steps, k);
    var s := run[k];
    assert run[k + 1] == Apply(s, steps[k]);
    assert s.appended == s.begun + s.loop.batch + s.pending;
  }

  function Count(steps: seq<Step>, n: nat, wakes: bool): nat
    requires n <= |steps|
  {
    if n == 0 then 0
    else Count(steps, n - 1, wakes) + if (if wakes then steps[n - 1].Wake? else steps[n - 1].Signal?) then 1 else 0
  }

  /** Whether the loop has woken up for an apply it has not begun yet. */
  predicate Owes(l: Loop) { l.Debouncing? || l.Draining? || l.Taking? || l.Taken? }

  /**
   Every apply was asked for: there are no more wake-ups than signals, a signal still waiting
   included, and no more applies than wake-ups.
   */
  lemma {:induction false} AppliesAreAskedFor(run: seq<State>, steps: seq<Step>, n: nat)
    requires IsRun(run, steps) && n < |run|
    ensures Count(steps, n, true) + (if run[n].signal then 1 else 0) <= Count(steps, n, false)
    ensures |run[n].sources| + (if Owes(run[n].loop) then 1 else 0) <= Count(steps, n, true)
  {
    if n > 0 {
      AppliesAreAskedFor(run, steps, n - 1);
      assert Enabled(run[n - 1], steps[n - 1]) && run[n] == Apply(run[n - 1], steps[n - 1]);
    }
  }

  /** A trigger is half way exactly from its append to its signal. */
  lemma {:induction false} MidwayIsExact(run: seq<State>, steps: seq<Step>, n: nat, r: Request)
    requires IsRun(run, steps) && n < |run| && r in run[n].appended
    ensures r.id in run[n].midway <==> Signal(r.id) !in steps[..n]
  {
    assert steps[..n] == steps[..n - 1] + [steps[n - 1]];
    assert Enabled(run[n - 1], steps[n - 1]) && run[n] == Apply(run[n - 1], steps[n - 1]);
    if r in run[n - 1].appended {
      MidwayIsExact(run, steps, n - 1, r);
    } else {
      NoSignalYet(run, steps, n - 1, r.id);
    }
  }

  /** Nobody signals for a request that was not appended. */
  lemma {:induction false} NoSignalYet(run: seq<State>, steps: seq<Step>, n: nat, id: TriggerId)
    requires IsRun(run, steps) && n < |run| && Fresh(run[n], id)
    ensures Signal(id) !in steps[..n] && id !in run[n].midway
  {
    if n > 0 {
      assert steps[..n] == steps[..n - 1] + [steps[n - 1]];
      assert Enabled(run[n - 1], steps[n - 1]) && run[n] == Apply(run[n - 1], steps[n - 1]);
      assert Fresh(run[n - 1], id) by { assert run[n - 1].appended <= run[n].appended; }
      NoSignalYet(run, steps, n - 1, id);
    }
  }

  /** A waiting signal was given after the last wake-up and after the last drain. */
  lemma {:induction false} SignalIsFresh(run: seq<State>, steps: seq<Step>, n: nat) returns (k: nat)
    requires IsRun(run, steps) && n < |run| && run[n].signal
    ensures k < n && steps[k].Signal? && forall i | k < i < n :: !steps[i].Wake? && !steps[i].Drain?
  {
    assert n > 0;
    assert Enabled(run[n - 1], steps[n - 1]) && run[n] == Apply(run[n - 1], steps[n - 1]);
    if steps[n - 1].Signal? {
      k := n - 1;
    } else {
      k := SignalIsFresh(run, steps, n - 1);
    }
  }

  // ---------------------------------------------------------------- a pending request gets applied

  /** Steps the loop still has in front of it before it takes what is pending. */
  function Distance(s: State): nat {
    match s.loop
    case Taking => 1 case Draining => 2 case Debouncing => 3
    case Waiting => if s.signal then 4 else 5
    case Recording(_) => 6 case Applying(_) => 7 case Taken(_) => 8 case Stopped => 0
  }

  /** The step that brings the loop closer to this request: its own, or the signal it waits for. */
  function Towards(s: State, r: Request): Step {
    match s.loop
    case Waiting => if s.signal then Wake else Signal(r.id)
    case Debouncing => TimerFires
    case Draining => Drain
    case Taking => Take
    case Taken(_) => BeginApply
    case Applying(_) => EndApply("")
    case Recording(_) => Record
    case Stopped => Wake
  }

  lemma GetsCloser(s: State, r: Request)
    requires NotLost(s) && r in s.pending && !s.loop.Stopped?
    ensures Enabled(s, Towards(s, r))
    ensures var s' := Apply(s, Towards(s, r));
            if s.loop.Taking? then s'.loop.Taken? && r in s'.loop.batch
            else r in s'.pending && !s'.loop.Stopped? && Distance(s') < Distance(s)
  {
    assert Reachable(s, r);
  }

  ghost predicate Extends(run: seq<State>, steps: seq<Step>, longer: seq<State>, more: seq<Step>) {
    IsRun(longer, more) && run <= longer && steps <= more
  }

  lemma Continue(run: seq<State>, steps: seq<Step>, step: Step)
    requires IsRun(run, steps) && Enabled(run[|steps|], step)
    ensures Extends(run, steps, run + [Apply(run[|steps|], step)], steps + [step])
  {
    var run', steps' := run + [Apply(run[|steps|], step)], steps + [step];
    forall i | 0 <= i < |steps'| ensures Enabled(run'[i], steps'[i]) && run'[i + 1] == Apply(run'[i], steps'[i]) {
      if i < |steps| { assert run'[i] == run[i] && run'[i + 1] == run[i + 1] && steps'[i] == steps[i]; }
    }
  }

  /** Unless the loop was stopped, every pending request can still get into an apply, from every reachable state. */
  lemma {:induction false} PendingGetsApplied(run: seq<State>, steps: seq<Step>, r: Request)
    returns (longer: seq<State>, more: seq<Step>)
    requires IsRun(run, steps) && r in run[|steps|].pending && !run[|steps|].loop.Stopped?
    ensures Extends(run, steps, longer, more) && r in longer[|more|].begun
    decreases Distance(run[|steps|])
  {
    var s := run[|steps|];
    RunKeepsInv(run, steps, |steps|);
    GetsCloser(s, r);
    Continue(run, steps, Towards(s, r));
    longer, more := run + [Apply(s, Towards(s, r))], steps + [Towards(s, r)];
    if s.loop.Taking? {
      var t := longer[|more|];
      Continue(longer, more, BeginApply);
      longer, more := longer + [Apply(t, BeginApply)], more + [BeginApply];
    } else {
      longer, more := PendingGetsApplied(longer, more, r);
    }
  }

  /** The loop can be stopped while it waits or sleeps; from then on no apply begins. */
  lemma {:induction false} StoppedIsFinal(run: seq<State>, steps: seq<Step>, k: nat, n: nat)
    requires IsRun(run, steps) && k <= n < |run|
    ensures run[k].loop.Waiting? || run[k].loop.Debouncing? ==>
              Enabled(run[k], Stop) && Apply(run[k], Stop).loop.Stopped?
    ensures run[k].loop.Stopped? ==> run[n].loop.Stopped? && run[n].begun == run[k].begun
  {
    if k < n {
      StoppedIsFinal(run, steps, k, n - 1);
      assert Enabled(run[n - 1], steps[n - 1]) && run[n] == Apply(run[n - 1], steps[n - 1]);
    }
  }

  // ---------------------------------------------------------------- the reloader's own sections

  class Reloader {
    var pending: seq<Request>
    var lastErr: string
    var signal: bool

    /** This reloader as a state of the protocol; what happened before comes in as history. */
    ghost function View(h: State): State
      reads this
    {
      h.(pending := pending, lastErr := lastErr, signal := signal)
    }

    constructor ()
      ensures View(INITIAL) == INITIAL
    {
      pending, lastErr, signal := [], "", false;
    }

    /** One whole Trigger: append, then a non-blocking send on the one-slot channel. */
    method Trigger(r: Request, ghost h: State)
      requires Fresh(h, r.id) && r.id !in h.midway
      modifies this`pending, this`signal
      ensures var s := Apply(Apply(old(View(h)), Append(r)), Signal(r.id));
              View(s) == s
    {
      pending := pending + [r];
      if !signal { signal := true; }
    }

    /** The loop takes the waiting signal. */
    method WakeUp(ghost h: State)
      requires h.loop.Waiting? && signal
      modifies this`signal
      ensures View(Apply(old(View(h)), Wake)) == Apply(old(View(h)), Wake)
    {
      signal := false;
    }

    /**
     The loop after its sleep, up to the recorded result: whatever is pending by then becomes
     one apply under the oldest source, and a signal that came in meanwhile is spent on it.
     */
    method TakeAndApply(result: string, ghost h: State) returns (source: string)
      requires h.loop.Draining?
      modifies this
      ensures var taken := Apply(Apply(old(View(h)), Drain), Take);
              var s := Apply(Apply(Apply(taken, BeginApply), EndApply(result)), Record);
              View(s) == s && s.begun == h.begun + old(pending) && s.sources == h.sources + [source]
    {
      if signal { signal := false; }
      var batch := pending;
      pending := [];
      source := "unknown";
      if |batch| > 0 { source := batch[0].source; }
      lastErr := result;
    }
  }
}
