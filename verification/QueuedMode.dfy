/**
 Queued run mode of one automation: concurrent fires offer themselves to a bounded queue,
 and a single pump, started by the first accepted fire and bound to that fire's context,
 runs them one at a time.
 */
module QueuedMode {
  import opened Basics

  type FireId = nat
  type Context = nat

  datatype Outcome = Disabled | Accepted | Skipped

  /** Where a fire goroutine stands. */
  datatype Fire =
    | Launched(ctx: Context)
    | Admitted(ctx: Context)
    | HasQueue(ctx: Context)
    | Enqueued(ctx: Context)        // in the queue, pump not yet started by this fire
    | QueueFull(ctx: Context)       // refused, not yet reported
    | Returning(outcome: Outcome)
    | Finished(outcome: Outcome)

  datatype Pump =
    | NotStarted
    | Idle(ctx: Context)
    | Executing(ctx: Context, fire: FireId)
    | Draining
    | Exited

  datatype State = State(
    fires: map<FireId, Fire>,
    capacity: Option<nat>, queue: seq<FireId>, pump: Pump, cancelled: set<Context>,
    accepted: seq<FireId>, executed: seq<FireId>, shutdown: seq<FireId>, skipped: seq<FireId>,
    inFlight: int)

  datatype Step =
    | Launch(f: FireId, ctx: Context)
    | Admit(f: FireId, enabled: bool)
    | EnsureQueue(f: FireId, size: nat)
    | Offer(f: FireId)
    | ReportFull(f: FireId)
    | StartPump(f: FireId)
    | Return(f: FireId)
    | Take
    | Complete
    | NoticeCancel
    | DrainOne
    | Exit
    | Cancel(ctx: Context)

  predicate Enabled(s: State, step: Step) {
    match step
    case Launch(f, _) => f !in s.fires
    case Admit(f, _) => f in s.fires && s.fires[f].Launched?
    case EnsureQueue(f, _) => f in s.fires && s.fires[f].Admitted?
    case Offer(f) => f in s.fires && s.fires[f].HasQueue? && s.capacity.Some?
    case ReportFull(f) => f in s.fires && s.fires[f].QueueFull?
    case StartPump(f) => f in s.fires && s.fires[f].Enqueued?
    case Return(f) => f in s.fires && s.fires[f].Returning?
    case Take => s.pump.Idle? && |s.queue| > 0
    case Complete => s.pump.Executing?
    case NoticeCancel => s.pump.Idle? && s.pump.ctx in s.cancelled
    case DrainOne => s.pump.Draining? && |s.queue| > 0
    case Exit => s.pump.Draining? && |s.queue| == 0
    case Cancel(_) => true
  }

  function Set(s: State, f: FireId, fire: Fire): State { s.(fires := s.fires[f := fire]) }

  function Apply(s: State, step: Step): State
    requires Enabled(s, step)
  {
    match step
    case Launch(f, ctx) => Set(s, f, Launched(ctx)).(inFlight := s.inFlight + 1)
    case Admit(f, enabled) => Set(s, f, if enabled then Admitted(s.fires[f].ctx) else Returning(Disabled))
    case EnsureQueue(f, size) =>
      Set(s, f, HasQueue(s.fires[f].ctx)).(capacity := if s.capacity.None? then Some(size) else s.capacity)
    case Offer(f) =>
      if |s.queue| < s.capacity.value then
        Set(s, f, Enqueued(s.fires[f].ctx)).(queue := s.queue + [f], accepted := s.accepted + [f])
      else Set(s, f, QueueFull(s.fires[f].ctx))
    case ReportFull(f) => Set(s, f, Returning(Skipped)).(skipped := s.skipped + [f])
    case StartPump(f) =>
      if s.pump.NotStarted? then
        Set(s, f, Returning(Accepted)).(pump := Idle(s.fires[f].ctx), inFlight := s.inFlight + 1)
      else Set(s, f, Returning(Accepted))
    case Return(f) => Set(s, f, Finished(s.fires[f].outcome)).(inFlight := s.inFlight - 1)
    case Take => s.(pump := Executing(s.pump.ctx, s.queue[0]), queue := s.queue[1..])
    case Complete => s.(pump := Idle(s.pump.ctx), executed := s.executed + [s.pump.fire])
    case NoticeCancel => s.(pump := Draining)
    case DrainOne => s.(shutdown := s.shutdown + [s.queue[0]], queue := s.queue[1..])
    case Exit => s.(pump := Exited, inFlight := s.inFlight - 1)
    case Cancel(ctx) => s.(cancelled := s.cancelled + {ctx})
  }

  const INITIAL := State(map[], None, [], NotStarted, {}, [], [], [], [], 0)

  ghost predicate IsRun(run: seq<State>, steps: seq<Step>) {
    && |run| == |steps| + 1 && run[0] == INITIAL
    && forall i | 0 <= i < |steps| :: Enabled(run[i], steps[i]) && run[i + 1] == Apply(run[i], steps[i])
  }

  // ---------------------------------------------------------------- fires run to their end

  function Stage(fire: Fire): nat {
    match fire
    case Launched(_) => 0 case Admitted(_) => 1 case HasQueue(_) => 2 case Enqueued(_) => 3 case QueueFull(_) => 3
    case Returning(_) => 4 case Finished(_) => 5
  }

  /** A fire that is about to offer itself finds the queue made. */
  ghost predicate QueueMade(s: State) { forall f | f in s.fires && s.fires[f].HasQueue? :: s.capacity.Some? }

  lemma {:induction false} RunMakesQueue(run: seq<State>, steps: seq<Step>, n: nat)
    requires IsRun(run, steps) && n < |run|
    ensures QueueMade(run[n])
  {
    if n > 0 {
      RunMakesQueue(run, steps, n - 1);
      assert Enabled(run[n - 1], steps[n - 1]) && run[n] == Apply(run[n - 1], steps[n - 1]);
    }
  }

  /** No fire is ever stuck: nothing but its own next step is needed, and each takes it on. */
  lemma FireIsNeverStuck(run: seq<State>, steps: seq<Step>, f: FireId) returns (step: Step)
    requires IsRun(run, steps) && f in run[|steps|].fires && !run[|steps|].fires[f].Finished?
    ensures Enabled(run[|steps|], step)
    ensures Stage(Apply(run[|steps|], step).fires[f]) > Stage(run[|steps|].fires[f])
  {
    RunMakesQueue(run, steps, |steps|);
    match run[|steps|].fires[f]
    case Launched(_) => step := Admit(f, true);
    case Admitted(_) => step := EnsureQueue(f, 0);
    case HasQueue(_) => step := Offer(f);
    case Enqueued(_) => step := StartPump(f);
    case QueueFull(_) => step := ReportFull(f);
    case Returning(_) => step := Return(f);
  }

  // ---------------------------------------------------------------- conservation and order

  function Running(p: Pump): seq<FireId> { if p.Executing? then [p.fire] else [] }

  /** Accepted fires, in order of acceptance: done, the one running, dropped at shutdown, waiting. */
  ghost predicate Fifo(s: State) {
    s.accepted == s.executed + Running(s.pump) + s.shutdown + s.queue
  }

  ghost predicate Bounded(s: State) {
    && (s.capacity.None? ==> s.queue == [])
    && (s.capacity.Some? ==> |s.queue| <= s.capacity.value)
    && (s.shutdown != [] ==> s.pump.Draining? || s.pump.Exited?)
  }

  lemma MoveFirst(a: seq<FireId>, b: seq<FireId>)
    requires |b| > 0
    ensures a + b == a + [b[0]] + b[1..]
  {
  }

  lemma OfferKeepsFifo(s: State, f: FireId)
    requires Fifo(s) && Enabled(s, Offer(f))
    ensures Fifo(Apply(s, Offer(f)))
  {
    var front := s.executed + Running(s.pump) + s.shutdown;
    assert (front + s.queue) + [f] == front + (s.queue + [f]);
  }

  lemma PumpKeepsFifo(s: State, step: Step)
    requires Fifo(s) && Bounded(s) && Enabled(s, step) && (step.Take? || step.Complete? || step.DrainOne?)
    ensures Fifo(Apply(s, step))
  {
    if step.Take? {
      MoveFirst(s.executed, s.queue);
      assert s.executed + [] + [] + s.queue == s.executed + s.queue;
      assert s.executed + [s.queue[0]] + [] + s.queue[1..] == s.executed + [s.queue[0]] + s.queue[1..];
    } else if step.Complete? {
      assert (s.executed + [s.pump.fire]) + [] + s.shutdown == s.executed + [s.pump.fire] + s.shutdown;
    } else {
      var front := s.executed + [] + s.shutdown;
      MoveFirst(front, s.queue);
      assert s.executed + [] + (s.shutdown + [s.queue[0]]) == front + [s.queue[0]];
    }
  }

  lemma StepKeepsBounded(s: State, step: Step)
    requires Bounded(s) && Enabled(s, step)
    ensures Bounded(Apply(s, step))
  {
  }

  lemma StepKeepsFifo(s: State, step: Step)
    requires Fifo(s) && Bounded(s) && Enabled(s, step)
    ensures Fifo(Apply(s, step)) && Bounded(Apply(s, step))
  {
    StepKeepsBounded(s, step);
    if step.Offer? {
      OfferKeepsFifo(s, step.f);
    } else if step.Take? || step.Complete? || step.DrainOne? {
      PumpKeepsFifo(s, step);
    }
  }

  lemma {:induction false} RunKeepsFifo(run: seq<State>, steps: seq<Step>, n: nat)
    requires IsRun(run, steps) && n < |run|
    ensures Fifo(run[n]) && Bounded(run[n])
  {
    if n > 0 {
      RunKeepsFifo(run, steps, n - 1);
      StepKeepsFifo(run[n - 1], steps[n - 1]);
    }
  }

  // ---------------------------------------------------------------- every fire is accounted for once

  predicate WasAccepted(fire: Fire) {
    fire.Enqueued? || ((fire.Returning? || fire.Finished?) && fire.outcome.Accepted?)
  }

  predicate WasReported(fire: Fire) {
    (fire.Returning? || fire.Finished?) && fire.outcome.Skipped?
  }

  ghost predicate Accounted(s: State, f: FireId) {
    && multiset(s.accepted)[f] == (if f in s.fires && WasAccepted(s.fires[f]) then 1 else 0)
    && multiset(s.skipped)[f] == (if f in s.fires && WasReported(s.fires[f]) then 1 else 0)
  }

  lemma CountGrows(a: seq<FireId>, x: FireId, f: FireId)
    ensures multiset(a + [x])[f] == multiset(a)[f] + if x == f then 1 else 0
  {
    assert multiset(a + [x]) == multiset(a) + multiset{x};
  }

  /** How a step moves one fire: either it joins a list and its outcome says so, or neither changes. */
  lemma StepMovesFire(s: State, step: Step, f: FireId)
    requires Enabled(s, step)
    ensures var s' := Apply(s, step);
            var was, now := f in s.fires && WasAccepted(s.fires[f]), f in s'.fires && WasAccepted(s'.fires[f]);
            if s'.accepted == s.accepted then was == now
            else && step.Offer? && s'.accepted == s.accepted + [step.f]
                 && (if f == step.f then !was && now else was == now)
    ensures var s' := Apply(s, step);
            var was, now := f in s.fires && WasReported(s.fires[f]), f in s'.fires && WasReported(s'.fires[f]);
            if s'.skipped == s.skipped then was == now
            else && step.ReportFull? && s'.skipped == s.skipped + [step.f]
                 && (if f == step.f then !was && now else was == now)
  {
    var s' := Apply(s, step);
    if step.Offer? && s'.fires[step.f].Enqueued? { assert |s'.accepted| == |s.accepted| + 1; }
    if step.ReportFull? { assert |s'.skipped| == |s.skipped| + 1; }
  }

  lemma StepKeepsAccount(s: State, step: Step, f: FireId)
    requires Accounted(s, f) && Enabled(s, step)
    ensures Accounted(Apply(s, step), f)
  {
    StepMovesFire(s, step, f);
    if step.Offer? { CountGrows(s.accepted, step.f, f); }
    if step.ReportFull? { CountGrows(s.skipped, step.f, f); }
  }

  lemma {:induction false} RunKeepsAccount(run: seq<State>, steps: seq<Step>, n: nat, f: FireId)
    requires IsRun(run, steps) && n < |run|
    ensures Accounted(run[n], f)
  {
    if n > 0 {
      RunKeepsAccount(run, steps, n - 1, f);
      StepKeepsAccount(run[n - 1], steps[n - 1], f);
    }
  }

  /**
   In every run: accepted fires are exactly executed, then at most one executing, then those
   skipped at shutdown, then those still queued, in FIFO order; the queue stays within its
   capacity; and an enabled fire that has finished was either accepted once or reported
   skipped once, never both.
   */
  lemma QueueConserves(run: seq<State>, steps: seq<Step>, f: FireId)
    requires IsRun(run, steps)
    ensures var s := run[|steps|];
            && s.accepted == s.executed + Running(s.pump) + s.shutdown + s.queue
            && |s.queue| <= (if s.capacity.Some? then s.capacity.value else 0)
            && multiset(s.accepted)[f] + multiset(s.skipped)[f] <= 1
            && (f in s.fires && s.fires[f].Finished? && !s.fires[f].outcome.Disabled? ==>
                  multiset(s.accepted)[f] + multiset(s.skipped)[f] == 1)
  {
    RunKeepsFifo(run, steps, |steps|);
    RunKeepsAccount(run, steps, |steps|, f);
  }

  // ---------------------------------------------------------------- the WaitGroup

  function Live(s: State): set<FireId> { set f | f in s.fires && !s.fires[f].Finished? }

  function PumpCount(p: Pump): nat { if p.NotStarted? || p.Exited? then 0 else 1 }

  ghost predicate Counted(s: State) { s.inFlight == |Live(s)| + PumpCount(s.pump) }

  lemma StepKeepsCount(s: State, step: Step)
    requires Counted(s) && Enabled(s, step)
    ensures Counted(Apply(s, step))
  {
    var s' := Apply(s, step);
    if step.Launch? {
      assert Live(s') == Live(s) + {step.f};
    } else if step.Return? {
      assert Live(s') == Live(s) - {step.f} && step.f in Live(s);
    } else {
      assert Live(s') == Live(s);
    }
  }

  /** Stop waits for exactly the fire goroutines still running and the pump. */
  lemma {:induction false} WaitGroupIsExact(run: seq<State>, steps: seq<Step>, n: nat)
    requires IsRun(run, steps) && n < |run|
    ensures run[n].inFlight == |Live(run[n])| + PumpCount(run[n].pump)
  {
    if n == 0 {
      assert Live(run[0]) == {};
    } else {
      WaitGroupIsExact(run, steps, n - 1);
      StepKeepsCount(run[n - 1], steps[n - 1]);
    }
  }

  // ---------------------------------------------------------------- the pump starts once

  /** Until a pump exists, whoever filled the queue is still about to start it. */
  ghost predicate PumpOwed(s: State) {
    s.pump.NotStarted? && s.queue != [] ==> exists f :: f in s.fires && s.fires[f].Enqueued?
  }

  lemma StepKeepsPumpOwed(s: State, step: Step)
    requires PumpOwed(s) && Enabled(s, step)
    ensures PumpOwed(Apply(s, step))
  {
    var s' := Apply(s, step);
    if s'.pump.NotStarted? && s'.queue != [] {
      if step.Offer? && s'.fires[step.f].Enqueued? {
        assert step.f in s'.fires;
      } else {
        var f :| f in s.fires && s.fires[f].Enqueued?;
        assert f in s'.fires && s'.fires[f].Enqueued?;
      }
    }
  }

  /** An accepted fire never waits for a pump that nobody starts. */
  lemma {:induction false} PumpIsStarted(run: seq<State>, steps: seq<Step>, n: nat)
    requires IsRun(run, steps) && n < |run|
    ensures PumpOwed(run[n])
  {
    if n > 0 {
      PumpIsStarted(run, steps, n - 1);
      StepKeepsPumpOwed(run[n - 1], steps[n - 1]);
    }
  }

  /**
   The pump is never started a second time. Once it has exited, because the context of the
   fire that started it was cancelled, no later run executes anything: fires accepted from
   then on stay in the queue for ever, and no more than its capacity of them.
   */
  lemma {:induction false} AfterExitNothingRuns(run: seq<State>, steps: seq<Step>, m: nat, n: nat)
    requires IsRun(run, steps) && m <= n < |run| && run[m].pump.Exited?
    ensures run[n].pump.Exited?
    ensures run[n].executed == run[m].executed && run[n].shutdown == run[m].shutdown
    ensures run[n].accepted == run[m].executed + run[m].shutdown + run[n].queue
    ensures run[m].queue <= run[n].queue
  {
    RunKeepsFifo(run, steps, n);
    assert run[n].executed + [] == run[n].executed;
    if m < n {
      AfterExitNothingRuns(run, steps, m, n - 1);
      ExitedStep(run[n - 1], steps[n - 1]);
    }
  }

  lemma ExitedStep(s: State, step: Step)
    requires Enabled(s, step) && s.pump.Exited?
    ensures var s' := Apply(s, step);
            s'.pump.Exited? && s'.executed == s.executed && s'.shutdown == s.shutdown && s.queue <= s'.queue
  {
  }

  // ---------------------------------------------------------------- when a queued fire is served

  ghost predicate Extends(run: seq<State>, steps: seq<Step>, longer: seq<State>, more: seq<Step>) {
    IsRun(longer, more) && run <= longer && steps <= more
  }

  /** The fire was executed, or reported as skipped at shutdown. */
  predicate Served(s: State, f: FireId) { f in s.executed || f in s.shutdown }

  lemma Continue(run: seq<State>, steps: seq<Step>, step: Step)
    requires IsRun(run, steps) && Enabled(run[|steps|], step)
    ensures Extends(run, steps, run + [Apply(run[|steps|], step)], steps + [step])
  {
    var run', steps' := run + [Apply(run[|steps|], step)], steps + [step];
    forall i | 0 <= i < |steps'| ensures Enabled(run'[i], steps'[i]) && run'[i + 1] == Apply(run'[i], steps'[i]) {
      if i < |steps| { assert run'[i] == run[i] && run'[i + 1] == run[i + 1] && steps'[i] == steps[i]; }
    }
  }

  function PumpWork(s: State): nat {
    2 * |s.queue| + if s.pump.Executing? || s.pump.NotStarted? then 1 else 0
  }

  /** The step that brings a queued fire closer to the pump's hands. */
  lemma NextPumpStep(s: State, f: FireId) returns (step: Step)
    requires PumpOwed(s) && !s.pump.Exited? && (f in s.queue || f in Running(s.pump))
    ensures Enabled(s, step)
    ensures var s' := Apply(s, step);
            && !s'.pump.Exited? && PumpWork(s') < PumpWork(s)
            && (f in s'.queue || f in Running(s'.pump) || Served(s', f))
  {
    match s.pump
    case NotStarted =>
      var g :| g in s.fires && s.fires[g].Enqueued?;
      step := StartPump(g);
    case Idle(_) =>
      step := Take;
      assert s.queue == [s.queue[0]] + s.queue[1..];
    case Executing(_, _) => step := Complete;
    case Draining =>
      step := DrainOne;
      assert s.queue == [s.queue[0]] + s.queue[1..];
  }

  lemma {:induction false} ServeQueued(run: seq<State>, steps: seq<Step>, f: FireId)
    returns (longer: seq<State>, more: seq<Step>)
    requires IsRun(run, steps) && !run[|steps|].pump.Exited?
    requires f in run[|steps|].queue || f in Running(run[|steps|].pump)
    ensures Extends(run, steps, longer, more) && Served(longer[|more|], f)
    decreases PumpWork(run[|steps|])
  {
    PumpIsStarted(run, steps, |steps|);
    var step := NextPumpStep(run[|steps|], f);
    Continue(run, steps, step);
    longer, more := run + [Apply(run[|steps|], step)], steps + [step];
    if !Served(longer[|more|], f) {
      longer, more := ServeQueued(longer, more, f);
    }
  }

  /** A queued fire has not been served yet. */
  lemma QueuedIsUnserved(run: seq<State>, steps: seq<Step>, f: FireId)
    requires IsRun(run, steps) && f in run[|steps|].queue
    ensures !Served(run[|steps|], f)
  {
    var s := run[|steps|];
    RunKeepsFifo(run, steps, |steps|);
    RunKeepsAccount(run, steps, |steps|, f);
    assert multiset(s.accepted) ==
           multiset(s.executed) + multiset(Running(s.pump)) + multiset(s.shutdown) + multiset(s.queue);
    assert f in multiset(s.queue);
    assert f in s.executed ==> f in multiset(s.executed);
    assert f in s.shutdown ==> f in multiset(s.shutdown);
  }

  /**
   A fire waiting in the queue is executed or reported in some continuation, if and only if
   the pump has not exited.
   */
  lemma ServedIffPumpLives(run: seq<State>, steps: seq<Step>, f: FireId)
    requires IsRun(run, steps) && f in run[|steps|].queue
    ensures (exists longer, more :: Extends(run, steps, longer, more) && Served(longer[|more|], f))
            <==> !run[|steps|].pump.Exited?
  {
    if run[|steps|].pump.Exited? {
      QueuedIsUnserved(run, steps, f);
      forall longer, more | Extends(run, steps, longer, more) ensures !Served(longer[|more|], f) {
        assert longer[|steps|] == run[|steps|];
        AfterExitNothingRuns(longer, more, |steps|, |more|);
      }
    } else {
      var longer, more := ServeQueued(run, steps, f);
    }
  }

  /** A new fire is launched, admitted and accepted by a queue that has room. */
  lemma AcceptedFire(run: seq<State>, steps: seq<Step>, f: FireId, ctx: Context, size: nat)
    returns (longer: seq<State>, more: seq<Step>)
    requires IsRun(run, steps) && f !in run[|steps|].fires
    requires var s := run[|steps|]; |s.queue| < if s.capacity.Some? then s.capacity.value else size
    ensures Extends(run, steps, longer, more)
    ensures var s, s' := run[|steps|], longer[|more|];
            && s'.queue == s.queue + [f] && s'.pump == s.pump && s'.capacity.Some?
            && (s.capacity.None? ==> s'.capacity.value == size) && (s.capacity.Some? ==> s'.capacity == s.capacity)
            && s'.fires == s.fires[f := Enqueued(ctx)]
  {
    var s := run[|steps|];
    var s1 := Apply(s, Launch(f, ctx));
    var s2 := Apply(s1, Admit(f, true));
    var s3 := Apply(s2, EnsureQueue(f, size));
    var s4 := Apply(s3, Offer(f));
    Continue(run, steps, Launch(f, ctx));
    Continue(run + [s1], steps + [Launch(f, ctx)], Admit(f, true));
    longer, more := run + [s1] + [s2], steps + [Launch(f, ctx)] + [Admit(f, true)];
    Continue(longer, more, EnsureQueue(f, size));
    longer, more := longer + [s3], more + [EnsureQueue(f, size)];
    Continue(longer, more, Offer(f));
    longer, more := longer + [s4], more + [Offer(f)];
  }

  /** The only queued fire starts the pump and is executed by it. */
  lemma PumpRunsIt(run: seq<State>, steps: seq<Step>, f: FireId, ctx: Context)
    returns (longer: seq<State>, more: seq<Step>)
    requires IsRun(run, steps) && run[|steps|].queue == [f] && run[|steps|].pump.NotStarted?
    requires f in run[|steps|].fires && run[|steps|].fires[f] == Enqueued(ctx)
    ensures Extends(run, steps, longer, more)
    ensures var s, s' := run[|steps|], longer[|more|];
            s'.queue == [] && s'.pump == Idle(ctx) && s'.capacity == s.capacity && s'.fires.Keys == s.fires.Keys
  {
    var s := run[|steps|];
    var s1 := Apply(s, StartPump(f));
    var s2 := Apply(s1, Take);
    Continue(run, steps, StartPump(f));
    Continue(run + [s1], steps + [StartPump(f)], Take);
    longer, more := run + [s1] + [s2], steps + [StartPump(f)] + [Take];
    Continue(longer, more, Complete);
    longer, more := longer + [Apply(s2, Complete)], more + [Complete];
  }

  /** The pump's context ends while nothing is queued, and the pump exits. */
  lemma PumpStops(run: seq<State>, steps: seq<Step>)
    returns (longer: seq<State>, more: seq<Step>)
    requires IsRun(run, steps) && run[|steps|].queue == [] && run[|steps|].pump.Idle?
    ensures Extends(run, steps, longer, more)
    ensures longer[|more|] == run[|steps|].(cancelled := longer[|more|].cancelled, pump := Exited,
                                            inFlight := longer[|more|].inFlight)
  {
    var s := run[|steps|];
    var s1 := Apply(s, Cancel(s.pump.ctx));
    var s2 := Apply(s1, NoticeCancel);
    Continue(run, steps, Cancel(s.pump.ctx));
    Continue(run + [s1], steps + [Cancel(s.pump.ctx)], NoticeCancel);
    longer, more := run + [s1] + [s2], steps + [Cancel(s.pump.ctx)] + [NoticeCancel];
    Continue(longer, more, Exit);
    longer, more := longer + [Apply(s2, Exit)], more + [Exit];
  }

  /**
   It happens: fire 0 is accepted, starts the pump and is executed; its context ends and the
   pump exits; fire 1 is accepted after that and is served in no continuation.
   */
  lemma StrandedFire() returns (run: seq<State>, steps: seq<Step>)
    ensures IsRun(run, steps) && run[|steps|].queue == [1]
    ensures forall longer, more | Extends(run, steps, longer, more) :: !Served(longer[|more|], 1)
  {
    run, steps := AcceptedFire([INITIAL], [], 0, 7, 1);
    run, steps := PumpRunsIt(run, steps, 0, 7);
    run, steps := PumpStops(run, steps);
    run, steps := AcceptedFire(run, steps, 1, 8, 1);
    ServedIffPumpLives(run, steps, 1);
  }

  lemma ExitNeedsCancel(s: State, step: Step)
    requires Enabled(s, step) && !s.pump.Draining? && Apply(s, step).pump.Draining?
    ensures s.pump.Idle? && s.pump.ctx in s.cancelled
  {
  }

  /** A queue of capacity zero accepts nothing, ever: its pump is never started. */
  lemma {:induction false} ZeroCapacityAcceptsNothing(run: seq<State>, steps: seq<Step>, m: nat, n: nat)
    requires IsRun(run, steps) && m <= n < |run| && run[m].capacity == Some(0)
    ensures run[n].capacity == Some(0) && run[n].accepted == run[m].accepted
  {
    if m < n {
      ZeroCapacityAcceptsNothing(run, steps, m, n - 1);
      ZeroCapacityStep(run[n - 1], steps[n - 1]);
    }
  }

  lemma ZeroCapacityStep(s: State, step: Step)
    requires Enabled(s, step) && s.capacity == Some(0)
    ensures Apply(s, step).capacity == Some(0) && Apply(s, step).accepted == s.accepted
  {
  }

  // ---------------------------------------------------------------- the run state's own sections

  class RunState {
    var capacity: Option<nat>
    var queue: seq<FireId>
    var pump: Pump
    var accepted: seq<FireId>
    var executed: seq<FireId>
    var shutdown: seq<FireId>
    var skipped: seq<FireId>
    var inFlight: int

    ghost function View(fires: map<FireId, Fire>, cancelled: set<Context>): State
      reads this
    {
      State(fires, capacity, queue, pump, cancelled, accepted, executed, shutdown, skipped, inFlight)
    }

    constructor ()
      ensures View(map[], {}) == INITIAL
    {
      capacity, queue, pump := None, [], NotStarted;
      accepted, executed, shutdown, skipped, inFlight := [], [], [], [], 0;
    }

    /** Makes the queue once; later sizes are ignored. */
    method Ensure(size: nat) returns (cap: nat)
      modifies this`capacity
      ensures capacity == Some(cap)
      ensures old(capacity).Some? ==> capacity == old(capacity)
      ensures old(capacity).None? ==> cap == size
    {
      if capacity.None? { capacity := Some(size); }
      cap := capacity.value;
    }

    /** The queued branch of a fire, run alone: the steps EnsureQueue, Offer and then StartPump or ReportFull. */
    method FireQueued(f: FireId, ctx: Context, size: nat, ghost fires: map<FireId, Fire>, ghost cancelled: set<Context>)
      requires f in fires && fires[f] == Admitted(ctx)
      modifies this
      ensures var s := Apply(Apply(old(View(fires, cancelled)), EnsureQueue(f, size)), Offer(f));
              && (s.fires[f].Enqueued? ==> View(fires[f := Returning(Accepted)], cancelled) == Apply(s, StartPump(f)))
              && (!s.fires[f].Enqueued? ==> View(fires[f := Returning(Skipped)], cancelled) == Apply(s, ReportFull(f)))
    {
      var cap := Ensure(size);
      if |queue| < cap {
        queue := queue + [f];
        accepted := accepted + [f];
        if pump.NotStarted? {
          inFlight := inFlight + 1;
          pump := Idle(ctx);
        }
      } else {
        skipped := skipped + [f];
      }
    }

    /** The pump's shutdown loop: everything waiting is reported, oldest first, then the pump is gone. */
    method DrainAndExit()
      requires pump.Idle?
      modifies this`pump, this`queue, this`shutdown, this`inFlight
      ensures pump == Exited && queue == [] && shutdown == old(shutdown + queue)
      ensures inFlight == old(inFlight) - 1
    {
      pump := Draining;
      while |queue| > 0
        invariant pump == Draining && inFlight == old(inFlight)
        invariant shutdown + queue == old(shutdown + queue)
        decreases |queue|
      {
        MoveFirst(shutdown, queue);
        shutdown, queue := shutdown + [queue[0]], queue[1..];
      }
      assert shutdown + [] == shutdown;
      pump := Exited;
      inFlight := inFlight - 1;
    }
  }
}
