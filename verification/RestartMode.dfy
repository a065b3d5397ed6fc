/**
 Restart run mode of one automation: each fire cancels the run before it. Runs are named by
 their generation. Cancelling is done through one stored cancel function, which a finished
 run clears only if no newer generation has taken its place.
 */
module RestartMode {
  import opened Basics

  type FireId = nat
  type Generation = nat

  datatype Fire =
    | Launched                  // before looking the run state up
    | Holding                   // has the run state, before the restart section
    | Started(gen: Generation)  // past the restart section, run goroutine not yet launched
    | Returning
    | Finished

  datatype Progress = Created | Executing | Executed | Clearing | Exiting | Gone

  datatype Run = Run(owner: FireId, progress: Progress, cancelled: bool)

  datatype State = State(
    present: bool, fires: map<FireId, Fire>, runs: map<Generation, Run>,
    activeCancel: Option<Generation>, restartGen: Generation, inFlight: int)

  datatype Step =
    | Launch(f: FireId)
    | Lookup(f: FireId, enabled: bool)
    | Restart(f: FireId)
    | Spawn(f: FireId)
    | Return(f: FireId)
    | ParentCancelled(g: Generation) // the context the fire came with is done
    | Execute(g: Generation)
    | CancelSelf(g: Generation)
    | Clear(g: Generation)
    | Exit(g: Generation)
    | Remove

  predicate Doing(s: State, g: Generation, p: Progress) { g in s.runs && s.runs[g].progress == p }

  predicate Enabled(s: State, step: Step) {
    match step
    case Launch(f) => f !in s.fires
    case Lookup(f, _) => f in s.fires && s.fires[f].Launched?
    case Restart(f) => f in s.fires && s.fires[f].Holding?
    case Spawn(f) => f in s.fires && s.fires[f].Started? && s.fires[f].gen in s.runs
    case Return(f) => f in s.fires && s.fires[f].Returning?
    case ParentCancelled(g) => g in s.runs
    case Execute(g) => Doing(s, g, Executing)
    case CancelSelf(g) => Doing(s, g, Executed)
    case Clear(g) => Doing(s, g, Clearing)
    case Exit(g) => Doing(s, g, Exiting)
    case Remove => s.present
  }

  function Move(s: State, f: FireId, fire: Fire): State { s.(fires := s.fires[f := fire]) }

  function Advance(s: State, g: Generation, p: Progress): State
    requires g in s.runs
  {
    s.(runs := s.runs[g := s.runs[g].(progress := p)])
  }

  /** Calling a context's cancel function; cancelling twice is harmless. */
  function Cancel(runs: map<Generation, Run>, g: Option<Generation>): map<Generation, Run> {
    if g.Some? && g.value in runs then runs[g.value := runs[g.value].(cancelled := true)] else runs
  }

  function Apply(s: State, step: Step): State
    requires Enabled(s, step)
  {
    match step
    case Launch(f) => Move(s, f, Launched).(inFlight := s.inFlight + 1)
    case Lookup(f, enabled) => Move(s, f, if s.present && enabled then Holding else Returning)
    case Restart(f) =>
      var g := s.restartGen + 1;
      Move(s, f, Started(g)).(
        runs := Cancel(s.runs, s.activeCancel)[g := Run(f, Created, false)],
        activeCancel := Some(g), restartGen := g)
    case Spawn(f) => Advance(Move(s, f, Returning), s.fires[f].gen, Executing).(inFlight := s.inFlight + 1)
    case Return(f) => Move(s, f, Finished).(inFlight := s.inFlight - 1)
    case ParentCancelled(g) => s.(runs := Cancel(s.runs, Some(g)))
    case Execute(g) => Advance(s, g, Executed)
    case CancelSelf(g) => s.(runs := s.runs[g := s.runs[g].(progress := Clearing, cancelled := true)])
    case Clear(g) => Advance(s, g, Exiting).(activeCancel := if s.restartGen == g then None else s.activeCancel)
    case Exit(g) => Advance(s, g, Gone).(inFlight := s.inFlight - 1)
    case Remove => s.(present := false, runs := Cancel(s.runs, s.activeCancel), activeCancel := None)
  }

  const INITIAL := State(true, map[], map[], None, 0, 0)

  ghost predicate IsRun(run: seq<State>, steps: seq<Step>) {
    && |run| == |steps| + 1 && run[0] == INITIAL
    && forall i | 0 <= i < |steps| :: Enabled(run[i], steps[i]) && run[i + 1] == Apply(run[i], steps[i])
  }

  // ---------------------------------------------------------------- one live run

  predicate Live(s: State, g: Generation) { g in s.runs && !s.runs[g].cancelled }

  ghost predicate RunInv(s: State, g: Generation)
    requires g in s.runs
  {
    && 1 <= g <= s.restartGen
    && (Live(s, g) ==> s.activeCancel == Some(g))
    && (s.runs[g].progress in {Clearing, Exiting, Gone} ==> s.runs[g].cancelled)
  }

  ghost predicate Inv(s: State) {
    && (s.activeCancel.Some? ==>
          && s.activeCancel.value == s.restartGen && s.restartGen in s.runs
          && !s.runs[s.restartGen].progress.Exiting? && !s.runs[s.restartGen].progress.Gone?)
    && (forall g | g in s.runs :: RunInv(s, g))
  }

  lemma StepKeepsInv(s: State, step: Step)
    requires Inv(s) && Enabled(s, step)
    ensures Inv(Apply(s, step))
  {
    var s' := Apply(s, step);
    forall g | g in s'.runs ensures RunInv(s', g) {
      if g in s.runs { assert RunInv(s, g); }
    }
  }

  lemma {:induction false} RunKeepsInv(run: seq<State>, steps: seq<Step>, n: nat)
    requires IsRun(run, steps) && n < |run|
    ensures Inv(run[n])
  {
    if n > 0 {
      RunKeepsInv(run, steps, n - 1);
      StepKeepsInv(run[n - 1], steps[n - 1]);
    }
  }

  /**
   In every interleaving of fires, completions and removal: a run older than restartGen is
   cancelled, a stored cancel function belongs to the newest generation, and at most one run
   is uncancelled, the one the stored function would cancel.
   */
  lemma OneLiveRun(run: seq<State>, steps: seq<Step>, g: Generation, h: Generation)
    requires IsRun(run, steps)
    ensures var s := run[|steps|];
            && (g in s.runs && g < s.restartGen ==> s.runs[g].cancelled)
            && (s.activeCancel.Some? ==> s.activeCancel.value == s.restartGen)
            && (g in s.runs && s.activeCancel == Some(g) ==> !s.runs[g].progress.Exiting? && !s.runs[g].progress.Gone?)
            && (Live(s, g) && Live(s, h) ==> g == h)
            && (Live(s, g) ==> s.activeCancel == Some(g))
  {
    RunKeepsInv(run, steps, |steps|);
    var s := run[|steps|];
    if g in s.runs { assert RunInv(s, g); }
    if h in s.runs { assert RunInv(s, h); }
  }

  // ---------------------------------------------------------------- fires and runs, one by one

  function Rank(p: Progress): nat {
    match p
    case Created => 0 case Executing => 1 case Executed => 2 case Clearing => 3 case Exiting => 4 case Gone => 5
  }

  /** The run a step belongs to, if it is one of the steps of a run goroutine. */
  function Moves(s: State, step: Step): Option<Generation>
    requires Enabled(s, step)
  {
    match step
    case Spawn(f) => Some(s.fires[f].gen)
    case Execute(g) => Some(g)
    case CancelSelf(g) => Some(g)
    case Clear(g) => Some(g)
    case Exit(g) => Some(g)
    case _ => None
  }

  /** A run goes through its stages one at a time, moved by nobody else, and keeps its owner. */
  lemma RunsAdvance(s: State, step: Step, g: Generation)
    requires Inv(s) && Owned(s) && Enabled(s, step) && g in s.runs
    ensures var s' := Apply(s, step);
            && g in s'.runs && s'.runs[g].owner == s.runs[g].owner
            && Rank(s'.runs[g].progress) == Rank(s.runs[g].progress) + (if Moves(s, step) == Some(g) then 1 else 0)
  {
    assert RunInv(s, g);
    if step.Spawn? { assert OwnerInv(s, step.f); }
  }

  lemma StepKeepsCancelled(s: State, step: Step, g: Generation)
    requires Inv(s) && Enabled(s, step) && g in s.runs
    ensures var s' := Apply(s, step);
            && g in s'.runs && (s.runs[g].cancelled ==> s'.runs[g].cancelled)
            && (step == ParentCancelled(g) || step == CancelSelf(g) ==> s'.runs[g].cancelled)
  {
    assert RunInv(s, g);
  }

  /** A run whose context ended, or that has finished its work, is cancelled from then on. */
  lemma {:induction false} CancelReachesRun(run: seq<State>, steps: seq<Step>, k: nat, n: nat, g: Generation)
    requires IsRun(run, steps) && k < n < |run| && (steps[k] == ParentCancelled(g) || steps[k] == CancelSelf(g))
    ensures g in run[n].runs && run[n].runs[g].cancelled
  {
    RunKeepsInv(run, steps, n - 1);
    if k < n - 1 { CancelReachesRun(run, steps, k, n - 1, g); }
    StepKeepsCancelled(run[n - 1], steps[n - 1], g);
  }

  /** Past its lookup; and out of the way if it was refused. */
  predicate LookedUp(s: State, f: FireId, admitted: bool) {
    && f in s.fires && !s.fires[f].Launched?
    && (!admitted ==> s.fires[f].Returning? || s.fires[f].Finished?)
  }

  lemma StaysLookedUp(s: State, step: Step, f: FireId, admitted: bool)
    requires Enabled(s, step) && LookedUp(s, f, admitted)
    ensures LookedUp(Apply(s, step), f, admitted)
  {
  }

  /** A fire that finds the automation gone or disabled returns without starting a run. */
  lemma {:induction false} RefusedFireReturns(run: seq<State>, steps: seq<Step>, k: nat, n: nat)
    requires IsRun(run, steps) && k < n < |run| && steps[k].Lookup?
    ensures LookedUp(run[n], steps[k].f, run[k].present && steps[k].enabled)
  {
    if k < n - 1 {
      RefusedFireReturns(run, steps, k, n - 1);
      StaysLookedUp(run[n - 1], steps[n - 1], steps[k].f, run[k].present && steps[k].enabled);
    }
  }

  /** An admitted fire starts exactly one run, of the next generation and under its own name. */
  lemma FireStartsItsRun(s: State, f: FireId)
    requires Inv(s) && Enabled(s, Restart(f))
    ensures var s', g := Apply(s, Restart(f)), s.restartGen + 1;
            && s'.fires[f] == Started(g) && g !in s.runs && s'.runs.Keys == s.runs.Keys + {g}
            && s'.runs[g] == Run(f, Created, false) && s'.activeCancel == Some(g)
            && Enabled(s', Spawn(f)) && Doing(Apply(s', Spawn(f)), g, Executing)
            && forall h | h in s.runs :: s'.runs[h].cancelled
  {
    var s' := Apply(s, Restart(f));
    assert forall h | h in s.runs :: RunInv(s, h);
    StepKeepsInv(s, Restart(f));
    forall h | h in s.runs ensures s'.runs[h].cancelled { assert RunInv(s, h) && RunInv(s', h); }
  }

  // ---------------------------------------------------------------- the WaitGroup

  /** A fire past its restart section owns the run it has yet to launch. */
  ghost predicate OwnerInv(s: State, f: FireId)
    requires f in s.fires
  {
    s.fires[f].Started? ==> Doing(s, s.fires[f].gen, Created) && s.runs[s.fires[f].gen].owner == f
  }

  ghost predicate Owned(s: State) {
    && (forall f | f in s.fires :: OwnerInv(s, f))
    && (forall g | g in s.runs :: g <= s.restartGen)
  }

  lemma StepKeepsOwned(s: State, step: Step)
    requires Owned(s) && Enabled(s, step)
    ensures Owned(Apply(s, step))
  {
    var s' := Apply(s, step);
    if step.Spawn? { assert OwnerInv(s, step.f); }
    forall f | f in s'.fires ensures OwnerInv(s', f) {
      if f in s.fires { assert OwnerInv(s, f); }
    }
  }

  function LiveFires(s: State): set<FireId> { set f | f in s.fires && !s.fires[f].Finished? }

  function LiveRuns(s: State): set<Generation> {
    set g | g in s.runs && !s.runs[g].progress.Created? && !s.runs[g].progress.Gone?
  }

  ghost predicate Counted(s: State) { s.inFlight == |LiveFires(s)| + |LiveRuns(s)| }

  lemma FiresMove(s: State, step: Step)
    requires Enabled(s, step)
    ensures LiveFires(Apply(s, step)) ==
            if step.Launch? then LiveFires(s) + {step.f}
            else if step.Return? then LiveFires(s) - {step.f}
            else LiveFires(s)
    ensures step.Launch? ==> step.f !in LiveFires(s)
    ensures step.Return? ==> step.f in LiveFires(s)
  {
  }

  lemma RunsMove(s: State, step: Step)
    requires Enabled(s, step) && Owned(s)
    ensures LiveRuns(Apply(s, step)) ==
            if step.Spawn? then LiveRuns(s) + {s.fires[step.f].gen}
            else if step.Exit? then LiveRuns(s) - {step.g}
            else LiveRuns(s)
    ensures step.Spawn? ==> s.fires[step.f].gen !in LiveRuns(s)
    ensures step.Exit? ==> step.g in LiveRuns(s)
  {
    if step.Spawn? { assert OwnerInv(s, step.f); }
  }

  lemma StepKeepsCount(s: State, step: Step)
    requires Counted(s) && Owned(s) && Enabled(s, step)
    ensures Counted(Apply(s, step))
  {
    FiresMove(s, step);
    RunsMove(s, step);
  }

  lemma {:induction false} RunKeepsCount(run: seq<State>, steps: seq<Step>, n: nat)
    requires IsRun(run, steps) && n < |run|
    ensures Owned(run[n]) && Counted(run[n])
  {
    if n == 0 {
      assert LiveFires(run[0]) == {} && LiveRuns(run[0]) == {};
    } else {
      RunKeepsCount(run, steps, n - 1);
      StepKeepsOwned(run[n - 1], steps[n - 1]);
      StepKeepsCount(run[n - 1], steps[n - 1]);
    }
  }

  /** Stop waits for exactly the fire and run goroutines that are still alive. */
  lemma WaitGroupIsExact(run: seq<State>, steps: seq<Step>)
    requires IsRun(run, steps)
    ensures run[|steps|].inFlight == |LiveFires(run[|steps|])| + |LiveRuns(run[|steps|])|
  {
    RunKeepsCount(run, steps, |steps|);
  }

  function Stage(fire: Fire): nat {
    match fire
    case Launched => 0 case Holding => 1 case Started(_) => 2 case Returning => 3 case Finished => 4
  }

  /** No fire and no launched run is ever stuck: its own next step is open and takes it on. */
  lemma NothingIsStuck(run: seq<State>, steps: seq<Step>, f: FireId, g: Generation)
    requires IsRun(run, steps)
    ensures var s := run[|steps|];
            f in s.fires && !s.fires[f].Finished? ==>
              exists step :: Enabled(s, step) && Stage(Apply(s, step).fires[f]) > Stage(s.fires[f])
    ensures var s := run[|steps|];
            g in LiveRuns(s) ==>
              exists step :: Enabled(s, step) && Rank(Apply(s, step).runs[g].progress) > Rank(s.runs[g].progress)
  {
    RunKeepsCount(run, steps, |steps|);
    var s := run[|steps|];
    if f in s.fires && !s.fires[f].Finished? {
      assert OwnerInv(s, f);
      var step := match s.fires[f]
        case Launched => Lookup(f, true) case Holding => Restart(f) case Started(_) => Spawn(f) case _ => Return(f);
      assert Enabled(s, step) && Stage(Apply(s, step).fires[f]) > Stage(s.fires[f]);
    }
    if g in LiveRuns(s) {
      var step := match s.runs[g].progress
        case Executing => Execute(g) case Executed => CancelSelf(g) case Clearing => Clear(g) case _ => Exit(g);
      assert Enabled(s, step) && Rank(Apply(s, step).runs[g].progress) > Rank(s.runs[g].progress);
    }
  }

  // ---------------------------------------------------------------- removal

  ghost predicate AllCancelled(s: State) { forall g | g in s.runs :: s.runs[g].cancelled }

  ghost predicate NobodyHolds(s: State) { forall f | f in s.fires :: !s.fires[f].Holding? }

  /** Removing the automation cancels every run it has at that moment. */
  lemma RemoveCancelsAll(s: State)
    requires Inv(s) && s.present
    ensures AllCancelled(Apply(s, Remove)) && Apply(s, Remove).activeCancel == None
  {
    forall g | g in s.runs ensures Apply(s, Remove).runs[g].cancelled { assert RunInv(s, g); }
  }

  lemma {:induction false} StaysCancelled(run: seq<State>, steps: seq<Step>, m: nat, n: nat)
    requires IsRun(run, steps) && m <= n < |run|
    requires !run[m].present && AllCancelled(run[m]) && NobodyHolds(run[m])
    ensures !run[n].present && AllCancelled(run[n]) && NobodyHolds(run[n])
  {
    if m < n {
      StaysCancelled(run, steps, m, n - 1);
      var s, step := run[n - 1], steps[n - 1];
      assert !step.Restart?;
      assert run[n] == Apply(s, step);
    }
  }

  /** `run` is continued from its last state by one more step. */
  lemma Continue(run: seq<State>, steps: seq<Step>, step: Step)
    requires IsRun(run, steps) && Enabled(run[|steps|], step)
    ensures IsRun(run + [Apply(run[|steps|], step)], steps + [step])
  {
    var run', steps' := run + [Apply(run[|steps|], step)], steps + [step];
    forall i | 0 <= i < |steps'| ensures Enabled(run'[i], steps'[i]) && run'[i + 1] == Apply(run'[i], steps'[i]) {
      if i < |steps| { assert run'[i] == run[i] && run'[i + 1] == run[i + 1] && steps'[i] == steps[i]; }
    }
  }

  ghost predicate Extends(run: seq<State>, steps: seq<Step>, longer: seq<State>, more: seq<Step>) {
    IsRun(longer, more) && run <= longer && steps <= more
  }

  /**
   After a removal every run stays cancelled in every continuation, if and only if no fire
   was between looking the run state up and its restart section at that moment.
   */
  lemma RemovalIsFinalIff(run: seq<State>, steps: seq<Step>)
    requires IsRun(run, steps) && |steps| > 0 && steps[|steps| - 1].Remove?
    ensures (forall longer, more :: Extends(run, steps, longer, more) ==> AllCancelled(longer[|more|]))
            <==> NobodyHolds(run[|steps|])
  {
    var s := run[|steps|];
    RunKeepsInv(run, steps, |steps| - 1);
    RemoveCancelsAll(run[|steps| - 1]);
    if NobodyHolds(s) {
      forall longer, more | Extends(run, steps, longer, more) ensures AllCancelled(longer[|more|]) {
        assert longer[|steps|] == s;
        StaysCancelled(longer, more, |steps|, |more|);
      }
    } else {
      var f :| f in s.fires && s.fires[f].Holding?;
      HolderRestarts(run, steps, f);
    }
  }

  lemma HolderRestarts(run: seq<State>, steps: seq<Step>, f: FireId)
    requires IsRun(run, steps) && Enabled(run[|steps|], Restart(f))
    ensures exists longer, more :: Extends(run, steps, longer, more) && !AllCancelled(longer[|more|])
  {
    Continue(run, steps, Restart(f));
    var s' := Apply(run[|steps|], Restart(f));
    var longer, more := run + [s'], steps + [Restart(f)];
    assert s'.restartGen in s'.runs && !s'.runs[s'.restartGen].cancelled;
    assert longer[|more|] == s' && Extends(run, steps, longer, more);
  }

  /** It happens: a fire looks the run state up, the automation is removed, the fire starts its run. */
  lemma RemovalRaces()
    ensures exists run: seq<State>, steps :: IsRun(run, steps)
              && steps == [Launch(0), Lookup(0, true), Remove, Restart(0)]
              && !run[4].present && Live(run[4], 1)
  {
    var s1 := State(true, map[0 := Launched], map[], None, 0, 1);
    var s2 := s1.(fires := map[0 := Holding]);
    var s3 := s2.(present := false);
    var s4 := State(false, map[0 := Started(1)], map[1 := Run(0, Created, false)], Some(1), 1, 1);
    var run := [INITIAL, s1, s2, s3, s4];
    assert IsRun(run, [Launch(0), Lookup(0, true), Remove, Restart(0)]);
    assert run[4] == s4;
  }

  // ---------------------------------------------------------------- the run state's own sections

  class RunState {
    var runs: map<Generation, Run>
    var activeCancel: Option<Generation>
    var restartGen: Generation

    ghost function View(present: bool, fires: map<FireId, Fire>, inFlight: int): State
      reads this
    {
      State(present, fires, runs, activeCancel, restartGen, inFlight)
    }

    constructor ()
      ensures View(true, map[], 0) == INITIAL
    {
      runs, activeCancel, restartGen := map[], None, 0;
    }

    /** The section a fire runs under restartMu. */
    method Supersede(f: FireId, ghost present: bool, ghost fires: map<FireId, Fire>, ghost inFlight: int)
      returns (myGen: Generation)
      requires f in fires && fires[f].Holding? && Inv(View(present, fires, inFlight))
      modifies this
      ensures View(present, fires[f := Started(myGen)], inFlight)
           == Apply(old(View(present, fires, inFlight)), Restart(f))
      ensures Inv(View(present, fires[f := Started(myGen)], inFlight))
      ensures forall g | g in runs && g != myGen :: runs[g].cancelled
    {
      StepKeepsInv(View(present, fires, inFlight), Restart(f));
      if activeCancel.Some? {
        runs := runs[activeCancel.value := runs[activeCancel.value].(cancelled := true)];
      }
      myGen := restartGen + 1;
      runs := runs[myGen := Run(f, Created, false)];
      activeCancel := Some(myGen);
      restartGen := myGen;
      forall g | g in runs && g != myGen ensures runs[g].cancelled {
        assert RunInv(View(present, fires[f := Started(myGen)], inFlight), g);
      }
    }

    /** The section a finished run ends with: it never takes away a newer run's cancel function. */
    method ClearIfNewest(myGen: Generation, ghost present: bool, ghost fires: map<FireId, Fire>, ghost inFlight: int)
      requires Doing(View(present, fires, inFlight), myGen, Clearing)
      modifies this
      ensures View(present, fires, inFlight) == Apply(old(View(present, fires, inFlight)), Clear(myGen))
      ensures old(restartGen) != myGen ==> activeCancel == old(activeCancel)
    {
      if restartGen == myGen {
        activeCancel := None;
      }
      runs := runs[myGen := runs[myGen].(progress := Exiting)];
    }

    /** The removal section of a reload. */
    method CancelActive(ghost fires: map<FireId, Fire>, ghost inFlight: int)
      requires Inv(View(true, fires, inFlight))
      modifies this
      ensures View(false, fires, inFlight) == Apply(old(View(true, fires, inFlight)), Remove)
      ensures forall g | g in runs :: runs[g].cancelled
    {
      RemoveCancelsAll(View(true, fires, inFlight));
      if activeCancel.Some? {
        runs := runs[activeCancel.value := runs[activeCancel.value].(cancelled := true)];
        activeCancel := None;
      }
    }
  }
}
