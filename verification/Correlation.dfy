/**
 Matching command results to their waiters over one driver stream. Every command has its
 own one-slot channel, named by the command's unique id; the pending map, the reader, the
 failing of the whole stream and the callers' time-outs compete for it.
 */
module Correlation {
  type CommandId = nat

  datatype CommandResult = CommandResult(id: CommandId, ok: bool, message: string)

  /** Everything that can be done to a channel. Both are panics after a close. */
  datatype ChannelOp = Sent(result: CommandResult) | Closed

  datatype Channel = Channel(history: seq<ChannelOp>, received: bool)

  datatype SendOutcome =
    | Got(result: CommandResult)
    | StreamClosed
    | SendFailed
    | TimedOut
    | ContextDone

  /** Where a SendCommand call stands. */
  datatype Caller =
    | Sending                        // registered, writing to the stream
    | Waiting                        // at the select
    | Removing(outcome: SendOutcome) // about to take its entry out of the pending map
    | Returned(outcome: SendOutcome)

  datatype Reader = Receiving | Delivering(id: CommandId, result: CommandResult) | Gone

  datatype State = State(
    pending: set<CommandId>, closed: bool, failing: set<CommandId>,
    channels: map<CommandId, Channel>, callers: map<CommandId, Caller>,
    reader: Reader)

  datatype Step =
    | Call(id: CommandId)
    | Written(id: CommandId)
    | WriteFails(id: CommandId)
    | Expires(id: CommandId)
    | Cancels(id: CommandId)
    | Remove(id: CommandId)
    | Receive(id: CommandId)
    | ReadResult(result: CommandResult)
    | Deliver
    | StreamDies
    | Close
    | CloseChannel(id: CommandId)

  predicate ClosedHistory(c: Channel) { Closed in c.history }

  predicate HasResult(c: Channel) { |c.history| > 0 && c.history[0].Sent? && !c.received }

  predicate IsClosed(c: Channel) { |c.history| > 0 && c.history[0].Closed? }

  /** A receive on the channel returns. */
  predicate Answered(c: Channel) { HasResult(c) || IsClosed(c) }

  predicate At(s: State, id: CommandId, c: Caller) { id in s.callers && s.callers[id] == c }

  predicate Enabled(s: State, step: Step) {
    match step
    case Call(id) => id !in s.callers
    case Written(id) => At(s, id, Sending)
    case WriteFails(id) => At(s, id, Sending)
    case Expires(id) => At(s, id, Waiting)
    case Cancels(id) => At(s, id, Waiting)
    case Remove(id) => id in s.callers && s.callers[id].Removing?
    case Receive(id) => At(s, id, Waiting) && id in s.channels && Answered(s.channels[id])
    case ReadResult(_) => s.reader.Receiving?
    case Deliver => s.reader.Delivering? && s.reader.id in s.channels
    case StreamDies => s.reader.Receiving?
    case Close => true
    case CloseChannel(id) => id in s.failing && id in s.channels
  }

  /** The first caller to fail the stream takes over the pending map. */
  function FailAll(s: State): State {
    if s.closed then s else s.(closed := true, failing := s.pending, pending := {})
  }

  /** A one-slot non-blocking send. On a closed channel it would panic; `Panics` names that step. */
  function Push(s: State, id: CommandId, r: CommandResult): State
    requires id in s.channels
  {
    var c := s.channels[id];
    if ClosedHistory(c) || HasResult(c) then s
    else s.(channels := s.channels[id := c.(history := c.history + [Sent(r)])])
  }

  function Apply(s: State, step: Step): State
    requires Enabled(s, step)
  {
    match step
    case Call(id) =>
      if s.closed then s.(callers := s.callers[id := Returned(StreamClosed)])
      else s.(pending := s.pending + {id}, channels := s.channels[id := Channel([], false)],
              callers := s.callers[id := Sending])
    case Written(id) => s.(callers := s.callers[id := Waiting])
    case WriteFails(id) => s.(callers := s.callers[id := Removing(SendFailed)])
    case Expires(id) => s.(callers := s.callers[id := Removing(TimedOut)])
    case Cancels(id) => s.(callers := s.callers[id := Removing(ContextDone)])
    case Remove(id) => s.(pending := s.pending - {id}, callers := s.callers[id := Returned(s.callers[id].outcome)])
    case Receive(id) =>
      var c := s.channels[id];
      if HasResult(c) then
        s.(channels := s.channels[id := c.(received := true)],
           callers := s.callers[id := Returned(Got(c.history[0].result))])
      else s.(callers := s.callers[id := Returned(StreamClosed)])
    case ReadResult(r) =>
      if r.id in s.pending then s.(pending := s.pending - {r.id}, reader := Delivering(r.id, r)) else s
    case Deliver => Push(s, s.reader.id, s.reader.result).(reader := Receiving)
    case StreamDies => FailAll(s).(reader := Gone)
    case Close => FailAll(s)
    case CloseChannel(id) =>
      var c := s.channels[id];
      s.(failing := s.failing - {id},
         channels := s.channels[id := c.(history := c.history + [Closed])])
  }

  const INITIAL := State({}, false, {}, map[], map[], Receiving)

  ghost predicate IsRun(run: seq<State>, steps: seq<Step>) {
    && |run| == |steps| + 1 && run[0] == INITIAL
    && forall i | 0 <= i < |steps| :: Enabled(run[i], steps[i]) && run[i + 1] == Apply(run[i], steps[i])
  }

  // ---------------------------------------------------------------- ownership

  predicate InDelivery(s: State, id: CommandId) { s.reader.Delivering? && s.reader.id == id }

  /** Somebody still holds the right to act on the channel: the map, the reader or the failing stream. */
  predicate Held(s: State, id: CommandId) { id in s.pending || id in s.failing || InDelivery(s, id) }

  ghost predicate ChannelInv(s: State, id: CommandId)
    requires id in s.channels
  {
    var c := s.channels[id];
    && id in s.callers
    && |c.history| <= 1
    && (Held(s, id) ==> c.history == [])
    && (c.received ==> c.history != [])
    && (|c.history| == 1 && c.history[0].Sent? ==> c.history[0].result.id == id)
    && !(id in s.pending && id in s.failing)
    && !(InDelivery(s, id) && (id in s.pending || id in s.failing))
  }

  ghost predicate CallerInv(s: State, id: CommandId)
    requires id in s.callers
  {
    match s.callers[id]
    case Sending => id in s.channels && (Held(s, id) || HasResult(s.channels[id]) || IsClosed(s.channels[id]))
    case Waiting => id in s.channels && (Held(s, id) || HasResult(s.channels[id]) || IsClosed(s.channels[id]))
    case Removing(o) => !o.Got?
    case Returned(o) => o.Got? ==> o.result.id == id
  }

  ghost predicate Inv(s: State) {
    && s.pending <= s.channels.Keys && s.failing <= s.channels.Keys
    && (s.reader.Delivering? ==> s.reader.id in s.channels && s.reader.result.id == s.reader.id)
    && (s.closed ==> s.pending == {})
    && (!s.closed ==> s.failing == {})
    && (forall id | id in s.channels :: ChannelInv(s, id))
    && (forall id | id in s.callers :: CallerInv(s, id))
  }

  lemma CallKeepsInv(s: State, id: CommandId)
    requires Inv(s) && Enabled(s, Call(id))
    ensures Inv(Apply(s, Call(id)))
  {
    var s' := Apply(s, Call(id));
    assert forall x | x in s.channels :: ChannelInv(s, x);
    assert forall x | x in s.callers :: CallerInv(s, x);
    assert id !in s.channels;
    forall x | x in s'.channels ensures ChannelInv(s', x) {}
    forall x | x in s'.callers ensures CallerInv(s', x) {}
  }

  lemma CallerMoveKeepsInv(s: State, step: Step)
    requires Inv(s) && Enabled(s, step)
    requires step.Written? || step.WriteFails? || step.Expires? || step.Cancels?
    ensures Inv(Apply(s, step))
  {
    var s' := Apply(s, step);
    assert CallerInv(s, step.id);
    forall x | x in s'.channels ensures ChannelInv(s', x) { assert ChannelInv(s, x); }
    forall x | x in s'.callers ensures CallerInv(s', x) { assert CallerInv(s, x); }
  }

  lemma CallerReturnKeepsInv(s: State, step: Step)
    requires Inv(s) && Enabled(s, step) && (step.Remove? || step.Receive?)
    ensures Inv(Apply(s, step))
  {
    var s' := Apply(s, step);
    assert CallerInv(s, step.id);
    forall x | x in s'.channels ensures ChannelInv(s', x) { assert ChannelInv(s, x); }
    forall x | x in s'.callers ensures CallerInv(s', x) {
      assert CallerInv(s, x);
      if x in s.channels { assert ChannelInv(s, x); }
    }
  }

  lemma ReaderStepKeepsInv(s: State, step: Step)
    requires Inv(s) && Enabled(s, step) && (step.ReadResult? || step.Deliver?)
    ensures Inv(Apply(s, step))
  {
    var s' := Apply(s, step);
    if step.Deliver? { assert ChannelInv(s, s.reader.id); }
    forall x | x in s'.channels ensures ChannelInv(s', x) { assert ChannelInv(s, x); }
    forall x | x in s'.callers ensures CallerInv(s', x) { assert CallerInv(s, x); }
  }

  lemma FailStepKeepsInv(s: State, step: Step)
    requires Inv(s) && Enabled(s, step) && (step.StreamDies? || step.Close? || step.CloseChannel?)
    ensures Inv(Apply(s, step))
  {
    var s' := Apply(s, step);
    if step.CloseChannel? { assert ChannelInv(s, step.id); }
    forall x | x in s'.channels ensures ChannelInv(s', x) { assert ChannelInv(s, x); }
    forall x | x in s'.callers ensures CallerInv(s', x) { assert CallerInv(s, x); }
  }

  lemma StepKeepsInv(s: State, step: Step)
    requires Inv(s) && Enabled(s, step)
    ensures Inv(Apply(s, step))
  {
    match step
    case Call(id) => CallKeepsInv(s, id);
    case ReadResult(_) => ReaderStepKeepsInv(s, step);
    case Deliver => ReaderStepKeepsInv(s, step);
    case StreamDies => FailStepKeepsInv(s, step);
    case Close => FailStepKeepsInv(s, step);
    case CloseChannel(_) => FailStepKeepsInv(s, step);
    case Remove(_) => CallerReturnKeepsInv(s, step);
    case Receive(_) => CallerReturnKeepsInv(s, step);
    case _ => CallerMoveKeepsInv(s, step);
  }

  /** A send on a closed channel, or a second close of it. */
  predicate Panics(s: State, step: Step) {
    || (step.Deliver? && s.reader.Delivering? && s.reader.id in s.channels && Closed in s.channels[s.reader.id].history)
    || (step.CloseChannel? && step.id in s.channels && Closed in s.channels[step.id].history)
  }

  lemma NobodyPanics(s: State, step: Step)
    requires Inv(s) && Enabled(s, step)
    ensures !Panics(s, step)
  {
    if step.Deliver? { assert ChannelInv(s, s.reader.id); }
    if step.CloseChannel? { assert ChannelInv(s, step.id); }
  }

  lemma {:induction false} RunKeepsInv(run: seq<State>, steps: seq<Step>, n: nat)
    requires IsRun(run, steps) && n < |run|
    ensures Inv(run[n])
  {
    if n > 0 {
      RunKeepsInv(run, steps, n - 1);
      StepKeepsInv(run[n - 1], steps[n - 1]);
    }
  }

  /**
   In every interleaving each waiter's channel gets at most one operation, a single send or
   a single close, never both; and a call returns only a result that carries its own id.
   */
  lemma WaiterIsOwnedOnce(run: seq<State>, steps: seq<Step>, id: CommandId)
    requires IsRun(run, steps)
    ensures forall i | 0 <= i < |steps| :: !Panics(run[i], steps[i])
    ensures var s := run[|steps|];
            && (id in s.channels ==> |s.channels[id].history| <= 1)
            && (id in s.callers && s.callers[id].Returned? && s.callers[id].outcome.Got? ==>
                  s.callers[id].outcome.result.id == id)
  {
    forall i | 0 <= i < |steps| ensures !Panics(run[i], steps[i]) {
      RunKeepsInv(run, steps, i);
      NobodyPanics(run[i], steps[i]);
    }
    RunKeepsInv(run, steps, |steps|);
    var s := run[|steps|];
    if id in s.channels { assert ChannelInv(s, id); }
    if id in s.callers { assert CallerInv(s, id); }
  }

  /**
   No waiter is left behind: once the stream has been failed nothing is pending, and when
   the closing loop and the reader are done every waiting call can return.
   */
  lemma NoWaiterLeftBehind(run: seq<State>, steps: seq<Step>, id: CommandId)
    requires IsRun(run, steps) && run[|steps|].closed
    ensures run[|steps|].pending == {}
    ensures var s := run[|steps|];
            At(s, id, Waiting) && s.failing == {} && !s.reader.Delivering? ==> Enabled(s, Receive(id))
  {
    RunKeepsInv(run, steps, |steps|);
    var s := run[|steps|];
    if At(s, id, Waiting) { assert CallerInv(s, id); }
  }

  /** The closing loop can close every channel it holds, and a call waiting on one then returns. */
  lemma ClosingReachesWaiters(s: State, id: CommandId)
    requires Inv(s) && id in s.failing && At(s, id, Waiting)
    ensures Enabled(s, CloseChannel(id)) && id !in Apply(s, CloseChannel(id)).failing
    ensures var t := Apply(s, CloseChannel(id));
            Enabled(t, Receive(id)) && At(Apply(t, Receive(id)), id, Returned(StreamClosed))
  {
    assert ChannelInv(s, id);
  }

  /** Before that, a waiting call is always still held by somebody or already answered. */
  lemma WaiterIsNeverForgotten(run: seq<State>, steps: seq<Step>, id: CommandId)
    requires IsRun(run, steps) && At(run[|steps|], id, Waiting)
    ensures Held(run[|steps|], id) <==> !Enabled(run[|steps|], Receive(id))
  {
    RunKeepsInv(run, steps, |steps|);
    var s := run[|steps|];
    assert CallerInv(s, id);
    assert ChannelInv(s, id);
  }

  /** Nothing that a driver sends after the stream was failed can reach a call. */
  lemma LateResultIsIgnored(run: seq<State>, steps: seq<Step>, r: CommandResult)
    requires IsRun(run, steps) && run[|steps|].closed && Enabled(run[|steps|], ReadResult(r))
    ensures Apply(run[|steps|], ReadResult(r)) == run[|steps|]
  {
    RunKeepsInv(run, steps, |steps|);
  }

  // ---------------------------------------------------------------- why a call returned

  /** The steps taken before state `n` of a run. */
  function Past(steps: seq<Step>, n: nat): set<Step>
    requires n <= |steps|
  {
    set i | 0 <= i < n :: steps[i]
  }

  lemma PastGrows(steps: seq<Step>, n: nat)
    requires n < |steps|
    ensures Past(steps, n + 1) == Past(steps, n) + {steps[n]}
  {
  }

  /** What must have happened for a call to be leaving with this outcome. */
  predicate Caused(past: set<Step>, s: State, id: CommandId, o: SendOutcome) {
    match o
    case Got(r) => r.id == id && ReadResult(r) in past
    case StreamClosed => s.closed
    case SendFailed => WriteFails(id) in past
    case TimedOut => Expires(id) in past
    case ContextDone => Cancels(id) in past
  }

  /** The call is on its way out, or out, with this outcome. */
  predicate Leaves(s: State, id: CommandId, o: SendOutcome) { At(s, id, Removing(o)) || At(s, id, Returned(o)) }

  ghost predicate SourcedChannel(past: set<Step>, s: State, id: CommandId)
    requires id in s.channels
  {
    && (forall r | Sent(r) in s.channels[id].history :: ReadResult(r) in past)
    && (Closed in s.channels[id].history ==> s.closed)
  }

  /** Results held anywhere were read from the stream; a closed channel means a failed stream. */
  ghost predicate Sourced(past: set<Step>, s: State) {
    && (s.reader.Delivering? ==> ReadResult(s.reader.result) in past)
    && (forall id | id in s.channels :: SourcedChannel(past, s, id))
  }

  lemma StepIsSourced(past: set<Step>, s: State, step: Step)
    requires Inv(s) && Enabled(s, step) && Sourced(past, s)
    ensures Sourced(past + {step}, Apply(s, step))
  {
    var s' := Apply(s, step);
    forall id | id in s'.channels ensures SourcedChannel(past + {step}, s', id) {
      if id in s.channels { assert SourcedChannel(past, s, id); }
    }
  }

  lemma ReceiveHasCause(past: set<Step>, s: State, id: CommandId)
    requires Inv(s) && Enabled(s, Receive(id)) && Sourced(past, s)
    ensures var o := Apply(s, Receive(id)).callers[id];
            o.Returned? && Caused(past, s, id, o.outcome)
  {
    assert ChannelInv(s, id) && SourcedChannel(past, s, id);
    assert s.channels[id].history[0] in s.channels[id].history;
  }

  /** Nobody leaves without a cause. */
  ghost predicate AllCaused(past: set<Step>, s: State) {
    forall id, o | Leaves(s, id, o) :: Caused(past, s, id, o)
  }

  lemma StepHasCause(past: set<Step>, s: State, step: Step)
    requires Inv(s) && Enabled(s, step) && Sourced(past, s) && AllCaused(past, s)
    ensures AllCaused(past + {step}, Apply(s, step))
  {
    if step.Receive? { ReceiveHasCause(past, s, step.id); }
    forall id, o | Leaves(Apply(s, step), id, o) ensures Caused(past + {step}, Apply(s, step), id, o) {
      if Leaves(s, id, o) { assert Caused(past, s, id, o); }
    }
  }

  lemma {:induction false} RunIsSourced(run: seq<State>, steps: seq<Step>, n: nat)
    requires IsRun(run, steps) && n < |run|
    ensures Sourced(Past(steps, n), run[n]) && AllCaused(Past(steps, n), run[n])
  {
    if n > 0 {
      RunIsSourced(run, steps, n - 1);
      RunKeepsInv(run, steps, n - 1);
      StepIsSourced(Past(steps, n - 1), run[n - 1], steps[n - 1]);
      StepHasCause(Past(steps, n - 1), run[n - 1], steps[n - 1]);
      PastGrows(steps, n - 1);
    }
  }

  /**
   Over every run a call leaves with an outcome exactly for the reason that stands for it: a
   result read for its own id, a failed stream, a failed write, its expiry or its cancellation.
   */
  lemma OutcomeHasCause(run: seq<State>, steps: seq<Step>, id: CommandId, o: SendOutcome)
    requires IsRun(run, steps) && Leaves(run[|steps|], id, o)
    ensures Caused(Past(steps, |steps|), run[|steps|], id, o)
  {
    RunIsSourced(run, steps, |steps|);
  }

  lemma LeavesFor(s: State, step: Step, id: CommandId, o: SendOutcome)
    requires Enabled(s, step) && Leaves(s, id, o)
    ensures Leaves(Apply(s, step), id, o)
  {
  }

  /** A failed write, an expiry and a cancellation settle the outcome for good. */
  lemma {:induction false} CauseSettles(
    run: seq<State>, steps: seq<Step>, k: nat, n: nat, id: CommandId, o: SendOutcome)
    requires IsRun(run, steps) && k < n < |run|
    requires || (steps[k] == WriteFails(id) && o == SendFailed)
             || (steps[k] == Expires(id) && o == TimedOut)
             || (steps[k] == Cancels(id) && o == ContextDone)
    ensures Leaves(run[n], id, o)
  {
    if k < n - 1 {
      CauseSettles(run, steps, k, n - 1, id, o);
      LeavesFor(run[n - 1], steps[n - 1], id, o);
    }
  }

  /** A result that finds its call waiting is what the call returns, unless it has left by then. */
  lemma ResultIsReturned(s: State, r: CommandResult)
    requires Inv(s) && Enabled(s, ReadResult(r)) && r.id in s.pending && At(s, r.id, Waiting)
    ensures var read := Apply(s, ReadResult(r));
            && Enabled(read, Deliver) && Enabled(Apply(read, Deliver), Receive(r.id))
            && At(Apply(Apply(read, Deliver), Receive(r.id)), r.id, Returned(Got(r)))
  {
    assert ChannelInv(s, r.id);
  }
}
