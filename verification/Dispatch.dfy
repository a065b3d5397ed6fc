/**
 Command dispatch and its two log entries. A command_issued entry is appended before the
 command goes on the wire and a command_ack entry after SendCommand returns, however it
 returns. Log entries are labelled here with the dispatch that wrote them; the real entries
 name only the entity.
 */
module Dispatch {
  import opened Basics
  import Correlation

  type SendOutcome = Correlation.SendOutcome
  type CommandResult = Correlation.CommandResult

  // ---------------------------------------------------------------- errors

  /** Go errors as far as errors.Is and Error() can tell them apart. */
  datatype Error =
    | Canceled
    | DeadlineExceeded
    | ErrStreamClosed
    | ErrDispatchTimeout
    | ErrContextCanceled
    | ErrInstanceNotRunning
    | ErrEntityUnknown
    | Other(text: string)
    | Wrapped(prefix: string, inner: Error)

  predicate Is(e: Error, target: Error) {
    e == target || (e.Wrapped? && Is(e.inner, target))
  }

  function Text(e: Error): string {
    match e
    case Canceled => "context canceled"
    case DeadlineExceeded => "context deadline exceeded"
    case ErrStreamClosed => "carport: driver stream closed"
    case ErrDispatchTimeout => "carport: dispatch timeout"
    case ErrContextCanceled => "carport: context canceled"
    case ErrInstanceNotRunning => "carport: driver instance not running"
    case ErrEntityUnknown => "carport: entity unknown"
    case Other(text) => text
    case Wrapped(prefix, inner) => prefix + Text(inner)
  }

  function MapSendError(e: Error): Error {
    if Is(e, Canceled) then ErrContextCanceled
    else if Is(e, DeadlineExceeded) then ErrDispatchTimeout
    else if Is(e, ErrStreamClosed) then ErrStreamClosed
    else if Is(e, ErrDispatchTimeout) then ErrDispatchTimeout
    else e
  }

  /** The error at the bottom of a chain of wrappings. */
  function Root(e: Error): (r: Error)
    ensures !r.Wrapped?
  {
    if e.Wrapped? then Root(e.inner) else e
  }

  /** A target that wraps nothing is found in a chain exactly at its bottom. */
  lemma {:induction false} IsAtRoot(e: Error, target: Error)
    requires !target.Wrapped?
    ensures Is(e, target) <==> Root(e) == target
  {
    if e.Wrapped? { IsAtRoot(e.inner, target); }
  }

  /** What SendCommand returned: the failed write's and the context's own errors come with it. */
  datatype Reply = Answered(result: CommandResult) | Failed(error: Error)

  function ReplyOf(o: SendOutcome, writeError: Error, contextError: Error): Reply {
    match o
    case Got(r) => Answered(r)
    case StreamClosed => Failed(ErrStreamClosed)
    case SendFailed => Failed(Wrapped("send command: ", writeError))
    case TimedOut => Failed(ErrDispatchTimeout)
    case ContextDone => Failed(contextError)
  }

  datatype AckBody = AckBody(success: bool, message: string)

  function AckOf(reply: Reply): AckBody {
    match reply
    case Answered(r) => AckBody(r.ok, r.message)
    case Failed(e) =>
      var mapped := MapSendError(e);
      if Is(mapped, ErrDispatchTimeout) then AckBody(false, "dispatch timeout")
      else if Is(mapped, ErrContextCanceled) then AckBody(false, "context canceled")
      else if Is(mapped, ErrStreamClosed) then AckBody(false, "driver stream closed")
      else AckBody(false, Text(e))
  }

  /**
   The ack of a failure depends only on the bottom error, so no amount of wrapping changes
   how it is classified; only an unclassified error shows its own text.
   */
  lemma AckByRoot(e: Error)
    ensures AckOf(Failed(e)) ==
            match Root(e) {
              case Canceled => AckBody(false, "context canceled")
              case ErrContextCanceled => AckBody(false, "context canceled")
              case DeadlineExceeded => AckBody(false, "dispatch timeout")
              case ErrDispatchTimeout => AckBody(false, "dispatch timeout")
              case ErrStreamClosed => AckBody(false, "driver stream closed")
              case _ => AckBody(false, Text(e))
            }
  {
    IsAtRoot(e, Canceled);
    IsAtRoot(e, DeadlineExceeded);
    IsAtRoot(e, ErrStreamClosed);
    IsAtRoot(e, ErrDispatchTimeout);
    IsAtRoot(e, ErrContextCanceled);
  }

  /** What a caller of Dispatch gets: the classified errors as sentinels, any other one as it was. */
  lemma MapByRoot(e: Error)
    ensures MapSendError(e) ==
            match Root(e) {
              case Canceled => ErrContextCanceled
              case DeadlineExceeded => ErrDispatchTimeout
              case ErrDispatchTimeout => ErrDispatchTimeout
              case ErrStreamClosed => ErrStreamClosed
              case _ => e
            }
  {
    IsAtRoot(e, Canceled);
    IsAtRoot(e, DeadlineExceeded);
    IsAtRoot(e, ErrStreamClosed);
    IsAtRoot(e, ErrDispatchTimeout);
  }

  /** Mapping twice is mapping once, and the mapped error is one a caller can test for. */
  lemma MapIsIdempotent(e: Error)
    ensures MapSendError(MapSendError(e)) == MapSendError(e)
    ensures forall t | t in {Canceled, DeadlineExceeded} :: !Is(MapSendError(e), t)
  {
    IsAtRoot(MapSendError(e), Canceled);
    IsAtRoot(MapSendError(e), DeadlineExceeded);
    IsAtRoot(MapSendError(e), ErrStreamClosed);
    IsAtRoot(MapSendError(e), ErrDispatchTimeout);
  }

  /** Every way SendCommand can return, and what the ack then says. */
  lemma AckOfEveryOutcome(o: SendOutcome, writeError: Error, contextError: Error)
    requires contextError == Canceled || contextError == DeadlineExceeded
    ensures var ack := AckOf(ReplyOf(o, writeError, contextError));
            && (ack.success <==> o.Got? && o.result.ok)
            && (o.Got? ==> ack.message == o.result.message)
            && (o.StreamClosed? ==> ack.message == "driver stream closed")
            && (o.TimedOut? ==> ack.message == "dispatch timeout")
            && (o.ContextDone? && contextError == Canceled ==> ack.message == "context canceled")
            && (o.ContextDone? && contextError == DeadlineExceeded ==> ack.message == "dispatch timeout")
            && (o.SendFailed? && Root(writeError).Other? ==> ack.message == "send command: " + Text(writeError))
  {
    AckByRoot(Wrapped("send command: ", writeError));
    AckByRoot(contextError);
  }

  // ---------------------------------------------------------------- the protocol

  type DispatchId = nat
  type EntityId = string

  datatype Entry =
    | Issued(dispatch: DispatchId, entity: EntityId)
    | Ack(dispatch: DispatchId, entity: EntityId, body: AckBody)

  datatype Stage =
    | Preflight            // routing, instance lookup, state check, issued append
    | Rejected             // returned before anything was logged
    | InFlight             // issued is logged, SendCommand runs
    | Acking(reply: Reply) // SendCommand returned, ack not yet appended
    | Acked(reply: Reply)
    | AckLost(reply: Reply) // the ack append failed, which is only logged

  datatype Call = Call(entity: EntityId, stage: Stage)

  datatype State = State(calls: map<DispatchId, Call>, log: seq<Entry>)

  datatype Step =
    | Begin(d: DispatchId, entity: EntityId)
    | Reject(d: DispatchId)               // unknown entity, instance not running, or the append failed
    | AppendIssued(d: DispatchId)
    | SendReturns(d: DispatchId, outcome: SendOutcome, writeError: Error, contextError: Error)
    | AppendAck(d: DispatchId)
    | LoseAck(d: DispatchId)

  predicate Enabled(s: State, step: Step) {
    match step
    case Begin(d, _) => d !in s.calls
    case Reject(d) => d in s.calls && s.calls[d].stage.Preflight?
    case AppendIssued(d) => d in s.calls && s.calls[d].stage.Preflight?
    case SendReturns(d, _, _, _) => d in s.calls && s.calls[d].stage.InFlight?
    case AppendAck(d) => d in s.calls && s.calls[d].stage.Acking?
    case LoseAck(d) => d in s.calls && s.calls[d].stage.Acking?
  }

  function Move(s: State, d: DispatchId, stage: Stage): State
    requires d in s.calls
  {
    s.(calls := s.calls[d := s.calls[d].(stage := stage)])
  }

  function Next(s: State, step: Step): State
    requires Enabled(s, step)
  {
    match step
    case Begin(d, e) => s.(calls := s.calls[d := Call(e, Preflight)])
    case Reject(d) => Move(s, d, Rejected)
    case AppendIssued(d) => Move(s, d, InFlight).(log := s.log + [Issued(d, s.calls[d].entity)])
    case SendReturns(d, o, w, c) => Move(s, d, Acking(ReplyOf(o, w, c)))
    case AppendAck(d) =>
      var c := s.calls[d];
      Move(s, d, Acked(c.stage.reply)).(log := s.log + [Ack(d, c.entity, AckOf(c.stage.reply))])
    case LoseAck(d) => Move(s, d, AckLost(s.calls[d].stage.reply))
  }

  const NOTHING_YET := State(map[], [])

  ghost predicate IsRun(run: seq<State>, steps: seq<Step>) {
    && |run| == |steps| + 1 && run[0] == NOTHING_YET
    && forall i | 0 <= i < |steps| :: Enabled(run[i], steps[i]) && run[i + 1] == Next(run[i], steps[i])
  }

  /** The entries one dispatch wrote, in order. */
  function Written(log: seq<Entry>, d: DispatchId): seq<Entry> {
    if log == [] then [] else
      var rest := Written(log[..|log| - 1], d);
      if log[|log| - 1].dispatch == d then rest + [log[|log| - 1]] else rest
  }

  lemma WrittenGrows(log: seq<Entry>, x: Entry, d: DispatchId)
    ensures Written(log + [x], d) == if x.dispatch == d then Written(log, d) + [x] else Written(log, d)
  {
    assert (log + [x])[..|log|] == log;
  }

  /** What a dispatch must have logged by each stage. */
  function Owed(d: DispatchId, c: Call): seq<Entry> {
    match c.stage
    case Preflight => []
    case Rejected => []
    case InFlight => [Issued(d, c.entity)]
    case Acking(_) => [Issued(d, c.entity)]
    case Acked(r) => [Issued(d, c.entity), Ack(d, c.entity, AckOf(r))]
    case AckLost(_) => [Issued(d, c.entity)]
  }

  ghost predicate Disciplined(s: State) {
    forall d: DispatchId :: LogsOwed(s, d)
  }

  ghost predicate LogsOwed(s: State, d: DispatchId) {
    Written(s.log, d) == if d in s.calls then Owed(d, s.calls[d]) else []
  }

  lemma IssuedLogsOwed(s: State, d: DispatchId, x: DispatchId)
    requires LogsOwed(s, d) && Enabled(s, AppendIssued(x))
    ensures LogsOwed(Next(s, AppendIssued(x)), d)
  {
    WrittenGrows(s.log, Issued(x, s.calls[x].entity), d);
  }

  lemma AckLogsOwed(s: State, d: DispatchId, x: DispatchId)
    requires LogsOwed(s, d) && Enabled(s, AppendAck(x))
    ensures LogsOwed(Next(s, AppendAck(x)), d)
  {
    var c := s.calls[x];
    WrittenGrows(s.log, Ack(x, c.entity, AckOf(c.stage.reply)), d);
    JoinedOwed(x, c);
  }

  lemma QuietLogsOwed(s: State, step: Step, d: DispatchId)
    requires LogsOwed(s, d) && Enabled(s, step) && !step.AppendIssued? && !step.AppendAck?
    ensures LogsOwed(Next(s, step), d)
  {
    assert Next(s, step).log == s.log;
    if d != step.d { assert d in Next(s, step).calls <==> d in s.calls; }
  }

  lemma StepLogsOwed(s: State, step: Step, d: DispatchId)
    requires LogsOwed(s, d) && Enabled(s, step)
    ensures LogsOwed(Next(s, step), d)
  {
    match step
    case AppendIssued(x) => IssuedLogsOwed(s, d, x);
    case AppendAck(x) => AckLogsOwed(s, d, x);
    case _ => QuietLogsOwed(s, step, d);
  }

  lemma JoinedOwed(d: DispatchId, c: Call)
    requires c.stage.Acking?
    ensures Owed(d, c) + [Ack(d, c.entity, AckOf(c.stage.reply))] == Owed(d, c.(stage := Acked(c.stage.reply)))
  {
  }

  lemma StepIsDisciplined(s: State, step: Step)
    requires Disciplined(s) && Enabled(s, step)
    ensures Disciplined(Next(s, step))
  {
    forall d: DispatchId ensures LogsOwed(Next(s, step), d) {
      assert LogsOwed(s, d);
      StepLogsOwed(s, step, d);
    }
  }

  /**
   Over every run of concurrent dispatches each one has logged exactly what its stage owes:
   nothing before or without an issued append, one issued entry while in between, and an
   issued entry followed by the one ack of its own reply once acked.
   */
  lemma {:induction false} EachDispatchLogs(run: seq<State>, steps: seq<Step>, n: nat)
    requires IsRun(run, steps) && n < |run|
    ensures Disciplined(run[n])
  {
    if n > 0 {
      EachDispatchLogs(run, steps, n - 1);
      StepIsDisciplined(run[n - 1], steps[n - 1]);
    }
  }

  // ---------------------------------------------------------------- INV-1

  function Issues(log: seq<Entry>, e: EntityId): nat {
    if log == [] then 0 else
      Issues(log[..|log| - 1], e) + if log[|log| - 1].Issued? && log[|log| - 1].entity == e then 1 else 0
  }

  function Acks(log: seq<Entry>, e: EntityId): nat {
    if log == [] then 0 else
      Acks(log[..|log| - 1], e) + if log[|log| - 1].Ack? && log[|log| - 1].entity == e then 1 else 0
  }

  function Between(s: State, e: EntityId): set<DispatchId> {
    set d | d in s.calls && s.calls[d].entity == e && (s.calls[d].stage.InFlight? || s.calls[d].stage.Acking?)
  }

  function Lost(s: State, e: EntityId): set<DispatchId> {
    set d | d in s.calls && s.calls[d].entity == e && s.calls[d].stage.AckLost?
  }

  lemma CountGrows(log: seq<Entry>, x: Entry, e: EntityId)
    ensures Issues(log + [x], e) == Issues(log, e) + if x.Issued? && x.entity == e then 1 else 0
    ensures Acks(log + [x], e) == Acks(log, e) + if x.Ack? && x.entity == e then 1 else 0
  {
    assert (log + [x])[..|log|] == log;
  }

  ghost predicate Balanced(s: State, e: EntityId) {
    Issues(s.log, e) == Acks(s.log, e) + |Between(s, e)| + |Lost(s, e)|
  }

  /** How one step moves the two sets. */
  lemma StepMovesSets(s: State, step: Step, e: EntityId)
    requires Enabled(s, step)
    ensures var s' := Next(s, step);
            var here := step.d in s.calls && s.calls[step.d].entity == e;
            && Between(s', e) == (if here && step.AppendIssued? then Between(s, e) + {step.d}
                                  else if here && (step.AppendAck? || step.LoseAck?) then Between(s, e) - {step.d}
                                  else Between(s, e))
            && Lost(s', e) == (if here && step.LoseAck? then Lost(s, e) + {step.d} else Lost(s, e))
            && (here && step.AppendIssued? ==> step.d !in Between(s, e))
            && (here && (step.AppendAck? || step.LoseAck?) ==> step.d in Between(s, e))
            && (here && step.LoseAck? ==> step.d !in Lost(s, e))
  {
  }

  lemma StepKeepsBalance(s: State, step: Step, e: EntityId)
    requires Balanced(s, e) && Enabled(s, step)
    ensures Balanced(Next(s, step), e)
  {
    StepMovesSets(s, step, e);
    if step.AppendIssued? || step.AppendAck? { CountGrows(s.log, Next(s, step).log[|s.log|], e); }
  }

  lemma {:induction false} RunKeepsBalance(run: seq<State>, steps: seq<Step>, n: nat, e: EntityId)
    requires IsRun(run, steps) && n < |run|
    ensures Balanced(run[n], e)
  {
    if n == 0 {
      assert Between(run[0], e) == {} && Lost(run[0], e) == {};
    } else {
      RunKeepsBalance(run, steps, n - 1, e);
      StepKeepsBalance(run[n - 1], steps[n - 1], e);
    }
  }

  /** No ack append for this entity has failed so far. */
  ghost predicate AcksSucceed(run: seq<State>, steps: seq<Step>, n: nat, e: EntityId)
    requires |run| == |steps| + 1 && n <= |steps|
  {
    forall i | 0 <= i < n && steps[i].LoseAck? && steps[i].d in run[i].calls :: run[i].calls[steps[i].d].entity != e
  }

  lemma {:induction false} LostIffAckFailed(run: seq<State>, steps: seq<Step>, n: nat, e: EntityId)
    requires IsRun(run, steps) && n <= |steps|
    ensures Lost(run[n], e) == {} <==> AcksSucceed(run, steps, n, e)
  {
    if n > 0 {
      LostIffAckFailed(run, steps, n - 1, e);
      StepMovesSets(run[n - 1], steps[n - 1], e);
    }
  }

  /**
   INV-1: for every entity, issued entries minus ack entries equals the dispatches between
   their two appends, in every run, if and only if every ack append for it succeeded.
   */
  lemma IssuedMinusAcks(run: seq<State>, steps: seq<Step>, e: EntityId)
    requires IsRun(run, steps)
    ensures var s := run[|steps|];
            (Issues(s.log, e) - Acks(s.log, e) == |Between(s, e)|) <==> AcksSucceed(run, steps, |steps|, e)
  {
    RunKeepsBalance(run, steps, |steps|, e);
    LostIffAckFailed(run, steps, |steps|, e);
  }

  /** A dispatch can be rejected or issued before it is logged, and afterwards get as far as its ack. */
  lemma DispatchCanFinish(s: State, d: DispatchId, o: SendOutcome, writeError: Error, contextError: Error)
    requires d in s.calls
    ensures s.calls[d].stage.Preflight? ==> Enabled(s, Reject(d)) && Enabled(s, AppendIssued(d))
    ensures s.calls[d].stage.InFlight? ==>
              var back := SendReturns(d, o, writeError, contextError);
              Enabled(s, back) && Enabled(Next(s, back), AppendAck(d))
    ensures s.calls[d].stage.Acking? ==>
              Enabled(s, AppendAck(d)) && Next(s, AppendAck(d)).calls[d].stage == Acked(s.calls[d].stage.reply)
  {
  }

  /** The reply a dispatch acks with is what its own SendCommand returned. */
  lemma {:induction false} ReplyIsKept(run: seq<State>, steps: seq<Step>, k: nat, n: nat)
    requires IsRun(run, steps) && k < n < |run| && steps[k].SendReturns?
    ensures steps[k].d in run[n].calls
    ensures var stage, o := run[n].calls[steps[k].d].stage, steps[k].outcome;
            && (stage.Acking? || stage.Acked? || stage.AckLost?)
            && (o.Got? ==> stage.reply == Answered(o.result))
            && (o.StreamClosed? ==> stage.reply == Failed(ErrStreamClosed))
            && (o.TimedOut? ==> stage.reply == Failed(ErrDispatchTimeout))
            && (o.ContextDone? ==> stage.reply == Failed(steps[k].contextError))
            && (o.SendFailed? ==> stage.reply == Failed(Wrapped("send command: ", steps[k].writeError)))
  {
    assert Enabled(run[n - 1], steps[n - 1]) && run[n] == Next(run[n - 1], steps[n - 1]);
    if k < n - 1 { ReplyIsKept(run, steps, k, n - 1); }
  }

  /** A command is issued, its answer times out and the ack append fails. */
  lemma LostAckRun(e: EntityId) returns (run: seq<State>, steps: seq<Step>)
    ensures IsRun(run, steps)
    ensures run[|steps|] == State(map[0 := Call(e, AckLost(Failed(ErrDispatchTimeout)))], [Issued(0, e)])
  {
    var timedOut := Failed(ErrDispatchTimeout);
    var s1 := State(map[0 := Call(e, Preflight)], []);
    var s2 := State(map[0 := Call(e, InFlight)], [Issued(0, e)]);
    var s3 := State(map[0 := Call(e, Acking(timedOut))], [Issued(0, e)]);
    var s4 := State(map[0 := Call(e, AckLost(timedOut))], [Issued(0, e)]);
    run := [NOTHING_YET, s1, s2, s3, s4];
    steps := [Begin(0, e), AppendIssued(0), SendReturns(0, Correlation.TimedOut, Canceled, Canceled), LoseAck(0)];
    assert Next(s1, steps[1]) == s2 && Next(s2, steps[2]) == s3;
  }

  /** A lost ack unbalances the log: one issued entry, no ack, nothing in between. */
  lemma LostAckUnbalances(e: EntityId) returns (run: seq<State>, steps: seq<Step>)
    ensures IsRun(run, steps) && Between(run[|steps|], e) == {}
    ensures Issues(run[|steps|].log, e) == 1 && Acks(run[|steps|].log, e) == 0
  {
    run, steps := LostAckRun(e);
    CountGrows([], Issued(0, e), e);
    assert [] + [Issued(0, e)] == [Issued(0, e)];
  }

  // ---------------------------------------------------------------- one call

  class Host {
    var log: seq<Entry>

    constructor ()
      ensures log == []
    {
      log := [];
    }

    /** One Dispatch, run alone; what the surroundings answer comes in as parameters. */
    method Dispatch(d: DispatchId, entity: EntityId, routeError: Option<Error>, running: bool,
                    issueError: Option<Error>, outcome: SendOutcome, writeError: Error, contextError: Error,
                    ackStored: bool)
      returns (r: Result<CommandResult, Error>)
      modifies this
      ensures routeError.Some? ==> r == Err(routeError.value)
      ensures routeError.None? && !running ==> r == Err(ErrInstanceNotRunning)
      ensures routeError.None? && running && issueError.Some? ==>
                r == Err(Wrapped("append command_issued: ", issueError.value))
      ensures routeError.Some? || !running || issueError.Some? ==> log == old(log)
      ensures routeError.None? && running && issueError.None? ==>
                var reply := ReplyOf(outcome, writeError, contextError);
                && log == old(log) + [Issued(d, entity)] + (if ackStored then [Ack(d, entity, AckOf(reply))] else [])
                && log == old(log) + Owed(d, Call(entity, if ackStored then Acked(reply) else AckLost(reply)))
                && (outcome.Got? ==> r == Ok(outcome.result))
                && (outcome.StreamClosed? ==> r == Err(ErrStreamClosed))
                && (outcome.TimedOut? ==> r == Err(ErrDispatchTimeout))
                && (outcome.ContextDone? ==> r == Err(MapSendError(contextError)))
                && (outcome.SendFailed? ==> r == Err(MapSendError(Wrapped("send command: ", writeError))))
    {
      if routeError.Some? { return Err(routeError.value); }
      if !running { return Err(ErrInstanceNotRunning); }
      if issueError.Some? { return Err(Wrapped("append command_issued: ", issueError.value)); }
      log := log + [Issued(d, entity)];
      var reply := ReplyOf(outcome, writeError, contextError);
      var ack := AckOf(reply);
      if ackStored { log := log + [Ack(d, entity, ack)]; }
      if reply.Failed? { return Err(MapSendError(reply.error)); }
      return Ok(reply.result);
    }
  }
}
