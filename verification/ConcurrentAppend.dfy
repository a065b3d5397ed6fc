/**
 Appends that overlap. Every attempt at an append or a batch is a transaction of its own, but
 all of them stage into the same pending slot of an in-memory projector, and the deferred
 clean-up of any failing attempt, one that never got the write lock included, empties it. The
 slot is promoted after the commit has already given the write lock away.

 The projector is followed through the rows it has been applied to; projectors share nothing,
 so one stands for each of them. Rows are tagged with the attempt that wrote them.
 */
module ConcurrentAppend {
  import opened Basics
  import opened EventLog
  import AppendStore

  type AttemptId = nat

  datatype Row = Row(attempt: AttemptId, index: nat, event: Event)

  datatype Attempt =
    | Begun                                  // transaction open, write lock not yet taken
    | Writing(rows: seq<Row>, staged: nat)   // holds the write lock; so many of its rows are staged
    | Failing                                // about to run its clean-up
    | RollingBack                            // slot emptied, transaction not yet rolled back
    | Promoting                              // committed, slot not yet promoted
    | Ended(committed: bool)

  datatype State = State(
    attempts: map<AttemptId, Attempt>, writer: Option<AttemptId>, log: seq<Row>,
    seen: seq<Row>,           // rows the projector's current state has been through
    slot: Option<seq<Row>>,   // rows its pending state has been through
    stages: seq<Row>,         // history: every row staged, in order
    dropped: set<Row>)        // history: staged rows that a clean-up threw away

  datatype Step =
    | Begin(a: AttemptId)
    | Insert(a: AttemptId, event: Event)
    | Stage(a: AttemptId)
    | Fail(a: AttemptId)
    | Discard(a: AttemptId)
    | Rollback(a: AttemptId)
    | Commit(a: AttemptId)
    | Promote(a: AttemptId)

  predicate Enabled(s: State, step: Step) {
    if step.Begin? then step.a !in s.attempts
    else
      && step.a in s.attempts
      && var attempt := s.attempts[step.a];
         match step {
           case Insert(_, _) =>
             || (attempt.Begun? && s.writer.None?)
             || (attempt.Writing? && attempt.staged == |attempt.rows|)
           case Stage(_) => attempt.Writing? && attempt.staged < |attempt.rows|
           case Fail(_) => attempt.Begun? || attempt.Writing?
           case Discard(_) => attempt.Failing?
           case Rollback(_) => attempt.RollingBack?
           case Commit(_) => attempt.Writing? && attempt.staged == |attempt.rows|
           case Promote(_) => attempt.Promoting?
         }
  }

  function Move(s: State, a: AttemptId, attempt: Attempt): State { s.(attempts := s.attempts[a := attempt]) }

  function Elements(rows: seq<Row>): set<Row> { set x | x in rows }

  /** Rows in the slot that the current state has not been through. */
  function Pending(s: State): set<Row> {
    if s.slot.Some? then Elements(s.slot.value) - Elements(s.seen) else {}
  }

  /** What the next staged row is applied to. */
  function Base(s: State): seq<Row> { if s.slot.Some? then s.slot.value else s.seen }

  function Apply(s: State, step: Step): State
    requires Enabled(s, step)
  {
    match step
    case Begin(a) => Move(s, a, Begun)
    case Insert(a, e) =>
      var rows := if s.attempts[a].Writing? then s.attempts[a].rows else [];
      Move(s, a, Writing(rows + [Row(a, |rows|, e)], |rows|)).(writer := Some(a))
    case Stage(a) =>
      var w := s.attempts[a];
      var x := w.rows[w.staged];
      Move(s, a, Writing(w.rows, w.staged + 1)).(slot := Some(Base(s) + [x]), stages := s.stages + [x])
    case Fail(a) => Move(s, a, Failing)
    case Discard(a) => Move(s, a, RollingBack).(slot := None, dropped := s.dropped + Pending(s))
    case Rollback(a) => Move(s, a, Ended(false)).(writer := if s.writer == Some(a) then None else s.writer)
    case Commit(a) => Move(s, a, Promoting).(log := s.log + s.attempts[a].rows, writer := None)
    case Promote(a) => Move(s, a, Ended(true)).(seen := Base(s), slot := None)
  }

  const INITIAL := State(map[], None, [], [], None, [], {})

  ghost predicate IsRun(run: seq<State>, steps: seq<Step>) {
    && |run| == |steps| + 1 && run[0] == INITIAL
    && forall i | 0 <= i < |steps| :: Enabled(run[i], steps[i]) && run[i + 1] == Apply(run[i], steps[i])
  }

  // ---------------------------------------------------------------- sub-sequences of the staging order

  /** The staged rows that belong to `keep`, in staging order. */
  function Of(rows: seq<Row>, keep: set<Row>): seq<Row> {
    if rows == [] then [] else
      var rest, x := Of(rows[..|rows| - 1], keep), rows[|rows| - 1];
      if x in keep then rest + [x] else rest
  }

  lemma OfOneMore(rows: seq<Row>, x: Row, keep: set<Row>)
    ensures Of(rows + [x], keep) == Of(rows, keep) + if x in keep then [x] else []
  {
    assert (rows + [x])[..|rows|] == rows;
  }

  lemma {:induction false} OfSame(rows: seq<Row>, k1: set<Row>, k2: set<Row>)
    requires forall x | x in rows :: x in k1 <==> x in k2
    ensures Of(rows, k1) == Of(rows, k2)
  {
    if rows != [] {
      var front := rows[..|rows| - 1];
      assert rows == front + [rows[|rows| - 1]];
      OfSame(front, k1, k2);
    }
  }

  lemma {:induction false} OfMembers(rows: seq<Row>, keep: set<Row>)
    ensures forall x :: x in Of(rows, keep) <==> x in rows && x in keep
  {
    if rows != [] {
      OfMembers(rows[..|rows| - 1], keep);
      assert rows == rows[..|rows| - 1] + [rows[|rows| - 1]];
    }
  }

  lemma {:induction false} OfJoin(a: seq<Row>, b: seq<Row>, keep: set<Row>)
    ensures Of(a + b, keep) == Of(a, keep) + Of(b, keep)
    decreases |b|
  {
    if b == [] {
      assert a + b == a;
    } else {
      var front, x := b[..|b| - 1], b[|b| - 1];
      assert b == front + [x] && a + b == (a + front) + [x];
      OfJoin(a, front, keep);
      OfOneMore(a + front, x, keep);
    }
  }

  lemma {:induction false} OfAll(rows: seq<Row>, keep: set<Row>)
    ensures (forall x | x in rows :: x in keep) ==> Of(rows, keep) == rows
    ensures (forall x | x in rows :: x !in keep) ==> Of(rows, keep) == []
  {
    if rows != [] {
      OfAll(rows[..|rows| - 1], keep);
      assert rows == rows[..|rows| - 1] + [rows[|rows| - 1]];
    }
  }

  // ---------------------------------------------------------------- invariant

  predicate Committed(s: State, a: AttemptId) {
    a in s.attempts && (s.attempts[a].Promoting? || s.attempts[a] == Ended(true))
  }

  /** The attempt may still bring its rows out of the slot, or lose them with it. */
  predicate Unfinished(s: State, a: AttemptId) {
    a in s.attempts && (s.attempts[a].Writing? || s.attempts[a].Failing? || s.attempts[a].Promoting?)
  }

  ghost function CommittedRows(s: State): set<Row> { set x | x in s.stages && Committed(s, x.attempt) }

  /** The projector has been through a part of the staged rows, in staging order. */
  ghost predicate InStagingOrder(s: State) {
    && s.seen == Of(s.stages, Elements(s.seen))
    && (s.slot.Some? ==> s.slot.value == Of(s.stages, Elements(s.slot.value)))
    && (s.slot.Some? ==> Elements(s.seen) <= Elements(s.slot.value))
  }

  /** Every staged row is in exactly one place: seen, pending or dropped. */
  ghost predicate Placed(s: State) {
    && Elements(s.stages) == Elements(s.seen) + Pending(s) + s.dropped
    && Elements(s.seen) !! s.dropped && Pending(s) !! s.dropped
    && forall x | x in Pending(s) :: Unfinished(s, x.attempt)
  }

  /** What the write lock gives: the writer's staged rows are the newest ones. */
  ghost predicate AttemptInv(s: State, a: AttemptId)
    requires a in s.attempts
  {
    match s.attempts[a]
    case Begun => forall x | x in s.stages :: x.attempt != a
    case Writing(rows, staged) =>
      && s.writer == Some(a) && staged <= |rows| <= staged + 1
      && (forall i | 0 <= i < |rows| :: rows[i].attempt == a && rows[i].index == i)
      && staged <= |s.stages| && s.stages[|s.stages| - staged..] == rows[..staged]
      && forall x | x in s.stages[..|s.stages| - staged] :: x.attempt != a
    case _ => true
  }

  ghost predicate LockInv(s: State) {
    && (forall x | x in s.stages :: x.attempt in s.attempts)
    && (forall a | a in s.attempts :: AttemptInv(s, a))
    && (s.writer.Some? ==> s.writer.value in s.attempts && HoldsLock(s.attempts[s.writer.value]))
  }

  predicate HoldsLock(attempt: Attempt) { attempt.Writing? || attempt.Failing? || attempt.RollingBack? }

  /** The log is the committed part of the staging order. */
  ghost predicate LogInv(s: State) { s.log == Of(s.stages, CommittedRows(s)) }

  ghost predicate Inv(s: State) { LockInv(s) && LogInv(s) && InStagingOrder(s) && Placed(s) }

  lemma InsertKeepsLock(s: State, a: AttemptId, e: Event)
    requires LockInv(s) && Enabled(s, Insert(a, e))
    ensures LockInv(Apply(s, Insert(a, e)))
  {
    var s' := Apply(s, Insert(a, e));
    assert AttemptInv(s, a);
    forall b | b in s'.attempts ensures AttemptInv(s', b) {
      assert AttemptInv(s, b);
      if b == a && s.attempts[a].Begun? { assert s.stages[..|s.stages|] == s.stages; }
    }
  }

  /** The row a writer stages next is new. */
  lemma NextRowIsNew(s: State, a: AttemptId)
    requires LockInv(s) && Enabled(s, Stage(a))
    ensures s.attempts[a].rows[s.attempts[a].staged] !in s.stages
  {
    assert AttemptInv(s, a);
    var w, n := s.attempts[a], |s.stages| - s.attempts[a].staged;
    assert s.stages == s.stages[..n] + w.rows[..w.staged];
    assert forall y | y in w.rows[..w.staged] :: y.index < w.staged;
  }

  lemma StageKeepsLock(s: State, a: AttemptId)
    requires LockInv(s) && Enabled(s, Stage(a))
    ensures LockInv(Apply(s, Stage(a)))
  {
    var s' := Apply(s, Stage(a));
    assert AttemptInv(s, a);
    var w, n := s.attempts[a], |s.stages| - s.attempts[a].staged;
    var x := w.rows[w.staged];
    forall b | b in s'.attempts ensures AttemptInv(s', b) {
      assert AttemptInv(s, b);
      if b == a {
        assert s'.stages[..n] == s.stages[..n];
        assert s'.stages[n..] == s.stages[n..] + [x] == w.rows[..w.staged + 1];
      }
    }
  }

  lemma QuietKeepsLock(s: State, step: Step)
    requires LockInv(s) && Enabled(s, step) && !step.Insert? && !step.Stage?
    ensures LockInv(Apply(s, step))
  {
    var s' := Apply(s, step);
    forall b | b in s'.attempts ensures AttemptInv(s', b) {
      if b in s.attempts { assert AttemptInv(s, b); }
      if step.a in s.attempts { assert AttemptInv(s, step.a); }
    }
  }

  lemma StepKeepsLock(s: State, step: Step)
    requires LockInv(s) && Enabled(s, step)
    ensures LockInv(Apply(s, step))
  {
    match step
    case Insert(a, e) => InsertKeepsLock(s, a, e);
    case Stage(a) => StageKeepsLock(s, a);
    case _ => QuietKeepsLock(s, step);
  }

  lemma TailJoins(front: seq<Row>, rows: seq<Row>, k1: set<Row>, k2: set<Row>)
    requires forall x | x in front :: x in k1 <==> x in k2
    requires forall x | x in rows :: x !in k1 && x in k2
    ensures Of(front + rows, k2) == Of(front + rows, k1) + rows
  {
    OfSame(front, k1, k2);
    var kept := Of(front, k1);
    assert Of(front + rows, k1) == kept by {
      OfJoin(front, rows, k1);
      OfAll(rows, k1);
      assert kept + [] == kept;
    }
    assert Of(front + rows, k2) == kept + rows by {
      OfJoin(front, rows, k2);
      OfAll(rows, k2);
    }
  }

  lemma CommitKeepsLog(s: State, a: AttemptId)
    requires LockInv(s) && LogInv(s) && Enabled(s, Commit(a))
    ensures LogInv(Apply(s, Commit(a)))
  {
    var s' := Apply(s, Commit(a));
    assert AttemptInv(s, a);
    var rows, n := s.attempts[a].rows, |s.stages| - |s.attempts[a].rows|;
    var front := s.stages[..n];
    assert s.stages == front + rows && rows[..|rows|] == rows;
    CommitMarks(s, a, front, rows);
    TailJoins(front, rows, CommittedRows(s), CommittedRows(s'));
  }

  lemma CommitMarks(s: State, a: AttemptId, front: seq<Row>, rows: seq<Row>)
    requires Enabled(s, Commit(a)) && s.stages == front + rows
    requires (forall x | x in front :: x.attempt != a) && (forall x | x in rows :: x.attempt == a)
    ensures var s' := Apply(s, Commit(a));
            && (forall x | x in front :: x in CommittedRows(s) <==> x in CommittedRows(s'))
            && (forall x | x in rows :: x !in CommittedRows(s) && x in CommittedRows(s'))
  {
  }

  lemma StepKeepsLog(s: State, step: Step)
    requires LockInv(s) && LogInv(s) && Enabled(s, step)
    ensures LogInv(Apply(s, step))
  {
    if step.Commit? {
      CommitKeepsLog(s, step.a);
    } else if step.Stage? {
      StageKeepsLog(s, step.a);
    } else {
      QuietKeepsLog(s, step);
    }
  }

  lemma StageKeepsLog(s: State, a: AttemptId)
    requires LockInv(s) && LogInv(s) && Enabled(s, Stage(a))
    ensures LogInv(Apply(s, Stage(a)))
  {
    var s', x := Apply(s, Stage(a)), s.attempts[a].rows[s.attempts[a].staged];
    assert AttemptInv(s, a);
    OfOneMore(s.stages, x, CommittedRows(s'));
    OfSame(s.stages, CommittedRows(s), CommittedRows(s'));
  }

  lemma QuietKeepsLog(s: State, step: Step)
    requires LockInv(s) && LogInv(s) && Enabled(s, step) && !step.Commit? && !step.Stage?
    ensures LogInv(Apply(s, step))
  {
    OfSame(s.stages, CommittedRows(s), CommittedRows(Apply(s, step)));
  }

  lemma StageKeepsOrder(s: State, a: AttemptId)
    requires LockInv(s) && InStagingOrder(s) && Elements(s.seen) <= Elements(s.stages)
    requires s.slot.Some? ==> Elements(s.slot.value) <= Elements(s.stages)
    requires Enabled(s, Stage(a))
    ensures InStagingOrder(Apply(s, Stage(a)))
  {
    var s', base := Apply(s, Stage(a)), Base(s);
    var x := s.attempts[a].rows[s.attempts[a].staged];
    NextRowIsNew(s, a);
    OfOneMore(s.stages, x, Elements(s.seen));
    assert x !in Elements(s.stages);
    assert Elements(base + [x]) == Elements(base) + {x};
    OfOneMore(s.stages, x, Elements(base) + {x});
    OfSame(s.stages, Elements(base), Elements(base) + {x});
  }

  lemma StepKeepsOrder(s: State, step: Step)
    requires LockInv(s) && InStagingOrder(s) && Placed(s) && Enabled(s, step)
    ensures InStagingOrder(Apply(s, step))
  {
    if step.Stage? {
      assert s.slot.Some? ==> Elements(s.slot.value) == Elements(s.seen) + Pending(s);
      StageKeepsOrder(s, step.a);
    }
  }

  lemma StageKeepsPlaced(s: State, a: AttemptId)
    requires LockInv(s) && InStagingOrder(s) && Placed(s) && Enabled(s, Stage(a))
    ensures Placed(Apply(s, Stage(a)))
  {
    var s', base := Apply(s, Stage(a)), Base(s);
    assert AttemptInv(s, a);
    var x := s.attempts[a].rows[s.attempts[a].staged];
    NextRowIsNew(s, a);
    assert x !in Elements(s.stages);
    assert Elements(s.stages + [x]) == Elements(s.stages) + {x};
    assert Elements(base + [x]) == Elements(base) + {x};
    assert Pending(s') == Pending(s) + {x};
  }

  lemma StepKeepsPlaced(s: State, step: Step)
    requires LockInv(s) && InStagingOrder(s) && Placed(s) && Enabled(s, step)
    ensures Placed(Apply(s, step))
  {
    if step.Stage? {
      StageKeepsPlaced(s, step.a);
    } else if step.Promote? {
      assert Elements(Base(s)) == Elements(s.seen) + Pending(s);
    } else if !step.Discard? {
      OtherKeepsPlaced(s, step);
    }
  }

  lemma OtherKeepsPlaced(s: State, step: Step)
    requires Placed(s) && Enabled(s, step) && !step.Stage? && !step.Promote? && !step.Discard?
    ensures Placed(Apply(s, step))
  {
    var s' := Apply(s, step);
    assert Pending(s') == Pending(s);
    forall x | x in Pending(s') ensures Unfinished(s', x.attempt) { assert Unfinished(s, x.attempt); }
  }

  lemma StepKeepsInv(s: State, step: Step)
    requires Inv(s) && Enabled(s, step)
    ensures Inv(Apply(s, step))
  {
    StepKeepsLock(s, step);
    StepKeepsLog(s, step);
    StepKeepsOrder(s, step);
    StepKeepsPlaced(s, step);
  }

  lemma {:induction false} RunKeepsInv(run: seq<State>, steps: seq<Step>, n: nat)
    requires IsRun(run, steps) && n < |run|
    ensures Inv(run[n])
  {
    if n > 0 {
      RunKeepsInv(run, steps, n - 1);
      StepKeepsInv(run[n - 1], steps[n - 1]);
    }
  }

  // ---------------------------------------------------------------- what became of a row

  lemma {:induction false} HistoryGrows(run: seq<State>, steps: seq<Step>, m: nat, n: nat)
    requires IsRun(run, steps) && m <= n < |run|
    ensures run[m].dropped <= run[n].dropped && Elements(run[m].seen) <= Elements(run[n].seen)
  {
    if m < n {
      HistoryGrows(run, steps, m, n - 1);
      RunKeepsInv(run, steps, n - 1);
      assert run[n] == Apply(run[n - 1], steps[n - 1]);
    }
  }

  /** Step `i` of the run empties the slot with this row in it. */
  ghost predicate DiscardsAt(run: seq<State>, steps: seq<Step>, i: nat, x: Row)
    requires |run| == |steps| + 1 && i < |steps|
  {
    steps[i].Discard? && x in Pending(run[i])
  }

  /** Step `i` of the run makes this row part of the projector's current state. */
  ghost predicate PromotesAt(run: seq<State>, steps: seq<Step>, i: nat, x: Row)
    requires |run| == |steps| + 1 && i < |steps|
  {
    steps[i].Promote? && x in Pending(run[i])
  }

  lemma {:induction false} DroppedSomewhere(run: seq<State>, steps: seq<Step>, n: nat, x: Row) returns (i: nat)
    requires IsRun(run, steps) && n < |run| && x in run[n].dropped
    ensures i < n && DiscardsAt(run, steps, i, x)
  {
    if x in run[n - 1].dropped {
      i := DroppedSomewhere(run, steps, n - 1, x);
    } else {
      i := n - 1;
    }
  }

  lemma {:induction false} SeenSomewhere(run: seq<State>, steps: seq<Step>, n: nat, x: Row) returns (i: nat)
    requires IsRun(run, steps) && n < |run| && x in run[n].seen
    ensures i < n && PromotesAt(run, steps, i, x)
  {
    if x in run[n - 1].seen {
      i := SeenSomewhere(run, steps, n - 1, x);
    } else {
      i := n - 1;
    }
  }

  // ---------------------------------------------------------------- when log and projector agree

  ghost predicate AtRest(s: State) { forall a | a in s.attempts :: s.attempts[a].Ended? }

  /**
   No clean-up throws away a row whose attempt commits, and no promotion takes in a row whose
   attempt does not.
   */
  ghost predicate Settled(run: seq<State>, steps: seq<Step>)
    requires |run| == |steps| + 1
  {
    && (forall i: nat, x | i < |steps| && DiscardsAt(run, steps, i, x) :: !Committed(run[|steps|], x.attempt))
    && (forall i: nat, x | i < |steps| && PromotesAt(run, steps, i, x) :: Committed(run[|steps|], x.attempt))
  }

  /** A filled slot holds something the current state has not been through: discard and promote empty it. */
  lemma {:induction false} SlotIsEmptied(run: seq<State>, steps: seq<Step>, n: nat)
    requires IsRun(run, steps) && n < |run|
    ensures run[n].slot.Some? ==> Pending(run[n]) != {}
  {
    if n > 0 {
      SlotIsEmptied(run, steps, n - 1);
      RunKeepsInv(run, steps, n - 1);
      StepEmptiesSlot(run[n - 1], steps[n - 1]);
    }
  }

  lemma StepEmptiesSlot(s: State, step: Step)
    requires Inv(s) && Enabled(s, step) && (s.slot.Some? ==> Pending(s) != {})
    ensures Apply(s, step).slot.Some? ==> Pending(Apply(s, step)) != {}
  {
    if step.Stage? {
      NextRowIsNew(s, step.a);
      var x := s.attempts[step.a].rows[s.attempts[step.a].staged];
      OfMembers(s.stages, Elements(s.seen));
      assert x in Apply(s, step).slot.value && x !in s.seen;
      assert x in Pending(Apply(s, step));
    }
  }

  /** At rest nothing is pending, so a staged row was either seen or dropped. */
  lemma RestIsEmpty(s: State)
    requires Inv(s) && AtRest(s)
    ensures Pending(s) == {} && Elements(s.stages) == Elements(s.seen) + s.dropped
  {
    assert forall x | x in Pending(s) :: Unfinished(s, x.attempt);
  }

  /** Seen and log are parts of one order: they are equal exactly when they have the same rows. */
  lemma SameRowsSameOrder(s: State)
    requires Inv(s)
    ensures s.seen == s.log <==> forall x | x in s.stages :: x in s.seen <==> Committed(s, x.attempt)
  {
    OfMembers(s.stages, Elements(s.seen));
    OfMembers(s.stages, CommittedRows(s));
    if forall x | x in s.stages :: x in s.seen <==> Committed(s, x.attempt) {
      OfSame(s.stages, Elements(s.seen), CommittedRows(s));
    }
  }

  lemma SettledSuffices(run: seq<State>, steps: seq<Step>)
    requires IsRun(run, steps) && AtRest(run[|steps|]) && Settled(run, steps)
    ensures run[|steps|].seen == run[|steps|].log
  {
    var s := run[|steps|];
    RunKeepsInv(run, steps, |steps|);
    RestIsEmpty(s);
    forall x | x in s.stages ensures x in s.seen <==> Committed(s, x.attempt) {
      assert x in Elements(s.stages);
      if x in s.seen {
        var i := SeenSomewhere(run, steps, |steps|, x);
      } else {
        var i := DroppedSomewhere(run, steps, |steps|, x);
      }
    }
    SameRowsSameOrder(s);
  }

  lemma DiscardIsFinal(run: seq<State>, steps: seq<Step>, i: nat, x: Row)
    requires IsRun(run, steps) && i < |steps| && DiscardsAt(run, steps, i, x)
    ensures x in run[|steps|].stages && x !in run[|steps|].seen
  {
    assert run[i + 1] == Apply(run[i], steps[i]);
    HistoryGrows(run, steps, i + 1, |steps|);
    RunKeepsInv(run, steps, |steps|);
    assert x in Elements(run[|steps|].stages);
  }

  lemma PromoteIsFinal(run: seq<State>, steps: seq<Step>, i: nat, x: Row)
    requires IsRun(run, steps) && i < |steps| && PromotesAt(run, steps, i, x)
    ensures x in run[|steps|].stages && x in run[|steps|].seen
  {
    assert run[i + 1] == Apply(run[i], steps[i]);
    assert x in Elements(run[i + 1].seen);
    HistoryGrows(run, steps, i + 1, |steps|);
    RunKeepsInv(run, steps, |steps|);
    assert x in Elements(run[|steps|].stages);
  }

  /**
   Over every run of overlapping attempts, with any failures: once all have ended, the
   projector has been through exactly the committed rows, in log order, if and only if no
   clean-up threw away a row of an attempt that committed and no promotion took in a row of
   an attempt that did not.
   */
  lemma AgreesIffSettled(run: seq<State>, steps: seq<Step>)
    requires IsRun(run, steps) && AtRest(run[|steps|])
    ensures run[|steps|].seen == run[|steps|].log <==> Settled(run, steps)
  {
    var s := run[|steps|];
    if s.seen == s.log {
      RunKeepsInv(run, steps, |steps|);
      SameRowsSameOrder(s);
      forall i: nat, x | i < |steps| && DiscardsAt(run, steps, i, x) ensures !Committed(s, x.attempt) {
        DiscardIsFinal(run, steps, i, x);
      }
      forall i: nat, x | i < |steps| && PromotesAt(run, steps, i, x) ensures Committed(s, x.attempt) {
        PromoteIsFinal(run, steps, i, x);
      }
    }
    if Settled(run, steps) { SettledSuffices(run, steps); }
  }

  /** So every projector's state, which depends on the rows alone, is then the fold of the log. */
  lemma StateIsFold<S>(run: seq<State>, steps: seq<Step>, p: AppendStore.Projector<S>)
    requires IsRun(run, steps) && AtRest(run[|steps|]) && Settled(run, steps)
    ensures AppendStore.Fold(p, Events(run[|steps|].seen)) == AppendStore.Fold(p, Events(run[|steps|].log))
  {
    AgreesIffSettled(run, steps);
  }

  function Events(rows: seq<Row>): seq<Event> { seq(|rows|, i requires 0 <= i < |rows| => rows[i].event) }

  // ---------------------------------------------------------------- a guard that can be checked at the step

  /** A clean-up meets only rows of failing attempts in the slot, a promotion only committed ones. */
  ghost predicate Guarded(s: State, step: Step) {
    && (step.Discard? ==> forall x | x in Pending(s) :: Doomed(s, x.attempt))
    && (step.Promote? ==> forall x | x in Pending(s) :: Committed(s, x.attempt))
  }

  predicate Doomed(s: State, a: AttemptId) {
    a in s.attempts && (s.attempts[a].Failing? || s.attempts[a].RollingBack? || s.attempts[a] == Ended(false))
  }

  lemma {:induction false} OutcomeStays(run: seq<State>, steps: seq<Step>, m: nat, n: nat, a: AttemptId)
    requires IsRun(run, steps) && m <= n < |run|
    ensures Doomed(run[m], a) ==> Doomed(run[n], a)
    ensures Committed(run[m], a) ==> Committed(run[n], a)
  {
    if m < n {
      OutcomeStays(run, steps, m, n - 1, a);
      OutcomeNext(run, steps, n, a);
    }
  }

  lemma OutcomeNext(run: seq<State>, steps: seq<Step>, n: nat, a: AttemptId)
    requires IsRun(run, steps) && 0 < n < |run|
    ensures Doomed(run[n - 1], a) ==> Doomed(run[n], a)
    ensures Committed(run[n - 1], a) ==> Committed(run[n], a)
  {
    OutcomeStep(run[n - 1], steps[n - 1], a);
  }

  lemma OutcomeStep(s: State, step: Step, a: AttemptId)
    requires Enabled(s, step)
    ensures Doomed(s, a) ==> Doomed(Apply(s, step), a)
    ensures Committed(s, a) ==> Committed(Apply(s, step), a)
  {
  }

  /** Guarded steps are enough: whatever the attempts still in progress come to, log and projector agree at rest. */
  lemma GuardedRunAgrees(run: seq<State>, steps: seq<Step>)
    requires IsRun(run, steps) && AtRest(run[|steps|])
    requires forall i | 0 <= i < |steps| :: Guarded(run[i], steps[i])
    ensures run[|steps|].seen == run[|steps|].log
  {
    forall i: nat, x | i < |steps| && DiscardsAt(run, steps, i, x) ensures !Committed(run[|steps|], x.attempt) {
      assert Guarded(run[i], steps[i]);
      OutcomeStays(run, steps, i, |steps|, x.attempt);
    }
    forall i: nat, x | i < |steps| && PromotesAt(run, steps, i, x) ensures Committed(run[|steps|], x.attempt) {
      assert Guarded(run[i], steps[i]);
      OutcomeStays(run, steps, i, |steps|, x.attempt);
    }
    AgreesIffSettled(run, steps);
  }

  /** A row of an attempt that has already committed cannot be thrown away without loss, nor a doomed one promoted. */
  lemma UndoneForGood(run: seq<State>, steps: seq<Step>, i: nat, x: Row)
    requires IsRun(run, steps) && AtRest(run[|steps|]) && i < |steps|
    requires (DiscardsAt(run, steps, i, x) && Committed(run[i], x.attempt))
          || (PromotesAt(run, steps, i, x) && Doomed(run[i], x.attempt))
    ensures run[|steps|].seen != run[|steps|].log
  {
    OutcomeStays(run, steps, i, |steps|, x.attempt);
    AgreesIffSettled(run, steps);
  }

  /** At most one attempt is in progress. */
  ghost predicate Serial(s: State) {
    forall a, b | a in s.attempts && b in s.attempts && !s.attempts[a].Ended? && !s.attempts[b].Ended? :: a == b
  }

  /** Attempts that follow one another always agree. */
  lemma SerialRunAgrees(run: seq<State>, steps: seq<Step>)
    requires IsRun(run, steps) && AtRest(run[|steps|])
    requires forall i | 0 <= i < |steps| :: Serial(run[i])
    ensures run[|steps|].seen == run[|steps|].log
  {
    forall i | 0 <= i < |steps| ensures Guarded(run[i], steps[i]) {
      RunKeepsInv(run, steps, i);
      SerialIsGuarded(run[i], steps[i]);
    }
    GuardedRunAgrees(run, steps);
  }

  lemma SerialIsGuarded(s: State, step: Step)
    requires Placed(s) && Serial(s) && Enabled(s, step)
    ensures Guarded(s, step)
  {
    forall x | x in Pending(s) && (step.Discard? || step.Promote?) ensures x.attempt == step.a {
      assert Unfinished(s, x.attempt);
    }
  }

  // ---------------------------------------------------------------- both ways to disagree

  lemma Extend(run: seq<State>, steps: seq<Step>, step: Step) returns (longer: seq<State>, more: seq<Step>)
    requires IsRun(run, steps) && Enabled(run[|steps|], step)
    ensures IsRun(longer, more) && longer[|more|] == Apply(run[|steps|], step)
  {
    longer, more := run + [Apply(run[|steps|], step)], steps + [step];
    forall i | 0 <= i < |more| ensures Enabled(longer[i], more[i]) && longer[i + 1] == Apply(longer[i], more[i]) {
      if i < |steps| { assert longer[i] == run[i] && longer[i + 1] == run[i + 1] && more[i] == steps[i]; }
    }
  }

  /** A new attempt takes the free write lock, inserts one event and stages it. */
  lemma Staged(run: seq<State>, steps: seq<Step>, a: AttemptId, e: Event)
    returns (longer: seq<State>, more: seq<Step>)
    requires IsRun(run, steps) && a !in run[|steps|].attempts && run[|steps|].writer.None?
    ensures IsRun(longer, more)
    ensures var s, x := run[|steps|], Row(a, 0, e);
            longer[|more|] == s.(attempts := s.attempts[a := Writing([x], 1)], writer := Some(a),
                                 slot := Some(Base(s) + [x]), stages := s.stages + [x])
  {
    longer, more := Inserted(run, steps, a, e);
    longer, more := Extend(longer, more, Stage(a));
  }

  lemma Inserted(run: seq<State>, steps: seq<Step>, a: AttemptId, e: Event)
    returns (longer: seq<State>, more: seq<Step>)
    requires IsRun(run, steps) && a !in run[|steps|].attempts && run[|steps|].writer.None?
    ensures IsRun(longer, more)
    ensures var s := run[|steps|];
            longer[|more|] == s.(attempts := s.attempts[a := Writing([Row(a, 0, e)], 0)], writer := Some(a))
  {
    longer, more := Extend(run, steps, Begin(a));
    assert [] + [Row(a, 0, e)] == [Row(a, 0, e)];
    longer, more := Extend(longer, more, Insert(a, e));
  }

  /** An attempt that has not ended or committed fails, cleans up and rolls back. */
  lemma Abandoned(run: seq<State>, steps: seq<Step>, a: AttemptId)
    returns (longer: seq<State>, more: seq<Step>)
    requires IsRun(run, steps) && Enabled(run[|steps|], Fail(a))
    ensures IsRun(longer, more)
    ensures var s := run[|steps|];
            longer[|more|] == s.(attempts := s.attempts[a := Ended(false)], slot := None,
                                 dropped := s.dropped + Pending(s),
                                 writer := if s.writer == Some(a) then None else s.writer)
  {
    longer, more := Extend(run, steps, Fail(a));
    longer, more := Extend(longer, more, Discard(a));
    longer, more := Extend(longer, more, Rollback(a));
  }

  /**
   A second append fails, busy or cancelled, while the first one is inside its transaction:
   its clean-up empties the slot, the first append commits, and its row never reaches the
   projector.
   */
  lemma ForeignDiscardHappens(e: Event) returns (run: seq<State>, steps: seq<Step>)
    ensures IsRun(run, steps) && AtRest(run[|steps|])
    ensures run[|steps|].log == [Row(0, 0, e)] && run[|steps|].seen == []
  {
    run, steps := Staged([INITIAL], [], 0, e);
    run, steps := Extend(run, steps, Begin(1));
    run, steps := Abandoned(run, steps, 1);
    run, steps := Extend(run, steps, Commit(0));
    run, steps := Extend(run, steps, Promote(0));
  }

  /**
   A second append stages between the first one's commit and its promotion: the promotion
   takes the second one's row in, and its later failure does not take it back.
   */
  lemma ForeignPromoteHappens(e: Event) returns (run: seq<State>, steps: seq<Step>)
    ensures IsRun(run, steps) && AtRest(run[|steps|])
    ensures run[|steps|].log == [Row(0, 0, e)] && run[|steps|].seen == [Row(0, 0, e), Row(1, 0, e)]
  {
    run, steps := Staged([INITIAL], [], 0, e);
    run, steps := Extend(run, steps, Commit(0));
    run, steps := Staged(run, steps, 1, e);
    run, steps := Extend(run, steps, Promote(0));
    run, steps := Abandoned(run, steps, 1);
  }
}
