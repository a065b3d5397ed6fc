/**
 Appending to the event log. A transaction inserts events, runs every synchronous
 projector on them, moves the projection cursors and commits; in-memory projectors stage
 their new state, promote it after the commit and discard it when the transaction does not
 commit. Any database or projector operation may fail, and a failure that reads as
 "database busy" is retried up to four times.
 */
module AppendStore {
  import opened Basics
  import opened EventLog

  /** A projector's failing Apply says whether its error text reads as busy. */
  datatype Projector<!S> = Projector(name: string, sync: bool, init: S, apply: (S, Event) -> Result<S, bool>)

  /** What survives a transaction: rows, cursors and every projector's promoted state. */
  datatype Db<S> = Db(events: seq<Event>, cursors: map<string, nat>, committed: seq<S>)

  /** The operation of an attempt that fails, counted from the begin of the transaction. */
  datatype Fault = NoFault | FailsAt(operation: nat, busy: bool)

  datatype Outcome = Committed | Failed(busy: bool) | Cancelled

  /** One fault and one cancellation flag for each of the up to five attempts. */
  datatype Plan = Plan(fault: nat -> Fault, cancelled: nat -> bool)

  predicate Acceptable(e: Event) { e.kind != "" && e.source != "" }

  /** The first `n` events have a kind and a source. */
  predicate FirstAcceptable(es: seq<Event>, n: nat)
    requires n <= |es|
  {
    n == 0 || (FirstAcceptable(es, n - 1) && Acceptable(es[n - 1]))
  }

  lemma {:induction false} AllAcceptable(es: seq<Event>, n: nat)
    requires n <= |es|
    ensures FirstAcceptable(es, n) <==> forall i | 0 <= i < n :: Acceptable(es[i])
  {
    if n > 0 { AllAcceptable(es, n - 1); }
  }

  function Stamp(events: seq<Event>, e: Event): Event { e.(position := End(events) + 1) }

  // ---------------------------------------------------------------- reference meaning

  /** One event through one projector; asynchronous projectors do not take part. */
  function Project<S>(p: Projector<S>, s: S, e: Event): Option<S> {
    if !p.sync then Some(s)
    else match p.apply(s, e) case Ok(s') => Some(s') case Err(_) => None
  }

  function ProjectAll<S>(ps: seq<Projector<S>>, states: seq<S>, e: Event, n: nat): (r: Option<seq<S>>)
    requires |ps| == |states| && n <= |ps|
    ensures r.Some? ==> |r.value| == |ps|
    ensures r.Some? ==> forall i | n <= i < |ps| :: r.value[i] == states[i]
    ensures r.Some? ==> forall i | 0 <= i < n :: Project(ps[i], states[i], e) == Some(r.value[i])
    ensures r.None? ==> exists i :: 0 <= i < n && Project(ps[i], states[i], e).None?
    decreases n
  {
    if n == 0 then Some(states)
    else
      match ProjectAll(ps, states, e, n - 1)
      case None => None
      case Some(done) =>
        match Project(ps[n - 1], states[n - 1], e)
        case None => None
        case Some(s') => Some(done[n - 1 := s'])
  }

  function MoveCursors<S>(ps: seq<Projector<S>>, cursors: map<string, nat>, position: nat, n: nat): map<string, nat>
    requires n <= |ps|
    decreases n
  {
    if n == 0 then cursors
    else
      var c := MoveCursors(ps, cursors, position, n - 1);
      if ps[n - 1].sync then c[ps[n - 1].name := position] else c
  }

  /** One committed append. */
  function CommitOne<S>(ps: seq<Projector<S>>, db: Db<S>, e: Event): (r: Option<Db<S>>)
    requires |db.committed| == |ps|
    ensures r.Some? ==> |r.value.committed| == |ps|
  {
    var e' := Stamp(db.events, e);
    match ProjectAll(ps, db.committed, e', |ps|)
    case None => None
    case Some(states) =>
      Some(Db(db.events + [e'], MoveCursors(ps, db.cursors, e'.position, |ps|), states))
  }

  /** The events appended one by one, each in a transaction of its own. */
  function CommitAll<S>(ps: seq<Projector<S>>, db: Db<S>, es: seq<Event>): (r: Option<Db<S>>)
    requires |db.committed| == |ps|
    ensures r.Some? ==> |r.value.committed| == |ps|
    decreases |es|
  {
    if |es| == 0 then Some(db)
    else
      match CommitAll(ps, db, es[..|es| - 1])
      case None => None
      case Some(mid) => CommitOne(ps, mid, es[|es| - 1])
  }

  /** A projector's state computed from the log alone. */
  function Fold<S>(p: Projector<S>, log: seq<Event>): Option<S> {
    if |log| == 0 then Some(p.init)
    else
      match Fold(p, log[..|log| - 1])
      case None => None
      case Some(s) => Project(p, s, log[|log| - 1])
  }

  /** Log, projectors and cursors agree. */
  ghost predicate Agree<S>(ps: seq<Projector<S>>, db: Db<S>) {
    && |db.committed| == |ps|
    && (forall i | 0 <= i < |ps| && ps[i].sync :: Fold(ps[i], db.events) == Some(db.committed[i]))
    && (forall i | 0 <= i < |ps| && ps[i].sync && |db.events| > 0 ::
          ps[i].name in db.cursors && db.cursors[ps[i].name] == End(db.events))
    && Ordered(db.events)
  }

  lemma {:induction false} CursorsMoved<S>(ps: seq<Projector<S>>, cursors: map<string, nat>, position: nat, n: nat)
    requires n <= |ps|
    ensures forall i | 0 <= i < n && ps[i].sync ::
              var c := MoveCursors(ps, cursors, position, n);
              ps[i].name in c && c[ps[i].name] == position
  {
    if n > 0 { CursorsMoved(ps, cursors, position, n - 1); }
  }

  lemma StampKeepsOrder(log: seq<Event>, e: Event)
    requires Ordered(log)
    ensures Ordered(log + [Stamp(log, e)]) && End(log + [Stamp(log, e)]) == End(log) + 1
  {
    forall i | 0 <= i < |log| ensures log[i].position <= End(log) { EndIsLargest(log, log[i]); }
  }

  lemma FoldExtends<S>(p: Projector<S>, log: seq<Event>, e: Event, s: S, s': S)
    requires Fold(p, log) == Some(s) && Project(p, s, e) == Some(s')
    ensures Fold(p, log + [e]) == Some(s')
  {
    assert (log + [e])[..|log|] == log;
  }

  lemma CommitOneAgrees<S>(ps: seq<Projector<S>>, db: Db<S>, e: Event)
    requires Agree(ps, db) && CommitOne(ps, db, e).Some?
    ensures Agree(ps, CommitOne(ps, db, e).value)
  {
    var db' := CommitOne(ps, db, e).value;
    var e' := Stamp(db.events, e);
    CursorsMoved(ps, db.cursors, e'.position, |ps|);
    StampKeepsOrder(db.events, e);
    forall i | 0 <= i < |ps| && ps[i].sync ensures Fold(ps[i], db'.events) == Some(db'.committed[i]) {
      FoldExtends(ps[i], db.events, e', db.committed[i], db'.committed[i]);
    }
  }

  lemma {:induction false} CommitAllAgrees<S>(ps: seq<Projector<S>>, db: Db<S>, es: seq<Event>)
    requires Agree(ps, db) && CommitAll(ps, db, es).Some?
    ensures Agree(ps, CommitAll(ps, db, es).value)
    decreases |es|
  {
    if |es| > 0 {
      CommitAllAgrees(ps, db, es[..|es| - 1]);
      CommitOneAgrees(ps, CommitAll(ps, db, es[..|es| - 1]).value, es[|es| - 1]);
    }
  }

  /** What one append call may do to the store: everything or nothing. */
  ghost predicate AllOrNothing<S>(ps: seq<Projector<S>>, db: Db<S>, es: seq<Event>, db': Db<S>)
    requires |db.committed| == |ps|
  {
    db' == db || CommitAll(ps, db, es) == Some(db')
  }

  /**
   Over every run of appends and batch appends, failed or not, each synchronous
   projector's state is the fold of the log.
   */
  lemma {:induction false} RunAgrees<S>(ps: seq<Projector<S>>, dbs: seq<Db<S>>, calls: seq<seq<Event>>, n: nat)
    requires |dbs| == |calls| + 1 && Agree(ps, dbs[0]) && n < |dbs|
    requires forall i | 0 <= i < |calls| ::
               |dbs[i].committed| == |ps| && AllOrNothing(ps, dbs[i], calls[i], dbs[i + 1])
    ensures Agree(ps, dbs[n])
  {
    if n > 0 {
      RunAgrees(ps, dbs, calls, n - 1);
      assert AllOrNothing(ps, dbs[n - 1], calls[n - 1], dbs[n]);
      if dbs[n] != dbs[n - 1] { CommitAllAgrees(ps, dbs[n - 1], calls[n - 1]); }
    }
  }

  // ---------------------------------------------------------------- a batch as one transaction

  function SyncNames<S>(ps: seq<Projector<S>>, n: nat): set<string>
    requires n <= |ps|
  {
    set i | 0 <= i < n && ps[i].sync :: ps[i].name
  }

  lemma OverrideOneMore(cursors: map<string, nat>, names: set<string>, name: string, position: nat)
    ensures (cursors + map k | k in names :: position)[name := position] ==
            cursors + map k | k in names + {name} :: position
  {
  }

  lemma {:induction false} MoveIsOverride<S>(ps: seq<Projector<S>>, cursors: map<string, nat>, position: nat, n: nat)
    requires n <= |ps|
    ensures MoveCursors(ps, cursors, position, n) == cursors + map k | k in SyncNames(ps, n) :: position
  {
    if n > 0 {
      MoveIsOverride(ps, cursors, position, n - 1);
      var before, name := SyncNames(ps, n - 1), ps[n - 1].name;
      assert SyncNames(ps, n) == before + (if ps[n - 1].sync then {name} else {});
      if ps[n - 1].sync { OverrideOneMore(cursors, before, name, position); }
    }
  }

  /** Moving the cursors once per event or once per batch ends in the same place. */
  lemma MoveTwice<S>(ps: seq<Projector<S>>, cursors: map<string, nat>, first: nat, last: nat)
    ensures MoveCursors(ps, MoveCursors(ps, cursors, first, |ps|), last, |ps|) == MoveCursors(ps, cursors, last, |ps|)
  {
    MoveIsOverride(ps, cursors, first, |ps|);
    MoveIsOverride(ps, MoveCursors(ps, cursors, first, |ps|), last, |ps|);
    MoveIsOverride(ps, cursors, last, |ps|);
  }

  lemma {:induction false} BatchCursors<S>(ps: seq<Projector<S>>, db: Db<S>, es: seq<Event>)
    requires |db.committed| == |ps| && |es| > 0 && CommitAll(ps, db, es).Some?
    ensures var r := CommitAll(ps, db, es).value;
            r.cursors == MoveCursors(ps, db.cursors, End(r.events), |ps|)
    decreases |es|
  {
    var init := es[..|es| - 1];
    if |init| > 0 {
      BatchCursors(ps, db, init);
      var mid := CommitAll(ps, db, init).value;
      MoveTwice(ps, db.cursors, End(mid.events), End(mid.events) + 1);
    }
  }

  /** Rows and staged states inside the transaction after the events `es`. */
  ghost predicate InTransaction<S>(ps: seq<Projector<S>>, db: Db<S>, es: seq<Event>, rows: seq<Event>, states: seq<S>)
    requires |db.committed| == |ps|
  {
    var r := CommitAll(ps, db, es);
    r.Some? && r.value.events == rows && r.value.committed == states
  }

  lemma TransactionGrows<S>(ps: seq<Projector<S>>, db: Db<S>, es: seq<Event>, i: nat, rows: seq<Event>, states: seq<S>)
    requires |db.committed| == |ps| == |states| && i < |es| && InTransaction(ps, db, es[..i], rows, states)
    ensures var row := Stamp(rows, es[i]);
            var r := ProjectAll(ps, states, row, |ps|);
            && (r.Some? ==> InTransaction(ps, db, es[..i + 1], rows + [row], r.value))
            && (r.None? ==> CommitAll(ps, db, es[..i + 1]).None?)
  {
    assert es[..i + 1][..i] == es[..i];
  }

  lemma {:induction false} FailedPrefix<S>(ps: seq<Projector<S>>, db: Db<S>, es: seq<Event>, i: nat)
    requires |db.committed| == |ps| && i <= |es| && CommitAll(ps, db, es[..i]).None?
    ensures CommitAll(ps, db, es).None?
    decreases |es|
  {
    if i == |es| {
      assert es[..i] == es;
    } else {
      assert es[..|es| - 1][..i] == es[..i];
      FailedPrefix(ps, db, es[..|es| - 1], i);
    }
  }

  // ---------------------------------------------------------------- the store

  function View<S>(committed: seq<S>, staged: seq<Option<S>>): (r: seq<S>)
    requires |committed| == |staged|
    ensures |r| == |committed|
    ensures forall i | 0 <= i < |r| :: r[i] == if staged[i].Some? then staged[i].value else committed[i]
  {
    seq(|committed|, i requires 0 <= i < |committed| => if staged[i].Some? then staged[i].value else committed[i])
  }

  function Nothing<S>(n: nat): (r: seq<Option<S>>)
    ensures |r| == n && forall i | 0 <= i < n :: r[i] == None
  {
    seq(n, i => None)
  }

  lemma SingleCommit<S>(ps: seq<Projector<S>>, db: Db<S>, es: seq<Event>)
    requires |db.committed| == |ps| && |es| == 1
    ensures CommitAll(ps, db, es) == CommitOne(ps, db, es[0])
  {
    assert es[..0] == [];
  }

  lemma NothingStagedView<S>(committed: seq<S>)
    ensures View(committed, Nothing(|committed|)) == committed
  {
  }

  predicate FaultIn(fault: Fault, lo: nat, hi: nat) { fault.FailsAt? && lo <= fault.operation < hi }

  /** Database operations of running one event through the first `n` projectors. */
  function Operations<S>(ps: seq<Projector<S>>, withCursors: bool, n: nat): nat
    requires n <= |ps|
    decreases n
  {
    if n == 0 then 0
    else Operations(ps, withCursors, n - 1) + if !ps[n - 1].sync then 0 else if withCursors then 2 else 1
  }

  /** Database operations of a single append: begin, insert, each projector with its cursor, commit. */
  function AppendOps<S>(ps: seq<Projector<S>>): nat { 3 + Operations(ps, true, |ps|) }

  /** Database operations of inserting and projecting `n` events of a batch. */
  function RowOps<S>(ps: seq<Projector<S>>, n: nat): nat {
    if n == 0 then 0 else RowOps(ps, n - 1) + 1 + Operations(ps, false, |ps|)
  }

  /** Database operations of a batch: begin, its rows, one cursor for each projector, commit. */
  function BatchOps<S>(ps: seq<Projector<S>>, n: nat): nat { 2 + RowOps(ps, n) + Operations(ps, false, |ps|) }

  lemma {:induction false} RowOpsGrow<S>(ps: seq<Projector<S>>, i: nat, n: nat)
    requires i <= n
    ensures RowOps(ps, i) <= RowOps(ps, n)
  {
    if i < n { RowOpsGrow(ps, i, n - 1); }
  }

  lemma {:induction false} OperationsGrow<S>(ps: seq<Projector<S>>, withCursors: bool, i: nat, n: nat)
    requires i <= n <= |ps|
    ensures Operations(ps, withCursors, i) <= Operations(ps, withCursors, n)
    decreases n
  {
    if i < n { OperationsGrow(ps, withCursors, i, n - 1); }
  }

  class Store<S> {
    const projectors: seq<Projector<S>>
    var events: seq<Event>
    var cursors: map<string, nat>
    var committed: seq<S>
    var staged: seq<Option<S>>
    var latestPosition: nat
    // The open transaction's own copy of the tables.
    var txEvents: seq<Event>
    var txCursors: map<string, nat>
    // Operations done in the current attempt.
    var done: nat

    ghost function Persistent(): Db<S>
      reads this
    {
      Db(events, cursors, committed)
    }

    /** What an attempt builds on: the tables, and whatever the projectors hold staged by then. */
    ghost function Based(): Db<S>
      requires |committed| == |staged|
      reads this
    {
      Db(events, cursors, View(committed, staged))
    }

    /** Nothing is staged, and log, projectors and cursors agree. */
    ghost predicate Valid()
      reads this
    {
      Agree(projectors, Persistent()) && staged == Nothing(|projectors|)
    }

    /** A store over an empty database. */
    constructor (ps: seq<Projector<S>>)
      ensures projectors == ps && events == [] && latestPosition == 0
      ensures Valid()
    {
      projectors := ps;
      events, cursors, latestPosition := [], map[], 0;
      committed := seq(|ps|, i requires 0 <= i < |ps| => ps[i].init);
      staged := Nothing(|ps|);
      txEvents, txCursors, done := [], map[], 0;
    }

    /** Whether the next operation of the attempt fails. */
    method Tick(fault: Fault) returns (fails: bool)
      modifies this`done
      ensures fails <==> fault.FailsAt? && fault.operation == old(done)
      ensures done == old(done) + 1
    {
      fails := fault.FailsAt? && fault.operation == done;
      done := done + 1;
    }

    /** One synchronous projector: its Apply, and its cursor when the append is a single one. */
    method ApplyOne(i: nat, e: Event, fault: Fault, withCursors: bool) returns (ok: bool, busy: bool)
      requires |committed| == |staged| == |projectors| && i < |projectors| && projectors[i].sync
      modifies this`staged, this`txCursors, this`done
      ensures |staged| == |projectors|
      ensures var next := Project(projectors[i], old(View(committed, staged))[i], e);
              && (ok ==> Some(View(committed, staged)[i]) == next)
              && (ok ==> View(committed, staged) == old(View(committed, staged))[i := View(committed, staged)[i]])
              && (!ok && next.Some? ==> FaultIn(fault, old(done), old(done) + if withCursors then 2 else 1)
                                        && busy == fault.busy)
      ensures ok ==> done == old(done) + (if withCursors then 2 else 1) && !FaultIn(fault, old(done), done)
      ensures ok && withCursors ==> txCursors == old(txCursors)[projectors[i].name := e.position]
      ensures !withCursors ==> txCursors == old(txCursors)
    {
      var current := if staged[i].Some? then staged[i].value else committed[i];
      var fails := Tick(fault);
      if fails {
        return false, fault.busy;
      }
      match projectors[i].apply(current, e) {
        case Err(b) => return false, b;
        case Ok(s') => staged := staged[i := Some(s')];
      }
      if withCursors {
        fails := Tick(fault);
        if fails {
          return false, fault.busy;
        }
        txCursors := txCursors[projectors[i].name := e.position];
      }
      return true, false;
    }

    /** The first `i` projectors have been through the row, from the given view, cursors and operation count. */
    ghost predicate Applied(
      view: seq<S>, first: map<string, nat>, from: nat, e: Event, withCursors: bool, fault: Fault, i: nat)
      requires i <= |projectors|
      reads this
    {
      && |committed| == |staged| == |projectors| == |view|
      && ProjectAll(projectors, view, e, i) == Some(View(committed, staged))
      && txCursors == (if withCursors then MoveCursors(projectors, first, e.position, i) else first)
      && done == from + Operations(projectors, withCursors, i) && !FaultIn(fault, from, done)
    }

    /** The next projector, after the first `i` of them. */
    method ApplyNext(i: nat, e: Event, fault: Fault, withCursors: bool,
                     ghost view: seq<S>, ghost first: map<string, nat>, ghost from: nat)
      returns (ok: bool, busy: bool)
      requires i < |projectors| && Applied(view, first, from, e, withCursors, fault, i)
      modifies this`staged, this`txCursors, this`done
      ensures |staged| == |projectors| && (!withCursors ==> txCursors == first)
      ensures ok ==> Applied(view, first, from, e, withCursors, fault, i + 1)
      ensures !ok && ProjectAll(projectors, view, e, |projectors|).Some? ==>
                FaultIn(fault, from, from + Operations(projectors, withCursors, |projectors|)) && busy == fault.busy
    {
      OperationsGrow(projectors, withCursors, i + 1, |projectors|);
      if projectors[i].sync {
        if Project(projectors[i], view[i], e).None? { Stuck(projectors, view, e, i); }
        ok, busy := ApplyOne(i, e, fault, withCursors);
      } else {
        ghost var before := View(committed, staged);
        assert before == before[i := before[i]];
        return true, false;
      }
    }

    /**
     Runs one event through the synchronous projectors, each staging its new state. A
     single append moves each projector's cursor right after its Apply; a batch leaves
     the cursors to the end.
     */
    method ApplyProjectors(e: Event, fault: Fault, withCursors: bool) returns (ok: bool, busy: bool)
      requires |committed| == |staged| == |projectors|
      modifies this`staged, this`txCursors, this`done
      ensures |staged| == |projectors|
      ensures !withCursors ==> txCursors == old(txCursors)
      ensures ok ==>
                ProjectAll(projectors, old(View(committed, staged)), e, |projectors|) == Some(View(committed, staged))
      ensures ok && withCursors ==> txCursors == MoveCursors(projectors, old(txCursors), e.position, |projectors|)
      ensures var all := ProjectAll(projectors, old(View(committed, staged)), e, |projectors|);
              var end := old(done) + Operations(projectors, withCursors, |projectors|);
              && (ok <==> all.Some? && !FaultIn(fault, old(done), end))
              && (ok ==> done == end)
              && (!ok && all.Some? ==> busy == fault.busy)
    {
      ghost var view, first, from := View(committed, staged), txCursors, done;
      var i := 0;
      while i < |projectors|
        invariant 0 <= i <= |projectors| && Applied(view, first, from, e, withCursors, fault, i)
      {
        ok, busy := ApplyNext(i, e, fault, withCursors, view, first, from);
        if !ok {
          return;
        }
        i := i + 1;
      }
      return true, false;
    }

    /** Moves the cursor of every synchronous projector inside the transaction. */
    method AdvanceCursors(position: nat, fault: Fault) returns (ok: bool)
      modifies this`txCursors, this`done
      ensures ok ==> txCursors == MoveCursors(projectors, old(txCursors), position, |projectors|)
      ensures var end := old(done) + Operations(projectors, false, |projectors|);
              (ok <==> !FaultIn(fault, old(done), end)) && (ok ==> done == end)
    {
      var i := 0;
      while i < |projectors|
        invariant 0 <= i <= |projectors|
        invariant txCursors == MoveCursors(projectors, old(txCursors), position, i)
        invariant done == old(done) + Operations(projectors, false, i) && !FaultIn(fault, old(done), done)
      {
        OperationsGrow(projectors, false, i + 1, |projectors|);
        if projectors[i].sync {
          var fails := Tick(fault);
          if fails {
            return false;
          }
          txCursors := txCursors[projectors[i].name := position];
        }
        i := i + 1;
      }
      return true;
    }

    method Begin(fault: Fault) returns (ok: bool)
      modifies this`txEvents, this`txCursors, this`done
      ensures txEvents == events && txCursors == cursors && done == 1
      ensures !ok <==> FaultIn(fault, 0, 1)
    {
      done, txEvents, txCursors := 0, events, cursors;
      var fails := Tick(fault);
      ok := !fails;
    }

    /** The deferred clean-up of a transaction that did not commit. */
    method Discard()
      modifies this`staged
      ensures staged == Nothing(|projectors|)
    {
      staged := Nothing(|projectors|);
    }

    /** The in-memory states become current after the commit. */
    method Promote()
      requires |committed| == |staged| == |projectors|
      modifies this`committed, this`staged
      ensures committed == old(View(committed, staged)) && staged == Nothing(|projectors|)
    {
      committed, staged := View(committed, staged), Nothing(|projectors|);
    }

    /** The commit proper: the tables change, then every projector promotes. */
    method Commit(fault: Fault) returns (out: Outcome)
      requires |committed| == |staged| == |projectors|
      modifies this
      ensures latestPosition == old(latestPosition)
      ensures out.Committed? <==> !FaultIn(fault, old(done), old(done) + 1)
      ensures out.Committed? ==> Persistent() == old(Db(txEvents, txCursors, View(committed, staged)))
      ensures !out.Committed? ==> out == Failed(fault.busy) && Persistent() == old(Persistent())
      ensures staged == Nothing(|projectors|)
    {
      var fails := Tick(fault);
      if fails {
        Discard();
        return Failed(fault.busy);
      }
      events, cursors := txEvents, txCursors;
      Promote();
      return Committed;
    }

    /**
     One attempt at a single append, whatever is staged when it begins. It commits on top of
     that, or leaves the tables alone and drops everything staged; a projector apart, only the
     injected fault makes it fail.
     */
    method AppendTx(e: Event, fault: Fault) returns (out: Outcome)
      requires |committed| == |staged| == |projectors|
      modifies this
      ensures latestPosition == old(latestPosition) && staged == Nothing(|projectors|)
      ensures out.Committed? ==> CommitOne(projectors, old(Based()), e) == Some(Persistent())
      ensures !out.Committed? ==> out.Failed? && Persistent() == old(Persistent())
      ensures CommitOne(projectors, old(Based()), e).Some? ==>
                out == if FaultIn(fault, 0, AppendOps(projectors)) then Failed(fault.busy) else Committed
      ensures out.Committed? ==> !FaultIn(fault, 0, AppendOps(projectors))
    {
      var ok := Begin(fault);
      if !ok {
        Discard();
        return Failed(fault.FailsAt? && fault.busy);
      }
      var fails := Tick(fault);
      if fails {
        Discard();
        return Failed(fault.busy);
      }
      var row := Stamp(txEvents, e);
      txEvents := txEvents + [row];
      var applied, busy := ApplyProjectors(row, fault, true);
      if !applied {
        Discard();
        return Failed(busy);
      }
      out := Commit(fault);
    }

    /** Inserts one event of a batch and runs the projectors on it. */
    method InsertRow(e: Event, fault: Fault) returns (ok: bool, busy: bool)
      requires |committed| == |staged| == |projectors|
      modifies this`txEvents, this`staged, this`txCursors, this`done
      ensures |staged| == |projectors| && txCursors == old(txCursors)
      ensures ok ==> Acceptable(e)
      ensures ok ==> txEvents == old(txEvents) + [Stamp(old(txEvents), e)]
      ensures var all := ProjectAll(projectors, old(View(committed, staged)), Stamp(old(txEvents), e), |projectors|);
              var end := old(done) + 1 + Operations(projectors, false, |projectors|);
              && (ok ==> all == Some(View(committed, staged)) && done == end && !FaultIn(fault, old(done), end))
              && (!ok && Acceptable(e) && all.Some? ==> FaultIn(fault, old(done), end) && busy == fault.busy)
    {
      if !Acceptable(e) {
        return false, false;
      }
      var fails := Tick(fault);
      if fails {
        return false, fault.busy;
      }
      var row := Stamp(txEvents, e);
      txEvents := txEvents + [row];
      ok, busy := ApplyProjectors(row, fault, false);
    }

    /** The first `i` events of the batch are in the transaction, from the given operation count. */
    ghost predicate Inserted(db: Db<S>, es: seq<Event>, from: nat, fault: Fault, i: nat)
      requires i <= |es|
      reads this
    {
      && |db.committed| == |committed| == |staged| == |projectors|
      && InTransaction(projectors, db, es[..i], txEvents, View(committed, staged)) && FirstAcceptable(es, i)
      && done == from + RowOps(projectors, i) && !FaultIn(fault, from, done)
    }

    /** The next event of a batch, after `i` of them. */
    method InsertNext(es: seq<Event>, i: nat, fault: Fault, ghost db: Db<S>, ghost from: nat)
      returns (ok: bool, busy: bool)
      requires i < |es| && Inserted(db, es, from, fault, i)
      modifies this`txEvents, this`staged, this`txCursors, this`done
      ensures |staged| == |projectors| && txCursors == old(txCursors)
      ensures ok ==> Inserted(db, es, from, fault, i + 1)
      ensures !ok && Sound(projectors, db, es) ==>
                FaultIn(fault, from, from + RowOps(projectors, |es|)) && busy == fault.busy
    {
      ghost var all := ProjectAll(projectors, View(committed, staged), Stamp(txEvents, es[i]), |projectors|);
      TransactionGrows(projectors, db, es, i, txEvents, View(committed, staged));
      if all.None? { FailedPrefix(projectors, db, es, i + 1); }
      RowOpsGrow(projectors, i + 1, |es|);
      ok, busy := InsertRow(es[i], fault);
    }

    /** Inserts and projects the events of a batch inside one transaction. */
    method InsertBatch(es: seq<Event>, fault: Fault) returns (ok: bool, busy: bool)
      requires |committed| == |staged| == |projectors| && txEvents == events
      modifies this`txEvents, this`staged, this`txCursors, this`done
      ensures |staged| == |projectors| && txCursors == old(txCursors)
      ensures ok ==> InTransaction(projectors, old(Based()), es, txEvents, View(committed, staged))
      ensures var end, sound := old(done) + RowOps(projectors, |es|), Sound(projectors, old(Based()), es);
              && (ok ==> sound && done == end && !FaultIn(fault, old(done), end))
              && (!ok && sound ==> FaultIn(fault, old(done), end) && busy == fault.busy)
    {
      ghost var db, from := Based(), done;
      var i := 0;
      while i < |es|
        invariant 0 <= i <= |es| && txCursors == old(txCursors) && Inserted(db, es, from, fault, i)
      {
        ok, busy := InsertNext(es, i, fault, db, from);
        if !ok {
          return;
        }
        i := i + 1;
      }
      assert es[..i] == es;
      AllAcceptable(es, i);
      return true, false;
    }

    /** Everything between the begin and the commit of a batch. */
    method BatchBody(es: seq<Event>, fault: Fault) returns (ok: bool, busy: bool)
      requires |committed| == |staged| == |projectors| && |es| > 0 && txEvents == events && txCursors == cursors
      modifies this`txEvents, this`staged, this`txCursors, this`done
      ensures |staged| == |projectors|
      ensures ok ==> CommitAll(projectors, old(Based()), es) == Some(Db(txEvents, txCursors, View(committed, staged)))
      ensures var end := old(done) + RowOps(projectors, |es|) + Operations(projectors, false, |projectors|);
              var sound := Sound(projectors, old(Based()), es);
              && (ok ==> sound && done == end && !FaultIn(fault, old(done), end))
              && (!ok && sound ==> FaultIn(fault, old(done), end) && busy == fault.busy)
    {
      ghost var db := Based();
      ok, busy := InsertBatch(es, fault);
      if !ok {
        return;
      }
      BatchCursors(projectors, db, es);
      ok := AdvanceCursors(End(txEvents), fault);
      busy := fault.FailsAt? && fault.busy;
    }

    /** One attempt at a batch append, whatever is staged when it begins: all its events or none. */
    method BatchTx(es: seq<Event>, fault: Fault) returns (out: Outcome)
      requires |committed| == |staged| == |projectors| && |es| > 0
      modifies this
      ensures latestPosition == old(latestPosition) && staged == Nothing(|projectors|)
      ensures out.Committed? ==> CommitAll(projectors, old(Based()), es) == Some(Persistent())
      ensures !out.Committed? ==> out.Failed? && Persistent() == old(Persistent())
      ensures var sound, met := Sound(projectors, old(Based()), es), FaultIn(fault, 0, BatchOps(projectors, |es|));
              (out.Committed? <==> sound && !met) && (sound && met ==> out == Failed(fault.busy))
    {
      ghost var db := Based();
      var ok := Begin(fault);
      if !ok {
        Discard();
        return Failed(fault.FailsAt? && fault.busy);
      }
      var busy;
      ok, busy := BatchBody(es, fault);
      if !ok {
        Discard();
        return Failed(busy);
      }
      out := Commit(fault);
    }

    /** One attempt at a single append or at a batch. */
    method Attempt(es: seq<Event>, batch: bool, fault: Fault) returns (out: Outcome)
      requires |committed| == |staged| == |projectors|
      requires |es| > 0 && (!batch ==> |es| == 1 && Acceptable(es[0]))
      modifies this
      ensures latestPosition == old(latestPosition) && staged == Nothing(|projectors|)
      ensures out.Committed? ==> CommitAll(projectors, old(Based()), es) == Some(Persistent())
      ensures !out.Committed? ==> out.Failed? && Persistent() == old(Persistent())
      ensures var ops := if batch then BatchOps(projectors, |es|) else AppendOps(projectors);
              var sound, met := Sound(projectors, old(Based()), es), FaultIn(fault, 0, ops);
              (out.Committed? <==> sound && !met) && (sound && met ==> out == Failed(fault.busy))
    {
      if batch {
        out := BatchTx(es, fault);
      } else {
        SingleCommit(projectors, Based(), es);
        out := AppendTx(es[0], fault);
      }
    }

    /**
     Up to five attempts; only a busy failure, at whatever operation, is tried again. The
     first attempt builds on what is staged at the call, later ones on the tables alone,
     because a failed attempt drops what is staged.
     */
    method WithRetry(es: seq<Event>, batch: bool, plan: Plan) returns (out: Outcome, attempts: nat)
      requires |committed| == |staged| == |projectors|
      requires |es| > 0 && (!batch ==> |es| == 1 && Acceptable(es[0]))
      modifies this
      ensures latestPosition == old(latestPosition) && staged == Nothing(|projectors|)
      ensures 1 <= attempts <= 5
      ensures out.Committed? ==>
                var base := if attempts == 1 then old(Based()) else old(Persistent());
                CommitAll(projectors, base, es) == Some(Persistent())
      ensures out.Committed? ==> forall e | e in es :: Acceptable(e)
      ensures !out.Committed? ==> Persistent() == old(Persistent())
      ensures out == Failed(true) ==> attempts == 5
      ensures out.Cancelled? ==> attempts < 5 && plan.cancelled(attempts - 1)
      ensures var ops := if batch then BatchOps(projectors, |es|) else AppendOps(projectors);
              && (out.Committed? ==> !FaultIn(plan.fault(attempts - 1), 0, ops))
              && (Sound(projectors, old(Based()), es) && Sound(projectors, old(Persistent()), es) ==>
                    && BusyBefore(plan, ops, attempts - 1)
                    && out == LastOutcome(plan.fault(attempts - 1), ops, attempts))
    {
      ghost var ops := if batch then BatchOps(projectors, |es|) else AppendOps(projectors);
      ghost var db, sound := Persistent(), Sound(projectors, Based(), es) && Sound(projectors, Persistent(), es);
      attempts := 0;
      while true
        invariant 0 <= attempts < 5 && |staged| == |projectors|
        invariant latestPosition == old(latestPosition) && Persistent() == db
        invariant attempts == 0 ==> Based() == old(Based())
        invariant attempts > 0 ==> Based() == db
        invariant sound ==> BusyBefore(plan, ops, attempts)
        decreases 5 - attempts
      {
        out := Attempt(es, batch, plan.fault(attempts));
        NothingStagedView(committed);
        attempts := attempts + 1;
        if out != Failed(true) {
          return;
        }
        if attempts == 5 {
          return;
        }
        if plan.cancelled(attempts - 1) {
          return Cancelled, attempts;
        }
      }
    }

    /** The retried transaction of a call that has the store to itself. */
    method Write(es: seq<Event>, batch: bool, plan: Plan) returns (out: Outcome)
      requires Valid() && |es| > 0 && (!batch ==> |es| == 1 && Acceptable(es[0]))
      modifies this
      ensures Valid() && latestPosition == old(latestPosition)
      ensures out.Committed? ==> CommitAll(projectors, old(Persistent()), es) == Some(Persistent())
      ensures out.Committed? ==> forall e | e in es :: Acceptable(e)
      ensures !out.Committed? ==> Persistent() == old(Persistent())
      ensures var ops := if batch then BatchOps(projectors, |es|) else AppendOps(projectors);
              out.Committed? <==> Sound(projectors, old(Persistent()), es) && HasGoodAttempt(plan, ops)
    {
      ghost var db := Persistent();
      NothingStagedView(committed);
      var attempts;
      out, attempts := WithRetry(es, batch, plan);
      if out.Committed? { CommitAllAgrees(projectors, db, es); }
      if Sound(projectors, db, es) {
        GoodAttemptDecides(plan, if batch then BatchOps(projectors, |es|) else AppendOps(projectors), attempts - 1);
      }
    }

    /** Appends one event; returns its position. */
    method Append(e: Event, plan: Plan) returns (r: Result<nat, Outcome>)
      requires Valid()
      modifies this
      ensures Valid()
      ensures AllOrNothing(projectors, old(Persistent()), [e], Persistent())
      ensures r.Ok? ==> CommitOne(projectors, old(Persistent()), e) == Some(Persistent())
      ensures r.Ok? ==> r.value == End(events) && latestPosition == Max(old(latestPosition), r.value)
      ensures r.Err? ==> Persistent() == old(Persistent()) && latestPosition == old(latestPosition)
      ensures e.kind == "" || e.source == "" ==> r == Err(Failed(false))
      ensures r.Ok? ==> r.value == End(old(events)) + 1 && Wrote(projectors, old(Persistent()), e, Persistent())
      ensures r.Ok? <==>
                && e.kind != "" && e.source != ""
                && Accepted(projectors, old(Persistent()), e) && HasGoodAttempt(plan, AppendOps(projectors))
    {
      if e.kind == "" || e.source == "" {
        return Err(Failed(false));
      }
      ghost var db := Persistent();
      SingleCommit(projectors, db, [e]);
      AcceptedCommits(projectors, db, e);
      var out := Write([e], false, plan);
      if !out.Committed? {
        return Err(out);
      }
      CommitOneWrites(projectors, db, e);
      var position := events[|events| - 1].position;
      if position > latestPosition {
        latestPosition := position;
      }
      return Ok(position);
    }

    /** Appends several events atomically; the published position is overwritten. */
    method AppendBatch(es: seq<Event>, plan: Plan) returns (r: Result<seq<nat>, Outcome>)
      requires Valid()
      modifies this
      ensures Valid()
      ensures AllOrNothing(projectors, old(Persistent()), es, Persistent())
      ensures r.Ok? ==> CommitAll(projectors, old(Persistent()), es) == Some(Persistent())
      ensures r.Ok? ==> events == old(events) + Rows(old(events), es) && r.value == Positions(Rows(old(events), es))
      ensures r.Ok? && |es| > 0 ==> latestPosition == End(events)
      ensures r.Err? || |es| == 0 ==> Persistent() == old(Persistent()) && latestPosition == old(latestPosition)
      ensures r.Ok? <==>
                || es == []
                || (&& (forall e | e in es :: e.kind != "" && e.source != "")
                    && Welcome(projectors, old(events) + Rows(old(events), es))
                    && HasGoodAttempt(plan, BatchOps(projectors, |es|)))
    {
      if |es| == 0 {
        return Ok([]);
      }
      ghost var db := Persistent();
      var first := |events|;
      WelcomeIffCommits(projectors, db, es);
      var out := Write(es, true, plan);
      if !out.Committed? {
        return Err(out);
      }
      CommitAllRows(projectors, db, es);
      assert events[first..] == Rows(db.events, es);
      latestPosition := events[|events| - 1].position;
      return Ok(Positions(events[first..]));
    }
  }

  function Positions(rows: seq<Event>): (r: seq<nat>)
    ensures |r| == |rows| && forall i | 0 <= i < |r| :: r[i] == rows[i].position
  {
    seq(|rows|, i requires 0 <= i < |rows| => rows[i].position)
  }

  /** Every attempt before `k` meets a busy database at one of its operations, and the call is not cancelled. */
  predicate BusyBefore(plan: Plan, ops: nat, k: nat) {
    forall j: nat | j < k :: FaultIn(plan.fault(j), 0, ops) && plan.fault(j).busy && !plan.cancelled(j)
  }

  /** What the last attempt of a sound call makes of it. */
  function LastOutcome(fault: Fault, ops: nat, attempts: nat): Outcome {
    if !FaultIn(fault, 0, ops) then Committed
    else if fault.busy && attempts < 5 then Cancelled
    else Failed(fault.busy)
  }

  /** The events are in order and no projector refuses them. */
  predicate Sound<S>(ps: seq<Projector<S>>, db: Db<S>, es: seq<Event>)
    requires |db.committed| == |ps|
  {
    (forall e | e in es :: Acceptable(e)) && CommitAll(ps, db, es).Some?
  }

  lemma BusyAt(plan: Plan, ops: nat, j: nat, k: nat)
    requires BusyBefore(plan, ops, k) && j < k
    ensures FaultIn(plan.fault(j), 0, ops) && plan.fault(j).busy && !plan.cancelled(j)
  {
  }

  /** Only busy failures come before some attempt whose operations all go well. */
  ghost predicate HasGoodAttempt(plan: Plan, ops: nat) {
    exists k: nat :: k < 5 && !FaultIn(plan.fault(k), 0, ops) && BusyBefore(plan, ops, k)
  }

  lemma GoodAttemptDecides(plan: Plan, ops: nat, last: nat)
    requires BusyBefore(plan, ops, last) && last < 5
    requires last == 4 || !FaultIn(plan.fault(last), 0, ops) || !plan.fault(last).busy || plan.cancelled(last)
    ensures HasGoodAttempt(plan, ops) <==> !FaultIn(plan.fault(last), 0, ops)
  {
    if HasGoodAttempt(plan, ops) {
      var k: nat :| k < 5 && !FaultIn(plan.fault(k), 0, ops) && BusyBefore(plan, ops, k);
      if k < last {
        BusyAt(plan, ops, k, last);
      } else if last < k {
        BusyAt(plan, ops, last, k);
      }
    }
  }

  /** The rows the events become behind this log. */
  function Rows(log: seq<Event>, es: seq<Event>): (r: seq<Event>)
    ensures |r| == |es| && forall i | 0 <= i < |es| :: r[i] == es[i].(position := End(log) + 1 + i)
  {
    seq(|es|, i requires 0 <= i < |es| => es[i].(position := End(log) + 1 + i))
  }

  /** No synchronous projector refuses one of these rows when it replays the whole log. */
  ghost predicate Welcome<S>(ps: seq<Projector<S>>, log: seq<Event>) {
    forall i | 0 <= i < |ps| && ps[i].sync :: Fold(ps[i], log).Some?
  }

  lemma FoldOfPrefix<S>(p: Projector<S>, log: seq<Event>, e: Event)
    requires Fold(p, log + [e]).Some?
    ensures Fold(p, log).Some? && Fold(p, log + [e]) == Project(p, Fold(p, log).value, e)
  {
    assert (log + [e])[..|log|] == log;
  }

  lemma {:induction false} ProjectsWhenAll<S>(ps: seq<Projector<S>>, states: seq<S>, e: Event, n: nat)
    requires |ps| == |states| && n <= |ps|
    requires forall i | 0 <= i < n :: Project(ps[i], states[i], e).Some?
    ensures ProjectAll(ps, states, e, n).Some?
  {
    if n > 0 { ProjectsWhenAll(ps, states, e, n - 1); }
  }

  lemma WelcomePrefix<S>(ps: seq<Projector<S>>, log: seq<Event>, row: Event)
    requires Welcome(ps, log + [row])
    ensures Welcome(ps, log)
  {
    forall i | 0 <= i < |ps| && ps[i].sync ensures Fold(ps[i], log).Some? { FoldOfPrefix(ps[i], log, row); }
  }

  lemma WelcomeCommitsOne<S>(ps: seq<Projector<S>>, db: Db<S>, e: Event)
    requires Agree(ps, db) && Welcome(ps, db.events + [Stamp(db.events, e)])
    ensures CommitOne(ps, db, e).Some?
  {
    var row := Stamp(db.events, e);
    forall i | 0 <= i < |ps| ensures Project(ps[i], db.committed[i], row).Some? {
      if ps[i].sync { FoldOfPrefix(ps[i], db.events, row); }
    }
    ProjectsWhenAll(ps, db.committed, row, |ps|);
  }

  lemma WelcomeNext<S>(ps: seq<Projector<S>>, db: Db<S>, init: seq<Event>, e: Event)
    requires Agree(ps, db) && CommitAll(ps, db, init).Some?
    requires var before := db.events + Rows(db.events, init);
             Welcome(ps, before + [Stamp(before, e)])
    ensures CommitOne(ps, CommitAll(ps, db, init).value, e).Some?
  {
    CommitAllAgrees(ps, db, init);
    CommitAllRows(ps, db, init);
    WelcomeCommitsOne(ps, CommitAll(ps, db, init).value, e);
  }

  /** Events that every synchronous projector can replay can be committed. */
  lemma {:induction false} WelcomeCommits<S>(ps: seq<Projector<S>>, db: Db<S>, es: seq<Event>)
    requires Agree(ps, db) && Welcome(ps, db.events + Rows(db.events, es))
    ensures CommitAll(ps, db, es).Some?
    decreases |es|
  {
    if |es| > 0 {
      var init, e := es[..|es| - 1], es[|es| - 1];
      var before := db.events + Rows(db.events, init);
      RowsGrow(db.events, es);
      RowsEnd(db.events, init);
      assert db.events + Rows(db.events, es) == before + [Stamp(before, e)];
      WelcomePrefix(ps, before, Stamp(before, e));
      WelcomeCommits(ps, db, init);
      WelcomeNext(ps, db, init, e);
    }
  }

  lemma WelcomeIffCommits<S>(ps: seq<Projector<S>>, db: Db<S>, es: seq<Event>)
    requires Agree(ps, db)
    ensures Welcome(ps, db.events + Rows(db.events, es)) <==> CommitAll(ps, db, es).Some?
  {
    if Welcome(ps, db.events + Rows(db.events, es)) { WelcomeCommits(ps, db, es); }
    if CommitAll(ps, db, es).Some? {
      CommitAllAgrees(ps, db, es);
      CommitAllRows(ps, db, es);
    }
  }

  /**
   One row at the end of the log that differs from the event in its position only, every
   synchronous projector one step further and its cursor there, the others untouched.
   */
  ghost predicate Wrote<S>(ps: seq<Projector<S>>, db: Db<S>, e: Event, db': Db<S>) {
    var row := e.(position := End(db.events) + 1);
    && |db.committed| == |db'.committed| == |ps|
    && db'.events == db.events + [row]
    && (forall i | 0 <= i < |ps| && ps[i].sync :: ps[i].apply(db.committed[i], row) == Ok(db'.committed[i]))
    && (forall i | 0 <= i < |ps| && !ps[i].sync :: db'.committed[i] == db.committed[i])
    && db'.cursors == db.cursors + (map k | k in SyncNames(ps, |ps|) :: row.position)
  }

  /** No synchronous projector refuses the event's row. */
  ghost predicate Accepted<S>(ps: seq<Projector<S>>, db: Db<S>, e: Event) {
    && |db.committed| == |ps|
    && forall i | 0 <= i < |ps| && ps[i].sync ::
         ps[i].apply(db.committed[i], e.(position := End(db.events) + 1)).Ok?
  }

  lemma AcceptedCommits<S>(ps: seq<Projector<S>>, db: Db<S>, e: Event)
    requires |db.committed| == |ps|
    ensures CommitOne(ps, db, e).Some? <==> Accepted(ps, db, e)
  {
    if Accepted(ps, db, e) { ProjectsWhenAll(ps, db.committed, Stamp(db.events, e), |ps|); }
    if CommitOne(ps, db, e).Some? { CommitOneWrites(ps, db, e); }
  }

  lemma CommitOneWrites<S>(ps: seq<Projector<S>>, db: Db<S>, e: Event)
    requires |db.committed| == |ps| && CommitOne(ps, db, e).Some?
    ensures Wrote(ps, db, e, CommitOne(ps, db, e).value)
  {
    MoveIsOverride(ps, db.cursors, End(db.events) + 1, |ps|);
  }

  lemma RowsGrow(log: seq<Event>, es: seq<Event>)
    requires |es| > 0
    ensures var init := es[..|es| - 1];
            log + Rows(log, es) == log + Rows(log, init) + [es[|es| - 1].(position := End(log) + |es|)]
  {
  }

  lemma RowsEnd(log: seq<Event>, es: seq<Event>)
    ensures End(log + Rows(log, es)) == End(log) + |es|
  {
    if es == [] { assert log + Rows(log, es) == log; }
  }

  /** The appended rows follow the end of the log without holes. */
  lemma {:induction false} CommitAllRows<S>(ps: seq<Projector<S>>, db: Db<S>, es: seq<Event>)
    requires |db.committed| == |ps| && CommitAll(ps, db, es).Some?
    ensures CommitAll(ps, db, es).value.events == db.events + Rows(db.events, es)
    decreases |es|
  {
    if |es| == 0 {
      assert db.events + Rows(db.events, es) == db.events;
    } else {
      CommitAllRows(ps, db, es[..|es| - 1]);
      RowsEnd(db.events, es[..|es| - 1]);
      RowsGrow(db.events, es);
    }
  }

  lemma {:induction false} Stuck<S>(ps: seq<Projector<S>>, states: seq<S>, e: Event, i: nat)
    requires |ps| == |states| && i < |ps|
    requires ProjectAll(ps, states, e, i).Some? && Project(ps[i], states[i], e).None?
    ensures ProjectAll(ps, states, e, |ps|).None?
  {
    StuckFrom(ps, states, e, i + 1, |ps|);
  }

  lemma {:induction false} StuckFrom<S>(ps: seq<Projector<S>>, states: seq<S>, e: Event, i: nat, n: nat)
    requires |ps| == |states| && i <= n <= |ps| && ProjectAll(ps, states, e, i).None?
    ensures ProjectAll(ps, states, e, n).None?
    decreases n
  {
    if i < n { StuckFrom(ps, states, e, i, n - 1); }
  }
}
