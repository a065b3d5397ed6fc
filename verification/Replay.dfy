/**
 Replaying the log into the projectors after a restart: batches of up to 1000 rows are
 read above a cursor, and the cursor then advances by the number of rows applied rather
 than to the position of the last one.
 */
module Replay {
  import opened Basics
  import opened EventLog

  const BATCH := 1000
  const MAX_UINT64: nat := 0xFFFF_FFFF_FFFF_FFFF

  datatype Projector = Projector(name: string, sync: bool)

  /** The rows of one batch: the first `BATCH` rows above `after`. */
  function BatchRows(log: seq<Event>, after: nat): seq<Event> {
    Limited(Range(log, after, 0), BATCH)
  }

  lemma BatchIsExact(log: seq<Event>, after: nat)
    requires Ordered(log) && after < End(log)
    ensures var rows := BatchRows(log, after);
            && 0 < |rows| && after + |rows| <= End(log)
            && Increasing(rows)
            && (forall e | e in rows :: e in log && e.position > after)
            && after + |rows| <= rows[|rows| - 1].position
            && (forall e | e in log && after < e.position <= rows[|rows| - 1].position :: e in rows)
  {
    var all, rows := Range(log, after, 0), BatchRows(log, after);
    RangeIsExact(log, after, 0);
    assert log[|log| - 1] in all;
    BatchIsCut(all);
    RowsAreSpread(rows, after, |rows| - 1);
    EndIsLargest(log, rows[|rows| - 1]);
  }

  /** A batch is the rows up to the position of its last one. */
  lemma BatchIsCut(all: seq<Event>)
    requires Increasing(all) && |all| > 0
    ensures var rows := Limited(all, BATCH);
            && 0 < |rows| && Increasing(rows)
            && (forall e :: e in rows <==> e in all && e.position <= rows[|rows| - 1].position)
  {
    var rows := Limited(all, BATCH);
    forall e ensures e in rows <==> e in all && e.position <= rows[|rows| - 1].position {
      if |all| > BATCH {
        LimitedIsExact(all, BATCH, e);
      } else if e in all {
        var i :| 0 <= i < |all| && all[i] == e;
        assert i < |all| - 1 ==> all[i].position < all[|all| - 1].position;
      }
    }
    if |all| > BATCH { LimitedIsExact(all, BATCH, all[0]); }
  }

  /** In an increasing run above `after`, row i sits at `after + 1 + i` or later. */
  lemma {:induction false} RowsAreSpread(rows: seq<Event>, after: nat, i: nat)
    requires Increasing(rows) && i < |rows| && forall e | e in rows :: e.position > after
    ensures rows[i].position >= after + 1 + i
  {
    assert rows[i] in rows;
    if i > 0 {
      RowsAreSpread(rows, after, i - 1);
      assert rows[i - 1].position < rows[i].position;
    }
  }

  /** Every row pushed to the projectors by a replay from `cursor`, in order. */
  function Pushed(log: seq<Event>, cursor: nat): seq<Event>
    requires Ordered(log)
    decreases Max(0, End(log) - cursor)
  {
    if cursor >= End(log) then []
    else
      BatchIsExact(log, cursor);
      var rows := BatchRows(log, cursor);
      rows + Pushed(log, cursor + |rows|)
  }

  /** The next batch goes from what is still to be pushed to what is pushed. */
  lemma PushedOn(log: seq<Event>, pushed: seq<Event>, cursor: nat)
    requires Ordered(log) && cursor < End(log)
    ensures var rows := BatchRows(log, cursor);
            pushed + Pushed(log, cursor) == (pushed + rows) + Pushed(log, cursor + |rows|)
  {
    BatchIsExact(log, cursor);
  }

  /** Every event above the start is pushed at least once, and nothing else is. */
  lemma {:induction false} ReplayCovers(log: seq<Event>, start: nat)
    requires Ordered(log)
    ensures forall e :: e in Pushed(log, start) <==> e in log && e.position > start
    decreases Max(0, End(log) - start)
  {
    if start >= End(log) {
      forall e | e in log ensures e.position <= start { EndIsLargest(log, e); }
    } else {
      BatchIsExact(log, start);
      ReplayCovers(log, start + |BatchRows(log, start)|);
    }
  }

  /** The number of pushes is the distance to the end of the log, whatever the log holds. */
  lemma {:induction false} ReplayCount(log: seq<Event>, start: nat)
    requires Ordered(log)
    ensures |Pushed(log, start)| == Max(0, End(log) - start)
    decreases Max(0, End(log) - start)
  {
    if start < End(log) {
      BatchIsExact(log, start);
      ReplayCount(log, start + |BatchRows(log, start)|);
    }
  }

  /** No position above `start` is missing from the log. */
  ghost predicate Dense(log: seq<Event>, start: nat) {
    var rows := Range(log, start, 0);
    forall i | 0 <= i < |rows| :: rows[i].position == start + 1 + i
  }

  /** The last row of the range is the last of the log; rows below it leave room for those in between. */
  lemma {:induction false} RowsFitBelowEnd(log: seq<Event>, rows: seq<Event>, i: nat)
    requires Ordered(log) && Increasing(rows) && i < |rows| && forall e | e in rows :: e in log
    ensures rows[i].position + (|rows| - 1 - i) <= End(log)
    decreases |rows| - i
  {
    assert rows[i] in rows;
    EndIsLargest(log, rows[i]);
    if i < |rows| - 1 {
      RowsFitBelowEnd(log, rows, i + 1);
      assert rows[i].position < rows[i + 1].position;
    }
  }

  lemma DenseIffCount(log: seq<Event>, start: nat)
    requires Ordered(log) && start <= End(log)
    ensures Dense(log, start) <==> |Range(log, start, 0)| == End(log) - start
  {
    var rows := Range(log, start, 0);
    RangeIsExact(log, start, 0);
    assert start < End(log) ==> log[|log| - 1] in rows;
    if |rows| > 0 {
      EndIsLargest(log, rows[0]);
      var k :| 0 <= k < |rows| && rows[k] == log[|log| - 1];
      RowsFitBelowEnd(log, rows, k);
      assert rows[|rows| - 1].position == End(log);
      if |rows| == End(log) - start {
        forall i | 0 <= i < |rows| ensures rows[i].position == start + 1 + i {
          RowsAreSpread(rows, start, i);
          RowsFitBelowEnd(log, rows, i);
        }
      }
    }
  }

  /** Cutting an increasing run at a position that its first `n` rows just reach. */
  lemma CutAt(log: seq<Event>, start: nat, n: nat)
    requires Ordered(log) && Dense(log, start) && n <= |Range(log, start, 0)|
    ensures Range(log, start, 0)[n..] == Range(log, start + n, 0)
  {
    var all, rest := Range(log, start, 0), Range(log, start + n, 0);
    RangeIsExact(log, start, 0);
    RangeIsExact(log, start + n, 0);
    var tail := all[n..];
    assert forall i | 0 <= i < |tail| :: tail[i] == all[n + i];
    forall e | e in tail ensures e in rest {
      var i :| 0 <= i < |tail| && tail[i] == e;
      assert all[n + i] in all;
    }
    forall e | e in rest ensures e in tail {
      assert e in all;
      var i :| 0 <= i < |all| && all[i] == e;
      assert tail[i - n] == e;
    }
    IncreasingIsCanonical(tail, rest);
  }

  /** On a dense log a batch is followed by exactly the rows behind it. */
  lemma DenseSplits(log: seq<Event>, start: nat)
    requires Ordered(log) && Dense(log, start)
    ensures var rows := BatchRows(log, start);
            Range(log, start, 0) == rows + Range(log, start + |rows|, 0) && Dense(log, start + |rows|)
  {
    var all, rows := Range(log, start, 0), BatchRows(log, start);
    CutAt(log, start, |rows|);
    assert all == rows + all[|rows|..];
    DenseFrom(all, start, |rows|);
  }

  lemma DenseFrom(all: seq<Event>, start: nat, n: nat)
    requires n <= |all| && forall i | 0 <= i < |all| :: all[i].position == start + 1 + i
    ensures forall i | 0 <= i < |all[n..]| :: all[n..][i].position == start + n + 1 + i
  {
    assert forall i | 0 <= i < |all| - n :: all[n..][i] == all[n + i];
  }

  lemma {:induction false} DenseOnce(log: seq<Event>, start: nat)
    requires Ordered(log) && Dense(log, start)
    ensures Pushed(log, start) == Range(log, start, 0)
    decreases Max(0, End(log) - start)
  {
    if start < End(log) {
      DenseSplits(log, start);
      BatchIsExact(log, start);
      DenseOnce(log, start + |BatchRows(log, start)|);
    } else {
      var all := Range(log, start, 0);
      assert |all| > 0 ==> all[0] in all;
      RangeIsExact(log, start, 0);
      forall e | e in log ensures e.position <= start { EndIsLargest(log, e); }
    }
  }

  /**
   Replay pushes each event exactly once and in order if and only if the log has no holes
   above the start; with holes the last events are pushed again.
   */
  lemma ReplayOnceIffDense(log: seq<Event>, start: nat)
    requires Ordered(log) && start <= End(log)
    ensures Pushed(log, start) == Range(log, start, 0) <==> Dense(log, start)
  {
    DenseIffCount(log, start);
    ReplayCount(log, start);
    if Dense(log, start) { DenseOnce(log, start); }
  }

  /** A log with a hole: position 2 is missing, and the event behind it is pushed twice. */
  lemma HolePushesTwice(first: Event, second: Event)
    requires first.position == 1 && second.position == 3
    ensures Ordered([first, second]) && Pushed([first, second], 0) == [first, second, second]
  {
    var log := [first, second];
    assert log[..1] == [first] && [first][..0] == [];
    assert Range([first], 0, 0) == [first] && Range([first], 2, 0) == [];
    assert Range(log, 0, 0) == [first, second] && Range(log, 2, 0) == [second];
    assert Pushed(log, 3) == [] && Pushed(log, 2) == [second] + Pushed(log, 3);
    assert Pushed(log, 0) == [first, second] + Pushed(log, 2);
  }

  /** The events of `rows` that projector `p` is not told to skip. */
  function Unskipped(skipped: set<(nat, string)>, p: Projector, rows: seq<Event>): seq<Event> {
    if |rows| == 0 || !p.sync then []
    else
      var rest := Unskipped(skipped, p, rows[..|rows| - 1]);
      var e := rows[|rows| - 1];
      if (e.position, p.name) in skipped then rest else rest + [e]
  }

  lemma {:induction false} UnskippedSplits(skipped: set<(nat, string)>, p: Projector, a: seq<Event>, b: seq<Event>)
    ensures Unskipped(skipped, p, a + b) == Unskipped(skipped, p, a) + Unskipped(skipped, p, b)
    decreases |b|
  {
    if |b| == 0 {
      assert a + b == a;
    } else if p.sync {
      assert (a + b)[..|a + b| - 1] == a + b[..|b| - 1];
      UnskippedSplits(skipped, p, a, b[..|b| - 1]);
    }
  }

  lemma {:induction false} UnskippedIsExact(skipped: set<(nat, string)>, p: Projector, rows: seq<Event>)
    requires p.sync
    ensures forall e :: e in Unskipped(skipped, p, rows) <==> e in rows && (e.position, p.name) !in skipped
  {
    if |rows| > 0 {
      assert rows == rows[..|rows| - 1] + [rows[|rows| - 1]];
      UnskippedIsExact(skipped, p, rows[..|rows| - 1]);
    }
  }

  /** The cursor table after every synchronous projector's row was moved to `position`. */
  function Moved(ps: seq<Projector>, cursors: map<string, nat>, position: nat): map<string, nat> {
    if |ps| == 0 then cursors
    else
      var c := Moved(ps[..|ps| - 1], cursors, position);
      if ps[|ps| - 1].sync then c[ps[|ps| - 1].name := position] else c
  }

  lemma {:induction false} MovedIsExact(ps: seq<Projector>, cursors: map<string, nat>, position: nat, name: string)
    ensures var c := Moved(ps, cursors, position);
            if exists i :: 0 <= i < |ps| && ps[i].sync && ps[i].name == name then name in c && c[name] == position
            else (name in c <==> name in cursors) && (name in c ==> c[name] == cursors[name])
  {
    if |ps| > 0 { MovedIsExact(ps[..|ps| - 1], cursors, position, name); }
  }

  /** What a failing operation of a batch is. */
  datatype Fault = NoFault | AtApply(row: nat, projector: nat) | AtCommit

  class Replayer {
    const events: seq<Event>
    const projectors: seq<Projector>
    const skipped: set<(nat, string)>
    // What each projector has made current, and what it holds staged.
    var seen: seq<seq<Event>>
    var staged: seq<seq<Event>>
    var cursors: map<string, nat>

    ghost predicate Shaped()
      reads this
    {
      |seen| == |staged| == |projectors|
    }

    constructor (log: seq<Event>, ps: seq<Projector>, skip: set<(nat, string)>)
      ensures events == log && projectors == ps && skipped == skip
      ensures Shaped() && seen == staged && forall i | 0 <= i < |ps| :: seen[i] == []
    {
      events, projectors, skipped := log, ps, skip;
      seen, staged := seq(|ps|, i => []), seq(|ps|, i => []);
      cursors := map[];
    }

    /** The smallest position the projectors can resume from; 0 without projectors. */
    method RestoreProjectors(restored: seq<Option<nat>>) returns (r: Option<nat>)
      requires |restored| == |projectors|
      requires forall i | 0 <= i < |restored| && restored[i].Some? :: restored[i].value <= MAX_UINT64
      ensures r.None? <==> exists i :: 0 <= i < |restored| && restored[i].None?
      ensures r.Some? ==> forall i | 0 <= i < |restored| :: r.value <= restored[i].value
      ensures r.Some? && (exists i :: 0 <= i < |restored| && restored[i].value < MAX_UINT64) ==> r in restored
      ensures r.Some? && (forall i | 0 <= i < |restored| :: restored[i].value == MAX_UINT64) ==> r.value == 0
    {
      var least := MAX_UINT64;
      var i := 0;
      while i < |restored|
        invariant 0 <= i <= |restored|
        invariant forall j | 0 <= j < i :: restored[j].Some? && least <= restored[j].value
        invariant least <= MAX_UINT64 && (least == MAX_UINT64 || Some(least) in restored)
      {
        if restored[i].None? {
          return None;
        }
        if restored[i].value < least {
          least := restored[i].value;
        }
        i := i + 1;
      }
      return if least == MAX_UINT64 then Some(0) else Some(least);
    }

    /** The fault strikes a projector that this row reaches. */
    predicate FailsRow(fault: Fault, e: Event, row: nat) {
      && fault.AtApply? && fault.row == row && fault.projector < |projectors|
      && projectors[fault.projector].sync && (e.position, projectors[fault.projector].name) !in skipped
    }

    /** The fault strikes some row of the batch, or its commit. */
    predicate FailsBatch(fault: Fault, rows: seq<Event>) {
      && rows != []
      && (fault.AtCommit? || (fault.AtApply? && fault.row < |rows| && FailsRow(fault, rows[fault.row], fault.row)))
    }

    /** One row through every synchronous projector that does not skip it. */
    method ApplyRow(e: Event, row: nat, fault: Fault) returns (ok: bool)
      requires Shaped()
      modifies this`staged
      ensures Shaped()
      ensures ok ==> forall i | 0 <= i < |projectors| ::
                staged[i] == old(staged)[i] + Unskipped(skipped, projectors[i], [e])
      ensures ok <==> !FailsRow(fault, e, row)
    {
      var i := 0;
      while i < |projectors|
        invariant 0 <= i <= |projectors| && Shaped()
        invariant forall j | 0 <= j < i :: staged[j] == old(staged)[j] + Unskipped(skipped, projectors[j], [e])
        invariant forall j | i <= j < |projectors| :: staged[j] == old(staged)[j]
        invariant forall j | 0 <= j < i && projectors[j].sync && (e.position, projectors[j].name) !in skipped ::
                    fault != AtApply(row, j)
      {
        if projectors[i].sync && (e.position, projectors[i].name) !in skipped {
          if fault == AtApply(row, i) {
            return false;
          }
          staged := staged[i := staged[i] + [e]];
        }
        i := i + 1;
      }
      return true;
    }

    /** The cursor upserts of a batch: synchronous projectors only. */
    method MoveCursors(position: nat)
      modifies this`cursors
      ensures cursors == Moved(projectors, old(cursors), position)
    {
      var i := 0;
      while i < |projectors|
        invariant 0 <= i <= |projectors|
        invariant cursors == Moved(projectors[..i], old(cursors), position)
      {
        assert projectors[..i + 1][..i] == projectors[..i];
        if projectors[i].sync {
          cursors := cursors[projectors[i].name := position];
        }
        i := i + 1;
      }
      assert projectors[..i] == projectors;
    }

    ghost predicate NothingStaged()
      reads this
    {
      Shaped() && forall i | 0 <= i < |projectors| :: staged[i] == []
    }

    /** All projectors promote what they staged for `rows`. */
    method Promote(ghost rows: seq<Event>)
      requires Shaped()
      requires forall i | 0 <= i < |projectors| :: staged[i] == Unskipped(skipped, projectors[i], rows)
      modifies this`seen, this`staged
      ensures NothingStaged()
      ensures forall i | 0 <= i < |projectors| :: seen[i] == old(seen)[i] + Unskipped(skipped, projectors[i], rows)
    {
      seen := seq(|projectors|, i requires 0 <= i < |projectors| && Shaped() reads this => seen[i] + staged[i]);
      staged := seq(|projectors|, i => []);
    }

    /**
     One batch in one transaction. A failing batch leaves what the projectors have made
     current, and the cursors, as they were; what they staged is not discarded here.
     */
    method ReplayBatch(after: nat, fault: Fault) returns (r: Option<nat>)
      requires NothingStaged()
      modifies this`seen, this`staged, this`cursors
      ensures Shaped()
      ensures r.Some? ==> r.value == |BatchRows(events, after)| && NothingStaged()
      ensures r.Some? ==> forall i | 0 <= i < |projectors| ::
                seen[i] == old(seen)[i] + Unskipped(skipped, projectors[i], BatchRows(events, after))
      ensures var rows := BatchRows(events, after);
              r.Some? ==> cursors == if rows == [] then old(cursors)
                                     else Moved(projectors, old(cursors), rows[|rows| - 1].position)
      ensures r.None? ==> seen == old(seen) && cursors == old(cursors)
      ensures r.None? <==> FailsBatch(fault, BatchRows(events, after))
    {
      var rows := Limited(Range(events, after, 0), BATCH);
      if |rows| == 0 {
        return Some(0);
      }
      var i := 0;
      while i < |rows|
        invariant 0 <= i <= |rows| && Shaped() && seen == old(seen) && cursors == old(cursors)
        invariant forall j | 0 <= j < |projectors| :: staged[j] == Unskipped(skipped, projectors[j], rows[..i])
        invariant forall j | 0 <= j < i :: !FailsRow(fault, rows[j], j)
      {
        var ok := ApplyRow(rows[i], i, fault);
        if !ok {
          return None;
        }
        assert rows[..i + 1] == rows[..i] + [rows[i]];
        forall j | 0 <= j < |projectors|
          ensures staged[j] == Unskipped(skipped, projectors[j], rows[..i + 1])
        {
          UnskippedSplits(skipped, projectors[j], rows[..i], [rows[i]]);
        }
        i := i + 1;
      }
      assert rows[..i] == rows;
      if fault.AtCommit? {
        return None;
      }
      MoveCursors(rows[|rows| - 1].position);
      Promote(rows);
      return Some(|rows|);
    }

    /** Each projector has seen `base` and then its part of `pushed`. */
    ghost predicate SeenAfter(base: seq<seq<Event>>, pushed: seq<Event>)
      reads this
    {
      && |seen| == |base| == |projectors|
      && forall i | 0 <= i < |projectors| :: seen[i] == base[i] + Unskipped(skipped, projectors[i], pushed)
    }

    lemma SeenOn(base: seq<seq<Event>>, before: seq<seq<Event>>, pushed: seq<Event>, rows: seq<Event>)
      requires |base| == |before| == |seen| == |projectors|
      requires forall i | 0 <= i < |projectors| :: before[i] == base[i] + Unskipped(skipped, projectors[i], pushed)
      requires forall i | 0 <= i < |projectors| :: seen[i] == before[i] + Unskipped(skipped, projectors[i], rows)
      ensures SeenAfter(base, pushed + rows)
    {
      forall i | 0 <= i < |projectors|
        ensures seen[i] == base[i] + Unskipped(skipped, projectors[i], pushed + rows)
      {
        UnskippedSplits(skipped, projectors[i], pushed, rows);
      }
    }

    /** Half-way through a replay: what is pushed so far, and where the cursors of the tables are. */
    ghost predicate Midway(
      start: nat, base: seq<seq<Event>>, first: map<string, nat>, cursor: nat, pushed: seq<Event>)
      requires Ordered(events)
      reads this
    {
      && NothingStaged() && SeenAfter(base, pushed) && start <= cursor && (start < cursor ==> start < End(events))
      && Pushed(events, start) == pushed + Pushed(events, cursor)
      && (cursor == start ==> cursors == first)
      && (start < cursor && End(events) <= cursor ==> cursors == Moved(projectors, first, End(events)))
      && (start < cursor ==> exists p :: cursors == Moved(projectors, first, p))
    }

    /** One turn of the loop; the cursor advances by the number of rows applied. */
    method NextBatch(start: nat, cursor: nat, fault: Fault,
                     ghost base: seq<seq<Event>>, ghost first: map<string, nat>, ghost pushed: seq<Event>)
      returns (applied: Option<nat>)
      requires Ordered(events) && Midway(start, base, first, cursor, pushed) && cursor < End(events)
      modifies this`seen, this`staged, this`cursors
      ensures Shaped()
      ensures applied.None? ==> seen == old(seen) && cursors == old(cursors) && !fault.NoFault?
      ensures applied.Some? ==>
                && 0 < applied.value == |BatchRows(events, cursor)|
                && Midway(start, base, first, cursor + applied.value, pushed + BatchRows(events, cursor))
    {
      BatchIsExact(events, cursor);
      ghost var rows, before := BatchRows(events, cursor), seen;
      applied := ReplayBatch(cursor, fault);
      if applied.Some? {
        SeenOn(base, before, pushed, rows);
        PushedOn(events, pushed, cursor);
        EndIsLargest(events, rows[|rows| - 1]);
        if start < cursor {
          ghost var p :| old(cursors) == Moved(projectors, first, p);
          MovedAgain(projectors, first, p, rows[|rows| - 1].position);
        }
      }
    }

    /**
     Replays from `start`; `faults` names the failing operation of each batch. A failing batch
     ends the replay behind the batches that were committed before it.
     */
    method Replay(start: nat, faults: nat -> Fault) returns (ok: bool)
      requires Ordered(events) && NothingStaged()
      modifies this`seen, this`staged, this`cursors
      ensures Shaped()
      ensures ok ==> NothingStaged() && SeenAfter(old(seen), Pushed(events, start))
      ensures ok && start < End(events) ==> cursors == Moved(projectors, old(cursors), End(events))
      ensures ok && End(events) <= start ==> cursors == old(cursors)
      ensures !ok ==> (exists n: nat :: !faults(n).NoFault?)
                      && exists pushed :: pushed <= Pushed(events, start) && SeenAfter(old(seen), pushed)
    {
      var latest := if |events| == 0 then 0 else events[|events| - 1].position;
      var cursor, n: nat := start, 0;
      ghost var pushed, base, first := [], seen, cursors;
      while cursor < latest
        invariant Midway(start, base, first, cursor, pushed)
        decreases latest - cursor
      {
        ghost var rows := BatchRows(events, cursor);
        var applied := NextBatch(start, cursor, faults(n), base, first, pushed);
        if applied.None? {
          assert pushed <= Pushed(events, start) && SeenAfter(base, pushed);
          return false;
        }
        if applied.value == 0 {
          break;
        }
        pushed := pushed + rows;
        cursor, n := cursor + applied.value, n + 1;
      }
      assert pushed + [] == pushed;
      return true;
    }
  }

  /** Moving cursors again forgets the first move. */
  lemma MovedAgain(ps: seq<Projector>, cursors: map<string, nat>, first: nat, last: nat)
    ensures Moved(ps, Moved(ps, cursors, first), last) == Moved(ps, cursors, last)
  {
    var a, b := Moved(ps, Moved(ps, cursors, first), last), Moved(ps, cursors, last);
    forall name: string ensures (name in a <==> name in b) && (name in a && name in b ==> a[name] == b[name]) {
      MovedIsExact(ps, cursors, first, name);
      MovedIsExact(ps, Moved(ps, cursors, first), last, name);
      MovedIsExact(ps, cursors, last, name);
    }
  }

  /** Every synchronous projector sees every event above the start that it does not skip. */
  lemma ReplayReachesEveryProjector(log: seq<Event>, start: nat, skipped: set<(nat, string)>, p: Projector, e: Event)
    requires Ordered(log) && p.sync && e in log && e.position > start && (e.position, p.name) !in skipped
    ensures e in Unskipped(skipped, p, Pushed(log, start))
  {
    ReplayCovers(log, start);
    UnskippedIsExact(skipped, p, Pushed(log, start));
  }
}
