/**
 The append-only event log: the rows of the `events` table, the subscription
 filter, and the historical query, which limits the raw rows first and filters
 them afterwards.
 */
module EventLog {
  import opened Basics

  /** The payload kinds a projector of this model distinguishes. */
  datatype Payload =
    | EntityRegistered(instance: string, device: string, entityType: string, friendlyName: string, caps: string)
    | EntityUnregistered
    | DriverEvent(instance: string, kind: string, detail: string)
    | OtherPayload(body: string)

  datatype Event = Event(
    position: nat, ts: int, kind: string, entity: string, source: string,
    correlation: nat, cause: nat, payload: Payload)

  /** An unset time bound is `None`; an empty list leaves its field unconstrained. */
  datatype Filter = Filter(
    kinds: seq<string>, entities: seq<string>, sources: seq<string>, correlations: seq<nat>,
    minTs: Option<int>, maxTs: Option<int>)
  {
    predicate Matches(e: Event) {
      && (|kinds| > 0 ==> e.kind in kinds)
      && (|entities| > 0 ==> e.entity in entities)
      && (|sources| > 0 ==> e.source in sources)
      && (|correlations| > 0 ==> e.correlation in correlations)
      && (minTs.Some? ==> e.ts >= minTs.value)
      && (maxTs.Some? ==> e.ts <= maxTs.value)
    }
  }

  const EMPTY_FILTER := Filter([], [], [], [], None, None)

  /** A filter on one field alone constrains that field and nothing else. */
  lemma OneFieldFilter(f: Filter, e: Event)
    ensures f == EMPTY_FILTER ==> f.Matches(e)
    ensures f == EMPTY_FILTER.(kinds := f.kinds) && f.kinds != [] ==> (f.Matches(e) <==> e.kind in f.kinds)
    ensures f == EMPTY_FILTER.(entities := f.entities) && f.entities != [] ==>
              (f.Matches(e) <==> e.entity in f.entities)
    ensures f == EMPTY_FILTER.(sources := f.sources) && f.sources != [] ==> (f.Matches(e) <==> e.source in f.sources)
    ensures f == EMPTY_FILTER.(correlations := f.correlations) && f.correlations != [] ==>
              (f.Matches(e) <==> e.correlation in f.correlations)
    ensures f == EMPTY_FILTER.(minTs := f.minTs) && f.minTs.Some? ==> (f.Matches(e) <==> f.minTs.value <= e.ts)
    ensures f == EMPTY_FILTER.(maxTs := f.maxTs) && f.maxTs.Some? ==> (f.Matches(e) <==> e.ts <= f.maxTs.value)
  {
  }

  /** Populated fields are and-ed together. */
  lemma FieldsAreAnded(f: Filter, e: Event)
    ensures f.Matches(e) <==>
            && EMPTY_FILTER.(kinds := f.kinds).Matches(e) && EMPTY_FILTER.(entities := f.entities).Matches(e)
            && EMPTY_FILTER.(sources := f.sources).Matches(e)
            && EMPTY_FILTER.(correlations := f.correlations).Matches(e)
            && EMPTY_FILTER.(minTs := f.minTs).Matches(e) && EMPTY_FILTER.(maxTs := f.maxTs).Matches(e)
  {
  }

  /** Positions strictly increase along `s`. */
  ghost predicate Increasing(s: seq<Event>) {
    forall i, j | 0 <= i < j < |s| :: s[i].position < s[j].position
  }

  /** What AUTOINCREMENT and one writer give: positions start at 1 and follow commit order. */
  ghost predicate Ordered(log: seq<Event>) {
    && Increasing(log)
    && forall i | 0 <= i < |log| :: log[i].position > 0
  }

  /** The highest committed position; 0 on an empty log. */
  function End(log: seq<Event>): nat {
    if |log| == 0 then 0 else log[|log| - 1].position
  }

  /** The WHERE clause of the query: an upper bound of 0 means none. */
  predicate InRange(e: Event, from: nat, to: nat) {
    e.position > from && (to == 0 || e.position <= to)
  }

  /** All rows with `from < position <= to`, in order. */
  function Range(log: seq<Event>, from: nat, to: nat): seq<Event> {
    if |log| == 0 then []
    else
      var rest := Range(log[..|log| - 1], from, to);
      if InRange(log[|log| - 1], from, to) then rest + [log[|log| - 1]] else rest
  }

  function Keep(f: Filter, rows: seq<Event>): seq<Event> {
    if |rows| == 0 then []
    else
      var rest := Keep(f, rows[..|rows| - 1]);
      if f.Matches(rows[|rows| - 1]) then rest + [rows[|rows| - 1]] else rest
  }

  function Limited(rows: seq<Event>, limit: nat): seq<Event> {
    if |rows| <= limit then rows else rows[..limit]
  }

  /** A limit that is not positive stands for 1000. */
  function EffectiveLimit(limit: int): nat { if limit <= 0 then 1000 else limit }

  /** The reference meaning of a query: range, then LIMIT, then filter. */
  function QueryRows(log: seq<Event>, from: nat, to: nat, f: Filter, limit: int): seq<Event> {
    Keep(f, Limited(Range(log, from, to), EffectiveLimit(limit)))
  }

  /** The scan over the rows the database returns. */
  method Query(log: seq<Event>, from: nat, to: nat, f: Filter, limit: int) returns (out: seq<Event>)
    ensures out == QueryRows(log, from, to, f, limit)
  {
    var rows := Limited(Range(log, from, to), EffectiveLimit(limit));
    out := [];
    var i := 0;
    while i < |rows|
      invariant 0 <= i <= |rows|
      invariant out == Keep(f, rows[..i])
    {
      assert rows[..i + 1][..i] == rows[..i];
      if f.Matches(rows[i]) {
        out := out + [rows[i]];
      }
      i := i + 1;
    }
    assert rows[..i] == rows;
  }

  lemma {:induction false} EndIsLargest(log: seq<Event>, e: Event)
    requires Ordered(log) && e in log
    ensures 0 < e.position <= End(log)
  {
    var i :| 0 <= i < |log| && log[i] == e;
    if i < |log| - 1 { assert log[i].position < log[|log| - 1].position; }
  }

  /** A position names one event. */
  lemma SamePosition(log: seq<Event>, a: Event, b: Event)
    requires Ordered(log) && a in log && b in log && a.position == b.position
    ensures a == b
  {
    var i :| 0 <= i < |log| && log[i] == a;
    var j :| 0 <= j < |log| && log[j] == b;
  }

  lemma {:induction false} RangeIsExact(log: seq<Event>, from: nat, to: nat)
    requires Ordered(log)
    ensures Increasing(Range(log, from, to))
    ensures forall e :: e in Range(log, from, to) <==> e in log && InRange(e, from, to)
  {
    if |log| > 0 {
      var init, last := log[..|log| - 1], log[|log| - 1];
      assert log == init + [last];
      RangeIsExact(init, from, to);
      forall e | e in Range(init, from, to) ensures e.position < last.position {
        var i :| 0 <= i < |init| && init[i] == e;
        assert log[i].position < log[|log| - 1].position;
      }
    }
  }

  lemma {:induction false} KeepIsExact(f: Filter, rows: seq<Event>)
    requires Increasing(rows)
    ensures Increasing(Keep(f, rows))
    ensures forall e :: e in Keep(f, rows) <==> e in rows && f.Matches(e)
  {
    if |rows| > 0 {
      var init, last := rows[..|rows| - 1], rows[|rows| - 1];
      assert rows == init + [last];
      KeepIsExact(f, init);
      forall e | e in Keep(f, init) ensures e.position < last.position {
        var i :| 0 <= i < |init| && init[i] == e;
        assert rows[i].position < rows[|rows| - 1].position;
      }
    }
  }

  /** The position up to which one page of a query is complete. */
  function PageEnd(log: seq<Event>, from: nat, to: nat, limit: int): nat {
    var rows, n := Range(log, from, to), EffectiveLimit(limit);
    if |rows| <= n then to else rows[n - 1].position
  }

  /** Cutting increasing rows at the limit is cutting them at the last position kept. */
  lemma LimitedIsExact(rows: seq<Event>, n: nat, e: Event)
    requires Increasing(rows) && 0 < n < |rows|
    ensures e in rows[..n] <==> e in rows && e.position <= rows[n - 1].position
    ensures Increasing(rows[..n])
  {
    var page := rows[..n];
    assert forall i | 0 <= i < n :: page[i] == rows[i];
    if e in rows {
      var i :| 0 <= i < |rows| && rows[i] == e;
      assert n <= i ==> rows[n - 1].position < rows[i].position;
      assert i < n - 1 ==> rows[i].position < rows[n - 1].position;
      if i < n { assert page[i] == e; }
      if e in page {
        var j :| 0 <= j < n && page[j] == e;
        assert j < n - 1 ==> rows[j].position < rows[n - 1].position;
      }
    }
  }

  /**
   A page holds exactly the matching events between `from` and `PageEnd`; the page
   reaches `to` only when at most `limit` raw rows are left.
   */
  lemma QueryIsExact(log: seq<Event>, from: nat, to: nat, f: Filter, limit: int)
    requires Ordered(log) && from < to
    ensures Increasing(QueryRows(log, from, to, f, limit))
    ensures from < PageEnd(log, from, to, limit) <= to
    ensures forall e :: e in QueryRows(log, from, to, f, limit) <==>
                        e in log && f.Matches(e) && from < e.position <= PageEnd(log, from, to, limit)
  {
    var rows, n := Range(log, from, to), EffectiveLimit(limit);
    RangeIsExact(log, from, to);
    if |rows| > n {
      assert rows[n - 1] in rows;
      LimitedIsExact(rows, n, rows[0]);
    }
    KeepIsExact(f, Limited(rows, n));
    forall e ensures e in QueryRows(log, from, to, f, limit) <==>
                     e in log && f.Matches(e) && from < e.position <= PageEnd(log, from, to, limit)
    {
      if |rows| > n { LimitedIsExact(rows, n, e); }
    }
  }

  /** Two increasing sequences with the same elements are equal. */
  lemma {:induction false} IncreasingIsCanonical(a: seq<Event>, b: seq<Event>)
    requires Increasing(a) && Increasing(b)
    requires forall e :: e in a <==> e in b
    ensures a == b
    decreases |a|
  {
    assert |a| > 0 ==> a[0] in b;
    assert |b| > 0 ==> b[0] in a;
    if |a| > 0 {
      var i :| 0 <= i < |b| && b[i] == a[0];
      var j :| 0 <= j < |a| && a[j] == b[0];
      assert b[0].position <= b[i].position && a[0].position <= a[j].position;
      assert a[0] == b[0];
      forall e ensures e in a[1..] <==> e in b[1..] {
        assert e in a <==> e == a[0] || e in a[1..] by { assert a == [a[0]] + a[1..]; }
        assert e in b <==> e == b[0] || e in b[1..] by { assert b == [b[0]] + b[1..]; }
      }
      IncreasingIsCanonical(a[1..], b[1..]);
      assert a == [a[0]] + a[1..] && b == [b[0]] + b[1..];
    }
  }
}
