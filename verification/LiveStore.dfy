/**
 The sequential code of the tailer and of a subscriber's catch-up, on the store's own
 fields. Each method is shown to be one path of the step system of `Handoff`, so the
 theorems about every interleaving cover it.
 */
module LiveStore {
  import opened Basics
  import opened EventLog
  import opened Handoff

  /** Offering an event to every subscriber of a snapshot, one after the other. */
  function OfferAll(s: State, e: Event, todo: seq<SubId>): (r: State)
    requires forall id | id in todo :: id in s.subs
    ensures r.subs.Keys == s.subs.Keys && r.log == s.log && r.latest == s.latest && r.unpublished == s.unpublished
    ensures r.batch == s.batch && r.cursor == s.cursor && r.tailing == s.tailing
    decreases |todo|
  {
    if |todo| == 0 then s else OfferAll(Offer(s, todo[0], e), e, todo[1..])
  }

  /** The state after the tailer has handed out the head of its batch. */
  function Handed(s: State): State
    requires |s.batch| > 0 && forall id | id in s.registered :: id in s.subs
  {
    OfferAll(s, s.batch[0], s.registered).(batch := s.batch[1..], cursor := s.batch[0].position)
  }

  lemma {:induction false} OfferAllIsAPath(run: seq<State>, steps: seq<Step>, todo: seq<SubId>)
    returns (run': seq<State>, steps': seq<Step>)
    requires IsPath(run, steps)
    requires run[|steps|].tailing.Dispatching? && run[|steps|].tailing.todo == todo
    requires forall id | id in todo :: id in run[|steps|].subs
    ensures IsPath(run', steps') && run'[0] == run[0]
    ensures var s := run[|steps|];
            run'[|steps'|] == OfferAll(s, s.tailing.event, todo).(tailing := Dispatching(s.tailing.event, []))
    decreases |todo|
  {
    var s := run[|steps|];
    if |todo| == 0 {
      run', steps' := run, steps;
    } else {
      PathExtends(run, steps, DispatchNext);
      var s' := Apply(s, DispatchNext);
      run', steps' := OfferAllIsAPath(run + [s'], steps + [DispatchNext], todo[1..]);
      OfferAllIgnoresTailing(Offer(s, todo[0], s.tailing.event), s.tailing.event, todo[1..], s'.tailing);
    }
  }

  lemma {:induction false} OfferAllIgnoresTailing(s: State, e: Event, todo: seq<SubId>, t: Tailing)
    requires forall id | id in todo :: id in s.subs
    ensures OfferAll(s.(tailing := t), e, todo) == OfferAll(s, e, todo).(tailing := t)
    decreases |todo|
  {
    if |todo| > 0 {
      OfferAllIgnoresTailing(Offer(s, todo[0], e), e, todo[1..], t);
      assert Offer(s.(tailing := t), todo[0], e) == Offer(s, todo[0], e).(tailing := t);
    }
  }

  /** Uninterrupted, the tailer's loop body is a path of the step system. */
  lemma HandedIsAPath(s: State) returns (run: seq<State>, steps: seq<Step>)
    requires RegInv(s) && Enabled(s, BeginDispatch)
    ensures IsPath(run, steps) && run[0] == s && run[|steps|] == Handed(s)
  {
    var s1 := Apply(s, BeginDispatch);
    var e := s.batch[0];
    run, steps := OfferAllIsAPath([s, s1], [BeginDispatch], s.registered);
    PathExtends(run, steps, EndDispatch);
    OfferAllIgnoresTailing(s.(batch := s1.batch), e, s.registered, s1.tailing);
    OfferAllIgnoresBatch(s, e, s.registered, s1.batch);
    run, steps := run + [Apply(run[|steps|], EndDispatch)], steps + [EndDispatch];
  }

  lemma {:induction false} OfferAllIgnoresBatch(s: State, e: Event, todo: seq<SubId>, b: seq<Event>)
    requires forall id | id in todo :: id in s.subs
    ensures OfferAll(s.(batch := b), e, todo) == OfferAll(s, e, todo).(batch := b)
    decreases |todo|
  {
    if |todo| > 0 {
      OfferAllIgnoresBatch(Offer(s, todo[0], e), e, todo[1..], b);
      assert Offer(s.(batch := b), todo[0], e) == Offer(s, todo[0], e).(batch := b);
    }
  }

  // ---------------------------------------------------------------- what catch-up sends

  lemma MatchingIsExact(log: seq<Event>, f: Filter, from: nat, to: nat)
    requires Ordered(log)
    ensures Increasing(Matching(log, f, from, to))
    ensures forall e :: e in Matching(log, f, from, to) <==> e in log && f.Matches(e) && from < e.position <= to
  {
    if from < to {
      RangeIsExact(log, from, to);
      KeepIsExact(f, Range(log, from, to));
    }
  }

  /** Matching events up to a position, then those beyond it. */
  lemma MatchingSplits(log: seq<Event>, f: Filter, a: nat, b: nat, c: nat)
    requires Ordered(log) && a <= b <= c
    ensures Matching(log, f, a, c) == Matching(log, f, a, b) + Matching(log, f, b, c)
  {
    MatchingIsExact(log, f, a, b);
    MatchingIsExact(log, f, b, c);
    MatchingIsExact(log, f, a, c);
    var low, high := Matching(log, f, a, b), Matching(log, f, b, c);
    var both: seq<Event> := low + high;
    forall i, j | 0 <= i < j < |both| ensures both[i].position < both[j].position {
      assert i < |low| ==> low[i] in low;
      assert j >= |low| ==> high[j - |low|] in high;
    }
    IncreasingIsCanonical(Matching(log, f, a, c), both);
  }

  lemma PrefixHas(page: seq<Event>, n: nat, e: Event)
    requires Increasing(page) && 0 < n <= |page|
    ensures e in page[..n] <==> e in page && e.position <= page[n - 1].position
  {
    if n < |page| {
      LimitedIsExact(page, n, e);
    } else {
      assert page[..n] == page;
      if e in page {
        var i :| 0 <= i < |page| && page[i] == e;
        assert i < n - 1 ==> page[i].position < page[n - 1].position;
      }
    }
  }

  /** A page sent up to some event is everything that matches up to that event. */
  lemma PagePrefix(log: seq<Event>, f: Filter, low: nat, page: seq<Event>, n: nat)
    requires Ordered(log) && Chunk(log, f, low, page) && 0 < n <= |page|
    ensures page[..n] == Matching(log, f, low, page[n - 1].position)
  {
    var top := page[n - 1].position;
    MatchingIsExact(log, f, low, top);
    assert page[n - 1] in page;
    forall e ensures e in page[..n] <==> e in Matching(log, f, low, top) { PrefixHas(page, n, e); }
    assert Increasing(page[..n]);
    IncreasingIsCanonical(page[..n], Matching(log, f, low, top));
  }

  /** The query at this watermark comes back empty although a match lies between it and the target. */
  ghost predicate Skips(log: seq<Event>, f: Filter, from: nat, to: nat) {
    from < to && QueryRows(log, from, to, f, 1000) == [] && Matching(log, f, from, to) != []
  }

  lemma PageMoves(log: seq<Event>, f: Filter, from: nat, to: nat)
    requires Ordered(log) && from < to
    ensures var page := QueryRows(log, from, to, f, 1000);
            && Chunk(log, f, from, page)
            && (page != [] ==> from < page[|page| - 1].position <= to)
  {
    QueryIsExact(log, from, to, f, 1000);
    var page := QueryRows(log, from, to, f, 1000);
    if page != [] { assert page[|page| - 1] in page; }
  }

  /** No page of a catch-up from `from` to `to` comes back empty before a match. */
  ghost predicate NeverSkips(log: seq<Event>, f: Filter, from: nat, to: nat)
    requires Ordered(log)
    decreases Max(to - from, 0)
  {
    from < to ==>
      var page := QueryRows(log, from, to, f, 1000);
      && !Skips(log, f, from, to)
      && (page == [] || (PageMoves(log, f, from, to); NeverSkips(log, f, page[|page| - 1].position, to)))
  }

  /** An unfiltered subscription, or at most 1000 rows to go, never skips. */
  lemma {:induction false} ShortOrUnfiltered(log: seq<Event>, f: Filter, from: nat, to: nat)
    requires Ordered(log) && (f == EMPTY_FILTER || |Range(log, from, to)| <= 1000)
    ensures NeverSkips(log, f, from, to)
    decreases Max(to - from, 0)
  {
    if from < to {
      var rows, page := Range(log, from, to), QueryRows(log, from, to, f, 1000);
      PageMoves(log, f, from, to);
      MatchingIsExact(log, f, from, to);
      RangeIsExact(log, from, to);
      QueryIsExact(log, from, to, f, 1000);
      if |rows| > 1000 { assert rows[999] in rows && rows[999] in page; }
      if page != [] {
        var next := page[|page| - 1].position;
        RangeShrinks(log, from, next, to);
        ShortOrUnfiltered(log, f, next, to);
      }
    }
  }

  lemma {:induction false} RangeShrinks(log: seq<Event>, a: nat, b: nat, to: nat)
    requires a <= b
    ensures |Range(log, b, to)| <= |Range(log, a, to)|
  {
    if |log| > 0 { RangeShrinks(log[..|log| - 1], a, b, to); }
  }

  // ---------------------------------------------------------------- catch-up as a path

  /** Some path of the step system goes from one state to the other. */
  ghost predicate Leads(s: State, s': State) {
    exists run, steps :: IsPath(run, steps) && run[0] == s && run[|steps|] == s'
  }

  lemma StepLeads(s: State, step: Step)
    requires Enabled(s, step)
    ensures Leads(s, Apply(s, step))
  {
    var run, steps := [s, Apply(s, step)], [step];
    assert IsPath(run, steps) && run[0] == s && run[|steps|] == Apply(s, step);
  }

  lemma StayLeads(s: State)
    ensures Leads(s, s)
  {
    var run: seq<State>, steps: seq<Step> := [s], [];
    assert IsPath(run, steps) && run[0] == s && run[|steps|] == s;
  }

  lemma LeadsOn(a: State, b: State, c: State)
    requires Leads(a, b) && Leads(b, c)
    ensures Leads(a, c)
  {
    var run1, steps1 :| IsPath(run1, steps1) && run1[0] == a && run1[|steps1|] == b;
    var run2, steps2 :| IsPath(run2, steps2) && run2[0] == b && run2[|steps2|] == c;
    var run, steps := run1 + run2[1..], steps1 + steps2;
    forall i | 0 <= i < |steps| ensures Next(run[i], steps[i], run[i + 1]) {
      if i < |steps1| {
        assert Next(run1[i], steps1[i], run1[i + 1]);
      } else {
        assert Next(run2[i - |steps1|], steps2[i - |steps1|], run2[i - |steps1| + 1]);
      }
    }
    assert IsPath(run, steps) && run[0] == a && run[|steps|] == c;
  }

  /** One step of a subscriber's catch-up goroutine or of its consumer. */
  ghost predicate SubNext(log: seq<Event>, latest: nat, a: Sub, b: Sub) {
    || (|a.queue| > 0 && b == Received(a))
    || (&& a.phase.Sending? && |a.phase.page| > 0 && !a.closed && |a.queue| < a.capacity && b == SendPage(a))
    || (!a.phase.Registered? && b == a.(phase := Ended))
    || (a.phase.CatchingUp? && a.lastSent < latest && b == ReadPage(log, latest, a))
  }

  ghost predicate IsTrail(log: seq<Event>, latest: nat, trail: seq<Sub>) {
    |trail| > 0 && forall i | 0 <= i < |trail| - 1 :: SubNext(log, latest, trail[i], trail[i + 1])
  }

  /** The catch-up goroutine and the consumer take the subscriber from `a` to `b`. */
  ghost predicate Goes(log: seq<Event>, latest: nat, a: Sub, b: Sub) {
    exists trail :: IsTrail(log, latest, trail) && trail[0] == a && trail[|trail| - 1] == b
  }

  lemma Stays(log: seq<Event>, latest: nat, a: Sub)
    ensures Goes(log, latest, a, a)
  {
    assert IsTrail(log, latest, [a]) && [a][0] == a;
  }

  lemma GoesOn(log: seq<Event>, latest: nat, a: Sub, b: Sub, c: Sub)
    requires Goes(log, latest, a, b) && SubNext(log, latest, b, c)
    ensures Goes(log, latest, a, c)
  {
    var trail :| IsTrail(log, latest, trail) && trail[0] == a && trail[|trail| - 1] == b;
    var more := trail + [c];
    forall i | 0 <= i < |more| - 1 ensures SubNext(log, latest, more[i], more[i + 1]) {
      if i < |trail| - 1 { assert SubNext(log, latest, trail[i], trail[i + 1]); }
    }
    assert IsTrail(log, latest, more) && more[0] == a && more[|more| - 1] == c;
  }

  lemma GoesFurther(log: seq<Event>, latest: nat, a: Sub, b: Sub, c: Sub)
    requires Goes(log, latest, a, b) && Goes(log, latest, b, c)
    ensures Goes(log, latest, a, c)
  {
    var t :| IsTrail(log, latest, t) && t[0] == a && t[|t| - 1] == b;
    var u :| IsTrail(log, latest, u) && u[0] == b && u[|u| - 1] == c;
    var more := t + u[1..];
    forall i | 0 <= i < |more| - 1 ensures SubNext(log, latest, more[i], more[i + 1]) {
      if i < |t| - 1 {
        assert SubNext(log, latest, t[i], t[i + 1]);
      } else {
        assert SubNext(log, latest, u[i - |t| + 1], u[i - |t| + 2]);
      }
    }
    assert IsTrail(log, latest, more) && more[0] == a && more[|more| - 1] == c;
  }

  lemma SubStepKeepsInv(log: seq<Event>, latest: nat, a: Sub, b: Sub)
    requires Ordered(log) && latest <= End(log) && SubInv(log, a) && SubNext(log, latest, a, b)
    ensures SubInv(log, b)
  {
    if |a.queue| > 0 && b == Received(a) {
      ReceiveKeepsSub(log, a);
    } else if a.phase.Sending? && |a.phase.page| > 0 && b == SendPage(a) {
      SendPageKeepsSub(log, a);
    } else if b == a.(phase := Ended) {
      assert b.Delivered() == a.Delivered();
    } else {
      ReadPageKeepsSub(log, latest, a);
    }
  }

  lemma {:induction false} TrailKeepsInv(log: seq<Event>, latest: nat, trail: seq<Sub>, n: nat)
    requires Ordered(log) && latest <= End(log) && IsTrail(log, latest, trail) && SubInv(log, trail[0]) && n < |trail|
    ensures SubInv(log, trail[n])
  {
    if n > 0 {
      TrailKeepsInv(log, latest, trail, n - 1);
      assert SubNext(log, latest, trail[n - 1], trail[n - 1 + 1]);
      SubStepKeepsInv(log, latest, trail[n - 1], trail[n]);
    }
  }

  lemma GoesKeepsInv(log: seq<Event>, latest: nat, a: Sub, b: Sub)
    requires Ordered(log) && latest <= End(log) && SubInv(log, a) && Goes(log, latest, a, b)
    ensures SubInv(log, b)
  {
    var trail :| IsTrail(log, latest, trail) && trail[0] == a && trail[|trail| - 1] == b;
    TrailKeepsInv(log, latest, trail, |trail| - 1);
  }

  /** Inside a store such a step is a step of the step system. */
  lemma SubStepLeads(s: State, id: SubId, b: Sub)
    requires id in s.subs && SubNext(s.log, s.latest, s.subs[id], b)
    ensures Leads(s, s.(subs := s.subs[id := b]))
  {
    var a := s.subs[id];
    if |a.queue| > 0 && b == Received(a) {
      StepLeads(s, Receive(id));
    } else if a.phase.Sending? && |a.phase.page| > 0 && !a.closed && |a.queue| < a.capacity && b == SendPage(a) {
      StepLeads(s, CatchupSend(id));
    } else if !a.phase.Registered? && b == a.(phase := Ended) {
      StepLeads(s, CatchupStop(id));
    } else {
      StepLeads(s, CatchupRead(id));
    }
  }

  lemma {:induction false} TrailLeads(s: State, id: SubId, trail: seq<Sub>, n: nat)
    requires id in s.subs && IsTrail(s.log, s.latest, trail) && s.subs[id] == trail[0] && n < |trail|
    ensures Leads(s, s.(subs := s.subs[id := trail[n]]))
  {
    if n == 0 {
      assert s.subs[id := trail[0]] == s.subs;
      StayLeads(s);
    } else {
      TrailLeads(s, id, trail, n - 1);
      var m := s.(subs := s.subs[id := trail[n - 1]]);
      assert SubNext(s.log, s.latest, trail[n - 1], trail[n - 1 + 1]);
      SubStepLeads(m, id, trail[n]);
      assert m.subs[id := trail[n]] == s.subs[id := trail[n]];
      LeadsOn(s, m, s.(subs := s.subs[id := trail[n]]));
    }
  }

  lemma GoesLeads(s: State, id: SubId, b: Sub)
    requires id in s.subs && Goes(s.log, s.latest, s.subs[id], b)
    ensures Leads(s, s.(subs := s.subs[id := b]))
  {
    var trail :| IsTrail(s.log, s.latest, trail) && trail[0] == s.subs[id] && trail[|trail| - 1] == b;
    TrailLeads(s, id, trail, |trail| - 1);
  }

  // ---------------------------------------------------------------- the code of catch-up

  lemma TakeOne(d: seq<Event>, page: seq<Event>, i: nat)
    requires i < |page|
    ensures d + page[..i] + [page[i]] == d + page[..i + 1]
    ensures page[i..][0] == page[i] && page[i..][1..] == page[i + 1..]
  {
  }

  lemma SendStep(log: seq<Event>, sub: Sub)
    requires Ordered(log) && SubInv(log, sub) && sub.phase.Sending?
    ensures SubInv(log, SendPage(sub)) && SendPage(sub).lastSent == sub.phase.page[0].position
    ensures SendPage(sub).Delivered() == sub.Delivered() + [sub.phase.page[0]]
  {
    SendPageKeepsSub(log, sub);
  }

  /** How many more sends end well before the context cuts a wait short; `None` if it never does. */
  type Patience = Option<nat>

  function Left(p: Patience, sent: nat): Patience {
    if p.Some? && sent <= p.value then Some(p.value - sent) else p
  }

  /** How many of `n` events get through to a subscriber. */
  function Through(closed: bool, p: Patience, n: nat): nat {
    if closed then 0 else if p.Some? then Min(n, p.value) else n
  }

  /** The consumer takes the oldest event. */
  function Received(sub: Sub): Sub
    requires |sub.queue| > 0
  {
    sub.(received := sub.received + [sub.queue[0]], queue := sub.queue[1..])
  }

  /** What catch-up never changes. */
  predicate SameRequest(a: Sub, b: Sub) {
    a.from == b.from && a.filter == b.filter && a.closed == b.closed && a.capacity == b.capacity
  }

  /** A blocking send waits at a full channel until the consumer has taken an event, or the wait is cut short. */
  method BlockingSend(log: seq<Event>, ghost latest: nat, sub: Sub, cut: bool) returns (sent: bool, r: Sub)
    requires Ordered(log) && SubInv(log, sub) && sub.phase.Sending? && sub.capacity > 0
    ensures sent <==> !sub.closed && !cut
    ensures !sent ==> r == sub
    ensures sent ==> SubInv(log, r) && SameRequest(sub, r) && r.lastSent == sub.phase.page[0].position
                     && r.phase == SendPage(sub).phase && r.Delivered() == sub.Delivered() + [sub.phase.page[0]]
    ensures Goes(log, latest, sub, r)
  {
    if sub.closed || cut {
      Stays(log, latest, sub);
      return false, sub;
    }
    r := sub;
    Stays(log, latest, sub);
    while |r.queue| >= r.capacity
      invariant SubInv(log, r) && SameRequest(sub, r) && r.phase == sub.phase && r.Delivered() == sub.Delivered()
      invariant Goes(log, latest, sub, r)
      decreases |r.queue|
    {
      ReceiveKeepsSub(log, r);
      GoesOn(log, latest, sub, r, Received(r));
      r := Received(r);
    }
    SendStep(log, r);
    GoesOn(log, latest, sub, r, SendPage(r));
    r := SendPage(r);
    sent := true;
  }

  /** `n` events of the page that `sub` set out with have been sent. */
  ghost predicate MidPage(log: seq<Event>, latest: nat, sub: Sub, r: Sub, n: nat)
    requires sub.phase.Sending?
  {
    var page := sub.phase.page;
    && n <= |page| && SameRequest(sub, r)
    && r.phase == (if n < |page| then Sending(page[n..]) else CatchingUp)
    && r.Delivered() == sub.Delivered() + page[..n]
    && r.lastSent == (if n == 0 then sub.lastSent else page[n - 1].position)
    && Goes(log, latest, sub, r)
  }

  lemma StartOfPage(log: seq<Event>, latest: nat, sub: Sub)
    requires sub.phase.Sending? && |sub.phase.page| > 0
    ensures MidPage(log, latest, sub, sub, 0)
  {
    Stays(log, latest, sub);
    assert sub.phase.page[0..] == sub.phase.page && sub.Delivered() + sub.phase.page[..0] == sub.Delivered();
  }

  lemma CutShort(log: seq<Event>, latest: nat, sub: Sub, r: Sub, n: nat)
    requires sub.phase.Sending? && MidPage(log, latest, sub, r, n)
    ensures var e := r.(phase := Ended);
            SameRequest(sub, e) && e.Delivered() == r.Delivered() && Goes(log, latest, sub, e)
  {
    assert r.(phase := Ended).Delivered() == r.Delivered();
    GoesOn(log, latest, sub, r, r.(phase := Ended));
  }

  /** The next event of the page. */
  method SendNext(log: seq<Event>, ghost latest: nat, ghost sub: Sub, now: Sub, ghost n: nat, cut: bool)
    returns (sent: bool, r: Sub)
    requires Ordered(log) && latest <= End(log) && SubInv(log, sub) && sub.phase.Sending? && sub.capacity > 0
    requires MidPage(log, latest, sub, now, n) && n < |sub.phase.page|
    ensures sent <==> !sub.closed && !cut
    ensures sent ==> MidPage(log, latest, sub, r, n + 1)
    ensures !sent ==> r == now
  {
    GoesKeepsInv(log, latest, sub, now);
    sent, r := BlockingSend(log, latest, now, cut);
    if sent {
      TakeOne(sub.Delivered(), sub.phase.page, n);
      GoesFurther(log, latest, sub, now, r);
    }
  }

  /**
   The blocking sends of one page. A full channel holds the page up; only a closed
   subscriber or a wait cut short ends it early, behind the events already sent.
   */
  method SendWholePage(log: seq<Event>, ghost latest: nat, sub: Sub, p: Patience) returns (r: Sub, n: nat)
    requires Ordered(log) && latest <= End(log) && SubInv(log, sub) && sub.phase.Sending? && sub.capacity > 0
    ensures SameRequest(sub, r)
    ensures n == Through(sub.closed, p, |sub.phase.page|)
    ensures r.Delivered() == sub.Delivered() + sub.phase.page[..n]
    ensures r.lastSent == if n == 0 then sub.lastSent else sub.phase.page[n - 1].position
    ensures r.phase == if n == |sub.phase.page| then CatchingUp else Ended
    ensures Goes(log, latest, sub, r)
  {
    r, n := sub, 0;
    StartOfPage(log, latest, sub);
    while n < |sub.phase.page|
      invariant MidPage(log, latest, sub, r, n) && (n > 0 ==> !sub.closed) && (p.Some? ==> n <= p.value)
    {
      var sent, next := SendNext(log, latest, sub, r, n, p.Some? && n >= p.value);
      if !sent {
        CutShort(log, latest, sub, r, n);
        r := r.(phase := Ended);
        return;
      }
      r, n := next, n + 1;
    }
  }

  /**
   What one turn below the target sends: exactly what matches between the old and the new
   watermark, unless the query skips a match; then nothing is sent and the watermark jumps.
   */
  ghost predicate Sends(log: seq<Event>, target: nat, sub: Sub, r: Sub) {
    if Skips(log, sub.filter, sub.lastSent, target)
    then r.Delivered() == sub.Delivered() && r.lastSent == target && r.phase.CatchingUp?
    else && sub.lastSent <= r.lastSent <= target
         && r.Delivered() == sub.Delivered() + Matching(log, sub.filter, sub.lastSent, r.lastSent)
  }

  /** A turn that is not cut short has sent the whole page, and stands at its end or at the target. */
  ghost predicate WholePage(log: seq<Event>, target: nat, sub: Sub, r: Sub) {
    var rows := QueryRows(log, sub.lastSent, target, sub.filter, 1000);
    && r.Delivered() == sub.Delivered() + rows
    && r.lastSent == if rows == [] then target else rows[|rows| - 1].position
  }

  lemma JumpSends(log: seq<Event>, target: nat, sub: Sub)
    requires Ordered(log) && sub.lastSent < target && sub.phase.CatchingUp?
    requires QueryRows(log, sub.lastSent, target, sub.filter, 1000) == []
    ensures var r := sub.(lastSent := target);
            Sends(log, target, sub, r) && WholePage(log, target, sub, r)
  {
    assert sub.(lastSent := target).Delivered() == sub.Delivered();
  }

  lemma PageSends(log: seq<Event>, target: nat, sub: Sub, r: Sub, n: nat)
    requires Ordered(log) && sub.lastSent < target
    requires var rows := QueryRows(log, sub.lastSent, target, sub.filter, 1000);
             && rows != [] && n <= |rows| && r.Delivered() == sub.Delivered() + rows[..n]
             && r.lastSent == if n == 0 then sub.lastSent else rows[n - 1].position
    ensures Sends(log, target, sub, r)
    ensures n == |QueryRows(log, sub.lastSent, target, sub.filter, 1000)| ==> WholePage(log, target, sub, r)
  {
    var rows := QueryRows(log, sub.lastSent, target, sub.filter, 1000);
    QueryIsExact(log, sub.lastSent, target, sub.filter, 1000);
    PageMoves(log, sub.filter, sub.lastSent, target);
    if n > 0 {
      assert rows[n - 1] in rows;
      PagePrefix(log, sub.filter, sub.lastSent, rows, n);
    }
    assert n == |rows| ==> rows[..n] == rows;
  }

  /** One turn of the catch-up loop below its target: a query, then its page or the jump. */
  method CatchupTurn(log: seq<Event>, target: nat, sub: Sub, p: Patience) returns (r: Sub, left: Patience)
    requires Ordered(log) && target <= End(log) && sub.lastSent < target
    requires SubInv(log, sub) && sub.phase.CatchingUp? && sub.capacity > 0
    ensures SameRequest(sub, r)
    ensures var rows := |QueryRows(log, sub.lastSent, target, sub.filter, 1000)|;
            && r.phase == (if Through(sub.closed, p, rows) == rows then CatchingUp else Ended)
            && left == Left(p, Through(sub.closed, p, rows))
    ensures Sends(log, target, sub, r)
    ensures r.phase.CatchingUp? ==> WholePage(log, target, sub, r)
    ensures Goes(log, target, sub, r)
  {
    var rows := Query(log, sub.lastSent, target, sub.filter, 1000);
    ReadPageKeepsSub(log, target, sub);
    Stays(log, target, sub);
    GoesOn(log, target, sub, sub, ReadPage(log, target, sub));
    if |rows| == 0 {
      JumpSends(log, target, sub);
      return sub.(lastSent := target), p;
    }
    var reading := sub.(phase := Sending(rows));
    assert reading.Delivered() == sub.Delivered();
    var n;
    r, n := SendWholePage(log, target, reading, p);
    left := Left(p, n);
    PageSends(log, target, sub, r, n);
    GoesFurther(log, target, sub, reading, r);
  }

  /** Half-way through catch-up: complete so far and the rest decides, or a match is lost already. */
  ghost predicate CaughtUp(log: seq<Event>, target: nat, was: Sub, sub: Sub)
    requires Ordered(log)
  {
    if sub.Delivered() == was.Delivered() + Matching(log, was.filter, was.lastSent, sub.lastSent)
    then NeverSkips(log, was.filter, was.lastSent, target) <==> NeverSkips(log, was.filter, sub.lastSent, target)
    else !NeverSkips(log, was.filter, was.lastSent, target) && target <= sub.lastSent
  }

  /** The loop invariant of catch-up. */
  ghost predicate Between(log: seq<Event>, target: nat, was: Sub, sub: Sub)
    requires Ordered(log)
  {
    && SubInv(log, sub) && SameRequest(was, sub) && sub.capacity > 0
    && was.lastSent <= sub.lastSent <= Max(was.lastSent, target)
    && (sub.phase.CatchingUp? || sub.phase.Ended?)
    && (sub.phase.CatchingUp? ==> CaughtUp(log, target, was, sub))
  }

  lemma TurnAddsUp(log: seq<Event>, target: nat, was: Sub, sub: Sub, after: Sub)
    requires Ordered(log) && SameRequest(was, sub) && was.lastSent <= sub.lastSent < target
    requires sub.Delivered() == was.Delivered() + Matching(log, was.filter, was.lastSent, sub.lastSent)
    requires Sends(log, target, sub, after)
    ensures after.Delivered() == was.Delivered() + Matching(log, was.filter, was.lastSent, after.lastSent)
            <==> !Skips(log, was.filter, sub.lastSent, target)
  {
    var f := was.filter;
    MatchingSplits(log, f, was.lastSent, sub.lastSent, after.lastSent);
    var d, m1, m2 := was.Delivered(), Matching(log, f, was.lastSent, sub.lastSent),
                     Matching(log, f, sub.lastSent, after.lastSent);
    assert d + m1 + m2 == d + (m1 + m2);
    if Skips(log, f, sub.lastSent, target) { assert |d + m1| < |d + (m1 + m2)|; }
  }

  lemma TurnCatchesUp(log: seq<Event>, target: nat, was: Sub, sub: Sub, after: Sub)
    requires Ordered(log) && CaughtUp(log, target, was, sub) && SameRequest(was, sub)
    requires was.lastSent <= sub.lastSent < target
    requires Sends(log, target, sub, after) && WholePage(log, target, sub, after)
    ensures CaughtUp(log, target, was, after) && sub.lastSent < after.lastSent <= target
  {
    PageMoves(log, was.filter, sub.lastSent, target);
    TurnAddsUp(log, target, was, sub, after);
  }

  lemma EndsCaughtUp(log: seq<Event>, target: nat, was: Sub, sub: Sub)
    requires Ordered(log) && CaughtUp(log, target, was, sub) && target <= sub.lastSent
    ensures sub.Delivered() == was.Delivered() + Matching(log, was.filter, was.lastSent, sub.lastSent) <==>
            NeverSkips(log, was.filter, was.lastSent, target)
  {
  }

  class Store {
    var log: seq<Event>
    var latestPosition: nat
    var subscribers: map<SubId, Sub>
    var subs: seq<SubId>
    var cursor: nat
    ghost var unpublished: multiset<Publication>
    ghost var batch: seq<Event>
    ghost var tailing: Tailing

    ghost function Abs(): State
      reads this
    {
      State(log, latestPosition, unpublished, subscribers, subs, cursor, batch, tailing)
    }

    /** Opening an existing database and starting the tailer at its end. */
    constructor (events: seq<Event>)
      requires Ordered(events)
      ensures Init(Abs()) && log == events && Inv(Abs())
    {
      log := events;
      latestPosition := if |events| == 0 then 0 else events[|events| - 1].position;
      subscribers, subs := map[], [];
      cursor := if |events| == 0 then 0 else events[|events| - 1].position;
      unpublished, batch, tailing := multiset{}, [], Idle;
      new;
      assert |log| > 0 ==> log[|log| - 1] in log;
    }

    /** The position update after an append (`batch` false) or a batch append. */
    method PublishPosition(position: nat, isBatch: bool)
      requires Inv(Abs()) && Publication(position, isBatch) in unpublished
      modifies this`latestPosition, this`unpublished
      ensures Abs() == Apply(old(Abs()), Publish(Publication(position, isBatch))) && Inv(Abs())
      ensures latestPosition == if isBatch then position else Max(old(latestPosition), position)
    {
      StepKeepsInv(Abs(), Publish(Publication(position, isBatch)));
      if isBatch || position > latestPosition {
        latestPosition := position;
      }
      unpublished := unpublished - multiset{Publication(position, isBatch)};
    }

    /** A new subscriber; a buffer that is not positive stands for the configured one. */
    method Subscribe(id: SubId, filter: Filter, from: nat, buffer: int, maxBuffer: nat)
      requires id !in subscribers && maxBuffer > 0
      modifies this`subscribers
      ensures id in subscribers && subscribers == old(subscribers)[id := subscribers[id]]
      ensures var sub := subscribers[id];
              && sub.filter == filter && sub.from == sub.lastSent == from && sub.phase == CatchingUp && !sub.closed
              && sub.Delivered() == [] && sub.capacity == (if buffer > 0 then buffer else maxBuffer)
      ensures Abs() == Apply(old(Abs()), Handoff.Subscribe(id, filter, from, subscribers[id].capacity))
    {
      var capacity := if buffer <= 0 then maxBuffer else buffer;
      subscribers := subscribers[id := Sub(filter, from, from, CatchingUp, false, capacity, [], [])];
    }

    /** A non-blocking send: refused when the channel is full or the subscriber closed. */
    method TrySend(id: SubId, e: Event) returns (sent: bool, dropped: bool)
      requires id in subscribers
      modifies this`subscribers
      ensures sent == (!old(subscribers)[id].closed && |old(subscribers)[id].queue| < old(subscribers)[id].capacity)
      ensures dropped == (!old(subscribers)[id].closed && !sent)
      ensures subscribers == if sent then old(subscribers)[id := Sent(old(subscribers)[id], e)] else old(subscribers)
    {
      var sub := subscribers[id];
      if sub.closed {
        return false, false;
      }
      if |sub.queue| < sub.capacity {
        subscribers := subscribers[id := Sent(sub, e)];
        return true, false;
      }
      return false, true;
    }

    /** Dispatch of one event to one subscriber of the snapshot. */
    method OfferOne(id: SubId, e: Event)
      requires id in subscribers
      modifies this`subscribers, this`subs
      ensures Abs() == Offer(old(Abs()), id, e)
    {
      var sub := subscribers[id];
      if sub.filter.Matches(e) && sub.lastSent < e.position {
        var sent, dropped := TrySend(id, e);
        if dropped {
          subs := Without(subs, id);
        }
      }
    }

    /** Dispatch of one event: the registered list is copied once, then walked. */
    method Dispatch(e: Event)
      requires tailing.Idle? && |batch| > 0 && batch[0] == e
      requires forall id | id in subs :: id in subscribers
      modifies this
      ensures Abs() == Handed(old(Abs()))
    {
      ghost var s0 := Abs();
      var todo := subs;
      while |todo| > 0
        invariant forall id | id in todo :: id in subscribers
        invariant OfferAll(Abs(), e, todo) == OfferAll(s0, e, s0.registered)
        invariant Abs().batch == s0.batch
        decreases |todo|
      {
        OfferOne(todo[0], e);
        todo := todo[1..];
      }
      batch, cursor := batch[1..], e.position;
    }

    /**
     Catch-up without interference from other goroutines of the store: it always comes to an
     end, registered at a watermark that covers `latestPosition`, unless the subscriber is
     closed or one of its waits is cut short. A subscriber that gets registered was sent
     exactly what matches between its old and its new watermark, if and only if no query
     skipped a match.
     */
    method CatchupAndRegister(id: SubId, patience: Patience)
      requires Ordered(log) && latestPosition <= End(log) && id in subscribers
      requires SubInv(log, subscribers[id]) && subscribers[id].phase.CatchingUp? && subscribers[id].capacity > 0
      modifies this`subscribers, this`subs
      ensures subscribers.Keys == old(subscribers).Keys && SubInv(log, subscribers[id])
      ensures subscribers == old(subscribers)[id := subscribers[id]]
      ensures SameRequest(old(subscribers)[id], subscribers[id])
      ensures subscribers[id].phase.Registered? || subscribers[id].phase.Ended?
      ensures subscribers[id].phase.Registered? ==>
                && subscribers[id].lastSent == Max(old(subscribers)[id].lastSent, latestPosition)
                && subs == old(subs) + [id]
      ensures subscribers[id].phase.Ended? ==>
                subs == old(subs) && (old(subscribers)[id].closed || patience.Some?)
      ensures var was, now := old(subscribers)[id], subscribers[id];
              now.phase.Registered? ==>
                (now.Delivered() == was.Delivered() + Matching(log, was.filter, was.lastSent, now.lastSent) <==>
                 NeverSkips(log, was.filter, was.lastSent, latestPosition))
      ensures Leads(old(Abs()), Abs())
    {
      ghost var was := subscribers[id];
      var left := patience;
      StayLeads(Abs());
      assert was.Delivered() + [] == was.Delivered();
      while subscribers[id].phase.CatchingUp? && subscribers[id].lastSent < latestPosition
        invariant id in subscribers && subscribers == old(subscribers)[id := subscribers[id]] && subs == old(subs)
        invariant Between(log, latestPosition, was, subscribers[id])
        invariant subscribers[id].phase.Ended? ==> was.closed || patience.Some?
        invariant left.Some? ==> patience.Some?
        invariant Leads(old(Abs()), Abs())
        decreases subscribers[id].phase.CatchingUp?, latestPosition - subscribers[id].lastSent
      {
        ghost var before := Abs();
        left := OneTurn(id, left, was);
        LeadsOn(old(Abs()), before, Abs());
      }
      if subscribers[id].phase.CatchingUp? {
        ghost var before := Abs();
        EndsCaughtUp(log, latestPosition, was, subscribers[id]);
        RegisterSub(id);
        LeadsOn(old(Abs()), before, Abs());
      }
    }

    /** One turn of the loop on the store's own entry. */
    method OneTurn(id: SubId, p: Patience, ghost was: Sub) returns (left: Patience)
      requires Ordered(log) && latestPosition <= End(log) && id in subscribers
      requires Between(log, latestPosition, was, subscribers[id])
      requires subscribers[id].phase.CatchingUp? && subscribers[id].lastSent < latestPosition
      modifies this`subscribers
      ensures id in subscribers && subscribers == old(subscribers)[id := subscribers[id]]
      ensures Between(log, latestPosition, was, subscribers[id])
      ensures subscribers[id].phase.CatchingUp? ==> old(subscribers)[id].lastSent < subscribers[id].lastSent
      ensures (subscribers[id].phase.Ended? ==> was.closed || p.Some?) && (left.Some? ==> p.Some?)
      ensures Leads(old(Abs()), Abs())
    {
      var sub := subscribers[id];
      var after;
      after, left := CatchupTurn(log, latestPosition, sub, p);
      GoesKeepsInv(log, latestPosition, sub, after);
      if after.phase.CatchingUp? { TurnCatchesUp(log, latestPosition, was, sub, after); }
      GoesLeads(Abs(), id, after);
      subscribers := subscribers[id := after];
    }

    /** The registration section, reached with the watermark at or above `latestPosition`. */
    method RegisterSub(id: SubId)
      requires id in subscribers && subscribers[id].phase.CatchingUp? && latestPosition <= subscribers[id].lastSent
      modifies this`subscribers, this`subs
      ensures subscribers == old(subscribers)[id := old(subscribers)[id].(phase := Registered)]
      ensures subs == old(subs) + [id]
      ensures subscribers[id].Delivered() == old(subscribers)[id].Delivered()
      ensures Leads(old(Abs()), Abs())
    {
      StepLeads(Abs(), Register(id));
      subs := subs + [id];
      subscribers := subscribers[id := subscribers[id].(phase := Registered)];
    }
  }
}
