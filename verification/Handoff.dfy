/**
 Catch-up to live hand-off of an event subscription, as a step system.

 Every lock-protected section and every channel operation of the store is one step:
 committing events, publishing `latestPosition`, the tailer's read, each hand-over of one
 event to one subscriber, each page and each send of a subscriber's catch-up, its
 registration, and its closing. A run is any interleaving of such steps.
 */
module Handoff {
  import opened Basics
  import opened EventLog

  type SubId = nat

  /** Where the catch-up goroutine of a subscriber stands. */
  datatype Phase = CatchingUp | Sending(page: seq<Event>) | Registered | Ended

  datatype Sub = Sub(
    filter: Filter, from: nat, lastSent: nat, phase: Phase, closed: bool,
    capacity: nat, queue: seq<Event>, received: seq<Event>)
  {
    /** Everything that ever entered the channel. */
    function Delivered(): seq<Event> { received + queue }
  }

  /** A commit whose `latestPosition` update is still to come. */
  datatype Publication = Publication(position: nat, batch: bool)

  datatype Tailing = Idle | Dispatching(event: Event, todo: seq<SubId>)

  datatype State = State(
    log: seq<Event>, latest: nat, unpublished: multiset<Publication>,
    subs: map<SubId, Sub>, registered: seq<SubId>,
    cursor: nat, batch: seq<Event>, tailing: Tailing)

  datatype Step =
    | Commit(events: seq<Event>, batch: bool)
    | Publish(pub: Publication)
    | TailerRead
    | BeginDispatch
    | DispatchNext
    | EndDispatch
    | Subscribe(id: SubId, filter: Filter, from: nat, capacity: nat)
    | CatchupRead(id: SubId)
    | CatchupSend(id: SubId)
    | CatchupStop(id: SubId)
    | Register(id: SubId)
    | Unregister(id: SubId)
    | MarkClosed(id: SubId)
    | Receive(id: SubId)

  // ---------------------------------------------------------------- steps

  function Without(ids: seq<SubId>, id: SubId): (r: seq<SubId>)
    ensures forall x :: x in r <==> x in ids && x != id
  {
    if |ids| == 0 then []
    else if ids[0] == id then Without(ids[1..], id)
    else [ids[0]] + Without(ids[1..], id)
  }

  /** Append keeps the larger position; AppendBatch overwrites. */
  function Published(latest: nat, pub: Publication): nat {
    if pub.batch then pub.position else Max(latest, pub.position)
  }

  function Sent(sub: Sub, e: Event): Sub {
    sub.(queue := sub.queue + [e], lastSent := e.position)
  }

  /** Offering event `e` to one subscriber of the snapshot. */
  function Offer(s: State, id: SubId, e: Event): State
    requires id in s.subs
  {
    var sub := s.subs[id];
    if !sub.filter.Matches(e) || sub.lastSent >= e.position || sub.closed then s
    else if |sub.queue| < sub.capacity then s.(subs := s.subs[id := Sent(sub, e)])
    else s.(registered := Without(s.registered, id))
  }

  /** One catch-up query; an empty page moves the watermark to the target. */
  function ReadPage(log: seq<Event>, latest: nat, sub: Sub): Sub {
    var page := QueryRows(log, sub.lastSent, latest, sub.filter, 1000);
    if |page| == 0 then sub.(lastSent := latest) else sub.(phase := Sending(page))
  }

  function SendPage(sub: Sub): Sub
    requires sub.phase.Sending? && |sub.phase.page| > 0
  {
    var page := sub.phase.page;
    Sent(sub, page[0]).(phase := if |page| == 1 then CatchingUp else Sending(page[1..]))
  }

  ghost predicate Enabled(s: State, step: Step) {
    match step
    case Commit(events, batch) =>
      && |events| > 0 && (batch || |events| == 1) && Increasing(events)
      && forall e | e in events :: e.position > End(s.log)
    case Publish(pub) => pub in s.unpublished
    case TailerRead => s.tailing.Idle? && |s.batch| == 0 && s.cursor < s.latest
    case BeginDispatch => s.tailing.Idle? && |s.batch| > 0
    case DispatchNext => s.tailing.Dispatching? && |s.tailing.todo| > 0 && s.tailing.todo[0] in s.subs
    case EndDispatch => s.tailing.Dispatching? && |s.tailing.todo| == 0
    case Subscribe(id, _, _, capacity) => id !in s.subs && capacity > 0
    case CatchupRead(id) => id in s.subs && s.subs[id].phase.CatchingUp? && s.subs[id].lastSent < s.latest
    case CatchupSend(id) =>
      && id in s.subs && s.subs[id].phase.Sending? && |s.subs[id].phase.page| > 0
      && !s.subs[id].closed && |s.subs[id].queue| < s.subs[id].capacity
    case CatchupStop(id) => id in s.subs && !s.subs[id].phase.Registered?
    case Register(id) => id in s.subs && s.subs[id].phase.CatchingUp? && s.latest <= s.subs[id].lastSent
    case Unregister(id) => id in s.subs
    case MarkClosed(id) => id in s.subs
    case Receive(id) => id in s.subs && |s.subs[id].queue| > 0
  }

  ghost function Apply(s: State, step: Step): State
    requires Enabled(s, step)
  {
    match step
    case Commit(events, batch) =>
      s.(log := s.log + events,
         unpublished := s.unpublished + multiset{Publication(events[|events| - 1].position, batch)})
    case Publish(pub) =>
      s.(latest := Published(s.latest, pub), unpublished := s.unpublished - multiset{pub})
    case TailerRead => s.(batch := QueryRows(s.log, s.cursor, s.latest, EMPTY_FILTER, 1000))
    case BeginDispatch => s.(tailing := Dispatching(s.batch[0], s.registered), batch := s.batch[1..])
    case DispatchNext =>
      var t := s.tailing;
      Offer(s, t.todo[0], t.event).(tailing := Dispatching(t.event, t.todo[1..]))
    case EndDispatch => s.(cursor := s.tailing.event.position, tailing := Idle)
    case Subscribe(id, f, from, capacity) =>
      s.(subs := s.subs[id := Sub(f, from, from, CatchingUp, false, capacity, [], [])])
    case CatchupRead(id) => s.(subs := s.subs[id := ReadPage(s.log, s.latest, s.subs[id])])
    case CatchupSend(id) => s.(subs := s.subs[id := SendPage(s.subs[id])])
    case CatchupStop(id) => s.(subs := s.subs[id := s.subs[id].(phase := Ended)])
    case Register(id) =>
      s.(subs := s.subs[id := s.subs[id].(phase := Registered)], registered := s.registered + [id])
    case Unregister(id) => s.(registered := Without(s.registered, id))
    case MarkClosed(id) => s.(subs := s.subs[id := s.subs[id].(closed := true)])
    case Receive(id) =>
      var sub := s.subs[id];
      s.(subs := s.subs[id := sub.(received := sub.received + [sub.queue[0]], queue := sub.queue[1..])])
  }

  ghost predicate Next(s: State, step: Step, s': State) {
    Enabled(s, step) && s' == Apply(s, step)
  }

  /** A freshly opened and started store: the tailer begins at the end of the log. */
  ghost predicate Init(s: State) {
    && Ordered(s.log) && s.latest == End(s.log) && s.unpublished == multiset{}
    && s.subs == map[] && s.registered == []
    && s.cursor == s.latest && s.batch == [] && s.tailing == Idle
  }

  ghost predicate IsPath(run: seq<State>, steps: seq<Step>) {
    && |run| == |steps| + 1
    && forall i | 0 <= i < |steps| :: Next(run[i], steps[i], run[i + 1])
  }

  /** Any finite interleaving that starts from a freshly opened store. */
  ghost predicate IsRun(run: seq<State>, steps: seq<Step>) {
    IsPath(run, steps) && Init(run[0])
  }

  // ---------------------------------------------------------------- invariants

  /** Highest position whose snapshot of subscribers has been taken. */
  function Dispatched(s: State): nat {
    if s.tailing.Dispatching? then s.tailing.event.position else s.cursor
  }

  /** Highest position the tailer has read. */
  function TailerTop(s: State): nat {
    if |s.batch| > 0 then s.batch[|s.batch| - 1].position else Dispatched(s)
  }

  ghost predicate LogInv(s: State) {
    && Ordered(s.log)
    && s.latest <= End(s.log)
    && forall p | p in s.unpublished :: p.position <= End(s.log)
  }

  /** `page` is an increasing run of matching events of the log above `low`, without holes. */
  ghost predicate Chunk(log: seq<Event>, f: Filter, low: nat, page: seq<Event>) {
    && Increasing(page)
    && (forall e | e in page :: e in log && f.Matches(e) && e.position > low)
    && (forall x, b | x in log && b in page && f.Matches(x) && low < x.position <= b.position :: x in page)
  }

  ghost predicate DispatchInv(log: seq<Event>, cursor: nat, tailing: Tailing) {
    && cursor <= End(log)
    && (cursor == 0 || exists e :: e in log && e.position == cursor)
    && (tailing.Dispatching? ==>
          && tailing.event in log && cursor < tailing.event.position
          && forall x | x in log :: !(cursor < x.position < tailing.event.position))
  }

  ghost predicate TailerInv(s: State) {
    && Chunk(s.log, EMPTY_FILTER, Dispatched(s), s.batch)
    && DispatchInv(s.log, s.cursor, s.tailing)
  }

  ghost predicate PageInv(log: seq<Event>, sub: Sub) {
    sub.phase.Sending? ==> |sub.phase.page| > 0 && Chunk(log, sub.filter, sub.lastSent, sub.phase.page)
  }

  /** Deliveries come in order, match, lie above the start and never repeat. */
  ghost predicate SoundSub(log: seq<Event>, sub: Sub) {
    && sub.from <= sub.lastSent <= Max(sub.from, End(log))
    && Increasing(sub.Delivered())
    && forall e | e in sub.Delivered() ::
         e in log && sub.filter.Matches(e) && sub.from < e.position <= sub.lastSent
  }

  ghost predicate SubInv(log: seq<Event>, sub: Sub) {
    SoundSub(log, sub) && PageInv(log, sub)
  }

  function Todo(s: State): seq<SubId> {
    if s.tailing.Dispatching? then s.tailing.todo else []
  }

  ghost predicate RegInv(s: State) {
    forall id | id in s.registered || id in Todo(s) :: id in s.subs && s.subs[id].phase.Registered?
  }

  ghost predicate Inv(s: State) {
    && LogInv(s) && TailerInv(s) && RegInv(s)
    && forall id | id in s.subs :: SubInv(s.log, s.subs[id])
  }

  /** Nothing that matches is missing up to the watermark. */
  ghost predicate Complete(log: seq<Event>, sub: Sub) {
    forall e | e in log && sub.filter.Matches(e) && sub.from < e.position <= sub.lastSent :: e in sub.Delivered()
  }

  /** How far the tailer has got with one subscriber. */
  function Processed(s: State, id: SubId): nat {
    if id in Todo(s) then s.cursor else Dispatched(s)
  }

  /** An open registered subscriber has nothing outstanding among the dispatched events. */
  ghost predicate Live(s: State, id: SubId)
    requires id in s.subs
  {
    (id in s.registered || id in Todo(s)) && !s.subs[id].closed ==>
      forall e | e in s.log && s.subs[id].filter.Matches(e) :: !(s.subs[id].lastSent < e.position <= Processed(s, id))
  }

  /** `latestPosition` is not behind the tailer, so registering subscribers miss nothing. */
  ghost predicate Paced(s: State) {
    && TailerTop(s) <= s.latest
    && forall id | id in s.subs :: Live(s, id)
  }

  /** The batch publication that moves `latestPosition` behind the tailer. */
  predicate Stale(s: State, step: Step) {
    step.Publish? && step.pub.batch && step.pub.position < TailerTop(s)
  }

  /** An empty page jumps over a matching event that lies beyond the row limit. */
  ghost predicate LossyJump(s: State, step: Step, id: SubId) {
    && step == CatchupRead(id) && Enabled(s, step)
    && |QueryRows(s.log, s.subs[id].lastSent, s.latest, s.subs[id].filter, 1000)| == 0
    && exists e :: e in s.log && s.subs[id].filter.Matches(e) && s.subs[id].lastSent < e.position <= s.latest
  }

  // ---------------------------------------------------------------- preservation of Inv

  lemma TailIncreases(page: seq<Event>)
    requires |page| > 0 && Increasing(page)
    ensures Increasing(page[1..])
    ensures forall x | x in page[1..] :: x in page && x.position > page[0].position
    ensures forall x | x in page :: x == page[0] || x in page[1..]
  {
    var tail := page[1..];
    assert page == [page[0]] + tail;
    forall i, j | 0 <= i < j < |tail| ensures tail[i].position < tail[j].position {
      assert page[i + 1].position < page[j + 1].position;
    }
    forall x | x in tail ensures x.position > page[0].position {
      var i :| 0 <= i < |tail| && tail[i] == x;
      assert page[0].position < page[i + 1].position;
    }
  }

  /** Taking the head off a chunk leaves a chunk above the head, and nothing matches in between. */
  lemma ChunkTail(log: seq<Event>, f: Filter, low: nat, page: seq<Event>)
    requires |page| > 0 && Chunk(log, f, low, page)
    ensures page[0] in log && f.Matches(page[0]) && low < page[0].position
    ensures Chunk(log, f, page[0].position, page[1..])
    ensures forall x | x in log && f.Matches(x) :: !(low < x.position < page[0].position)
  {
    TailIncreases(page);
    assert page[0] in page;
  }

  /** Events committed later lie above every chunk. */
  lemma ChunkGrows(log: seq<Event>, events: seq<Event>, f: Filter, low: nat, page: seq<Event>)
    requires Ordered(log) && Chunk(log, f, low, page)
    requires forall e | e in events :: e.position > End(log)
    ensures Chunk(log + events, f, low, page)
  {
    forall e | e in page ensures e.position <= End(log) { EndIsLargest(log, e); }
  }

  lemma LogGrows(log: seq<Event>, events: seq<Event>)
    requires Ordered(log) && |events| > 0 && Increasing(events)
    requires forall e | e in events :: e.position > End(log)
    ensures Ordered(log + events)
    ensures End(log + events) == events[|events| - 1].position > End(log)
  {
    assert events[|events| - 1] in events;
    var all := log + events;
    forall i, j | 0 <= i < j < |all| ensures all[i].position < all[j].position {
      if i < |log| <= j {
        EndIsLargest(log, log[i]);
        assert all[j] in events;
      }
    }
    forall i | 0 <= i < |all| ensures all[i].position > 0 {
      if i >= |log| { assert all[i] in events; }
    }
  }

  lemma CommitKeepsSub(log: seq<Event>, events: seq<Event>, sub: Sub)
    requires Ordered(log) && |events| > 0 && Increasing(events) && SubInv(log, sub)
    requires forall e | e in events :: e.position > End(log)
    ensures SubInv(log + events, sub)
    ensures Complete(log + events, sub) <==> Complete(log, sub)
  {
    LogGrows(log, events);
    forall e | e in sub.Delivered() ensures e in log + events { assert e in log; }
    if sub.phase.Sending? { ChunkGrows(log, events, sub.filter, sub.lastSent, sub.phase.page); }
    assert forall e | e in log :: e in log + events;
  }

  lemma CommitKeepsInv(s: State, events: seq<Event>, batch: bool)
    requires Inv(s) && Enabled(s, Commit(events, batch))
    ensures Inv(Apply(s, Commit(events, batch)))
  {
    var s' := Apply(s, Commit(events, batch));
    LogGrows(s.log, events);
    ChunkGrows(s.log, events, EMPTY_FILTER, Dispatched(s), s.batch);
    if s.tailing.Dispatching? { EndIsLargest(s.log, s.tailing.event); }
    forall id | id in s'.subs ensures SubInv(s'.log, s'.subs[id]) { CommitKeepsSub(s.log, events, s.subs[id]); }
  }

  lemma TailerReadKeepsInv(s: State)
    requires Inv(s) && Enabled(s, TailerRead)
    ensures Inv(Apply(s, TailerRead))
  {
    QueryIsExact(s.log, s.cursor, s.latest, EMPTY_FILTER, 1000);
    assert Chunk(s.log, EMPTY_FILTER, s.cursor, Apply(s, TailerRead).batch);
  }

  lemma BeginDispatchKeepsInv(s: State)
    requires Inv(s) && Enabled(s, BeginDispatch)
    ensures Inv(Apply(s, BeginDispatch))
  {
    ChunkTail(s.log, EMPTY_FILTER, s.cursor, s.batch);
    EndIsLargest(s.log, s.batch[0]);
  }

  lemma SentKeepsSub(log: seq<Event>, sub: Sub, e: Event)
    requires Ordered(log) && SoundSub(log, sub) && e in log && sub.filter.Matches(e) && sub.lastSent < e.position
    ensures SoundSub(log, Sent(sub, e))
    ensures Sent(sub, e).Delivered() == sub.Delivered() + [e]
  {
    EndIsLargest(log, e);
    var d := Sent(sub, e).Delivered();
    assert d == sub.Delivered() + [e];
    forall x | x in sub.Delivered() ensures x.position < e.position {}
  }

  /** Replacing one subscriber by a sound one keeps the invariant. */
  lemma UpdateKeepsInv(s: State, id: SubId, sub: Sub)
    requires Inv(s) && SubInv(s.log, sub)
    requires id in s.subs && s.subs[id].phase.Registered? ==> sub.phase.Registered?
    ensures Inv(s.(subs := s.subs[id := sub]))
  {
  }

  lemma OfferKeepsInv(s: State)
    requires Inv(s) && Enabled(s, DispatchNext)
    ensures Inv(Apply(s, DispatchNext))
  {
    var id, e := s.tailing.todo[0], s.tailing.event;
    var sub, rest := s.subs[id], Dispatching(e, s.tailing.todo[1..]);
    assert id in Todo(s) && forall x | x in rest.todo :: x in Todo(s);
    var mid := s.(tailing := rest);
    assert Inv(mid);
    if sub.filter.Matches(e) && sub.lastSent < e.position && !sub.closed {
      if |sub.queue| < sub.capacity {
        SentKeepsSub(s.log, sub, e);
        UpdateKeepsInv(mid, id, Sent(sub, e));
      }
    }
  }

  lemma ReadPageKeepsSub(log: seq<Event>, latest: nat, sub: Sub)
    requires Ordered(log) && latest <= End(log) && SubInv(log, sub) && sub.lastSent < latest && sub.phase.CatchingUp?
    ensures SubInv(log, ReadPage(log, latest, sub))
  {
    QueryIsExact(log, sub.lastSent, latest, sub.filter, 1000);
    var page := QueryRows(log, sub.lastSent, latest, sub.filter, 1000);
    assert Chunk(log, sub.filter, sub.lastSent, page);
    assert ReadPage(log, latest, sub).Delivered() == sub.Delivered();
  }

  lemma SendPageKeepsSub(log: seq<Event>, sub: Sub)
    requires Ordered(log) && SubInv(log, sub) && sub.phase.Sending?
    ensures SubInv(log, SendPage(sub))
    ensures SendPage(sub).Delivered() == sub.Delivered() + [sub.phase.page[0]]
    ensures forall x | x in log && sub.filter.Matches(x) :: !(sub.lastSent < x.position < sub.phase.page[0].position)
  {
    var page := sub.phase.page;
    ChunkTail(log, sub.filter, sub.lastSent, page);
    SentKeepsSub(log, sub, page[0]);
    assert SendPage(sub).Delivered() == Sent(sub, page[0]).Delivered();
  }

  lemma ReceiveKeepsSub(log: seq<Event>, sub: Sub)
    requires SubInv(log, sub) && |sub.queue| > 0
    ensures var r := sub.(received := sub.received + [sub.queue[0]], queue := sub.queue[1..]);
            r.Delivered() == sub.Delivered() && SubInv(log, r)
  {
    var r := sub.(received := sub.received + [sub.queue[0]], queue := sub.queue[1..]);
    assert r.Delivered() == sub.Delivered();
  }

  /** The steps of one subscriber's own goroutine and of its consumer. */
  lemma SubscriberStepKeepsInv(s: State, step: Step)
    requires Inv(s) && Enabled(s, step)
    requires step.CatchupRead? || step.CatchupSend? || step.CatchupStop? || step.MarkClosed? || step.Receive?
    ensures Inv(Apply(s, step))
  {
    var id := step.id;
    var sub, sub' := s.subs[id], Apply(s, step).subs[id];
    match step {
      case CatchupRead(_) => ReadPageKeepsSub(s.log, s.latest, sub);
      case CatchupSend(_) => SendPageKeepsSub(s.log, sub);
      case CatchupStop(_) => assert sub'.Delivered() == sub.Delivered();
      case MarkClosed(_) => assert sub'.Delivered() == sub.Delivered();
      case Receive(_) => ReceiveKeepsSub(s.log, sub);
    }
    UpdateKeepsInv(s, id, sub');
  }

  lemma MembershipStepKeepsInv(s: State, step: Step)
    requires Inv(s) && Enabled(s, step)
    requires step.Subscribe? || step.Register? || step.Unregister?
    ensures Inv(Apply(s, step))
  {
    if !step.Unregister? {
      var sub' := Apply(s, step).subs[step.id];
      assert step.Register? ==> sub'.Delivered() == s.subs[step.id].Delivered();
      UpdateKeepsInv(s, step.id, sub');
    }
  }

  lemma StepKeepsInv(s: State, step: Step)
    requires Inv(s) && Enabled(s, step)
    ensures Inv(Apply(s, step))
  {
    match step
    case Commit(events, batch) => CommitKeepsInv(s, events, batch);
    case Publish(pub) =>
    case TailerRead => TailerReadKeepsInv(s);
    case BeginDispatch => BeginDispatchKeepsInv(s);
    case DispatchNext => OfferKeepsInv(s);
    case EndDispatch => EndIsLargest(s.log, s.tailing.event);
    case Subscribe(_, _, _, _) => MembershipStepKeepsInv(s, step);
    case Register(_) => MembershipStepKeepsInv(s, step);
    case Unregister(_) => MembershipStepKeepsInv(s, step);
    case _ => SubscriberStepKeepsInv(s, step);
  }

  // ---------------------------------------------------------------- the tailer and live subscribers

  lemma CommitKeepsPaced(s: State, events: seq<Event>, batch: bool)
    requires Inv(s) && Paced(s) && Enabled(s, Commit(events, batch))
    ensures Paced(Apply(s, Commit(events, batch)))
  {
    var s' := Apply(s, Commit(events, batch));
    LogGrows(s.log, events);
    if s.tailing.Dispatching? { EndIsLargest(s.log, s.tailing.event); }
    forall id | id in s'.subs ensures Live(s', id) {
      assert Live(s, id);
      assert Processed(s', id) <= End(s.log);
    }
  }

  lemma TailerReadKeepsPaced(s: State)
    requires Inv(s) && Paced(s) && Enabled(s, TailerRead)
    ensures Paced(Apply(s, TailerRead))
  {
    var s' := Apply(s, TailerRead);
    QueryIsExact(s.log, s.cursor, s.latest, EMPTY_FILTER, 1000);
    if |s'.batch| > 0 { assert s'.batch[|s'.batch| - 1] in s'.batch; }
    forall id | id in s'.subs ensures Live(s', id) { assert Live(s, id); }
  }

  lemma BeginDispatchKeepsPaced(s: State)
    requires Inv(s) && Paced(s) && Enabled(s, BeginDispatch)
    ensures Paced(Apply(s, BeginDispatch))
  {
    var s' := Apply(s, BeginDispatch);
    forall id | id in s'.subs ensures Live(s', id) { assert Live(s, id); }
  }

  lemma OfferKeepsOthersLive(s: State, other: SubId)
    requires Enabled(s, DispatchNext) && other in s.subs && other != s.tailing.todo[0] && Live(s, other)
    ensures Live(Apply(s, DispatchNext), other)
  {
    var s' := Apply(s, DispatchNext);
    assert s.tailing.todo == [s.tailing.todo[0]] + s'.tailing.todo;
    assert other in Todo(s) <==> other in Todo(s');
    assert s'.subs[other] == s.subs[other];
    assert Processed(s', other) == Processed(s, other);
  }

  lemma OfferKeepsOwnLive(s: State)
    requires Ordered(s.log) && DispatchInv(s.log, s.cursor, s.tailing)
    requires Enabled(s, DispatchNext) && Live(s, s.tailing.todo[0])
    ensures Live(Apply(s, DispatchNext), s.tailing.todo[0])
  {
    var s' := Apply(s, DispatchNext);
    var id, e := s.tailing.todo[0], s.tailing.event;
    var sub' := s'.subs[id];
    if (id in s'.registered || id in Todo(s')) && !sub'.closed {
      forall x | x in s.log && sub'.filter.Matches(x) ensures !(sub'.lastSent < x.position <= Processed(s', id)) {
        if x.position == e.position { SamePosition(s.log, x, e); }
      }
    }
  }

  lemma OfferKeepsPaced(s: State)
    requires Ordered(s.log) && DispatchInv(s.log, s.cursor, s.tailing) && Paced(s) && Enabled(s, DispatchNext)
    ensures Paced(Apply(s, DispatchNext))
  {
    var s' := Apply(s, DispatchNext);
    assert s'.subs.Keys == s.subs.Keys;
    forall id | id in s'.subs ensures Live(s', id) {
      if id == s.tailing.todo[0] { OfferKeepsOwnLive(s); } else { OfferKeepsOthersLive(s, id); }
    }
  }

  lemma TailerIsOrdered(s: State)
    requires TailerInv(s)
    ensures s.cursor <= Dispatched(s) <= TailerTop(s)
  {
    if |s.batch| > 0 { assert s.batch[|s.batch| - 1] in s.batch; }
  }

  lemma RegisterKeepsLive(s: State, id: SubId, x: SubId)
    requires s.cursor <= Dispatched(s) <= s.latest && Enabled(s, Register(id)) && x in s.subs && Live(s, x)
    ensures Live(Apply(s, Register(id)), x)
  {
    var s' := Apply(s, Register(id));
    assert Processed(s', x) == Processed(s, x) <= s.subs[id].lastSent;
  }

  lemma RegisterKeepsPaced(s: State, id: SubId)
    requires s.cursor <= Dispatched(s) <= TailerTop(s) && Paced(s) && Enabled(s, Register(id))
    ensures Paced(Apply(s, Register(id)))
  {
    forall x | x in Apply(s, Register(id)).subs ensures Live(Apply(s, Register(id)), x) { RegisterKeepsLive(s, id, x); }
  }

  lemma SubscribeKeepsLive(s: State, step: Step, x: SubId)
    requires RegInv(s) && Enabled(s, step) && step.Subscribe?
    requires x in s.subs ==> Live(s, x)
    ensures x in Apply(s, step).subs ==> Live(Apply(s, step), x)
  {
  }

  lemma UnregisterKeepsLive(s: State, id: SubId, x: SubId)
    requires Enabled(s, Unregister(id)) && x in s.subs && Live(s, x)
    ensures Live(Apply(s, Unregister(id)), x)
  {
  }

  lemma UnregisteredKeepsPaced(s: State, step: Step)
    requires RegInv(s) && Paced(s) && Enabled(s, step) && (step.Subscribe? || step.Unregister?)
    ensures Paced(Apply(s, step))
  {
    var s' := Apply(s, step);
    forall x | x in s'.subs ensures Live(s', x) {
      if step.Subscribe? { SubscribeKeepsLive(s, step, x); } else { UnregisterKeepsLive(s, step.id, x); }
    }
  }

  lemma SubscriberStepKeepsLive(s: State, step: Step, x: SubId)
    requires RegInv(s) && Enabled(s, step) && x in s.subs && Live(s, x)
    requires step.CatchupRead? || step.CatchupSend? || step.CatchupStop? || step.MarkClosed? || step.Receive?
    ensures x in Apply(s, step).subs && Live(Apply(s, step), x)
  {
    assert Processed(Apply(s, step), x) == Processed(s, x);
  }

  lemma SubscriberStepKeepsPaced(s: State, step: Step)
    requires RegInv(s) && Paced(s) && Enabled(s, step)
    requires step.CatchupRead? || step.CatchupSend? || step.CatchupStop? || step.MarkClosed? || step.Receive?
    ensures Paced(Apply(s, step))
  {
    forall x | x in Apply(s, step).subs ensures Live(Apply(s, step), x) { SubscriberStepKeepsLive(s, step, x); }
  }

  lemma QuietStepKeepsPaced(s: State, step: Step)
    requires Paced(s) && Enabled(s, step) && (step.Publish? || step.EndDispatch?) && !Stale(s, step)
    ensures Paced(Apply(s, step))
  {
    forall id | id in s.subs ensures Live(Apply(s, step), id) { assert Live(s, id); }
  }

  /** Only a stale batch publication can let `latestPosition` fall behind the tailer. */
  lemma StepKeepsPaced(s: State, step: Step)
    requires Inv(s) && Paced(s) && Enabled(s, step) && !Stale(s, step)
    ensures Paced(Apply(s, step))
  {
    match step
    case Commit(events, batch) => CommitKeepsPaced(s, events, batch);
    case Publish(_) => QuietStepKeepsPaced(s, step);
    case TailerRead => TailerReadKeepsPaced(s);
    case BeginDispatch => BeginDispatchKeepsPaced(s);
    case DispatchNext => OfferKeepsPaced(s);
    case EndDispatch => QuietStepKeepsPaced(s, step);
    case Subscribe(_, _, _, _) => UnregisteredKeepsPaced(s, step);
    case Register(id) =>
      TailerIsOrdered(s);
      RegisterKeepsPaced(s, id);
    case Unregister(_) => UnregisteredKeepsPaced(s, step);
    case _ => SubscriberStepKeepsPaced(s, step);
  }

  // ---------------------------------------------------------------- completeness

  /** Delivering the next matching event neither opens nor closes a gap. */
  lemma SentKeepsComplete(log: seq<Event>, sub: Sub, sub': Sub, e: Event)
    requires Ordered(log) && SoundSub(log, sub) && e in log && sub.lastSent < e.position
    requires sub'.filter == sub.filter && sub'.from == sub.from && sub'.lastSent == e.position
    requires sub'.Delivered() == sub.Delivered() + [e]
    requires forall x | x in log && sub.filter.Matches(x) :: !(sub.lastSent < x.position < e.position)
    ensures Complete(log, sub') <==> Complete(log, sub)
  {
    if Complete(log, sub) {
      forall x | x in log && sub.filter.Matches(x) && sub.from < x.position <= e.position
        ensures x in sub'.Delivered()
      {
        if x.position == e.position { SamePosition(log, x, e); }
      }
    }
    if Complete(log, sub') {
      forall x | x in log && sub.filter.Matches(x) && sub.from < x.position <= sub.lastSent
        ensures x in sub.Delivered()
      {
        assert x in sub'.Delivered();
      }
    }
  }

  lemma OfferKeepsComplete(s: State, id: SubId)
    requires Inv(s) && Paced(s) && Enabled(s, DispatchNext) && id in s.subs
    ensures Complete(s.log, Apply(s, DispatchNext).subs[id]) <==> Complete(s.log, s.subs[id])
  {
    var sub, sub' := s.subs[id], Apply(s, DispatchNext).subs[id];
    var e := s.tailing.event;
    if sub' != sub {
      assert Live(s, id) && id in Todo(s);
      SentKeepsSub(s.log, sub, e);
      SentKeepsComplete(s.log, sub, sub', e);
    }
  }

  /** The empty page loses events exactly when a matching one lies beyond the row limit. */
  lemma ReadPageComplete(s: State, id: SubId)
    requires Inv(s) && Enabled(s, CatchupRead(id))
    ensures Complete(s.log, ReadPage(s.log, s.latest, s.subs[id])) <==>
            Complete(s.log, s.subs[id]) && !LossyJump(s, CatchupRead(id), id)
  {
    var sub := s.subs[id];
    var sub' := ReadPage(s.log, s.latest, sub);
    assert sub'.Delivered() == sub.Delivered();
    var page := QueryRows(s.log, sub.lastSent, s.latest, sub.filter, 1000);
    if |page| == 0 && Complete(s.log, sub') {
      assert forall e | e in s.log && sub.filter.Matches(e) && sub.from < e.position <= s.latest ::
          e in sub.Delivered();
    }
  }

  lemma SameComplete(log: seq<Event>, a: Sub, b: Sub)
    requires a.filter == b.filter && a.from == b.from && a.lastSent == b.lastSent && a.Delivered() == b.Delivered()
    ensures Complete(log, a) <==> Complete(log, b)
  {
  }

  lemma SubscriberStepComplete(s: State, step: Step)
    requires Inv(s) && Enabled(s, step)
    requires step.CatchupRead? || step.CatchupSend? || step.CatchupStop? || step.Register?
          || step.MarkClosed? || step.Receive?
    ensures Complete(s.log, Apply(s, step).subs[step.id]) <==>
            Complete(s.log, s.subs[step.id]) && !LossyJump(s, step, step.id)
  {
    var id := step.id;
    var sub, sub' := s.subs[id], Apply(s, step).subs[id];
    assert SubInv(s.log, sub);
    if step.CatchupRead? {
      ReadPageComplete(s, id);
    } else if step.CatchupSend? {
      SendPageKeepsSub(s.log, sub);
      ChunkTail(s.log, sub.filter, sub.lastSent, sub.phase.page);
      SentKeepsComplete(s.log, sub, sub', sub.phase.page[0]);
    } else {
      if step.Receive? { ReceiveKeepsSub(s.log, sub); }
      assert sub'.Delivered() == sub.Delivered();
      SameComplete(s.log, sub, sub');
    }
  }

  /** Neither a commit nor a dispatch, and no step of this subscriber's own. */
  predicate LeavesAlone(step: Step, id: SubId) {
    || step.Publish? || step.TailerRead? || step.BeginDispatch? || step.EndDispatch?
    || step.Unregister? || step.Subscribe?
    || (!step.Commit? && !step.DispatchNext? && step.id != id)
  }

  lemma OtherStepComplete(s: State, step: Step, id: SubId)
    requires Enabled(s, step) && id in s.subs && !step.Commit? && !step.DispatchNext?
    requires LeavesAlone(step, id)
    ensures id in Apply(s, step).subs && Apply(s, step).subs[id] == s.subs[id] && Apply(s, step).log == s.log
    ensures !LossyJump(s, step, id)
  {
  }

  lemma StepComplete(s: State, step: Step, id: SubId)
    requires Inv(s) && Paced(s) && Enabled(s, step) && id in s.subs
    ensures id in Apply(s, step).subs
    ensures Complete(Apply(s, step).log, Apply(s, step).subs[id]) <==>
            Complete(s.log, s.subs[id]) && !LossyJump(s, step, id)
  {
    if step.Commit? {
      CommitKeepsSub(s.log, step.events, s.subs[id]);
    } else if step.DispatchNext? {
      OfferKeepsComplete(s, id);
    } else if LeavesAlone(step, id) {
      OtherStepComplete(s, step, id);
    } else {
      SubscriberStepComplete(s, step);
    }
  }

  lemma NextComplete(s: State, step: Step, s': State, id: SubId)
    requires Inv(s) && Paced(s) && Next(s, step, s')
    ensures id in s.subs ==> id in s'.subs
    ensures id in s.subs ==>
              (Complete(s'.log, s'.subs[id]) <==> Complete(s.log, s.subs[id]) && !LossyJump(s, step, id))
    ensures id !in s.subs ==> !LossyJump(s, step, id) && (id in s'.subs ==> Complete(s'.log, s'.subs[id]))
  {
    if id in s.subs {
      StepComplete(s, step, id);
    } else if id in s'.subs {
      assert step.Subscribe? && step.id == id;
    }
  }

  // ---------------------------------------------------------------- theorems over whole runs

  /** Every reachable state keeps the invariant. */
  lemma {:induction false} RunKeepsInv(run: seq<State>, steps: seq<Step>, n: nat)
    requires IsRun(run, steps) && n < |run|
    ensures Inv(run[n])
  {
    if n > 0 {
      RunKeepsInv(run, steps, n - 1);
      assert Next(run[n - 1], steps[n - 1], run[n]);
      StepKeepsInv(run[n - 1], steps[n - 1]);
    }
  }

  /**
   In every interleaving a consumer receives only matching events, in strictly increasing
   position and hence never twice.
   */
  lemma DeliveryIsOrdered(run: seq<State>, steps: seq<Step>, id: SubId)
    requires IsRun(run, steps) && id in run[|steps|].subs
    ensures var s := run[|steps|];
            var sub := s.subs[id];
            && Increasing(sub.received)
            && forall e | e in sub.received :: e in s.log && sub.filter.Matches(e) && e.position > sub.from
  {
    RunKeepsInv(run, steps, |steps|);
    var s := run[|steps|];
    var sub := s.subs[id];
    assert SubInv(s.log, sub);
    assert forall i | 0 <= i < |sub.received| :: sub.received[i] == sub.Delivered()[i];
    assert forall e | e in sub.received :: e in sub.Delivered();
  }

  ghost predicate NoStale(run: seq<State>, steps: seq<Step>)
    requires |run| == |steps| + 1
  {
    forall i | 0 <= i < |steps| :: !Stale(run[i], steps[i])
  }

  ghost predicate NoLossyJump(run: seq<State>, steps: seq<Step>, id: SubId, n: nat)
    requires |run| == |steps| + 1 && n <= |steps|
  {
    forall i | 0 <= i < n :: !LossyJump(run[i], steps[i], id)
  }

  lemma {:induction false} RunKeepsPaced(run: seq<State>, steps: seq<Step>, n: nat)
    requires IsRun(run, steps) && NoStale(run, steps) && n < |run|
    ensures Inv(run[n]) && Paced(run[n])
  {
    RunKeepsInv(run, steps, n);
    if n > 0 {
      RunKeepsPaced(run, steps, n - 1);
      assert Next(run[n - 1], steps[n - 1], run[n]);
      StepKeepsPaced(run[n - 1], steps[n - 1]);
    }
  }

  ghost predicate Whole(s: State, id: SubId) {
    id in s.subs ==> Complete(s.log, s.subs[id])
  }

  lemma WholeAt(run: seq<State>, steps: seq<Step>, id: SubId, n: nat)
    requires IsRun(run, steps) && NoStale(run, steps) && n < |steps|
    ensures id in run[n].subs ==> id in run[n + 1].subs
    ensures id !in run[n].subs ==> !LossyJump(run[n], steps[n], id) && Whole(run[n + 1], id)
    ensures id in run[n].subs ==> (Whole(run[n + 1], id) <==> Whole(run[n], id) && !LossyJump(run[n], steps[n], id))
  {
    RunKeepsPaced(run, steps, n);
    NextComplete(run[n], steps[n], run[n + 1], id);
  }

  lemma NoJumpSoFar(run: seq<State>, steps: seq<Step>, id: SubId, n: nat)
    requires |run| == |steps| + 1 && n < |steps|
    ensures NoLossyJump(run, steps, id, n + 1) <==>
            NoLossyJump(run, steps, id, n) && !LossyJump(run[n], steps[n], id)
  {
  }

  lemma {:induction false} CompleteIff(run: seq<State>, steps: seq<Step>, id: SubId, n: nat)
    requires IsRun(run, steps) && NoStale(run, steps) && n <= |steps|
    ensures id !in run[n].subs ==> NoLossyJump(run, steps, id, n)
    ensures Whole(run[n], id) <==> NoLossyJump(run, steps, id, n)
  {
    if n > 0 {
      CompleteIff(run, steps, id, n - 1);
      WholeAt(run, steps, id, n - 1);
      NoJumpSoFar(run, steps, id, n - 1);
    }
  }

  /** The matching events between two positions, in order. */
  function Matching(log: seq<Event>, f: Filter, from: nat, to: nat): seq<Event> {
    if to <= from then [] else Keep(f, Range(log, from, to))
  }

  lemma CompleteIsMatching(log: seq<Event>, sub: Sub)
    requires Ordered(log) && SoundSub(log, sub)
    ensures Complete(log, sub) <==> sub.Delivered() == Matching(log, sub.filter, sub.from, sub.lastSent)
  {
    RangeIsExact(log, sub.from, sub.lastSent);
    KeepIsExact(sub.filter, Range(log, sub.from, sub.lastSent));
    var m := Matching(log, sub.filter, sub.from, sub.lastSent);
    assert forall e :: e in m <==> e in log && sub.filter.Matches(e) && sub.from < e.position <= sub.lastSent;
    if Complete(log, sub) { IncreasingIsCanonical(sub.Delivered(), m); }
  }

  /**
   The hand-off theorem. When no batch publication moves `latestPosition` behind the
   tailer, what a subscriber was sent is exactly the matching part of the log up to its
   watermark if and only if none of its empty catch-up pages jumped over a match; and the
   watermark of an open, registered subscriber lags no matching event behind the tailer.
   */
  lemma HandoffHasNoGap(run: seq<State>, steps: seq<Step>, id: SubId)
    requires IsRun(run, steps) && NoStale(run, steps) && id in run[|steps|].subs
    ensures var s := run[|steps|];
            var sub := s.subs[id];
            && (sub.Delivered() == Matching(s.log, sub.filter, sub.from, sub.lastSent) <==>
                NoLossyJump(run, steps, id, |steps|))
            && (id in s.registered && !sub.closed ==>
                forall e | e in s.log && sub.filter.Matches(e) :: !(sub.lastSent < e.position <= s.cursor))
  {
    var s := run[|steps|];
    RunKeepsPaced(run, steps, |steps|);
    CompleteIff(run, steps, id, |steps|);
    assert SubInv(s.log, s.subs[id]);
    CompleteIsMatching(s.log, s.subs[id]);
    assert Live(s, id);
  }

  lemma StepKeepsRequest(s: State, step: Step, id: SubId)
    requires Enabled(s, step) && id in s.subs
    ensures var s' := Apply(s, step);
            && id in s'.subs && s'.subs[id].filter == s.subs[id].filter && s'.subs[id].from == s.subs[id].from
            && s'.subs[id].capacity == s.subs[id].capacity
  {
  }

  /** A subscriber keeps the filter, the start and the capacity it asked for. */
  lemma {:induction false} RequestIsKept(run: seq<State>, steps: seq<Step>, k: nat, n: nat)
    requires IsRun(run, steps) && k < n < |run| && steps[k].Subscribe?
    ensures var id := steps[k].id;
            && id in run[n].subs && run[n].subs[id].filter == steps[k].filter
            && run[n].subs[id].from == steps[k].from && run[n].subs[id].capacity == steps[k].capacity
  {
    assert Next(run[n - 1], steps[n - 1], run[n]);
    if k < n - 1 {
      RequestIsKept(run, steps, k, n - 1);
      StepKeepsRequest(run[n - 1], steps[n - 1], steps[k].id);
    }
  }

  /** A new subscriber has been sent nothing, is open, and starts catching up where it asked to. */
  lemma SubscribeStarts(run: seq<State>, steps: seq<Step>, k: nat)
    requires IsRun(run, steps) && k < |steps| && steps[k].Subscribe?
    ensures var sub := run[k + 1].subs[steps[k].id];
            && sub.Delivered() == [] && !sub.closed && sub.phase == CatchingUp && sub.lastSent == steps[k].from
            && steps[k].id !in run[k].subs && (forall x | x in run[k].subs :: run[k + 1].subs[x] == run[k].subs[x])
            && run[k + 1].registered == run[k].registered
  {
    assert Next(run[k], steps[k], run[k + 1]);
  }

  /** A subscriber's channel has room for something, and never holds more than its capacity. */
  ghost predicate Roomy(s: State) {
    forall id | id in s.subs :: s.subs[id].capacity > 0 && |s.subs[id].queue| <= s.subs[id].capacity
  }

  lemma StepKeepsRoomy(s: State, step: Step)
    requires Enabled(s, step) && Roomy(s)
    ensures Roomy(Apply(s, step))
  {
  }

  lemma {:induction false} QueueIsBounded(run: seq<State>, steps: seq<Step>, n: nat)
    requires IsRun(run, steps) && n < |run|
    ensures Roomy(run[n])
  {
    if n > 0 {
      QueueIsBounded(run, steps, n - 1);
      assert Next(run[n - 1], steps[n - 1], run[n]);
      StepKeepsRoomy(run[n - 1], steps[n - 1]);
    }
  }

  lemma StepKeepsClosed(s: State, step: Step, id: SubId)
    requires Enabled(s, step) && id in s.subs && s.subs[id].closed
    ensures var s' := Apply(s, step);
            id in s'.subs && s'.subs[id].closed && s'.subs[id].Delivered() == s.subs[id].Delivered()
  {
  }

  /** Close is possible at any time; from then on nothing more enters the channel. */
  lemma {:induction false} ClosedGetsNothing(run: seq<State>, steps: seq<Step>, k: nat, n: nat, id: SubId)
    requires IsRun(run, steps) && k <= n < |run| && id in run[k].subs
    ensures Enabled(run[k], Unregister(id)) && id !in Apply(run[k], Unregister(id)).registered
    ensures Enabled(run[k], MarkClosed(id)) && Apply(run[k], MarkClosed(id)).subs[id].closed
    ensures run[k].subs[id].closed ==>
              id in run[n].subs && run[n].subs[id].closed && run[n].subs[id].Delivered() == run[k].subs[id].Delivered()
  {
    if k < n && run[k].subs[id].closed {
      ClosedGetsNothing(run, steps, k, n - 1, id);
      assert Next(run[n - 1], steps[n - 1], run[n]);
      StepKeepsClosed(run[n - 1], steps[n - 1], id);
    }
  }

  /** The hand-off theorem in terms of what was asked for: the requested filter from the requested start. */
  lemma SubscriptionDelivers(run: seq<State>, steps: seq<Step>, k: nat)
    requires IsRun(run, steps) && NoStale(run, steps) && k < |steps| && steps[k].Subscribe?
    ensures var s, id := run[|steps|], steps[k].id;
            id in s.subs &&
            (s.subs[id].Delivered() == Matching(s.log, steps[k].filter, steps[k].from, s.subs[id].lastSent) <==>
             NoLossyJump(run, steps, id, |steps|))
  {
    RequestIsKept(run, steps, k, |steps|);
    HandoffHasNoGap(run, steps, steps[k].id);
  }

  /** An unfiltered subscription, or at most 1000 rows left to the target, rules the jump out. */
  lemma JumpIsHarmless(s: State, step: Step, id: SubId)
    requires Inv(s) && Enabled(s, step) && step == CatchupRead(id)
    requires s.subs[id].filter == EMPTY_FILTER || |Range(s.log, s.subs[id].lastSent, s.latest)| <= 1000
    ensures !LossyJump(s, step, id)
  {
    var sub := s.subs[id];
    var rows := Range(s.log, sub.lastSent, s.latest);
    QueryIsExact(s.log, sub.lastSent, s.latest, sub.filter, 1000);
    RangeIsExact(s.log, sub.lastSent, s.latest);
    var page := QueryRows(s.log, sub.lastSent, s.latest, sub.filter, 1000);
    if |rows| > 1000 {
      assert rows[999] in rows;
      assert rows[999] in page;
    } else {
      forall e | e in s.log && sub.filter.Matches(e) && sub.lastSent < e.position <= s.latest ensures e in page {}
    }
  }

  // ---------------------------------------------------------------- what a stale publication costs

  lemma PathExtends(run: seq<State>, steps: seq<Step>, step: Step)
    requires IsPath(run, steps) && Enabled(run[|steps|], step)
    ensures IsPath(run + [Apply(run[|steps|], step)], steps + [step])
  {
    var run', steps' := run + [Apply(run[|steps|], step)], steps + [step];
    forall i | 0 <= i < |steps'| ensures Next(run'[i], steps'[i], run'[i + 1]) {
      if i < |steps| { assert Next(run[i], steps[i], run[i + 1]); }
    }
  }

  /** Event `e` is behind the tailer and did not reach the registered subscriber `id`. */
  ghost predicate Lost(s: State, id: SubId, e: Event) {
    && id in s.subs && s.subs[id].phase.Registered?
    && e in s.log && s.subs[id].filter.Matches(e) && e.position > s.subs[id].from
    && e.position <= Dispatched(s)
    && (s.tailing.Dispatching? && s.tailing.event == e ==> id !in s.tailing.todo)
    && e !in s.subs[id].Delivered()
  }

  lemma DispatchLosesForever(s: State, id: SubId, e: Event)
    requires Inv(s) && Enabled(s, DispatchNext) && Lost(s, id, e)
    ensures Lost(Apply(s, DispatchNext), id, e)
  {
    var s' := Apply(s, DispatchNext);
    if s'.subs[id] != s.subs[id] {
      assert id == s.tailing.todo[0];
      assert s'.subs[id].Delivered() == s.subs[id].Delivered() + [s.tailing.event];
    }
  }

  lemma TailerLosesForever(s: State, step: Step, id: SubId, e: Event)
    requires TailerInv(s) && Enabled(s, step) && Lost(s, id, e)
    requires step.Commit? || step.Publish? || step.TailerRead? || step.BeginDispatch? || step.EndDispatch?
    ensures Lost(Apply(s, step), id, e)
  {
    if step.BeginDispatch? { assert s.batch[0] in s.batch; }
  }

  lemma SubscriberLosesForever(s: State, step: Step, id: SubId, e: Event)
    requires Inv(s) && Enabled(s, step) && Lost(s, id, e)
    requires step.Receive? || step.MarkClosed? || step.Unregister? || step.Subscribe?
    ensures Lost(Apply(s, step), id, e)
  {
    var s' := Apply(s, step);
    if step.Receive? && step.id == id { ReceiveKeepsSub(s.log, s.subs[id]); }
    if step.MarkClosed? { assert s'.subs[id].Delivered() == s.subs[id].Delivered(); }
  }

  lemma CatchupLosesForever(s: State, step: Step, id: SubId, e: Event)
    requires Enabled(s, step) && Lost(s, id, e)
    requires step.CatchupRead? || step.CatchupSend? || step.CatchupStop? || step.Register?
    ensures Lost(Apply(s, step), id, e)
  {
    assert step.id != id;
    assert Apply(s, step).subs[id] == s.subs[id];
  }

  lemma LostStays(s: State, step: Step, id: SubId, e: Event)
    requires Inv(s) && Enabled(s, step) && Lost(s, id, e)
    ensures Lost(Apply(s, step), id, e)
  {
    if step.DispatchNext? {
      DispatchLosesForever(s, id, e);
    } else if step.Receive? || step.MarkClosed? || step.Unregister? || step.Subscribe? {
      SubscriberLosesForever(s, step, id, e);
    } else if step.CatchupRead? || step.CatchupSend? || step.CatchupStop? || step.Register? {
      CatchupLosesForever(s, step, id, e);
    } else {
      TailerLosesForever(s, step, id, e);
    }
  }

  lemma LostAfter(s: State, step: Step, s': State, id: SubId, e: Event)
    requires Inv(s) && Next(s, step, s') && Lost(s, id, e)
    ensures Inv(s') && Lost(s', id, e)
  {
    StepKeepsInv(s, step);
    LostStays(s, step, id, e);
  }

  /** A lost event stays lost in every continuation, whatever is committed or published in it. */
  lemma {:induction false} LostForever(run: seq<State>, steps: seq<Step>, id: SubId, e: Event, n: nat)
    requires IsPath(run, steps) && Inv(run[0]) && Lost(run[0], id, e) && n < |run|
    ensures Inv(run[n]) && Lost(run[n], id, e)
  {
    if n > 0 {
      LostForever(run, steps, id, e, n - 1);
      LostAfter(run[n - 1], steps[n - 1], run[n], id, e);
    }
  }

  ghost predicate NeverDelivered(s: State, id: SubId, e: Event) {
    forall run, steps | IsPath(run, steps) && run[0] == s :: Lost(run[|steps|], id, e)
  }

  lemma LostIsNeverDelivered(s: State, id: SubId, e: Event)
    requires Inv(s) && Lost(s, id, e)
    ensures NeverDelivered(s, id, e)
  {
    forall run, steps | IsPath(run, steps) && run[0] == s ensures Lost(run[|steps|], id, e) {
      LostForever(run, steps, id, e, |steps|);
    }
  }

  /** The tailer's next own step inside the batch it has read. */
  function TailerStep(s: State): Step {
    if s.tailing.Idle? then BeginDispatch else if |s.tailing.todo| > 0 then DispatchNext else EndDispatch
  }

  lemma TailerStepAdvances(s: State)
    requires TailerInv(s) && RegInv(s) && (s.tailing.Dispatching? || |s.batch| > 0)
    ensures Enabled(s, TailerStep(s))
    ensures var s' := Apply(s, TailerStep(s));
            && TailerTop(s') == TailerTop(s)
            && s'.latest == s.latest && s'.subs.Keys == s.subs.Keys
            && (|s.batch|, s.tailing.Dispatching?, |Todo(s)|
                decreases to |s'.batch|, s'.tailing.Dispatching?, |Todo(s')|)
  {
    if s.tailing.Dispatching? && |s.tailing.todo| > 0 { assert s.tailing.todo[0] in Todo(s); }
  }

  /** `longer` continues `run` with steps of the tailer and of subscribers only. */
  ghost predicate Quietly(run: seq<State>, steps: seq<Step>, longer: seq<State>, more: seq<Step>) {
    && IsPath(longer, more) && run <= longer && steps <= more
    && forall i | |steps| <= i < |more| :: !more[i].Publish? && !more[i].Commit?
  }

  lemma QuietlyOneMore(run: seq<State>, steps: seq<Step>, step: Step)
    requires IsPath(run, steps) && Enabled(run[|steps|], step) && !step.Publish? && !step.Commit?
    ensures Quietly(run, steps, run + [Apply(run[|steps|], step)], steps + [step])
  {
    PathExtends(run, steps, step);
  }

  lemma TailerTurn(s: State)
    requires Inv(s) && (s.tailing.Dispatching? || |s.batch| > 0)
    ensures Enabled(s, TailerStep(s)) && !TailerStep(s).Publish? && !TailerStep(s).Commit?
    ensures var s' := Apply(s, TailerStep(s));
            && Inv(s') && TailerTop(s') == TailerTop(s)
            && s'.latest == s.latest && s'.subs.Keys == s.subs.Keys
            && (|s.batch|, s.tailing.Dispatching?, |Todo(s)|
                decreases to |s'.batch|, s'.tailing.Dispatching?, |Todo(s')|)
  {
    TailerStepAdvances(s);
    StepKeepsInv(s, TailerStep(s));
  }

  lemma QuietlyOn(
    run: seq<State>, steps: seq<Step>, mid: seq<State>, between: seq<Step>, longer: seq<State>, more: seq<Step>)
    requires Quietly(run, steps, mid, between) && Quietly(mid, between, longer, more)
    ensures Quietly(run, steps, longer, more)
  {
    forall i | |steps| <= i < |more| ensures !more[i].Publish? && !more[i].Commit? {
      if i < |between| { assert more[i] == between[i]; }
    }
  }

  /** One more step of the tailer, towards a cursor beyond `p`. */
  lemma TailerNext(run: seq<State>, steps: seq<Step>, p: nat) returns (mid: seq<State>, between: seq<Step>)
    requires IsPath(run, steps) && Inv(run[|steps|]) && run[|steps|].cursor <= p < TailerTop(run[|steps|])
    ensures Quietly(run, steps, mid, between) && Inv(mid[|between|])
    ensures var s, s' := run[|steps|], mid[|between|];
            && TailerTop(s') == TailerTop(s) && s'.latest == s.latest && s'.subs.Keys == s.subs.Keys
            && (|s.batch|, s.tailing.Dispatching?, |Todo(s)|
                decreases to |s'.batch|, s'.tailing.Dispatching?, |Todo(s')|)
  {
    var s := run[|steps|];
    TailerTurn(s);
    QuietlyOneMore(run, steps, TailerStep(s));
    mid, between := run + [Apply(s, TailerStep(s))], steps + [TailerStep(s)];
  }

  /** The tailer can always finish the dispatch of what it has read beyond a position. */
  lemma TailerMovesPast(run: seq<State>, steps: seq<Step>, p: nat) returns (run': seq<State>, steps': seq<Step>)
    requires IsPath(run, steps) && Inv(run[|steps|]) && p < TailerTop(run[|steps|])
    ensures Quietly(run, steps, run', steps')
    ensures Inv(run'[|steps'|]) && p < run'[|steps'|].cursor
    ensures run'[|steps'|].latest == run[|steps|].latest && run'[|steps'|].subs.Keys == run[|steps|].subs.Keys
    decreases |run[|steps|].batch|, run[|steps|].tailing.Dispatching?, |Todo(run[|steps|])|
  {
    var s := run[|steps|];
    if p < s.cursor {
      run', steps' := run, steps;
    } else {
      var mid, between := TailerNext(run, steps, p);
      run', steps' := TailerMovesPast(mid, between, p);
      QuietlyOn(run, steps, mid, between, run', steps');
    }
  }

  /** An open registered subscriber lags behind the tailer: what the hand-off theorem excludes. */
  ghost predicate Lags(s: State, id: SubId, e: Event) {
    && id in s.subs && id in s.registered && !s.subs[id].closed
    && e in s.log && s.subs[id].filter.Matches(e) && s.subs[id].lastSent < e.position <= s.cursor
  }

  /** A subscriber that starts at a `latestPosition` behind the tailer registers at once. */
  lemma RegisterBehind(s: State, id: SubId) returns (s1: State, t: State, e: Event)
    requires Inv(s) && s.latest < s.cursor && id !in s.subs
    ensures var subscribe := Subscribe(id, EMPTY_FILTER, s.latest, 1);
            Enabled(s, subscribe) && s1 == Apply(s, subscribe)
    ensures Enabled(s1, Register(id)) && t == Apply(s1, Register(id))
    ensures Inv(t) && Lags(t, id, e) && Lost(t, id, e)
  {
    s1 := Apply(s, Subscribe(id, EMPTY_FILTER, s.latest, 1));
    t := Apply(s1, Register(id));
    StepKeepsInv(s, Subscribe(id, EMPTY_FILTER, s.latest, 1));
    StepKeepsInv(s1, Register(id));
    e :| e in s.log && e.position == s.cursor;
    assert s.tailing.Dispatching? ==> s.cursor < s.tailing.event.position;
  }

  lemma LateRegistration(run: seq<State>, steps: seq<Step>, id: SubId)
    returns (run': seq<State>, steps': seq<Step>, e: Event)
    requires IsPath(run, steps) && Inv(run[|steps|])
    requires run[|steps|].latest < run[|steps|].cursor && id !in run[|steps|].subs
    ensures Quietly(run, steps, run', steps')
    ensures Lags(run'[|steps'|], id, e) && NeverDelivered(run'[|steps'|], id, e)
  {
    var s1, t, lost := RegisterBehind(run[|steps|], id);
    var subscribe := Subscribe(id, EMPTY_FILTER, run[|steps|].latest, 1);
    QuietlyOneMore(run, steps, subscribe);
    QuietlyOneMore(run + [s1], steps + [subscribe], Register(id));
    run', steps', e := run + [s1] + [t], steps + [subscribe] + [Register(id)], lost;
    LostIsNeverDelivered(t, id, e);
    assert run'[|steps'|] == t;
  }

  lemma LateSubscriberLosesAnEvent(run: seq<State>, steps: seq<Step>, id: SubId)
    returns (run': seq<State>, steps': seq<Step>, e: Event)
    requires IsPath(run, steps) && Inv(run[|steps|])
    requires run[|steps|].latest < TailerTop(run[|steps|]) && id !in run[|steps|].subs
    ensures Quietly(run, steps, run', steps')
    ensures Lags(run'[|steps'|], id, e) && NeverDelivered(run'[|steps'|], id, e)
  {
    var mid, midSteps := TailerMovesPast(run, steps, run[|steps|].latest);
    run', steps', e := LateRegistration(mid, midSteps, id);
  }

  /**
   The hypothesis of the hand-off theorem cannot be dropped: whenever a run can make a stale
   batch publication, it continues without any further commit or publication to a state in
   which the theorem's conclusion is false, for a subscriber that never gets the event.
   */
  lemma StalePublicationLosesAnEvent(run: seq<State>, steps: seq<Step>, pub: Publication, id: SubId)
    returns (run': seq<State>, steps': seq<Step>, e: Event)
    requires IsRun(run, steps) && Enabled(run[|steps|], Publish(pub)) && Stale(run[|steps|], Publish(pub))
    requires id !in run[|steps|].subs
    ensures IsRun(run', steps') && steps + [Publish(pub)] <= steps'
    ensures Lags(run'[|steps'|], id, e) && NeverDelivered(run'[|steps'|], id, e)
  {
    var s := run[|steps|];
    RunKeepsInv(run, steps, |steps|);
    StepKeepsInv(s, Publish(pub));
    PathExtends(run, steps, Publish(pub));
    run', steps', e := LateSubscriberLosesAnEvent(run + [Apply(s, Publish(pub))], steps + [Publish(pub)], id);
    assert run'[0] == run[0];
  }

  /**
   It happens: a batch commits, an append commits and publishes, the tailer reads both, and
   then the batch publishes its older position.
   */
  lemma StaleHappens(a: Event, b: Event) returns (run: seq<State>, steps: seq<Step>)
    requires a.position == 1 && b.position == 2
    ensures IsRun(run, steps) && run[0].log == []
    ensures Enabled(run[|steps|], Publish(Publication(1, true))) && Stale(run[|steps|], Publish(Publication(1, true)))
  {
    var p1, p2 := Publication(1, true), Publication(2, false);
    var s0 := State([], 0, multiset{}, map[], [], 0, [], Idle);
    var s1 := s0.(log := [a], unpublished := multiset{p1});
    var s2 := s0.(log := [a, b], unpublished := multiset{p1, p2});
    var s3 := s0.(log := [a, b], unpublished := multiset{p1}, latest := 2);
    var s4 := s3.(batch := [a, b]);
    CommitsHappen(a, b, s0, s1, s2);
    ReadHappens(a, b, s2, s3, s4);
    run, steps := [s0, s1, s2, s3, s4], [Commit([a], true), Commit([b], false), Publish(p2), TailerRead];
  }

  lemma CommitsHappen(a: Event, b: Event, s0: State, s1: State, s2: State)
    requires a.position == 1 && b.position == 2 && s0 == State([], 0, multiset{}, map[], [], 0, [], Idle)
    requires s1 == s0.(log := [a], unpublished := multiset{Publication(1, true)})
    requires s2 == s0.(log := [a, b], unpublished := multiset{Publication(1, true), Publication(2, false)})
    ensures Next(s0, Commit([a], true), s1) && Next(s1, Commit([b], false), s2)
  {
    assert [] + [a] == [a] && [a] + [b] == [a, b];
  }

  lemma ReadHappens(a: Event, b: Event, s2: State, s3: State, s4: State)
    requires a.position == 1 && b.position == 2
    requires s2 == State([a, b], 0, multiset{Publication(1, true), Publication(2, false)}, map[], [], 0, [], Idle)
    requires s3 == s2.(unpublished := multiset{Publication(1, true)}, latest := 2) && s4 == s3.(batch := [a, b])
    ensures Next(s2, Publish(Publication(2, false)), s3) && Next(s3, TailerRead, s4)
  {
    BothAreRead(a, b);
  }

  lemma BothAreRead(a: Event, b: Event)
    requires a.position == 1 && b.position == 2
    ensures QueryRows([a, b], 0, 2, EMPTY_FILTER, 1000) == [a, b]
  {
    RangeOfAll([a, b], 2);
    KeepsAll(EMPTY_FILTER, [a, b]);
  }

  lemma {:induction false} KeepsAll(f: Filter, rows: seq<Event>)
    requires forall e | e in rows :: f.Matches(e)
    ensures Keep(f, rows) == rows
  {
    if |rows| > 0 {
      var front := rows[..|rows| - 1];
      assert rows == front + [rows[|rows| - 1]];
      forall e | e in front ensures f.Matches(e) { assert e in rows; }
      KeepsAll(f, front);
    }
  }

  // ---------------------------------------------------------------- a lossy jump, concretely

  function Row(i: nat, ts: int): Event {
    Event(i + 1, ts, "state_changed", "light.hall", "driver", 0, 0, OtherPayload(""))
  }

  /** A thousand events too old for the filter in front of the only matching one. */
  function Thousand(): seq<Event> { seq(1000, (i: nat) => Row(i, 0)) + [Row(1000, 1)] }

  lemma {:induction false} RangeOfAll(log: seq<Event>, to: nat)
    requires forall i | 0 <= i < |log| :: InRange(log[i], 0, to)
    ensures Range(log, 0, to) == log
  {
    if |log| > 0 {
      RangeOfAll(log[..|log| - 1], to);
      assert log == log[..|log| - 1] + [log[|log| - 1]];
    }
  }

  lemma ThousandAreRows()
    ensures Ordered(Thousand()) && |Thousand()| == 1001 && Range(Thousand(), 0, 1001) == Thousand()
    ensures forall i | 0 <= i < 1000 :: Thousand()[i] == Row(i, 0)
    ensures Thousand()[1000] == Row(1000, 1)
  {
    RangeOfAll(Thousand(), 1001);
  }

  /** A filtered catch-up over a log of 1001 rows ends at the target having sent nothing. */
  lemma LossyJumpHappens(sub: Sub)
    requires sub == Sub(EMPTY_FILTER.(minTs := Some(1)), 0, 0, CatchingUp, false, 1, [], [])
    ensures ReadPage(Thousand(), 1001, sub) == sub.(lastSent := 1001)
    ensures Row(1000, 1) in Thousand() && sub.filter.Matches(Row(1000, 1))
  {
    ThousandAreRows();
    NothingOldMatches(sub.filter);
  }

  lemma NothingOldMatches(f: Filter)
    requires f == EMPTY_FILTER.(minTs := Some(1))
    ensures QueryRows(Thousand(), 0, 1001, f, 1000) == []
  {
    ThousandAreRows();
    KeepsNone(f, Thousand()[..1000]);
  }

  lemma {:induction false} KeepsNone(f: Filter, rows: seq<Event>)
    requires forall e | e in rows :: !f.Matches(e)
    ensures Keep(f, rows) == []
  {
    if |rows| > 0 { KeepsNone(f, rows[..|rows| - 1]); }
  }
}
