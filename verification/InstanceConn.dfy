/**
 The critical sections of one driver connection, as methods over its fields. Interleavings
 of these sections are the steps of the Correlation and Ingest modules.
 */
module InstanceConn {
  import opened Correlation

  class Conn {
    var pending: set<CommandId>
    var closed: bool
    var channels: map<CommandId, Channel>

    var hookSet: bool
    var preHookQueue: seq<nat>
    var ingested: seq<nat>

    ghost predicate Valid()
      reads this
    {
      && pending <= channels.Keys
      && (closed ==> pending == {})
      && (forall id | id in channels :: |channels[id].history| <= 1)
      && (forall id | id in pending :: channels[id].history == [])
      && (!hookSet ==> ingested == [])
      && (hookSet ==> preHookQueue == [])
    }

    /** This connection as a state of the correlation protocol, with no other section in progress. */
    ghost function View(callers: map<CommandId, Caller>): State
      reads this
    {
      State(pending, closed, {}, channels, callers, Receiving)
    }

    constructor ()
      ensures Valid()
      ensures View(map[]) == INITIAL && preHookQueue == [] && ingested == [] && !hookSet
    {
      pending, closed, channels := {}, false, map[];
      hookSet, preHookQueue, ingested := false, [], [];
    }

    /** The opening section of SendCommand: refuse when closed, otherwise publish a fresh channel. */
    method Register(id: CommandId, ghost callers: map<CommandId, Caller>) returns (ok: bool)
      requires Valid() && id !in channels && id !in callers
      modifies this`pending, this`channels
      ensures Valid()
      ensures ok <==> !old(closed)
      ensures View(if ok then callers[id := Sending] else callers[id := Returned(StreamClosed)])
           == Apply(old(View(callers)), Call(id))
    {
      ok := !closed;
      if ok {
        channels := channels[id := Channel([], false)];
        pending := pending + {id};
      }
    }

    /** A call that failed to write, expired or was cancelled takes its entry back. */
    method Forget(id: CommandId, ghost callers: map<CommandId, Caller>)
      requires Valid() && id in callers && callers[id].Removing?
      modifies this`pending
      ensures Valid()
      ensures View(callers[id := Returned(callers[id].outcome)]) == Apply(old(View(callers)), Remove(id))
    {
      pending := pending - {id};
    }

    /** Looks the waiter up, removes it and hands it the result; a result without a waiter changes nothing. */
    method Deliver(r: CommandResult, ghost callers: map<CommandId, Caller>)
      requires Valid()
      modifies this`pending, this`channels
      ensures Valid()
      ensures r.id in old(pending) ==>
                View(callers) == Apply(Apply(old(View(callers)), ReadResult(r)), Step.Deliver)
                && channels[r.id].history == [Sent(r)]
      ensures r.id !in old(pending) ==> View(callers) == old(View(callers))
    {
      if r.id in pending {
        pending := pending - {r.id};
        var c := channels[r.id];
        if !HasResult(c) {
          channels := channels[r.id := c.(history := c.history + [Sent(r)])];
        }
      }
    }

    /** Fails the stream: only the first call acts, and it closes exactly the channels still pending. */
    method FailAll()
      requires Valid()
      modifies this`pending, this`channels, this`closed
      ensures Valid() && closed && pending == {}
      ensures channels.Keys == old(channels).Keys
      ensures forall id | id in channels && id in old(pending) ::
                channels[id] == old(channels)[id].(history := [ChannelOp.Closed])
      ensures forall id | id in channels && id !in old(pending) :: channels[id] == old(channels)[id]
    {
      if closed { return; }
      closed := true;
      var waiters := pending;
      pending := {};
      while waiters != {}
        invariant waiters <= old(pending) && closed && pending == {}
        invariant channels.Keys == old(channels).Keys
        invariant forall id | id in channels && id in old(pending) - waiters ::
                    channels[id] == old(channels)[id].(history := [ChannelOp.Closed])
        invariant forall id | id in channels && id !in old(pending) - waiters :: channels[id] == old(channels)[id]
        decreases |waiters|
      {
        var id :| id in waiters;
        waiters := waiters - {id};
        var c := channels[id];
        assert c == old(channels)[id];
        channels := channels[id := c.(history := c.history + [ChannelOp.Closed])];
      }
    }

    /** A message that is not a result: buffered until the hook is there, handed over from then on. */
    method OnMessage(m: nat)
      requires Valid()
      modifies this`preHookQueue, this`ingested
      ensures Valid()
      ensures ingested + preHookQueue == old(ingested + preHookQueue) + [m]
      ensures hookSet ==> preHookQueue == []
    {
      if hookSet {
        ingested := ingested + [m];
      } else {
        preHookQueue := preHookQueue + [m];
      }
    }

    /** Wires the hook and drains the buffer through it, oldest first, with nothing lost or repeated. */
    method SetIngestHook()
      requires Valid()
      modifies this`preHookQueue, this`ingested, this`hookSet
      ensures Valid() && hookSet
      ensures ingested == old(ingested + preHookQueue) && preHookQueue == []
    {
      hookSet := true;
      var queued := preHookQueue;
      preHookQueue := [];
      for i := 0 to |queued|
        invariant ingested == old(ingested) + queued[..i]
        invariant hookSet && preHookQueue == [] && queued == old(preHookQueue)
      {
        ingested := ingested + [queued[i]];
      }
    }
  }
}
