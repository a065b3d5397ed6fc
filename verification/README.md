# Switchyard, modelled in Dafny

Switchyard is an event-sourced home-automation daemon. This project models the five parts of it
whose correctness is decided by the interplay of several functions or goroutines, and proves what
each part promises over every input, every run or every interleaving.

* **Event store.** `EventLog` is the log and its queries; `Handoff` the step system of commits, tailer,
  catch-up and registration; `LiveStore` the same sections as methods over fields; `CloseFence` the
  lock and close protocol of one subscriber; `AppendStore` transactions with staged projectors, faults
  and retries; `ConcurrentAppend` overlapping attempts on the shared pending slot; `Replay` the restart loop; `Registry` the registry projector's three tables.
* **Policy.** `PolicyGraph` holds the two graph closures, `SelectorHash` the byte encoding behind the
  memo, `Policy` the raw policies and their direct meaning, `PolicyCompiler` the compiler,
  `PolicyRuntime` the authorizer, `TokenScope` containment and minting of token scopes.
* **Driver host.** `Correlation` matches results to waiters, `InstanceConn` is one connection's
  sections, `Ingest` the pre-hook buffer, `Dispatch` the issued/ack discipline, `Supervisor` the
  restart budget, backoff and health loop.
* **Automation run modes.** `QueuedMode` and `RestartMode`.
* **Configuration.** `ConfigApply` and `ConfigManager` reconcile the host with a snapshot; `Reloader`
  is the debounced reload loop.

Concurrent code is a step system: a state, the steps its lock sections and channel operations make,
and runs that are arbitrary interleavings. Code that updates fields is a class whose methods are tied
to those steps or to a specification function.

Where a promise does not hold as stated, the code is kept, the condition under which it holds is
proved, and the failing inputs are characterised or one of them is given:

* A batch append publishes its position without a maximum. Published late, it puts `latestPosition`
  behind the tailer, and a subscriber registering then misses events (`Handoff.StalePublicationLosesAnEvent`, `Handoff.StaleHappens`).
* A comment in the state cache says one append runs at a time, but nothing serialises calls outside the database. All of them
  share one pending slot, so a failing append can discard the state of a committing one, and a committing one can promote
  the state of a failing one. Log and projector agree exactly when neither happens (`ConcurrentAppend.AgreesIffSettled`,
  `ConcurrentAppend.ForeignDiscardHappens`, `ConcurrentAppend.ForeignPromoteHappens`).
* An empty catch-up page jumps to the target. It loses a match exactly when one lies beyond 1000 raw rows
  (`Handoff.ReadPageComplete`, `Handoff.LossyJumpHappens`).
* Replay advances by count, so on a log with holes it pushes the last events again (`Replay.ReplayOnceIffDense`, `Replay.HolePushesTwice`).
* Replaying the registry over a prefix is the identity exactly on settled logs (`Registry.IdempotentIffSettled`).
* The selector encoding separates selectors only on clean names (`SelectorHash.EncodeIsInjective` and the two collisions).
  A collision makes the compiled policies unfaithful and reaches a decision (`PolicyCompiler.FaithfulIffNoCollision`, `PolicyRuntime.CollisionMisdecides`).
* An action key joins service and method with a dot, so a dotted service name confuses actions
  (`Policy.KeysMeanActionsIff`, `PolicyRuntime.DottedRequestPasses`).
* A starred literal action key breaks token containment (`TokenScope.StarredActionBreaksSoundness`, `TokenScope.StarredActionBreaksTransitivity`);
  compiled requests never contain one.
* The ingest hook can see a later message before a buffered one (`Ingest.HookOrder`).
* The comment on dispatch promises an ack for every issued command; the code only logs a failed ack append, and
  the balance holds exactly when there is none (`Dispatch.IssuedMinusAcks`, `Dispatch.LostAckUnbalances`).
* The comment on backoff says capped at the maximum; the first delay is never capped, and large caps overflow (`Supervisor.DelayIsCappedPower`, `Supervisor.DelayIffNoOverflow`).
* The queue pump stops for good with the context of the fire that started it and fires accepted later
  are never served (`QueuedMode.ServedIffPumpLives`, `QueuedMode.StrandedFire`).
* A fire between lookup and its restart section survives the removal of its automation (`RestartMode.RemovalIsFinalIff`, `RestartMode.RemovalRaces`).
* A rotated secret behind an unchanged instance is not applied (`ConfigApply.ConvergesIff`), and an apply
  that fails half-way can be repeated only under a condition proved exact (`ConfigManager.RetrySucceedsIff`).
* Close signals before it asks for the lock; senders can still enter in between (`CloseFence.SendersSlipIn`).

Modelling choices. Positions, generations and counters are unbounded, except in the backoff arithmetic,
which wraps at 64 bits. Strings are sequences of characters read as bytes. SHA-256 is taken as injective on its input,
so a hash stands for its input. SQLite is an atomic log with one writer, so positions follow commit order.
Protobuf encoding is the identity. Clocks, drivers, the keyring, option decoding and every failure of a
database call are parameters. Command ids and trigger ids are unique.

`dafny verify dfyconfig.toml` checks everything.

## Model

| member | source | states |
|---|---|---|
| `EventLog.Query` | internal/eventstore/query.go:23-52 | the scan returns exactly the rows in (from, to], cut to the limit (1000 when not positive) before the filter is applied |
| `EventLog.QueryIsExact` | internal/eventstore/query.go:23-52 | a page holds exactly the matching events between `from` and the last position the limit let through, in order; it reaches `to` only when the raw rows fit the limit |
| `EventLog.LimitedIsExact` | internal/eventstore/query.go:28-50 | LIMIT on increasing rows is a cut at the last position kept |
| `EventLog.RangeIsExact` | internal/eventstore/query.go:23-40 | the range clause yields exactly the log events above `from` and up to `to`, strictly increasing |
| `EventLog.KeepIsExact` | internal/eventstore/filter.go:21-41 | filtering keeps exactly the matching rows and their order |
| `EventLog.OneFieldFilter` | internal/eventstore/filter.go:21-41 | a field alone constrains that field of the event and nothing else; time bounds are inclusive, an empty field is open |
| `EventLog.FieldsAreAnded` | internal/eventstore/filter.go:9-41 | a filter matches exactly when each of its fields taken alone does |
| `EventLog.IncreasingIsCanonical` | internal/eventstore/query.go:23-52 | two increasing event lists with the same members are equal, so order and membership determine a delivery |
| `Handoff.StepKeepsInv` | internal/eventstore/subscribe.go:227-324 | every step of commit, publish, tailer, dispatch, catch-up, register, unregister, close and receive keeps: deliveries ordered, matching, above the start, unrepeated, and pages and tailer batches without holes |
| `Handoff.RunKeepsInv` | internal/eventstore/subscribe.go:227-324 | that invariant holds in every state of every interleaving |
| `Handoff.DeliveryIsOrdered` | internal/eventstore/subscribe.go:263-324 | in every interleaving a subscriber receives only matching events, in strictly increasing position, none twice |
| `Handoff.StepKeepsPaced` | internal/eventstore/tailer.go:27-55 | as long as no batch publication moves `latestPosition` behind the tailer, it stays level with the tailer and every open registered subscriber has nothing outstanding among dispatched events |
| `Handoff.StepComplete` | internal/eventstore/subscribe.go:227-324 | a step opens a gap below the watermark exactly when it is an empty page that jumps over a match |
| `Handoff.ReadPageComplete` | internal/eventstore/subscribe.go:254-275 | the jump of an empty page to the target loses events if and only if a match lies beyond the row limit |
| `Handoff.CompleteIff` | internal/eventstore/subscribe.go:227-324 | over whole runs: no gap up to the watermark if and only if no lossy jump happened |
| `Handoff.CompleteIsMatching` | internal/eventstore/subscribe.go:227-277 | having no gap is the same as the delivery being exactly the matching part of the log from the start to the watermark |
| `Handoff.HandoffHasNoGap` | internal/eventstore/subscribe.go:227-324 | the hand-off theorem: without stale batch publications a delivery equals the matching log up to the watermark if and only if no empty page jumped over a match, and live subscribers lag nothing behind the tailer |
| `Handoff.RequestIsKept` | internal/eventstore/subscribe.go:146-172 | in every run a subscriber keeps the filter, start and capacity it asked for |
| `Handoff.QueueIsBounded` | internal/eventstore/subscribe.go:65-97 | in every run the channel of a subscriber holds at most its capacity, which is positive |
| `Handoff.ClosedGetsNothing` | internal/eventstore/subscribe.go:108-126 | a subscriber can be unregistered and closed at any time, and from then on nothing more enters its channel |
| `Handoff.SubscribeStarts` | internal/eventstore/subscribe.go:146-172 | a new subscriber has nothing delivered, is open and starts where it asked to; nobody else changes |
| `Handoff.SubscriptionDelivers` | internal/eventstore/subscribe.go:138-188 | the same in terms of the request: the requested filter from the requested start |
| `Handoff.JumpIsHarmless` | internal/eventstore/subscribe.go:273-275 | the empty filter, or at most 1000 raw rows left to the target, rules a lossy jump out |
| `Handoff.LossyJumpHappens` | internal/eventstore/query.go:28-50 | concrete log of 1001 rows whose only match is skipped by the jump |
| `Handoff.LostForever` | internal/eventstore/subscribe.go:292-324 | an event behind the tailer that a registered subscriber did not get is still missing in every state of every continuation |
| `Handoff.LostIsNeverDelivered` | internal/eventstore/subscribe.go:292-324 | so no continuation delivers it |
| `Handoff.TailerMovesPast` | internal/eventstore/tailer.go:39-52 | from any reachable state the tailer can take its cursor past every position it has read, without a commit, publication or subscriber step |
| `Handoff.LateRegistration` | internal/eventstore/subscribe.go:241-252 | a subscriber that registers while `latestPosition` is behind the tailer cursor lags: the second clause of the hand-off theorem fails for it, and the missed event is delivered in no continuation |
| `Handoff.LateSubscriberLosesAnEvent` | internal/eventstore/subscribe.go:241-252 | the same when the tailer has only read, not yet handed out, the events beyond `latestPosition` |
| `Handoff.StalePublicationLosesAnEvent` | internal/eventstore/store.go:416-419 | in every run: whenever a batch publication lowers `latestPosition` below what the tailer has read, the run can go on so that the hand-off clause fails for a new subscriber and an event never reaches it; the hypothesis of the hand-off theorem cannot be dropped |
| `Handoff.StaleHappens` | internal/eventstore/store.go:412-419 | concrete run from the empty log that reaches such a publication |
| `LiveStore.OfferAllIsAPath` | internal/eventstore/subscribe.go:298-323 | walking the copied subscriber list is a path of dispatch steps |
| `LiveStore.HandedIsAPath` | internal/eventstore/tailer.go:49-52 | one turn of the tailer loop is a path of the step system |
| `LiveStore.BlockingSend` | internal/eventstore/subscribe.go:83-97 | a send that may wait for room delivers exactly when the subscriber is open and the wait is not cut short; otherwise nothing changes; it is a path of steps |
| `LiveStore.SendWholePage` | internal/eventstore/subscribe.go:263-275 | the blocking sends of a page deliver it in order and move the watermark with each: all of it unless the subscriber is closed or the patience of its context runs out, and then catch-up ends behind exactly what got through |
| `LiveStore.CatchupTurn` | internal/eventstore/subscribe.go:254-275 | one turn is a path of steps of the subscriber; it sends exactly the queried page as far as it gets through, which is everything that matches between the old and the new watermark, unless the query skips a match: then nothing is sent and the watermark jumps to the target |
| `LiveStore.ShortOrUnfiltered` | internal/eventstore/subscribe.go:254-275 | no query skips a match when the filter is empty or at most 1000 rows are left |
| `LiveStore.Store.constructor` | internal/eventstore/store.go:69-88 | an opened store starts with the tailer at the end of the log |
| `LiveStore.Store.Subscribe` | internal/eventstore/subscribe.go:138-172 | the new entry carries the request; a buffer that is not positive is replaced by the configured one; it is the subscribe step |
| `LiveStore.Store.PublishPosition` | internal/eventstore/store.go:170-175 | Append publishes the maximum, AppendBatch overwrites |
| `LiveStore.Store.TrySend` | internal/eventstore/subscribe.go:65-77 | a non-blocking send queues the event, or reports a drop exactly when the channel is full and open |
| `LiveStore.Store.OfferOne` | internal/eventstore/subscribe.go:299-322 | filter, watermark guard, send, and unregistering on a drop |
| `LiveStore.Store.Dispatch` | internal/eventstore/subscribe.go:292-324 | dispatch over a copied list equals offering the event to each registered subscriber in turn |
| `LiveStore.Store.CatchupAndRegister` | internal/eventstore/subscribe.go:227-277 | catch-up is a path of the step system and terminates: registered at the larger of its start and `latestPosition` and sent exactly what matches in between if and only if no query skipped a match, or unregistered because of a close or an abandoned wait; the request is unchanged |
| `LiveStore.Store.RegisterSub` | internal/eventstore/subscribe.go:241-252 | the registration section is the register step |
| `CloseFence.StepKeepsInv` | internal/eventstore/subscribe.go:65-126 | every step of senders, consumers and closers keeps lock exclusion and the order flag, close, unlock |
| `CloseFence.FenceIsSafe` | internal/eventstore/subscribe.go:65-126 | in every interleaving no send reaches a closed channel, no closed channel is closed again, and a returned Close finds it closed |
| `CloseFence.ReadersAreAccounted` | internal/eventstore/subscribe.go:65-97 | the read lock is held from entering to leaving by exactly the senders in between |
| `CloseFence.FlagDecides` | internal/eventstore/subscribe.go:65-90 | a sender turns back when it finds the closed flag up and goes to the channel when it is down; other senders stay where they are |
| `CloseFence.CallersAreAccounted` | internal/eventstore/subscribe.go:108-126 | every caller of Close is waiting or has returned, never both |
| `CloseFence.BufferIsAccounted` | internal/eventstore/subscribe.go:65-97 | the channel holds what was sent and not consumed, never more than its capacity |
| `CloseFence.ClosedOnce` | internal/eventstore/subscribe.go:108-126 | the closing step is taken at most once in a run, whatever number of callers there is |
| `CloseFence.NoSenderAtClosedChannel` | internal/eventstore/subscribe.go:65-97 | no sender stands at the channel of a closed subscriber |
| `CloseFence.StepWork` | internal/eventstore/subscribe.go:83-126 | once the closer has asked for the write lock no step adds work and every internal step removes some |
| `CloseFence.CloserAdvances` | internal/eventstore/subscribe.go:108-126 | each closer step takes Close one stage on and nothing takes it back |
| `CloseFence.BlockedSendEnds` | internal/eventstore/subscribe.go:83-97 | a blocked send can end with its context, with the closed signal, or with room that the consumer makes |
| `CloseFence.CloseGetsToSignal` | internal/eventstore/subscribe.go:118-120 | before the signal nothing holds the closer up |
| `CloseFence.CallersGetThrough` | internal/eventstore/subscribe.go:108-126 | anybody may call Close at any time, and every call can return once the closer is through |
| `CloseFence.CloseIsNeverStuck` | internal/eventstore/subscribe.go:83-126 | once closing is signalled some lock holder or the closer itself can always step; between signal and lock request the closer can always ask |
| `CloseFence.CloseFinishes` | internal/eventstore/subscribe.go:108-126 | from its lock request on Close ends after a bounded number of internal steps under any schedule |
| `CloseFence.SendersSlipIn` | internal/eventstore/subscribe.go:119-120 | between the signal and the lock request a sender can still enter and add work, so the bound cannot start earlier |
| `AppendStore.CommitOneAgrees` | internal/eventstore/store.go:191-271 | one committed append keeps every synchronous projector equal to the fold of the log and its cursor at the end |
| `AppendStore.CommitOneWrites` | internal/eventstore/store.go:191-271 | a committed append adds one row that differs from the event in its position only, moves every synchronous projector one step and its cursor there, and nothing else |
| `AppendStore.CommitAllAgrees` | internal/eventstore/store.go:308-425 | so does any number of appends |
| `AppendStore.WelcomeIffCommits` | internal/eventstore/store.go:335-385 | a batch can be committed if and only if every synchronous projector can replay the log with its rows at the end |
| `AppendStore.RunAgrees` | internal/eventstore/store.go:122-425 | over every run of appends and batches that follow one another, each all-or-nothing, log, projector states and cursors agree |
| `AppendStore.MoveTwice` | internal/eventstore/store.go:239-258 | moving cursors per event or once at the end of a batch ends in the same place |
| `AppendStore.BatchCursors` | internal/eventstore/store.go:387-399 | the cursors of events appended one by one are those a batch writes once |
| `AppendStore.CommitAllRows` | internal/eventstore/store.go:191-271 | appended rows are the events in order, at the positions that follow the end of the log |
| `AppendStore.Store.constructor` | internal/eventstore/store.go:69-88 | an empty store satisfies the agreement |
| `AppendStore.Store.ApplyProjectors` | internal/eventstore/store.go:239-258 | the projector loop stages exactly the next state of each synchronous projector, succeeds if and only if every one of them does and no operation of the loop meets the fault, and reports busy as the fault says |
| `AppendStore.Store.AdvanceCursors` | internal/eventstore/store.go:387-399 | the cursor upserts of a batch |
| `AppendStore.Store.AppendTx` | internal/eventstore/store.go:191-271 | from any staged state one attempt either commits exactly one append on top of what was staged or changes nothing persistent, and leaves nothing staged; a sound event is committed exactly when none of its operations, counted from begin to commit, meets the fault |
| `AppendStore.Store.InsertBatch` | internal/eventstore/store.go:335-385 | from any staged state the batch builds exactly the rows and states of one-by-one appends, exactly when it is sound and none of its operations meets the fault |
| `AppendStore.Store.BatchTx` | internal/eventstore/store.go:318-410 | one attempt at a batch, from any staged state, commits all its events as if appended one by one, or changes nothing persistent; it commits exactly when the batch is sound and none of its operations meets the fault |
| `AppendStore.Store.WithRetry` | internal/eventstore/store.go:273-295 | at most five attempts; only busy failures are retried and only while the call is not cancelled; for a sound append every attempt but the last met a busy fault, and the result is exactly what the last one makes of it |
| `AppendStore.Store.Append` | internal/eventstore/store.go:122-179 | with no other call in progress: succeeds if and only if the event has kind and source, no synchronous projector refuses it, and only busy faults come before an attempt whose operations all go well; success writes exactly one row behind the log and publishes the maximum; failure changes nothing |
| `AppendStore.Store.AppendBatch` | internal/eventstore/store.go:308-425 | with no other call in progress: the same if and only if for several events, all or none, with their positions in order and an overwritten published position |
| `ConcurrentAppend.StepKeepsInv` | internal/eventstore/store.go:191-271 | every step of overlapping attempts (insert, stage, fail, discard, roll back, commit, promote) keeps: one writer, log rows only from committed attempts, and slot and promoted rows a subsequence of the staging order |
| `ConcurrentAppend.RunKeepsInv` | internal/eventstore/store.go:191-271 | in every state of every interleaving |
| `ConcurrentAppend.SameRowsSameOrder` | internal/state/cache.go:78-146 | the promoted rows are the log in its order exactly when they are the rows of the committed attempts |
| `ConcurrentAppend.SlotIsEmptied` | internal/state/cache.go:129-146 | in every run a filled slot holds something not yet promoted: discard and promote empty it |
| `ConcurrentAppend.AgreesIffSettled` | internal/state/cache.go:36-43 | over every interleaving that has come to rest: the shared projector state is built from exactly the log if and only if no clean-up threw away a row whose attempt commits and no promotion took in a row whose attempt does not |
| `ConcurrentAppend.StateIsFold` | internal/state/cache.go:78-146 | then the projector state is the fold of the log |
| `ConcurrentAppend.GuardedRunAgrees` | internal/eventstore/store.go:197-206 | a guard on the moment suffices: clean-ups meet only rows of failing attempts in the slot, promotions only committed ones |
| `ConcurrentAppend.UndoneForGood` | internal/eventstore/store.go:260-269 | one clean-up over a committed row, or one promotion of a failing row, leaves log and projector different at every later rest |
| `ConcurrentAppend.SerialRunAgrees` | internal/state/cache.go:39-41 | attempts that follow one another always agree |
| `ConcurrentAppend.ForeignDiscardHappens` | internal/eventstore/store.go:197-206 | concrete interleaving in which a busy attempt discards the staged state of another, whose committed event the projector then never sees |
| `ConcurrentAppend.ForeignPromoteHappens` | internal/eventstore/store.go:260-269 | concrete interleaving in which a commit promotes the staged state of another attempt, which then fails |
| `Replay.BatchIsExact` | internal/eventstore/replay.go:101-123 | a batch holds the first rows above the cursor: every event of the log up to the position of its last row, in order |
| `Replay.ReplayCovers` | internal/eventstore/replay.go:32-57 | for every increasing log replay terminates and pushes every event above the start at least once and nothing else |
| `Replay.ReplayCount` | internal/eventstore/replay.go:45-55 | the number of pushes is the distance from the start to the end of the log, because the cursor advances by count |
| `Replay.DenseIffCount` | internal/eventstore/replay.go:45-55 | a log has no holes above the start exactly when that distance equals its number of events there |
| `Replay.DenseOnce` | internal/eventstore/replay.go:32-57 | on a dense log replay pushes each event once, in order |
| `Replay.ReplayOnceIffDense` | internal/eventstore/replay.go:32-57 | replay pushes each event exactly once and in order if and only if the log has no holes above the start |
| `Replay.HolePushesTwice` | internal/eventstore/replay.go:45-55 | on every two-event log with a hole between them the last event is pushed twice |
| `Replay.ReplayReachesEveryProjector` | internal/eventstore/replay.go:101-198 | every synchronous projector gets every event above the start that it does not skip |
| `Replay.Replayer.RestoreProjectors` | internal/eventstore/replay.go:59-87 | the start is the least restored position, 0 when there is none; a failing restore fails the whole |
| `Replay.Replayer.ApplyRow` | internal/eventstore/replay.go:136-158 | one row goes to every synchronous projector that does not skip it; it fails exactly when the fault strikes one of those |
| `Replay.MovedIsExact` | internal/eventstore/replay.go:160-172 | exactly the cursors of synchronous projectors move, all to the given position |
| `Replay.Replayer.MoveCursors` | internal/eventstore/replay.go:160-172 | the cursor upserts of a batch |
| `Replay.Replayer.ReplayBatch` | internal/eventstore/replay.go:101-186 | fails exactly when the fault strikes the batch; a good batch adds exactly its unskipped rows to each projector and moves every synchronous cursor to its last row; a failing one changes no committed state and no cursor |
| `Replay.Replayer.Replay` | internal/eventstore/replay.go:32-57 | the loop terminates; without a failing batch each projector has seen its part of everything pushed and the cursors stand at the end of the log; a failing batch ends it behind the batches committed before |
| `Registry.FoldIsRowWise` | internal/registry/registry.go:41-158 | the three tables evolve row by row |
| `Registry.DevicesIdempotent` | internal/registry/registry.go:80-90 | replaying the log over any prefix leaves a device row as one replay does |
| `Registry.EntitiesIdempotent` | internal/registry/registry.go:92-123 | the same for entity rows, creation time and unregistration included |
| `Registry.EntityColumns` | internal/registry/registry.go:92-123 | the same over whatever row was there before |
| `Registry.EntityRowAfter` | internal/registry/registry.go:92-123 | after any log there is an entity row exactly for the registered entities; it shows the last registration column by column, is disabled exactly when an unregistration came later, and keeps the time of the first registration and of the last change |
| `Registry.DeviceRowAfter` | internal/registry/registry.go:80-90 | after any log a device row is what the first registration naming the device inserted |
| `Registry.InstanceRowAfter` | internal/registry/registry.go:62-158 | after any log there is an instance row exactly for the created instances, with the names of how it was first seen, its time, and every other column at its last write since |
| `Registry.FieldAfter` | internal/registry/registry.go:125-158 | each column of an existing instance row holds the last value written |
| `Registry.FreshField` | internal/registry/registry.go:125-158 | each column of a row built from nothing holds the last write since its creation or its default |
| `Registry.ReplayedField` | internal/registry/registry.go:125-158 | each column after replaying over a prefix that already holds the row |
| `Registry.SettledSuffices` | internal/registry/registry.go:125-158 | columns written before the row exists must be written again after: then replay is idempotent |
| `Registry.UnsettledFails` | internal/registry/registry.go:125-158 | otherwise some prefix gives a different row |
| `Registry.DevicesAndEntitiesReplay` | internal/registry/registry.go:62-123 | device and entity tables replay identically with no hypothesis |
| `Registry.IdempotentIffSettled` | internal/registry/registry.go:41-158 | replaying the whole log over tables built from any prefix equals one replay from empty, if and only if the log is settled |
| `Registry.CreatedFirstReplays` | internal/registry/registry.go:41-158 | in particular when stopped, failed and heartbeat events follow an event that creates the row |
| `Registry.StoppedBeforeRegistered` | internal/registry/registry.go:125-158 | concrete log of two events that replays differently |
| `Registry.Projector.ApplyEntityRegistered` | internal/registry/registry.go:62-114 | the upserts of a registration |
| `Registry.Projector.ApplyDriverEvent` | internal/registry/registry.go:125-158 | the upsert or update of each driver event kind |
| `Registry.Projector.Apply` | internal/registry/registry.go:41-60 | one event changes the tables as the row functions say |
| `Registry.Projector.Replay` | internal/registry/registry.go:41-60 | replaying a log is the fold over the tables |
| `PolicyGraph.ResolveRoleInheritance` | internal/policy/compiler.go:93-121 | terminates; fails if and only if the inherits graph has a cycle; otherwise maps each role to exactly its reflexive-transitive closure |
| `PolicyGraph.RoleVisitor.Visit` | internal/policy/compiler.go:97-114 | a visit adds only roles reachable from its start, finishes each after all it inherits, and fails only on a cycle |
| `PolicyGraph.VisitedIsClosure` | internal/policy/compiler.go:93-121 | what a finished visit has seen is exactly what its start reaches |
| `PolicyGraph.IndexFalls` | internal/policy/compiler.go:97-114 | along inheritance the finishing order strictly falls, so a finished graph has no cycle |
| `PolicyGraph.Expansion.WalkDescendants` | internal/policy/selector.go:61-69 | on any tree, cyclic or not, the walk terminates and adds exactly descendants |
| `PolicyGraph.Expansion.ExpandAreas` | internal/policy/selector.go:43-59 | returns exactly the areas at or below a declared known area; a star declares all |
| `PolicyGraph.ExpansionIgnoresOrder` | internal/policy/selector.go:43-59 | declaration order and repetition do not matter |
| `SelectorHash.WriteSection` | internal/policy/schema.go:73-93 | one labelled, sorted, terminated list is written as the encoding says |
| `SelectorHash.HashSelector` | internal/policy/schema.go:73-93 | the bytes hashed are the three sections and the 64-bit count |
| `SelectorHash.SortedIsCanonical` | internal/policy/schema.go:73-93 | a multiset of strings has one sorted arrangement |
| `SelectorHash.EncodeIsInjective` | internal/policy/schema.go:73-93 | on clean strings two selectors share a hash if and only if their three lists agree up to order |
| `SelectorHash.ZeroByteCollides` | internal/policy/schema.go:73-93 | with a zero byte inside a name two different area lists collide |
| `SelectorHash.EndByteCollides` | internal/policy/schema.go:73-93 | with a leading end byte a name can move from areas to classes |
| `Policy.ItemsMeaning` | internal/policy/compiler.go:71-89 | a rule is in force for a role exactly when a policy naming the role contains it |
| `Policy.CleanHasNoCollision` | internal/policy/compiler.go:163-187 | clean selectors never share a memo entry unless they expand alike |
| `Policy.ZeroByteMisleadsMemo` | internal/policy/compiler.go:167-172 | a zero byte makes the memo answer for another selector |
| `Policy.KeyIsInjective` | internal/policy/schema.go:96-98 | without dots in service names an action key names one service and method |
| `Policy.KeysMeanActionsIff` | internal/policy/schema.go:96-98 | looking an action up by its key agrees with comparing service and method, for every rule, if and only if no other catalog action of the verb shares the key |
| `Policy.PlainServicesAreUnambiguous` | internal/policy/schema.go:96-98 | which holds whenever service names have no dot |
| `PolicyCompiler.Builder.CompileSelector` | internal/policy/compiler.go:163-187 | the compiled selector has the classes and entities of the raw one and the areas its hash has in the memo; a hash seen for the first time gets the exact expansion, and no entry is ever changed |
| `PolicyCompiler.Builder.NamesNonEntity` | internal/policy/compiler.go:149-159 | finds a non-entity action among the named services if there is one |
| `PolicyCompiler.Builder.ServicesKnown` | internal/policy/compiler.go:134-142 | accepts exactly the services of the catalog |
| `PolicyCompiler.Builder.CompileRule` | internal/policy/compiler.go:123-161 | succeeds exactly when the rule is well formed with the areas the memo has for it, and compiles it with those; otherwise says which check it fails; exact well-formedness on collision-free sources |
| `PolicyCompiler.Builder.AddToActionAllowlist` | internal/policy/compiler.go:201-230 | adds exactly the catalog actions the rule covers, for its verbs or for all verbs |
| `PolicyCompiler.Builder.AddAllow` | internal/policy/compiler.go:73-80 | extends rules and allowlist by one rule, on every source, with areas from the memo; fails only on an unsafe rule |
| `PolicyCompiler.Builder.AddDeny` | internal/policy/compiler.go:81-87 | extends the deny rules by one rule, in the same sense |
| `PolicyCompiler.Builder.AddAllows` | internal/policy/compiler.go:73-80 | all allow rules of a policy for one subject, in order, on every source |
| `PolicyCompiler.Builder.AddDenies` | internal/policy/compiler.go:81-87 | all deny rules of a policy for one subject, in order, on every source |
| `PolicyCompiler.Builder.AddSubject` | internal/policy/compiler.go:72-88 | allow and deny rules of a policy for one subject |
| `PolicyCompiler.Builder.AddPolicy` | internal/policy/compiler.go:72-88 | one policy for every subject on every source; without collisions fails exactly when one of its rules is malformed and it has a subject |
| `PolicyCompiler.Builder.AddNext` | internal/policy/compiler.go:71-89 | one more policy of the source after those already taken in |
| `PolicyCompiler.Builder.AddPolicies` | internal/policy/compiler.go:71-89 | all policies in order, on every source |
| `PolicyCompiler.Compile` | internal/policy/compiler.go:52-91 | fails with a cycle error exactly on a role cycle, otherwise only with a flaw that some policy has; every success is built from the memo and is faithful if and only if no two hashed selectors collide; without collisions succeeds exactly on well-formed sources; yields the exact role closure |
| `PolicyCompiler.FaithfulIffNoCollision` | internal/policy/compiler.go:163-187 | whatever a successful compilation yields, it means what the source says if and only if selectors with one hash expand to the same areas |
| `PolicyCompiler.WellFormedPolicies` | internal/policy/compiler.go:123-161 | well-formedness of a source, rule by rule |
| `PolicyRuntime.AnyRolePermits` | internal/policy/runtime.go:82-91 | the allowlist is searched over all roles of the principal |
| `PolicyRuntime.FirstMatch` | internal/policy/runtime.go:109-129 | the first matching rule of a list, or none |
| `PolicyRuntime.AnyRoleMatches` | internal/policy/runtime.go:109-129 | the first matching rule in the list of some role, or none |
| `PolicyRuntime.Authorize` | internal/policy/runtime.go:70-132 | the checks in their order, with the reason of the first that fails |
| `PolicyRuntime.RuleMeans` | internal/policy/runtime.go:179-191 | a faithful compiled rule matches exactly when the raw rule applies |
| `PolicyRuntime.ActionsMean` | internal/policy/schema.go:60-70 | the allowlist admits an action exactly when some allow rule of a role covers a catalog action with its service, method and verb, as long as its key is unambiguous |
| `PolicyRuntime.AuthorizeMeansPolicies` | internal/policy/runtime.go:70-132 | compilation preserves meaning: for an action with an unambiguous key the authorizer permits exactly what a direct reading of the raw policies, catalog, areas and request fields permits and the token scope, if any, allows; each refusal is given exactly for the first check that fails |
| `PolicyRuntime.CompileAndAuthorize` | internal/policy/runtime.go:70-132 | from source to decision, reason and named policy for a principal without a token, on collision-free sources and unambiguous keys |
| `PolicyRuntime.DenialIsNamed` | internal/policy/runtime.go:123-129 | an explicit denial names a policy of the source that denies the request to one of the roles |
| `PolicyRuntime.FieldsDecide` | internal/policy/runtime.go:179-202 | a rule on areas alone lets an entity pass exactly by its area, one on classes by its class, one on ids by its id |
| `PolicyRuntime.AttributesFillIn` | internal/policy/runtime.go:193-202 | attributes stand in for empty fields of a request and are ignored beside set ones |
| `PolicyRuntime.DottedRequestPasses` | internal/policy/runtime.go:78-91 | on a catalog with a dotted service every compiled form permits a request for an action the catalog does not contain |
| `PolicyRuntime.CollisionMisdecides` | internal/policy/compiler.go:163-187 | for every two colliding selectors a two-policy source exists on which every compiled form gives one of two roles the wrong decision |
| `PolicyRuntime.MisledAuthorizer` | internal/policy/runtime.go:70-132 | compiling that source and asking the authorizer for both roles gives at least one wrong answer |
| `PolicyRuntime.CollidingSelectorsExist` | internal/policy/schema.go:73-93 | concrete colliding selectors with a zero byte |
| `PolicyRuntime.NarrowerScopePermitsLess` | internal/policy/runtime.go:93-104 | a contained scope never permits a request its container refuses |
| `TokenScope.CoversIsSound` | internal/policy/intersect.go:142-160 | a covering pattern matches whatever the covered one matches |
| `TokenScope.PatternIsPrefix` | internal/policy/intersect.go:142-147 | a trailing star stands for any ending; without one a pattern is literal |
| `TokenScope.CoversIsExact` | internal/policy/intersect.go:149-160 | a pattern covers another if and only if it matches whatever the other matches |
| `TokenScope.ContainsIsReflexive` | internal/policy/intersect.go:28-127 | every scope contains itself |
| `TokenScope.ContainsIsTransitive` | internal/policy/intersect.go:28-127 | containment composes when the two outer scopes have plain action keys |
| `TokenScope.StarredActionBreaksTransitivity` | internal/policy/intersect.go:64-110 | with a starred action key in either of them it does not: two concrete triples |
| `TokenScope.ContainsIsSound` | internal/policy/intersect.go:22-127 | for plain action keys, whatever a contained scope allows its container allows |
| `TokenScope.StarredActionBreaksSoundness` | internal/policy/intersect.go:64-110 | with a starred action key it does not |
| `TokenScope.TargetContainmentIsExact` | internal/policy/intersect.go:112-140 | target containment holds if and only if every target the child allows the parent allows |
| `TokenScope.ActionContainmentIsStricter` | internal/policy/intersect.go:64-87 | a star allows every action yet does not contain the full scope |
| `TokenScope.CompileScope` | internal/api/token_scope.go:14-72 | compiles exactly a missing request and the valid ones, never yields an action set, and a missing request allows everything |
| `TokenScope.CompiledScopeMeans` | internal/api/token_scope.go:14-72 | a compiled request allows exactly the actions its tool and service patterns match and the targets it lists, an empty list meaning all |
| `TokenScope.ValidPatternMeans` | internal/api/token_scope.go:60-72 | a pattern is valid exactly when it is not empty and has no star before its last character |
| `TokenScope.MintedScopeIsEnforced` | internal/api/interceptor_authn.go:134-156 | the scope checked at minting is the scope later decoded |
| `TokenScope.MintSucceedsIff` | internal/api/service_auth.go:334-350 | minting succeeds exactly for a valid request inside the scope of the issuer, and says which of the two failed |
| `TokenScope.OwnScopeCanBeMinted` | internal/api/service_auth.go:334-350 | a holder can always mint a token with its own scope |
| `TokenScope.ChainNarrows` | internal/api/service_auth.go:334-350 | along any chain of mints a later scope is contained in, and allows no more than, an earlier one |
| `Correlation.StepKeepsInv` | internal/carport/instance.go:86-207 | every step of callers, reader, failing stream and closers keeps: a channel still held by somebody is untouched, and no caller waits on a forgotten channel |
| `Correlation.RunKeepsInv` | internal/carport/instance.go:86-207 | in every state of every interleaving |
| `Correlation.WaiterIsOwnedOnce` | internal/carport/instance.go:118-146 | each waiter channel gets at most one of a single send or a single close, no step sends on or closes a closed channel, and a call returns only a result with its own id |
| `Correlation.OutcomeHasCause` | internal/carport/instance.go:150-207 | in every run a call leaves with an outcome only for its own reason: a result read for its id, a failed stream, a failed write, its expiry, its cancellation |
| `Correlation.CauseSettles` | internal/carport/instance.go:164-207 | a failed write, an expiry and a cancellation settle the outcome of a call for good |
| `Correlation.ResultIsReturned` | internal/carport/instance.go:118-131 | a result that finds its call waiting is what the call can return |
| `Correlation.NoWaiterLeftBehind` | internal/carport/instance.go:133-146 | after the stream failed nothing is pending, and every waiting call can return once the closing loop and the reader are done |
| `Correlation.ClosingReachesWaiters` | internal/carport/instance.go:133-146 | the closing loop can close every channel it holds, and a call waiting on one then returns a closed stream |
| `Correlation.WaiterIsNeverForgotten` | internal/carport/instance.go:150-207 | a waiting call can return if and only if nobody holds its channel any more |
| `Correlation.LateResultIsIgnored` | internal/carport/instance.go:118-131 | a result after the stream failed changes nothing |
| `InstanceConn.Conn.constructor` | internal/carport/instance.go:72-79 | a fresh connection is the initial protocol state |
| `InstanceConn.Conn.Register` | internal/carport/instance.go:151-158 | the opening section of SendCommand is the protocol step |
| `InstanceConn.Conn.Forget` | internal/carport/instance.go:164-169 | a failed, expired or cancelled call takes only its own entry back |
| `InstanceConn.Conn.Deliver` | internal/carport/instance.go:118-131 | lookup, removal and send are the two reader steps, and the waiter gets exactly this result |
| `InstanceConn.Conn.FailAll` | internal/carport/instance.go:133-146 | closes exactly the channels that were pending, once, and leaves nothing pending |
| `InstanceConn.Conn.OnMessage` | internal/carport/instance.go:104-114 | buffered or handed over, in order of arrival |
| `InstanceConn.Conn.SetIngestHook` | internal/carport/instance.go:218-227 | drains the buffer through the hook, oldest first |
| `Ingest.StepConserves` | internal/carport/instance.go:104-114 | every message stays in exactly one of buffer, drain list, reader and hook |
| `Ingest.EachMessageOnce` | internal/carport/instance.go:218-227 | in every interleaving no message reaches the hook twice, and all have reached it once the hook is set and both goroutines are through |
| `Ingest.HookOrder` | internal/carport/instance.go:104-114 | the hook sees arrival order if and only if the reader never calls it while the buffer is being drained |
| `Ingest.OvertakingHappens` | internal/carport/instance.go:218-227 | concrete interleaving in which the second message overtakes the first |
| `Dispatch.IsAtRoot` | internal/carport/dispatch.go:191-207 | a sentinel is found in a chain of wrapped errors exactly at its bottom |
| `Dispatch.AckByRoot` | internal/carport/dispatch.go:119-139 | the ack of a failure depends only on the bottom error, however often it was wrapped |
| `Dispatch.MapByRoot` | internal/carport/dispatch.go:191-207 | what a caller gets for each bottom error: a sentinel for the classified ones, any other error unchanged |
| `Dispatch.MapIsIdempotent` | internal/carport/dispatch.go:191-207 | mapping twice is mapping once, and no raw context error survives it |
| `Dispatch.AckOfEveryOutcome` | internal/carport/dispatch.go:112-139 | for every way SendCommand can return: success exactly on a positive driver result, and the message for each kind of failure |
| `Dispatch.StepIsDisciplined` | internal/carport/dispatch.go:68-155 | every step keeps each dispatch at exactly the entries its stage owes |
| `Dispatch.EachDispatchLogs` | internal/carport/dispatch.go:26-166 | over every run: nothing logged by pre-flight failures, one issued entry in between, issued then one ack of its own reply afterwards |
| `Dispatch.DispatchCanFinish` | internal/carport/dispatch.go:68-155 | before it is logged a dispatch can be rejected or issued, afterwards it can get as far as its ack |
| `Dispatch.ReplyIsKept` | internal/carport/dispatch.go:104-139 | in every run the reply a dispatch acks with is what its own SendCommand returned |
| `Dispatch.RunKeepsBalance` | internal/carport/dispatch.go:68-155 | issued entries equal acks plus dispatches in between plus lost acks, per entity, in every run |
| `Dispatch.IssuedMinusAcks` | internal/carport/dispatch.go:20-25 | INV-1: issued minus acks equals the dispatches in between if and only if every ack append for the entity succeeded |
| `Dispatch.LostAckUnbalances` | internal/carport/dispatch.go:141-155 | concrete run that ends with an issued entry, no ack and no dispatch in between |
| `Dispatch.Host.Dispatch` | internal/carport/dispatch.go:26-166 | one call: which error each pre-flight failure returns, nothing logged by it; otherwise issued and ack in order, and the result or the error for each way SendCommand can end |
| `Supervisor.PrunedIsCut` | internal/carport/supervisor.go:304-316 | for clocks that never step back the pruned history is the full history cut to the window, if and only if the window is not negative |
| `Supervisor.BudgetBoundsRetries` | internal/carport/supervisor.go:304-330 | no span of one window holds more retries than the budget, wherever it starts |
| `Supervisor.FreshBudget` | internal/carport/control.go:22-27 | after a manual restart has emptied the history the first attempts up to the budget are all retried, whatever their times; one more at the same time is not |
| `Supervisor.ClockStepBreaksBudget` | internal/carport/supervisor.go:304-330 | after a clock step back the bound fails: concrete times |
| `Supervisor.DelayIsCappedPower` | internal/carport/supervisor.go:332-340 | for a cap below 2^62 ns the delay is min(initial * 2^(n-1), max), if and only if the start is within the cap or this is not the first attempt |
| `Supervisor.DelayIffNoOverflow` | internal/carport/supervisor.go:332-340 | for any 64-bit cap the delay is right for every attempt if and only if no doubling under the cap reaches 2^62; otherwise some delay is negative |
| `Supervisor.OverflowHappens` | internal/carport/supervisor.go:332-340 | concrete start and cap whose second delay is negative |
| `Supervisor.ComputeBackoff` | internal/carport/supervisor.go:332-340 | the doubling loop with its early stop, in wrapping 64-bit arithmetic |
| `Supervisor.Managed.ScheduleBackoff` | internal/carport/supervisor.go:304-354 | prunes and records the attempt, retries exactly within the budget, quarantines otherwise |
| `Supervisor.RunHealth` | internal/carport/supervisor.go:252-283 | gives up exactly at the first probe that completes the limit of consecutive failures |
| `QueuedMode.StepKeepsFifo` | internal/automation/engine.go:319-380 | every step keeps accepted fires equal to executed, executing, skipped at shutdown and queued, in that order, and the queue within capacity |
| `QueuedMode.QueueConserves` | internal/automation/engine.go:319-380 | in every run that order holds, the capacity holds, and each enabled finished fire was accepted once or reported skipped once |
| `QueuedMode.FireIsNeverStuck` | internal/automation/engine.go:255-326 | in every reachable state the next step of each unfinished fire is open and takes it on |
| `QueuedMode.WaitGroupIsExact` | internal/automation/engine.go:255-258 | the WaitGroup counts exactly the live fire goroutines and the pump |
| `QueuedMode.PumpIsStarted` | internal/automation/engine.go:342-348 | a filled queue without a pump always has a fire about to start one |
| `QueuedMode.AfterExitNothingRuns` | internal/automation/engine.go:342-380 | the pump is never restarted: after it exits nothing is executed again and later accepted fires stay queued |
| `QueuedMode.ServedIffPumpLives` | internal/automation/engine.go:342-380 | in every reachable state: some continuation executes or reports a queued fire if and only if the pump has not exited |
| `QueuedMode.StrandedFire` | internal/automation/engine.go:194-207 | concrete run that accepts a fire no continuation ever serves |
| `QueuedMode.ExitNeedsCancel` | internal/automation/engine.go:366-378 | the pump stops only when the context of the fire that started it is done |
| `QueuedMode.ZeroCapacityAcceptsNothing` | internal/automation/mode.go:34-41 | a queue of capacity zero never accepts a fire |
| `QueuedMode.RunState.Ensure` | internal/automation/mode.go:34-41 | the queue is made once, later sizes are ignored |
| `QueuedMode.RunState.FireQueued` | internal/automation/engine.go:319-326 | the queued branch of a fire is the corresponding path of steps |
| `QueuedMode.RunState.DrainAndExit` | internal/automation/engine.go:366-378 | the shutdown loop reports everything waiting, oldest first |
| `RestartMode.StepKeepsInv` | internal/automation/engine.go:292-318 | every step keeps: only the newest generation may be uncancelled, and then the stored cancel function is its own |
| `RestartMode.OneLiveRun` | internal/automation/engine.go:292-318 | in every interleaving of fires, completions and removal: older runs are cancelled, the stored cancel belongs to the newest generation and to a run that has not cleared it, at most one run is uncancelled |
| `RestartMode.RunsAdvance` | internal/automation/engine.go:307-318 | a run goes through its stages one at a time, moved by nobody else |
| `RestartMode.NothingIsStuck` | internal/automation/engine.go:255-318 | in every reachable state the next step of each unfinished fire and of each launched run is open and takes it on |
| `RestartMode.CancelReachesRun` | internal/automation/engine.go:297-312 | a run whose context ended or whose work is done is cancelled from then on |
| `RestartMode.RefusedFireReturns` | internal/automation/engine.go:260-271 | a fire that finds the automation gone or disabled returns without starting a run |
| `RestartMode.FireStartsItsRun` | internal/automation/engine.go:292-318 | an admitted fire starts one run of the next generation under its own name and cancels all others |
| `RestartMode.WaitGroupIsExact` | internal/automation/engine.go:255-318 | the WaitGroup counts exactly the live fire and run goroutines |
| `RestartMode.RemoveCancelsAll` | internal/automation/reload.go:46-63 | removal cancels every run and stores no cancel function |
| `RestartMode.RemovalIsFinalIff` | internal/automation/reload.go:46-63 | after removal all runs stay cancelled in every continuation if and only if no fire was between its lookup and its restart section |
| `RestartMode.HolderRestarts` | internal/automation/engine.go:260-301 | such a fire can start a run that nothing cancels |
| `RestartMode.RemovalRaces` | internal/automation/engine.go:260-301 | concrete run of four steps that leaves a live run of a removed automation |
| `RestartMode.RunState.Supersede` | internal/automation/engine.go:293-302 | the restart section cancels every other run |
| `RestartMode.RunState.ClearIfNewest` | internal/automation/engine.go:313-317 | a finished run never takes away a newer cancel function |
| `RestartMode.RunState.CancelActive` | internal/automation/reload.go:49-55 | the removal section leaves every run cancelled |
| `ConfigApply.LaterLayerWins` | internal/config/lifecycle_merge.go:18-48 | every lifecycle field is set: by the instance, else by the driver manifest, else by default |
| `ConfigApply.EntryDescribes` | internal/config/manager.go:95-109 | an instance gets an entry exactly when its driver is installed, its options decode and it is enabled; the entry holds the binary, the parameters and the merged lifecycle field by field |
| `ConfigApply.SelectIsExact` | internal/config/diff.go:30-39 | the difference picks exactly the new instances and those whose hash changed |
| `ConfigApply.ConvergesIff` | internal/config/manager.go:165-184 | from a table equal to the enabled instances of the applied snapshot, the differential apply gives what a full reset would, if and only if no instance with an unchanged hash would be registered differently today |
| `ConfigApply.TouchedRow` | internal/config/manager.go:170-184 | from any table, a new or changed instance ends up registered as it stands today, or unregistered if it does not run |
| `ConfigApply.UntouchedRow` | internal/config/manager.go:165-184 | every other entry stays as it was, except that removed instances are gone |
| `ConfigApply.RotatedSecretIsKept` | internal/config/manager.go:156-184 | a changed secret behind an unchanged text is not picked up |
| `ConfigManager.Host.RegisterInstance` | internal/carport/carport.go:123-149 | refuses a stopped host and a known id, otherwise adds exactly one entry |
| `ConfigManager.Host.UnregisterInstance` | internal/carport/carport.go:159-172 | removes the entry, or reports that there is none |
| `ConfigManager.IndexOld` | internal/config/diff.go:23-28 | the old snapshot as a map from id to hash |
| `ConfigManager.ComputeDiff` | internal/config/diff.go:20-44 | added and changed ids in order, removed ids each once, exactly as the difference says |
| `ConfigManager.FindInstance` | internal/config/manager.go:219-226 | finds an instance by id if and only if there is one |
| `ConfigManager.CheckIds` | internal/config/compile.go:19-27 | accepts exactly snapshots without duplicate ids |
| `ConfigManager.ResolveSecrets` | internal/config/secrets.go:45-54 | replaces parameters only, all or an error |
| `ConfigManager.DiffSurvivesSecrets` | internal/config/manager.go:148-163 | the difference is the same before and after secrets are resolved |
| `ConfigManager.Manager.RegisterInstance` | internal/config/manager.go:95-109 | driver lookup, options, disabled instances skipped, lifecycle layers merged |
| `ConfigManager.Manager.RemoveAll` | internal/config/manager.go:165-169 | succeeds exactly when every id is registered; the table loses exactly the ids unregistered so far, all of them on success |
| `ConfigManager.Manager.AddAll` | internal/config/manager.go:170-175 | succeeds exactly when every added instance can be registered; the table gains the enabled entries up to the first that cannot |
| `ConfigManager.Manager.ReplaceAll` | internal/config/manager.go:176-184 | succeeds exactly when every changed instance was registered and can be again; otherwise the table is replaced up to the first that cannot, which is gone |
| `ConfigManager.Manager.Reconcile` | internal/config/manager.go:165-184 | the three loops together: exact success, the reconciled table, and where it stopped and the table then |
| `ConfigManager.Manager.Apply` | internal/config/manager.go:143-189 | what is rejected before any effect; a dry run changes nothing; exactly when the host calls fail; what the table and the applied snapshot are in each case including every failure; which outcome is logged; and convergence |
| `ConfigManager.ApplySucceedsIff` | internal/config/manager.go:165-184 | on a matching table an apply goes through if and only if no disabled instance is removed or changed and every new or changed one can be registered |
| `ConfigManager.KeysAfterFailure` | internal/config/manager.go:165-184 | which instances are registered after a failed apply, for every point at which it can stop |
| `ConfigManager.RetrySucceedsIff` | internal/config/manager.go:165-184 | after a failed apply a retry with any snapshot goes through if and only if what it removes and changes is still registered, nothing it adds and enables is registered already, and every new or changed instance can be registered |
| `ConfigManager.RemovedTwiceIsStuck` | internal/config/manager.go:165-184 | in particular, once the removals are done no retry that still omits a removed instance succeeds |
| `ConfigManager.HalfAddedIsStuck` | internal/config/manager.go:165-184 | and with no removals at all: a retry that repairs the second of two additions fails at the first |
| `Reloader.StepKeepsInv` | internal/config/reloader.go:53-108 | every step of triggers and loop keeps pending requests reachable, conserved in order, and the shown error the latest |
| `Reloader.NoLostReload` | internal/config/reloader.go:53-108 | in every interleaving each pending request has a signal, its own trigger about to signal or a loop about to take it; whenever the loop idles without a signal, every completed trigger was in an apply begun after its append |
| `Reloader.IdleIsCaughtUp` | internal/config/reloader.go:53-108 | and with no trigger half done nothing is pending |
| `Reloader.BegunWasCovered` | internal/config/reloader.go:90-100 | a request counted as applied was in the batch of an apply that began after its append |
| `Reloader.MidwayIsExact` | internal/config/reloader.go:53-61 | a trigger is half way exactly from its append to its signal |
| `Reloader.SignalIsFresh` | internal/config/reloader.go:58-88 | a waiting signal was given after the last wake-up and the last drain |
| `Reloader.ApplyNamesOldest` | internal/config/reloader.go:90-100 | an apply goes under the source of the oldest request not yet covered, or unknown when there is none |
| `Reloader.AppliesAreAskedFor` | internal/config/reloader.go:71-108 | no more applies than wake-ups and no more wake-ups than signals, in every run |
| `Reloader.PendingIsReachable` | internal/config/reloader.go:65-76 | a waiting loop with a pending request can wake, or its trigger can signal, and the error shown is that of the latest recorded apply |
| `Reloader.PendingGetsApplied` | internal/config/reloader.go:53-108 | from every reachable state whose loop is not stopped, every pending request can still get into an apply |
| `Reloader.StoppedIsFinal` | internal/config/reloader.go:71-108 | the loop can be stopped while it waits or sleeps, and then no apply begins any more |
| `Reloader.Reloader.Trigger` | internal/config/reloader.go:53-61 | Trigger is the append step followed by the signal step |
| `Reloader.Reloader.WakeUp` | internal/config/reloader.go:65-76 | taking the signal is the wake step |
| `Reloader.Reloader.TakeAndApply` | internal/config/reloader.go:71-108 | after the debounce sleep the loop body is the path drain, take, begin, end, record: everything pending becomes one apply under the oldest source |

## Left out

- SQLite, gRPC, HTTP handlers, WebAuthn, process spawning, file watching and the command line are replaced by the assumptions above.
- Pkl evaluation, Starlark scripts and JSON decoding are foreign evaluators; their results are parameters.
- Of the state cache only the pending slot and its promotion are modelled, not the entity states; the trigger, condition and action packages are not part of this model. Projectors are a contract with staged and committed state.
- Asynchronous projectors take no part in appends or replay, as in the code; nothing is stated about them.
- Events always carry a payload here; the refusal of a missing one is not modelled. A missing timestamp or correlation id, which the code fills in, is a parameter.
- Durable subscription cursors, snapshots and the statistics counters of subscribers are left out.
- Single and parallel run modes are left out: one compare-and-swap and no shared state, so they would only add easy members.
- Closing a queue while a fire is in progress, and the re-registration of triggers on reload, are left out; removal is kept for restart mode only.
- The instance state table is left out: it is finite, and the supervisor assigns states directly.
- The policy authorizer's filtering of entity lists and its explanations are left out; they repeat the decision per entity.
- The area map and class of a target come from the request, as the authorizer reads them; inheritance of roles is resolved but not read by the authorizer, and is not in its specification.
- Validation of entities, automations and scripts in a snapshot is left out; only the duplicate instance check is modelled.
- Config pub/sub, edit locks, pair codes, saved queries, displays, pagination, solar times, metrics, tracing and the web application are left out as easy or foreign.
- The ConfigApplied entry that an apply appends is reduced to whether it was stored; its counts are the lengths of the difference.
- Dispatch.IssuedMinusAcks: counts a failed issued append as not logged; an append that commits and still reports an error is not modelled.
- TokenScope.ContainsIsSound: one direction only for actions, because the converse is false; TokenScope.ActionContainmentIsStricter gives the input, TokenScope.TargetContainmentIsExact has both directions for targets.
- PolicyCompiler.Compile: which ill-formed sources are accepted on a hash collision is stated rule by rule (PolicyCompiler.Builder.CompileRule), because it depends on the order in which selectors reach the memo; faithfulness of every success is exact.
- AppendStore.Store.Append: describes a call with no other in progress; overlapping calls are in ConcurrentAppend.
- AppendStore.Store.AppendBatch: describes a call with no other in progress; overlapping calls are in ConcurrentAppend.
- AppendStore.RunAgrees: describes calls that follow one another; ConcurrentAppend.AgreesIffSettled covers every interleaving.
- TokenScope.ContainsIsTransitive: needs plain action keys in the two outer scopes, because it is false otherwise; TokenScope.StarredActionBreaksTransitivity gives an input for each.
- QueuedMode.QueueConserves: holds for an automation that is not removed by a reload.
- Supervisor.BudgetBoundsRetries: counts attempts since the last manual restart.
- Replay.Replayer.ReplayBatch: a failed batch leaves staged projector states in place, as in the code; only committed state is described.
