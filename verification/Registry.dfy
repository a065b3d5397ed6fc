/**
 The registry projector: three SQL tables kept by upserts. Its replay starts from the
 first event over tables that already hold some prefix of the log, so the upserts must be
 idempotent; this module finds exactly when they are.
 */
module Registry {
  import opened Basics
  import opened EventLog

  /** A nullable column. */
  datatype Val = Null | Text(text: string) | Time(nanos: int)

  datatype InstanceRow = InstanceRow(
    driverName: string, displayName: string, transport: string, endpoint: string, configHash: string,
    createdAt: int, status: Val, lastError: Val, startedAt: Val, heartbeat: Val)

  datatype DeviceRow = DeviceRow(instance: string, friendlyName: string, disabled: bool, createdAt: int, updatedAt: int)

  datatype EntityRow = EntityRow(
    device: Option<string>, instance: string, entityType: string, friendlyName: string, caps: string,
    disabled: bool, createdAt: int, updatedAt: int)

  datatype Tables = Tables(
    instances: map<string, InstanceRow>, devices: map<string, DeviceRow>, entities: map<string, EntityRow>)

  const EMPTY := Tables(map[], map[], map[])

  function Lookup<V>(m: map<string, V>, k: string): Option<V> { if k in m then Some(m[k]) else None }

  // ---------------------------------------------------------------- one row at a time

  function StartingRow(ts: int): InstanceRow {
    InstanceRow("", "", "local_subprocess", "", "", ts, Text("starting"), Null, Null, Null)
  }

  function RunningRow(id: string, ts: int): InstanceRow {
    InstanceRow(id, id, "local_subprocess", "", "", ts, Text("running"), Null, Time(ts), Time(ts))
  }

  /** The driver_instances row of `id` after one event. */
  function InstanceStep(r: Option<InstanceRow>, id: string, e: Event): Option<InstanceRow> {
    match e.payload
    case EntityRegistered(instance, _, _, _, _) =>
      if instance == id && r.None? then Some(StartingRow(e.ts)) else r
    case DriverEvent(instance, kind, detail) =>
      if instance != id then r
      else if kind == "started" then
        if r.None? then Some(RunningRow(id, e.ts))
        else Some(r.value.(status := Text("running"), lastError := Null,
                           startedAt := Time(e.ts), heartbeat := Time(e.ts)))
      else if r.None? then r
      else if kind == "stopped" then Some(r.value.(status := Text("stopped")))
      else if kind == "failed" then Some(r.value.(status := Text("failed"), lastError := Text(detail)))
      else if kind == "heartbeat" then Some(r.value.(heartbeat := Time(e.ts)))
      else r
    case _ => r
  }

  function DeviceStep(r: Option<DeviceRow>, id: string, e: Event): Option<DeviceRow> {
    match e.payload
    case EntityRegistered(instance, device, _, _, _) =>
      if device != "" && device == id && r.None? then Some(DeviceRow(instance, "", false, e.ts, e.ts)) else r
    case _ => r
  }

  function EntityStep(r: Option<EntityRow>, id: string, e: Event): Option<EntityRow> {
    if e.entity != id then r
    else
      match e.payload
      case EntityRegistered(instance, device, entityType, friendlyName, caps) =>
        var created := if r.Some? then r.value.createdAt else e.ts;
        Some(EntityRow(if device == "" then None else Some(device), instance, entityType, friendlyName, caps,
                       false, created, e.ts))
      case EntityUnregistered => if r.None? then r else Some(r.value.(disabled := true, updatedAt := e.ts))
      case _ => r
  }

  function InstanceFold(r: Option<InstanceRow>, id: string, es: seq<Event>): Option<InstanceRow> {
    if |es| == 0 then r else InstanceStep(InstanceFold(r, id, es[..|es| - 1]), id, es[|es| - 1])
  }

  function DeviceFold(r: Option<DeviceRow>, id: string, es: seq<Event>): Option<DeviceRow> {
    if |es| == 0 then r else DeviceStep(DeviceFold(r, id, es[..|es| - 1]), id, es[|es| - 1])
  }

  function EntityFold(r: Option<EntityRow>, id: string, es: seq<Event>): Option<EntityRow> {
    if |es| == 0 then r else EntityStep(EntityFold(r, id, es[..|es| - 1]), id, es[|es| - 1])
  }

  // ---------------------------------------------------------------- the tables

  /** The three upserts of one event on the tables. */
  function ApplyTo(t: Tables, e: Event): Tables {
    match e.payload
    case EntityRegistered(instance, device, _, _, _) =>
      Tables(
        if instance in t.instances then t.instances else t.instances[instance := StartingRow(e.ts)],
        if device == "" || device in t.devices then t.devices
        else t.devices[device := DeviceRow(instance, "", false, e.ts, e.ts)],
        t.entities[e.entity := EntityStep(Lookup(t.entities, e.entity), e.entity, e).value])
    case EntityUnregistered =>
      if e.entity !in t.entities then t
      else t.(entities := t.entities[e.entity := t.entities[e.entity].(disabled := true, updatedAt := e.ts)])
    case DriverEvent(instance, _, _) =>
      var row := InstanceStep(Lookup(t.instances, instance), instance, e);
      if row.None? then t else t.(instances := t.instances[instance := row.value])
    case OtherPayload(_) => t
  }

  function Fold(t: Tables, es: seq<Event>): Tables {
    if |es| == 0 then t else ApplyTo(Fold(t, es[..|es| - 1]), es[|es| - 1])
  }

  lemma ApplyIsRowWise(t: Tables, e: Event, id: string)
    ensures Lookup(ApplyTo(t, e).instances, id) == InstanceStep(Lookup(t.instances, id), id, e)
    ensures Lookup(ApplyTo(t, e).devices, id) == DeviceStep(Lookup(t.devices, id), id, e)
    ensures Lookup(ApplyTo(t, e).entities, id) == EntityStep(Lookup(t.entities, id), id, e)
  {
  }

  lemma {:induction false} FoldIsRowWise(t: Tables, es: seq<Event>, id: string)
    ensures Lookup(Fold(t, es).instances, id) == InstanceFold(Lookup(t.instances, id), id, es)
    ensures Lookup(Fold(t, es).devices, id) == DeviceFold(Lookup(t.devices, id), id, es)
    ensures Lookup(Fold(t, es).entities, id) == EntityFold(Lookup(t.entities, id), id, es)
  {
    if |es| > 0 {
      FoldIsRowWise(t, es[..|es| - 1], id);
      ApplyIsRowWise(Fold(t, es[..|es| - 1]), es[|es| - 1], id);
    }
  }

  lemma SameRows<V>(a: map<string, V>, b: map<string, V>)
    requires forall k :: Lookup(a, k) == Lookup(b, k)
    ensures a == b
  {
    forall k ensures k in a <==> k in b { assert Lookup(a, k) == Lookup(b, k); }
    forall k | k in a ensures a[k] == b[k] { assert Lookup(a, k) == Lookup(b, k); }
  }

  // ---------------------------------------------------------------- devices and entities

  lemma {:induction false} DeviceStays(row: DeviceRow, id: string, es: seq<Event>)
    ensures DeviceFold(Some(row), id, es) == Some(row)
  {
    if |es| > 0 { DeviceStays(row, id, es[..|es| - 1]); }
  }

  lemma {:induction false} DeviceFoldSplits(r: Option<DeviceRow>, id: string, es: seq<Event>, k: nat)
    requires k <= |es|
    ensures DeviceFold(r, id, es) == DeviceFold(DeviceFold(r, id, es[..k]), id, es[k..])
    decreases |es| - k
  {
    if k < |es| {
      DeviceFoldSplits(r, id, es[..|es| - 1], k);
      assert es[..|es| - 1][..k] == es[..k] && es[..|es| - 1][k..] == es[k..][..|es| - k - 1];
    } else {
      assert es[..k] == es && es[k..] == [];
    }
  }

  /** Replaying devices over any prefix changes nothing. */
  lemma DevicesIdempotent(id: string, log: seq<Event>, k: nat)
    requires k <= |log|
    ensures DeviceFold(DeviceFold(None, id, log[..k]), id, log) == DeviceFold(None, id, log)
  {
    var r0 := DeviceFold(None, id, log[..k]);
    if r0.Some? {
      DeviceStays(r0.value, id, log);
      DeviceFoldSplits(None, id, log, k);
      DeviceStays(r0.value, id, log[k..]);
    }
  }

  predicate RegistersEntity(e: Event, id: string) { e.entity == id && e.payload.EntityRegistered? }

  lemma {:induction false} EntityCreated(id: string, es: seq<Event>, c: nat)
    requires c < |es| && RegistersEntity(es[c], id) && forall i | 0 <= i < c :: !RegistersEntity(es[i], id)
    ensures var r := EntityFold(None, id, es); r.Some? && r.value.createdAt == es[c].ts
    ensures EntityFold(None, id, es[..c]) == None
  {
    EntityAbsent(id, es[..c]);
    var init := es[..|es| - 1];
    if c < |init| {
      assert init[..c] == es[..c];
      EntityCreated(id, init, c);
    }
  }

  lemma {:induction false} EntityAbsent(id: string, es: seq<Event>)
    requires forall i | 0 <= i < |es| :: !RegistersEntity(es[i], id)
    ensures EntityFold(None, id, es) == None
  {
    if |es| > 0 { EntityAbsent(id, es[..|es| - 1]); }
  }

  lemma {:induction false} EntityKeepsCreation(row: EntityRow, id: string, es: seq<Event>)
    ensures var r := EntityFold(Some(row), id, es); r.Some? && r.value.createdAt == row.createdAt
  {
    if |es| > 0 { EntityKeepsCreation(row, id, es[..|es| - 1]); }
  }

  /** From the first registration on, a replay over an existing row agrees with a fresh one. */
  lemma {:induction false} EntitiesConverge(row: EntityRow, id: string, es: seq<Event>, c: nat)
    requires c < |es| && RegistersEntity(es[c], id) && row.createdAt == es[c].ts
    requires forall i | 0 <= i < c :: !RegistersEntity(es[i], id)
    ensures EntityFold(Some(row), id, es) == EntityFold(None, id, es)
  {
    var init := es[..|es| - 1];
    if c < |init| {
      EntitiesConverge(row, id, init, c);
    } else {
      EntityAbsent(id, init);
      EntityKeepsCreation(row, id, init);
    }
  }

  /** Replaying entities over any prefix changes nothing. */
  lemma EntitiesIdempotent(id: string, log: seq<Event>, k: nat)
    requires k <= |log|
    ensures EntityFold(EntityFold(None, id, log[..k]), id, log) == EntityFold(None, id, log)
  {
    var r0 := EntityFold(None, id, log[..k]);
    if r0.Some? {
      var c := FirstRegistration(id, log[..k]);
      EntityCreated(id, log[..k], c);
      EntitiesConverge(r0.value, id, log, c);
    }
  }

  lemma FirstRegistration(id: string, es: seq<Event>) returns (c: nat)
    requires EntityFold(None, id, es).Some?
    ensures c < |es| && RegistersEntity(es[c], id) && forall i | 0 <= i < c :: !RegistersEntity(es[i], id)
  {
    if forall i | 0 <= i < |es| :: !RegistersEntity(es[i], id) {
      EntityAbsent(id, es);
    }
    c := FirstOf(id, es);
  }

  // ---------------------------------------------------------------- what the rows hold

  predicate TouchesEntity(e: Event, id: string) {
    e.entity == id && (e.payload.EntityRegistered? || e.payload.EntityUnregistered?)
  }

  /** `k` is the last event of the log that registers the entity. */
  ghost predicate LastRegistered(es: seq<Event>, id: string, k: nat) {
    k < |es| && RegistersEntity(es[k], id) && forall j | k < j < |es| :: !RegistersEntity(es[j], id)
  }

  /** `m` is the last event of the log that registers or unregisters the entity. */
  ghost predicate LastTouched(es: seq<Event>, id: string, m: nat) {
    m < |es| && TouchesEntity(es[m], id) && forall j | m < j < |es| :: !TouchesEntity(es[j], id)
  }

  /** The columns that a registration overwrites hold what its payload says. */
  predicate Shows(row: EntityRow, p: Payload)
    requires p.EntityRegistered?
  {
    && row.instance == p.instance && row.entityType == p.entityType && row.friendlyName == p.friendlyName
    && row.caps == p.caps
    && (p.device == "" ==> row.device == None) && (p.device != "" ==> row.device == Some(p.device))
  }

  /** An entity row after any events, over whatever row was there before. */
  lemma {:induction false} EntityColumns(r: Option<EntityRow>, id: string, es: seq<Event>, k: nat, m: nat)
    requires LastRegistered(es, id, k) && LastTouched(es, id, m)
    ensures var row := EntityFold(r, id, es);
            && row.Some? && Shows(row.value, es[k].payload)
            && (row.value.disabled <==> k < m)
            && row.value.updatedAt == es[m].ts
    decreases |es|
  {
    var init := es[..|es| - 1];
    if k < |init| {
      assert LastRegistered(init, id, k);
      var m' := LastTouchOf(init, id, k);
      EntityColumns(r, id, init, k, m');
      if m < |init| { assert LastTouched(init, id, m); }
      assert m' < m ==> !TouchesEntity(es[m], id) || m == |init|;
    }
  }

  lemma LastTouchOf(es: seq<Event>, id: string, k: nat) returns (m: nat)
    requires LastRegistered(es, id, k)
    ensures LastTouched(es, id, m) && k <= m
  {
    m := |es| - 1;
    while !TouchesEntity(es[m], id)
      invariant k <= m < |es| && forall j | m < j < |es| :: !TouchesEntity(es[j], id)
      decreases m
    {
      m := m - 1;
    }
  }

  /**
   The entities table after any log: there is a row exactly for the registered entities. It
   shows the last registration, it is disabled exactly when an unregistration came later, and
   it keeps the time of the first registration and of the last change.
   */
  lemma EntityRowAfter(log: seq<Event>, id: string)
    ensures id in Fold(EMPTY, log).entities <==> exists i :: 0 <= i < |log| && RegistersEntity(log[i], id)
    ensures forall k: nat, m: nat {:trigger LastRegistered(log, id, k), LastTouched(log, id, m)} ::
              LastRegistered(log, id, k) && LastTouched(log, id, m) ==>
                var rows := Fold(EMPTY, log).entities;
                && id in rows && Shows(rows[id], log[k].payload)
                && (rows[id].disabled <==> k < m) && rows[id].updatedAt == log[m].ts
    ensures forall c: nat | c < |log| && RegistersEntity(log[c], id) ::
              (forall i | 0 <= i < c :: !RegistersEntity(log[i], id)) ==>
                id in Fold(EMPTY, log).entities && Fold(EMPTY, log).entities[id].createdAt == log[c].ts
  {
    FoldIsRowWise(EMPTY, log, id);
    if forall i | 0 <= i < |log| :: !RegistersEntity(log[i], id) {
      EntityAbsent(id, log);
    } else {
      var c := FirstOf(id, log);
      EntityCreated(id, log, c);
    }
    forall k: nat, m: nat | LastRegistered(log, id, k) && LastTouched(log, id, m)
      ensures var row := EntityFold(None, id, log);
              && row.Some? && Shows(row.value, log[k].payload)
              && (row.value.disabled <==> k < m) && row.value.updatedAt == log[m].ts
    {
      EntityColumns(None, id, log, k, m);
    }
  }

  lemma FirstOf(id: string, es: seq<Event>) returns (c: nat)
    requires exists i :: 0 <= i < |es| && RegistersEntity(es[i], id)
    ensures c < |es| && RegistersEntity(es[c], id) && forall i | 0 <= i < c :: !RegistersEntity(es[i], id)
  {
    c := 0;
    while !RegistersEntity(es[c], id)
      invariant c < |es| && forall i | 0 <= i < c :: !RegistersEntity(es[i], id)
      decreases |es| - c
    {
      c := c + 1;
    }
  }

  predicate NamesDevice(e: Event, id: string) { id != "" && e.payload.EntityRegistered? && e.payload.device == id }

  lemma {:induction false} DeviceAbsent(id: string, es: seq<Event>)
    requires forall i | 0 <= i < |es| :: !NamesDevice(es[i], id)
    ensures DeviceFold(None, id, es) == None
  {
    if |es| > 0 { DeviceAbsent(id, es[..|es| - 1]); }
  }

  /** A device row is what the first registration that names the device inserts, after any log. */
  lemma {:induction false} DeviceRowAfter(log: seq<Event>, id: string, c: nat)
    requires c <= |log| && forall i | 0 <= i < c :: !NamesDevice(log[i], id)
    requires c < |log| ==> NamesDevice(log[c], id)
    ensures var rows := Fold(EMPTY, log).devices;
            && (id in rows <==> c < |log|)
            && (c < |log| ==> var row := rows[id];
                              && row.instance == log[c].payload.instance && row.friendlyName == "" && !row.disabled
                              && row.createdAt == row.updatedAt == log[c].ts)
  {
    FoldIsRowWise(EMPTY, log, id);
    DeviceAbsent(id, log[..c]);
    if c < |log| {
      DeviceFoldSplits(None, id, log, c + 1);
      assert log[..c + 1][..c] == log[..c];
      DeviceStays(DeviceFold(None, id, log[..c + 1]).value, id, log[c + 1..]);
    } else {
      assert log[..c] == log;
    }
  }

  // ---------------------------------------------------------------- driver instances

  /** The columns of a driver instance that later events overwrite. */
  datatype Field = Status | LastError | StartedAt | Heartbeat

  function Get(row: InstanceRow, f: Field): Val {
    match f
    case Status => row.status
    case LastError => row.lastError
    case StartedAt => row.startedAt
    case Heartbeat => row.heartbeat
  }

  /** A freshly registered instance before any driver event. */
  function Default(f: Field): Val { if f.Status? then Text("starting") else Null }

  function OrDefault(v: Option<Val>, f: Field): Val { if v.Some? then v.value else Default(f) }

  /** What `e` writes into column `f` of an existing row of `id`. */
  function Writes(e: Event, id: string, f: Field): Option<Val> {
    if !e.payload.DriverEvent? || e.payload.instance != id then None
    else
      var kind := e.payload.kind;
      if kind == "started" then
        Some(match f case Status => Text("running") case LastError => Null case _ => Time(e.ts))
      else if kind == "stopped" then (if f.Status? then Some(Text("stopped")) else None)
      else if kind == "failed" then
        match f { case Status => Some(Text("failed")) case LastError => Some(Text(e.payload.detail)) case _ => None }
      else if kind == "heartbeat" then (if f.Heartbeat? then Some(Time(e.ts)) else None)
      else None
  }

  /** Events that insert the row of `id` when it is missing. */
  predicate Creates(e: Event, id: string) {
    || (e.payload.EntityRegistered? && e.payload.instance == id)
    || (e.payload.DriverEvent? && e.payload.instance == id && e.payload.kind == "started")
  }

  /** The columns fixed at insertion. */
  function Identity(row: InstanceRow): InstanceRow {
    row.(status := Null, lastError := Null, startedAt := Null, heartbeat := Null)
  }

  lemma RowIsIdentityAndFields(a: InstanceRow, b: InstanceRow)
    requires Identity(a) == Identity(b) && forall f :: Get(a, f) == Get(b, f)
    ensures a == b
  {
    assert Get(a, Status) == Get(b, Status) && Get(a, LastError) == Get(b, LastError);
    assert Get(a, StartedAt) == Get(b, StartedAt) && Get(a, Heartbeat) == Get(b, Heartbeat);
  }

  lemma StepWrites(row: InstanceRow, id: string, e: Event, f: Field)
    ensures var r := InstanceStep(Some(row), id, e);
            && r.Some? && Identity(r.value) == Identity(row)
            && Get(r.value, f) == if Writes(e, id, f).Some? then Writes(e, id, f).value else Get(row, f)
  {
  }

  function LastWrite(es: seq<Event>, id: string, f: Field): Option<Val> {
    if |es| == 0 then None
    else if Writes(es[|es| - 1], id, f).Some? then Writes(es[|es| - 1], id, f)
    else LastWrite(es[..|es| - 1], id, f)
  }

  ghost predicate Written(es: seq<Event>, id: string, f: Field) {
    exists i :: 0 <= i < |es| && Writes(es[i], id, f).Some?
  }

  lemma {:induction false} LastWriteExists(es: seq<Event>, id: string, f: Field)
    ensures LastWrite(es, id, f).Some? <==> Written(es, id, f)
  {
    if |es| > 0 {
      LastWriteExists(es[..|es| - 1], id, f);
      assert forall i | 0 <= i < |es| - 1 :: es[..|es| - 1][i] == es[i];
    }
  }

  lemma {:induction false} LastWriteSplits(es: seq<Event>, id: string, f: Field, k: nat)
    requires k <= |es|
    ensures LastWrite(es, id, f) ==
            if LastWrite(es[k..], id, f).Some? then LastWrite(es[k..], id, f) else LastWrite(es[..k], id, f)
    decreases |es| - k
  {
    if k < |es| {
      LastWriteSplits(es[..|es| - 1], id, f, k);
      assert es[..|es| - 1][..k] == es[..k] && es[..|es| - 1][k..] == es[k..][..|es| - k - 1];
    } else {
      assert es[..k] == es && es[k..] == [];
    }
  }

  /** An existing row after a run of events: the last write of each column wins. */
  lemma {:induction false} FieldAfter(row: InstanceRow, id: string, es: seq<Event>, f: Field)
    ensures var r := InstanceFold(Some(row), id, es);
            && r.Some? && Identity(r.value) == Identity(row)
            && Get(r.value, f) == if LastWrite(es, id, f).Some? then LastWrite(es, id, f).value else Get(row, f)
  {
    if |es| > 0 {
      FieldAfter(row, id, es[..|es| - 1], f);
      StepWrites(InstanceFold(Some(row), id, es[..|es| - 1]).value, id, es[|es| - 1], f);
    }
  }

  lemma {:induction false} InstanceAbsent(id: string, es: seq<Event>)
    requires forall i | 0 <= i < |es| :: !Creates(es[i], id)
    ensures InstanceFold(None, id, es) == None
  {
    if |es| > 0 { InstanceAbsent(id, es[..|es| - 1]); }
  }

  ghost predicate FirstCreation(es: seq<Event>, id: string, c: nat) {
    c < |es| && Creates(es[c], id) && forall i | 0 <= i < c :: !Creates(es[i], id)
  }

  /** A row built from nothing: its columns are the last write since its creation, or the default. */
  lemma {:induction false} FreshField(id: string, es: seq<Event>, c: nat, f: Field)
    requires FirstCreation(es, id, c)
    ensures var r := InstanceFold(None, id, es);
            && r.Some? && Identity(r.value) == Identity(InstanceStep(None, id, es[c]).value)
            && Get(r.value, f) == OrDefault(LastWrite(es[c..], id, f), f)
  {
    var init := es[..|es| - 1];
    assert es[c..][..|es| - c - 1] == init[c..] || c == |init|;
    if c < |init| {
      assert init[c..] == es[c..][..|es| - c - 1];
      FreshField(id, init, c, f);
      StepWrites(InstanceFold(None, id, init).value, id, es[|es| - 1], f);
    } else {
      InstanceAbsent(id, init);
      assert es[c..] == [es[c]];
      assert LastWrite(es[c..][..0], id, f) == None;
    }
  }

  /**
   The driver_instances row after any log: there is one exactly for the created instances. An
   instance first seen starting carries its id as its names, one first seen through an entity
   has none; both keep the time of that event, and every other column its last write since.
   */
  lemma InstanceRowAfter(log: seq<Event>, id: string, c: nat, f: Field)
    requires c <= |log| && forall i | 0 <= i < c :: !Creates(log[i], id)
    requires c < |log| ==> Creates(log[c], id)
    ensures var rows := Fold(EMPTY, log).instances;
            && (id in rows <==> c < |log|)
            && (c < |log| ==>
                  var row, name := rows[id], if log[c].payload.DriverEvent? then id else "";
                  && row.driverName == row.displayName == name && row.transport == "local_subprocess"
                  && row.endpoint == row.configHash == "" && row.createdAt == log[c].ts
                  && Get(row, f) == OrDefault(LastWrite(log[c..], id, f), f))
  {
    FoldIsRowWise(EMPTY, log, id);
    if c < |log| {
      assert FirstCreation(log, id, c);
      FreshField(id, log, c, f);
      assert Identity(InstanceFold(None, id, log).value) == Identity(InstanceStep(None, id, log[c]).value);
    } else {
      InstanceAbsent(id, log);
    }
  }

  /**
   Every column written before the row of `id` is created is written again at or after its
   creation (a "started" event creates and writes all of them).
   */
  ghost predicate Settled(log: seq<Event>, id: string) {
    forall c: nat, f {:trigger Written(log[..c], id, f)} | FirstCreation(log, id, c) && Written(log[..c], id, f) ::
      Written(log[c..], id, f)
  }

  /** The columns of the row after replaying the whole log over a prefix that holds its creation. */
  lemma ReplayedField(id: string, log: seq<Event>, c: nat, k: nat, f: Field)
    requires FirstCreation(log, id, c) && c < k <= |log|
    ensures var r := InstanceFold(InstanceFold(None, id, log[..k]), id, log);
            && r.Some? && Identity(r.value) == Identity(InstanceStep(None, id, log[c]).value)
            && (Written(log[c..], id, f) ==> Some(Get(r.value, f)) == LastWrite(log[c..], id, f))
            && (!Written(log[c..], id, f) ==>
                Get(r.value, f) == OrDefault(LastWrite(log[..c], id, f), f))
  {
    var prefix := log[..k];
    assert FirstCreation(prefix, id, c);
    FreshField(id, prefix, c, f);
    FieldAfter(InstanceFold(None, id, prefix).value, id, log, f);
    LastWriteSplits(log, id, f, c);
    LastWriteExists(log[c..], id, f);
    LastWriteExists(prefix[c..], id, f);
    if Written(prefix[c..], id, f) {
      var i :| 0 <= i < |prefix[c..]| && Writes(prefix[c..][i], id, f).Some?;
      assert prefix[c..][i] == log[c..][i];
    }
  }

  /** Before its creation a column is never written with the value it gets at creation. */
  lemma {:induction false} EarlyWriteDiffers(id: string, es: seq<Event>, f: Field)
    requires (forall i | 0 <= i < |es| :: !Creates(es[i], id)) && LastWrite(es, id, f).Some?
    ensures LastWrite(es, id, f).value != Default(f)
  {
    var e := es[|es| - 1];
    if Writes(e, id, f).Some? {
      assert "stopped"[2] != "starting"[2] && "failed"[0] != "starting"[0];
    } else {
      EarlyWriteDiffers(id, es[..|es| - 1], f);
    }
  }

  ghost predicate InstanceIdempotent(id: string, log: seq<Event>, k: nat)
    requires k <= |log|
  {
    InstanceFold(InstanceFold(None, id, log[..k]), id, log) == InstanceFold(None, id, log)
  }

  lemma SettledSuffices(id: string, log: seq<Event>, k: nat)
    requires Settled(log, id) && k <= |log|
    ensures InstanceIdempotent(id, log, k)
  {
    if InstanceFold(None, id, log[..k]).Some? {
      var c := FindCreation(id, log[..k]);
      assert FirstCreation(log, id, c);
      var a := InstanceFold(InstanceFold(None, id, log[..k]), id, log);
      var b := InstanceFold(None, id, log);
      ReplayedField(id, log, c, k, Status);
      FreshField(id, log, c, Status);
      forall f ensures Get(a.value, f) == Get(b.value, f) { OneFieldAgrees(id, log, c, k, f); }
      RowIsIdentityAndFields(a.value, b.value);
    }
  }

  lemma OneFieldAgrees(id: string, log: seq<Event>, c: nat, k: nat, f: Field)
    requires FirstCreation(log, id, c) && c < k <= |log|
    requires Written(log[..c], id, f) ==> Written(log[c..], id, f)
    ensures var a := InstanceFold(InstanceFold(None, id, log[..k]), id, log);
            var b := InstanceFold(None, id, log);
            a.Some? && b.Some? && Get(a.value, f) == Get(b.value, f)
  {
    ReplayedField(id, log, c, k, f);
    FreshField(id, log, c, f);
    LastWriteExists(log[c..], id, f);
    LastWriteExists(log[..c], id, f);
  }

  lemma FindCreation(id: string, es: seq<Event>) returns (c: nat)
    requires InstanceFold(None, id, es).Some?
    ensures FirstCreation(es, id, c)
  {
    if forall i | 0 <= i < |es| :: !Creates(es[i], id) {
      InstanceAbsent(id, es);
    }
    c := 0;
    while !Creates(es[c], id)
      invariant c < |es| && forall i | 0 <= i < c :: !Creates(es[i], id)
      decreases |es| - c
    {
      c := c + 1;
    }
  }

  lemma UnsettledFails(id: string, log: seq<Event>)
    requires !Settled(log, id)
    ensures !InstanceIdempotent(id, log, |log|)
  {
    var c: nat, f :| FirstCreation(log, id, c) && Written(log[..c], id, f) && !Written(log[c..], id, f);
    ReplayedField(id, log, c, |log|, f);
    FreshField(id, log, c, f);
    LastWriteExists(log[c..], id, f);
    LastWriteExists(log[..c], id, f);
    EarlyWriteDiffers(id, log[..c], f);
  }

  // ---------------------------------------------------------------- theorems

  /** Replaying the whole log over any of its prefixes gives what one replay from empty gives. */
  ghost predicate Idempotent(log: seq<Event>) {
    forall k | 0 <= k <= |log| :: Fold(Fold(EMPTY, log[..k]), log) == Fold(EMPTY, log)
  }

  /** Devices and entities need no hypothesis. */
  lemma DevicesAndEntitiesReplay(log: seq<Event>, k: nat)
    requires k <= |log|
    ensures Fold(Fold(EMPTY, log[..k]), log).devices == Fold(EMPTY, log).devices
    ensures Fold(Fold(EMPTY, log[..k]), log).entities == Fold(EMPTY, log).entities
  {
    var over := Fold(EMPTY, log[..k]);
    forall id
      ensures Lookup(Fold(over, log).devices, id) == Lookup(Fold(EMPTY, log).devices, id)
      ensures Lookup(Fold(over, log).entities, id) == Lookup(Fold(EMPTY, log).entities, id)
    {
      FoldIsRowWise(EMPTY, log[..k], id);
      FoldIsRowWise(over, log, id);
      FoldIsRowWise(EMPTY, log, id);
      DevicesIdempotent(id, log, k);
      EntitiesIdempotent(id, log, k);
    }
    SameRows(Fold(over, log).devices, Fold(EMPTY, log).devices);
    SameRows(Fold(over, log).entities, Fold(EMPTY, log).entities);
  }

  lemma InstanceRowsReplay(log: seq<Event>, k: nat, id: string)
    requires k <= |log|
    ensures Lookup(Fold(Fold(EMPTY, log[..k]), log).instances, id) == Lookup(Fold(EMPTY, log).instances, id) <==>
            InstanceIdempotent(id, log, k)
  {
    FoldIsRowWise(EMPTY, log[..k], id);
    FoldIsRowWise(Fold(EMPTY, log[..k]), log, id);
    FoldIsRowWise(EMPTY, log, id);
  }

  /** The registry's replay is idempotent exactly on settled logs. */
  lemma IdempotentIffSettled(log: seq<Event>)
    ensures Idempotent(log) <==> forall id :: Settled(log, id)
  {
    if forall id :: Settled(log, id) {
      forall k | 0 <= k <= |log| ensures Fold(Fold(EMPTY, log[..k]), log) == Fold(EMPTY, log) {
        forall id
          ensures Lookup(Fold(Fold(EMPTY, log[..k]), log).instances, id) == Lookup(Fold(EMPTY, log).instances, id)
        {
          assert Settled(log, id);
          SettledSuffices(id, log, k);
          InstanceRowsReplay(log, k, id);
        }
        SameRows(Fold(Fold(EMPTY, log[..k]), log).instances, Fold(EMPTY, log).instances);
        DevicesAndEntitiesReplay(log, k);
      }
    }
    if Idempotent(log) {
      assert Fold(Fold(EMPTY, log[..|log|]), log) == Fold(EMPTY, log);
      forall id ensures Settled(log, id) {
        InstanceRowsReplay(log, |log|, id);
        if !Settled(log, id) { UnsettledFails(id, log); }
      }
    }
  }

  /** The usual case: an instance is stopped, fails or beats only after some event created it. */
  ghost predicate CreatedFirst(log: seq<Event>) {
    forall j, id, f | 0 <= j < |log| && Writes(log[j], id, f).Some? ::
      exists i :: 0 <= i <= j && Creates(log[i], id)
  }

  lemma CreatedFirstReplays(log: seq<Event>)
    requires CreatedFirst(log)
    ensures Idempotent(log)
  {
    forall id ensures Settled(log, id) {
      assert forall c, j | 0 <= j < c <= |log| :: log[..c][j] == log[j];
    }
    IdempotentIffSettled(log);
  }

  /** A driver that reports "stopped" before its instance is known breaks idempotence. */
  lemma StoppedBeforeRegistered(stopped: Event, registered: Event)
    requires stopped.payload == DriverEvent("hue", "stopped", "")
    requires registered.payload.EntityRegistered? && registered.payload.instance == "hue"
    ensures !Idempotent([stopped, registered])
  {
    var log := [stopped, registered];
    assert FirstCreation(log, "hue", 1);
    assert log[..1][0] == stopped && log[1..] == [registered];
    assert Writes(log[..1][0], "hue", Status).Some?;
    assert Written(log[..1], "hue", Status);
    assert !Settled(log, "hue");
    IdempotentIffSettled(log);
  }

  // ---------------------------------------------------------------- the projector

  class Projector {
    var instances: map<string, InstanceRow>
    var devices: map<string, DeviceRow>
    var entities: map<string, EntityRow>

    ghost function Contents(): Tables
      reads this
    {
      Tables(instances, devices, entities)
    }

    constructor ()
      ensures Contents() == EMPTY
    {
      instances, devices, entities := map[], map[], map[];
    }

    method ApplyEntityRegistered(e: Event)
      requires e.payload.EntityRegistered?
      modifies this
      ensures Contents() == ApplyTo(old(Contents()), e)
    {
      var p := e.payload;
      if p.instance !in instances {
        instances := instances[p.instance := StartingRow(e.ts)];
      }
      if p.device != "" && p.device !in devices {
        devices := devices[p.device := DeviceRow(p.instance, "", false, e.ts, e.ts)];
      }
      var device := if p.device == "" then None else Some(p.device);
      var created := if e.entity in entities then entities[e.entity].createdAt else e.ts;
      entities := entities[e.entity :=
        EntityRow(device, p.instance, p.entityType, p.friendlyName, p.caps, false, created, e.ts)];
    }

    method ApplyDriverEvent(e: Event)
      requires e.payload.DriverEvent?
      modifies this`instances
      ensures Contents() == ApplyTo(old(Contents()), e)
    {
      var id, kind := e.payload.instance, e.payload.kind;
      if kind == "started" {
        if id in instances {
          instances := instances[id := instances[id].(
            status := Text("running"), lastError := Null, startedAt := Time(e.ts), heartbeat := Time(e.ts))];
        } else {
          instances := instances[id := RunningRow(id, e.ts)];
        }
      } else if id in instances {
        if kind == "stopped" {
          instances := instances[id := instances[id].(status := Text("stopped"))];
        } else if kind == "failed" {
          instances := instances[id := instances[id].(status := Text("failed"), lastError := Text(e.payload.detail))];
        } else if kind == "heartbeat" {
          instances := instances[id := instances[id].(heartbeat := Time(e.ts))];
        } else {
          assert instances == instances[id := instances[id]];
        }
      }
    }

    method Apply(e: Event)
      modifies this
      ensures Contents() == ApplyTo(old(Contents()), e)
    {
      match e.payload {
        case EntityRegistered(_, _, _, _, _) => ApplyEntityRegistered(e);
        case EntityUnregistered =>
          if e.entity in entities {
            entities := entities[e.entity := entities[e.entity].(disabled := true, updatedAt := e.ts)];
          }
        case DriverEvent(_, _, _) => ApplyDriverEvent(e);
        case OtherPayload(_) =>
      }
    }

    /** Replaying a log over whatever the tables hold. */
    method Replay(log: seq<Event>)
      modifies this
      ensures Contents() == Fold(old(Contents()), log)
    {
      var i := 0;
      while i < |log|
        invariant 0 <= i <= |log|
        invariant Contents() == Fold(old(Contents()), log[..i])
      {
        assert log[..i + 1][..i] == log[..i];
        Apply(log[i]);
        i := i + 1;
      }
      assert log[..i] == log;
    }
  }
}
