/**
 Reconciling the driver host with a new configuration snapshot: the difference between the
 applied snapshot and the next one decides which instances are unregistered, registered or
 replaced.

 An instance's config hash is taken over its raw text, which also holds its id and driver
 name; hashes are injective here, so comparing hashes is comparing instances. Secrets are
 resolved after the hash was taken.
 */
module ConfigApply {
  import opened Basics

  type InstanceId = string

  datatype Instance = Instance(id: InstanceId, driver: string, raw: string)

  /** An instance with its parameters as they stand: raw text before, resolved text after secrets. */
  datatype Config = Config(inst: Instance, params: string)

  datatype Field =
    | HandshakeDeadline | HealthProbeInterval | HealthProbeTimeout | HealthFailuresToRestart | ShutdownGrace
    | RestartBackoffInitial | RestartBackoffMax | RestartBudgetWindow | RestartBudgetMax

  type Lifecycle = map<Field, int>

  /** Durations in milliseconds. */
  const DEFAULTS: Lifecycle := map[
    HandshakeDeadline := 5_000, HealthProbeInterval := 15_000, HealthProbeTimeout := 3_000,
    HealthFailuresToRestart := 3, ShutdownGrace := 10_000, RestartBackoffInitial := 1_000,
    RestartBackoffMax := 60_000, RestartBudgetWindow := 600_000, RestartBudgetMax := 10]

  /** Defaults, then the driver manifest, then the instance: later layers win where they set a field. */
  function MergeLifecycle(manifest: Lifecycle, instance: Lifecycle): Lifecycle { DEFAULTS + manifest + instance }

  /** Every field is set, by the instance if it says so, else by the manifest, else by default. */
  lemma LaterLayerWins(manifest: Lifecycle, instance: Lifecycle, f: Field)
    ensures f in MergeLifecycle(manifest, instance)
    ensures MergeLifecycle(manifest, instance)[f] ==
            if f in instance then instance[f] else if f in manifest then manifest[f] else DEFAULTS[f]
  {
    EveryFieldHasADefault(f);
  }

  lemma EveryFieldHasADefault(f: Field)
    ensures f in DEFAULTS
  {
  }

  datatype Options = Options(enabled: bool, overrides: Lifecycle)

  datatype DriverEntry = DriverEntry(binary: string, lifecycleDefaults: Lifecycle)

  /** The installed drivers and the decoder of instance options. */
  datatype Env = Env(registry: map<string, DriverEntry>, parse: string -> Option<Options>)

  datatype Registered = Registered(binary: string, params: string, enabled: bool, lifecycle: Lifecycle)

  type Table = map<InstanceId, Registered>

  predicate Installable(env: Env, c: Config) { c.inst.driver in env.registry && env.parse(c.params).Some? }

  /** What registering an instance puts in the table; nothing for a disabled one. */
  function EntryOf(env: Env, c: Config): Option<Registered> {
    if Installable(env, c) && env.parse(c.params).value.enabled then
      var d, options := env.registry[c.inst.driver], env.parse(c.params).value;
      Some(Registered(d.binary, c.params, true, MergeLifecycle(d.lifecycleDefaults, options.overrides)))
    else None
  }

  /** The entry says what the driver's manifest, the instance and its decoded options say. */
  ghost predicate Describes(env: Env, c: Config, e: Registered) {
    && c.inst.driver in env.registry && env.parse(c.params).Some?
    && var manifest, overrides := env.registry[c.inst.driver].lifecycleDefaults, env.parse(c.params).value.overrides;
       && e.binary == env.registry[c.inst.driver].binary && e.params == c.params && e.enabled
       && e.lifecycle.Keys == DEFAULTS.Keys
       && forall f | f in DEFAULTS ::
            e.lifecycle[f] ==
            if f in overrides then overrides[f] else if f in manifest then manifest[f] else DEFAULTS[f]
  }

  /** An enabled instance of an installed driver whose options can be decoded. */
  predicate Runs(env: Env, c: Config) {
    c.inst.driver in env.registry && env.parse(c.params).Some? && env.parse(c.params).value.enabled
  }

  lemma EntryDescribes(env: Env, c: Config)
    ensures EntryOf(env, c).Some? <==> Runs(env, c)
    ensures Runs(env, c) ==> Describes(env, c, EntryOf(env, c).value)
  {
    if Runs(env, c) {
      var d, options := env.registry[c.inst.driver], env.parse(c.params).value;
      forall f: Field ensures f in DEFAULTS { EveryFieldHasADefault(f); }
      assert DEFAULTS.Keys + d.lifecycleDefaults.Keys + options.overrides.Keys == DEFAULTS.Keys;
      forall f | f in DEFAULTS ensures f in MergeLifecycle(d.lifecycleDefaults, options.overrides) {
        LaterLayerWins(d.lifecycleDefaults, options.overrides, f);
      }
    }
  }

  /** The table a fresh host would have after registering a whole snapshot. */
  function Reset(env: Env, cs: seq<Config>): Table {
    if cs == [] then map[] else
      var t, c := Reset(env, cs[..|cs| - 1]), cs[|cs| - 1];
      if EntryOf(env, c).Some? then t[c.inst.id := EntryOf(env, c).value] else t
  }

  function Get(t: Table, id: InstanceId): Option<Registered> { if id in t then Some(t[id]) else None }

  ghost predicate DistinctIds(cs: seq<Config>) {
    forall i, j | 0 <= i < j < |cs| :: cs[i].inst.id != cs[j].inst.id
  }

  ghost predicate HasId(cs: seq<Config>, id: InstanceId) { exists c :: c in cs && c.inst.id == id }

  function Ids(cs: seq<Config>): seq<InstanceId> { seq(|cs|, i requires 0 <= i < |cs| => cs[i].inst.id) }

  lemma {:induction false} ResetOnly(env: Env, cs: seq<Config>, id: InstanceId)
    requires id in Reset(env, cs)
    ensures HasId(cs, id)
  {
    var front, c := cs[..|cs| - 1], cs[|cs| - 1];
    if c.inst.id == id {
      assert c in cs;
    } else {
      ResetOnly(env, front, id);
      var d :| d in front && d.inst.id == id;
      assert d in cs;
    }
  }

  lemma {:induction false} ResetAt(env: Env, cs: seq<Config>, k: nat)
    requires DistinctIds(cs) && k < |cs|
    ensures Get(Reset(env, cs), cs[k].inst.id) == EntryOf(env, cs[k])
  {
    var front, c := cs[..|cs| - 1], cs[|cs| - 1];
    if k < |cs| - 1 {
      ResetAt(env, front, k);
    } else if c.inst.id in Reset(env, front) {
      ResetOnly(env, front, c.inst.id);
    }
  }

  lemma ResetOf(env: Env, cs: seq<Config>, c: Config)
    requires DistinctIds(cs) && c in cs
    ensures Get(Reset(env, cs), c.inst.id) == EntryOf(env, c)
  {
    var k :| 0 <= k < |cs| && cs[k] == c;
    ResetAt(env, cs, k);
  }

  lemma SameIdSame(cs: seq<Config>, a: Config, b: Config)
    requires DistinctIds(cs) && a in cs && b in cs && a.inst.id == b.inst.id
    ensures a == b
  {
  }

  // ---------------------------------------------------------------- the difference

  datatype Kind = Added | Changed

  ghost predicate Picks(kind: Kind, prior: seq<Config>, c: Config) {
    match kind
    case Added => !HasId(prior, c.inst.id)
    case Changed => exists o :: o in prior && o.inst.id == c.inst.id && o.inst != c.inst
  }

  /** The instances of a snapshot that are new, or whose hash differs. */
  ghost function Select(kind: Kind, prior: seq<Config>, cs: seq<Config>): seq<Config> {
    if cs == [] then [] else
      var rest, c := Select(kind, prior, cs[..|cs| - 1]), cs[|cs| - 1];
      if Picks(kind, prior, c) then rest + [c] else rest
  }

  lemma {:induction false} SelectIsExact(kind: Kind, prior: seq<Config>, cs: seq<Config>)
    ensures forall c :: c in Select(kind, prior, cs) <==> c in cs && Picks(kind, prior, c)
  {
    if cs != [] {
      SelectIsExact(kind, prior, cs[..|cs| - 1]);
      assert cs == cs[..|cs| - 1] + [cs[|cs| - 1]];
    }
  }

  lemma {:induction false} SelectIsDistinct(kind: Kind, prior: seq<Config>, cs: seq<Config>)
    requires DistinctIds(cs)
    ensures DistinctIds(Select(kind, prior, cs))
  {
    if cs != [] {
      var front, c := cs[..|cs| - 1], cs[|cs| - 1];
      SelectIsDistinct(kind, prior, front);
      SelectIsExact(kind, prior, front);
      forall x | x in Select(kind, prior, front) ensures x.inst.id != c.inst.id {
        var j :| 0 <= j < |front| && front[j] == x;
        assert cs[j] == x;
      }
    }
  }

  ghost function RemovedIds(prior: seq<Config>, next: seq<Config>): set<InstanceId> {
    set c | c in prior && !HasId(next, c.inst.id) :: c.inst.id
  }

  function IdSet(cs: seq<Config>): set<InstanceId> { set c | c in cs :: c.inst.id }

  /** The table after unregistering, registering and replacing what the difference says. */
  ghost function Reconciled(env: Env, t: Table, prior: seq<Config>, next: seq<Config>): Table {
    var added, changed := Select(Added, prior, next), Select(Changed, prior, next);
    ((t - RemovedIds(prior, next)) + Reset(env, added)) - IdSet(changed) + Reset(env, changed)
  }

  /** An instance kept as it is would be registered the same way today. */
  ghost predicate StaleFree(env: Env, prior: seq<Config>, next: seq<Config>) {
    forall o, c | o in prior && c in next && o.inst == c.inst :: EntryOf(env, o) == EntryOf(env, c)
  }

  lemma AddedAt(env: Env, prior: seq<Config>, next: seq<Config>, c: Config)
    requires DistinctIds(prior) && DistinctIds(next) && c in next && Picks(Added, prior, c)
    ensures Get(Reconciled(env, Reset(env, prior), prior, next), c.inst.id) == EntryOf(env, c)
  {
    var id := c.inst.id;
    SelectIsExact(Added, prior, next);
    SelectIsDistinct(Added, prior, next);
    SelectIsExact(Changed, prior, next);
    ResetOf(env, Select(Added, prior, next), c);
    if id in Reset(env, prior) { ResetOnly(env, prior, id); }
    assert forall x | x in Select(Changed, prior, next) :: HasId(prior, x.inst.id);
    assert id !in IdSet(Select(Changed, prior, next));
    if id in Reset(env, Select(Changed, prior, next)) {
      ResetOnly(env, Select(Changed, prior, next), id);
    }
  }

  lemma ChangedAt(env: Env, prior: seq<Config>, next: seq<Config>, c: Config)
    requires DistinctIds(next) && c in next && Picks(Changed, prior, c)
    ensures Get(Reconciled(env, Reset(env, prior), prior, next), c.inst.id) == EntryOf(env, c)
  {
    SelectIsExact(Changed, prior, next);
    SelectIsDistinct(Changed, prior, next);
    ResetOf(env, Select(Changed, prior, next), c);
  }

  lemma KeptAt(env: Env, prior: seq<Config>, next: seq<Config>, o: Config, c: Config)
    requires DistinctIds(prior) && DistinctIds(next) && o in prior && c in next && o.inst == c.inst
    ensures Get(Reconciled(env, Reset(env, prior), prior, next), c.inst.id) == EntryOf(env, o)
  {
    var id := c.inst.id;
    SelectIsExact(Added, prior, next);
    SelectIsExact(Changed, prior, next);
    ResetOf(env, prior, o);
    assert HasId(prior, id) && HasId(next, id);
    if id in Reset(env, Select(Added, prior, next)) { ResetOnly(env, Select(Added, prior, next), id); }
    forall x | x in Select(Changed, prior, next) ensures x.inst.id != id {
      if x.inst.id == id {
        SameIdSame(next, x, c);
        var p :| p in prior && p.inst.id == x.inst.id && p.inst != x.inst;
        SameIdSame(prior, p, o);
      }
    }
    if id in Reset(env, Select(Changed, prior, next)) { ResetOnly(env, Select(Changed, prior, next), id); }
  }

  lemma GoneAt(env: Env, prior: seq<Config>, next: seq<Config>, id: InstanceId)
    requires !HasId(next, id)
    ensures id !in Reconciled(env, Reset(env, prior), prior, next)
  {
    SelectIsExact(Added, prior, next);
    SelectIsExact(Changed, prior, next);
    if id in Reset(env, prior) {
      ResetOnly(env, prior, id);
      assert id in RemovedIds(prior, next);
    }
    if id in Reset(env, Select(Added, prior, next)) { ResetOnly(env, Select(Added, prior, next), id); }
    if id in Reset(env, Select(Changed, prior, next)) { ResetOnly(env, Select(Changed, prior, next), id); }
  }

  lemma SelectedAt(env: Env, prior: seq<Config>, next: seq<Config>, c: Config)
    requires DistinctIds(prior) && DistinctIds(next) && StaleFree(env, prior, next) && c in next
    ensures Get(Reconciled(env, Reset(env, prior), prior, next), c.inst.id) == EntryOf(env, c)
  {
    if Picks(Added, prior, c) {
      AddedAt(env, prior, next, c);
    } else if Picks(Changed, prior, c) {
      ChangedAt(env, prior, next, c);
    } else {
      var o :| o in prior && o.inst.id == c.inst.id;
      KeptAt(env, prior, next, o, c);
    }
  }

  // ---------------------------------------------------------------- the reconciled table, row by row

  /** Whether the difference touches the instance: it is new, or its hash differs. */
  ghost predicate Touched(prior: seq<Config>, c: Config) {
    forall o | o in prior && o.inst.id == c.inst.id :: o.inst != c.inst
  }

  lemma NotSelected(env: Env, kind: Kind, prior: seq<Config>, next: seq<Config>, id: InstanceId)
    requires forall c | c in next && c.inst.id == id :: !Picks(kind, prior, c)
    ensures id !in Reset(env, Select(kind, prior, next)) && id !in IdSet(Select(kind, prior, next))
  {
    SelectIsExact(kind, prior, next);
    if id in Reset(env, Select(kind, prior, next)) { ResetOnly(env, Select(kind, prior, next), id); }
  }

  /** An instance that is new or changed is registered as it stands today, or not at all if it does not run. */
  lemma TouchedRow(env: Env, t: Table, prior: seq<Config>, next: seq<Config>, c: Config)
    requires DistinctIds(prior) && DistinctIds(next) && c in next && Touched(prior, c)
    ensures var r := Reconciled(env, t, prior, next);
            && (Runs(env, c) ==> c.inst.id in r && Describes(env, c, r[c.inst.id]))
            && (!Runs(env, c) && HasId(prior, c.inst.id) ==> c.inst.id !in r)
            && (!Runs(env, c) && !HasId(prior, c.inst.id) ==> Get(r, c.inst.id) == Get(t, c.inst.id))
  {
    var kind := if HasId(prior, c.inst.id) then Changed else Added;
    var other := if kind.Added? then Changed else Added;
    SelectIsExact(kind, prior, next);
    SelectIsDistinct(kind, prior, next);
    ResetOf(env, Select(kind, prior, next), c);
    EntryDescribes(env, c);
    forall x | x in next && x.inst.id == c.inst.id ensures x == c { SameIdSame(next, x, c); }
    NotSelected(env, other, prior, next, c.inst.id);
    assert HasId(next, c.inst.id);
  }

  /** Everything else stays as it was, except that removed instances are gone. */
  lemma UntouchedRow(env: Env, t: Table, prior: seq<Config>, next: seq<Config>, id: InstanceId)
    requires DistinctIds(prior) && DistinctIds(next) && forall c | c in next && c.inst.id == id :: !Touched(prior, c)
    ensures var r := Reconciled(env, t, prior, next);
            Get(r, id) == if HasId(prior, id) && !HasId(next, id) then None else Get(t, id)
  {
    forall c | c in next && c.inst.id == id ensures !Picks(Added, prior, c) && !Picks(Changed, prior, c) {
      var o :| o in prior && o.inst.id == c.inst.id && o.inst == c.inst;
      forall p | p in prior && p.inst.id == id ensures p == o { SameIdSame(prior, p, o); }
    }
    NotSelected(env, Added, prior, next, id);
    NotSelected(env, Changed, prior, next, id);
    if HasId(prior, id) && !HasId(next, id) {
      var o :| o in prior && o.inst.id == id;
      assert id in RemovedIds(prior, next);
    }
  }

  lemma TablesAgree(s: Table, t: Table)
    requires forall id: InstanceId :: Get(s, id) == Get(t, id)
    ensures s == t
  {
    forall id: InstanceId ensures id in s <==> id in t { assert Get(s, id) == Get(t, id); }
    forall id | id in s ensures s[id] == t[id] { assert Get(s, id) == Get(t, id); }
  }

  /**
   Starting from a table that equals the enabled instances of the applied snapshot, the
   differential apply ends with what a full reset to the new snapshot would give, if and only
   if no instance with an unchanged hash would be registered differently today.
   */
  lemma ConvergesIff(env: Env, prior: seq<Config>, next: seq<Config>)
    requires DistinctIds(prior) && DistinctIds(next)
    ensures Reconciled(env, Reset(env, prior), prior, next) == Reset(env, next) <==> StaleFree(env, prior, next)
  {
    var t := Reconciled(env, Reset(env, prior), prior, next);
    if StaleFree(env, prior, next) {
      forall id: InstanceId ensures Get(t, id) == Get(Reset(env, next), id) {
        if HasId(next, id) {
          var c :| c in next && c.inst.id == id;
          SelectedAt(env, prior, next, c);
          ResetOf(env, next, c);
        } else {
          GoneAt(env, prior, next, id);
          if id in Reset(env, next) { ResetOnly(env, next, id); }
        }
      }
      TablesAgree(t, Reset(env, next));
    } else {
      var o, c :| o in prior && c in next && o.inst == c.inst && EntryOf(env, o) != EntryOf(env, c);
      KeptAt(env, prior, next, o, c);
      ResetOf(env, next, c);
    }
  }

  /** A rotated secret under an unchanged configuration text is not picked up. */
  lemma RotatedSecretIsKept(env: Env, inst: Instance, before: string, after: string)
    requires before != after && EntryOf(env, Config(inst, before)).Some? && EntryOf(env, Config(inst, after)).Some?
    ensures var prior, next := [Config(inst, before)], [Config(inst, after)];
            Reconciled(env, Reset(env, prior), prior, next) != Reset(env, next)
  {
    var prior, next := [Config(inst, before)], [Config(inst, after)];
    assert prior[0] in prior && next[0] in next;
    ConvergesIff(env, prior, next);
  }
}
