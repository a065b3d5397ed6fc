/**
 The configuration manager and the host's instance table, as they are changed step by step.
 */
module ConfigManager {
  import opened Basics
  import opened ConfigApply

  /** The carport host, reduced to its instance table. */
  class Host {
    var running: bool // started and not stopped
    var table: Table

    constructor ()
      ensures !running && table == map[]
    {
      running, table := false, map[];
    }

    method RegisterInstance(id: InstanceId, entry: Registered) returns (ok: bool)
      modifies this`table
      ensures ok <==> running && id !in old(table)
      ensures table == if ok then old(table)[id := entry] else old(table)
    {
      if !running || id in table { return false; }
      table := table[id := entry];
      ok := true;
    }

    method UnregisterInstance(id: InstanceId) returns (ok: bool)
      modifies this`table
      ensures ok <==> id in old(table)
      ensures table == old(table) - {id}
    {
      ok := id in table;
      table := table - {id};
    }
  }

  // ---------------------------------------------------------------- diff

  datatype Diff = Diff(added: seq<InstanceId>, removed: seq<InstanceId>, changed: seq<InstanceId>)

  ghost predicate NoDuplicates(ids: seq<InstanceId>) { forall i, j | 0 <= i < j < |ids| :: ids[i] != ids[j] }

  lemma SelectGrows(kind: Kind, prior: seq<Config>, cs: seq<Config>, k: nat)
    requires k < |cs|
    ensures Select(kind, prior, cs[..k + 1]) ==
            Select(kind, prior, cs[..k]) + if Picks(kind, prior, cs[k]) then [cs[k]] else []
  {
    assert cs[..k + 1][..k] == cs[..k];
  }

  lemma IdsGrow(cs: seq<Config>, c: Config)
    ensures Ids(cs + [c]) == Ids(cs) + [c.inst.id]
  {
  }

  /** The old snapshot as a map from id to hash. */
  method IndexOld(prior: seq<Config>) returns (hashes: map<InstanceId, Instance>)
    requires DistinctIds(prior)
    ensures forall id :: id in hashes <==> HasId(prior, id)
    ensures forall c | c in prior :: c.inst.id in hashes && hashes[c.inst.id] == c.inst
  {
    hashes := map[];
    for i := 0 to |prior|
      invariant forall id :: id in hashes <==> HasId(prior[..i], id)
      invariant forall k | 0 <= k < i :: prior[k].inst.id in hashes && hashes[prior[k].inst.id] == prior[k].inst
    {
      var c := prior[i];
      hashes := hashes[c.inst.id := c.inst];
      forall id ensures id in hashes <==> HasId(prior[..i + 1], id) {
        HasIdGrows(prior, i, id);
      }
    }
    assert prior[..|prior|] == prior;
  }

  lemma HasIdGrows(cs: seq<Config>, k: nat, id: InstanceId)
    requires k < |cs|
    ensures HasId(cs[..k + 1], id) <==> HasId(cs[..k], id) || cs[k].inst.id == id
  {
    assert cs[..k + 1] == cs[..k] + [cs[k]];
    if HasId(cs[..k], id) {
      var c :| c in cs[..k] && c.inst.id == id;
      assert c in cs[..k + 1];
    }
    assert cs[k] in cs[..k + 1];
  }

  lemma PicksByHash(prior: seq<Config>, hashes: map<InstanceId, Instance>, c: Config)
    requires DistinctIds(prior)
    requires forall id :: id in hashes <==> HasId(prior, id)
    requires forall o | o in prior :: o.inst.id in hashes && hashes[o.inst.id] == o.inst
    ensures Picks(Added, prior, c) <==> c.inst.id !in hashes
    ensures Picks(Changed, prior, c) <==> c.inst.id in hashes && hashes[c.inst.id] != c.inst
  {
    if c.inst.id in hashes {
      var o :| o in prior && o.inst.id == c.inst.id;
      assert hashes[o.inst.id] == o.inst;
    }
  }

  /** Walks the next snapshot once, then the old ids that did not reappear, in no particular order. */
  method ComputeDiff(prior: seq<Config>, next: seq<Config>) returns (d: Diff)
    requires DistinctIds(prior)
    ensures d.added == Ids(Select(Added, prior, next))
    ensures d.changed == Ids(Select(Changed, prior, next))
    ensures (set id | id in d.removed) == RemovedIds(prior, next) && NoDuplicates(d.removed)
  {
    var hashes := IndexOld(prior);
    var added, changed := [], [];
    var nextIds: set<InstanceId> := {};
    for i := 0 to |next|
      invariant forall id :: id in nextIds <==> HasId(next[..i], id)
      invariant added == Ids(Select(Added, prior, next[..i]))
      invariant changed == Ids(Select(Changed, prior, next[..i]))
    {
      var c := next[i];
      PicksByHash(prior, hashes, c);
      SelectGrows(Added, prior, next, i);
      SelectGrows(Changed, prior, next, i);
      IdsGrow(Select(Added, prior, next[..i]), c);
      IdsGrow(Select(Changed, prior, next[..i]), c);
      forall id ensures id in nextIds + {c.inst.id} <==> HasId(next[..i + 1], id) { HasIdGrows(next, i, id); }
      nextIds := nextIds + {c.inst.id};
      if c.inst.id !in hashes {
        added := added + [c.inst.id];
      } else if hashes[c.inst.id] != c.inst {
        changed := changed + [c.inst.id];
      }
    }
    assert next[..|next|] == next;
    var removed := ListRemoved(hashes.Keys, nextIds);
    d := Diff(added, removed, changed);
    assert (set id | id in removed) == RemovedIds(prior, next) by {
      forall id ensures id in removed <==> id in RemovedIds(prior, next) {
        if id in hashes && id !in nextIds {
          var c :| c in prior && c.inst.id == id;
          assert id in RemovedIds(prior, next);
        }
        if id in RemovedIds(prior, next) {
          var c :| c in prior && !HasId(next, c.inst.id) && c.inst.id == id;
          assert HasId(prior, id);
        }
      }
    }
  }

  method ListRemoved(ids: set<InstanceId>, keep: set<InstanceId>) returns (removed: seq<InstanceId>)
    ensures forall id :: id in removed <==> id in ids && id !in keep
    ensures NoDuplicates(removed)
  {
    var rest := ids;
    removed := [];
    while rest != {}
      invariant rest <= ids && NoDuplicates(removed)
      invariant forall id :: id in removed <==> id in ids - rest && id !in keep
      decreases |rest|
    {
      var id :| id in rest;
      rest := rest - {id};
      if id !in keep { removed := removed + [id]; }
    }
  }

  // ---------------------------------------------------------------- apply

  lemma ResetGrows(env: Env, cs: seq<Config>, k: nat)
    requires k < |cs|
    ensures Reset(env, cs[..k + 1]) ==
            if EntryOf(env, cs[k]).Some? then Reset(env, cs[..k])[cs[k].inst.id := EntryOf(env, cs[k]).value]
            else Reset(env, cs[..k])
  {
    assert cs[..k + 1][..k] == cs[..k];
  }

  /** What registering one instance needs from the host. */
  predicate Registrable(env: Env, running: bool, t: Table, c: Config) {
    Installable(env, c) && (EntryOf(env, c).Some? ==> running && c.inst.id !in t)
  }

  predicate Replaceable(env: Env, running: bool, t: Table, c: Config) {
    c.inst.id in t && Installable(env, c) && (EntryOf(env, c).Some? ==> running)
  }

  /** Every host call that an apply makes will succeed. */
  ghost predicate Feasible(env: Env, running: bool, t: Table, prior: seq<Config>, next: seq<Config>) {
    && RemovedIds(prior, next) <= t.Keys
    && (forall c | c in Select(Added, prior, next) :: Registrable(env, running, t - RemovedIds(prior, next), c))
    && (forall c | c in Select(Changed, prior, next) ::
          Replaceable(env, running, (t - RemovedIds(prior, next)) + Reset(env, Select(Added, prior, next)), c))
  }

  /** A table in which these instances were unregistered and registered again. */
  ghost function Replaced(env: Env, t: Table, cs: seq<Config>): Table { t - IdSet(cs) + Reset(env, cs) }

  /** Where a host call failed: at a removal, at an addition, or at a change before or after its unregistering. */
  datatype Stop =
    | AtRemoval(done: set<InstanceId>)
    | AtAddition(k: nat)
    | AtChange(k: nat, dropped: bool)

  /** The failing call is one that this apply makes, and all calls before it succeed. */
  ghost predicate StopsAt(
    env: Env, running: bool, t: Table, prior: seq<Config>, next: seq<Config>, stop: Stop)
  {
    var gone, added, changed := RemovedIds(prior, next), Select(Added, prior, next), Select(Changed, prior, next);
    match stop
    case AtRemoval(done) => done <= gone * t.Keys && !(gone <= t.Keys)
    case AtAddition(k) =>
      && gone <= t.Keys && k < |added| && !Registrable(env, running, t - gone, added[k])
      && forall i | 0 <= i < k :: Registrable(env, running, t - gone, added[i])
    case AtChange(k, dropped) =>
      var mid := t - gone + Reset(env, added);
      && gone <= t.Keys && (forall c | c in added :: Registrable(env, running, t - gone, c))
      && k < |changed| && !Replaceable(env, running, mid, changed[k])
      && (dropped <==> changed[k].inst.id in mid)
      && forall i | 0 <= i < k :: Replaceable(env, running, mid, changed[i])
  }

  /** The table a failed apply leaves behind. */
  ghost function TableAt(env: Env, t: Table, prior: seq<Config>, next: seq<Config>, stop: Stop): Table
    requires stop.AtAddition? ==> stop.k <= |Select(Added, prior, next)|
    requires stop.AtChange? ==> stop.k < |Select(Changed, prior, next)|
  {
    var gone, added, changed := RemovedIds(prior, next), Select(Added, prior, next), Select(Changed, prior, next);
    match stop
    case AtRemoval(done) => t - done
    case AtAddition(k) => t - gone + Reset(env, added[..k])
    case AtChange(k, dropped) =>
      var mid := t - gone + Reset(env, added);
      Replaced(env, mid, changed[..k]) - if dropped then {changed[k].inst.id} else {}
  }

  /** The first instance with this id in a snapshot. */
  method FindInstance(cs: seq<Config>, id: InstanceId) returns (found: Option<Config>)
    ensures found.None? <==> !HasId(cs, id)
    ensures found.Some? ==> exists i :: 0 <= i < |cs| && cs[i] == found.value && cs[i].inst.id == id
                                        && forall k | 0 <= k < i :: cs[k].inst.id != id
  {
    for i := 0 to |cs|
      invariant forall k | 0 <= k < i :: cs[k].inst.id != id
    {
      if cs[i].inst.id == id { return Some(cs[i]); }
    }
    found := None;
  }

  /** The duplicate-id check of the snapshot compiler. */
  method CheckIds(cs: seq<Config>) returns (ok: bool)
    ensures ok <==> DistinctIds(cs)
  {
    var seen: set<InstanceId> := {};
    for i := 0 to |cs|
      invariant forall k | 0 <= k < i :: cs[k].inst.id in seen
      invariant forall id | id in seen :: exists k :: 0 <= k < i && cs[k].inst.id == id
      invariant forall j, k | 0 <= j < k < i :: cs[j].inst.id != cs[k].inst.id
    {
      if cs[i].inst.id in seen { return false; }
      seen := seen + {cs[i].inst.id};
    }
    ok := true;
  }

  ghost predicate SameInstances(a: seq<Config>, b: seq<Config>) {
    |a| == |b| && forall i | 0 <= i < |a| :: a[i].inst == b[i].inst
  }

  /** Replaces secret references; stops at the first that cannot be resolved. */
  method ResolveSecrets(next: seq<Config>, resolve: string -> Option<string>) returns (r: Option<seq<Config>>)
    ensures r.Some? <==> forall c | c in next :: resolve(c.params).Some?
    ensures r.Some? ==> SameInstances(r.value, next)
    ensures r.Some? ==> forall i | 0 <= i < |next| :: Some(r.value[i].params) == resolve(next[i].params)
  {
    var out: seq<Config> := [];
    for i := 0 to |next|
      invariant |out| == i
      invariant forall k | 0 <= k < i :: out[k].inst == next[k].inst && Some(out[k].params) == resolve(next[k].params)
    {
      var p := resolve(next[i].params);
      if p.None? { return None; }
      out := out + [Config(next[i].inst, p.value)];
    }
    r := Some(out);
  }

  lemma {:induction false} SelectSameIds(kind: Kind, prior: seq<Config>, a: seq<Config>, b: seq<Config>)
    requires SameInstances(a, b)
    ensures Ids(Select(kind, prior, a)) == Ids(Select(kind, prior, b))
  {
    if a != [] {
      var i := |a| - 1;
      SelectSameIds(kind, prior, a[..i], b[..i]);
      IdsGrow(Select(kind, prior, a[..i]), a[i]);
      IdsGrow(Select(kind, prior, b[..i]), b[i]);
    }
  }

  lemma SameInstancesSameIds(a: seq<Config>, b: seq<Config>)
    requires SameInstances(a, b)
    ensures forall id :: HasId(a, id) <==> HasId(b, id)
    ensures DistinctIds(a) <==> DistinctIds(b)
  {
    forall id ensures HasId(a, id) <==> HasId(b, id) {
      if HasId(a, id) {
        var k :| 0 <= k < |a| && a[k].inst.id == id;
        assert b[k] in b;
      }
      if HasId(b, id) {
        var k :| 0 <= k < |b| && b[k].inst.id == id;
        assert a[k] in a;
      }
    }
  }

  lemma NotYet(env: Env, cs: seq<Config>, k: nat)
    requires DistinctIds(cs) && k < |cs|
    ensures cs[k].inst.id !in Reset(env, cs[..k])
  {
    if cs[k].inst.id in Reset(env, cs[..k]) {
      ResetOnly(env, cs[..k], cs[k].inst.id);
    }
  }

  datatype Outcome = Rejected | DryRun | HostFailed | Applied | AppliedUnlogged

  class Manager {
    const env: Env
    const host: Host
    var current: seq<Config>

    constructor (env: Env, host: Host)
      ensures this.env == env && this.host == host && current == []
    {
      this.env, this.host, current := env, host, [];
    }

    /** Looks the driver up, decodes the options, skips a disabled instance, merges its lifecycle. */
    method RegisterInstance(c: Config) returns (ok: bool)
      modifies host`table
      ensures ok <==> Registrable(env, host.running, old(host.table), c)
      ensures ok && EntryOf(env, c).Some? ==> host.table == old(host.table)[c.inst.id := EntryOf(env, c).value]
      ensures !ok || EntryOf(env, c).None? ==> host.table == old(host.table)
    {
      if c.inst.driver !in env.registry { return false; }
      var entry := env.registry[c.inst.driver];
      var options := env.parse(c.params);
      if options.None? { return false; }
      if !options.value.enabled { return true; }
      var lifecycle := MergeLifecycle(entry.lifecycleDefaults, options.value.overrides);
      ok := host.RegisterInstance(c.inst.id, Registered(entry.binary, c.params, true, lifecycle));
    }

    /** Unregisters in order; `done` are the ids removed before a missing one stopped the loop. */
    method RemoveAll(ids: seq<InstanceId>) returns (ok: bool, ghost done: set<InstanceId>)
      requires NoDuplicates(ids)
      modifies host`table
      ensures ok <==> forall id | id in ids :: id in old(host.table)
      ensures host.table == old(host.table) - done && done <= old(host.table).Keys
      ensures forall id | id in done :: id in ids
      ensures ok ==> done == (set id | id in ids)
    {
      done := {};
      for i := 0 to |ids|
        invariant host.table == old(host.table) - done && done == (set k | 0 <= k < i :: ids[k])
        invariant forall k | 0 <= k < i :: ids[k] in old(host.table)
      {
        ok := host.UnregisterInstance(ids[i]);
        if !ok { return; }
        assert (set k | 0 <= k < i + 1 :: ids[k]) == done + {ids[i]};
        done := done + {ids[i]};
      }
      ok := true;
    }

    method AddOne(next: seq<Config>, id: InstanceId, ghost cs: seq<Config>, ghost k: nat, ghost t: Table)
      returns (ok: bool)
      requires DistinctIds(next) && DistinctIds(cs) && k < |cs| && cs[k] in next && id == cs[k].inst.id
      requires host.table == t + Reset(env, cs[..k])
      modifies host`table
      ensures ok <==> Registrable(env, host.running, t, cs[k])
      ensures ok ==> host.table == t + Reset(env, cs[..k + 1])
      ensures !ok ==> host.table == old(host.table)
    {
      var found := FindInstance(next, id);
      SameIdSame(next, found.value, cs[k]);
      NotYet(env, cs, k);
      ResetGrows(env, cs, k);
      ok := RegisterInstance(found.value);
    }

    /** Registers in order; `k` is where a refusal stopped the loop. */
    method AddAll(next: seq<Config>, ids: seq<InstanceId>, ghost cs: seq<Config>)
      returns (ok: bool, ghost k: nat)
      requires DistinctIds(next) && DistinctIds(cs) && ids == Ids(cs) && forall c | c in cs :: c in next
      modifies host`table
      ensures ok <==> forall c | c in cs :: Registrable(env, host.running, old(host.table), c)
      ensures k <= |cs| && host.table == old(host.table) + Reset(env, cs[..k]) && (ok <==> k == |cs|)
      ensures forall i | 0 <= i < k :: Registrable(env, host.running, old(host.table), cs[i])
      ensures !ok ==> !Registrable(env, host.running, old(host.table), cs[k])
    {
      ghost var t := host.table;
      k := 0;
      for i := 0 to |ids|
        invariant k == i && host.table == t + Reset(env, cs[..i])
        invariant forall j | 0 <= j < i :: Registrable(env, host.running, t, cs[j])
      {
        assert cs[i] in cs;
        ok := AddOne(next, ids[i], cs, i, t);
        if !ok { return; }
        k := i + 1;
      }
      ok := true;
    }

    method ReplaceOne(next: seq<Config>, id: InstanceId, ghost cs: seq<Config>, ghost k: nat, ghost t: Table)
      returns (ok: bool)
      requires DistinctIds(next) && DistinctIds(cs) && k < |cs| && cs[k] in next && id == cs[k].inst.id
      requires host.table == Replaced(env, t, cs[..k])
      modifies host`table
      ensures ok <==> Replaceable(env, host.running, t, cs[k])
      ensures ok ==> host.table == Replaced(env, t, cs[..k + 1])
      ensures !ok ==> host.table == old(host.table) - if id in t then {id} else {}
    {
      var found := FindInstance(next, id);
      SameIdSame(next, found.value, cs[k]);
      NotYet(env, cs, k);
      IdSetGrows(cs, k);
      ReplaceStep(t, IdSet(cs[..k]), Reset(env, cs[..k]), id, EntryOf(env, cs[k]));
      ResetGrows(env, cs, k);
      ok := host.UnregisterInstance(id);
      if !ok { return false; }
      ok := RegisterInstance(found.value);
    }

    /** Replaces in order; at `k` an unknown id, or a refusal after its unregistering, stopped the loop. */
    method ReplaceAll(next: seq<Config>, ids: seq<InstanceId>, ghost cs: seq<Config>)
      returns (ok: bool, ghost k: nat)
      requires DistinctIds(next) && DistinctIds(cs) && ids == Ids(cs) && forall c | c in cs :: c in next
      modifies host`table
      ensures ok <==> forall c | c in cs :: Replaceable(env, host.running, old(host.table), c)
      ensures ok ==> host.table == Replaced(env, old(host.table), cs)
      ensures !ok ==> k < |cs| && !Replaceable(env, host.running, old(host.table), cs[k])
      ensures forall i | 0 <= i < k && i < |cs| :: Replaceable(env, host.running, old(host.table), cs[i])
      ensures !ok ==> host.table == Replaced(env, old(host.table), cs[..k])
                                    - if cs[k].inst.id in old(host.table) then {cs[k].inst.id} else {}
    {
      ghost var t := host.table;
      k := 0;
      for i := 0 to |ids|
        invariant k == i && host.table == Replaced(env, t, cs[..i])
        invariant forall j | 0 <= j < i :: Replaceable(env, host.running, t, cs[j])
      {
        assert cs[i] in cs;
        ok := ReplaceOne(next, ids[i], cs, i, t);
        if !ok { return; }
        k := i + 1;
      }
      assert cs[..|ids|] == cs;
      ok := true;
    }

    /** The three host loops of an apply. */
    method Reconcile(next: seq<Config>, d: Diff, ghost prior: seq<Config>) returns (ok: bool, ghost stop: Stop)
      requires DistinctIds(prior) && DistinctIds(next)
      requires d.added == Ids(Select(Added, prior, next)) && d.changed == Ids(Select(Changed, prior, next))
      requires (set id | id in d.removed) == RemovedIds(prior, next) && NoDuplicates(d.removed)
      modifies host`table
      ensures ok <==> Feasible(env, host.running, old(host.table), prior, next)
      ensures ok ==> host.table == Reconciled(env, old(host.table), prior, next)
      ensures !ok ==> StopsAt(env, host.running, old(host.table), prior, next, stop)
                      && host.table == TableAt(env, old(host.table), prior, next, stop)
    {
      ghost var t, gone := host.table, RemovedIds(prior, next);
      ghost var added, changed := Select(Added, prior, next), Select(Changed, prior, next);
      SelectedAreNext(prior, next);
      ghost var done, k;
      ok, done := RemoveAll(d.removed);
      stop := AtRemoval(done);
      if !ok { return; }
      assert gone <= t.Keys && host.table == t - gone;
      ok, k := AddAll(next, d.added, added);
      stop := AtAddition(k);
      if !ok { return; }
      assert added[..k] == added;
      ok, k := ReplaceAll(next, d.changed, changed);
      if !ok { stop := AtChange(k, changed[k].inst.id in t - gone + Reset(env, added)); }
    }

    /**
     Evaluated configuration in, reconciled host out. Evaluation, the check of the message and
     the store's answer are parameters.
     */
    method Apply(evaluated: Option<seq<Config>>, messageOk: bool, dryRun: bool,
                 resolve: string -> Option<string>, stored: bool)
      returns (o: Outcome, next: seq<Config>, ghost stop: Stop)
      requires DistinctIds(current)
      modifies this`current, host`table
      ensures DistinctIds(current)
      ensures o.Rejected? || o.DryRun? || o.HostFailed? ==> current == old(current)
      ensures o.Rejected? || o.DryRun? ==> host.table == old(host.table)
      ensures dryRun ==> current == old(current) && host.table == old(host.table)
      ensures o.DryRun? <==> dryRun && !o.Rejected?
      ensures o.Applied? ==> stored
      ensures o.AppliedUnlogged? ==> !stored
      ensures o.Rejected? <==> !(messageOk && evaluated.Some? && DistinctIds(evaluated.value)
                                 && (dryRun || forall c | c in evaluated.value :: resolve(c.params).Some?))
      ensures o.HostFailed? || o.Applied? || o.AppliedUnlogged? ==>
                && evaluated.Some? && SameInstances(next, evaluated.value)
                && (forall i | 0 <= i < |next| :: Some(next[i].params) == resolve(evaluated.value[i].params))
                && (o.HostFailed? <==> !Feasible(env, host.running, old(host.table), old(current), next))
      ensures o.Applied? || o.AppliedUnlogged? ==>
                current == next && host.table == Reconciled(env, old(host.table), old(current), next)
      ensures (o.Applied? || o.AppliedUnlogged?) && old(host.table) == Reset(env, old(current)) ==>
                (host.table == Reset(env, current) <==> StaleFree(env, old(current), current))
      ensures o.HostFailed? ==>
                && StopsAt(env, host.running, old(host.table), old(current), next, stop)
                && host.table == TableAt(env, old(host.table), old(current), next, stop)
    {
      next, stop := [], AtRemoval({});
      if !messageOk || evaluated.None? { return Rejected, next, stop; }
      var distinct := CheckIds(evaluated.value);
      if !distinct { return Rejected, next, stop; }
      var d := ComputeDiff(current, evaluated.value);
      if dryRun { return DryRun, next, stop; }
      var resolved := ResolveSecrets(evaluated.value, resolve);
      if resolved.None? { return Rejected, next, stop; }
      next := resolved.value;
      DiffSurvivesSecrets(current, evaluated.value, next);
      var ok;
      ok, stop := Reconcile(next, d, current);
      if !ok { return HostFailed, next, stop; }
      ConvergesIff(env, current, next);
      current := next;
      o := if stored then Applied else AppliedUnlogged;
    }
  }

  lemma ReplaceStep(t: Table, done: set<InstanceId>, r: Table, id: InstanceId, e: Option<Registered>)
    requires id !in done && id !in r
    ensures id in t - done + r <==> id in t
    ensures (t - done + r) - {id} == t - (done + {id}) + r
    ensures e.Some? ==> (t - (done + {id}) + r)[id := e.value] == t - (done + {id}) + r[id := e.value]
  {
  }

  lemma IdSetGrows(cs: seq<Config>, k: nat)
    requires DistinctIds(cs) && k < |cs|
    ensures IdSet(cs[..k + 1]) == IdSet(cs[..k]) + {cs[k].inst.id}
    ensures cs[k].inst.id !in IdSet(cs[..k])
  {
    assert cs[..k + 1] == cs[..k] + [cs[k]];
  }

  lemma SelectedAreNext(prior: seq<Config>, next: seq<Config>)
    requires DistinctIds(next)
    ensures forall kind :: DistinctIds(Select(kind, prior, next))
    ensures forall kind, c | c in Select(kind, prior, next) :: c in next
    ensures forall kind :: IdSet(Select(kind, prior, next)) !! RemovedIds(prior, next)
  {
    forall kind ensures DistinctIds(Select(kind, prior, next)) { SelectIsDistinct(kind, prior, next); }
    forall kind, c | c in Select(kind, prior, next) ensures c in next { SelectIsExact(kind, prior, next); }
    forall kind ensures IdSet(Select(kind, prior, next)) !! RemovedIds(prior, next) {
      SelectIsExact(kind, prior, next);
      assert forall c | c in Select(kind, prior, next) :: HasId(next, c.inst.id);
    }
  }

  /** Hashes are taken before secrets are resolved, so the difference is the same after. */
  lemma DiffSurvivesSecrets(prior: seq<Config>, before: seq<Config>, after: seq<Config>)
    requires SameInstances(after, before)
    ensures DistinctIds(after) <==> DistinctIds(before)
    ensures forall kind :: Ids(Select(kind, prior, after)) == Ids(Select(kind, prior, before))
    ensures RemovedIds(prior, after) == RemovedIds(prior, before)
  {
    SameInstancesSameIds(after, before);
    forall kind ensures Ids(Select(kind, prior, after)) == Ids(Select(kind, prior, before)) {
      SelectSameIds(kind, prior, after, before);
    }
  }

  ghost predicate Dropped(next: seq<Config>, o: Config) {
    !HasId(next, o.inst.id) || exists c :: c in next && c.inst.id == o.inst.id && c.inst != o.inst
  }

  /** What a caller can check beforehand: nothing disabled is dropped, and what comes in can be registered. */
  ghost predicate Acceptable(env: Env, running: bool, prior: seq<Config>, next: seq<Config>) {
    && (forall o | o in prior && Dropped(next, o) :: EntryOf(env, o).Some?)
    && (forall c | c in next && (Picks(Added, prior, c) || Picks(Changed, prior, c)) ::
          Installable(env, c) && (EntryOf(env, c).Some? ==> running))
  }

  /** Which instances must be in the table, and which must not, for the host calls of an apply to succeed. */
  ghost predicate FitsTable(env: Env, running: bool, t: Table, prior: seq<Config>, next: seq<Config>) {
    && (forall o | o in prior && Dropped(next, o) :: o.inst.id in t)
    && (forall c | c in next && (Picks(Added, prior, c) || Picks(Changed, prior, c)) ::
          Installable(env, c) && (EntryOf(env, c).Some? ==> running))
    && (forall c | c in next && Picks(Added, prior, c) && EntryOf(env, c).Some? :: c.inst.id !in t)
  }

  lemma FitsSuffices(env: Env, running: bool, t: Table, prior: seq<Config>, next: seq<Config>)
    requires FitsTable(env, running, t, prior, next)
    ensures Feasible(env, running, t, prior, next)
  {
    SelectIsExact(Added, prior, next);
    SelectIsExact(Changed, prior, next);
    forall c | c in Select(Added, prior, next) ensures Registrable(env, running, t - RemovedIds(prior, next), c) {}
    forall c | c in Select(Changed, prior, next)
      ensures Replaceable(env, running, (t - RemovedIds(prior, next)) + Reset(env, Select(Added, prior, next)), c)
    {
      var o :| o in prior && o.inst.id == c.inst.id && o.inst != c.inst;
      assert Dropped(next, o);
      assert HasId(next, c.inst.id);
    }
  }

  lemma FitsIsNeeded(env: Env, running: bool, t: Table, prior: seq<Config>, next: seq<Config>)
    requires Feasible(env, running, t, prior, next)
    ensures FitsTable(env, running, t, prior, next)
  {
    SelectIsExact(Added, prior, next);
    SelectIsExact(Changed, prior, next);
    forall o | o in prior && Dropped(next, o) ensures o.inst.id in t {
      if HasId(next, o.inst.id) {
        var c :| c in next && c.inst.id == o.inst.id && c.inst != o.inst;
        assert c in Select(Changed, prior, next);
        ChangedIsNotAdded(env, prior, next, c);
      } else {
        assert o.inst.id in RemovedIds(prior, next);
      }
    }
    forall c | c in next && (Picks(Added, prior, c) || Picks(Changed, prior, c))
      ensures Installable(env, c) && (EntryOf(env, c).Some? ==> running)
    {
      assert c in Select(Added, prior, next) || c in Select(Changed, prior, next);
    }
    forall c | c in next && Picks(Added, prior, c) && EntryOf(env, c).Some? ensures c.inst.id !in t {
      assert c in Select(Added, prior, next) && HasId(next, c.inst.id);
      assert c.inst.id !in RemovedIds(prior, next);
    }
  }

  lemma AddedIsNotInReset(env: Env, prior: seq<Config>, c: Config)
    requires Picks(Added, prior, c)
    ensures c.inst.id !in Reset(env, prior)
  {
    if c.inst.id in Reset(env, prior) { ResetOnly(env, prior, c.inst.id); }
  }

  /**
   On a host that mirrors the applied snapshot an apply goes through if and only if no
   disabled instance is removed or changed, and every new or changed instance has an
   installed driver, readable options and, when enabled, a running host.
   */
  lemma ApplySucceedsIff(env: Env, running: bool, prior: seq<Config>, next: seq<Config>)
    requires DistinctIds(prior) && DistinctIds(next)
    ensures Feasible(env, running, Reset(env, prior), prior, next) <==> Acceptable(env, running, prior, next)
  {
    var t := Reset(env, prior);
    forall o | o in prior ensures o.inst.id in t <==> EntryOf(env, o).Some? { ResetOf(env, prior, o); }
    forall c | c in next && Picks(Added, prior, c) ensures c.inst.id !in t { AddedIsNotInReset(env, prior, c); }
    if Acceptable(env, running, prior, next) { FitsSuffices(env, running, t, prior, next); }
    if Feasible(env, running, t, prior, next) { FitsIsNeeded(env, running, t, prior, next); }
  }

  // ---------------------------------------------------------------- after a failed apply

  /** Instances of the applied snapshot that a failed apply has unregistered and not registered again. */
  ghost function UnregisteredAt(env: Env, prior: seq<Config>, next: seq<Config>, stop: Stop): set<InstanceId>
    requires stop.AtChange? ==> stop.k < |Select(Changed, prior, next)|
  {
    match stop
    case AtRemoval(done) => done
    case AtAddition(_) => RemovedIds(prior, next)
    case AtChange(k, dropped) =>
      var changed := Select(Changed, prior, next);
      RemovedIds(prior, next) + DisabledIds(env, changed[..k]) + if dropped then {changed[k].inst.id} else {}
  }

  ghost function DisabledIds(env: Env, cs: seq<Config>): set<InstanceId> {
    set c | c in cs && EntryOf(env, c).None? :: c.inst.id
  }

  /** New instances that a failed apply has already registered. */
  ghost function RegisteredAt(env: Env, prior: seq<Config>, next: seq<Config>, stop: Stop): set<InstanceId>
    requires stop.AtAddition? ==> stop.k <= |Select(Added, prior, next)|
  {
    match stop
    case AtRemoval(_) => {}
    case AtAddition(k) => Reset(env, Select(Added, prior, next)[..k]).Keys
    case AtChange(_, _) => Reset(env, Select(Added, prior, next)).Keys
  }

  lemma DistinctPrefix(cs: seq<Config>, k: nat)
    requires DistinctIds(cs) && k <= |cs|
    ensures DistinctIds(cs[..k]) && forall c | c in cs[..k] :: c in cs
  {
  }

  lemma ResetKeys(env: Env, cs: seq<Config>, id: InstanceId)
    requires DistinctIds(cs)
    ensures id in Reset(env, cs) <==> exists c :: c in cs && c.inst.id == id && EntryOf(env, c).Some?
  {
    if id in Reset(env, cs) {
      ResetOnly(env, cs, id);
      var c :| c in cs && c.inst.id == id;
      ResetOf(env, cs, c);
    }
    if c :| c in cs && c.inst.id == id && EntryOf(env, c).Some? { ResetOf(env, cs, c); }
  }

  /** Replacing some registered instances keeps exactly those that stay enabled. */
  lemma ReplacedKeys(env: Env, running: bool, mid: Table, cs: seq<Config>, id: InstanceId)
    requires DistinctIds(cs) && forall c | c in cs :: Replaceable(env, running, mid, c)
    ensures id in mid - IdSet(cs) + Reset(env, cs) <==> id in mid && id !in DisabledIds(env, cs)
  {
    ResetKeys(env, cs, id);
    if id in IdSet(cs) {
      var c :| c in cs && c.inst.id == id;
      ResetOf(env, cs, c);
      if id in DisabledIds(env, cs) {
        var d :| d in cs && EntryOf(env, d).None? && d.inst.id == id;
        SameIdSame(cs, c, d);
      }
    }
  }

  /** Which ids a failed apply leaves in a table that mirrored the applied snapshot. */
  lemma KeysAfterFailure(
    env: Env, running: bool, prior: seq<Config>, next: seq<Config>, stop: Stop, id: InstanceId)
    requires DistinctIds(prior) && DistinctIds(next)
    requires StopsAt(env, running, Reset(env, prior), prior, next, stop)
    ensures id in TableAt(env, Reset(env, prior), prior, next, stop) <==>
            || (id in Reset(env, prior) && id !in UnregisteredAt(env, prior, next, stop))
            || id in RegisteredAt(env, prior, next, stop)
  {
    match stop
    case AtRemoval(_) =>
    case AtAddition(_) =>
    case AtChange(k, dropped) => KeysAfterChange(env, running, prior, next, k, dropped, id);
  }

  lemma KeysAfterChange(
    env: Env, running: bool, prior: seq<Config>, next: seq<Config>, k: nat, dropped: bool, id: InstanceId)
    requires DistinctIds(prior) && DistinctIds(next)
    requires StopsAt(env, running, Reset(env, prior), prior, next, AtChange(k, dropped))
    ensures id in TableAt(env, Reset(env, prior), prior, next, AtChange(k, dropped)) <==>
            || (id in Reset(env, prior) && id !in UnregisteredAt(env, prior, next, AtChange(k, dropped)))
            || id in RegisteredAt(env, prior, next, AtChange(k, dropped))
  {
    var added, changed := Select(Added, prior, next), Select(Changed, prior, next);
    var mid := Reset(env, prior) - RemovedIds(prior, next) + Reset(env, added);
    SelectedAreNext(prior, next);
    DistinctPrefix(changed, k);
    forall c | c in changed[..k] ensures Replaceable(env, running, mid, c) {
      var i :| 0 <= i < k && changed[..k][i] == c;
      assert changed[i] == c;
    }
    ReplacedKeys(env, running, mid, changed[..k], id);
    forall c | c in changed ensures c.inst.id !in Reset(env, added) { ChangedIsNotAdded(env, prior, next, c); }
    assert forall x | x in DisabledIds(env, changed[..k]) :: x !in Reset(env, added);
    assert changed[k] in changed;
  }

  lemma ChangedIsNotAdded(env: Env, prior: seq<Config>, next: seq<Config>, c: Config)
    requires c in Select(Changed, prior, next)
    ensures c.inst.id !in Reset(env, Select(Added, prior, next)) && HasId(prior, c.inst.id)
  {
    SelectIsExact(Added, prior, next);
    SelectIsExact(Changed, prior, next);
    if c.inst.id in Reset(env, Select(Added, prior, next)) {
      ResetOnly(env, Select(Added, prior, next), c.inst.id);
    }
  }

  /**
   What a retry must respect: nothing already unregistered is dropped again, and no enabled
   new instance is already registered.
   */
  ghost predicate RepeatableAfter(
    env: Env, running: bool, prior: seq<Config>, again: seq<Config>,
    unregistered: set<InstanceId>, registered: set<InstanceId>)
  {
    && Acceptable(env, running, prior, again)
    && (forall o | o in prior && Dropped(again, o) :: o.inst.id !in unregistered)
    && (forall c | c in again && Picks(Added, prior, c) && EntryOf(env, c).Some? :: c.inst.id !in registered)
  }

  ghost predicate Repeatable(
    env: Env, running: bool, prior: seq<Config>, next: seq<Config>, stop: Stop, again: seq<Config>)
    requires stop.AtAddition? ==> stop.k <= |Select(Added, prior, next)|
    requires stop.AtChange? ==> stop.k < |Select(Changed, prior, next)|
  {
    RepeatableAfter(env, running, prior, again,
                    UnregisteredAt(env, prior, next, stop), RegisteredAt(env, prior, next, stop))
  }

  lemma FitsByIds(
    env: Env, running: bool, t: Table, prior: seq<Config>, again: seq<Config>,
    unregistered: set<InstanceId>, registered: set<InstanceId>)
    requires forall o | o in prior :: o.inst.id in t <==> EntryOf(env, o).Some? && o.inst.id !in unregistered
    requires forall c | c in again && Picks(Added, prior, c) :: c.inst.id in t <==> c.inst.id in registered
    ensures FitsTable(env, running, t, prior, again) <==>
            RepeatableAfter(env, running, prior, again, unregistered, registered)
  {
  }

  lemma RegisteredIsNew(env: Env, prior: seq<Config>, next: seq<Config>, stop: Stop, id: InstanceId)
    requires stop.AtAddition? ==> stop.k <= |Select(Added, prior, next)|
    requires id in RegisteredAt(env, prior, next, stop)
    ensures !HasId(prior, id)
  {
    var added := Select(Added, prior, next);
    SelectIsExact(Added, prior, next);
    var cs := if stop.AtAddition? then added[..stop.k] else added;
    ResetOnly(env, cs, id);
    var c :| c in cs && c.inst.id == id;
    assert c in added;
  }

  /** Of the applied snapshot, the table still has what was enabled and not unregistered. */
  lemma PriorAfterFailure(
    env: Env, before: bool, prior: seq<Config>, next: seq<Config>, stop: Stop, o: Config)
    requires DistinctIds(prior) && DistinctIds(next) && StopsAt(env, before, Reset(env, prior), prior, next, stop)
    requires o in prior
    ensures o.inst.id in TableAt(env, Reset(env, prior), prior, next, stop) <==>
            EntryOf(env, o).Some? && o.inst.id !in UnregisteredAt(env, prior, next, stop)
  {
    ResetOf(env, prior, o);
    KeysAfterFailure(env, before, prior, next, stop, o.inst.id);
    if o.inst.id in RegisteredAt(env, prior, next, stop) { RegisteredIsNew(env, prior, next, stop, o.inst.id); }
  }

  /** Of new instances, it has what was registered. */
  lemma AddedAfterFailure(
    env: Env, before: bool, prior: seq<Config>, next: seq<Config>, stop: Stop, c: Config)
    requires DistinctIds(prior) && DistinctIds(next) && StopsAt(env, before, Reset(env, prior), prior, next, stop)
    requires Picks(Added, prior, c)
    ensures c.inst.id in TableAt(env, Reset(env, prior), prior, next, stop) <==>
            c.inst.id in RegisteredAt(env, prior, next, stop)
  {
    AddedIsNotInReset(env, prior, c);
    KeysAfterFailure(env, before, prior, next, stop, c.inst.id);
  }

  lemma RepeatableFits(
    env: Env, before: bool, now: bool, prior: seq<Config>, next: seq<Config>, stop: Stop, again: seq<Config>)
    requires DistinctIds(prior) && DistinctIds(next) && StopsAt(env, before, Reset(env, prior), prior, next, stop)
    ensures FitsTable(env, now, TableAt(env, Reset(env, prior), prior, next, stop), prior, again) <==>
            Repeatable(env, now, prior, next, stop, again)
  {
    var t := TableAt(env, Reset(env, prior), prior, next, stop);
    forall o | o in prior
      ensures o.inst.id in t <==> EntryOf(env, o).Some? && o.inst.id !in UnregisteredAt(env, prior, next, stop)
    {
      PriorAfterFailure(env, before, prior, next, stop, o);
    }
    forall c | c in again && Picks(Added, prior, c)
      ensures c.inst.id in t <==> c.inst.id in RegisteredAt(env, prior, next, stop)
    {
      AddedAfterFailure(env, before, prior, next, stop, c);
    }
    FitsByIds(env, now, t, prior, again, UnregisteredAt(env, prior, next, stop), RegisteredAt(env, prior, next, stop));
  }

  /**
   After an apply failed on a host that mirrored the applied snapshot, a further apply goes
   through if and only if it would have on the untouched host, drops nothing that the failed
   one has already unregistered, and adds nothing enabled that it has already registered.
   */
  lemma RetrySucceedsIff(
    env: Env, before: bool, now: bool, prior: seq<Config>, next: seq<Config>, stop: Stop, again: seq<Config>)
    requires DistinctIds(prior) && DistinctIds(next) && StopsAt(env, before, Reset(env, prior), prior, next, stop)
    ensures Feasible(env, now, TableAt(env, Reset(env, prior), prior, next, stop), prior, again) <==>
            Repeatable(env, now, prior, next, stop, again)
  {
    var t := TableAt(env, Reset(env, prior), prior, next, stop);
    RepeatableFits(env, before, now, prior, next, stop, again);
    if FitsTable(env, now, t, prior, again) { FitsSuffices(env, now, t, prior, again); }
    if Feasible(env, now, t, prior, again) { FitsIsNeeded(env, now, t, prior, again); }
  }

  lemma EverythingIsNew(a: Config, b: Config)
    ensures Select(Added, [], [a, b]) == [a, b] && Select(Changed, [], [a, b]) == [] && RemovedIds([], [a, b]) == {}
    ensures Select(Added, [], [a, b])[..1] == [a]
  {
    assert [a, b][..1] == [a] && [a][..0] == [];
    assert Select(Added, [], [a]) == [a] && Select(Changed, [], [a]) == [];
  }

  lemma FirstIsRegistered(env: Env, a: Config)
    requires EntryOf(env, a).Some?
    ensures a.inst.id in Reset(env, [a])
  {
    assert [a][..0] == [];
  }

  lemma SecondIsRefused(env: Env, a: Config, bad: Config)
    requires EntryOf(env, a).Some? && !Installable(env, bad)
    ensures StopsAt(env, true, map[], [], [a, bad], AtAddition(1))
  {
    EverythingIsNew(a, bad);
  }

  /**
   It happens without any removal: of two new instances the first is registered and the
   second refused; once the second is in order, the retry is refused because of the first.
   */
  lemma HalfAddedIsStuck(env: Env, a: Config, bad: Config, good: Config)
    requires a.inst.id != bad.inst.id && bad.inst.id == good.inst.id
    requires EntryOf(env, a).Some? && !Installable(env, bad) && EntryOf(env, good).Some?
    ensures StopsAt(env, true, map[], [], [a, bad], AtAddition(1))
    ensures Acceptable(env, true, [], [a, good])
    ensures !Feasible(env, true, TableAt(env, map[], [], [a, bad], AtAddition(1)), [], [a, good])
  {
    EverythingIsNew(a, bad);
    EverythingIsNew(a, good);
    FirstIsRegistered(env, a);
    SecondIsRefused(env, a, bad);
    assert a in Select(Added, [], [a, good]);
    assert a.inst.id in TableAt(env, map[], [], [a, bad], AtAddition(1));
  }

  /** An instance removed before the failure cannot be removed again: every apply that omits it fails. */
  lemma RemovedTwiceIsStuck(
    env: Env, before: bool, now: bool, prior: seq<Config>, next: seq<Config>, stop: Stop, again: seq<Config>, o: Config)
    requires DistinctIds(prior) && DistinctIds(next)
    requires StopsAt(env, before, Reset(env, prior), prior, next, stop) && !stop.AtRemoval?
    requires o in prior && !HasId(next, o.inst.id) && !HasId(again, o.inst.id)
    ensures !Feasible(env, now, TableAt(env, Reset(env, prior), prior, next, stop), prior, again)
  {
    RetrySucceedsIff(env, before, now, prior, next, stop, again);
    assert Dropped(again, o) && o.inst.id in RemovedIds(prior, next);
  }
}
