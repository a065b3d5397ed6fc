/**
 Compiling raw policies into allowlists and per-role rule lists, with area expansions
 memoised by selector hash.
 */
module PolicyCompiler {
  import opened Basics
  import opened PolicyGraph
  import opened Policy
  import SelectorHash

  datatype CompiledSelector = CompiledSelector(
    hash: string, areaSet: set<string>, classSet: set<string>, entitySet: set<string>, matchAny: bool)

  datatype CompiledRule = CompiledRule(
    policyName: string, verbs: set<string>, services: set<string>, targets: CompiledSelector)

  type Allowlist = map<(string, string), set<string>>

  datatype Compiled = Compiled(
    allowlist: Allowlist, allowRules: map<string, seq<CompiledRule>>, denyRules: map<string, seq<CompiledRule>>,
    areaExpansion: map<string, set<string>>, inheritance: map<string, set<string>>)

  datatype RuleError = UnknownService | DenyOnNonEntity

  datatype CompileError = RoleCycle | BadRule(error: RuleError)

  predicate Permits(allow: Allowlist, role: string, verb: string, key: string) {
    (role, verb) in allow && key in allow[(role, verb)]
  }

  function Open(allow: Allowlist, role: string, verb: string, key: string): (r: Allowlist)
    ensures forall ro, v, k :: Permits(r, ro, v, k) <==>
              Permits(allow, ro, v, k) || (ro == role && v == verb && k == key)
  {
    var slot := (role, verb);
    allow[slot := (if slot in allow then allow[slot] else {}) + {key}]
  }

  function RulesOf(m: map<string, seq<CompiledRule>>, role: string): seq<CompiledRule> {
    if role in m then m[role] else []
  }

  /** An empty selector matches nothing; `matchAny` matches everything. */
  predicate SelectorMatches(sel: CompiledSelector, t: Target) {
    sel.matchAny || t.area in sel.areaSet || t.class_ in sel.classSet || t.id in sel.entitySet
  }

  predicate SelectorEmpty(sel: CompiledSelector) {
    !sel.matchAny && sel.areaSet == {} && sel.classSet == {} && sel.entitySet == {}
  }

  // ---------------------------------------------------------------- compiled form against source

  ghost predicate SelectorSays(areas: Graph, cs: CompiledSelector, rs: RawSelector) {
    && cs.matchAny == rs.matchAny
    && (!rs.matchAny ==>
          && (forall a :: a in cs.areaSet <==> InAreas(areas, rs.areas, a))
          && (forall c :: c in cs.classSet <==> c in rs.classes)
          && (forall e :: e in cs.entitySet <==> e in rs.entityIds))
  }

  ghost predicate RuleSays(areas: Graph, cr: CompiledRule, x: Item) {
    && cr.policyName == x.policy
    && (forall v :: v in cr.verbs <==> v in x.rule.verbs)
    && (forall s :: s in cr.services <==> s in x.rule.services)
    && SelectorSays(areas, cr.targets, x.rule.targets)
  }

  /** The items of one role, in order. */
  function OfRole(items: seq<Item>, role: string): seq<Item> {
    if |items| == 0 then []
    else
      var rest := OfRole(items[..|items| - 1], role);
      if items[|items| - 1].role == role then rest + [items[|items| - 1]] else rest
  }

  lemma {:induction false} OfRoleMeaning(items: seq<Item>, role: string)
    ensures forall x :: x in OfRole(items, role) <==> x in items && x.role == role
  {
    if |items| > 0 {
      OfRoleMeaning(items[..|items| - 1], role);
      assert items == items[..|items| - 1] + [items[|items| - 1]];
    }
  }

  ghost predicate Parallel(areas: Graph, rules: seq<CompiledRule>, items: seq<Item>) {
    |rules| == |items| && forall i | 0 <= i < |rules| :: RuleSays(areas, rules[i], items[i])
  }

  ghost predicate RulesSay(areas: Graph, m: map<string, seq<CompiledRule>>, items: seq<Item>) {
    forall role :: Parallel(areas, RulesOf(m, role), OfRole(items, role))
  }

  ghost predicate SomePermits(items: seq<Item>, catalog: seq<CatalogAction>, role: string, verb: string, key: string) {
    exists x :: x in items && x.role == role && OpensKey(x.rule, catalog, verb, key)
  }

  ghost predicate AllowlistSays(allow: Allowlist, items: seq<Item>, catalog: seq<CatalogAction>) {
    forall role, verb, key :: Permits(allow, role, verb, key) <==> SomePermits(items, catalog, role, verb, key)
  }

  /** The compiled form means what the source says. */
  ghost predicate Faithful(src: Source, c: Compiled) {
    && AllowlistSays(c.allowlist, Policy.Items(src.policies, false), src.catalog)
    && RulesSay(src.areas, c.allowRules, Policy.Items(src.policies, false))
    && RulesSay(src.areas, c.denyRules, Policy.Items(src.policies, true))
  }

  // ---------------------------------------------------------------- compiled form against the memo

  type Memo = map<string, set<string>>

  /** Where a compiled selector has its areas from, whether that is right or not. */
  ghost predicate SelectorFrom(memo: Memo, cs: CompiledSelector, rs: RawSelector) {
    && cs.matchAny == rs.matchAny
    && (!rs.matchAny ==>
          && Hash(rs) in memo && cs.areaSet == memo[Hash(rs)]
          && (forall c :: c in cs.classSet <==> c in rs.classes)
          && (forall e :: e in cs.entitySet <==> e in rs.entityIds))
  }

  ghost predicate RuleFrom(memo: Memo, cr: CompiledRule, x: Item) {
    && cr.policyName == x.policy
    && (forall v :: v in cr.verbs <==> v in x.rule.verbs)
    && (forall s :: s in cr.services <==> s in x.rule.services)
    && SelectorFrom(memo, cr.targets, x.rule.targets)
  }

  ghost predicate ParallelFrom(memo: Memo, rules: seq<CompiledRule>, items: seq<Item>) {
    |rules| == |items| && forall i | 0 <= i < |rules| :: RuleFrom(memo, rules[i], items[i])
  }

  ghost predicate RulesFrom(memo: Memo, m: map<string, seq<CompiledRule>>, items: seq<Item>) {
    forall role :: ParallelFrom(memo, RulesOf(m, role), OfRole(items, role))
  }

  /** The areas are exactly those the selector declares. */
  ghost predicate Expands(src: Source, s: RawSelector, areas: set<string>) {
    forall a :: a in areas <==> InAreas(src.areas, s.areas, a)
  }

  /** Every memo entry is the expansion of some selector of the source with that hash. */
  ghost predicate MemoFrom(src: Source, memo: Memo) {
    forall h | h in memo :: exists s :: s in Selectors(src) && Hash(s) == h && Expands(src, s, memo[h])
  }

  /** Entries are added and never changed. */
  ghost predicate Grows(memo: Memo, memo': Memo) { forall h | h in memo :: h in memo' && memo'[h] == memo[h] }

  /** What every successful compilation yields. */
  ghost predicate BuiltFrom(src: Source, c: Compiled) {
    && AllowlistSays(c.allowlist, Policy.Items(src.policies, false), src.catalog)
    && MemoFrom(src, c.areaExpansion)
    && RulesFrom(c.areaExpansion, c.allowRules, Policy.Items(src.policies, false))
    && RulesFrom(c.areaExpansion, c.denyRules, Policy.Items(src.policies, true))
  }

  lemma MemoAdds(src: Source, memo: Memo, rs: RawSelector, areas: set<string>)
    requires MemoFrom(src, memo) && rs in Selectors(src) && Expands(src, rs, areas) && Hash(rs) !in memo
    ensures MemoFrom(src, memo[Hash(rs) := areas]) && Grows(memo, memo[Hash(rs) := areas])
  {
    var memo' := memo[Hash(rs) := areas];
    forall h | h in memo' ensures exists s :: s in Selectors(src) && Hash(s) == h && Expands(src, s, memo'[h]) {
      if h == Hash(rs) {
        assert Expands(src, rs, memo'[h]);
      } else {
        assert h in memo;
      }
    }
  }

  lemma RulesStay(memo: Memo, memo': Memo, m: map<string, seq<CompiledRule>>, items: seq<Item>)
    requires RulesFrom(memo, m, items) && Grows(memo, memo')
    ensures RulesFrom(memo', m, items)
  {
    forall role ensures ParallelFrom(memo', RulesOf(m, role), OfRole(items, role)) {
      assert ParallelFrom(memo, RulesOf(m, role), OfRole(items, role));
      ParallelStays(memo, memo', RulesOf(m, role), OfRole(items, role));
    }
  }

  lemma ParallelStays(memo: Memo, memo': Memo, rules: seq<CompiledRule>, items: seq<Item>)
    requires ParallelFrom(memo, rules, items) && Grows(memo, memo')
    ensures ParallelFrom(memo', rules, items)
  {
    forall i | 0 <= i < |rules| ensures RuleFrom(memo', rules[i], items[i]) {
      assert RuleFrom(memo, rules[i], items[i]);
    }
  }

  lemma AppendRule(memo: Memo, m: map<string, seq<CompiledRule>>, items: seq<Item>, cr: CompiledRule, x: Item)
    requires RulesFrom(memo, m, items) && RuleFrom(memo, cr, x)
    ensures RulesFrom(memo, m[x.role := RulesOf(m, x.role) + [cr]], items + [x])
  {
    var m', items' := m[x.role := RulesOf(m, x.role) + [cr]], items + [x];
    assert items'[..|items|] == items;
    forall role ensures ParallelFrom(memo, RulesOf(m', role), OfRole(items', role)) {
      assert ParallelFrom(memo, RulesOf(m, role), OfRole(items, role));
    }
  }

  lemma FromMeansSays(src: Source, memo: Memo, cs: CompiledSelector, rs: RawSelector)
    requires NoCollision(src.areas, Selectors(src)) && MemoFrom(src, memo) && Compilable(src, rs)
    requires SelectorFrom(memo, cs, rs)
    ensures SelectorSays(src.areas, cs, rs)
  {
    if !rs.matchAny {
      var s :| s in Selectors(src) && Hash(s) == Hash(rs) && Expands(src, s, memo[Hash(rs)]);
      forall a ensures a in cs.areaSet <==> InAreas(src.areas, rs.areas, a) {
        assert a in memo[Hash(rs)] <==> InAreas(src.areas, s.areas, a);
      }
    }
  }

  lemma ItemsAreCompilable(src: Source, deny: bool, x: Item)
    requires x in Policy.Items(src.policies, deny)
    ensures Compilable(src, x.rule.targets)
  {
  }

  lemma RulesFromMeanSay(src: Source, memo: Memo, m: map<string, seq<CompiledRule>>, deny: bool)
    requires NoCollision(src.areas, Selectors(src)) && MemoFrom(src, memo)
    requires RulesFrom(memo, m, Policy.Items(src.policies, deny))
    ensures RulesSay(src.areas, m, Policy.Items(src.policies, deny))
  {
    var items := Policy.Items(src.policies, deny);
    forall role ensures Parallel(src.areas, RulesOf(m, role), OfRole(items, role)) {
      assert ParallelFrom(memo, RulesOf(m, role), OfRole(items, role));
      OfRoleMeaning(items, role);
      forall i | 0 <= i < |RulesOf(m, role)|
        ensures RuleSays(src.areas, RulesOf(m, role)[i], OfRole(items, role)[i])
      {
        var x := OfRole(items, role)[i];
        assert x in OfRole(items, role);
        ItemsAreCompilable(src, deny, x);
        FromMeansSays(src, memo, RulesOf(m, role)[i].targets, x.rule.targets);
      }
    }
  }

  /** In a faithful form the memo holds the expansion of every hashed selector. */
  lemma FaithfulMemo(src: Source, memo: Memo, m: map<string, seq<CompiledRule>>, deny: bool, s: RawSelector)
    requires s in HashedSelectors(Policy.Items(src.policies, deny))
    requires RulesFrom(memo, m, Policy.Items(src.policies, deny))
    requires RulesSay(src.areas, m, Policy.Items(src.policies, deny))
    ensures Hash(s) in memo && Expands(src, s, memo[Hash(s)])
  {
    var items := Policy.Items(src.policies, deny);
    var x :| x in items && !x.rule.targets.matchAny && x.rule.targets == s;
    OfRoleMeaning(items, x.role);
    var i :| 0 <= i < |OfRole(items, x.role)| && OfRole(items, x.role)[i] == x;
    assert ParallelFrom(memo, RulesOf(m, x.role), OfRole(items, x.role));
    assert Parallel(src.areas, RulesOf(m, x.role), OfRole(items, x.role));
    var cr := RulesOf(m, x.role)[i];
    assert RuleFrom(memo, cr, x) && RuleSays(src.areas, cr, x);
  }

  lemma FaithfulMemoOf(src: Source, c: Compiled, s: RawSelector)
    requires BuiltFrom(src, c) && Faithful(src, c) && s in Selectors(src)
    ensures Hash(s) in c.areaExpansion && Expands(src, s, c.areaExpansion[Hash(s)])
  {
    if s in HashedSelectors(Policy.Items(src.policies, false)) {
      FaithfulMemo(src, c.areaExpansion, c.allowRules, false, s);
    } else {
      FaithfulMemo(src, c.areaExpansion, c.denyRules, true, s);
    }
  }

  lemma FaithfulHasNoCollision(src: Source, c: Compiled)
    requires BuiltFrom(src, c) && Faithful(src, c)
    ensures NoCollision(src.areas, Selectors(src))
  {
    forall s, t, a | s in Selectors(src) && t in Selectors(src) && Hash(s) == Hash(t)
      ensures InAreas(src.areas, s.areas, a) <==> InAreas(src.areas, t.areas, a)
    {
      FaithfulMemoOf(src, c, s);
      FaithfulMemoOf(src, c, t);
      assert a in c.areaExpansion[Hash(s)] <==> InAreas(src.areas, s.areas, a);
      assert a in c.areaExpansion[Hash(t)] <==> InAreas(src.areas, t.areas, a);
    }
  }

  /**
   A compiled form means what its source says if and only if no two hashed selectors of the
   source share a hash without sharing their areas.
   */
  lemma FaithfulIffNoCollision(src: Source, c: Compiled)
    requires BuiltFrom(src, c)
    ensures Faithful(src, c) <==> NoCollision(src.areas, Selectors(src))
  {
    if Faithful(src, c) { FaithfulHasNoCollision(src, c); }
    if NoCollision(src.areas, Selectors(src)) {
      RulesFromMeanSay(src, c.areaExpansion, c.allowRules, false);
      RulesFromMeanSay(src, c.areaExpansion, c.denyRules, true);
    }
  }

  // ---------------------------------------------------------------- what makes a rule fail

  /** A selector that occurs in the source, or needs no areas. */
  ghost predicate Compilable(src: Source, rs: RawSelector) { rs.matchAny || rs in Selectors(src) }

  /** With these areas for its targets, the rule passes the compiler's checks. */
  ghost predicate RuleOkWith(src: Source, memo: Memo, r: RawRule, deny: bool) {
    && (forall s | s in r.services :: KnownService(src.catalog, s))
    && (deny && (r.targets.matchAny || |r.targets.classes| > 0 || |r.targets.entityIds| > 0
                 || (Hash(r.targets) in memo && memo[Hash(r.targets)] != {})) ==>
          forall i | 0 <= i < |src.catalog| && src.catalog[i].service in r.services :: src.catalog[i].isEntity)
  }

  /** The rule passes them whatever areas its targets have. */
  ghost predicate RuleSafe(src: Source, r: RawRule, deny: bool) {
    && (forall s | s in r.services :: KnownService(src.catalog, s))
    && (deny ==> forall i | 0 <= i < |src.catalog| && src.catalog[i].service in r.services :: src.catalog[i].isEntity)
  }

  /** What the compiler objects to in a rule: an unknown service first, then a denied non-entity action. */
  ghost predicate Flawed(src: Source, r: RawRule, deny: bool, e: RuleError) {
    match e
    case UnknownService => exists s :: s in r.services && !KnownService(src.catalog, s)
    case DenyOnNonEntity =>
      && deny && (forall s | s in r.services :: KnownService(src.catalog, s))
      && exists i :: 0 <= i < |src.catalog| && src.catalog[i].service in r.services && !src.catalog[i].isEntity
  }

  ghost predicate PolicyFlawed(src: Source, p: RawPolicy, e: RuleError) {
    || (exists r :: r in p.allow && Flawed(src, r, false, e))
    || (exists r :: r in p.deny && Flawed(src, r, true, e))
  }

  // ---------------------------------------------------------------- the sink

  class Builder {
    const src: Source
    var allowlist: Allowlist
    var allowRules: map<string, seq<CompiledRule>>
    var denyRules: map<string, seq<CompiledRule>>
    var areaExpansion: map<string, set<string>>

    constructor (s: Source)
      ensures src == s && allowlist == map[] && allowRules == map[] && denyRules == map[] && areaExpansion == map[]
    {
      src := s;
      allowlist, allowRules, denyRules, areaExpansion := map[], map[], map[], map[];
    }

    ghost predicate Exact() { NoCollision(src.areas, Selectors(src)) }

    /** A selector gets the areas of the first one with its hash. */
    method CompileSelector(rs: RawSelector) returns (cs: CompiledSelector)
      requires Compilable(src, rs) && MemoFrom(src, areaExpansion)
      modifies this`areaExpansion
      ensures MemoFrom(src, areaExpansion) && Grows(old(areaExpansion), areaExpansion)
      ensures SelectorFrom(areaExpansion, cs, rs)
      ensures !rs.matchAny && Hash(rs) !in old(areaExpansion) ==> Expands(src, rs, areaExpansion[Hash(rs)])
    {
      if rs.matchAny {
        return CompiledSelector("", {}, {}, {}, true);
      }
      var hash := SelectorHash.HashSelector(rs.areas, rs.classes, rs.entityIds);
      if hash !in areaExpansion {
        var walk := new Expansion(src.areas);
        walk.ExpandAreas(rs.areas);
        MemoAdds(src, areaExpansion, rs, walk.out);
        areaExpansion := areaExpansion[hash := walk.out];
      }
      cs := CompiledSelector(hash, areaExpansion[hash], ToSet(rs.classes), ToSet(rs.entityIds), false);
    }

    /** Whether a deny rule with a target selector names a service that has a non-entity action. */
    method NamesNonEntity(services: seq<string>) returns (found: bool)
      ensures found <==>
                exists i :: 0 <= i < |src.catalog| && src.catalog[i].service in services && !src.catalog[i].isEntity
    {
      var i := 0;
      while i < |src.catalog|
        invariant 0 <= i <= |src.catalog|
        invariant forall j | 0 <= j < i && src.catalog[j].service in services :: src.catalog[j].isEntity
      {
        if src.catalog[i].service in services && !src.catalog[i].isEntity {
          return true;
        }
        i := i + 1;
      }
      return false;
    }

    method ServicesKnown(services: seq<string>) returns (ok: bool)
      ensures ok <==> forall s | s in services :: KnownService(src.catalog, s)
    {
      var i, known := 0, set a | a in src.catalog :: a.service;
      assert forall s :: s in known <==> KnownService(src.catalog, s);
      while i < |services|
        invariant 0 <= i <= |services|
        invariant forall j | 0 <= j < i :: services[j] in known
      {
        if services[i] !in known {
          return false;
        }
        i := i + 1;
      }
      return true;
    }

    method CompileRule(x: Item, deny: bool) returns (r: Result<CompiledRule, RuleError>)
      requires Compilable(src, x.rule.targets) && MemoFrom(src, areaExpansion)
      modifies this`areaExpansion
      ensures MemoFrom(src, areaExpansion) && Grows(old(areaExpansion), areaExpansion)
      ensures r.Ok? <==> RuleOkWith(src, areaExpansion, x.rule, deny)
      ensures r.Ok? ==> RuleFrom(areaExpansion, r.value, x)
      ensures Exact() ==> (r.Ok? <==> RuleOk(src, x.rule, deny))
      ensures r.Err? ==> Flawed(src, x.rule, deny, r.error)
    {
      var known := ServicesKnown(x.rule.services);
      if !known {
        return Err(UnknownService);
      }
      var sel := CompileSelector(x.rule.targets);
      var empty := SelectorEmpty(sel);
      EmptyFrom(areaExpansion, sel, x.rule.targets);
      assert Exact() ==> (empty <==> RawEmpty(src.areas, x.rule.targets)) by {
        if Exact() {
          FromMeansSays(src, areaExpansion, sel, x.rule.targets);
          EmptySays(src.areas, sel, x.rule.targets);
        }
      }
      if deny && |x.rule.services| > 0 && !empty {
        var bad := NamesNonEntity(x.rule.services);
        if bad {
          return Err(DenyOnNonEntity);
        }
      }
      return Ok(CompiledRule(x.policy, ToSet(x.rule.verbs), ToSet(x.rule.services), sel));
    }

    /** Opens, for `role`, every catalog action the rule covers. */
    method AddToActionAllowlist(role: string, rr: RawRule)
      modifies this`allowlist
      ensures forall r, v, k :: Permits(allowlist, r, v, k) <==>
                Permits(old(allowlist), r, v, k) || (r == role && OpensKey(rr, src.catalog, v, k))
    {
      var i := 0;
      while i < |src.catalog|
        invariant 0 <= i <= |src.catalog|
        invariant forall r, v, k :: Permits(allowlist, r, v, k) <==>
                    Permits(old(allowlist), r, v, k) || (r == role && OpensKey(rr, src.catalog[..i], v, k))
      {
        var a := src.catalog[i];
        if Covers(rr, a) {
          allowlist := Open(allowlist, role, a.verb, ActionKey(a.service, a.methodName));
        }
        OneMoreAction(rr, src.catalog, i);
        i := i + 1;
      }
      assert src.catalog[..i] == src.catalog;
    }

    /** The sink holds exactly the items taken in so far, with the areas the memo has for them. */
    ghost predicate Tracks(allow: seq<Item>, deny: seq<Item>)
      reads this
    {
      && MemoFrom(src, areaExpansion)
      && AllowlistSays(allowlist, allow, src.catalog)
      && RulesFrom(areaExpansion, allowRules, allow)
      && RulesFrom(areaExpansion, denyRules, deny)
    }

    method AddAllow(x: Item, ghost allow: seq<Item>, ghost deny: seq<Item>) returns (err: Option<RuleError>)
      requires Compilable(src, x.rule.targets) && Tracks(allow, deny)
      modifies this
      ensures Exact() ==> (err.None? <==> RuleOk(src, x.rule, false))
      ensures err.Some? ==> Flawed(src, x.rule, false, err.value)
      ensures err.None? ==> Tracks(allow + [x], deny)
    {
      ghost var memo := areaExpansion;
      var r := CompileRule(x, false);
      if r.Err? {
        return Some(r.error);
      }
      RulesStay(memo, areaExpansion, allowRules, allow);
      RulesStay(memo, areaExpansion, denyRules, deny);
      ghost var before := allowlist;
      AppendRule(areaExpansion, allowRules, allow, r.value, x);
      allowRules := allowRules[x.role := RulesOf(allowRules, x.role) + [r.value]];
      AddToActionAllowlist(x.role, x.rule);
      AllowOne(before, allowlist, allow, src.catalog, x);
      return None;
    }

    method AddDeny(x: Item, ghost allow: seq<Item>, ghost deny: seq<Item>) returns (err: Option<RuleError>)
      requires Compilable(src, x.rule.targets) && Tracks(allow, deny)
      modifies this
      ensures Exact() ==> (err.None? <==> RuleOk(src, x.rule, true))
      ensures err.Some? ==> Flawed(src, x.rule, true, err.value)
      ensures err.None? ==> Tracks(allow, deny + [x])
    {
      ghost var memo := areaExpansion;
      var r := CompileRule(x, true);
      if r.Err? {
        return Some(r.error);
      }
      RulesStay(memo, areaExpansion, allowRules, allow);
      RulesStay(memo, areaExpansion, denyRules, deny);
      AppendRule(areaExpansion, denyRules, deny, r.value, x);
      denyRules := denyRules[x.role := RulesOf(denyRules, x.role) + [r.value]];
      return None;
    }

    method AddAllows(name: string, role: string, rules: seq<RawRule>, ghost allow: seq<Item>, ghost deny: seq<Item>)
      returns (err: Option<RuleError>)
      requires Tracks(allow, deny) && forall r | r in rules :: Compilable(src, r.targets)
      modifies this
      ensures err.None? ==> Tracks(allow + RoleRules(name, role, rules), deny)
      ensures Exact() ==> (err.None? <==> forall r | r in rules :: RuleOk(src, r, false))
      ensures err.Some? ==> exists r :: r in rules && Flawed(src, r, false, err.value)
    {
      ghost var xs := RoleRules(name, role, rules);
      var i := 0;
      ghost var items := allow;
      assert allow + xs[..0] == allow;
      while i < |rules|
        invariant 0 <= i <= |rules| && items == allow + xs[..i]
        invariant Tracks(items, deny)
        invariant Exact() ==> forall j | 0 <= j < i :: RuleOk(src, rules[j], false)
      {
        err := AddAllow(Item(name, role, rules[i]), items, deny);
        if err.Some? {
          return;
        }
        OneMoreItem(allow, xs, i);
        items := items + [xs[i]];
        i := i + 1;
      }
      assert xs[..i] == xs;
      return None;
    }

    method AddDenies(name: string, role: string, rules: seq<RawRule>, ghost allow: seq<Item>, ghost deny: seq<Item>)
      returns (err: Option<RuleError>)
      requires Tracks(allow, deny) && forall r | r in rules :: Compilable(src, r.targets)
      modifies this
      ensures err.None? ==> Tracks(allow, deny + RoleRules(name, role, rules))
      ensures Exact() ==> (err.None? <==> forall r | r in rules :: RuleOk(src, r, true))
      ensures err.Some? ==> exists r :: r in rules && Flawed(src, r, true, err.value)
    {
      ghost var xs := RoleRules(name, role, rules);
      var i := 0;
      ghost var items := deny;
      assert deny + xs[..0] == deny;
      while i < |rules|
        invariant 0 <= i <= |rules| && items == deny + xs[..i]
        invariant Tracks(allow, items)
        invariant Exact() ==> forall j | 0 <= j < i :: RuleOk(src, rules[j], true)
      {
        err := AddDeny(Item(name, role, rules[i]), allow, items);
        if err.Some? {
          return;
        }
        OneMoreItem(deny, xs, i);
        items := items + [xs[i]];
        i := i + 1;
      }
      assert xs[..i] == xs;
      return None;
    }

    /** The rules of one policy for one subject. */
    method AddSubject(p: RawPolicy, role: string, ghost allow: seq<Item>, ghost deny: seq<Item>)
      returns (err: Option<RuleError>)
      requires Tracks(allow, deny) && role in p.subjects
      requires forall r | r in p.allow || r in p.deny :: Compilable(src, r.targets)
      modifies this
      ensures err.None? ==> Tracks(allow + RoleRules(p.name, role, p.allow), deny + RoleRules(p.name, role, p.deny))
      ensures Exact() ==> (err.None? <==> PolicyOk(src, p))
      ensures err.Some? ==> PolicyFlawed(src, p, err.value)
    {
      err := AddAllows(p.name, role, p.allow, allow, deny);
      if err.Some? {
        return;
      }
      err := AddDenies(p.name, role, p.deny, allow + RoleRules(p.name, role, p.allow), deny);
    }

    /** One policy: for each subject, first the rules that allow, then those that deny. */
    method AddPolicy(p: RawPolicy, ghost allow: seq<Item>, ghost deny: seq<Item>) returns (err: Option<RuleError>)
      requires Tracks(allow, deny)
      requires |p.subjects| > 0 ==> forall r | r in p.allow || r in p.deny :: Compilable(src, r.targets)
      modifies this
      ensures err.None? ==> Tracks(allow + SubjectItems(p.name, p.subjects, p.allow),
                                   deny + SubjectItems(p.name, p.subjects, p.deny))
      ensures Exact() ==> (err.None? <==> PolicyOk(src, p))
      ensures err.Some? ==> PolicyFlawed(src, p, err.value)
    {
      var i := 0;
      ghost var allows, denies := allow, deny;
      assert allow + [] == allow && deny + [] == deny;
      while i < |p.subjects|
        invariant 0 <= i <= |p.subjects|
        invariant allows == allow + SubjectItems(p.name, p.subjects[..i], p.allow)
        invariant denies == deny + SubjectItems(p.name, p.subjects[..i], p.deny)
        invariant Tracks(allows, denies)
        invariant Exact() && i > 0 ==> PolicyOk(src, p)
      {
        err := AddSubject(p, p.subjects[i], allows, denies);
        if err.Some? {
          return;
        }
        OneMoreSubject(p.name, p.subjects, p.allow, allow, i);
        OneMoreSubject(p.name, p.subjects, p.deny, deny, i);
        allows := allows + RoleRules(p.name, p.subjects[i], p.allow);
        denies := denies + RoleRules(p.name, p.subjects[i], p.deny);
        i := i + 1;
      }
      assert p.subjects[..i] == p.subjects;
      return None;
    }

    /** The policy after the first `i`. */
    method AddNext(i: nat) returns (err: Option<RuleError>)
      requires i < |src.policies|
      requires Tracks(Policy.Items(src.policies[..i], false), Policy.Items(src.policies[..i], true))
      modifies this
      ensures err.None? ==>
                Tracks(Policy.Items(src.policies[..i + 1], false), Policy.Items(src.policies[..i + 1], true))
      ensures Exact() ==> (err.None? <==> PolicyOk(src, src.policies[i]))
      ensures err.Some? ==> PolicyFlawed(src, src.policies[i], err.value)
    {
      TargetsAreSelectors(src, src.policies[i]);
      OneMorePolicy(src.policies, false, i);
      OneMorePolicy(src.policies, true, i);
      err := AddPolicy(src.policies[i], Policy.Items(src.policies[..i], false), Policy.Items(src.policies[..i], true));
    }

    /** All policies, in order. */
    method AddPolicies() returns (err: Option<RuleError>)
      requires Tracks([], [])
      modifies this
      ensures err.None? ==> Tracks(Policy.Items(src.policies, false), Policy.Items(src.policies, true))
      ensures Exact() ==> (err.None? <==> forall i | 0 <= i < |src.policies| :: PolicyOk(src, src.policies[i]))
      ensures err.Some? ==> exists p :: p in src.policies && PolicyFlawed(src, p, err.value)
    {
      for i := 0 to |src.policies|
        invariant Tracks(Policy.Items(src.policies[..i], false), Policy.Items(src.policies[..i], true))
        invariant Exact() ==> forall j | 0 <= j < i :: PolicyOk(src, src.policies[j])
      {
        err := AddNext(i);
        if err.Some? {
          return;
        }
      }
      assert src.policies[..|src.policies|] == src.policies;
      return None;
    }
  }

  /** A policy without subjects is never compiled; otherwise all its rules must be in order. */
  ghost predicate PolicyOk(src: Source, p: RawPolicy) {
    |p.subjects| > 0 ==>
      (forall r | r in p.allow :: RuleOk(src, r, false)) && (forall r | r in p.deny :: RuleOk(src, r, true))
  }

  ghost predicate PolicySafe(src: Source, p: RawPolicy) {
    (forall r | r in p.allow :: RuleSafe(src, r, false)) && (forall r | r in p.deny :: RuleSafe(src, r, true))
  }

  lemma OneMoreItem(before: seq<Item>, xs: seq<Item>, i: nat)
    requires i < |xs|
    ensures before + xs[..i] + [xs[i]] == before + xs[..i + 1]
  {
  }

  lemma OneMoreSubject(name: string, subjects: seq<string>, rules: seq<RawRule>, before: seq<Item>, i: nat)
    requires i < |subjects|
    ensures before + SubjectItems(name, subjects[..i], rules) + RoleRules(name, subjects[i], rules) ==
            before + SubjectItems(name, subjects[..i + 1], rules)
  {
    assert subjects[..i + 1][..i] == subjects[..i];
  }

  lemma OneMorePolicy(ps: seq<RawPolicy>, deny: bool, i: nat)
    requires i < |ps|
    ensures Policy.Items(ps[..i + 1], deny) ==
            Policy.Items(ps[..i], deny) + SubjectItems(ps[i].name, ps[i].subjects, Rules(ps[i], deny))
  {
    assert ps[..i + 1][..i] == ps[..i];
  }

  lemma TargetsAreSelectors(src: Source, p: RawPolicy)
    requires p in src.policies
    ensures |p.subjects| > 0 ==> forall r | r in p.allow || r in p.deny :: Compilable(src, r.targets)
  {
    forall r | |p.subjects| > 0 && (r in p.allow || r in p.deny) ensures Compilable(src, r.targets) {
      var x := Item(p.name, p.subjects[0], r);
      ItemsMeaning(src.policies, false, x);
      ItemsMeaning(src.policies, true, x);
    }
  }

  /** The rules that are compiled at all are those of policies with a subject. */
  lemma WellFormedPolicies(src: Source)
    ensures WellFormed(src) <==>
            !Cyclic(src.roles) && forall i | 0 <= i < |src.policies| :: PolicyOk(src, src.policies[i])
  {
    if forall i | 0 <= i < |src.policies| :: PolicyOk(src, src.policies[i]) {
      forall x, deny | x in Policy.Items(src.policies, deny) ensures RuleOk(src, x.rule, deny) {
        ItemsMeaning(src.policies, deny, x);
      }
    }
    if WellFormed(src) {
      forall i, r, deny | 0 <= i < |src.policies| && |src.policies[i].subjects| > 0 && r in Rules(src.policies[i], deny)
        ensures RuleOk(src, r, deny)
      {
        ItemsMeaning(src.policies, deny, Item(src.policies[i].name, src.policies[i].subjects[0], r));
      }
      assert forall p: RawPolicy :: Rules(p, false) == p.allow && Rules(p, true) == p.deny;
    }
  }

  /**
   Compiles a source. What it builds means what the source says if and only if the source's
   selectors do not collide; on such sources it succeeds exactly on the well-formed ones, and
   on any acyclic source whose rules pass the checks whatever their areas.
   */
  method Compile(src: Source) returns (r: Result<Compiled, CompileError>)
    ensures r == Err(RoleCycle) <==> Cyclic(src.roles)
    ensures NoCollision(src.areas, Selectors(src)) ==> (r.Ok? <==> WellFormed(src))
    ensures r.Ok? ==> BuiltFrom(src, r.value) && (Faithful(src, r.value) <==> NoCollision(src.areas, Selectors(src)))
    ensures r.Err? && r.error.BadRule? ==> exists p :: p in src.policies && PolicyFlawed(src, p, r.error.error)
    ensures !Cyclic(src.roles) && (forall p | p in src.policies :: PolicySafe(src, p)) ==> r.Ok?
    ensures r.Ok? ==> forall role, x | role in src.roles ::
              role in r.value.inheritance && (x in r.value.inheritance[role] <==> Reach(src.roles, role, x))
  {
    var inheritance := ResolveRoleInheritance(src.roles);
    WellFormedPolicies(src);
    if inheritance.None? {
      return Err(RoleCycle);
    }
    var sink := new Builder(src);
    var err := sink.AddPolicies();
    if err.Some? {
      return Err(BadRule(err.value));
    }
    var c := Compiled(sink.allowlist, sink.allowRules, sink.denyRules, sink.areaExpansion, inheritance.value);
    FaithfulIffNoCollision(src, c);
    return Ok(c);
  }

  lemma AllowOne(before: Allowlist, after: Allowlist, items: seq<Item>, catalog: seq<CatalogAction>, x: Item)
    requires AllowlistSays(before, items, catalog)
    requires forall r, v, k :: Permits(after, r, v, k) <==>
               Permits(before, r, v, k) || (r == x.role && OpensKey(x.rule, catalog, v, k))
    ensures AllowlistSays(after, items + [x], catalog)
  {
    forall r, v, k ensures Permits(after, r, v, k) <==> SomePermits(items + [x], catalog, r, v, k) {
      assert Permits(before, r, v, k) <==> SomePermits(items, catalog, r, v, k);
      if SomePermits(items, catalog, r, v, k) {
        var y :| y in items && y.role == r && OpensKey(y.rule, catalog, v, k);
        assert y in items + [x];
      }
      if r == x.role && OpensKey(x.rule, catalog, v, k) { assert x in items + [x]; }
    }
  }

  lemma EmptyFrom(memo: Memo, cs: CompiledSelector, rs: RawSelector)
    requires SelectorFrom(memo, cs, rs)
    ensures SelectorEmpty(cs) <==>
            !rs.matchAny && |rs.classes| == 0 && |rs.entityIds| == 0 && Hash(rs) in memo && memo[Hash(rs)] == {}
  {
    if |rs.classes| > 0 { assert rs.matchAny || rs.classes[0] in cs.classSet; }
    if |rs.entityIds| > 0 { assert rs.matchAny || rs.entityIds[0] in cs.entitySet; }
  }

  lemma EmptySays(areas: Graph, cs: CompiledSelector, rs: RawSelector)
    requires SelectorSays(areas, cs, rs)
    ensures SelectorEmpty(cs) <==> RawEmpty(areas, rs)
  {
    if !rs.matchAny {
      assert cs.areaSet == {} <==> forall a :: !InAreas(areas, rs.areas, a);
      assert cs.classSet == {} <==> |rs.classes| == 0 by {
        if |rs.classes| > 0 { assert rs.classes[0] in cs.classSet; }
      }
      assert cs.entitySet == {} <==> |rs.entityIds| == 0 by {
        if |rs.entityIds| > 0 { assert rs.entityIds[0] in cs.entitySet; }
      }
    }
  }

  lemma OneMoreAction(rr: RawRule, catalog: seq<CatalogAction>, i: nat)
    requires i < |catalog|
    ensures forall v, k :: OpensKey(rr, catalog[..i + 1], v, k) <==>
              || OpensKey(rr, catalog[..i], v, k)
              || Opens(rr, catalog[i], v, k)
  {
    forall v, k ensures OpensKey(rr, catalog[..i + 1], v, k) <==>
              || OpensKey(rr, catalog[..i], v, k)
              || Opens(rr, catalog[i], v, k)
    {
      OneMoreActionFor(rr, catalog, i, v, k);
    }
  }

  lemma OneMoreActionFor(rr: RawRule, catalog: seq<CatalogAction>, i: nat, v: string, k: string)
    requires i < |catalog|
    ensures OpensKey(rr, catalog[..i + 1], v, k) <==>
              || OpensKey(rr, catalog[..i], v, k)
              || Opens(rr, catalog[i], v, k)
  {
    var now, next := catalog[..i], catalog[..i + 1];
    assert next[i] == catalog[i];
    if OpensKey(rr, now, v, k) {
      var j :| 0 <= j < |now| && Opens(rr, now[j], v, k);
      assert next[j] == now[j];
    }
    if OpensKey(rr, next, v, k) {
      var j :| 0 <= j < |next| && Opens(rr, next[j], v, k);
      if j < i { assert now[j] == next[j]; }
    }
  }

  function ToSet(s: seq<string>): (r: set<string>)
    ensures forall x :: x in r <==> x in s
  {
    set x | x in s
  }
}
