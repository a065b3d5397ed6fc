/**
 Raw policies, the catalog of actions and the meaning of a policy read directly from its
 source: no compiled form, no inheritance.
 */
module Policy {
  import opened PolicyGraph
  import opened SelectorHash

  datatype RawSelector = RawSelector(areas: seq<string>, classes: seq<string>, entityIds: seq<string>, matchAny: bool)

  datatype RawRule = RawRule(verbs: seq<string>, targets: RawSelector, services: seq<string>)

  datatype RawPolicy = RawPolicy(name: string, subjects: seq<string>, allow: seq<RawRule>, deny: seq<RawRule>)

  datatype CatalogAction = CatalogAction(service: string, methodName: string, verb: string, isEntity: bool)

  datatype Source = Source(policies: seq<RawPolicy>, roles: Graph, areas: Graph, catalog: seq<CatalogAction>)

  const ALL_VERBS := ["read", "call", "write", "admin"]

  function ActionKey(service: string, methodName: string): string { service + "." + methodName }

  // What a request asks.
  datatype Action = Action(service: string, methodName: string, verb: string)

  datatype AuthTarget = AuthTarget(kind: string, id: string, area: string, class_: string, attr: map<string, string>)

  datatype Target = Target(kind: string, id: string, area: string, class_: string)

  function Attr(m: map<string, string>, k: string): string { if k in m then m[k] else "" }

  /** Area and class fall back to the request's attributes. */
  function TargetFromAuth(t: AuthTarget): Target {
    Target(t.kind, t.id,
           if t.area == "" then Attr(t.attr, "area") else t.area,
           if t.class_ == "" then Attr(t.attr, "class") else t.class_)
  }

  // ---------------------------------------------------------------- direct reading of one rule

  ghost predicate RawMatches(areas: Graph, sel: RawSelector, t: Target) {
    || sel.matchAny
    || InAreas(areas, sel.areas, t.area)
    || t.class_ in sel.classes
    || t.id in sel.entityIds
  }

  /** The rule's verbs, services and targets take in the request. */
  ghost predicate RuleApplies(areas: Graph, r: RawRule, a: Action, t: Target) {
    && (|r.verbs| > 0 ==> a.verb in r.verbs)
    && (|r.services| > 0 ==> a.service in r.services)
    && RawMatches(areas, r.targets, t)
  }

  /** The rule opens a catalog action, whatever its target. */
  predicate Covers(r: RawRule, ca: CatalogAction) {
    && (|r.services| > 0 ==> ca.service in r.services)
    && ca.verb in (if |r.verbs| == 0 then ALL_VERBS else r.verbs)
  }

  /** The catalog entry is the requested action. */
  predicate Names(ca: CatalogAction, a: Action) {
    ca.service == a.service && ca.methodName == a.methodName && ca.verb == a.verb
  }

  /** The rule names the request's service and verb, each open when empty, and the catalog has the action. */
  ghost predicate RulePermits(r: RawRule, catalog: seq<CatalogAction>, a: Action) {
    && (r.services == [] || a.service in r.services)
    && (r.verbs != [] ==> a.verb in r.verbs)
    && (r.verbs == [] ==> a.verb == "read" || a.verb == "call" || a.verb == "write" || a.verb == "admin")
    && exists i :: 0 <= i < |catalog| && Names(catalog[i], a)
  }

  lemma PermitsMeansCovers(r: RawRule, catalog: seq<CatalogAction>, a: Action)
    ensures RulePermits(r, catalog, a) <==>
            exists i :: 0 <= i < |catalog| && Covers(r, catalog[i]) && Names(catalog[i], a)
  {
    assert ALL_VERBS[0] == "read" && ALL_VERBS[1] == "call" && ALL_VERBS[2] == "write" && ALL_VERBS[3] == "admin";
    if RulePermits(r, catalog, a) {
      var i :| 0 <= i < |catalog| && Names(catalog[i], a);
      assert Covers(r, catalog[i]);
    }
  }

  // ---------------------------------------------------------------- rules in force for a role

  datatype Item = Item(policy: string, role: string, rule: RawRule)

  function RoleRules(name: string, role: string, rules: seq<RawRule>): seq<Item> {
    seq(|rules|, i requires 0 <= i < |rules| => Item(name, role, rules[i]))
  }

  function SubjectItems(name: string, subjects: seq<string>, rules: seq<RawRule>): seq<Item> {
    if |subjects| == 0 then []
    else SubjectItems(name, subjects[..|subjects| - 1], rules) + RoleRules(name, subjects[|subjects| - 1], rules)
  }

  function Rules(p: RawPolicy, deny: bool): seq<RawRule> { if deny then p.deny else p.allow }

  /** Every (policy, subject, rule) triple, in source order. */
  function Items(ps: seq<RawPolicy>, deny: bool): seq<Item> {
    if |ps| == 0 then []
    else
      var p := ps[|ps| - 1];
      Items(ps[..|ps| - 1], deny) + SubjectItems(p.name, p.subjects, Rules(p, deny))
  }

  lemma {:induction false} SubjectItemsMeaning(name: string, subjects: seq<string>, rules: seq<RawRule>, x: Item)
    ensures x in SubjectItems(name, subjects, rules) <==>
            x.policy == name && x.role in subjects && x.rule in rules
  {
    if |subjects| > 0 {
      var last := subjects[|subjects| - 1];
      SubjectItemsMeaning(name, subjects[..|subjects| - 1], rules, x);
      assert subjects == subjects[..|subjects| - 1] + [last];
      var rr := RoleRules(name, last, rules);
      assert x in rr <==> x.policy == name && x.role == last && x.rule in rules by {
        if x.policy == name && x.role == last && x.rule in rules {
          var i :| 0 <= i < |rules| && rules[i] == x.rule;
          assert rr[i] == x;
        }
      }
    }
  }

  /** A rule is in force for a role exactly when a policy naming the role contains it. */
  lemma {:induction false} ItemsMeaning(ps: seq<RawPolicy>, deny: bool, x: Item)
    ensures x in Items(ps, deny) <==>
            exists p :: p in ps && p.name == x.policy && x.role in p.subjects && x.rule in Rules(p, deny)
  {
    if |ps| > 0 {
      var p := ps[|ps| - 1];
      ItemsMeaning(ps[..|ps| - 1], deny, x);
      SubjectItemsMeaning(p.name, p.subjects, Rules(p, deny), x);
      assert ps == ps[..|ps| - 1] + [p];
    }
  }

  // ---------------------------------------------------------------- direct reading of a request

  /** The area the request is about: its own field, or its attribute when the field is empty. */
  function RequestArea(t: AuthTarget): string {
    if t.area != "" then t.area else if "area" in t.attr then t.attr["area"] else ""
  }

  function RequestClass(t: AuthTarget): string {
    if t.class_ != "" then t.class_ else if "class" in t.attr then t.attr["class"] else ""
  }

  /** The rule takes in the request, read field by field. */
  ghost predicate TakesIn(areas: Graph, r: RawRule, a: Action, t: AuthTarget) {
    && (r.verbs == [] || a.verb in r.verbs)
    && (r.services == [] || a.service in r.services)
    && (|| r.targets.matchAny
        || InAreas(areas, r.targets.areas, RequestArea(t))
        || RequestClass(t) in r.targets.classes
        || t.id in r.targets.entityIds)
  }

  lemma TakesInMeans(areas: Graph, r: RawRule, a: Action, t: AuthTarget)
    ensures TakesIn(areas, r, a, t) <==> RuleApplies(areas, r, a, TargetFromAuth(t))
  {
  }

  /** Some allow rule of one of the roles opens the action in the catalog. */
  ghost predicate ActionOpen(src: Source, roles: set<string>, a: Action) {
    exists x :: x in Items(src.policies, false) && x.role in roles
                && RulePermits(x.rule, src.catalog, a)
  }

  ghost predicate SomeRuleApplies(src: Source, deny: bool, roles: set<string>, a: Action, t: Target) {
    exists x :: x in Items(src.policies, deny) && x.role in roles && RuleApplies(src.areas, x.rule, a, t)
  }

  /** Some rule of a policy that names one of the roles takes in the request. */
  ghost predicate SomeTakesIn(src: Source, deny: bool, roles: set<string>, a: Action, t: AuthTarget) {
    exists x :: x in Items(src.policies, deny) && x.role in roles && TakesIn(src.areas, x.rule, a, t)
  }

  lemma SomeTakesInMeans(src: Source, deny: bool, roles: set<string>, a: Action, t: AuthTarget)
    ensures SomeTakesIn(src, deny, roles, a, t) <==> SomeRuleApplies(src, deny, roles, a, TargetFromAuth(t))
  {
    forall r: RawRule ensures TakesIn(src.areas, r, a, t) <==> RuleApplies(src.areas, r, a, TargetFromAuth(t)) {
      TakesInMeans(src.areas, r, a, t);
    }
  }

  /** The decision the policies call for, read without compiling them. */
  ghost predicate DirectlyPermitted(src: Source, roles: set<string>, a: Action, t: AuthTarget) {
    && ActionOpen(src, roles, a)
    && (t.kind == "entity" ==> SomeTakesIn(src, false, roles, a, t) && !SomeTakesIn(src, true, roles, a, t))
  }

  // ---------------------------------------------------------------- which sources compile

  ghost predicate RawEmpty(areas: Graph, sel: RawSelector) {
    !sel.matchAny && |sel.classes| == 0 && |sel.entityIds| == 0 && forall a :: !InAreas(areas, sel.areas, a)
  }

  predicate KnownService(catalog: seq<CatalogAction>, s: string) {
    exists i :: 0 <= i < |catalog| && catalog[i].service == s
  }

  /** A deny rule that narrows targets must not name a service with non-entity actions. */
  ghost predicate RuleOk(src: Source, r: RawRule, deny: bool) {
    && (forall s | s in r.services :: KnownService(src.catalog, s))
    && (deny && !RawEmpty(src.areas, r.targets) ==>
          forall i | 0 <= i < |src.catalog| && src.catalog[i].service in r.services :: src.catalog[i].isEntity)
  }

  ghost predicate WellFormed(src: Source) {
    && !Cyclic(src.roles)
    && (forall x | x in Items(src.policies, false) :: RuleOk(src, x.rule, false))
    && (forall x | x in Items(src.policies, true) :: RuleOk(src, x.rule, true))
  }

  // ---------------------------------------------------------------- selectors that share a hash

  function Hash(sel: RawSelector): string { Encode(sel.areas, sel.classes, sel.entityIds) }

  /** The selectors that are hashed: those that do not match everything anyway. */
  ghost function Selectors(src: Source): set<RawSelector> {
    HashedSelectors(Items(src.policies, false)) + HashedSelectors(Items(src.policies, true))
  }

  function HashedSelectors(items: seq<Item>): set<RawSelector> {
    set x | x in items && !x.rule.targets.matchAny :: x.rule.targets
  }

  /** Selectors with the same hash expand to the same areas, so a memo hit is exact. */
  ghost predicate NoCollision(areas: Graph, sels: set<RawSelector>) {
    forall s, t, a | s in sels && t in sels && Hash(s) == Hash(t) ::
      InAreas(areas, s.areas, a) <==> InAreas(areas, t.areas, a)
  }

  predicate CleanSelector(sel: RawSelector) {
    CleanAll(sel.areas) && CleanAll(sel.classes) && CleanAll(sel.entityIds)
  }

  lemma CleanHasNoCollision(areas: Graph, sels: set<RawSelector>)
    requires forall s | s in sels :: CleanSelector(s)
    ensures NoCollision(areas, sels)
  {
    forall s, t, a | s in sels && t in sels && Hash(s) == Hash(t)
      ensures InAreas(areas, s.areas, a) <==> InAreas(areas, t.areas, a)
    {
      EncodeIsInjective(s.areas, s.classes, s.entityIds, t.areas, t.classes, t.entityIds);
      forall d ensures d in s.areas <==> d in t.areas {
        assert d in s.areas <==> d in multiset(s.areas);
        assert d in t.areas <==> d in multiset(t.areas);
      }
      ExpansionIgnoresOrder(areas, s.areas, t.areas, a);
    }
  }

  /** With a zero byte in an area name the memo answers for the wrong selector. */
  lemma ZeroByteMisleadsMemo(s: RawSelector, t: RawSelector)
    requires s == RawSelector([['p', NUL, 'q'], "r"], [], [], false)
    requires t == RawSelector(["p", ['q', NUL, 'r']], [], [], false)
    ensures Hash(s) == Hash(t)
    ensures InAreas(map["r" := []], s.areas, "r") && !InAreas(map["r" := []], t.areas, "r")
  {
    ZeroByteCollides();
    DifferentAreas(s, t);
  }

  lemma DifferentAreas(s: RawSelector, t: RawSelector)
    requires s == RawSelector([['p', NUL, 'q'], "r"], [], [], false)
    requires t == RawSelector(["p", ['q', NUL, 'r']], [], [], false)
    ensures InAreas(map["r" := []], s.areas, "r") && !InAreas(map["r" := []], t.areas, "r")
  {
    var tree: Graph := map["r" := []];
    assert s.areas[1] == "r";
    assert IsRoot(tree, s.areas, "r");
    ReachSelf(tree, "r");
    assert forall r :: !IsRoot(tree, t.areas, r) by {
      assert |"p"| == 1 && "p"[0] != "r"[0] && "p"[0] != "*"[0];
    }
  }

  // ---------------------------------------------------------------- action keys

  function KeyOf(a: Action): string { ActionKey(a.service, a.methodName) }

  /** The rule opens some catalog action with this verb and this key. */
  ghost predicate OpensKey(r: RawRule, catalog: seq<CatalogAction>, verb: string, key: string) {
    exists i :: 0 <= i < |catalog| && Opens(r, catalog[i], verb, key)
  }

  predicate Opens(r: RawRule, ca: CatalogAction, verb: string, key: string) {
    Covers(r, ca) && ca.verb == verb && ActionKey(ca.service, ca.methodName) == key
  }

  /** No other catalog action with the same verb has the key of this request. */
  predicate Unambiguous(catalog: seq<CatalogAction>, a: Action) {
    forall ca | ca in catalog && ca.verb == a.verb && ActionKey(ca.service, ca.methodName) == KeyOf(a) :: Names(ca, a)
  }

  /** Equal keys of one service are equal methods. */
  lemma SameServiceSameMethod(service: string, m1: string, m2: string)
    requires ActionKey(service, m1) == ActionKey(service, m2)
    ensures m1 == m2
  {
    assert m1 == ActionKey(service, m1)[|service| + 1..] && m2 == ActionKey(service, m2)[|service| + 1..];
  }

  /**
   Looking an action up by its key is looking it up by service and method, for every rule,
   if and only if no other action of the catalog shares verb and key with the request.
   */
  lemma KeysMeanActionsIff(catalog: seq<CatalogAction>, a: Action)
    ensures (forall r :: OpensKey(r, catalog, a.verb, KeyOf(a)) <==> RulePermits(r, catalog, a))
            <==> Unambiguous(catalog, a)
  {
    if Unambiguous(catalog, a) {
      forall r ensures OpensKey(r, catalog, a.verb, KeyOf(a)) <==> RulePermits(r, catalog, a) {
        KeysMeanActions(r, catalog, a);
      }
    } else {
      var ca :| ca in catalog && ca.verb == a.verb && ActionKey(ca.service, ca.methodName) == KeyOf(a) && !Names(ca, a);
      var r := RawRule([a.verb], RawSelector([], [], [], true), [ca.service]);
      var i :| 0 <= i < |catalog| && catalog[i] == ca;
      assert Opens(r, catalog[i], a.verb, KeyOf(a));
      if RulePermits(r, catalog, a) {
        assert a.service == ca.service;
        SameServiceSameMethod(ca.service, ca.methodName, a.methodName);
      }
    }
  }

  lemma KeysMeanActions(r: RawRule, catalog: seq<CatalogAction>, a: Action)
    requires Unambiguous(catalog, a)
    ensures OpensKey(r, catalog, a.verb, KeyOf(a)) <==> RulePermits(r, catalog, a)
  {
    PermitsMeansCovers(r, catalog, a);
    if RulePermits(r, catalog, a) {
      var i :| 0 <= i < |catalog| && Covers(r, catalog[i]) && Names(catalog[i], a);
      assert Opens(r, catalog[i], a.verb, KeyOf(a));
    }
    if OpensKey(r, catalog, a.verb, KeyOf(a)) {
      var i :| 0 <= i < |catalog| && Opens(r, catalog[i], a.verb, KeyOf(a));
      assert catalog[i] in catalog;
      assert Names(catalog[i], a);
    }
  }

  predicate HasDot(s: string) { '.' in s }

  /** Without dots in service names, equal keys mean equal service and method. */
  lemma {:induction false} KeyIsInjective(s1: string, m1: string, s2: string, m2: string)
    requires !HasDot(s1) && !HasDot(s2) && ActionKey(s1, m1) == ActionKey(s2, m2)
    ensures s1 == s2 && m1 == m2
    decreases |s1|
  {
    var k1, k2 := ActionKey(s1, m1), ActionKey(s2, m2);
    if |s1| == 0 {
      assert k1[0] == '.';
      assert m1 == k1[1..] && m2 == k2[1..];
    } else {
      assert k1[0] == s1[0];
      assert k1[1..] == ActionKey(s1[1..], m1) && k2[1..] == ActionKey(s2[1..], m2);
      KeyIsInjective(s1[1..], m1, s2[1..], m2);
      assert s1 == [s1[0]] + s1[1..] && s2 == [s2[0]] + s2[1..];
    }
  }

  /** Service names without dots are enough. */
  lemma PlainServicesAreUnambiguous(catalog: seq<CatalogAction>, a: Action)
    requires !HasDot(a.service) && forall ca | ca in catalog :: !HasDot(ca.service)
    ensures Unambiguous(catalog, a)
  {
    forall ca | ca in catalog && ca.verb == a.verb && ActionKey(ca.service, ca.methodName) == KeyOf(a)
      ensures Names(ca, a)
    {
      KeyIsInjective(ca.service, ca.methodName, a.service, a.methodName);
    }
  }
}
