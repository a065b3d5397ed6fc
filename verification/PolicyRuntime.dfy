/**
 The authorizer: it reads the compiled form only. The theorem of this module is that its
 decisions are those of the raw policies.
 */
module PolicyRuntime {
  import opened Basics
  import opened PolicyGraph
  import opened SelectorHash
  import opened Policy
  import opened PolicyCompiler
  import opened TokenScope

  datatype Reason = NoPolicy | ActionDenied | TokenActionDenied | TokenTargetDenied | TargetDenied | ExplicitDeny

  datatype Decision = Permit | Forbid(reason: Reason, ruleName: string)

  /** An empty verb or service set leaves that side open. */
  predicate RuleMatches(r: CompiledRule, a: Action, t: Target) {
    && (r.verbs != {} ==> a.verb in r.verbs)
    && (r.services != {} ==> a.service in r.services)
    && SelectorMatches(r.targets, t)
  }

  predicate SomeRule(rules: seq<CompiledRule>, a: Action, t: Target) {
    exists i :: 0 <= i < |rules| && RuleMatches(rules[i], a, t)
  }

  // ---------------------------------------------------------------- the decision procedure

  method AnyRolePermits(c: Compiled, roles: set<string>, verb: string, key: string) returns (found: bool)
    ensures found <==> exists role :: role in roles && Permits(c.allowlist, role, verb, key)
  {
    var todo := roles;
    while todo != {}
      invariant todo <= roles
      invariant forall role | role in roles && role !in todo :: !Permits(c.allowlist, role, verb, key)
      decreases todo
    {
      var role :| role in todo;
      if Permits(c.allowlist, role, verb, key) {
        return true;
      }
      todo := todo - {role};
    }
    return false;
  }

  /** The rule matches, and none before it in the list does. */
  ghost predicate IsFirst(rules: seq<CompiledRule>, a: Action, t: Target, r: CompiledRule) {
    exists i :: 0 <= i < |rules| && rules[i] == r && RuleMatches(r, a, t)
                && forall j | 0 <= j < i :: !RuleMatches(rules[j], a, t)
  }

  /** The first matching rule in a role's list. */
  method FirstMatch(rules: seq<CompiledRule>, a: Action, t: Target) returns (r: Option<CompiledRule>)
    ensures r.Some? <==> SomeRule(rules, a, t)
    ensures r.Some? ==> IsFirst(rules, a, t, r.value)
  {
    var i := 0;
    while i < |rules|
      invariant 0 <= i <= |rules|
      invariant forall j | 0 <= j < i :: !RuleMatches(rules[j], a, t)
    {
      if RuleMatches(rules[i], a, t) {
        return Some(rules[i]);
      }
      i := i + 1;
    }
    return None;
  }

  /** A matching rule in the lists of any of the roles. */
  method AnyRoleMatches(m: map<string, seq<CompiledRule>>, roles: set<string>, a: Action, t: Target)
    returns (r: Option<CompiledRule>)
    ensures r.Some? <==> exists role :: role in roles && SomeRule(RulesOf(m, role), a, t)
    ensures r.Some? ==> exists role :: role in roles && IsFirst(RulesOf(m, role), a, t, r.value)
  {
    var todo := roles;
    while todo != {}
      invariant todo <= roles
      invariant forall role | role in roles && role !in todo :: !SomeRule(RulesOf(m, role), a, t)
      decreases todo
    {
      var role :| role in todo;
      r := FirstMatch(RulesOf(m, role), a, t);
      if r.Some? {
        return;
      }
      todo := todo - {role};
    }
    return None;
  }

  // ---------------------------------------------------------------- the decision as a condition

  ghost predicate ActionPermitted(c: Compiled, roles: set<string>, a: Action) {
    exists role :: role in roles && Permits(c.allowlist, role, a.verb, ActionKey(a.service, a.methodName))
  }

  ghost predicate TargetMatched(m: map<string, seq<CompiledRule>>, roles: set<string>, a: Action, t: Target) {
    exists role :: role in roles && SomeRule(RulesOf(m, role), a, t)
  }

  /** The first deny rule that matches for one of the roles is of policy `name`. */
  ghost predicate DeniedBy(c: Compiled, roles: set<string>, a: Action, t: Target, name: string) {
    exists role, rule :: role in roles && IsFirst(RulesOf(c.denyRules, role), a, t, rule) && rule.policyName == name
  }

  /** A token narrows actions always and targets for entity requests. */
  predicate ScopePermits(scope: Option<Scope>, a: Action, t: AuthTarget) {
    scope.Some? ==>
      if t.kind == "entity" then Allow(scope.value, ActionKey(a.service, a.methodName), TargetFromAuth(t))
      else ActionAllowed(scope.value, ActionKey(a.service, a.methodName))
  }

  /** The checks in the order in which the authorizer makes them. */
  ghost function Outcome(
    c: Compiled, roles: set<string>, scope: Option<Scope>, a: Action, t: AuthTarget): Option<Reason>
  {
    if !ActionPermitted(c, roles, a) then Some(ActionDenied)
    else if !ScopePermits(scope, a, t) then
      if ActionAllowed(scope.value, KeyOf(a)) then Some(TokenTargetDenied) else Some(TokenActionDenied)
    else if t.kind == "entity" && !TargetMatched(c.allowRules, roles, a, TargetFromAuth(t)) then Some(TargetDenied)
    else if t.kind == "entity" && TargetMatched(c.denyRules, roles, a, TargetFromAuth(t)) then Some(ExplicitDeny)
    else None
  }

  method Authorize(
    compiled: Option<Compiled>, kind: string, roles: set<string>, scope: Option<Scope>, a: Action, t: AuthTarget)
    returns (d: Decision)
    ensures kind == "system" ==> d == Permit
    ensures kind != "system" && compiled.None? ==> d == Forbid(NoPolicy, "")
    ensures kind != "system" && compiled.Some? ==>
              match Outcome(compiled.value, roles, scope, a, t) {
                case None => d == Permit
                case Some(reason) => d.Forbid? && d.reason == reason && (reason != ExplicitDeny ==> d.ruleName == "")
              }
    // An explicit denial names the policy of a deny rule that matched.
    ensures d.Forbid? && d.reason == ExplicitDeny ==>
              compiled.Some? && DeniedBy(compiled.value, roles, a, TargetFromAuth(t), d.ruleName)
  {
    if kind == "system" {
      return Permit;
    }
    if compiled.None? {
      return Forbid(NoPolicy, "");
    }
    var c, key := compiled.value, ActionKey(a.service, a.methodName);
    var permitted := AnyRolePermits(c, roles, a.verb, key);
    if !permitted {
      return Forbid(ActionDenied, "");
    }
    if scope.Some? {
      if t.kind == "entity" {
        if !Allow(scope.value, key, TargetFromAuth(t)) {
          return Forbid(if ActionAllowed(scope.value, key) then TokenTargetDenied else TokenActionDenied, "");
        }
      } else if !ActionAllowed(scope.value, key) {
        return Forbid(TokenActionDenied, "");
      }
    }
    if t.kind == "entity" {
      var target := TargetFromAuth(t);
      var allowed := AnyRoleMatches(c.allowRules, roles, a, target);
      if allowed.None? {
        return Forbid(TargetDenied, "");
      }
      var denied := AnyRoleMatches(c.denyRules, roles, a, target);
      if denied.Some? {
        return Forbid(ExplicitDeny, denied.value.policyName);
      }
    }
    return Permit;
  }

  // ---------------------------------------------------------------- compiled decisions against the source

  lemma RuleMeans(areas: Graph, cr: CompiledRule, x: Item, a: Action, t: Target)
    requires RuleSays(areas, cr, x)
    ensures RuleMatches(cr, a, t) <==> RuleApplies(areas, x.rule, a, t)
  {
    assert cr.verbs != {} <==> |x.rule.verbs| > 0 by {
      if |x.rule.verbs| > 0 { assert x.rule.verbs[0] in cr.verbs; }
    }
    assert cr.services != {} <==> |x.rule.services| > 0 by {
      if |x.rule.services| > 0 { assert x.rule.services[0] in cr.services; }
    }
  }

  ghost predicate SomeItem(areas: Graph, items: seq<Item>, role: string, a: Action, t: Target) {
    exists x :: x in items && x.role == role && RuleApplies(areas, x.rule, a, t)
  }

  lemma RoleMeans(areas: Graph, m: map<string, seq<CompiledRule>>, items: seq<Item>, role: string, a: Action, t: Target)
    requires RulesSay(areas, m, items)
    ensures SomeRule(RulesOf(m, role), a, t) <==> SomeItem(areas, items, role, a, t)
  {
    var rules, mine := RulesOf(m, role), OfRole(items, role);
    assert Parallel(areas, rules, mine);
    OfRoleMeaning(items, role);
    forall i | 0 <= i < |rules| ensures RuleMatches(rules[i], a, t) <==> RuleApplies(areas, mine[i].rule, a, t) {
      RuleMeans(areas, rules[i], mine[i], a, t);
    }
    if SomeRule(rules, a, t) {
      var i :| 0 <= i < |rules| && RuleMatches(rules[i], a, t);
      assert mine[i] in mine;
    }
    if SomeItem(areas, items, role, a, t) {
      var x :| x in items && x.role == role && RuleApplies(areas, x.rule, a, t);
      assert x in mine;
      var i :| 0 <= i < |mine| && mine[i] == x;
      assert RuleMatches(rules[i], a, t);
    }
  }

  lemma RolesMean(src: Source, m: map<string, seq<CompiledRule>>, deny: bool, roles: set<string>, a: Action, t: Target)
    requires RulesSay(src.areas, m, Policy.Items(src.policies, deny))
    ensures TargetMatched(m, roles, a, t) <==> SomeRuleApplies(src, deny, roles, a, t)
  {
    var items := Policy.Items(src.policies, deny);
    forall role ensures SomeRule(RulesOf(m, role), a, t) <==> SomeItem(src.areas, items, role, a, t) {
      RoleMeans(src.areas, m, items, role, a, t);
    }
    if SomeRuleApplies(src, deny, roles, a, t) {
      var x :| x in items && x.role in roles && RuleApplies(src.areas, x.rule, a, t);
      assert SomeItem(src.areas, items, x.role, a, t);
    }
  }

  /** The allowlist answers by key; that is the requested action when no other one shares its key. */
  lemma ActionsMean(src: Source, c: Compiled, roles: set<string>, a: Action)
    requires AllowlistSays(c.allowlist, Policy.Items(src.policies, false), src.catalog)
    requires Unambiguous(src.catalog, a)
    ensures ActionPermitted(c, roles, a) <==> ActionOpen(src, roles, a)
  {
    var items := Policy.Items(src.policies, false);
    if ActionPermitted(c, roles, a) {
      var role :| role in roles && Permits(c.allowlist, role, a.verb, KeyOf(a));
      assert SomePermits(items, src.catalog, role, a.verb, KeyOf(a));
      var x :| x in items && x.role == role && OpensKey(x.rule, src.catalog, a.verb, KeyOf(a));
      KeysMeanActions(x.rule, src.catalog, a);
    }
    if ActionOpen(src, roles, a) {
      var x :| x in items && x.role in roles && RulePermits(x.rule, src.catalog, a);
      KeysMeanActions(x.rule, src.catalog, a);
      assert SomePermits(items, src.catalog, x.role, a.verb, KeyOf(a));
      assert Permits(c.allowlist, x.role, a.verb, KeyOf(a));
    }
  }

  /** The token lets the request's target pass, read field by field. */
  predicate TokenTakesIn(scope: Scope, t: AuthTarget) {
    || scope.targets.matchAny
    || (scope.targets.areaSet == {} && scope.targets.classSet == {} && scope.targets.entitySet == {})
    || RequestArea(t) in scope.targets.areaSet
    || RequestClass(t) in scope.targets.classSet
    || t.id in scope.targets.entitySet
  }

  predicate TokenPermits(scope: Option<Scope>, a: Action, t: AuthTarget) {
    scope.Some? ==>
      && ActionAllowed(scope.value, a.service + "." + a.methodName)
      && (t.kind == "entity" ==> TokenTakesIn(scope.value, t))
  }

  /** What each answer says about the source, the token and the request. */
  ghost predicate AnswerMeans(
    src: Source, roles: set<string>, scope: Option<Scope>, a: Action, t: AuthTarget, answer: Option<Reason>)
  {
    match answer
    case None => DirectlyPermitted(src, roles, a, t) && TokenPermits(scope, a, t)
    case Some(ActionDenied) => !ActionOpen(src, roles, a)
    case Some(TokenActionDenied) =>
      ActionOpen(src, roles, a) && scope.Some? && !ActionAllowed(scope.value, a.service + "." + a.methodName)
    case Some(TokenTargetDenied) =>
      && ActionOpen(src, roles, a) && scope.Some? && ActionAllowed(scope.value, a.service + "." + a.methodName)
      && t.kind == "entity" && !TokenTakesIn(scope.value, t)
    case Some(TargetDenied) =>
      && ActionOpen(src, roles, a) && TokenPermits(scope, a, t)
      && t.kind == "entity" && !SomeTakesIn(src, false, roles, a, t)
    case Some(ExplicitDeny) =>
      && ActionOpen(src, roles, a) && TokenPermits(scope, a, t)
      && t.kind == "entity" && SomeTakesIn(src, false, roles, a, t) && SomeTakesIn(src, true, roles, a, t)
    case Some(NoPolicy) => false
  }

  lemma ScopeMeans(scope: Option<Scope>, a: Action, t: AuthTarget)
    ensures ScopePermits(scope, a, t) <==> TokenPermits(scope, a, t)
  {
  }

  /**
   Compilation preserves meaning: for a request whose key names one catalog action, the
   authorizer lets it pass exactly when the raw policies permit it and the token's scope, if
   there is one, does too; and every refusal gives the first check that fails.
   */
  lemma AuthorizeMeansPolicies(
    src: Source, c: Compiled, roles: set<string>, scope: Option<Scope>, a: Action, t: AuthTarget)
    requires Faithful(src, c) && Unambiguous(src.catalog, a)
    ensures Outcome(c, roles, scope, a, t).None? <==> DirectlyPermitted(src, roles, a, t) && TokenPermits(scope, a, t)
    ensures AnswerMeans(src, roles, scope, a, t, Outcome(c, roles, scope, a, t))
  {
    ActionsMean(src, c, roles, a);
    ScopeMeans(scope, a, t);
    RolesMean(src, c.allowRules, false, roles, a, TargetFromAuth(t));
    RolesMean(src, c.denyRules, true, roles, a, TargetFromAuth(t));
    SomeTakesInMeans(src, false, roles, a, t);
    SomeTakesInMeans(src, true, roles, a, t);
  }

  /** A policy of that name denies the request to one of the roles. */
  ghost predicate PolicyDenies(src: Source, roles: set<string>, a: Action, t: AuthTarget, name: string) {
    exists p, r, role :: p in src.policies && p.name == name && role in p.subjects && role in roles
                         && r in p.deny && TakesIn(src.areas, r, a, t)
  }

  lemma DenialIsNamed(src: Source, c: Compiled, roles: set<string>, a: Action, t: AuthTarget, name: string)
    requires Faithful(src, c) && DeniedBy(c, roles, a, TargetFromAuth(t), name)
    ensures PolicyDenies(src, roles, a, t, name)
  {
    var target := TargetFromAuth(t);
    var role, rule :| role in roles && IsFirst(RulesOf(c.denyRules, role), a, target, rule) && rule.policyName == name;
    var rules, items := RulesOf(c.denyRules, role), Policy.Items(src.policies, true);
    var mine := OfRole(items, role);
    assert Parallel(src.areas, rules, mine);
    var i :| 0 <= i < |rules| && rules[i] == rule && RuleMatches(rule, a, target);
    RuleMeans(src.areas, rules[i], mine[i], a, target);
    OfRoleMeaning(items, role);
    assert mine[i] in items;
    ItemsMeaning(src.policies, true, mine[i]);
    var p :| p in src.policies && p.name == mine[i].policy && role in p.subjects && mine[i].rule in Rules(p, true);
    TakesInMeans(src.areas, mine[i].rule, a, t);
    assert mine[i].rule in p.deny;
  }

  /** From source to decision, for a principal that is not the system and carries no token. */
  method CompileAndAuthorize(src: Source, kind: string, roles: set<string>, a: Action, t: AuthTarget)
    returns (d: Option<Decision>)
    ensures NoCollision(src.areas, Selectors(src)) ==> (d.Some? <==> WellFormed(src))
    ensures NoCollision(src.areas, Selectors(src)) && Unambiguous(src.catalog, a) && d.Some? && kind != "system" ==>
              && (d.value == Permit <==> DirectlyPermitted(src, roles, a, t))
              && (d.value.Forbid? ==> AnswerMeans(src, roles, None, a, t, Some(d.value.reason)))
              && (d.value.Forbid? && d.value.reason == ExplicitDeny ==>
                    PolicyDenies(src, roles, a, t, d.value.ruleName))
  {
    var c := Compile(src);
    if c.Err? {
      return None;
    }
    var decision := Authorize(Some(c.value), kind, roles, None, a, t);
    if Faithful(src, c.value) && Unambiguous(src.catalog, a) {
      AuthorizeMeansPolicies(src, c.value, roles, None, a, t);
      if decision.Forbid? && decision.reason == ExplicitDeny {
        DenialIsNamed(src, c.value, roles, a, t, decision.ruleName);
      }
    }
    return Some(decision);
  }

  // ---------------------------------------------------------------- which field of a request decides

  /** One allow rule for one role, over a catalog in which it opens the action. */
  ghost predicate OneRule(src: Source, role: string, rule: RawRule, a: Action) {
    && |src.policies| == 1 && src.policies[0].subjects == [role]
    && src.policies[0].allow == [rule] && src.policies[0].deny == []
    && RulePermits(rule, src.catalog, a) && Unambiguous(src.catalog, a)
  }

  lemma OneRuleItems(src: Source, role: string, rule: RawRule, a: Action)
    requires OneRule(src, role, rule, a)
    ensures forall x :: x in Policy.Items(src.policies, false) <==> x == Item(src.policies[0].name, role, rule)
    ensures Policy.Items(src.policies, true) == []
  {
    var p := src.policies[0];
    assert src.policies == [p];
    OnePolicyItems(p, false);
    OnePolicyItems(p, true);
    assert RoleRules(p.name, role, p.allow) == [Item(p.name, role, rule)];
  }

  lemma OneRuleDecides(src: Source, c: Compiled, role: string, rule: RawRule, a: Action, t: AuthTarget)
    requires OneRule(src, role, rule, a) && Faithful(src, c)
    ensures Outcome(c, {role}, None, a, t).None? <==> t.kind == "entity" ==> TakesIn(src.areas, rule, a, t)
  {
    OneRuleItems(src, role, rule, a);
    var x := Item(src.policies[0].name, role, rule);
    assert x in Policy.Items(src.policies, false) && x.role in {role};
    AuthorizeMeansPolicies(src, c, {role}, None, a, t);
  }

  lemma TargetsTakeIn(areas: Graph, rule: RawRule, a: Action, t: AuthTarget)
    requires !rule.targets.matchAny
    requires (rule.verbs == [] || a.verb in rule.verbs) && (rule.services == [] || a.service in rule.services)
    ensures rule.targets.classes == [] && rule.targets.entityIds == [] ==>
              (TakesIn(areas, rule, a, t) <==> InAreas(areas, rule.targets.areas, RequestArea(t)))
    ensures rule.targets.areas == [] && rule.targets.entityIds == [] ==>
              (TakesIn(areas, rule, a, t) <==> RequestClass(t) in rule.targets.classes)
    ensures rule.targets.areas == [] && rule.targets.classes == [] ==>
              (TakesIn(areas, rule, a, t) <==> t.id in rule.targets.entityIds)
  {
  }

  /** A rule on areas alone lets an entity pass by its area only, and likewise for class and id. */
  lemma FieldsDecide(src: Source, c: Compiled, role: string, rule: RawRule, a: Action, t: AuthTarget)
    requires OneRule(src, role, rule, a) && Faithful(src, c) && t.kind == "entity" && !rule.targets.matchAny
    requires (rule.verbs == [] || a.verb in rule.verbs) && (rule.services == [] || a.service in rule.services)
    ensures t.area != "" && rule.targets.classes == [] && rule.targets.entityIds == [] ==>
              (Outcome(c, {role}, None, a, t).None? <==> InAreas(src.areas, rule.targets.areas, t.area))
    ensures t.class_ != "" && rule.targets.areas == [] && rule.targets.entityIds == [] ==>
              (Outcome(c, {role}, None, a, t).None? <==> t.class_ in rule.targets.classes)
    ensures rule.targets.areas == [] && rule.targets.classes == [] ==>
              (Outcome(c, {role}, None, a, t).None? <==> t.id in rule.targets.entityIds)
  {
    OneRuleDecides(src, c, role, rule, a, t);
    TargetsTakeIn(src.areas, rule, a, t);
  }

  /** Attributes stand in for empty fields and are ignored beside set ones. */
  lemma AttributesFillIn(c: Compiled, roles: set<string>, scope: Option<Scope>, a: Action, t: AuthTarget)
    ensures t.area == t.class_ == "" && "area" in t.attr && "class" in t.attr ==>
              Outcome(c, roles, scope, a, t) ==
              Outcome(c, roles, scope, a, t.(area := t.attr["area"], class_ := t.attr["class"]))
    ensures t.area != "" && t.class_ != "" ==>
              Outcome(c, roles, scope, a, t) == Outcome(c, roles, scope, a, t.(attr := map[]))
  {
  }

  // ---------------------------------------------------------------- sources on which the decision is wrong

  function OpenRule(targets: RawSelector): RawRule { RawRule([], targets, []) }

  const ANYTHING := RawSelector([], [], [], true)

  /** One policy that opens everything, over a catalog with a dot in its only service name. */
  const DOTTED := Source(
    [RawPolicy("open", ["user"], [OpenRule(ANYTHING)], [])], map[], map[],
    [CatalogAction("a.b", "c", "call", false)])

  lemma OnePolicyItems(p: RawPolicy, deny: bool)
    requires |p.subjects| == 1
    ensures Policy.Items([p], deny) == RoleRules(p.name, p.subjects[0], Rules(p, deny))
  {
    assert [p][..0] == [] && p.subjects[..0] == [];
    assert SubjectItems(p.name, p.subjects, Rules(p, deny)) == [] + RoleRules(p.name, p.subjects[0], Rules(p, deny));
    assert Policy.Items([], deny) == [];
  }

  /** A request for an action that the catalog does not contain passes, because its key is that of another one. */
  lemma DottedRequestPasses(c: Compiled, a: Action, t: AuthTarget)
    requires BuiltFrom(DOTTED, c) && a == Action("a", "b.c", "call") && t.kind != "entity"
    ensures Outcome(c, {"user"}, None, a, t).None?
    ensures !DirectlyPermitted(DOTTED, {"user"}, a, t) && !Unambiguous(DOTTED.catalog, a)
  {
    var items, ca := Policy.Items(DOTTED.policies, false), DOTTED.catalog[0];
    OnePolicyItems(DOTTED.policies[0], false);
    var x := Item("open", "user", OpenRule(ANYTHING));
    assert items[0] == x;
    assert ActionKey("a.b", "c") == KeyOf(a) == "a.b.c";
    assert "call" == ALL_VERBS[1];
    assert OpensKey(x.rule, DOTTED.catalog, "call", KeyOf(a)) by {
      assert Opens(x.rule, ca, "call", KeyOf(a));
    }
    assert SomePermits(items, DOTTED.catalog, "user", "call", KeyOf(a));
    assert Permits(c.allowlist, "user", "call", KeyOf(a));
    assert |ca.service| != |a.service|;
    assert ca in DOTTED.catalog && !Names(ca, a);
  }

  /** Two policies that give guests and users one selector each. */
  function Colliding(s: RawSelector, t: RawSelector, tree: Graph): Source {
    Source([RawPolicy("one", ["guest"], [OpenRule(s)], []), RawPolicy("two", ["user"], [OpenRule(t)], [])],
           map[], tree, [CatalogAction("Light", "on", "call", true)])
  }

  /** Selectors on areas alone that share a hash, with an area that only the first takes in. */
  ghost predicate Collide(s: RawSelector, t: RawSelector, tree: Graph, area: string) {
    && !s.matchAny && s.classes == [] && s.entityIds == []
    && !t.matchAny && t.classes == [] && t.entityIds == []
    && Hash(s) == Hash(t) && InAreas(tree, s.areas, area) && !InAreas(tree, t.areas, area)
  }

  function RuleItem(s: RawSelector, t: RawSelector, role: string): Item {
    if role == "guest" then Item("one", "guest", OpenRule(s)) else Item("two", "user", OpenRule(t))
  }

  lemma CollidingItems(s: RawSelector, t: RawSelector, tree: Graph)
    ensures Policy.Items(Colliding(s, t, tree).policies, false) == [RuleItem(s, t, "guest"), RuleItem(s, t, "user")]
    ensures Policy.Items(Colliding(s, t, tree).policies, true) == []
  {
    var ps := Colliding(s, t, tree).policies;
    assert ps[..1] == [ps[0]];
    OnePolicyItems(ps[0], false);
    OnePolicyItems(ps[0], true);
    OnePolicyItems(ps[1], false);
    OnePolicyItems(ps[1], true);
    assert [ps[1]][..0] == [];
    assert Policy.Items([ps[1]], false) == [] + SubjectItems("two", ["user"], ps[1].allow);
    assert Policy.Items([ps[1]], true) == [] + SubjectItems("two", ["user"], ps[1].deny);
  }

  lemma CollidingRoles(s: RawSelector, t: RawSelector, tree: Graph, role: string)
    requires role in {"guest", "user"}
    ensures OfRole(Policy.Items(Colliding(s, t, tree).policies, false), role) == [RuleItem(s, t, role)]
    ensures OfRole(Policy.Items(Colliding(s, t, tree).policies, true), role) == []
  {
    CollidingItems(s, t, tree);
    var items := Policy.Items(Colliding(s, t, tree).policies, false);
    assert items[..1] == [items[0]] && [items[0]][..0] == [];
    assert OfRole([items[0]], role) == if role == "guest" then [items[0]] else [];
  }

  /** A role with one open rule on areas alone: the compiled rule matches what the memo has. */
  lemma SingleAreaRule(
    memo: Memo, m: map<string, seq<CompiledRule>>, items: seq<Item>, x: Item, sel: RawSelector, a: Action, t: Target)
    requires RulesFrom(memo, m, items) && OfRole(items, x.role) == [x]
    requires x.rule == OpenRule(sel) && !sel.matchAny && sel.classes == [] && sel.entityIds == []
    ensures Hash(sel) in memo && (SomeRule(RulesOf(m, x.role), a, t) <==> t.area in memo[Hash(sel)])
  {
    assert ParallelFrom(memo, RulesOf(m, x.role), [x]);
    var cr := RulesOf(m, x.role)[0];
    assert RuleFrom(memo, cr, [x][0]);
    assert cr.verbs == {} && cr.services == {} && cr.targets.classSet == {} && cr.targets.entitySet == {};
    assert RuleMatches(cr, a, t) <==> t.area in memo[Hash(sel)];
  }

  lemma OneRole(m: map<string, seq<CompiledRule>>, role: string, a: Action, target: Target)
    ensures TargetMatched(m, {role}, a, target) <==> SomeRule(RulesOf(m, role), a, target)
  {
    assert role in {role};
  }

  lemma NoRules(memo: Memo, m: map<string, seq<CompiledRule>>, items: seq<Item>, role: string)
    requires RulesFrom(memo, m, items) && OfRole(items, role) == []
    ensures RulesOf(m, role) == []
  {
    assert ParallelFrom(memo, RulesOf(m, role), OfRole(items, role));
  }

  /** Both roles get the areas of whichever selector was compiled first. */
  lemma CollidingMatches(
    s: RawSelector, t: RawSelector, tree: Graph, area: string, c: Compiled, a: Action, target: Target, role: string)
    requires Collide(s, t, tree, area) && BuiltFrom(Colliding(s, t, tree), c) && role in {"guest", "user"}
    ensures Hash(s) in c.areaExpansion
    ensures TargetMatched(c.allowRules, {role}, a, target) <==> target.area in c.areaExpansion[Hash(s)]
    ensures !TargetMatched(c.denyRules, {role}, a, target)
  {
    var ps := Colliding(s, t, tree).policies;
    var allows, denies := Policy.Items(ps, false), Policy.Items(ps, true);
    CollidingRoles(s, t, tree, role);
    CollidingMatch(c.areaExpansion, c.allowRules, allows, s, t, a, target, role);
    NoRules(c.areaExpansion, c.denyRules, denies, role);
    OneRole(c.allowRules, role, a, target);
    OneRole(c.denyRules, role, a, target);
  }

  lemma CollidingMatch(
    memo: Memo, m: map<string, seq<CompiledRule>>, items: seq<Item>, s: RawSelector, t: RawSelector,
    a: Action, target: Target, role: string)
    requires RulesFrom(memo, m, items) && role in {"guest", "user"} && OfRole(items, role) == [RuleItem(s, t, role)]
    requires !s.matchAny && s.classes == [] && s.entityIds == [] && !t.matchAny && t.classes == [] && t.entityIds == []
    requires Hash(s) == Hash(t)
    ensures Hash(s) in memo && (SomeRule(RulesOf(m, role), a, target) <==> target.area in memo[Hash(s)])
  {
    SingleAreaRule(memo, m, items, RuleItem(s, t, role), if role == "guest" then s else t, a, target);
  }

  lemma CollidingActions(s: RawSelector, t: RawSelector, tree: Graph, c: Compiled, a: Action, role: string)
    requires BuiltFrom(Colliding(s, t, tree), c) && a == Action("Light", "on", "call") && role in {"guest", "user"}
    ensures ActionPermitted(c, {role}, a) && ActionOpen(Colliding(s, t, tree), {role}, a)
  {
    CollidingItems(s, t, tree);
    var src, x := Colliding(s, t, tree), RuleItem(s, t, role);
    var items := Policy.Items(src.policies, false);
    assert x == items[if role == "guest" then 0 else 1];
    assert "call" == ALL_VERBS[1];
    assert Covers(x.rule, src.catalog[0]) && Names(src.catalog[0], a);
    assert RulePermits(x.rule, src.catalog, a);
    assert Opens(x.rule, src.catalog[0], "call", KeyOf(a));
    assert SomePermits(items, src.catalog, role, "call", KeyOf(a));
    assert Permits(c.allowlist, role, "call", KeyOf(a));
  }

  /** Read directly, guests may act in the area and users may not. */
  lemma CollidingMeaning(s: RawSelector, t: RawSelector, tree: Graph, area: string, a: Action, target: Target)
    requires Collide(s, t, tree, area) && target.area == area
    ensures SomeRuleApplies(Colliding(s, t, tree), false, {"guest"}, a, target)
    ensures !SomeRuleApplies(Colliding(s, t, tree), false, {"user"}, a, target)
    ensures !SomeRuleApplies(Colliding(s, t, tree), true, {"guest"}, a, target)
  {
    CollidingItems(s, t, tree);
    var items := Policy.Items(Colliding(s, t, tree).policies, false);
    assert items[0] in items && RuleApplies(tree, items[0].rule, a, target);
    assert !RuleApplies(tree, items[1].rule, a, target);
  }

  /** Without a token, an open action on an entity is decided by its target. */
  lemma TargetDecides(c: Compiled, roles: set<string>, a: Action, t: AuthTarget)
    requires ActionPermitted(c, roles, a) && t.kind == "entity"
    ensures Outcome(c, roles, None, a, t).None? <==>
            && TargetMatched(c.allowRules, roles, a, TargetFromAuth(t))
            && !TargetMatched(c.denyRules, roles, a, TargetFromAuth(t))
    ensures TargetFromAuth(t).area == RequestArea(t)
  {
  }

  lemma CollidingOutcome(
    s: RawSelector, t: RawSelector, tree: Graph, area: string, c: Compiled, a: Action, target: AuthTarget, role: string)
    requires Collide(s, t, tree, area) && BuiltFrom(Colliding(s, t, tree), c) && role in {"guest", "user"}
    requires a == Action("Light", "on", "call") && target.kind == "entity" && RequestArea(target) == area
    ensures Hash(s) in c.areaExpansion
    ensures Outcome(c, {role}, None, a, target).None? <==> area in c.areaExpansion[Hash(s)]
  {
    CollidingActions(s, t, tree, c, a, role);
    TargetDecides(c, {role}, a, target);
    CollidingMatches(s, t, tree, area, c, a, TargetFromAuth(target), role);
  }

  lemma CollidingIsDirect(
    s: RawSelector, t: RawSelector, tree: Graph, area: string, c: Compiled, a: Action, target: AuthTarget)
    requires Collide(s, t, tree, area) && BuiltFrom(Colliding(s, t, tree), c)
    requires a == Action("Light", "on", "call") && target.kind == "entity" && RequestArea(target) == area
    ensures DirectlyPermitted(Colliding(s, t, tree), {"guest"}, a, target)
    ensures !DirectlyPermitted(Colliding(s, t, tree), {"user"}, a, target)
  {
    var src := Colliding(s, t, tree);
    CollidingActions(s, t, tree, c, a, "guest");
    CollidingMeaning(s, t, tree, area, a, TargetFromAuth(target));
    SomeTakesInMeans(src, false, {"guest"}, a, target);
    SomeTakesInMeans(src, true, {"guest"}, a, target);
    SomeTakesInMeans(src, false, {"user"}, a, target);
  }

  ghost predicate Misdecided(src: Source, c: Compiled, role: string, a: Action, target: AuthTarget) {
    Outcome(c, {role}, None, a, target).None? != DirectlyPermitted(src, {role}, a, target)
  }

  /**
   A collision reaches the decision: for every two colliding selectors there is a source on
   which, whatever the compiler makes of it, one of two roles gets the wrong decision.
   */
  lemma CollisionMisdecides(
    s: RawSelector, t: RawSelector, tree: Graph, area: string, c: Compiled, a: Action, target: AuthTarget)
    requires Collide(s, t, tree, area) && BuiltFrom(Colliding(s, t, tree), c)
    requires a == Action("Light", "on", "call") && target.kind == "entity" && RequestArea(target) == area
    ensures || Misdecided(Colliding(s, t, tree), c, "guest", a, target)
            || Misdecided(Colliding(s, t, tree), c, "user", a, target)
  {
    CollidingIsDirect(s, t, tree, area, c, a, target);
    CollidingOutcome(s, t, tree, area, c, a, target, "guest");
    CollidingOutcome(s, t, tree, area, c, a, target, "user");
  }

  lemma CollidingIsSafe(s: RawSelector, t: RawSelector, tree: Graph)
    ensures !Cyclic(Colliding(s, t, tree).roles)
    ensures forall p | p in Colliding(s, t, tree).policies :: PolicySafe(Colliding(s, t, tree), p)
  {
    var src := Colliding(s, t, tree);
    if Cyclic(src.roles) {
      var p :| IsPath(src.roles, p) && |p| > 1 && p[0] == p[|p| - 1];
      CycleStartsAtARole(src.roles, p);
    }
  }

  method CompileColliding(s: RawSelector, t: RawSelector, tree: Graph) returns (c: Compiled)
    ensures BuiltFrom(Colliding(s, t, tree), c)
  {
    CollidingIsSafe(s, t, tree);
    var r := Compile(Colliding(s, t, tree));
    c := r.value;
  }

  /** It compiles, so a wrong decision is really made. */
  method MisledAuthorizer(s: RawSelector, t: RawSelector, tree: Graph, area: string, target: AuthTarget)
    returns (guest: Decision, user: Decision)
    ensures Collide(s, t, tree, area) && target.kind == "entity" && RequestArea(target) == area ==>
              var a := Action("Light", "on", "call");
              || (guest == Permit) != DirectlyPermitted(Colliding(s, t, tree), {"guest"}, a, target)
              || (user == Permit) != DirectlyPermitted(Colliding(s, t, tree), {"user"}, a, target)
  {
    var a := Action("Light", "on", "call");
    var c := CompileColliding(s, t, tree);
    guest := Authorize(Some(c), "user", {"guest"}, None, a, target);
    user := Authorize(Some(c), "user", {"user"}, None, a, target);
    if Collide(s, t, tree, area) && target.kind == "entity" && RequestArea(target) == area {
      CollisionMisdecides(s, t, tree, area, c, a, target);
    }
  }

  /** Such selectors exist: a zero byte inside a name is enough. */
  lemma CollidingSelectorsExist(s: RawSelector, t: RawSelector)
    requires s == RawSelector([['p', NUL, 'q'], "r"], [], [], false)
    requires t == RawSelector(["p", ['q', NUL, 'r']], [], [], false)
    ensures Collide(s, t, map["r" := []], "r")
  {
    ZeroByteMisleadsMemo(s, t);
  }

  /** What a token adds: under a chain of narrower scopes nothing becomes permitted. */
  lemma NarrowerScopePermitsLess(parent: Scope, child: Scope, a: Action, t: AuthTarget)
    requires PlainActions(parent) && Contains(parent, child) && ScopePermits(Some(child), a, t)
    ensures ScopePermits(Some(parent), a, t)
  {
    var key := ActionKey(a.service, a.methodName);
    if t.kind == "entity" {
      ContainsIsSound(parent, child, key, TargetFromAuth(t));
    } else if HasActionNarrowing(parent) && key !in child.actions {
      var p :| p in Patterns(child) && PatternMatches(p, key);
      CoveredIsAllowed(parent, p, key);
    }
  }
}
