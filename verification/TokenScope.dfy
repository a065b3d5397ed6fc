/**
 Token scopes: what a token may do, when one scope contains another, and how scopes narrow
 along a chain of tokens minted from one another.
 */
module TokenScope {
  import opened Basics
  import opened Policy
  import opened PolicyCompiler

  datatype Scope = Scope(actions: set<string>, tools: seq<string>, services: seq<string>, targets: CompiledSelector)

  const NO_SELECTOR := CompiledSelector("", {}, {}, {}, false)
  const FULL := Scope({}, [], [], NO_SELECTOR)

  // ---------------------------------------------------------------- patterns

  predicate Wild(p: string) { |p| > 0 && p[|p| - 1] == '*' }

  function Stem(p: string): string { if Wild(p) then p[..|p| - 1] else p }

  predicate PatternMatches(pattern: string, action: string) {
    if Wild(pattern) then Stem(pattern) <= action else pattern == action
  }

  predicate PatternCovers(parent: string, child: string) {
    if !Wild(parent) then !Wild(child) && parent == child
    else if !Wild(child) then Stem(parent) <= child
    else Stem(parent) <= Stem(child)
  }

  /** Covering is what it should be: whatever the child matches the parent matches. */
  lemma CoversIsSound(parent: string, child: string, action: string)
    requires PatternCovers(parent, child) && PatternMatches(child, action)
    ensures PatternMatches(parent, action)
  {
  }

  /** A trailing star stands for any ending; without one a pattern is meant literally. */
  lemma PatternIsPrefix(prefix: string, action: string)
    ensures PatternMatches(prefix + "*", action) <==> |prefix| <= |action| && action[..|prefix|] == prefix
    ensures (prefix == "" || prefix[|prefix| - 1] != '*') ==> (PatternMatches(prefix, action) <==> action == prefix)
  {
    assert (prefix + "*")[..|prefix|] == prefix;
  }

  /** Covering is exactly matching whatever the covered pattern matches. */
  lemma CoversIsExact(parent: string, child: string)
    ensures PatternCovers(parent, child) <==>
            forall action :: PatternMatches(child, action) ==> PatternMatches(parent, action)
  {
    if PatternCovers(parent, child) {
      forall action | PatternMatches(child, action) ensures PatternMatches(parent, action) {
        CoversIsSound(parent, child, action);
      }
    } else {
      assert PatternMatches(child, Stem(child));
      if Wild(child) && !Wild(parent) {
        var longer := if parent == Stem(child) then Stem(child) + "x" else Stem(child);
        assert Stem(child) <= longer && PatternMatches(child, longer) && !PatternMatches(parent, longer);
      } else {
        assert !PatternMatches(parent, Stem(child));
      }
    }
  }

  lemma CoversIsTransitive(a: string, b: string, c: string)
    requires PatternCovers(a, b) && PatternCovers(b, c)
    ensures PatternCovers(a, c)
  {
  }

  // ---------------------------------------------------------------- what a scope allows

  predicate HasActionNarrowing(s: Scope) { s.actions != {} || |s.tools| > 0 || |s.services| > 0 }

  /** The patterns of a scope, tools first. */
  function Patterns(s: Scope): seq<string> { s.tools + s.services }

  predicate ActionAllowed(s: Scope, action: string) {
    || !HasActionNarrowing(s)
    || action in s.actions
    || exists p :: p in Patterns(s) && PatternMatches(p, action)
  }

  predicate TargetAllowed(s: Scope, t: Target) {
    s.targets.matchAny || SelectorEmpty(s.targets) || SelectorMatches(s.targets, t)
  }

  predicate Allow(s: Scope, action: string, t: Target) { ActionAllowed(s, action) && TargetAllowed(s, t) }

  // ---------------------------------------------------------------- containment

  predicate CoversPattern(s: Scope, child: string) {
    || (exists a :: a in s.actions && PatternCovers(a, child))
    || (exists p :: p in Patterns(s) && PatternCovers(p, child))
  }

  predicate ContainsActions(s: Scope, child: Scope) {
    || !HasActionNarrowing(s)
    || (HasActionNarrowing(child)
        && (forall a | a in child.actions :: ActionAllowed(s, a))
        && (forall p | p in Patterns(child) :: CoversPattern(s, p)))
  }

  predicate ContainsTargets(s: Scope, child: Scope) {
    var parent, target := s.targets, child.targets;
    || parent.matchAny
    || SelectorEmpty(parent)
    || (!SelectorEmpty(target) && !target.matchAny
        && target.areaSet <= parent.areaSet && target.classSet <= parent.classSet
        && target.entitySet <= parent.entitySet)
  }

  predicate Contains(s: Scope, child: Scope) { ContainsActions(s, child) && ContainsTargets(s, child) }

  /** Action keys are meant literally; a trailing star in one would be read as a pattern by Contains only. */
  predicate PlainActions(s: Scope) { forall a | a in s.actions :: !Wild(a) }

  lemma ContainsIsReflexive(s: Scope)
    ensures Contains(s, s)
  {
    forall p | p in Patterns(s) ensures CoversPattern(s, p) { assert PatternCovers(p, p); }
  }

  /** A covered pattern's actions are allowed. */
  lemma CoveredIsAllowed(s: Scope, child: string, action: string)
    requires PlainActions(s) && CoversPattern(s, child) && PatternMatches(child, action)
    ensures ActionAllowed(s, action)
  {
    if p :| p in Patterns(s) && PatternCovers(p, child) {
      CoversIsSound(p, child, action);
    } else {
      var a :| a in s.actions && PatternCovers(a, child);
      CoversIsSound(a, child, action);
    }
  }

  /** Containment implies that the child can do nothing the parent cannot. */
  lemma ContainsIsSound(s: Scope, child: Scope, action: string, t: Target)
    requires PlainActions(s) && Contains(s, child) && Allow(child, action, t)
    ensures Allow(s, action, t)
  {
    if HasActionNarrowing(s) && action !in child.actions {
      var p :| p in Patterns(child) && PatternMatches(p, action);
      CoveredIsAllowed(s, p, action);
    }
  }

  /** An allowed literal is also a covered pattern. */
  lemma AllowedIsCovered(s: Scope, x: string)
    requires HasActionNarrowing(s) && ActionAllowed(s, x) && !Wild(x)
    ensures CoversPattern(s, x)
  {
    if x in s.actions {
      assert PatternCovers(x, x);
    } else {
      var p :| p in Patterns(s) && PatternMatches(p, x);
      assert PatternCovers(p, x);
    }
  }

  lemma CoversOn(s: Scope, mid: Scope, p: string)
    requires PlainActions(s) && PlainActions(mid) && HasActionNarrowing(s)
    requires ContainsActions(s, mid) && CoversPattern(mid, p)
    ensures CoversPattern(s, p)
  {
    if q :| q in Patterns(mid) && PatternCovers(q, p) {
      assert CoversPattern(s, q);
      if r :| r in Patterns(s) && PatternCovers(r, q) {
        CoversIsTransitive(r, q, p);
      } else {
        var a :| a in s.actions && PatternCovers(a, q);
        CoversIsTransitive(a, q, p);
      }
    } else {
      var a :| a in mid.actions && PatternCovers(a, p);
      AllowedIsCovered(s, p);
    }
  }

  lemma ContainsIsTransitive(a: Scope, b: Scope, c: Scope)
    requires PlainActions(a) && PlainActions(b) && Contains(a, b) && Contains(b, c)
    ensures Contains(a, c)
  {
    if HasActionNarrowing(a) {
      forall p | p in Patterns(c) ensures CoversPattern(a, p) { CoversOn(a, b, p); }
      forall x | x in c.actions ensures ActionAllowed(a, x) {
        if x !in b.actions {
          var p :| p in Patterns(b) && PatternMatches(p, x);
          CoveredIsAllowed(a, p, x);
        }
      }
    }
  }

  /** A starred action key breaks soundness: containment reads it as a pattern, requests do not. */
  lemma StarredActionBreaksSoundness(parent: Scope, child: Scope, t: Target)
    requires parent == FULL.(actions := {"x*"}) && child == FULL.(tools := ["x*"])
    ensures Contains(parent, child) && Allow(child, "xy", t) && !Allow(parent, "xy", t)
  {
    var star := "x*";
    assert PatternCovers(star, star) && star in parent.actions;
    assert Patterns(child) == [star];
    assert Stem(star) == "x" && Stem(star) <= "xy";
    assert star in Patterns(child) && PatternMatches(star, "xy");
    assert "xy"[1] != star[1];
  }

  /** Nor do starred keys keep containment transitive, neither in the outer scope nor in the middle one. */
  lemma StarredActionBreaksTransitivity()
    ensures var a, b, c := FULL.(actions := {"x*"}), FULL.(tools := ["xy"]), FULL.(actions := {"xy"});
            Contains(a, b) && Contains(b, c) && !Contains(a, c)
    ensures var a, b, c := FULL.(tools := ["x**"]), FULL.(actions := {"x*"}), FULL.(tools := ["xy"]);
            Contains(a, b) && Contains(b, c) && !Contains(a, c)
  {
    var star, two, xy := "x*", "x**", "xy";
    assert Stem(star) == "x" && Stem(two) == "x*";
    assert star[1] != xy[1];
    StarredOuter(star, xy);
    StarredMiddle(star, two, xy);
  }

  lemma StarredOuter(star: string, xy: string)
    requires star == "x*" && xy == "xy" && Stem(star) == "x"
    ensures var a, b, c := FULL.(actions := {star}), FULL.(tools := [xy]), FULL.(actions := {xy});
            Contains(a, b) && Contains(b, c) && !Contains(a, c)
  {
    var a, b, c := FULL.(actions := {star}), FULL.(tools := [xy]), FULL.(actions := {xy});
    assert Patterns(a) == [] && Patterns(b) == [xy] && Patterns(c) == [];
    assert star in a.actions && PatternCovers(star, xy);
    assert xy in Patterns(b) && PatternMatches(xy, xy);
    assert xy in c.actions && star[1] != xy[1];
  }

  lemma StarredMiddle(star: string, two: string, xy: string)
    requires star == "x*" && two == "x**" && xy == "xy" && Stem(star) == "x" && Stem(two) == "x*"
    ensures var a, b, c := FULL.(tools := [two]), FULL.(actions := {star}), FULL.(tools := [xy]);
            Contains(a, b) && Contains(b, c) && !Contains(a, c)
  {
    var a, b, c := FULL.(tools := [two]), FULL.(actions := {star}), FULL.(tools := [xy]);
    assert Patterns(a) == [two] && Patterns(b) == [] && Patterns(c) == [xy];
    assert two in Patterns(a) && PatternMatches(two, star);
    assert star in b.actions && PatternCovers(star, xy);
    assert xy in Patterns(c) && !PatternCovers(two, xy) by { assert "x*"[1] != xy[1]; }
  }

  // ---------------------------------------------------------------- target containment is exact

  lemma {:induction false} LongerThanAll(s: set<string>) returns (n: nat)
    ensures forall x | x in s :: |x| <= n
    decreases s
  {
    if s == {} {
      n := 0;
    } else {
      var x :| x in s;
      var m := LongerThanAll(s - {x});
      n := Max(m, |x|);
    }
  }

  lemma FreshString(s: set<string>) returns (x: string)
    ensures x !in s
  {
    var n := LongerThanAll(s);
    x := seq(n + 1, i => 'a');
  }

  /** Targets: containment holds exactly when every target the child allows the parent allows. */
  lemma TargetContainmentIsExact(s: Scope, child: Scope)
    ensures ContainsTargets(s, child) <==> forall t :: TargetAllowed(child, t) ==> TargetAllowed(s, t)
  {
    if !ContainsTargets(s, child) {
      var area := FreshString(s.targets.areaSet);
      var class_ := FreshString(s.targets.classSet);
      var id := FreshString(s.targets.entitySet);
      var outside := Target("entity", id, area, class_);
      if SelectorEmpty(child.targets) || child.targets.matchAny {
        assert TargetAllowed(child, outside) && !TargetAllowed(s, outside);
      } else if x :| x in child.targets.areaSet && x !in s.targets.areaSet {
        assert TargetAllowed(child, outside.(area := x)) && !TargetAllowed(s, outside.(area := x));
      } else if x :| x in child.targets.classSet && x !in s.targets.classSet {
        assert TargetAllowed(child, outside.(class_ := x)) && !TargetAllowed(s, outside.(class_ := x));
      } else {
        var x :| x in child.targets.entitySet && x !in s.targets.entitySet;
        assert TargetAllowed(child, outside.(id := x)) && !TargetAllowed(s, outside.(id := x));
      }
    }
  }

  /** Actions: the check is stricter than its meaning; `*` allows all yet does not contain a full scope. */
  lemma ActionContainmentIsStricter(parent: Scope, action: string)
    requires parent == FULL.(tools := ["*"])
    ensures ActionAllowed(parent, action) && !ContainsActions(parent, FULL)
  {
    assert Patterns(parent) == ["*"] && Stem("*") == "";
    assert "*" in Patterns(parent) && PatternMatches("*", action);
  }

  // ---------------------------------------------------------------- minting

  datatype ScopeRequest = ScopeRequest(
    tools: seq<string>, services: seq<string>, areas: seq<string>, classes: seq<string>, entityIds: seq<string>)

  datatype MintError = Invalid | Broader

  function Stars(p: string): nat { if |p| == 0 then 0 else Stars(p[..|p| - 1]) + (if p[|p| - 1] == '*' then 1 else 0) }

  /** Not empty, and at most one star, at the end. */
  predicate ValidPattern(p: string) {
    p != "" && (Stars(p) == 0 || (Stars(p) == 1 && Wild(p)))
  }

  lemma {:induction false} NoStars(p: string)
    ensures Stars(p) == 0 <==> '*' !in p
  {
    if |p| > 0 {
      NoStars(p[..|p| - 1]);
      assert p == p[..|p| - 1] + [p[|p| - 1]];
    }
  }

  /** A pattern is valid when it is not empty and no star comes before its last character. */
  lemma ValidPatternMeans(p: string)
    ensures ValidPattern(p) <==> p != "" && '*' !in p[..|p| - 1]
  {
    NoStars(p);
    if p != "" {
      NoStars(p[..|p| - 1]);
      assert p == p[..|p| - 1] + [p[|p| - 1]];
    }
  }

  predicate ValidRequest(r: ScopeRequest) {
    && (forall p | p in r.tools :: ValidPattern(p)) && (forall p | p in r.services :: ValidPattern(p))
    && "" !in r.areas && "" !in r.classes && "" !in r.entityIds
  }

  /** A missing request asks for the full scope. */
  function CompileScope(r: Option<ScopeRequest>): (s: Result<Scope, MintError>)
    ensures s.Ok? <==> r.None? || ValidRequest(r.value)
    ensures s.Ok? ==> s.value.actions == {} && !s.value.targets.matchAny
    ensures r.None? ==> s.Ok? && forall action, t :: Allow(s.value, action, t)
    ensures s.Ok? && r.Some? ==> s.value.tools == r.value.tools && s.value.services == r.value.services
    ensures s.Err? ==> s.error == Invalid
  {
    match r
    case None => Ok(FULL)
    case Some(q) =>
      if !ValidRequest(q) then Err(Invalid)
      else
        var targets := CompiledSelector("", ToSet(q.areas), ToSet(q.classes), ToSet(q.entityIds), false);
        Ok(Scope({}, q.tools, q.services, targets))
  }

  /** What a compiled request allows, read off the request: its patterns and its lists, each open when empty. */
  lemma CompiledScopeMeans(q: ScopeRequest, action: string, t: Target)
    requires ValidRequest(q)
    ensures Allow(CompileScope(Some(q)).value, action, t) <==>
            && (q.tools + q.services == [] || exists p :: p in q.tools + q.services && PatternMatches(p, action))
            && (q.areas + q.classes + q.entityIds == []
                || t.area in q.areas || t.class_ in q.classes || t.id in q.entityIds)
  {
    var s := CompileScope(Some(q)).value;
    assert |q.areas| > 0 ==> q.areas[0] in s.targets.areaSet;
    assert |q.classes| > 0 ==> q.classes[0] in s.targets.classSet;
    assert |q.entityIds| > 0 ==> q.entityIds[0] in s.targets.entitySet;
  }

  predicate EmptyRequest(r: Option<ScopeRequest>) {
    r.None? || (|r.value.tools| == 0 && |r.value.services| == 0
                && |r.value.areas| == 0 && |r.value.classes| == 0 && |r.value.entityIds| == 0)
  }

  /** What is stored with the token, and what a later request reads back. */
  function Blob(r: Option<ScopeRequest>): Option<ScopeRequest> { if EmptyRequest(r) then None else r }

  function Decode(blob: Option<ScopeRequest>): Result<Scope, MintError> {
    if blob.None? then Ok(FULL) else CompileScope(blob)
  }

  /** The scope checked when a token is minted is the scope its holder gets. */
  lemma MintedScopeIsEnforced(r: Option<ScopeRequest>)
    requires CompileScope(r).Ok?
    ensures Decode(Blob(r)) == CompileScope(r)
    ensures EmptyRequest(r) <==> CompileScope(r).value == FULL
  {
    if r.Some? {
      var s := CompileScope(r).value;
      assert |r.value.areas| > 0 ==> r.value.areas[0] in s.targets.areaSet;
      assert |r.value.classes| > 0 ==> r.value.classes[0] in s.targets.classSet;
      assert |r.value.entityIds| > 0 ==> r.value.entityIds[0] in s.targets.entitySet;
      assert |r.value.areas| == 0 ==> s.targets.areaSet == {};
      assert |r.value.classes| == 0 ==> s.targets.classSet == {};
      assert |r.value.entityIds| == 0 ==> s.targets.entitySet == {};
    }
  }

  /** Minting under a token requires the new scope to lie inside the token's own. */
  function Mint(parent: Option<Scope>, r: Option<ScopeRequest>): Result<Scope, MintError> {
    match CompileScope(r)
    case Err(e) => Err(e)
    case Ok(s) => if parent.Some? && !Contains(parent.value, s) then Err(Broader) else Ok(s)
  }

  /** When a token is minted, and which complaint comes otherwise. */
  lemma MintSucceedsIff(parent: Option<Scope>, r: Option<ScopeRequest>)
    ensures Mint(parent, r).Ok? <==>
            && (r.None? || ValidRequest(r.value))
            && (parent.None? || Contains(parent.value, CompileScope(r).value))
    ensures Mint(parent, r).Ok? ==> Mint(parent, r) == CompileScope(r)
    ensures r.Some? && !ValidRequest(r.value) ==> Mint(parent, r) == Err(Invalid)
    ensures Mint(parent, r) == Err(Broader) ==> parent.Some? && (r.None? || ValidRequest(r.value))
  {
  }

  /** A holder can always mint a token with exactly its own scope. */
  lemma OwnScopeCanBeMinted(r: Option<ScopeRequest>, s: Scope)
    requires Mint(None, r) == Ok(s)
    ensures Mint(Some(s), r) == Ok(s)
  {
    ContainsIsReflexive(s);
  }

  /** Each scope after the first was minted under the one before. */
  ghost predicate Chain(scopes: seq<Scope>, requests: seq<Option<ScopeRequest>>) {
    && |scopes| == |requests| > 0
    && Mint(None, requests[0]) == Ok(scopes[0])
    && forall i | 0 < i < |scopes| :: Mint(Some(scopes[i - 1]), requests[i]) == Ok(scopes[i])
  }

  /** Along any chain of mints a later scope is contained in, and allows no more than, an earlier one. */
  lemma {:induction false} ChainNarrows(scopes: seq<Scope>, requests: seq<Option<ScopeRequest>>, i: nat, j: nat)
    requires Chain(scopes, requests) && i <= j < |scopes|
    ensures Contains(scopes[i], scopes[j])
    ensures forall action, t | Allow(scopes[j], action, t) :: Allow(scopes[i], action, t)
    decreases j - i
  {
    forall k | 0 <= k < |scopes| ensures PlainActions(scopes[k]) {
      assert scopes[k].actions == {} by { if k > 0 { assert Mint(Some(scopes[k - 1]), requests[k]) == Ok(scopes[k]); } }
    }
    if i == j {
      ContainsIsReflexive(scopes[i]);
    } else {
      ChainNarrows(scopes, requests, i, j - 1);
      assert Mint(Some(scopes[j - 1]), requests[j]) == Ok(scopes[j]);
      ContainsIsTransitive(scopes[i], scopes[j - 1], scopes[j]);
    }
    forall action, t | Allow(scopes[j], action, t) ensures Allow(scopes[i], action, t) {
      ContainsIsSound(scopes[i], scopes[j], action, t);
    }
  }
}
