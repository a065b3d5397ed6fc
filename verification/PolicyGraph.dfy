/**
 The two graph closures of the policy compiler: role inheritance, which must refuse
 cycles, and area expansion, which must tolerate them.
 */
module PolicyGraph {
  import opened Basics

  /** Outgoing edges per node; a node without an entry has none. */
  type Graph = map<string, seq<string>>

  function Succ(g: Graph, n: string): seq<string> { if n in g then g[n] else [] }

  ghost predicate IsPath(g: Graph, p: seq<string>) {
    |p| > 0 && forall i | 0 <= i < |p| - 1 :: p[i + 1] in Succ(g, p[i])
  }

  /** `b` can be reached from `a` in zero or more steps. */
  ghost predicate Reach(g: Graph, a: string, b: string) {
    exists p :: IsPath(g, p) && p[0] == a && p[|p| - 1] == b
  }

  ghost predicate Cyclic(g: Graph) {
    exists p :: IsPath(g, p) && |p| > 1 && p[0] == p[|p| - 1]
  }

  lemma ReachSelf(g: Graph, a: string)
    ensures Reach(g, a, a)
  {
    assert IsPath(g, [a]) && [a][0] == a;
  }

  lemma ReachOn(g: Graph, a: string, b: string, c: string)
    requires b in Succ(g, a) && Reach(g, b, c)
    ensures Reach(g, a, c)
  {
    var p :| IsPath(g, p) && p[0] == b && p[|p| - 1] == c;
    var q := [a] + p;
    assert forall i | 1 <= i < |q| :: q[i] == p[i - 1];
    assert IsPath(g, q) && q[0] == a && q[|q| - 1] == c;
  }

  /** A set closed under edges holds whatever can be reached from it. */
  lemma {:induction false} ClosedHolds(g: Graph, closed: set<string>, p: seq<string>, k: nat)
    requires forall x, y | x in closed && y in Succ(g, x) :: y in closed
    requires IsPath(g, p) && p[0] in closed && k < |p|
    ensures p[k] in closed
  {
    if k > 0 { ClosedHolds(g, closed, p, k - 1); }
  }

  /** Every node that has an entry or is named by one. */
  ghost function Nodes(g: Graph): set<string> {
    g.Keys + set n, i | n in g && 0 <= i < |g[n]| :: g[n][i]
  }

  lemma SuccAreNodes(g: Graph, n: string, c: string)
    requires c in Succ(g, n)
    ensures c in Nodes(g)
  {
    var i :| 0 <= i < |g[n]| && g[n][i] == c;
  }

  // ---------------------------------------------------------------- area expansion

  ghost predicate IsRoot(tree: Graph, decls: seq<string>, r: string) {
    r in tree && ("*" in decls || r in decls)
  }

  /** The areas at or below a declared known area. */
  ghost predicate InAreas(tree: Graph, decls: seq<string>, a: string) {
    exists r :: IsRoot(tree, decls, r) && Reach(tree, r, a)
  }

  class Expansion {
    const tree: Graph
    var out: set<string>

    constructor (t: Graph)
      ensures tree == t && out == {}
    {
      tree, out := t, {};
    }

    /** Everything in `out` beyond `from` has its children in `out` too. */
    ghost predicate ClosedBeyond(from: set<string>)
      reads this
    {
      forall x, y | x in out && x !in from && y in Succ(tree, x) :: y in out
    }

    method WalkDescendants(root: string)
      requires root in Nodes(tree)
      modifies this`out
      ensures old(out) <= out && root in out && ClosedBeyond(old(out))
      ensures forall x | x in out && x !in old(out) :: Reach(tree, root, x) && x in Nodes(tree)
      decreases Nodes(tree) - out
    {
      if root in out {
        return;
      }
      ghost var before := out;
      out := out + {root};
      ReachSelf(tree, root);
      var children, i := Succ(tree, root), 0;
      while i < |children|
        invariant 0 <= i <= |children|
        invariant before + {root} <= out && ClosedBeyond(before + {root})
        invariant forall j | 0 <= j < i :: children[j] in out
        invariant forall x | x in out && x !in before :: Reach(tree, root, x) && x in Nodes(tree)
      {
        SuccAreNodes(tree, root, children[i]);
        ghost var entry := out;
        WalkDescendants(children[i]);
        forall x | x in out && x !in entry ensures Reach(tree, root, x) { ReachOn(tree, root, children[i], x); }
        i := i + 1;
      }
    }

    /** One top-level walk adds exactly what is reachable from `root`. */
    method WalkFrom(root: string)
      requires root in tree && ClosedBeyond({})
      modifies this`out
      ensures ClosedBeyond({})
      ensures forall x :: x in out <==> x in old(out) || Reach(tree, root, x)
    {
      ghost var before := out;
      WalkDescendants(root);
      forall x | Reach(tree, root, x) ensures x in out {
        var p :| IsPath(tree, p) && p[0] == root && p[|p| - 1] == x;
        ClosedHolds(tree, out, p, |p| - 1);
      }
    }

    /** The declaration `*`: every known area is a root. */
    method WalkAll()
      requires ClosedBeyond({})
      modifies this`out
      ensures ClosedBeyond({})
      ensures forall x :: x in out <==> x in old(out) || exists r :: r in tree && Reach(tree, r, x)
    {
      var todo := tree.Keys;
      while todo != {}
        invariant todo <= tree.Keys && ClosedBeyond({})
        invariant forall x :: x in out <==> x in old(out) || exists r :: r in tree && r !in todo && Reach(tree, r, x)
        decreases todo
      {
        var root :| root in todo;
        WalkFrom(root);
        todo := todo - {root};
      }
    }

    /** Expands a list of declarations, in whatever order they come. */
    method ExpandAreas(decls: seq<string>)
      requires out == {}
      modifies this`out
      ensures forall x :: x in out <==> InAreas(tree, decls, x)
    {
      var i := 0;
      while i < |decls|
        invariant 0 <= i <= |decls| && ClosedBeyond({})
        invariant forall x :: x in out <==> InAreas(tree, decls[..i], x)
      {
        ghost var before := out;
        if decls[i] == "*" {
          WalkAll();
        } else if decls[i] in tree {
          WalkFrom(decls[i]);
        }
        OneMoreDecl(tree, decls, i);
        i := i + 1;
      }
      assert decls[..i] == decls;
    }
  }

  lemma OneMoreDecl(tree: Graph, decls: seq<string>, i: nat)
    requires i < |decls|
    ensures forall x :: InAreas(tree, decls[..i + 1], x) <==>
                        || InAreas(tree, decls[..i], x)
                        || (decls[i] == "*" && exists r :: r in tree && Reach(tree, r, x))
                        || (decls[i] in tree && Reach(tree, decls[i], x))
  {
    assert decls[..i + 1] == decls[..i] + [decls[i]];
    var now, next := decls[..i], decls[..i + 1];
    forall r ensures IsRoot(tree, next, r) <==>
                     IsRoot(tree, now, r) || (r in tree && (decls[i] == "*" || r == decls[i])) {}
    forall x | InAreas(tree, next, x)
      ensures || InAreas(tree, now, x)
              || (decls[i] == "*" && exists r :: r in tree && Reach(tree, r, x))
              || (decls[i] in tree && Reach(tree, decls[i], x))
    {
      var r :| IsRoot(tree, next, r) && Reach(tree, r, x);
      if IsRoot(tree, now, r) { assert InAreas(tree, now, x); }
    }
    forall x | InAreas(tree, now, x) ensures InAreas(tree, next, x) {
      var r :| IsRoot(tree, now, r) && Reach(tree, r, x);
      assert IsRoot(tree, next, r);
    }
    assert decls[i] == "*" ==> forall r | r in tree :: IsRoot(tree, next, r);
    assert decls[i] in tree ==> IsRoot(tree, next, decls[i]);
  }

  /** Only which areas are declared matters, not their order or repetition. */
  lemma ExpansionIgnoresOrder(tree: Graph, a: seq<string>, b: seq<string>, x: string)
    requires forall d :: d in a <==> d in b
    ensures InAreas(tree, a, x) <==> InAreas(tree, b, x)
  {
    assert forall r :: IsRoot(tree, a, r) <==> IsRoot(tree, b, r);
  }

  // ---------------------------------------------------------------- role inheritance

  /** Every finished node comes after all the nodes it inherits from. */
  ghost predicate Finished(g: Graph, order: seq<string>) {
    forall i, c | 0 <= i < |order| && c in Succ(g, order[i]) :: c in order[..i]
  }

  ghost function Elements(s: seq<string>): set<string> { set x | x in s }

  ghost predicate Midway(g: Graph, seen: set<string>, path: set<string>, order: seq<string>, stack: seq<string>) {
    && path == Elements(stack) && path <= seen
    && Finished(g, order) && seen == path + Elements(order) && path !! Elements(order)
    && seen <= Nodes(g)
    && (|stack| > 0 ==> IsPath(g, stack))
  }

  lemma Push(g: Graph, seen: set<string>, path: set<string>, order: seq<string>, stack: seq<string>, s: string)
    requires Midway(g, seen, path, order, stack) && s in Nodes(g) && s !in seen
    requires |stack| > 0 ==> s in Succ(g, stack[|stack| - 1])
    ensures Midway(g, seen + {s}, path + {s}, order, stack + [s])
  {
    assert Elements(stack + [s]) == Elements(stack) + {s};
    assert IsPath(g, stack + [s]);
  }

  lemma Pop(g: Graph, seen: set<string>, path: set<string>, order: seq<string>, stack: seq<string>, s: string)
    requires Midway(g, seen, path, order, stack + [s]) && s !in stack
    requires |stack| > 0 ==> IsPath(g, stack)
    requires forall c | c in Succ(g, s) :: c in order
    ensures Midway(g, seen, path - {s}, order + [s], stack)
  {
    assert Elements(stack + [s]) == Elements(stack) + {s};
    assert Elements(order + [s]) == Elements(order) + {s};
    FinishOne(g, order, s);
  }

  class RoleVisitor {
    const roles: Graph
    var seen: set<string>
    var path: set<string>
    ghost var order: seq<string>

    constructor (g: Graph)
      ensures roles == g && seen == {} && path == {} && order == []
    {
      roles, seen, path, order := g, {}, {}, [];
    }

    /** `stack` is the chain of roles being visited; the rest of `seen` is finished. */
    ghost predicate Visiting(stack: seq<string>)
      reads this
    {
      Midway(roles, seen, path, order, stack)
    }

    method Visit(s: string, ghost stack: seq<string>) returns (ok: bool)
      requires Visiting(stack) && s in Nodes(roles)
      requires |stack| > 0 ==> s in Succ(roles, stack[|stack| - 1])
      modifies this
      ensures ok ==> Visiting(stack) && s in order && old(seen) <= seen && old(order) <= order
      ensures ok ==> forall x | x in seen && x !in old(seen) :: Reach(roles, s, x)
      ensures !ok ==> Cyclic(roles)
      decreases Nodes(roles) - seen
    {
      if s in path {
        CycleFound(roles, stack, s);
        return false;
      }
      if s in seen {
        return true;
      }
      ghost var before, stack' := seen, stack + [s];
      seen, path := seen + {s}, path + {s};
      ReachSelf(roles, s);
      Push(roles, before, old(path), order, stack, s);
      var parents, i := Succ(roles, s), 0;
      while i < |parents|
        invariant 0 <= i <= |parents| && Visiting(stack') && before + {s} <= seen && old(order) <= order
        invariant forall j | 0 <= j < i :: parents[j] in order
        invariant forall x | x in seen && x !in before :: Reach(roles, s, x)
      {
        SuccAreNodes(roles, s, parents[i]);
        ghost var entry := seen;
        ok := Visit(parents[i], stack');
        if !ok {
          return false;
        }
        forall x | x in seen && x !in entry ensures Reach(roles, s, x) { ReachOn(roles, s, parents[i], x); }
        i := i + 1;
      }
      Pop(roles, seen, path, order, stack, s);
      order := order + [s];
      path := path - {s};
      return true;
    }
  }

  /** A role met again on the way up closes a cycle. */
  lemma CycleFound(g: Graph, stack: seq<string>, s: string)
    requires |stack| > 0 && IsPath(g, stack) && s in stack && s in Succ(g, stack[|stack| - 1])
    ensures Cyclic(g)
  {
    var i :| 0 <= i < |stack| && stack[i] == s;
    var p := stack[i..] + [s];
    assert IsPath(g, p) && p[0] == s && p[|p| - 1] == s;
  }

  lemma FinishOne(g: Graph, order: seq<string>, s: string)
    requires Finished(g, order) && forall c | c in Succ(g, s) :: c in order
    ensures Finished(g, order + [s])
  {
    var all := order + [s];
    forall i, c | 0 <= i < |all| && c in Succ(g, all[i]) ensures c in all[..i] {
      assert all[..i] == order[..i] || i == |order|;
      assert i == |order| ==> all[..i] == order;
    }
  }

  ghost function FirstIndex(order: seq<string>, x: string): nat
    requires x in order
    ensures FirstIndex(order, x) < |order| && order[FirstIndex(order, x)] == x
    ensures forall j | 0 <= j < |order| && order[j] == x :: FirstIndex(order, x) <= j
  {
    if order[0] == x then 0 else 1 + FirstIndex(order[1..], x)
  }

  /** Along a path inside a finished order the index falls with every step. */
  lemma {:induction false} IndexFalls(g: Graph, order: seq<string>, p: seq<string>, k: nat)
    requires Finished(g, order) && IsPath(g, p) && p[0] in order && k < |p|
    ensures p[k] in order && FirstIndex(order, p[k]) + k <= FirstIndex(order, p[0])
  {
    if k > 0 {
      IndexFalls(g, order, p, k - 1);
      var i := FirstIndex(order, p[k - 1]);
      assert p[k] in order[..i];
      var j :| 0 <= j < i && order[..i][j] == p[k];
      assert order[j] == p[k];
    }
  }

  /** A cycle can be turned to start at any of its roles, and those all have an entry. */
  lemma CycleStartsAtARole(g: Graph, p: seq<string>)
    requires IsPath(g, p) && |p| > 1
    ensures p[0] in g
  {
    assert p[1] in Succ(g, p[0]);
  }

  /**
   Resolves the inherits graph: an error exactly when it has a cycle, and otherwise for
   each role exactly the roles it reaches, itself included.
   */
  method ResolveRoleInheritance(g: Graph) returns (r: Option<map<string, set<string>>>)
    ensures r.None? <==> Cyclic(g)
    ensures r.Some? ==> r.value.Keys == g.Keys
    ensures r.Some? ==> forall role, x | role in g :: x in r.value[role] <==> Reach(g, role, x)
  {
    var out, todo := map[], g.Keys;
    while todo != {}
      invariant todo <= g.Keys && out.Keys == g.Keys - todo
      invariant forall role, x | role in out :: x in out[role] <==> Reach(g, role, x)
      invariant forall p | IsPath(g, p) && |p| > 1 && p[0] in out :: p[0] != p[|p| - 1]
      decreases todo
    {
      var slug :| slug in todo;
      var visitor := new RoleVisitor(g);
      var ok := visitor.Visit(slug, []);
      if !ok {
        return None;
      }
      VisitedIsClosure(g, slug, visitor.order, visitor.seen);
      out := out[slug := visitor.seen];
      todo := todo - {slug};
    }
    if Cyclic(g) {
      var p :| IsPath(g, p) && |p| > 1 && p[0] == p[|p| - 1];
      CycleStartsAtARole(g, p);
    }
    return Some(out);
  }

  lemma VisitedIsClosure(g: Graph, slug: string, order: seq<string>, seen: set<string>)
    requires Finished(g, order) && seen == Elements(order) && slug in order
    requires forall x | x in seen :: Reach(g, slug, x)
    ensures forall x :: x in seen <==> Reach(g, slug, x)
    ensures forall p | IsPath(g, p) && |p| > 1 && p[0] == slug :: p[0] != p[|p| - 1]
  {
    forall p | IsPath(g, p) && p[0] == slug
      ensures p[|p| - 1] in seen && (|p| > 1 ==> p[0] != p[|p| - 1])
    {
      IndexFalls(g, order, p, |p| - 1);
    }
  }
}
