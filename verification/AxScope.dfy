/** The part of a partial accessibility response that belongs to one page node. */
module AxScope {
  import opened Options
  import opened AxWalk
  import opened AxOrder
  import opened AxBuild

  // ---- what is within reach ----

  /** The known nodes at most depth links below the target. */
  function Within(m: NodeMap, target: Id, depth: nat): set<Id> {
    if depth == 0 then {target} else Within(m, target, depth - 1) + Below(m, Within(m, target, depth - 1))
  }

  /** The known children of a set of nodes. */
  function Below(m: NodeMap, ids: set<Id>): set<Id> {
    set c | c in m && exists p :: p in ids && AxWalk.Lists(m, p, c)
  }

  /** A way down from target to id over known nodes. */
  ghost predicate IsPath(m: NodeMap, path: seq<Id>, target: Id, id: Id) {
    && path != [] && path[0] == target && path[|path| - 1] == id
    && forall i :: 0 < i < |path| ==> path[i] in m && AxWalk.Lists(m, path[i - 1], path[i])
  }

  /** Within is reachability in a bounded number of links. */
  lemma {:induction false} WithinIsReach(m: NodeMap, target: Id, depth: nat, id: Id)
    ensures id in Within(m, target, depth) <==> exists path :: IsPath(m, path, target, id) && |path| <= depth + 1
  {
    if id in Within(m, target, depth) {
      var path := PathWithin(m, target, depth, id);
    }
    if path :| IsPath(m, path, target, id) && |path| <= depth + 1 {
      PathStays(m, target, depth, path);
    }
  }

  lemma {:induction false} PathWithin(m: NodeMap, target: Id, depth: nat, id: Id) returns (path: seq<Id>)
    requires id in Within(m, target, depth)
    ensures IsPath(m, path, target, id) && |path| <= depth + 1
  {
    if depth == 0 {
      path := [target];
    } else if id in Within(m, target, depth - 1) {
      path := PathWithin(m, target, depth - 1, id);
    } else {
      var p :| p in Within(m, target, depth - 1) && AxWalk.Lists(m, p, id);
      path := PathWithin(m, target, depth - 1, p);
      path := path + [id];
    }
  }

  lemma {:induction false} PathStays(m: NodeMap, target: Id, depth: nat, path: seq<Id>)
    requires path != [] && IsPath(m, path, target, path[|path| - 1]) && |path| <= depth + 1
    ensures path[|path| - 1] in Within(m, target, depth)
    decreases depth
  {
    if depth > 0 {
      if |path| <= depth {
        PathStays(m, target, depth - 1, path);
      } else {
        PathStays(m, target, depth - 1, path[..|path| - 1]);
        assert AxWalk.Lists(m, path[|path| - 2], path[|path| - 1]);
      }
    }
  }

  lemma {:induction false} WithinSettled(m: NodeMap, target: Id, depth: nat, more: nat)
    requires depth <= more && Below(m, Within(m, target, depth)) <= Within(m, target, depth)
    ensures Within(m, target, more) == Within(m, target, depth)
    decreases more
  {
    if depth < more {
      WithinSettled(m, target, depth, more - 1);
    }
  }

  // ---- the breadth-first levels ----

  /** Everything that the nodes before the frontier list has been included. */
  predicate Explored(m: NodeMap, included: set<Id>, frontier: seq<Id>) {
    Elements(frontier) <= included && Below(m, included - Elements(frontier)) <= included
  }

  /** One level: the new children of the frontier, in order. */
  method NextLevel(m: NodeMap, included: set<Id>, frontier: seq<Id>) returns (all: set<Id>, next: seq<Id>)
    requires Explored(m, included, frontier)
    ensures all == included + Below(m, included)
    ensures Explored(m, all, next)
    ensures next == [] ==> all == included
  {
    all, next := included, [];
    for i := 0 to |frontier|
      invariant included <= all && Elements(next) == all - included
      invariant all == included + Below(m, Elements(frontier[..i]))
    {
      var children := if frontier[i] in m then m[frontier[i]].childIds else [];
      assert frontier[..i + 1] == frontier[..i] + [frontier[i]];
      ghost var before := all;
      for c := 0 to |children|
        invariant included <= all && Elements(next) == all - included
        invariant all == before + set x | x in children[..c] && x in m
      {
        assert children[..c + 1] == children[..c] + [children[c]];
        if children[c] in m && children[c] !in all {
          assert Elements(next + [children[c]]) == Elements(next) + {children[c]};
          all := all + {children[c]};
          next := next + [children[c]];
        }
      }
      assert children[..|children|] == children;
      BelowSnoc(m, frontier[..i], frontier[i]);
    }
    assert frontier[..|frontier|] == frontier;
    BelowSplit(m, included, Elements(frontier));
    if next == [] {
      assert Elements(next) == {};
    }
    assert all - Elements(next) == included;
  }

  lemma BelowSnoc(m: NodeMap, ids: seq<Id>, id: Id)
    ensures Below(m, Elements(ids + [id])) ==
      Below(m, Elements(ids)) + set x | x in (if id in m then m[id].childIds else []) && x in m
  {
    assert Elements(ids + [id]) == Elements(ids) + {id};
  }

  lemma BelowSplit(m: NodeMap, included: set<Id>, frontier: set<Id>)
    requires frontier <= included && Below(m, included - frontier) <= included
    ensures included + Below(m, included) == included + Below(m, frontier)
  {
    forall c | c in Below(m, included)
      ensures c in included + Below(m, frontier)
    {
      var p :| p in included && AxWalk.Lists(m, p, c);
      if p !in frontier {
        assert c in Below(m, included - frontier);
      }
    }
  }

  /** The levels stop early once a level adds nothing. */
  method Descend(m: NodeMap, target: Id, maxDepth: nat) returns (included: set<Id>)
    ensures included == Within(m, target, maxDepth)
  {
    hide Within, Below;
    included := {target};
    var frontier := [target];
    var depth := 0;
    WithinStep(m, target, 0);
    ExploredFirst(m, target);
    while depth < maxDepth && |frontier| > 0
      invariant 0 <= depth <= maxDepth
      invariant included == Within(m, target, depth) && Explored(m, included, frontier)
    {
      WithinStep(m, target, depth);
      included, frontier := NextLevel(m, included, frontier);
      depth := depth + 1;
    }
    if depth < maxDepth {
      assert included - Elements(frontier) == included;
      WithinSettled(m, target, depth, maxDepth);
    }
  }

  lemma WithinStep(m: NodeMap, target: Id, depth: nat)
    ensures Within(m, target, 0) == {target}
    ensures Within(m, target, depth + 1) == Within(m, target, depth) + Below(m, Within(m, target, depth))
  {}

  lemma ExploredFirst(m: NodeMap, target: Id)
    ensures Explored(m, {target}, [target])
  {
    assert {target} - Elements([target]) == {};
  }

  // ---- the ancestors ----

  /** The links to parents with a usable id; an empty id ends the chain. */
  function Usable(parents: Parents): Parents {
    map c | c in parents && parents[c] != "" :: parents[c]
  }

  /** x is some number of links above id. */
  ghost predicate IsAbove(parents: Parents, id: Id, x: Id) {
    exists k: nat :: k >= 1 && At(parents, id, k, x)
  }

  method ClimbAll(parents: Parents, target: Id) returns (visited: set<Id>)
    ensures forall x :: x in visited <==> IsAbove(Usable(parents), target, x)
  {
    hide Up, At;
    var links := Usable(parents);
    var at := ParentOf(links, target);
    visited := {};
    ghost var k := 1;
    FirstUp(links, target);
    while at.Some? && at.value !in visited
      invariant k >= 1 && at == Up(links, target, k) && Passed(links, target, k, visited)
      decreases if at.None? then 0 else 1 + |links.Keys - visited|
    {
      ClimbShrinks(links, at.value, visited);
      PassedOn(links, target, k, visited);
      UpStep(links, target, k + 1);
      visited := visited + {at.value};
      at := ParentOf(links, at.value);
      k := k + 1;
    }
    forall x
      ensures x in visited <==> IsAbove(links, target, x)
    {
      AllPassed(links, target, k, visited, x);
    }
  }

  lemma FirstUp(links: Parents, target: Id)
    ensures Up(links, target, 1) == ParentOf(links, target) && Passed(links, target, 1, {})
  {
    UpStep(links, target, 1);
  }

  lemma AllPassed(links: Parents, target: Id, k: nat, visited: set<Id>, x: Id)
    requires k >= 1 && Passed(links, target, k, visited)
    requires Up(links, target, k).None? || Up(links, target, k).value in visited
    ensures x in visited <==> IsAbove(links, target, x)
  {
    hide Up;
    if IsAbove(links, target, x) {
      var i: nat :| i >= 1 && At(links, target, i, x);
      UpCycles(links, target, k, visited, i);
    }
  }

  // ---- the scope ----

  function ChildIds(nodes: seq<Node>): set<Id> {
    set n, c | n in nodes && c in n.childIds :: c
  }

  /** The first node for the page node, if the response has one. */
  function Target(raw: seq<Node>, backend: int): Option<Node> {
    if raw == [] then None else if raw[0].backend == Some(backend) then Some(raw[0]) else Target(raw[1..], backend)
  }

  /** The target, what is at most maxDepth links below it, and what is above it. */
  ghost predicate InScope(raw: seq<Node>, target: Id, maxDepth: int, id: Id) {
    || (exists path :: IsPath(ById(raw), path, target, id) && |path| <= (if maxDepth < 0 then 0 else maxDepth) + 1)
    || IsAbove(Usable(ParentsOf(raw, ChildIds(raw))), target, id)
  }

  /** s is what is left of nodes when exactly the nodes in scope stay, in order. */
  ghost predicate IsScope(nodes: seq<Node>, s: seq<Node>, raw: seq<Node>, target: Id, maxDepth: int)
    decreases |nodes|
  {
    if nodes == [] then s == [] else
      var last, front := nodes[|nodes| - 1], nodes[..|nodes| - 1];
      if InScope(raw, target, maxDepth, last.id) then s != [] && s[|s| - 1] == last && IsScope(front, s[..|s| - 1], raw, target, maxDepth)
      else IsScope(front, s, raw, target, maxDepth)
  }

  method FindTarget(raw: seq<Node>, backend: int) returns (target: Option<Node>)
    ensures target == Target(raw, backend)
  {
    for i := 0 to |raw|
      invariant Target(raw, backend) == Target(raw[i..], backend)
    {
      assert raw[i..][1..] == raw[i + 1..];
      if raw[i].backend == Some(backend) {
        return Some(raw[i]);
      }
    }
    return None;
  }

  /** Scoping keeps exactly the nodes in scope of the page node, in the order they came. */
  method ScopeNodes(raw: seq<Node>, backend: int, maxDepth: int) returns (scoped: seq<Node>)
    ensures match Target(raw, backend)
      case None => scoped == []
      case Some(target) => IsScope(raw, scoped, raw, target.id, maxDepth)
  {
    hide ById, Within, Target, ParentsOf, IsScope, InScope;
    var m := ById(raw);
    var parents, _ := RecordParents(raw, ChildIds(raw));
    var target := FindTarget(raw, backend);
    if target.None? {
      return [];
    }
    var depth: nat := if maxDepth < 0 then 0 else maxDepth;
    var included := Descend(m, target.value.id, depth);
    var ancestors := ClimbAll(parents, target.value.id);
    included := included + ancestors;
    forall id
      ensures id in included <==> InScope(raw, target.value.id, maxDepth, id)
    {
      InScopeMeans(raw, target.value.id, maxDepth, depth, id);
    }
    scoped := [];
    NoScope(raw, target.value.id, maxDepth);
    for i := 0 to |raw|
      invariant IsScope(raw[..i], scoped, raw, target.value.id, maxDepth)
    {
      assert raw[..i + 1][..i] == raw[..i];
      ScopeStep(raw[..i + 1], scoped, raw, target.value.id, maxDepth);
      if raw[i].id in included {
        scoped := scoped + [raw[i]];
      }
    }
    assert raw[..|raw|] == raw;
  }

  lemma InScopeMeans(raw: seq<Node>, target: Id, maxDepth: int, depth: nat, id: Id)
    requires depth == if maxDepth < 0 then 0 else maxDepth
    ensures InScope(raw, target, maxDepth, id) <==>
      id in Within(ById(raw), target, depth) || IsAbove(Usable(ParentsOf(raw, ChildIds(raw))), target, id)
  {
    hide ById, Within, IsAbove, IsPath, ParentsOf;
    WithinIsReach(ById(raw), target, depth, id);
  }

  lemma NoScope(raw: seq<Node>, target: Id, maxDepth: int)
    ensures IsScope(raw[..0], [], raw, target, maxDepth)
  {}

  lemma ScopeStep(nodes: seq<Node>, s: seq<Node>, raw: seq<Node>, target: Id, maxDepth: int)
    requires nodes != [] && IsScope(nodes[..|nodes| - 1], s, raw, target, maxDepth)
    ensures var last := nodes[|nodes| - 1];
      IsScope(nodes, if InScope(raw, target, maxDepth, last.id) then s + [last] else s, raw, target, maxDepth)
  {
    hide InScope;
    var last := nodes[|nodes| - 1];
    assert (s + [last])[..|s|] == s;
  }
}
