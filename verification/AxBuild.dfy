/**
 * The filtered accessibility tree: which nodes are retained, and how retained nodes are
 * reconnected to the nearest retained ancestor.
 */
module AxBuild {
  import opened Options
  import opened AxWalk
  import opened AxOrder

  datatype Settings = Settings(compact: bool, interactiveOnly: bool, maxNodes: nat)

  datatype Tree = Tree(nodes: seq<Node>, filteredCount: nat, rawCount: nat, rootIds: seq<Id>, truncated: bool,
                       omitted: nat, missingChildCount: nat)

  const ROOT_ROLES := {"rootwebarea", "webarea", "document", "application"}
  const DECORATIVE_ROLES := {"none", "presentation"}
  const TEXT_FRAGMENT_ROLES := {"inlinetextbox", "linebreak"}

  // ---- recorded parents ----

  type Parents = map<Id, Id>

  /** The parent of a node is the first node in document order that lists it. */
  function ParentsOf(ordered: seq<Node>, known: set<Id>): Parents {
    map id | id in known && FirstLister(ordered, id) < |ordered| :: ordered[FirstLister(ordered, id)].id
  }

  function ParentOf(parents: Parents, id: Id): Option<Id> {
    if id in parents then Some(parents[id]) else None
  }

  function Missing(children: seq<Id>, known: set<Id>): nat {
    if children == [] then 0 else Missing(children[..|children| - 1], known) + if children[|children| - 1] in known then 0 else 1
  }

  function MissingAll(nodes: seq<Node>, known: set<Id>): nat {
    if nodes == [] then 0 else MissingAll(nodes[..|nodes| - 1], known) + Missing(nodes[|nodes| - 1].childIds, known)
  }

  lemma {:induction false} FirstListerSnoc(nodes: seq<Node>, n: Node, id: Id)
    ensures FirstLister(nodes + [n], id) ==
      if FirstLister(nodes, id) < |nodes| then FirstLister(nodes, id) else if id in n.childIds then |nodes| else |nodes| + 1
    decreases |nodes|
  {
    if nodes == [] {
      assert (nodes + [n])[1..] == [];
    } else {
      assert (nodes + [n])[1..] == nodes[1..] + [n];
      FirstListerSnoc(nodes[1..], n, id);
    }
  }

  /** The parents once some nodes, and some children of a further node, have been read. */
  function WithChildren(parents: Parents, id: Id, children: seq<Id>, known: set<Id>): Parents {
    map c | c in known && (c in parents || c in children) :: if c in parents then parents[c] else id
  }

  lemma ChildRecorded(parents: Parents, id: Id, children: seq<Id>, known: set<Id>, c: Id)
    requires parents.Keys <= known
    ensures WithChildren(parents, id, [], known) == parents
    ensures var p := WithChildren(parents, id, children, known);
      WithChildren(parents, id, children + [c], known) == if c in known && c !in p then p[c := id] else p
  {
    var p := WithChildren(parents, id, children, known);
    var q := WithChildren(parents, id, children + [c], known);
    var r := if c in known && c !in p then p[c := id] else p;
    assert forall x :: x in children + [c] <==> x in children || x == c;
    assert q.Keys == r.Keys;
  }

  lemma NodeRecordedFor(nodes: seq<Node>, n: Node, known: set<Id>, id: Id)
    ensures ParentOf(WithChildren(ParentsOf(nodes, known), n.id, n.childIds, known), id) == ParentOf(ParentsOf(nodes + [n], known), id)
    ensures id in ParentsOf(nodes, known) ==> id in known
  {
    hide FirstLister;
    FirstListerSnoc(nodes, n, id);
  }

  lemma NodeRecorded(nodes: seq<Node>, n: Node, known: set<Id>)
    ensures WithChildren(ParentsOf(nodes, known), n.id, n.childIds, known) == ParentsOf(nodes + [n], known)
    ensures ParentsOf(nodes, known).Keys <= known
  {
    hide FirstLister, WithChildren, ParentsOf;
    var p, q := WithChildren(ParentsOf(nodes, known), n.id, n.childIds, known), ParentsOf(nodes + [n], known);
    forall id
      ensures ParentOf(p, id) == ParentOf(q, id)
      ensures id in ParentsOf(nodes, known) ==> id in known
    {
      NodeRecordedFor(nodes, n, known, id);
    }
    assert forall id :: (id in p <==> ParentOf(p, id).Some?) && (id in q <==> ParentOf(q, id).Some?);
    assert p.Keys == q.Keys;
  }

  method RecordParents(ordered: seq<Node>, known: set<Id>) returns (parents: Parents, missing: nat)
    ensures parents == ParentsOf(ordered, known)
    ensures missing == MissingAll(ordered, known)
  {
    hide FirstLister, ParentsOf, WithChildren;
    parents, missing := map[], 0;
    NoParents(ordered, known);
    for i := 0 to |ordered|
      invariant parents == ParentsOf(ordered[..i], known)
      invariant missing == MissingAll(ordered[..i], known)
    {
      var n := ordered[i];
      ghost var before := parents;
      assert ordered[..i + 1] == ordered[..i] + [n] && ordered[..i + 1][..i] == ordered[..i];
      NodeRecorded(ordered[..i], n, known);
      ChildRecorded(before, n.id, [], known, n.id);
      for c := 0 to |n.childIds|
        invariant parents == WithChildren(before, n.id, n.childIds[..c], known)
        invariant missing == MissingAll(ordered[..i], known) + Missing(n.childIds[..c], known)
      {
        assert n.childIds[..c + 1] == n.childIds[..c] + [n.childIds[c]] && n.childIds[..c + 1][..c] == n.childIds[..c];
        ChildRecorded(before, n.id, n.childIds[..c], known, n.childIds[c]);
        if n.childIds[c] !in known {
          missing := missing + 1;
        } else if n.childIds[c] !in parents {
          parents := parents[n.childIds[c] := n.id];
        }
      }
      assert n.childIds[..|n.childIds|] == n.childIds;
    }
    assert ordered[..|ordered|] == ordered;
  }

  lemma NoParents(ordered: seq<Node>, known: set<Id>)
    ensures ParentsOf(ordered[..0], known) == map[] && MissingAll(ordered[..0], known) == 0
  {}

  // ---- the filter ----

  predicate Meaningful(n: Node) {
    && !n.ignored && n.role !in DECORATIVE_ROLES
    && (n.semanticInteractive || n.role in ROOT_ROLES || n.readable != "" || n.description != "" || n.value != "")
  }

  predicate RepeatsParent(n: Node, parent: Option<Node>) {
    n.role in TEXT_FRAGMENT_ROLES || (n.role == "statictext" && parent.Some? && parent.value.name == n.name)
  }

  predicate Retained(n: Node, m: NodeMap, parents: Parents, o: Settings) {
    if o.interactiveOnly then n.semanticInteractive && !n.ignored
    else if !o.compact then true
    else
      Meaningful(n) &&
      !RepeatsParent(n, if n.id in parents && parents[n.id] in m then Some(m[parents[n.id]]) else None)
  }

  function Filter(nodes: seq<Node>, m: NodeMap, parents: Parents, o: Settings): seq<Node> {
    if nodes == [] then [] else
      var last := nodes[|nodes| - 1];
      Filter(nodes[..|nodes| - 1], m, parents, o) + if Retained(last, m, parents, o) then [last] else []
  }

  // ---- the nearest retained ancestor ----

  function Climb(parents: Parents, kept: set<Id>, at: Option<Id>, visited: set<Id>): Option<Id>
    decreases if at.None? then 0 else 1 + |parents.Keys - visited|
  {
    if at.None? || at.value in kept then at
    else if at.value in visited then None
    else
      ClimbShrinks(parents, at.value, visited);
      Climb(parents, kept, ParentOf(parents, at.value), visited + {at.value})
  }

  lemma ClimbShrinks(parents: Parents, id: Id, visited: set<Id>)
    requires id !in visited
    ensures id in parents ==> |parents.Keys - (visited + {id})| < |parents.Keys - visited|
  {
    if id in parents {
      assert parents.Keys - (visited + {id}) == parents.Keys - visited - {id};
    }
  }

  function Nearest(parents: Parents, kept: set<Id>, id: Id): Option<Id> {
    Climb(parents, kept, ParentOf(parents, id), {})
  }

  /** The ancestor k links up, if there is one. */
  function Up(parents: Parents, id: Id, k: nat): Option<Id> {
    if k == 0 then Some(id)
    else match Up(parents, id, k - 1)
      case None => None
      case Some(p) => ParentOf(parents, p)
  }

  /** p is the first retained id above id, or None when no id above it is retained. */
  ghost predicate IsNearest(parents: Parents, kept: set<Id>, id: Id, p: Option<Id>) {
    match p
    case Some(_) => exists k: nat :: 1 <= k && Up(parents, id, k) == p && IsKept(kept, p) && NoneKept(parents, kept, id, k)
    case None => forall k: nat :: 1 <= k ==> !IsKept(kept, Up(parents, id, k))
  }

  predicate IsKept(kept: set<Id>, p: Option<Id>) {
    p.Some? && p.value in kept
  }

  predicate NoneKept(parents: Parents, kept: set<Id>, id: Id, k: nat) {
    forall j: nat :: 1 <= j < k ==> !IsKept(kept, Up(parents, id, j))
  }

  predicate At(parents: Parents, id: Id, k: nat, x: Id) {
    Up(parents, id, k) == Some(x)
  }

  /** What the climb has passed: every id up to the k-th, none of them retained. */
  ghost predicate Passed(parents: Parents, id: Id, k: nat, visited: set<Id>) {
    forall x :: x in visited <==> exists j: nat :: 1 <= j < k && At(parents, id, j, x)
  }

  lemma {:induction false} UpCycles(parents: Parents, id: Id, k: nat, visited: set<Id>, i: nat)
    requires k >= 1 && Passed(parents, id, k, visited)
    requires Up(parents, id, k).None? || Up(parents, id, k).value in visited
    requires i >= 1
    ensures Up(parents, id, i).None? || Up(parents, id, i).value in visited
  {
    hide Up;
    if i == 1 {
      if k > 1 && Up(parents, id, 1).Some? {
        assert At(parents, id, 1, Up(parents, id, 1).value);
      }
    } else {
      UpCycles(parents, id, k, visited, i - 1);
      UpStep(parents, id, i);
      if Up(parents, id, i - 1).Some? {
        var x := Up(parents, id, i - 1).value;
        var j: nat :| 1 <= j < k && At(parents, id, j, x);
        UpStep(parents, id, j + 1);
        if j + 1 < k && Up(parents, id, j + 1).Some? {
          assert At(parents, id, j + 1, Up(parents, id, j + 1).value);
        }
      }
    }
  }

  lemma UpStep(parents: Parents, id: Id, k: nat)
    requires k >= 1
    ensures Up(parents, id, k) == match Up(parents, id, k - 1) case None => None case Some(p) => ParentOf(parents, p)
  {}

  /** The climb gave up, so nothing above id is retained. */
  lemma NothingKept(parents: Parents, kept: set<Id>, id: Id, k: nat, visited: set<Id>)
    requires k >= 1 && Passed(parents, id, k, visited) && NoneKept(parents, kept, id, k)
    requires Up(parents, id, k).None? || Up(parents, id, k).value in visited
    ensures IsNearest(parents, kept, id, None)
  {
    hide Up;
    forall i: nat | 1 <= i
      ensures !IsKept(kept, Up(parents, id, i))
    {
      UpCycles(parents, id, k, visited, i);
      if Up(parents, id, i).Some? {
        var j: nat :| 1 <= j < k && At(parents, id, j, Up(parents, id, i).value);
        assert !IsKept(kept, Up(parents, id, j));
      }
    }
  }

  lemma {:induction false} ClimbMeans(parents: Parents, kept: set<Id>, id: Id, k: nat, visited: set<Id>)
    requires k >= 1 && Passed(parents, id, k, visited) && NoneKept(parents, kept, id, k)
    ensures IsNearest(parents, kept, id, Climb(parents, kept, Up(parents, id, k), visited))
    decreases if Up(parents, id, k).None? then 0 else 1 + |parents.Keys - visited|
  {
    hide Up, Passed, IsNearest, NoneKept;
    var at := Up(parents, id, k);
    if at.None? || (at.value !in kept && at.value in visited) {
      NothingKept(parents, kept, id, k, visited);
    } else if at.value in kept {
      FoundKept(parents, kept, id, k);
    } else {
      UpStep(parents, id, k + 1);
      ClimbShrinks(parents, at.value, visited);
      PassedOn(parents, id, k, visited);
      NoneKeptOn(parents, kept, id, k);
      ClimbMeans(parents, kept, id, k + 1, visited + {at.value});
    }
  }

  lemma NoneKeptOn(parents: Parents, kept: set<Id>, id: Id, k: nat)
    requires NoneKept(parents, kept, id, k) && !IsKept(kept, Up(parents, id, k))
    ensures NoneKept(parents, kept, id, k + 1)
  {
    hide Up, IsKept;
  }

  lemma FoundKept(parents: Parents, kept: set<Id>, id: Id, k: nat)
    requires k >= 1 && IsKept(kept, Up(parents, id, k)) && NoneKept(parents, kept, id, k)
    ensures IsNearest(parents, kept, id, Up(parents, id, k))
  {
    hide Up, NoneKept;
  }

  lemma PassedOn(parents: Parents, id: Id, k: nat, visited: set<Id>)
    requires k >= 1 && Passed(parents, id, k, visited) && Up(parents, id, k).Some?
    ensures Passed(parents, id, k + 1, visited + {Up(parents, id, k).value})
  {
    var x := Up(parents, id, k).value;
    assert At(parents, id, k, x) && forall y :: At(parents, id, k, y) ==> y == x;
    hide Up, At;
    forall y
      ensures y in visited + {x} <==> exists j: nat :: 1 <= j < k + 1 && At(parents, id, j, y)
    {
      if y in visited {
        var j: nat :| 1 <= j < k && At(parents, id, j, y);
      }
      if j: nat :| 1 <= j < k + 1 && At(parents, id, j, y) {
        assert j < k || y == x;
      }
    }
  }

  /** The parent a retained node gets is its nearest retained ancestor, cycles or not. */
  lemma NearestMeans(parents: Parents, kept: set<Id>, id: Id)
    ensures IsNearest(parents, kept, id, Nearest(parents, kept, id))
  {
    ClimbMeans(parents, kept, id, 1, {});
  }

  /** The loop that climbs. */
  method FindNearest(parents: Parents, kept: set<Id>, id: Id) returns (at: Option<Id>)
    ensures at == Nearest(parents, kept, id)
  {
    at := ParentOf(parents, id);
    var visited: set<Id> := {};
    while at.Some? && at.value !in kept && at.value !in visited
      invariant Climb(parents, kept, at, visited) == Nearest(parents, kept, id)
      decreases if at.None? then 0 else 1 + |parents.Keys - visited|
    {
      ClimbShrinks(parents, at.value, visited);
      visited := visited + {at.value};
      at := ParentOf(parents, at.value);
    }
    if at.Some? && at.value !in kept {
      at := None;
    }
  }
}
