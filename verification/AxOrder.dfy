/**
 * Document order: every root is walked depth first, and nodes that no root reaches
 * keep their place at the end.
 */
module AxOrder {
  import opened Options
  import opened AxWalk

  function Ids(nodes: seq<Node>): seq<Id> {
    IdsOf(nodes, (n: Node) => n.id)
  }

  /** Some node of the list names id as a child. */
  predicate Listed(nodes: seq<Node>, id: Id) {
    exists n :: n in nodes && id in n.childIds
  }

  /** The ids that no node lists, in order. */
  function Roots(nodes: seq<Node>, among: seq<Node>): seq<Id> {
    if among == [] then []
    else (if Listed(nodes, among[0].id) then [] else [among[0].id]) + Roots(nodes, among[1..])
  }

  function Reached(nodes: seq<Node>): seq<Id> {
    Walk(ById(nodes), Roots(nodes, nodes), [])
  }

  function Lookup(m: NodeMap, ids: seq<Id>): (r: seq<Node>)
    requires forall x :: x in ids ==> x in m
    ensures |r| == |ids| && forall i :: 0 <= i < |ids| ==> r[i] == m[ids[i]]
  {
    seq(|ids|, i requires 0 <= i < |ids| => m[ids[i]])
  }

  function Outside(nodes: seq<Node>, ids: seq<Id>): seq<Node> {
    if nodes == [] then []
    else (if nodes[0].id in ids then [] else [nodes[0]]) + Outside(nodes[1..], ids)
  }

  function DocumentOrder(nodes: seq<Node>): seq<Node> {
    WalkDistinct(ById(nodes), Roots(nodes, nodes), []);
    Lookup(ById(nodes), Reached(nodes)) + Outside(nodes, Reached(nodes))
  }

  // ---- the loops ----

  lemma RootsSnoc(nodes: seq<Node>, among: seq<Node>, n: Node)
    ensures Roots(nodes, among + [n]) == Roots(nodes, among) + if Listed(nodes, n.id) then [] else [n.id]
    decreases |among|
  {
    if among == [] {
      assert [n][1..] == [];
    } else {
      assert (among + [n])[1..] == among[1..] + [n];
      RootsSnoc(nodes, among[1..], n);
    }
  }

  lemma OutsideSnoc(nodes: seq<Node>, n: Node, ids: seq<Id>)
    ensures Outside(nodes + [n], ids) == Outside(nodes, ids) + if n.id in ids then [] else [n]
    decreases |nodes|
  {
    if nodes == [] {
      assert [n][1..] == [];
    } else {
      assert (nodes + [n])[1..] == nodes[1..] + [n];
      OutsideSnoc(nodes[1..], n, ids);
    }
  }

  function Reverse(s: seq<Id>): (r: seq<Id>)
    ensures |r| == |s|
  {
    if s == [] then [] else Reverse(s[1..]) + [s[0]]
  }

  lemma ReversePush(s: seq<Id>, t: seq<Id>)
    ensures Reverse(t + s) == Reverse(s) + Reverse(t)
    decreases |t|
  {
    if t == [] {
      assert t + s == s && Reverse(t) == [];
    } else {
      assert (t + s)[1..] == t[1..] + s;
      ReversePush(s, t[1..]);
    }
  }

  lemma ReverseTwice(s: seq<Id>)
    ensures Reverse(Reverse(s)) == s
  {
    if s != [] {
      ReversePush([s[0]], Reverse(s[1..]));
      assert Reverse([s[0]]) == [s[0]];
      ReverseTwice(s[1..]);
    }
  }

  /** Popping the last element and pushing reversed children is taking the first one. */
  lemma PopPush(stack: seq<Id>, children: seq<Id>)
    requires stack != []
    ensures Reverse(stack) == [stack[|stack| - 1]] + Reverse(stack[..|stack| - 1])
    ensures Reverse(stack[..|stack| - 1] + Reverse(children)) == children + Reverse(stack[..|stack| - 1])
  {
    var rest, top := stack[..|stack| - 1], stack[|stack| - 1];
    assert stack == rest + [top];
    ReversePush([top], rest);
    assert Reverse([top]) == [top];
    ReversePush(Reverse(children), rest);
    ReverseTwice(children);
  }

  method PushReversed(stack: seq<Id>, children: seq<Id>) returns (pushed: seq<Id>)
    ensures pushed == stack + Reverse(children)
  {
    pushed := stack;
    var j := |children|;
    while j > 0
      invariant 0 <= j <= |children|
      invariant pushed == stack + Reverse(children[j..])
    {
      j := j - 1;
      assert children[j..] == [children[j]] + children[j + 1..];
      pushed := pushed + [children[j]];
    }
    assert children[0..] == children;
  }

  /** The explicit stack visits what the recursive walk visits, in the same order. */
  method WalkRoot(m: NodeMap, root: Id, ordered: seq<Id>) returns (r: seq<Id>)
    ensures r == Walk(m, [root], ordered)
  {
    hide Walk, Reverse;
    r := ordered;
    var stack := [root];
    SingleReverse(root);
    while |stack| > 0
      invariant Walk(m, Reverse(stack), r) == Walk(m, [root], ordered)
      decreases Left(m, r), |stack|
    {
      var id, rest := stack[|stack| - 1], stack[..|stack| - 1];
      WalkStep(m, id, Reverse(rest), r);
      if id !in m || id in r {
        PopPush(stack, []);
        stack := rest;
      } else {
        PopPush(stack, m[id].childIds);
        VisitShrinks(m, r, id);
        r := r + [id];
        stack := PushReversed(rest, m[id].childIds);
      }
    }
    EmptyWalk(m, r);
  }

  lemma SingleReverse(root: Id)
    ensures Reverse([root]) == [root] && Reverse([]) == []
  {}

  lemma EmptyWalk(m: NodeMap, done: seq<Id>)
    ensures Walk(m, Reverse([]), done) == done
  {}

  method InDocumentOrder(nodes: seq<Node>) returns (ordered: seq<Node>)
    ensures ordered == DocumentOrder(nodes)
  {
    hide Walk, Roots, Outside, Reverse;
    var m := ById(nodes);
    var reached: seq<Id> := [];
    RootsNone(nodes, m);
    for i := 0 to |nodes|
      invariant reached == Walk(m, Roots(nodes, nodes[..i]), [])
    {
      assert nodes[..i + 1] == nodes[..i] + [nodes[i]];
      RootsSnoc(nodes, nodes[..i], nodes[i]);
      if !Listed(nodes, nodes[i].id) {
        WalkConcat(m, Roots(nodes, nodes[..i]), [nodes[i].id], []);
        reached := WalkRoot(m, nodes[i].id, reached);
      } else {
        assert Roots(nodes, nodes[..i]) + [] == Roots(nodes, nodes[..i]);
      }
    }
    assert nodes[..|nodes|] == nodes;
    WalkDistinct(m, Roots(nodes, nodes), []);
    ordered := AppendOutside(nodes, reached, Lookup(m, reached));
  }

  /** Nodes that no root reaches keep their order at the end. */
  method AppendOutside(nodes: seq<Node>, reached: seq<Id>, first: seq<Node>) returns (ordered: seq<Node>)
    ensures ordered == first + Outside(nodes, reached)
  {
    hide Outside;
    ordered := first;
    OutsideNothing(reached);
    for i := 0 to |nodes|
      invariant ordered == first + Outside(nodes[..i], reached)
    {
      assert nodes[..i + 1] == nodes[..i] + [nodes[i]];
      OutsideSnoc(nodes[..i], nodes[i], reached);
      if nodes[i].id !in reached {
        ordered := ordered + [nodes[i]];
      }
    }
    assert nodes[..|nodes|] == nodes;
  }

  lemma OutsideNothing(ids: seq<Id>)
    ensures Outside([], ids) == []
  {}

  lemma RootsNone(nodes: seq<Node>, m: NodeMap)
    ensures Walk(m, Roots(nodes, nodes[..0]), []) == []
  {}

  // ---- permutation ----

  lemma {:induction false} OutsideMembers(nodes: seq<Node>, ids: seq<Id>)
    ensures forall n :: n in Outside(nodes, ids) <==> n in nodes && n.id !in ids
  {
    if nodes != [] {
      OutsideMembers(nodes[1..], ids);
      assert forall n :: n in nodes <==> n == nodes[0] || n in nodes[1..];
    }
  }

  lemma {:induction false} OutsideUnique(nodes: seq<Node>, ids: seq<Id>)
    requires UniqueIds(nodes)
    ensures UniqueIds(Outside(nodes, ids))
  {
    if nodes != [] {
      OutsideUnique(nodes[1..], ids);
      OutsideMembers(nodes[1..], ids);
    }
  }

  /** Each node occurs once, and nothing else does. */
  lemma OrderMembers(nodes: seq<Node>)
    requires UniqueIds(nodes)
    ensures UniqueIds(DocumentOrder(nodes))
    ensures forall n :: n in DocumentOrder(nodes) <==> n in nodes
  {
    hide Walk, Roots, Outside, ById;
    var m, r := ById(nodes), Reached(nodes);
    WalkDistinct(m, Roots(nodes, nodes), []);
    OutsideMembers(nodes, r);
    OutsideUnique(nodes, r);
    var first, last := Lookup(m, r), Outside(nodes, r);
    forall n | n in nodes
      ensures n in first + last
    {
      UniqueLookup(nodes, n);
      if n.id in r {
        var i :| 0 <= i < |r| && r[i] == n.id;
        assert first[i] == n;
      }
    }
    assert forall i, j :: 0 <= i < |first| && 0 <= j < |last| ==> first[i].id in r && last[j] in last;
  }

  lemma {:induction false} UniqueMultiset(a: seq<Node>, b: seq<Node>)
    requires UniqueIds(a) && UniqueIds(b)
    requires forall n :: n in a <==> n in b
    ensures multiset(a) == multiset(b)
  {
    forall n
      ensures multiset(a)[n] == multiset(b)[n]
    {
      UniqueCount(a, n);
      UniqueCount(b, n);
    }
  }

  lemma {:induction false} UniqueCount(a: seq<Node>, n: Node)
    requires UniqueIds(a)
    ensures multiset(a)[n] == if n in a then 1 else 0
  {
    if a != [] {
      assert a == a[..|a| - 1] + [a[|a| - 1]];
      UniqueCount(a[..|a| - 1], n);
    }
  }

  /** Document ordering loses and repeats nothing. */
  lemma OrderIsPermutation(nodes: seq<Node>)
    requires UniqueIds(nodes)
    ensures multiset(DocumentOrder(nodes)) == multiset(nodes)
  {
    hide DocumentOrder;
    OrderMembers(nodes);
    UniqueMultiset(DocumentOrder(nodes), nodes);
  }

  // ---- parents before children ----

  /** The position of the first node that lists id, or the length when none does. */
  function FirstLister(nodes: seq<Node>, id: Id): (k: nat)
    ensures k <= |nodes|
    ensures k < |nodes| ==> id in nodes[k].childIds
    ensures forall j :: 0 <= j < k ==> id !in nodes[j].childIds
  {
    if nodes == [] || id in nodes[0].childIds then 0 else 1 + FirstLister(nodes[1..], id)
  }

  /** The child links are acyclic: rank grows along every link between two nodes. */
  ghost predicate Acyclic(nodes: seq<Node>, rank: map<Id, nat>) {
    forall n, c :: n in nodes && c in n.childIds && c in ById(nodes) ==> n.id in rank && c in rank && rank[n.id] < rank[c]
  }

  lemma {:induction false} RootsMembers(nodes: seq<Node>, among: seq<Node>)
    ensures forall n :: n in among && !Listed(nodes, n.id) ==> n.id in Roots(nodes, among)
    ensures forall id :: id in Roots(nodes, among) ==> !Listed(nodes, id)
  {
    if among != [] {
      RootsMembers(nodes, among[1..]);
      assert forall n :: n in among <==> n == among[0] || n in among[1..];
    }
  }

  /** Without cycles every node is reached from a root. */
  lemma {:induction false} AcyclicReached(nodes: seq<Node>, rank: map<Id, nat>, n: Node)
    requires UniqueIds(nodes) && Acyclic(nodes, rank) && n in nodes
    ensures n.id in Reached(nodes)
    decreases if n.id in rank then rank[n.id] else 0
  {
    hide Walk, Roots, ById;
    var m, r := ById(nodes), Reached(nodes);
    RootsMembers(nodes, nodes);
    WalkCloses(m, Roots(nodes, nodes), []);
    if Listed(nodes, n.id) {
      var p :| p in nodes && n.id in p.childIds;
      AcyclicReached(nodes, rank, p);
      UniqueLookup(nodes, p);
      var i :| 0 <= i < |r| && r[i] == p.id;
      assert Covers(m, m[r[i]].childIds, r);
    }
  }

  lemma {:induction false} OutsideNone(nodes: seq<Node>, ids: seq<Id>)
    requires forall n :: n in nodes ==> n.id in ids
    ensures Outside(nodes, ids) == []
  {
    if nodes != [] {
      OutsideNone(nodes[1..], ids);
    }
  }

  /**
   * Without cycles, a node that some node lists comes after the first node that lists
   * it in document order, which is the parent the tree records for it.
   */
  lemma ParentComesFirst(nodes: seq<Node>, rank: map<Id, nat>, i: nat)
    requires UniqueIds(nodes) && Acyclic(nodes, rank)
    requires i < |DocumentOrder(nodes)| && Listed(nodes, DocumentOrder(nodes)[i].id)
    ensures FirstLister(DocumentOrder(nodes), DocumentOrder(nodes)[i].id) < i
  {
    hide Walk, Roots, Outside, ById;
    var m, r, ordered := ById(nodes), Reached(nodes), DocumentOrder(nodes);
    WalkDistinct(m, Roots(nodes, nodes), []);
    forall n | n in nodes
      ensures n.id in r
    {
      AcyclicReached(nodes, rank, n);
    }
    OutsideNone(nodes, r);
    assert ordered == Lookup(m, r);
    WalkLed(m, Roots(nodes, nodes), []);
    RootsMembers(nodes, nodes);
    assert r[i] == ordered[i].id;
    var j :| 0 <= j < i && AxWalk.Lists(m, r[j], r[i]);
    assert ordered[j].childIds == m[r[j]].childIds;
  }

  /** Where no node is listed by two nodes, every parent comes before its children. */
  lemma TreeParentsComeFirst(nodes: seq<Node>, rank: map<Id, nat>, i: nat, j: nat)
    requires UniqueIds(nodes) && Acyclic(nodes, rank)
    requires forall a, b, c :: a in nodes && b in nodes && c in a.childIds && c in b.childIds ==> a == b
    requires i < |DocumentOrder(nodes)| && j < |DocumentOrder(nodes)|
    requires DocumentOrder(nodes)[i].id in DocumentOrder(nodes)[j].childIds
    ensures j < i
  {
    hide DocumentOrder, FirstLister, Acyclic;
    var ordered := DocumentOrder(nodes);
    OrderMembers(nodes);
    assert ordered[j] in nodes;
    ParentComesFirst(nodes, rank, i);
    var k := FirstLister(ordered, ordered[i].id);
    assert ordered[k] in nodes && ordered[k] == ordered[j];
  }

  function Plain(id: Id, children: seq<Id>): Node {
    Node(id, children, "", "", "", "", "", false, false, None)
  }

  /** The root lists c and p, and p lists c as well. */
  function Shared(): seq<Node> {
    [Plain("r", ["c", "p"]), Plain("c", []), Plain("p", ["c"])]
  }

  lemma RootsStep(nodes: seq<Node>, n: Node, among: seq<Node>)
    ensures Roots(nodes, []) == []
    ensures Roots(nodes, [n] + among) == (if Listed(nodes, n.id) then [] else [n.id]) + Roots(nodes, among)
  {
    assert ([n] + among)[1..] == among;
  }

  lemma SharedListed()
    ensures !Listed(Shared(), "r") && Listed(Shared(), "c") && Listed(Shared(), "p")
  {
    assert Shared()[0] in Shared();
  }

  lemma SharedRoots()
    ensures Roots(Shared(), Shared()) == ["r"]
  {
    hide Roots, Listed;
    SharedListed();
    var nodes := Shared();
    var r, c, p := nodes[0], nodes[1], nodes[2];
    assert nodes == [r] + ([c] + ([p] + []));
    hide Shared;
    RootsStep(nodes, p, []);
    RootsStep(nodes, c, [p] + []);
    RootsStep(nodes, r, [c] + ([p] + []));
  }

  lemma SharedMap()
    ensures ById(Shared()) == map["r" := Shared()[0], "c" := Shared()[1], "p" := Shared()[2]]
  {
    var nodes := Shared();
    assert nodes[..2] == [nodes[0], nodes[1]] && nodes[..2][..1] == [nodes[0]] && nodes[..2][..1][..0] == [];
  }

  lemma SharedWalk()
    ensures Walk(ById(Shared()), ["r"], []) == ["r", "c", "p"]
  {
    hide Walk;
    SharedMap();
    var m := ById(Shared());
    hide ById;
    WalkStep(m, "r", [], []);
    assert ["r"] + [] == ["r"] && ["c", "p"] + [] == ["c"] + ["p"];
    WalkStep(m, "c", ["p"], ["r"]);
    assert [] + ["p"] == ["p"] + [];
    WalkStep(m, "p", [], ["r", "c"]);
    assert ["c"] + [] == ["c"] + [];
    WalkStep(m, "c", [], ["r", "c", "p"]);
    WalkNothing(m, ["r", "c", "p"]);
    assert [] + ["r"] == ["r"] && ["r"] + ["c"] == ["r", "c"] && ["r", "c"] + ["p"] == ["r", "c", "p"];
    assert m["r"].childIds == ["c", "p"] && m["c"].childIds == [] && m["p"].childIds == ["c"];
  }

  lemma WalkNothing(m: NodeMap, done: seq<Id>)
    ensures Walk(m, [], done) == done
  {}

  lemma SharedAcyclic()
    ensures UniqueIds(Shared()) && Acyclic(Shared(), map["r" := 0, "p" := 1, "c" := 2])
  {
    SharedMap();
    hide ById;
    var rank: map<Id, nat> := map["r" := 0, "p" := 1, "c" := 2];
    forall n, c | n in Shared() && c in n.childIds
      ensures n.id in rank && c in rank && rank[n.id] < rank[c]
    {
      assert n == Shared()[0] || n == Shared()[1] || n == Shared()[2];
    }
  }

  /** A node with several parents can precede one of them: p lists c, and comes after it. */
  lemma SharedChildComesFirst()
    ensures UniqueIds(Shared()) && Acyclic(Shared(), map["r" := 0, "p" := 1, "c" := 2])
    ensures Ids(DocumentOrder(Shared())) == ["r", "c", "p"] && "c" in Shared()[2].childIds
  {
    SharedAcyclic();
    SharedRoots();
    SharedWalk();
    hide Walk, ById, Roots, Outside, Acyclic;
    OutsideNone(Shared(), ["r", "c", "p"]);
    assert Reached(Shared()) == ["r", "c", "p"];
  }
}
