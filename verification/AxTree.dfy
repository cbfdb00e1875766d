/**
 * The accessibility tree that is reported, its outline, and what both promise: every
 * retained node once, under its nearest retained ancestor, whatever the cut.
 */
module AxTree {
  import opened Options
  import opened AxWalk
  import opened AxOrder
  import opened AxBuild

  function Named(raw: seq<Node>): seq<Node> {
    if raw == [] then [] else
      Named(raw[..|raw| - 1]) + if raw[|raw| - 1].id != "" then [raw[|raw| - 1]] else []
  }

  /** The nodes whose nearest retained ancestor is p, in document order. */
  function Under(parents: Parents, kept: set<Id>, nodes: seq<Node>, p: Option<Id>): seq<Id> {
    if nodes == [] then [] else
      var last := nodes[|nodes| - 1].id;
      Under(parents, kept, nodes[..|nodes| - 1], p) + if Nearest(parents, kept, last) == p then [last] else []
  }

  function Relinked(parents: Parents, kept: set<Id>, nodes: seq<Node>, all: seq<Node>): (r: seq<Node>)
    ensures |r| == |nodes|
    ensures forall i :: 0 <= i < |nodes| ==> r[i] == nodes[i].(childIds := Under(parents, kept, all, Some(nodes[i].id)))
  {
    seq(|nodes|, i requires 0 <= i < |nodes| => nodes[i].(childIds := Under(parents, kept, all, Some(nodes[i].id))))
  }

  function ParentsIn(ordered: seq<Node>): Parents {
    ParentsOf(ordered, ById(ordered).Keys)
  }

  function KeptOf(ordered: seq<Node>, o: Settings): seq<Node> {
    Filter(ordered, ById(ordered), ParentsIn(ordered), o)
  }

  function Cut(nodes: seq<Node>, max: nat): seq<Node> {
    if |nodes| <= max then nodes else nodes[..max]
  }

  function IdSet(nodes: seq<Node>): set<Id> {
    set n | n in nodes :: n.id
  }

  function TreeOf(raw: seq<Node>, o: Settings): Tree {
    var ordered := DocumentOrder(Named(raw));
    var parents, kept := ParentsIn(ordered), KeptOf(ordered, o);
    var limited := Cut(kept, o.maxNodes);
    Tree(Relinked(parents, IdSet(limited), limited, limited), |kept|, |raw|, Under(parents, IdSet(limited), limited, None),
         |kept| > |limited|, |kept| - |limited|, MissingAll(ordered, ById(ordered).Keys))
  }

  // ---- the construction ----

  method KeepNamed(raw: seq<Node>) returns (nodes: seq<Node>)
    ensures nodes == Named(raw)
  {
    nodes := [];
    for i := 0 to |raw|
      invariant nodes == Named(raw[..i])
    {
      assert raw[..i + 1][..i] == raw[..i];
      if raw[i].id != "" {
        nodes := nodes + [raw[i]];
      }
    }
    assert raw[..|raw|] == raw;
  }

  method KeepRetained(nodes: seq<Node>, m: NodeMap, parents: Parents, o: Settings) returns (kept: seq<Node>)
    ensures kept == Filter(nodes, m, parents, o)
  {
    hide Retained;
    kept := [];
    for i := 0 to |nodes|
      invariant kept == Filter(nodes[..i], m, parents, o)
    {
      assert nodes[..i + 1][..i] == nodes[..i];
      if Retained(nodes[i], m, parents, o) {
        kept := kept + [nodes[i]];
      }
    }
    assert nodes[..|nodes|] == nodes;
  }

  function ChildrenOf(links: map<Id, seq<Id>>, id: Id): seq<Id> {
    if id in links then links[id] else []
  }

  lemma NoneUnder(parents: Parents, kept: set<Id>)
    ensures forall p :: Under(parents, kept, [], p) == []
  {}

  lemma UnderSnoc(parents: Parents, kept: set<Id>, nodes: seq<Node>, i: nat)
    requires i < |nodes|
    ensures forall p ::
      Under(parents, kept, nodes[..i + 1], p) == Under(parents, kept, nodes[..i], p) + if Nearest(parents, kept, nodes[i].id) == p then [nodes[i].id] else []
  {
    hide Nearest;
    assert nodes[..i + 1][..i] == nodes[..i];
  }

  /** The roots and child lists of the retained nodes. */
  method Reconnect(parents: Parents, kept: set<Id>, nodes: seq<Node>) returns (rootIds: seq<Id>, links: map<Id, seq<Id>>)
    ensures rootIds == Under(parents, kept, nodes, None)
    ensures forall id :: ChildrenOf(links, id) == Under(parents, kept, nodes, Some(id))
  {
    hide Nearest, Under;
    rootIds, links := [], map[];
    NoneUnder(parents, kept);
    for i := 0 to |nodes|
      invariant rootIds == Under(parents, kept, nodes[..i], None)
      invariant forall id :: ChildrenOf(links, id) == Under(parents, kept, nodes[..i], Some(id))
    {
      UnderSnoc(parents, kept, nodes, i);
      var id := nodes[i].id;
      var p := FindNearest(parents, kept, id);
      if p.None? {
        rootIds := rootIds + [id];
      } else {
        links := links[p.value := ChildrenOf(links, p.value) + [id]];
      }
    }
    assert nodes[..|nodes|] == nodes;
  }

  // ---- every retained node once ----

  /** All ids that appear as a root or as somebody's child. */
  function AllLinks(nodes: seq<Node>): seq<Id> {
    if nodes == [] then [] else AllLinks(nodes[..|nodes| - 1]) + nodes[|nodes| - 1].childIds
  }

  lemma {:induction false} UnderCount(parents: Parents, kept: set<Id>, nodes: seq<Node>, p: Option<Id>, id: Id)
    ensures multiset(Under(parents, kept, nodes, p))[id] ==
      if Nearest(parents, kept, id) == p then multiset(Ids(nodes))[id] else 0
  {
    hide Nearest;
    if nodes != [] {
      var front, last := nodes[..|nodes| - 1], nodes[|nodes| - 1];
      UnderCount(parents, kept, front, p, id);
      assert Ids(nodes) == Ids(front) + [last.id];
    }
  }

  lemma {:induction false} LinksCount(parents: Parents, kept: set<Id>, some: seq<Node>, nodes: seq<Node>, id: Id)
    requires UniqueIds(some)
    ensures multiset(AllLinks(Relinked(parents, kept, some, nodes)))[id] ==
      if Nearest(parents, kept, id).Some? && Nearest(parents, kept, id).value in IdSet(some) then multiset(Ids(nodes))[id] else 0
  {
    hide Nearest, Under;
    if some != [] {
      var front, last := some[..|some| - 1], some[|some| - 1];
      var r := Relinked(parents, kept, some, nodes);
      LinksCount(parents, kept, front, nodes, id);
      UnderCount(parents, kept, nodes, Some(last.id), id);
      assert r[..|r| - 1] == Relinked(parents, kept, front, nodes);
      assert some == front + [last];
    }
  }

  lemma {:induction false} ClimbEndsKept(parents: Parents, kept: set<Id>, at: Option<Id>, visited: set<Id>)
    ensures var p := Climb(parents, kept, at, visited); p.Some? ==> p.value in kept
    decreases if at.None? then 0 else 1 + |parents.Keys - visited|
  {
    if at.Some? && at.value !in kept && at.value !in visited {
      ClimbShrinks(parents, at.value, visited);
      ClimbEndsKept(parents, kept, ParentOf(parents, at.value), visited + {at.value});
    }
  }

  lemma {:induction false} FilterMembers(nodes: seq<Node>, m: NodeMap, parents: Parents, o: Settings)
    requires UniqueIds(nodes)
    ensures var kept := Filter(nodes, m, parents, o);
      UniqueIds(kept) && forall n :: n in kept <==> n in nodes && Retained(n, m, parents, o)
  {
    hide Retained;
    if nodes != [] {
      var front := nodes[..|nodes| - 1];
      FilterMembers(front, m, parents, o);
      assert nodes == front + [nodes[|nodes| - 1]];
      forall n | n in Filter(front, m, parents, o)
        ensures n.id != nodes[|nodes| - 1].id
      {
        var i :| 0 <= i < |front| && front[i] == n;
      }
    }
  }

  lemma {:induction false} NamedMembers(raw: seq<Node>)
    ensures forall n :: n in Named(raw) <==> n in raw && n.id != ""
    ensures UniqueIds(raw) ==> UniqueIds(Named(raw))
  {
    if raw != [] {
      NamedMembers(raw[..|raw| - 1]);
      assert raw == raw[..|raw| - 1] + [raw[|raw| - 1]];
    }
  }

  lemma KeptUnique(raw: seq<Node>, o: Settings)
    requires UniqueIds(raw)
    ensures UniqueIds(DocumentOrder(Named(raw))) && UniqueIds(KeptOf(DocumentOrder(Named(raw)), o))
    ensures UniqueIds(Cut(KeptOf(DocumentOrder(Named(raw)), o), o.maxNodes))
  {
    hide Named, Filter, DocumentOrder, Retained;
    NamedMembers(raw);
    OrderMembers(Named(raw));
    var ordered := DocumentOrder(Named(raw));
    FilterMembers(ordered, ById(ordered), ParentsIn(ordered), o);
  }

  /** The roots and the child lists together hold each reported node exactly once, and nothing else. */
  lemma RetainedOnce(raw: seq<Node>, o: Settings)
    requires UniqueIds(raw)
    ensures var t := TreeOf(raw, o); multiset(t.rootIds + AllLinks(t.nodes)) == multiset(Ids(t.nodes))
  {
    hide Named, Filter, DocumentOrder, Nearest, Under, ParentsOf;
    KeptUnique(raw, o);
    var ordered := DocumentOrder(Named(raw));
    var parents, limited := ParentsIn(ordered), Cut(KeptOf(ordered, o), o.maxNodes);
    var t := TreeOf(raw, o);
    assert Ids(t.nodes) == Ids(limited);
    forall id
      ensures multiset(t.rootIds + AllLinks(t.nodes))[id] == multiset(Ids(t.nodes))[id]
    {
      UnderCount(parents, IdSet(limited), limited, None, id);
      LinksCount(parents, IdSet(limited), limited, limited, id);
      NearestKept(parents, IdSet(limited), id);
    }
  }

  lemma NearestKept(parents: Parents, kept: set<Id>, id: Id)
    ensures Nearest(parents, kept, id).Some? ==> Nearest(parents, kept, id).value in kept
  {
    ClimbEndsKept(parents, kept, ParentOf(parents, id), {});
  }

  lemma {:induction false} UnderMembers(parents: Parents, kept: set<Id>, nodes: seq<Node>, p: Option<Id>, id: Id)
    ensures id in Under(parents, kept, nodes, p) <==> id in IdSet(nodes) && Nearest(parents, kept, id) == p
  {
    hide Nearest;
    if nodes != [] {
      var front, last := nodes[..|nodes| - 1], nodes[|nodes| - 1];
      UnderMembers(parents, kept, front, p, id);
      assert nodes == front + [last];
    }
  }

  lemma IsNearestUnique(parents: Parents, kept: set<Id>, id: Id, p: Option<Id>, q: Option<Id>)
    requires IsNearest(parents, kept, id, p) && IsNearest(parents, kept, id, q)
    ensures p == q
  {
    hide Up, IsKept;
    if p.Some? && q.Some? {
      var j: nat :| 1 <= j && Up(parents, id, j) == p && IsKept(kept, p) && NoneKept(parents, kept, id, j);
      var k: nat :| 1 <= k && Up(parents, id, k) == q && IsKept(kept, q) && NoneKept(parents, kept, id, k);
      assert j == k;
    }
  }

  /**
   * A reported node hangs under another exactly when that one is the first reported
   * node above it, and is a root exactly when none above it is reported.
   */
  lemma HangsUnderNearest(raw: seq<Node>, o: Settings, n: Node, a: Node)
    requires n in TreeOf(raw, o).nodes && a in TreeOf(raw, o).nodes
    ensures var t, parents := TreeOf(raw, o), ParentsIn(DocumentOrder(Named(raw)));
      && (n.id in a.childIds <==> IsNearest(parents, IdSet(t.nodes), n.id, Some(a.id)))
      && (n.id in t.rootIds <==> IsNearest(parents, IdSet(t.nodes), n.id, None))
  {
    hide Named, Filter, DocumentOrder, Nearest, Under, ParentsOf, IsNearest;
    var t, ordered := TreeOf(raw, o), DocumentOrder(Named(raw));
    var parents, limited := ParentsIn(ordered), Cut(KeptOf(ordered, o), o.maxNodes);
    SameIds(parents, limited);
    UnderMembers(parents, IdSet(limited), limited, Some(a.id), n.id);
    UnderMembers(parents, IdSet(limited), limited, None, n.id);
    NearestMeans(parents, IdSet(limited), n.id);
    forall p | IsNearest(parents, IdSet(limited), n.id, p)
      ensures p == Nearest(parents, IdSet(limited), n.id)
    {
      IsNearestUnique(parents, IdSet(limited), n.id, p, Nearest(parents, IdSet(limited), n.id));
    }
  }

  lemma SameIds(parents: Parents, limited: seq<Node>)
    ensures IdSet(Relinked(parents, IdSet(limited), limited, limited)) == IdSet(limited)
  {
    hide Under;
    var r := Relinked(parents, IdSet(limited), limited, limited);
    forall id
      ensures id in IdSet(r) <==> id in IdSet(limited)
    {
      if id in IdSet(r) {
        var i :| 0 <= i < |r| && r[i].id == id;
        assert limited[i] in limited;
      }
      if id in IdSet(limited) {
        var i :| 0 <= i < |limited| && limited[i].id == id;
        assert r[i] in r;
      }
    }
  }

  // ---- the cut ----

  /**
   * With fewer nodes retained, a node keeps its parent exactly when that parent, if it
   * has one, is still retained; cycles do not matter.
   */
  lemma FewerKeepsParent(parents: Parents, kept: set<Id>, fewer: set<Id>, id: Id)
    requires fewer <= kept
    ensures Nearest(parents, fewer, id) == Nearest(parents, kept, id) <==>
      Nearest(parents, kept, id).None? || Nearest(parents, kept, id).value in fewer
  {
    hide Nearest, Up;
    var p := Nearest(parents, kept, id);
    NearestMeans(parents, kept, id);
    NearestMeans(parents, fewer, id);
    NearestKept(parents, fewer, id);
    if p.None? || p.value in fewer {
      FewerIsNearest(parents, kept, fewer, id, p);
      IsNearestUnique(parents, fewer, id, Nearest(parents, fewer, id), p);
    }
  }

  lemma FewerIsNearest(parents: Parents, kept: set<Id>, fewer: set<Id>, id: Id, p: Option<Id>)
    requires fewer <= kept && IsNearest(parents, kept, id, p) && (p.None? || p.value in fewer)
    ensures IsNearest(parents, fewer, id, p)
  {
    hide Up;
    assert forall q :: IsKept(fewer, q) ==> IsKept(kept, q);
    if p.Some? {
      var k: nat :| 1 <= k && Up(parents, id, k) == p && IsKept(kept, p) && NoneKept(parents, kept, id, k);
      assert NoneKept(parents, fewer, id, k);
    }
  }


  /** Every recorded parent is the id of an earlier node. */
  predicate ParentsBefore(parents: Parents, ordered: seq<Node>) {
    forall i :: 0 <= i < |ordered| && ordered[i].id in parents ==>
      exists j :: 0 <= j < i && ordered[j].id == parents[ordered[i].id]
  }

  lemma AcyclicParentsBefore(nodes: seq<Node>, rank: map<Id, nat>)
    requires UniqueIds(nodes) && Acyclic(nodes, rank)
    ensures ParentsBefore(ParentsIn(DocumentOrder(nodes)), DocumentOrder(nodes))
  {
    hide DocumentOrder, ById, FirstLister, Acyclic;
    var ordered := DocumentOrder(nodes);
    OrderMembers(nodes);
    forall i | 0 <= i < |ordered| && ordered[i].id in ParentsIn(ordered)
      ensures exists j :: 0 <= j < i && ordered[j].id == ParentsIn(ordered)[ordered[i].id]
    {
      var k := FirstLister(ordered, ordered[i].id);
      assert ordered[k] in nodes;
      ParentComesFirst(nodes, rank, i);
      assert k < i;
    }
  }

  /** Below position i the two sets keep the same nodes. */
  predicate AgreeBelow(ordered: seq<Node>, i: nat, a: set<Id>, b: set<Id>)
    requires i <= |ordered|
  {
    forall j :: 0 <= j < i ==> (ordered[j].id in a <==> ordered[j].id in b)
  }

  /** Climbing only looks at earlier nodes. */
  lemma {:induction false} ClimbAgrees(parents: Parents, ordered: seq<Node>, a: set<Id>, b: set<Id>, at: nat, visited: set<Id>)
    requires at < |ordered| && ParentsBefore(parents, ordered) && AgreeBelow(ordered, at + 1, a, b)
    ensures Climb(parents, a, Some(ordered[at].id), visited) == Climb(parents, b, Some(ordered[at].id), visited)
    decreases at
  {
    var id := ordered[at].id;
    if id !in a && id !in visited && id in parents {
      var j :| 0 <= j < at && ordered[j].id == parents[id];
      ClimbAgrees(parents, ordered, a, b, j, visited + {id});
    }
  }

  lemma NearestAgrees(parents: Parents, ordered: seq<Node>, a: set<Id>, b: set<Id>, i: nat)
    requires i < |ordered| && ParentsBefore(parents, ordered) && AgreeBelow(ordered, i, a, b)
    ensures Nearest(parents, a, ordered[i].id) == Nearest(parents, b, ordered[i].id)
  {
    hide Climb;
    if ordered[i].id in parents {
      var j :| 0 <= j < i && ordered[j].id == parents[ordered[i].id];
      ClimbAgrees(parents, ordered, a, b, j, {});
    } else {
      ClimbNone(parents, a);
      ClimbNone(parents, b);
    }
  }

  lemma ClimbNone(parents: Parents, a: set<Id>)
    ensures Climb(parents, a, None, {}) == None
  {}

  /** A prefix of the filtered nodes is the filtered form of a prefix. */
  lemma {:induction false} PrefixOfFilter(nodes: seq<Node>, m: NodeMap, parents: Parents, o: Settings, k: nat) returns (c: nat)
    requires k <= |Filter(nodes, m, parents, o)|
    ensures c <= |nodes| && Filter(nodes[..c], m, parents, o) == Filter(nodes, m, parents, o)[..k]
  {
    hide Retained;
    var all := Filter(nodes, m, parents, o);
    if k == |all| {
      c := |nodes|;
      assert nodes[..c] == nodes;
    } else {
      var front := nodes[..|nodes| - 1];
      c := PrefixOfFilter(front, m, parents, o, k);
      assert front[..c] == nodes[..c];
    }
  }

  /** The nodes that were cut off all come after the ones that were reported. */
  lemma CutAgrees(ordered: seq<Node>, o: Settings, i: nat)
    requires UniqueIds(ordered) && i < |ordered|
    requires ordered[i].id in IdSet(Cut(KeptOf(ordered, o), o.maxNodes))
    ensures AgreeBelow(ordered, i, IdSet(KeptOf(ordered, o)), IdSet(Cut(KeptOf(ordered, o), o.maxNodes)))
  {
    hide Retained, ById, ParentsOf, Filter;
    var m, parents := ById(ordered), ParentsIn(ordered);
    var kept := KeptOf(ordered, o);
    var limited := Cut(kept, o.maxNodes);
    FilterMembers(ordered, m, parents, o);
    var c := PrefixOfFilter(ordered, m, parents, o, |limited|);
    assert limited == Filter(ordered[..c], m, parents, o);
    FilterMembers(ordered[..c], m, parents, o);
    var n :| n in limited && n.id == ordered[i].id;
    var p :| 0 <= p < c && ordered[p] == n;
    assert p == i;
    forall j | 0 <= j < i
      ensures ordered[j].id in IdSet(kept) <==> ordered[j].id in IdSet(limited)
    {
      if ordered[j].id in IdSet(kept) {
        var x :| x in kept && x.id == ordered[j].id;
        var q :| 0 <= q < |ordered| && ordered[q] == x;
        assert q == j && ordered[..c][j] == x;
      }
    }
  }

  lemma CutKeepsNearest(ordered: seq<Node>, o: Settings, n: Node)
    requires UniqueIds(ordered) && ParentsBefore(ParentsIn(ordered), ordered)
    requires n in Cut(KeptOf(ordered, o), o.maxNodes)
    ensures Nearest(ParentsIn(ordered), IdSet(Cut(KeptOf(ordered, o), o.maxNodes)), n.id) ==
      Nearest(ParentsIn(ordered), IdSet(KeptOf(ordered, o)), n.id)
  {
    hide Filter, Nearest, ParentsOf, ById, AgreeBelow, Retained, ParentsBefore;
    var parents := ParentsIn(ordered);
    FilterMembers(ordered, ById(ordered), parents, o);
    assert n in KeptOf(ordered, o);
    var i :| 0 <= i < |ordered| && ordered[i] == n;
    assert ordered[i].id in IdSet(Cut(KeptOf(ordered, o), o.maxNodes));
    CutAgrees(ordered, o, i);
    NearestAgrees(parents, ordered, IdSet(KeptOf(ordered, o)), IdSet(Cut(KeptOf(ordered, o), o.maxNodes)), i);
  }

  /**
   * Without cycles, cutting the list to maxNodes gives no reported node another parent:
   * its nearest reported ancestor is its nearest retained ancestor before the cut.
   */
  lemma CutKeepsParents(raw: seq<Node>, o: Settings, rank: map<Id, nat>, id: Id)
    requires UniqueIds(raw) && Acyclic(Named(raw), rank) && id in IdSet(TreeOf(raw, o).nodes)
    ensures var ordered := DocumentOrder(Named(raw));
      Nearest(ParentsIn(ordered), IdSet(TreeOf(raw, o).nodes), id) == Nearest(ParentsIn(ordered), IdSet(KeptOf(ordered, o)), id)
  {
    hide Named, DocumentOrder, Nearest, Under, ParentsIn, Acyclic, KeptOf, Cut, ParentsBefore;
    var ordered := DocumentOrder(Named(raw));
    var limited := Cut(KeptOf(ordered, o), o.maxNodes);
    SameIds(ParentsIn(ordered), limited);
    KeptUnique(raw, o);
    NamedMembers(raw);
    AcyclicParentsBefore(Named(raw), rank);
    var n :| n in limited && n.id == id;
    CutKeepsNearest(ordered, o, n);
  }
}
