/**
 * Which nodes of a page are reported, said of the nodes themselves: their attributes,
 * their recorded parent and their place in document order.
 */
module AxReport {
  import opened Options
  import opened AxWalk
  import opened AxOrder
  import opened AxBuild
  import opened AxTree

  predicate SaysSomething(n: Node) {
    n.readable != "" || n.description != "" || n.value != ""
  }

  /**
   * Only interactive nodes when those were asked for; every node without compact;
   * otherwise the nodes that are not ignored, decorative or fragments of text, that say
   * something or are a root or interactive, and that do not repeat their parent's text.
   */
  predicate Wanted(n: Node, parent: Option<Node>, o: Settings) {
    && (o.interactiveOnly ==> n.semanticInteractive && !n.ignored)
    && (!o.interactiveOnly && o.compact ==>
          && !n.ignored && n.role !in {"none", "presentation"} && n.role !in {"inlinetextbox", "linebreak"}
          && (n.semanticInteractive || n.role in {"rootwebarea", "webarea", "document", "application"} || SaysSomething(n))
          && !(n.role == "statictext" && parent.Some? && parent.value.name == n.name))
  }

  /** The first node in document order that lists the id. */
  function RecordedParent(ordered: seq<Node>, id: Id): Option<Node> {
    if FirstLister(ordered, id) < |ordered| then Some(ordered[FirstLister(ordered, id)]) else None
  }

  function Ordered(raw: seq<Node>): seq<Node> {
    DocumentOrder(Named(raw))
  }

  /** The named nodes of the page that are wanted. */
  ghost function WantedNodes(raw: seq<Node>, o: Settings): set<Node> {
    set n | n in raw && n.id != "" && Wanted(n, RecordedParent(Ordered(raw), n.id), o)
  }

  /** The links to ids that no node has. */
  ghost function DeadLinks(nodes: seq<Node>): set<(int, int)> {
    set i, c | 0 <= i < |nodes| && 0 <= c < |nodes[i].childIds| && nodes[i].childIds[c] !in IdSet(nodes) :: (i, c)
  }

  predicate Reported(t: Tree, id: Id) {
    exists i :: 0 <= i < |t.nodes| && t.nodes[i].id == id
  }

  /** Each reported node is a wanted one, unchanged but for its children. */
  ghost predicate AllWanted(wanted: set<Node>, nodes: seq<Node>) {
    forall i :: 0 <= i < |nodes| ==> IsOneOf(wanted, nodes[i])
  }

  ghost predicate IsOneOf(wanted: set<Node>, r: Node) {
    exists n :: n in wanted && r == n.(childIds := r.childIds)
  }

  ghost predicate InOrder(ordered: seq<Node>, nodes: seq<Node>) {
    forall a, b :: 0 <= a < b < |nodes| ==> Precedes(ordered, nodes[a].id, nodes[b].id)
  }

  predicate Precedes(ordered: seq<Node>, x: Id, y: Id) {
    exists i, j :: 0 <= i < j < |ordered| && ordered[i].id == x && ordered[j].id == y
  }

  /**
   * The reported nodes are wanted nodes of the page, unchanged but for their children;
   * they are all of them unless there are more than maxNodes, and else the first ones in
   * document order. The counts count them.
   */
  ghost predicate Describes(raw: seq<Node>, o: Settings, t: Tree) {
    var ordered, wanted := Ordered(raw), WantedNodes(raw, o);
    && t.rawCount == |raw| && t.filteredCount == |wanted|
    && |t.nodes| == (if |wanted| <= o.maxNodes then |wanted| else o.maxNodes)
    && t.omitted == |wanted| - |t.nodes| && (t.truncated <==> |wanted| > o.maxNodes)
    && AllWanted(wanted, t.nodes)
    && (!t.truncated ==> forall n :: n in wanted ==> Reported(t, n.id))
    && (forall i, j :: 0 <= i < j < |ordered| && ordered[i] in wanted && Reported(t, ordered[j].id) ==> Reported(t, ordered[i].id))
    && InOrder(ordered, t.nodes)
    && t.missingChildCount == |DeadLinks(ordered)|
  }

  // ---- the filter keeps the wanted nodes ----

  lemma RetainedIsWanted(ordered: seq<Node>, n: Node, o: Settings)
    requires UniqueIds(ordered) && n in ordered
    ensures Retained(n, ById(ordered), ParentsIn(ordered), o) <==> Wanted(n, RecordedParent(ordered, n.id), o)
  {
    hide FirstLister, ById, Wanted, Meaningful, RepeatsParent;
    var k := FirstLister(ordered, n.id);
    var p := RecordedParent(ordered, n.id);
    if k < |ordered| {
      UniqueLookup(ordered, ordered[k]);
    }
    WantedIs(n, p, o);
  }

  lemma WantedIs(n: Node, p: Option<Node>, o: Settings)
    ensures o.interactiveOnly ==> (Wanted(n, p, o) <==> n.semanticInteractive && !n.ignored)
    ensures !o.interactiveOnly && !o.compact ==> Wanted(n, p, o)
    ensures !o.interactiveOnly && o.compact ==> (Wanted(n, p, o) <==> Meaningful(n) && !RepeatsParent(n, p))
  {}

  lemma KeptIsWanted(raw: seq<Node>, o: Settings)
    requires UniqueIds(raw)
    ensures var kept := KeptOf(Ordered(raw), o);
      UniqueIds(Ordered(raw)) && UniqueIds(kept) && forall n :: n in kept <==> n in WantedNodes(raw, o)
  {
    hide Named, Filter, DocumentOrder, Retained, Wanted, RecordedParent, ById, ParentsOf;
    var ordered := Ordered(raw);
    KeptUnique(raw, o);
    NamedMembers(raw);
    OrderMembers(Named(raw));
    FilterMembers(ordered, ById(ordered), ParentsIn(ordered), o);
    forall n | n in ordered
      ensures Retained(n, ById(ordered), ParentsIn(ordered), o) <==> Wanted(n, RecordedParent(ordered, n.id), o)
    {
      RetainedIsWanted(ordered, n, o);
    }
  }

  lemma {:induction false} UniqueSize(nodes: seq<Node>)
    requires UniqueIds(nodes)
    ensures |set n | n in nodes| == |nodes|
  {
    if nodes != [] {
      var front, last := nodes[..|nodes| - 1], nodes[|nodes| - 1];
      UniqueSize(front);
      assert nodes == front + [last];
      assert (set n | n in nodes) == (set n | n in front) + {last};
    }
  }

  /** The filter keeps document order. */
  lemma {:induction false} FilterAscends(nodes: seq<Node>, m: NodeMap, parents: Parents, o: Settings, a: nat, b: nat) returns (i: nat, j: nat)
    requires a < b < |Filter(nodes, m, parents, o)|
    ensures i < j < |nodes| && nodes[i] == Filter(nodes, m, parents, o)[a] && nodes[j] == Filter(nodes, m, parents, o)[b]
  {
    hide Retained;
    var front, last := nodes[..|nodes| - 1], nodes[|nodes| - 1];
    var kept := Filter(front, m, parents, o);
    if b < |kept| {
      i, j := FilterAscends(front, m, parents, o, a, b);
    } else {
      i := FilterIndex(front, m, parents, o, a);
      j := |nodes| - 1;
    }
  }

  lemma {:induction false} FilterIndex(nodes: seq<Node>, m: NodeMap, parents: Parents, o: Settings, a: nat) returns (i: nat)
    requires a < |Filter(nodes, m, parents, o)|
    ensures i < |nodes| && nodes[i] == Filter(nodes, m, parents, o)[a]
  {
    hide Retained;
    var front := nodes[..|nodes| - 1];
    if a < |Filter(front, m, parents, o)| {
      i := FilterIndex(front, m, parents, o, a);
    } else {
      i := |nodes| - 1;
    }
  }

  // ---- missing children ----

  ghost function DeadIn(nodes: seq<Node>, known: set<Id>): set<(int, int)> {
    set i, c | 0 <= i < |nodes| && 0 <= c < |nodes[i].childIds| && nodes[i].childIds[c] !in known :: (i, c)
  }

  ghost function DeadOf(i: int, children: seq<Id>, known: set<Id>): set<(int, int)> {
    set c | 0 <= c < |children| && children[c] !in known :: (i, c)
  }

  lemma {:induction false} MissingCounts(i: int, children: seq<Id>, known: set<Id>)
    ensures Missing(children, known) == |DeadOf(i, children, known)|
    decreases |children|
  {
    if children != [] {
      var front, c := children[..|children| - 1], |children| - 1;
      MissingCounts(i, front, known);
      assert DeadOf(i, children, known) == DeadOf(i, front, known) + if children[c] in known then {} else {(i, c)};
      assert (i, c) !in DeadOf(i, front, known);
    } else {
      assert DeadOf(i, children, known) == {};
    }
  }

  lemma {:induction false} MissingAllCounts(nodes: seq<Node>, known: set<Id>)
    ensures MissingAll(nodes, known) == |DeadIn(nodes, known)|
    decreases |nodes|
  {
    hide Missing;
    if nodes != [] {
      var front, i := nodes[..|nodes| - 1], |nodes| - 1;
      MissingAllCounts(front, known);
      MissingCounts(i, nodes[i].childIds, known);
      DeadSplits(nodes, known);
    } else {
      assert DeadIn(nodes, known) == {};
    }
  }

  lemma DeadSplits(nodes: seq<Node>, known: set<Id>)
    requires nodes != []
    ensures |DeadIn(nodes, known)| == |DeadIn(nodes[..|nodes| - 1], known)| + |DeadOf(|nodes| - 1, nodes[|nodes| - 1].childIds, known)|
  {
    var front, i := nodes[..|nodes| - 1], |nodes| - 1;
    var a, b := DeadIn(front, known), DeadOf(i, nodes[i].childIds, known);
    forall p
      ensures p in DeadIn(nodes, known) <==> p in a + b
    {
      assert p == (p.0, p.1);
      if p in DeadIn(nodes, known) && p.0 < i {
        assert front[p.0] == nodes[p.0];
      }
    }
    assert DeadIn(nodes, known) == a + b;
    assert a * b == {};
  }

  lemma KnownIds(nodes: seq<Node>)
    ensures ById(nodes).Keys == IdSet(nodes)
  {}

  // ---- the tree describes the page ----

  lemma ReportedIsKept(raw: seq<Node>, o: Settings, id: Id)
    ensures Reported(TreeOf(raw, o), id) <==> id in IdSet(Cut(KeptOf(Ordered(raw), o), o.maxNodes))
  {
    hide Named, Filter, DocumentOrder, Under, ParentsOf, KeptOf;
    var limited := Cut(KeptOf(Ordered(raw), o), o.maxNodes);
    var t := TreeOf(raw, o);
    if id in IdSet(limited) {
      var n :| n in limited && n.id == id;
      var i :| 0 <= i < |limited| && limited[i] == n;
      assert t.nodes[i].id == id;
    }
    if Reported(t, id) {
      var i :| 0 <= i < |t.nodes| && t.nodes[i].id == id;
      assert limited[i] in limited && limited[i].id == id;
    }
  }

  /** For a page with unique ids the tree reports what it should. */
  lemma TreeDescribes(raw: seq<Node>, o: Settings)
    requires UniqueIds(raw)
    ensures Describes(raw, o, TreeOf(raw, o))
  {
    hide Named, Filter, DocumentOrder, Under, ParentsOf, Wanted, RecordedParent, DeadLinks, MissingAll, Reported, ById, KeptOf,
      AllWanted, InOrder;
    var ordered, kept, t, wanted := Ordered(raw), KeptOf(Ordered(raw), o), TreeOf(raw, o), WantedNodes(raw, o);
    KeptIsWanted(raw, o);
    UniqueSize(kept);
    assert (set n | n in kept) == wanted;
    NodesAreWanted(raw, o);
    PrefixReported(raw, o);
    OrderReported(raw, o);
    DeadLinksCounted(ordered);
    if !t.truncated {
      forall n | n in wanted
        ensures Reported(t, n.id)
      {
        ReportedIsKept(raw, o, n.id);
      }
    }
  }

  lemma DeadLinksCounted(ordered: seq<Node>)
    ensures MissingAll(ordered, ById(ordered).Keys) == |DeadLinks(ordered)|
  {
    hide MissingAll, ById;
    KnownIds(ordered);
    MissingAllCounts(ordered, IdSet(ordered));
    assert DeadIn(ordered, IdSet(ordered)) == DeadLinks(ordered);
  }

  lemma NodesAreWanted(raw: seq<Node>, o: Settings)
    requires UniqueIds(raw)
    ensures AllWanted(WantedNodes(raw, o), TreeOf(raw, o).nodes)
  {
    hide Named, Filter, DocumentOrder, Under, ParentsOf, Wanted, RecordedParent, MissingAll, ById, KeptOf, WantedNodes;
    KeptIsWanted(raw, o);
    var kept, t := KeptOf(Ordered(raw), o), TreeOf(raw, o);
    forall i | 0 <= i < |t.nodes|
      ensures IsOneOf(WantedNodes(raw, o), t.nodes[i])
    {
      var n := kept[i];
      assert n in kept && n in WantedNodes(raw, o);
      assert Cut(kept, o.maxNodes)[i] == n;
      assert t.nodes[i] == n.(childIds := t.nodes[i].childIds);
    }
  }

  lemma PrefixReported(raw: seq<Node>, o: Settings)
    requires UniqueIds(raw)
    ensures var ordered, t := Ordered(raw), TreeOf(raw, o);
      forall i, j :: 0 <= i < j < |ordered| && ordered[i] in WantedNodes(raw, o) && Reported(t, ordered[j].id) ==> Reported(t, ordered[i].id)
  {
    hide Named, Filter, DocumentOrder, Under, ParentsOf, Wanted, RecordedParent, MissingAll, ById, KeptOf, WantedNodes, Cut, Reported;
    KeptIsWanted(raw, o);
    var ordered, t, kept := Ordered(raw), TreeOf(raw, o), KeptOf(Ordered(raw), o);
    forall i, j | 0 <= i < j < |ordered| && ordered[i] in WantedNodes(raw, o) && Reported(t, ordered[j].id)
      ensures Reported(t, ordered[i].id)
    {
      ReportedIsKept(raw, o, ordered[j].id);
      ReportedIsKept(raw, o, ordered[i].id);
      CutAgrees(ordered, o, j);
      assert ordered[i] in kept && ordered[i].id in IdSet(kept);
    }
  }

  lemma OrderReported(raw: seq<Node>, o: Settings)
    ensures InOrder(Ordered(raw), TreeOf(raw, o).nodes)
  {
    hide Named, Filter, DocumentOrder, Under, ParentsOf, MissingAll, ById;
    var ordered, t := Ordered(raw), TreeOf(raw, o);
    forall a, b | 0 <= a < b < |t.nodes|
      ensures Precedes(ordered, t.nodes[a].id, t.nodes[b].id)
    {
      var i, j := FilterAscends(ordered, ById(ordered), ParentsIn(ordered), o, a, b);
    }
  }

  // ---- the construction ----

  method Build(raw: seq<Node>, o: Settings) returns (tree: Tree)
    ensures tree == TreeOf(raw, o)
    ensures UniqueIds(raw) ==> Describes(raw, o, tree)
  {
    hide Describes, Named, Filter, Under, DocumentOrder, ParentsOf;
    var nodes := KeepNamed(raw);
    var ordered := InDocumentOrder(nodes);
    var m := ById(ordered);
    var parents, missing := RecordParents(ordered, m.Keys);
    var kept := KeepRetained(ordered, m, parents, o);
    var limited := if |kept| <= o.maxNodes then kept else kept[..o.maxNodes];
    var included := IdSet(limited);
    var rootIds, links := Reconnect(parents, included, limited);
    var linked: seq<Node> := [];
    for i := 0 to |limited|
      invariant linked == Relinked(parents, included, limited[..i], limited)
    {
      linked := linked + [limited[i].(childIds := ChildrenOf(links, limited[i].id))];
    }
    assert limited[..|limited|] == limited;
    tree := Tree(linked, |kept|, |raw|, rootIds, |kept| > |limited|, |kept| - |limited|, missing);
    if UniqueIds(raw) {
      TreeDescribes(raw, o);
    }
  }
}
