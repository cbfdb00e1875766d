/** The indented outline of a reported tree. */
module AxOutline {
  import opened Options
  import opened AxWalk
  import opened AxOrder
  import opened AxBuild
  import opened AxTree

  /** A line names one node; the text of its label and states is left out. */
  datatype Line = Line(id: Id, depth: nat)

  function LineIds(lines: seq<Line>): seq<Id> {
    IdsOf(lines, (l: Line) => l.id)
  }

  /** Line j is the parent line of line i: one level up, with nothing of that level between. */
  predicate Encloses(m: NodeMap, lines: seq<Line>, j: nat, i: nat)
    requires j < i < |lines|
  {
    && lines[j].depth + 1 == lines[i].depth
    && AxWalk.Lists(m, lines[j].id, lines[i].id)
    && forall k :: j < k < i ==> lines[k].depth >= lines[i].depth
  }

  /** Every line after base is deeper than depth, and its parent line is not before base. */
  predicate NestedFrom(m: NodeMap, lines: seq<Line>, base: nat, depth: nat) {
    forall i :: base < i < |lines| ==> lines[i].depth > depth && exists j :: base <= j < i && Encloses(m, lines, j, i)
  }

  /** The lines from base on start with the line of id, if there are any, and are nested in it. */
  predicate Rendered(m: NodeMap, lines: seq<Line>, base: nat, id: Id, depth: nat) {
    && base <= |lines|
    && (base < |lines| ==> lines[base] == Line(id, depth))
    && NestedFrom(m, lines, base, depth)
  }

  lemma NestedMore(m: NodeMap, lines: seq<Line>, more: seq<Line>, base: nat, id: Id, depth: nat)
    requires base < |lines| && lines <= more
    requires lines[base].depth == depth && AxWalk.Lists(m, lines[base].id, id)
    requires NestedFrom(m, lines, base, depth) && Rendered(m, more, |lines|, id, depth + 1)
    ensures NestedFrom(m, more, base, depth)
  {
    forall i | base < i < |more|
      ensures more[i].depth > depth && exists j :: base <= j < i && Encloses(m, more, j, i)
    {
      if i < |lines| {
        var j :| base <= j < i && Encloses(m, lines, j, i);
        assert Encloses(m, more, j, i);
      } else if i == |lines| {
        assert Encloses(m, more, base, i);
      } else {
        var j :| |lines| <= j < i && Encloses(m, more, j, i);
      }
    }
  }

  method Visit(m: NodeMap, id: Id, depth: nat, lines: seq<Line>) returns (r: seq<Line>)
    ensures lines <= r && LineIds(r) == Walk(m, [id], LineIds(lines))
    ensures Rendered(m, r, |lines|, id, depth)
    decreases Left(m, LineIds(lines))
  {
    hide Walk, NestedFrom, Encloses, Left;
    WalkOne(m, id, LineIds(lines));
    if id !in m || id in LineIds(lines) {
      NestedNone(m, lines, depth);
      return lines;
    }
    VisitShrinks(m, LineIds(lines), id);
    r := lines + [Line(id, depth)];
    assert LineIds(r) == LineIds(lines) + [id];
    NestedOne(m, r, |lines|, depth);
    var children := m[id].childIds;
    WalkNone(m, LineIds(r));
    ghost var start := LineIds(r);
    for i := 0 to |children|
      invariant start <= LineIds(r) && lines + [Line(id, depth)] <= r
      invariant LineIds(r) == Walk(m, children[..i], start)
      invariant NestedFrom(m, r, |lines|, depth)
    {
      assert children[..i + 1] == children[..i] + [children[i]];
      WalkConcat(m, children[..i], [children[i]], start);
      PrefixShrinks(m, start, LineIds(r));
      var more := Visit(m, children[i], depth + 1, r);
      NestedMore(m, r, more, |lines|, children[i], depth);
      r := more;
    }
    assert children[..|children|] == children;
  }

  lemma WalkOne(m: NodeMap, id: Id, done: seq<Id>)
    ensures Walk(m, [id], done) == if id !in m || id in done then done else Walk(m, m[id].childIds, done + [id])
  {
    WalkStep(m, id, [], done);
    assert [id] + [] == [id];
    if id in m && id !in done {
      assert m[id].childIds + [] == m[id].childIds;
    }
  }

  lemma WalkNone(m: NodeMap, done: seq<Id>)
    ensures Walk(m, [], done) == done
  {}

  lemma NestedNone(m: NodeMap, lines: seq<Line>, depth: nat)
    ensures NestedFrom(m, lines, |lines|, depth)
  {}

  lemma NestedOne(m: NodeMap, lines: seq<Line>, base: nat, depth: nat)
    requires |lines| == base + 1
    ensures NestedFrom(m, lines, base, depth)
  {}

  /** Indentation shows the tree: a line at depth 0 is a root, any other follows its parent line. */
  predicate Indented(m: NodeMap, rootIds: seq<Id>, lines: seq<Line>) {
    forall i :: 0 <= i < |lines| ==>
      if lines[i].depth == 0 then lines[i].id in rootIds else exists j :: 0 <= j < i && Encloses(m, lines, j, i)
  }

  lemma IndentedMore(m: NodeMap, rootIds: seq<Id>, lines: seq<Line>, more: seq<Line>, id: Id)
    requires Indented(m, rootIds, lines) && lines <= more && id in rootIds && Rendered(m, more, |lines|, id, 0)
    ensures Indented(m, rootIds, more)
  {
    forall i | 0 <= i < |more|
      ensures if more[i].depth == 0 then more[i].id in rootIds else exists j :: 0 <= j < i && Encloses(m, more, j, i)
    {
      if i < |lines| {
        if lines[i].depth != 0 {
          var j :| 0 <= j < i && Encloses(m, lines, j, i);
          assert Encloses(m, more, j, i);
        }
      }
    }
  }

  method FormatOutline(nodes: seq<Node>, rootIds: seq<Id>) returns (lines: seq<Line>)
    ensures LineIds(lines) == Walk(ById(nodes), rootIds, [])
    ensures Indented(ById(nodes), rootIds, lines)
  {
    hide Walk, Rendered, Indented;
    var m := ById(nodes);
    lines := [];
    WalkNone(m, []);
    IndentedNone(m, rootIds);
    for i := 0 to |rootIds|
      invariant LineIds(lines) == Walk(m, rootIds[..i], [])
      invariant Indented(m, rootIds, lines)
    {
      assert rootIds[..i + 1] == rootIds[..i] + [rootIds[i]];
      WalkConcat(m, rootIds[..i], [rootIds[i]], []);
      var more := Visit(m, rootIds[i], 0, lines);
      IndentedMore(m, rootIds, lines, more, rootIds[i]);
      lines := more;
    }
    assert rootIds[..|rootIds|] == rootIds;
  }

  lemma IndentedNone(m: NodeMap, rootIds: seq<Id>)
    ensures Indented(m, rootIds, [])
  {}

  // ---- one line for each reported node ----

  /** Every node is a root or hangs under an earlier node of the list. */
  predicate Hung(nodes: seq<Node>, rootIds: seq<Id>) {
    forall i :: 0 <= i < |nodes| ==>
      nodes[i].id in rootIds || exists j :: 0 <= j < i && nodes[i].id in nodes[j].childIds
  }

  lemma {:induction false} HungIsVisited(nodes: seq<Node>, rootIds: seq<Id>, i: nat)
    requires UniqueIds(nodes) && Hung(nodes, rootIds) && i < |nodes|
    ensures nodes[i].id in Walk(ById(nodes), rootIds, [])
  {
    hide Walk, ById;
    var m := ById(nodes);
    var r := Walk(m, rootIds, []);
    WalkCloses(m, rootIds, []);
    if nodes[i].id !in rootIds {
      var j :| 0 <= j < i && nodes[i].id in nodes[j].childIds;
      HungIsVisited(nodes, rootIds, j);
      UniqueLookup(nodes, nodes[j]);
      var k :| 0 <= k < |r| && r[k] == nodes[j].id;
      assert Covers(m, m[r[k]].childIds, r);
    }
  }

  lemma {:induction false} DistinctCount(s: seq<Id>, x: Id)
    requires Distinct(s)
    ensures multiset(s)[x] == if x in s then 1 else 0
  {
    if s != [] {
      assert s == s[..|s| - 1] + [s[|s| - 1]];
      DistinctCount(s[..|s| - 1], x);
    }
  }

  lemma HungOnce(nodes: seq<Node>, rootIds: seq<Id>)
    requires UniqueIds(nodes) && Hung(nodes, rootIds)
    ensures multiset(Walk(ById(nodes), rootIds, [])) == multiset(Ids(nodes))
  {
    hide Walk, ById, Hung;
    var r := Walk(ById(nodes), rootIds, []);
    WalkDistinct(ById(nodes), rootIds, []);
    forall id
      ensures multiset(r)[id] == multiset(Ids(nodes))[id]
    {
      DistinctCount(r, id);
      DistinctCount(Ids(nodes), id);
      if id in Ids(nodes) {
        var i :| 0 <= i < |nodes| && Ids(nodes)[i] == id;
        HungIsVisited(nodes, rootIds, i);
      }
      if id in r {
        var n := ById(nodes)[id];
        var i :| 0 <= i < |nodes| && nodes[i] == n;
        assert Ids(nodes)[i] == id;
      }
    }
  }

  /** The retained parent of a retained node comes before it. */
  lemma {:induction false} ClimbEarlier(parents: Parents, ordered: seq<Node>, kept: set<Id>, at: nat, visited: set<Id>)
    returns (j: nat)
    requires at < |ordered| && ParentsBefore(parents, ordered)
    ensures j <= at
    ensures var p := Climb(parents, kept, Some(ordered[at].id), visited); p.Some? ==> p.value == ordered[j].id
    decreases at
  {
    j := at;
    var id := ordered[at].id;
    if id !in kept && id !in visited && id in parents {
      var k :| 0 <= k < at && ordered[k].id == parents[id];
      j := ClimbEarlier(parents, ordered, kept, k, visited + {id});
    }
  }

  lemma NearestEarlier(parents: Parents, ordered: seq<Node>, kept: set<Id>, i: nat) returns (j: nat)
    requires i < |ordered| && ParentsBefore(parents, ordered) && Nearest(parents, kept, ordered[i].id).Some?
    ensures j < i && Nearest(parents, kept, ordered[i].id).value == ordered[j].id
  {
    j := 0;
    if ordered[i].id in parents {
      var k :| 0 <= k < i && ordered[k].id == parents[ordered[i].id];
      j := ClimbEarlier(parents, ordered, kept, k, {});
    }
  }

  /** Filtering keeps the order of nodes. */
  lemma {:induction false} FilterOrder(nodes: seq<Node>, m: NodeMap, parents: Parents, o: Settings, i: nat, j: nat, x: nat, y: nat)
    requires UniqueIds(nodes)
    requires var kept := Filter(nodes, m, parents, o);
      i < |nodes| && j < |nodes| && x < |kept| && y < |kept| && nodes[i] == kept[x] && nodes[j] == kept[y] && i < j
    ensures x < y
  {
    hide Retained;
    var kept := Filter(nodes, m, parents, o);
    var front, last := nodes[..|nodes| - 1], nodes[|nodes| - 1];
    var before := Filter(front, m, parents, o);
    FilterMembers(front, m, parents, o);
    FilterMembers(nodes, m, parents, o);
    if j < |front| {
      assert front[i] == nodes[i] && front[j] == nodes[j];
      assert nodes[i] in before && nodes[j] in before by {
        assert nodes[i] in kept && nodes[j] in kept;
        assert nodes[i] in front && nodes[j] in front;
      }
      var p :| 0 <= p < |before| && before[p] == nodes[i];
      var q :| 0 <= q < |before| && before[q] == nodes[j];
      assert kept[p] == kept[x] && kept[q] == kept[y];
      FilterOrder(front, m, parents, o, i, j, x, y);
    } else {
      assert nodes[i] in front by { assert front[i] == nodes[i]; }
      assert nodes[i] in kept;
      var p :| 0 <= p < |before| && before[p] == nodes[i];
      assert kept[p] == kept[x];
      assert y == |before|;
    }
  }

  /** Without cycles, every reported node is a root or hangs under an earlier reported node. */
  lemma ReportedHang(ordered: seq<Node>, o: Settings)
    requires UniqueIds(ordered) && ParentsBefore(ParentsIn(ordered), ordered)
    ensures var limited := Cut(KeptOf(ordered, o), o.maxNodes);
      Hung(Relinked(ParentsIn(ordered), IdSet(limited), limited, limited), Under(ParentsIn(ordered), IdSet(limited), limited, None))
  {
    hide Under, ParentsOf, ById, Nearest, Filter, ParentsBefore, Retained;
    var parents, kept := ParentsIn(ordered), KeptOf(ordered, o);
    var limited := Cut(kept, o.maxNodes);
    var nodes, rootIds := Relinked(parents, IdSet(limited), limited, limited), Under(parents, IdSet(limited), limited, None);
    FilterMembers(ordered, ById(ordered), parents, o);
    forall x | 0 <= x < |nodes|
      ensures nodes[x].id in rootIds || exists y :: 0 <= y < x && nodes[x].id in nodes[y].childIds
    {
      var n := limited[x];
      UnderMembers(parents, IdSet(limited), limited, None, n.id);
      var p := Nearest(parents, IdSet(limited), n.id);
      if p.Some? {
        NearestKept(parents, IdSet(limited), n.id);
        assert n in kept;
        var i :| 0 <= i < |ordered| && ordered[i] == n;
        var j := NearestEarlier(parents, ordered, IdSet(limited), i);
        var y :| 0 <= y < |limited| && limited[y].id == p.value;
        KeptPosition(ordered, o, j, y);
        FilterOrder(ordered, ById(ordered), parents, o, j, i, y, x);
        UnderMembers(parents, IdSet(limited), limited, p, n.id);
        assert nodes[x].id in nodes[y].childIds;
      }
    }
  }

  lemma KeptPosition(ordered: seq<Node>, o: Settings, j: nat, y: nat)
    requires UniqueIds(ordered) && j < |ordered| && y < |KeptOf(ordered, o)| && KeptOf(ordered, o)[y].id == ordered[j].id
    ensures ordered[j] == KeptOf(ordered, o)[y]
  {
    hide Filter, ById, ParentsOf, Retained;
    var kept := KeptOf(ordered, o);
    FilterMembers(ordered, ById(ordered), ParentsIn(ordered), o);
    assert kept[y] in ordered;
    var k :| 0 <= k < |ordered| && ordered[k] == kept[y];
  }

  /** Without cycles, the outline of a reported tree has exactly one line for each of its nodes. */
  lemma OutlineComplete(raw: seq<Node>, o: Settings, rank: map<Id, nat>)
    requires UniqueIds(raw) && Acyclic(Named(raw), rank)
    ensures var t := TreeOf(raw, o); multiset(Walk(ById(t.nodes), t.rootIds, [])) == multiset(Ids(t.nodes))
  {
    hide Named, DocumentOrder, ParentsIn, KeptOf, Cut, Under, Acyclic, ParentsBefore, Hung, Walk, ById;
    var ordered := DocumentOrder(Named(raw));
    KeptUnique(raw, o);
    NamedMembers(raw);
    AcyclicParentsBefore(Named(raw), rank);
    ReportedHang(ordered, o);
    HungOnce(TreeOf(raw, o).nodes, TreeOf(raw, o).rootIds);
  }

  // ---- cycles ----

  /** Following reported parents from id ends after k links. */
  predicate Grounded(parents: Parents, kept: set<Id>, id: Id, k: nat)
    decreases k
  {
    var p := Nearest(parents, kept, id);
    if k == 0 then p.None? else p.Some? && Grounded(parents, kept, p.value, k - 1)
  }

  lemma {:induction false} GroundedIsVisited(parents: Parents, limited: seq<Node>, n: Node, k: nat)
    requires UniqueIds(limited) && n in limited && Grounded(parents, IdSet(limited), n.id, k)
    ensures var nodes := Relinked(parents, IdSet(limited), limited, limited);
      n.id in Walk(ById(nodes), Under(parents, IdSet(limited), limited, None), [])
    decreases k
  {
    hide Walk, ById, Under, Nearest;
    var kept := IdSet(limited);
    var nodes, rootIds := Relinked(parents, kept, limited, limited), Under(parents, kept, limited, None);
    var m := ById(nodes);
    var r := Walk(m, rootIds, []);
    WalkCloses(m, rootIds, []);
    RelinkedEntry(parents, limited, n);
    if k == 0 {
      UnderMembers(parents, kept, limited, None, n.id);
    } else {
      var p := Nearest(parents, kept, n.id);
      NearestKept(parents, kept, n.id);
      var a :| a in limited && a.id == p.value;
      GroundedIsVisited(parents, limited, a, k - 1);
      RelinkedEntry(parents, limited, a);
      UnderMembers(parents, kept, limited, p, n.id);
      var i :| 0 <= i < |r| && r[i] == a.id;
      assert Covers(m, m[r[i]].childIds, r);
    }
  }

  /** A reported node is found under its id, with the children it was given. */
  lemma RelinkedEntry(parents: Parents, limited: seq<Node>, n: Node)
    requires UniqueIds(limited) && n in limited
    ensures var m := ById(Relinked(parents, IdSet(limited), limited, limited));
      n.id in m && m[n.id].childIds == Under(parents, IdSet(limited), limited, Some(n.id))
  {
    hide ById, Under;
    var nodes := Relinked(parents, IdSet(limited), limited, limited);
    var i :| 0 <= i < |limited| && limited[i] == n;
    assert nodes[i] in nodes;
    UniqueLookup(nodes, nodes[i]);
  }

  lemma GroundedUp(parents: Parents, kept: set<Id>, id: Id, p: Option<Id>, k: nat)
    requires Nearest(parents, kept, id) == p && (p.Some? ==> Grounded(parents, kept, p.value, k))
    ensures Grounded(parents, kept, id, if p.None? then 0 else k + 1)
  {
    hide Nearest;
  }

  /** A child of a walked node hangs under it. */
  lemma ListedUnder(parents: Parents, limited: seq<Node>, a: Id, c: Id)
    requires UniqueIds(limited) && AxWalk.Lists(ById(Relinked(parents, IdSet(limited), limited, limited)), a, c)
    ensures Nearest(parents, IdSet(limited), c) == Some(a)
  {
    hide ById, Under, Nearest;
    var nodes := Relinked(parents, IdSet(limited), limited, limited);
    var x :| 0 <= x < |nodes| && nodes[x] == ById(nodes)[a];
    UnderMembers(parents, IdSet(limited), limited, Some(a), c);
  }

  lemma {:induction false} VisitedIsGrounded(parents: Parents, limited: seq<Node>, i: nat) returns (k: nat)
    requires UniqueIds(limited)
    requires var nodes := Relinked(parents, IdSet(limited), limited, limited);
      i < |Walk(ById(nodes), Under(parents, IdSet(limited), limited, None), [])|
    ensures var nodes := Relinked(parents, IdSet(limited), limited, limited);
      Grounded(parents, IdSet(limited), Walk(ById(nodes), Under(parents, IdSet(limited), limited, None), [])[i], k)
    decreases i
  {
    hide Walk, ById, Under, Nearest, Grounded, Relinked, AxWalk.Lists;
    var kept := IdSet(limited);
    var nodes, rootIds := Relinked(parents, kept, limited, limited), Under(parents, kept, limited, None);
    var m := ById(nodes);
    var r := Walk(m, rootIds, []);
    WalkLed(m, rootIds, []);
    k := 0;
    if r[i] in rootIds {
      UnderMembers(parents, kept, limited, None, r[i]);
      GroundedUp(parents, kept, r[i], None, 0);
    } else {
      var j :| 0 <= j < i && AxWalk.Lists(m, r[j], r[i]);
      k := VisitedIsGrounded(parents, limited, j);
      ListedUnder(parents, limited, r[j], r[i]);
      GroundedUp(parents, kept, r[i], Some(r[j]), k);
      k := k + 1;
    }
  }

  /**
   * For any links: a reported node has a line in the outline exactly when following
   * reported parents from it ends, that is, when they do not lead into a cycle.
   */
  lemma OutlineExact(raw: seq<Node>, o: Settings, n: Node)
    requires UniqueIds(raw) && n in TreeOf(raw, o).nodes
    ensures var t, parents := TreeOf(raw, o), ParentsIn(DocumentOrder(Named(raw)));
      n.id in Walk(ById(t.nodes), t.rootIds, []) <==> exists k: nat :: Grounded(parents, IdSet(t.nodes), n.id, k)
  {
    hide Named, DocumentOrder, ParentsIn, KeptOf, Cut, Under, Walk, ById, Grounded;
    var ordered := DocumentOrder(Named(raw));
    var parents, limited := ParentsIn(ordered), Cut(KeptOf(ordered, o), o.maxNodes);
    var t := TreeOf(raw, o);
    var r := Walk(ById(t.nodes), t.rootIds, []);
    KeptUnique(raw, o);
    SameIds(parents, limited);
    var x :| 0 <= x < |limited| && t.nodes[x] == n;
    if n.id in r {
      var i :| 0 <= i < |r| && r[i] == n.id;
      var k := VisitedIsGrounded(parents, limited, i);
    }
    if k: nat :| Grounded(parents, IdSet(limited), n.id, k) {
      GroundedIsVisited(parents, limited, limited[x], k);
    }
  }


  /** Two nodes that list each other. */
  function Cycle(): seq<Node> {
    [Plain("a", ["b"]), Plain("b", ["a"])]
  }

  lemma CycleOrder()
    ensures DocumentOrder(Cycle()) == Cycle() && Named(Cycle()) == Cycle()
  {
    var nodes := Cycle();
    assert nodes[1..] == [nodes[1]] && nodes[1..][1..] == [];
    assert nodes[..1] == [nodes[0]] && nodes[..1][..0] == [];
    assert Named(nodes[..1]) == [nodes[0]];
    assert Listed(nodes, "a") by { assert nodes[1] in nodes; }
    assert Listed(nodes, "b") by { assert nodes[0] in nodes; }
    assert Roots(nodes, nodes[1..]) == [];
    assert Roots(nodes, nodes) == [];
    assert Reached(nodes) == [];
    assert Outside(nodes[1..], []) == [nodes[1]];
    assert Outside(nodes, []) == nodes;
  }

  lemma CycleParents()
    ensures ParentsIn(Cycle()) == map["a" := "b", "b" := "a"]
  {
    var nodes := Cycle();
    assert nodes[..1] == [nodes[0]] && nodes[..1][..0] == [] && nodes[1..] == [nodes[1]];
    assert ById(nodes).Keys == {"a", "b"};
    assert FirstLister(nodes, "a") == 1 && FirstLister(nodes, "b") == 0;
  }

  lemma CycleKept(o: Settings)
    requires !o.compact && !o.interactiveOnly
    ensures KeptOf(Cycle(), o) == Cycle()
  {
    hide ById, ParentsOf;
    var nodes := Cycle();
    assert nodes[..1] == [nodes[0]] && nodes[..1][..0] == [];
    assert Filter(nodes[..1], ById(nodes), ParentsIn(nodes), o) == [nodes[0]];
  }

  lemma CycleUnder(parents: Parents)
    requires parents == map["a" := "b", "b" := "a"]
    ensures Under(parents, {"a", "b"}, Cycle(), None) == []
  {
    var nodes := Cycle();
    assert nodes[..1] == [nodes[0]] && nodes[..1][..0] == [];
    assert Nearest(parents, {"a", "b"}, "a") == Some("b") && Nearest(parents, {"a", "b"}, "b") == Some("a");
    assert Under(parents, {"a", "b"}, nodes[..1], None) == [];
  }

  /** In a cycle every node has a reported parent, so nothing is a root and the outline is empty. */
  lemma CycleHasNoOutline(o: Settings)
    requires !o.compact && !o.interactiveOnly && o.maxNodes >= 2
    ensures |TreeOf(Cycle(), o).nodes| == 2 && TreeOf(Cycle(), o).rootIds == []
    ensures Walk(ById(TreeOf(Cycle(), o).nodes), TreeOf(Cycle(), o).rootIds, []) == []
  {
    CycleOrder();
    CycleParents();
    CycleKept(o);
    CycleUnder(ParentsIn(Cycle()));
    CycleIds();
    hide Named, DocumentOrder, ParentsIn, KeptOf, Under, ById, Walk, Cycle, IdSet;
    WalkNone(ById(TreeOf(Cycle(), o).nodes), []);
  }

  lemma CycleIds()
    ensures IdSet(Cycle()) == {"a", "b"} && |Cycle()| == 2
  {
    assert Cycle()[0] in Cycle() && Cycle()[1] in Cycle();
  }
}
