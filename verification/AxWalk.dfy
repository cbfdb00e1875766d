/**
 * Nodes of an accessibility tree and the depth-first walk through their child links.
 * Links may be missing, shared or cyclic; a node is visited at most once.
 */
module AxWalk {
  import opened Options
  import opened FiniteSets

  type Id = string

  /**
   * role is the normalized role and readable the readable part of the name; both are
   * text rules of their own and are inputs here. backend is the number of the page
   * node, when there is one.
   */
  datatype Node = Node(id: Id, childIds: seq<Id>, role: string, name: string, readable: string, description: string,
                       value: string, semanticInteractive: bool, ignored: bool, backend: Option<int>)

  type NodeMap = map<Id, Node>

  /** The nodes by id; of nodes with the same id the last one counts. */
  function ById(nodes: seq<Node>): (m: NodeMap)
    ensures forall id :: id in m ==> m[id] in nodes && m[id].id == id
    ensures forall n :: n in nodes ==> n.id in m
  {
    if nodes == [] then map[] else
      var last := nodes[|nodes| - 1];
      ById(nodes[..|nodes| - 1])[last.id := last]
  }

  predicate UniqueIds(nodes: seq<Node>) {
    forall i, j :: 0 <= i < j < |nodes| ==> nodes[i].id != nodes[j].id
  }

  lemma UniqueLookup(nodes: seq<Node>, n: Node)
    requires UniqueIds(nodes) && n in nodes
    ensures ById(nodes)[n.id] == n
  {
    var i :| 0 <= i < |nodes| && nodes[i] == n;
    var j :| 0 <= j < |nodes| && nodes[j] == ById(nodes)[n.id];
  }

  /** The ids of things that have one. */
  function IdsOf<T>(s: seq<T>, id: T -> Id): (ids: seq<Id>)
    ensures |ids| == |s| && forall i :: 0 <= i < |s| ==> ids[i] == id(s[i])
  {
    seq(|s|, i requires 0 <= i < |s| => id(s[i]))
  }

  predicate Distinct<T(==)>(s: seq<T>) {
    forall i, j :: 0 <= i < j < |s| ==> s[i] != s[j]
  }

  function Elements<T>(s: seq<T>): set<T> {
    set x | x in s
  }

  /** How many nodes have not been visited. */
  function Left(m: NodeMap, done: seq<Id>): nat {
    |m.Keys - Elements(done)|
  }

  lemma VisitShrinks(m: NodeMap, done: seq<Id>, id: Id)
    requires id in m && id !in done
    ensures Left(m, done + [id]) < Left(m, done)
  {
    assert m.Keys - Elements(done + [id]) == m.Keys - Elements(done) - {id};
  }

  lemma PrefixShrinks(m: NodeMap, done: seq<Id>, more: seq<Id>)
    requires done <= more
    ensures Left(m, more) <= Left(m, done)
  {
    assert m.Keys - Elements(more) <= m.Keys - Elements(done);
    SubsetSize(m.Keys - Elements(more), m.Keys - Elements(done));
  }

  /** The recursive walk in preorder: done extended with what the ids reach. */
  function Walk(m: NodeMap, ids: seq<Id>, done: seq<Id>): (r: seq<Id>)
    ensures done <= r
    decreases Left(m, done), |ids|
  {
    if ids == [] then done
    else if ids[0] !in m || ids[0] in done then Walk(m, ids[1..], done)
    else
      VisitShrinks(m, done, ids[0]);
      var inner := Walk(m, m[ids[0]].childIds, done + [ids[0]]);
      PrefixShrinks(m, done + [ids[0]], inner);
      Walk(m, ids[1..], inner)
  }

  /** Walking two lists one after the other is walking their concatenation. */
  lemma {:induction false} WalkConcat(m: NodeMap, a: seq<Id>, b: seq<Id>, done: seq<Id>)
    ensures Walk(m, a + b, done) == Walk(m, b, Walk(m, a, done))
    decreases Left(m, done), |a|
  {
    if a == [] {
      assert a + b == b;
    } else {
      assert (a + b)[1..] == a[1..] + b;
      if a[0] !in m || a[0] in done {
        WalkConcat(m, a[1..], b, done);
      } else {
        VisitShrinks(m, done, a[0]);
        var inner := Walk(m, m[a[0]].childIds, done + [a[0]]);
        PrefixShrinks(m, done + [a[0]], inner);
        WalkConcat(m, a[1..], b, inner);
      }
    }
  }

  /** One step of an explicit stack, whose top comes first. */
  lemma WalkStep(m: NodeMap, id: Id, rest: seq<Id>, done: seq<Id>)
    ensures Walk(m, [id] + rest, done) ==
      if id !in m || id in done then Walk(m, rest, done)
      else Walk(m, m[id].childIds + rest, done + [id])
  {
    assert ([id] + rest)[1..] == rest;
    if id in m && id !in done {
      WalkConcat(m, m[id].childIds, rest, done + [id]);
    }
  }

  /** Each node is visited at most once, and only nodes of the map are. */
  lemma {:induction false} WalkDistinct(m: NodeMap, ids: seq<Id>, done: seq<Id>)
    requires Distinct(done)
    ensures Distinct(Walk(m, ids, done))
    ensures forall x :: x in Walk(m, ids, done) ==> x in done || x in m
    decreases Left(m, done), |ids|
  {
    if ids != [] {
      if ids[0] !in m || ids[0] in done {
        WalkDistinct(m, ids[1..], done);
      } else {
        VisitShrinks(m, done, ids[0]);
        var inner := Walk(m, m[ids[0]].childIds, done + [ids[0]]);
        PrefixShrinks(m, done + [ids[0]], inner);
        WalkDistinct(m, m[ids[0]].childIds, done + [ids[0]]);
        WalkDistinct(m, ids[1..], inner);
      }
    }
  }

  /** What is newly visited was asked for or is listed by a node visited before it. */
  predicate Led(m: NodeMap, ids: seq<Id>, done: seq<Id>, r: seq<Id>) {
    forall i :: |done| <= i < |r| ==> r[i] in ids || exists j :: 0 <= j < i && Lists(m, r[j], r[i])
  }

  predicate Lists(m: NodeMap, parent: Id, child: Id) {
    parent in m && child in m[parent].childIds
  }

  lemma {:induction false} WalkLed(m: NodeMap, ids: seq<Id>, done: seq<Id>)
    ensures Led(m, ids, done, Walk(m, ids, done))
    decreases Left(m, done), |ids|
  {
    if ids != [] {
      if ids[0] !in m || ids[0] in done {
        WalkLed(m, ids[1..], done);
      } else {
        VisitShrinks(m, done, ids[0]);
        var start := done + [ids[0]];
        var inner := Walk(m, m[ids[0]].childIds, start);
        PrefixShrinks(m, start, inner);
        WalkLed(m, m[ids[0]].childIds, start);
        WalkLed(m, ids[1..], inner);
        LedJoin(m, ids, done, inner, Walk(m, ids[1..], inner));
      }
    }
  }

  lemma LedJoin(m: NodeMap, ids: seq<Id>, done: seq<Id>, inner: seq<Id>, r: seq<Id>)
    requires ids != [] && ids[0] in m && done + [ids[0]] <= inner <= r
    requires Led(m, m[ids[0]].childIds, done + [ids[0]], inner) && Led(m, ids[1..], inner, r)
    ensures Led(m, ids, done, r)
  {
    forall i | |done| <= i < |r|
      ensures r[i] in ids || exists j :: 0 <= j < i && Lists(m, r[j], r[i])
    {
      if |inner| <= i {
        assert r[i] in ids[1..] ==> r[i] in ids;
      } else {
        assert r[i] == inner[i];
        if |done| < i {
          if r[i] in m[ids[0]].childIds {
            assert Lists(m, r[|done|], r[i]);
          } else {
            var j :| 0 <= j < i && Lists(m, inner[j], inner[i]);
            assert Lists(m, r[j], r[i]);
          }
        }
      }
    }
  }

  /** Every id asked for is visited, and so is every child of a newly visited node. */
  predicate Covers(m: NodeMap, ids: seq<Id>, r: seq<Id>) {
    forall x :: x in ids && x in m ==> x in r
  }

  predicate Closes(m: NodeMap, done: seq<Id>, r: seq<Id>) {
    forall i :: |done| <= i < |r| && r[i] in m ==> Covers(m, m[r[i]].childIds, r)
  }

  lemma {:induction false} WalkCloses(m: NodeMap, ids: seq<Id>, done: seq<Id>)
    ensures Covers(m, ids, Walk(m, ids, done)) && Closes(m, done, Walk(m, ids, done))
    decreases Left(m, done), |ids|
  {
    if ids != [] {
      assert forall x :: x in ids ==> x == ids[0] || x in ids[1..];
      if ids[0] !in m || ids[0] in done {
        WalkCloses(m, ids[1..], done);
      } else {
        VisitShrinks(m, done, ids[0]);
        var start := done + [ids[0]];
        var inner := Walk(m, m[ids[0]].childIds, start);
        PrefixShrinks(m, start, inner);
        WalkCloses(m, m[ids[0]].childIds, start);
        WalkCloses(m, ids[1..], inner);
        ClosesJoin(m, ids, done, inner, Walk(m, ids[1..], inner));
      }
    }
  }

  lemma ClosesJoin(m: NodeMap, ids: seq<Id>, done: seq<Id>, inner: seq<Id>, r: seq<Id>)
    requires ids != [] && ids[0] in m && done + [ids[0]] <= inner <= r
    requires Covers(m, m[ids[0]].childIds, inner) && Closes(m, done + [ids[0]], inner)
    requires Covers(m, ids[1..], r) && Closes(m, inner, r)
    ensures Covers(m, ids, r) && Closes(m, done, r)
  {
    assert forall x :: x in ids ==> x == ids[0] || x in ids[1..];
    assert r[|done|] == ids[0];
    forall i | |done| <= i < |r| && r[i] in m
      ensures Covers(m, m[r[i]].childIds, r)
    {
      if i < |inner| {
        assert r[i] == inner[i];
        assert Covers(m, m[inner[i]].childIds, inner);
        forall x | x in m[r[i]].childIds && x in m
          ensures x in r
        {
          assert x in inner;
        }
      }
    }
  }
}
