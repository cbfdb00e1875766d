/**
 * When parents come before their children: document order is the order of the least
 * paths of root and child positions.
 */
module AxPaths {
  import opened Options
  import opened AxWalk
  import opened AxOrder

  /** The path names x: a position among ids, then positions among the children. */
  predicate PathTo(m: NodeMap, ids: seq<Id>, path: seq<nat>, x: Id)
    decreases |path|
  {
    && path != [] && path[0] < |ids| && ids[path[0]] in m
    && if |path| == 1 then ids[path[0]] == x else PathTo(m, m[ids[path[0]]].childIds, path[1..], x)
  }

  /** Lexicographic order, in which a path comes before its extensions. */
  predicate Less(p: seq<nat>, q: seq<nat>) {
    q != [] && (p == [] || p[0] < q[0] || (p[0] == q[0] && Less(p[1..], q[1..])))
  }

  lemma {:induction false} LessAsymmetric(p: seq<nat>, q: seq<nat>)
    requires Less(p, q)
    ensures !Less(q, p)
  {
    if p != [] && p[0] == q[0] {
      LessAsymmetric(p[1..], q[1..]);
    }
  }

  ghost predicate Found(m: NodeMap, ids: seq<Id>, x: Id) {
    exists path :: PathTo(m, ids, path, x)
  }

  /** Some path to a is less than every path to b, so the least path to a is. */
  ghost predicate Ahead(m: NodeMap, ids: seq<Id>, a: Id, b: Id) {
    exists p :: PathTo(m, ids, p, a) && forall q :: PathTo(m, ids, q, b) ==> Less(p, q)
  }

  lemma AheadAsymmetric(m: NodeMap, ids: seq<Id>, a: Id, b: Id)
    requires Ahead(m, ids, a, b)
    ensures !Ahead(m, ids, b, a)
  {
    var p :| PathTo(m, ids, p, a) && forall q :: PathTo(m, ids, q, b) ==> Less(p, q);
    if Ahead(m, ids, b, a) {
      var q :| PathTo(m, ids, q, b) && forall p' :: PathTo(m, ids, p', a) ==> Less(q, p');
      LessAsymmetric(p, q);
    }
  }

  // ---- paths through the first id and past it ----

  lemma PathInside(m: NodeMap, ids: seq<Id>, k: nat, path: seq<nat>, x: Id)
    requires k < |ids| && ids[k] in m && PathTo(m, m[ids[k]].childIds, path, x)
    ensures PathTo(m, ids, [k] + path, x)
  {
    assert ([k] + path)[1..] == path;
  }

  lemma PathPast(m: NodeMap, ids: seq<Id>, path: seq<nat>, x: Id)
    requires ids != [] && path != []
    ensures PathTo(m, ids[1..], path, x) <==> PathTo(m, ids, [path[0] + 1] + path[1..], x)
  {
    var later := [path[0] + 1] + path[1..];
    assert later[1..] == path[1..];
    if path[0] < |ids| - 1 {
      assert ids[1..][path[0]] == ids[path[0] + 1];
    }
  }

  lemma FoundPast(m: NodeMap, ids: seq<Id>, x: Id)
    requires ids != [] && Found(m, ids[1..], x)
    ensures Found(m, ids, x)
  {
    var path :| PathTo(m, ids[1..], path, x);
    PathPast(m, ids, path, x);
  }

  lemma FoundInside(m: NodeMap, ids: seq<Id>, k: nat, x: Id)
    requires k < |ids| && ids[k] in m && Found(m, m[ids[k]].childIds, x)
    ensures Found(m, ids, x)
  {
    var path :| PathTo(m, m[ids[k]].childIds, path, x);
    PathInside(m, ids, k, path, x);
  }

  lemma {:induction false} PathEnds(m: NodeMap, ids: seq<Id>, path: seq<nat>, x: Id)
    requires PathTo(m, ids, path, x)
    ensures x in m
    decreases |path|
  {
    if |path| > 1 {
      PathEnds(m, m[ids[path[0]]].childIds, path[1..], x);
    }
  }

  /** No path to b goes through the first id. */
  ghost predicate NotUnderFirst(m: NodeMap, ids: seq<Id>, b: Id) {
    forall q :: PathTo(m, ids, q, b) ==> q[0] > 0
  }

  lemma AheadPast(m: NodeMap, ids: seq<Id>, a: Id, b: Id)
    requires ids != [] && Ahead(m, ids[1..], a, b) && NotUnderFirst(m, ids, b)
    ensures Ahead(m, ids, a, b)
  {
    var p :| PathTo(m, ids[1..], p, a) && forall q :: PathTo(m, ids[1..], q, b) ==> Less(p, q);
    PathPast(m, ids, p, a);
    var p' := [p[0] + 1] + p[1..];
    forall q | PathTo(m, ids, q, b)
      ensures Less(p', q)
    {
      var q' := [q[0] - 1] + q[1..];
      assert [q'[0] + 1] + q'[1..] == q;
      PathPast(m, ids, q', b);
      assert p'[1..] == p[1..] && q'[1..] == q[1..];
    }
  }

  /** What the first id leads to is ahead of what it does not lead to. */
  lemma AheadOfPast(m: NodeMap, ids: seq<Id>, path: seq<nat>, a: Id, b: Id)
    requires PathTo(m, ids, path, a) && path[0] == 0 && NotUnderFirst(m, ids, b)
    ensures Ahead(m, ids, a, b)
  {
    assert forall q :: PathTo(m, ids, q, b) ==> Less(path, q);
  }

  lemma AheadInside(m: NodeMap, ids: seq<Id>, a: Id, b: Id)
    requires ids != [] && ids[0] in m && ids[0] != b && Ahead(m, m[ids[0]].childIds, a, b)
    ensures Ahead(m, ids, a, b)
  {
    var p :| PathTo(m, m[ids[0]].childIds, p, a) && forall q :: PathTo(m, m[ids[0]].childIds, q, b) ==> Less(p, q);
    PathInside(m, ids, 0, p, a);
    assert ([0] + p)[1..] == p;
    assert forall q :: PathTo(m, ids, q, b) ==> Less([0] + p, q);
  }

  lemma FirstIsAhead(m: NodeMap, ids: seq<Id>, b: Id)
    requires ids != [] && ids[0] in m && ids[0] != b
    ensures Ahead(m, ids, ids[0], b)
  {
    assert PathTo(m, ids, [0], ids[0]);
    forall q | PathTo(m, ids, q, b)
      ensures Less([0], q)
    {
      assert [0][1..] == [];
    }
  }

  // ---- the walk ----

  /** Rank grows along every link between two nodes. */
  ghost predicate Ranked(m: NodeMap, rank: map<Id, nat>) {
    forall p, c :: p in m && c in m[p].childIds && c in m ==> p in rank && c in rank && rank[p] < rank[c]
  }

  /** What has been visited and can be met again has had its children visited. */
  ghost predicate Safe(m: NodeMap, ids: seq<Id>, done: seq<Id>) {
    forall y :: y in done && Found(m, ids, y) ==> y in m && Covers(m, m[y].childIds, done)
  }

  lemma SafeInside(m: NodeMap, ids: seq<Id>, done: seq<Id>, k: nat)
    requires Safe(m, ids, done) && k < |ids| && ids[k] in m
    ensures Safe(m, m[ids[k]].childIds, done)
  {
    hide Found;
    forall y | y in done && Found(m, m[ids[k]].childIds, y)
      ensures y in m && Covers(m, m[y].childIds, done)
    {
      FoundInside(m, ids, k, y);
    }
  }

  lemma SafePast(m: NodeMap, ids: seq<Id>, done: seq<Id>)
    requires ids != [] && Safe(m, ids, done)
    ensures Safe(m, ids[1..], done)
  {
    hide Found;
    forall y | y in done && Found(m, ids[1..], y)
      ensures y in m && Covers(m, m[y].childIds, done)
    {
      FoundPast(m, ids, y);
    }
  }

  /** A path that starts at a visited node ends at one. */
  lemma {:induction false} SafeStays(m: NodeMap, ids: seq<Id>, done: seq<Id>, path: seq<nat>, x: Id)
    requires Safe(m, ids, done) && PathTo(m, ids, path, x) && ids[path[0]] in done
    ensures x in done
    decreases |path|
  {
    var y := ids[path[0]];
    if |path| > 1 {
      assert PathTo(m, ids, [path[0]], y);
      assert Found(m, ids, y);
      SafeInside(m, ids, done, path[0]);
      SafeStays(m, m[y].childIds, done, path[1..], x);
    }
  }

  lemma {:induction false} RankGrows(m: NodeMap, rank: map<Id, nat>, p: Id, path: seq<nat>, x: Id)
    requires Ranked(m, rank) && p in m && PathTo(m, m[p].childIds, path, x)
    ensures p in rank && x in rank && rank[p] < rank[x]
    decreases |path|
  {
    var c := m[p].childIds[path[0]];
    if |path| > 1 {
      RankGrows(m, rank, c, path[1..], x);
    }
  }

  lemma NotBelowItself(m: NodeMap, rank: map<Id, nat>, x: Id)
    requires Ranked(m, rank) && x in m
    ensures !Found(m, m[x].childIds, x)
  {
    if Found(m, m[x].childIds, x) {
      var path :| PathTo(m, m[x].childIds, path, x);
      RankGrows(m, rank, x, path, x);
    }
  }

  lemma SafeStart(m: NodeMap, ids: seq<Id>, done: seq<Id>, rank: map<Id, nat>)
    requires Safe(m, ids, done) && Ranked(m, rank) && ids != [] && ids[0] in m
    ensures Safe(m, m[ids[0]].childIds, done + [ids[0]])
  {
    hide Found, Ranked;
    SafeInside(m, ids, done, 0);
    NotBelowItself(m, rank, ids[0]);
    forall y | y in done + [ids[0]] && Found(m, m[ids[0]].childIds, y)
      ensures y in m && Covers(m, m[y].childIds, done + [ids[0]])
    {
      assert y in done;
    }
  }

  lemma SafeAfter(m: NodeMap, ids: seq<Id>, done: seq<Id>, inner: seq<Id>)
    requires Safe(m, ids, done) && ids != [] && ids[0] in m && done + [ids[0]] <= inner
    requires Covers(m, m[ids[0]].childIds, inner) && Closes(m, done + [ids[0]], inner)
    ensures Safe(m, ids, inner)
  {
    forall y | y in inner && Found(m, ids, y)
      ensures y in m && Covers(m, m[y].childIds, inner)
    {
      var path :| PathTo(m, ids, path, y);
      PathEnds(m, ids, path, y);
      var k :| 0 <= k < |inner| && inner[k] == y;
      if k < |done| {
        assert y == done[k];
        forall x | x in m[y].childIds && x in m
          ensures x in inner
        {
          var h :| 0 <= h < |done| && done[h] == x;
          assert inner[h] == x;
        }
      } else if k == |done| {
        assert y == ids[0];
      } else {
        assert Covers(m, m[inner[k]].childIds, inner);
      }
    }
  }

  lemma UnderVisited(m: NodeMap, ids: seq<Id>, done: seq<Id>, b: Id)
    requires Safe(m, ids, done) && ids != [] && (ids[0] in m ==> ids[0] in done) && b !in done
    ensures NotUnderFirst(m, ids, b)
  {
    hide Safe;
    forall q | PathTo(m, ids, q, b)
      ensures q[0] > 0
    {
      if q[0] == 0 {
        SafeStays(m, ids, done, q, b);
      }
    }
  }

  ghost predicate AllFound(m: NodeMap, ids: seq<Id>, from: nat, r: seq<Id>) {
    forall i :: from <= i < |r| ==> Found(m, ids, r[i])
  }

  ghost predicate InPathOrder(m: NodeMap, ids: seq<Id>, from: nat, r: seq<Id>) {
    forall i, j :: from <= i < j < |r| ==> Ahead(m, ids, r[i], r[j])
  }

  /** The walk visits by paths, in the order of the least ones. */
  lemma {:induction false} WalkInPathOrder(m: NodeMap, ids: seq<Id>, done: seq<Id>, rank: map<Id, nat>)
    requires Ranked(m, rank) && Safe(m, ids, done) && Distinct(done)
    ensures AllFound(m, ids, |done|, Walk(m, ids, done)) && InPathOrder(m, ids, |done|, Walk(m, ids, done))
    decreases Left(m, done), |ids|
  {
    hide Found, Ahead, Ranked, Safe, NotUnderFirst, AllFound, InPathOrder, Covers, Closes, PathTo, Distinct, Walk, Left;
    var r := Walk(m, ids, done);
    if ids == [] {
      WalkNothing(m, done);
      NothingFound(m, ids, done);
    } else if ids[0] !in m || ids[0] in done {
      WalkSkips(m, ids, done);
      SafePast(m, ids, done);
      WalkInPathOrder(m, ids[1..], done, rank);
      SkippedFirst(m, ids, done, r);
    } else {
      var start, inner := WalkVisits(m, ids, done);
      SafeStart(m, ids, done, rank);
      WalkInPathOrder(m, m[ids[0]].childIds, start, rank);
      SafeAfter(m, ids, done, inner);
      SafePast(m, ids, inner);
      WalkInPathOrder(m, ids[1..], inner, rank);
      SkippedFirst(m, ids, inner, r);
      VisitedFirst(m, ids, done, inner, r);
    }
  }

  lemma WalkSkips(m: NodeMap, ids: seq<Id>, done: seq<Id>)
    requires ids != [] && (ids[0] !in m || ids[0] in done) && Distinct(done)
    ensures Walk(m, ids, done) == Walk(m, ids[1..], done) && Distinct(Walk(m, ids, done))
  {
    WalkDistinct(m, ids, done);
  }

  lemma WalkVisits(m: NodeMap, ids: seq<Id>, done: seq<Id>) returns (start: seq<Id>, inner: seq<Id>)
    requires ids != [] && ids[0] in m && ids[0] !in done && Distinct(done)
    ensures start == done + [ids[0]] && inner == Walk(m, m[ids[0]].childIds, start) && Walk(m, ids, done) == Walk(m, ids[1..], inner)
    ensures Left(m, start) < Left(m, done) && Left(m, inner) < Left(m, done)
    ensures start <= inner && ids[0] in inner && Distinct(start) && Distinct(inner) && Distinct(Walk(m, ids, done))
    ensures Covers(m, m[ids[0]].childIds, inner) && Closes(m, start, inner)
  {
    hide Left, Covers, Closes, Distinct;
    start := done + [ids[0]];
    inner := Walk(m, m[ids[0]].childIds, start);
    VisitShrinks(m, done, ids[0]);
    PrefixShrinks(m, start, inner);
    DistinctMore(done, ids[0]);
    WalkDistinct(m, m[ids[0]].childIds, start);
    WalkDistinct(m, ids, done);
    WalkCloses(m, m[ids[0]].childIds, start);
    assert inner[|done|] == ids[0];
  }

  lemma DistinctMore(done: seq<Id>, id: Id)
    requires Distinct(done) && id !in done
    ensures Distinct(done + [id])
  {}

  lemma NothingFound(m: NodeMap, ids: seq<Id>, done: seq<Id>)
    ensures AllFound(m, ids, |done|, done) && InPathOrder(m, ids, |done|, done)
  {}

  lemma SkippedFirst(m: NodeMap, ids: seq<Id>, done: seq<Id>, r: seq<Id>)
    requires ids != [] && Safe(m, ids, done) && (ids[0] in m ==> ids[0] in done) && done <= r && Distinct(r)
    requires AllFound(m, ids[1..], |done|, r) && InPathOrder(m, ids[1..], |done|, r)
    ensures AllFound(m, ids, |done|, r) && InPathOrder(m, ids, |done|, r)
    ensures forall j :: |done| <= j < |r| ==> NotUnderFirst(m, ids, r[j])
  {
    hide Found, Ahead, Safe, NotUnderFirst;
    forall j | |done| <= j < |r|
      ensures NotUnderFirst(m, ids, r[j]) && Found(m, ids, r[j])
    {
      FoundPast(m, ids, r[j]);
      UnderVisited(m, ids, done, r[j]);
    }
    forall i, j | |done| <= i < j < |r|
      ensures Ahead(m, ids, r[i], r[j])
    {
      AheadPast(m, ids, r[i], r[j]);
    }
  }

  lemma VisitedFirst(m: NodeMap, ids: seq<Id>, done: seq<Id>, inner: seq<Id>, r: seq<Id>)
    requires ids != [] && ids[0] in m && done + [ids[0]] <= inner <= r && Distinct(r)
    requires AllFound(m, m[ids[0]].childIds, |done| + 1, inner) && InPathOrder(m, m[ids[0]].childIds, |done| + 1, inner)
    requires AllFound(m, ids, |inner|, r) && InPathOrder(m, ids, |inner|, r)
    requires forall j :: |inner| <= j < |r| ==> NotUnderFirst(m, ids, r[j])
    ensures AllFound(m, ids, |done|, r) && InPathOrder(m, ids, |done|, r)
  {
    hide Ahead, NotUnderFirst;
    var n := |done|;
    assert r[n] == ids[0];
    assert PathTo(m, ids, [0], r[n]);
    forall i | n <= i < |inner|
      ensures exists path :: PathTo(m, ids, path, r[i]) && path[0] == 0
    {
      if i == n {
        assert [0][0] == 0;
      } else {
        assert Found(m, m[ids[0]].childIds, inner[i]);
        var path :| PathTo(m, m[ids[0]].childIds, path, inner[i]);
        PathInside(m, ids, 0, path, r[i]);
        assert ([0] + path)[0] == 0;
      }
    }
    forall i, j | n <= i < j < |r|
      ensures Ahead(m, ids, r[i], r[j])
    {
      if j < |inner| {
        if i == n {
          FirstIsAhead(m, ids, r[j]);
        } else {
          assert Ahead(m, m[ids[0]].childIds, inner[i], inner[j]);
          AheadInside(m, ids, r[i], r[j]);
        }
      } else if i < |inner| {
        var path :| PathTo(m, ids, path, r[i]) && path[0] == 0;
        AheadOfPast(m, ids, path, r[i], r[j]);
      }
    }
  }

  // ---- document order ----

  ghost predicate AheadIn(nodes: seq<Node>, a: Id, b: Id) {
    Ahead(ById(nodes), Roots(nodes, nodes), a, b)
  }

  lemma AcyclicRanked(nodes: seq<Node>, rank: map<Id, nat>)
    requires Acyclic(nodes, rank)
    ensures Ranked(ById(nodes), rank)
  {}

  /** Without cycles one node precedes another exactly when its least path is less. */
  lemma OrderIsPathOrder(nodes: seq<Node>, rank: map<Id, nat>, i: nat, j: nat)
    requires UniqueIds(nodes) && Acyclic(nodes, rank)
    requires i < |DocumentOrder(nodes)| && j < |DocumentOrder(nodes)| && i != j
    ensures i < j <==> AheadIn(nodes, DocumentOrder(nodes)[i].id, DocumentOrder(nodes)[j].id)
  {
    hide Walk, Roots, Outside, ById, Ahead, Acyclic, Ranked, Found;
    var m, roots, r := ById(nodes), Roots(nodes, nodes), Reached(nodes);
    WalkDistinct(m, roots, []);
    forall n | n in nodes
      ensures n.id in r
    {
      AcyclicReached(nodes, rank, n);
    }
    OutsideNone(nodes, r);
    AcyclicRanked(nodes, rank);
    WalkInPathOrder(m, roots, [], rank);
    var a, b := DocumentOrder(nodes)[i].id, DocumentOrder(nodes)[j].id;
    assert a == r[i] && b == r[j];
    if i > j {
      AheadAsymmetric(m, roots, b, a);
    }
  }

  /** Every node comes after all the nodes that list it. */
  predicate ParentsFirst(ordered: seq<Node>) {
    forall i, j :: 0 <= i < |ordered| && 0 <= j < |ordered| && ordered[i].id in ordered[j].childIds ==> j < i
  }

  /**
   * Without cycles document order puts every parent before its children exactly when,
   * along every child link, the least path to the parent is less than those to the child.
   */
  lemma ParentsFirstIff(nodes: seq<Node>, rank: map<Id, nat>)
    requires UniqueIds(nodes) && Acyclic(nodes, rank)
    ensures ParentsFirst(DocumentOrder(nodes)) <==>
      forall p, c :: p in nodes && c in nodes && c.id in p.childIds ==> AheadIn(nodes, p.id, c.id)
  {
    hide DocumentOrder, AheadIn, Acyclic;
    var ordered := DocumentOrder(nodes);
    OrderMembers(nodes);
    if ParentsFirst(ordered) {
      forall p, c | p in nodes && c in nodes && c.id in p.childIds
        ensures AheadIn(nodes, p.id, c.id)
      {
        assert p in ordered && c in ordered;
        var j :| 0 <= j < |ordered| && ordered[j] == p;
        var i :| 0 <= i < |ordered| && ordered[i] == c;
        OrderIsPathOrder(nodes, rank, j, i);
      }
    }
    if forall p, c :: p in nodes && c in nodes && c.id in p.childIds ==> AheadIn(nodes, p.id, c.id) {
      forall i, j | 0 <= i < |ordered| && 0 <= j < |ordered| && ordered[i].id in ordered[j].childIds
        ensures j < i
      {
        assert ordered[i] in nodes && ordered[j] in nodes;
        NotItsOwnChild(nodes, rank, ordered[j]);
        OrderIsPathOrder(nodes, rank, j, i);
      }
    }
  }

  lemma NotItsOwnChild(nodes: seq<Node>, rank: map<Id, nat>, n: Node)
    requires Acyclic(nodes, rank) && n in nodes
    ensures n.id !in n.childIds
  {
    assert n.id in ById(nodes);
  }
}
