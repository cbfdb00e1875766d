/**
 * The laws of the whole request lifecycle, kept by every step the daemon takes.
 */
module DaemonLaws {
  import opened Options
  import opened FiniteSets
  import opened DaemonState
  import opened SchedulerLaws

  // How often a request has been answered

  function Answers(sent: seq<Message>, id: RequestId): nat {
    if sent == [] then 0
    else Answers(sent[..|sent| - 1], id) + if Answering(sent[|sent| - 1], id) then 1 else 0
  }

  predicate Answering(m: Message, id: RequestId) {
    m.Answer? && m.id == id
  }

  lemma AnswersAppend(sent: seq<Message>, m: Message, id: RequestId)
    ensures Answers(sent + [m], id) == Answers(sent, id) + if Answering(m, id) then 1 else 0
  {
    assert (sent + [m])[..|sent|] == sent;
  }

  lemma {:induction false} AnswersExtend(a: seq<Message>, b: seq<Message>, id: RequestId)
    requires a <= b && forall i :: |a| <= i < |b| ==> !b[i].Answer?
    ensures Answers(b, id) == Answers(a, id)
    decreases |b|
  {
    if |a| == |b| {
      assert a == b;
    } else {
      AnswersExtend(a, b[..|b| - 1], id);
    }
  }

  // The laws beside the scheduler's own

  function OwnedBy(s: State, p: PeerId): set<RequestId> {
    set id | id in s.pending && s.pending[id].owner == p
  }

  function StoredFor(s: State, p: PeerId): set<(PeerId, string)> {
    set o | o in s.storing && o.0 == p
  }

  ghost predicate PendingPeople(s: State, leaving: set<PeerId>) {
    forall id <- s.pending ::
      && s.pending[id].owner in s.peers && s.pending[id].target in s.peers
      && (s.pending[id].owner !in leaving ==> Connected(s, s.pending[id].owner))
      && s.peers[s.pending[id].target].extension
      && (s.pending[id].target !in leaving ==> Connected(s, s.pending[id].target))
  }

  ghost predicate SlotPeople(s: State, leaving: set<PeerId>) {
    forall id <- s.entries ::
      && s.entries[id].target in s.peers && s.peers[s.entries[id].target].extension
      && (s.entries[id].target !in leaving ==> Connected(s, s.entries[id].target))
  }

  /** Requests and slots belong to connected peers, except those in leaving. */
  ghost predicate People(s: State, leaving: set<PeerId>) {
    PendingPeople(s, leaving) && SlotPeople(s, leaving) && (forall o <- s.storing :: o.0 in s.peers)
  }

  /** Each peer's counter is its routed requests plus its storage requests. */
  ghost predicate Counted(s: State) {
    forall p <- s.peers :: s.peers[p].pending == |OwnedBy(s, p)| + |StoredFor(s, p)|
  }

  /** Every accepted request waits unanswered, or was answered once, or lost its owner. */
  ghost predicate Answered(s: State) {
    && s.entries.Keys <= s.owners.Keys
    && (forall id <- s.pending :: id in s.owners && s.owners[id] == s.pending[id].owner && Answers(s.sent, id) == 0)
    && (forall id <- s.owners :: s.owners[id] in s.peers && Answers(s.sent, id) <= 1)
    && (forall id <- s.owners :: id !in s.pending && Connected(s, s.owners[id]) ==> Answers(s.sent, id) == 1)
    && (forall id {:trigger Answers(s.sent, id)} :: id !in s.owners ==> Answers(s.sent, id) == 0)
  }

  ghost predicate Capacity(s: State) {
    && |s.entries| <= MAX_SCHEDULED && |s.pending| <= MAX_PENDING
    && (forall p <- s.queues :: |s.queues[p]| <= MAX_QUEUE)
    && (forall p <- s.peers :: s.peers[p].pending <= MAX_PEER_PENDING)
  }

  /** No cancelled slot has outlived its timer. */
  ghost predicate Timers(s: State) {
    forall id <- s.entries :: s.entries[id].expiry.Some? ==> s.now <= s.entries[id].expiry.value
  }

  ghost predicate Frame(s: State, leaving: set<PeerId>) {
    People(s, leaving) && Counted(s) && Answered(s) && Capacity(s) && Timers(s)
  }

  ghost predicate Inv(s: State, leaving: set<PeerId>) {
    Core(s, {}) && Frame(s, leaving)
  }

  // Steps that leave every request where it was

  predicate SamePending(a: Pending, b: Pending) {
    b == a.(prepared := b.prepared, dispatched := b.dispatched)
  }

  /** An entry is as it was, or was cancelled now and has its timer. */
  predicate LaterEntry(e: Mutation, e': Mutation, now: nat) {
    && e'.target == e.target && e'.id == e.id && e'.deadline == e.deadline
    && ((e'.canceled == e.canceled && e'.expiry == e.expiry)
        || (!e.canceled && e.expiry.None? && e'.canceled && e'.expiry == Some(Max(now, e.deadline) + CANCEL_GRACE)))
  }

  ghost predicate Quiet(s: State, t: State) {
    && t.peers == s.peers && t.storing == s.storing && t.owners == s.owners && t.now == s.now
    && t.pending.Keys == s.pending.Keys && (forall id <- s.pending :: SamePending(s.pending[id], t.pending[id]))
    && s.sent <= t.sent && (forall i :: |s.sent| <= i < |t.sent| ==> !t.sent[i].Answer?)
    && t.entries.Keys <= s.entries.Keys && (forall id <- t.entries :: LaterEntry(s.entries[id], t.entries[id], s.now))
    && t.queues.Keys <= s.queues.Keys && (forall p <- t.queues :: |t.queues[p]| <= |s.queues[p]|)
  }

  lemma QuietSame(s: State)
    ensures Quiet(s, s)
  {}

  lemma QuietTrans(s: State, t: State, u: State)
    requires Quiet(s, t) && Quiet(t, u)
    ensures Quiet(s, u)
  {
    forall id | id in s.pending
      ensures SamePending(s.pending[id], u.pending[id])
    {
      assert SamePending(s.pending[id], t.pending[id]) && SamePending(t.pending[id], u.pending[id]);
    }
    forall id | id in u.entries
      ensures LaterEntry(s.entries[id], u.entries[id], s.now)
    {
      assert LaterEntry(s.entries[id], t.entries[id], s.now) && LaterEntry(t.entries[id], u.entries[id], s.now);
    }
    forall i | |s.sent| <= i < |u.sent|
      ensures !u.sent[i].Answer?
    {
      assert i < |t.sent| ==> u.sent[i] == t.sent[i];
    }
  }

  lemma QuietFrame(s: State, t: State, leaving: set<PeerId>)
    requires Quiet(s, t) && Frame(s, leaving)
    ensures Frame(t, leaving)
  {
    hide Answers, People, Counted, Answered, Capacity, Timers, Quiet;
    QuietPeople(s, t, leaving);
    QuietCounted(s, t);
    QuietAnswered(s, t);
    QuietCapacity(s, t);
    QuietExpiry(s, t);
  }

  lemma QuietExpiry(s: State, t: State)
    requires Quiet(s, t) && Timers(s)
    ensures Timers(t)
  {
    assert forall id <- t.entries :: LaterEntry(s.entries[id], t.entries[id], s.now);
  }

  lemma QuietPeople(s: State, t: State, leaving: set<PeerId>)
    requires Quiet(s, t) && People(s, leaving)
    ensures People(t, leaving)
  {
    assert forall id <- t.entries :: LaterEntry(s.entries[id], t.entries[id], s.now);
    assert forall id <- t.pending :: SamePending(s.pending[id], t.pending[id]);
  }

  lemma QuietCounted(s: State, t: State)
    requires Quiet(s, t) && Counted(s)
    ensures Counted(t)
  {
    forall p | p in t.peers
      ensures OwnedBy(t, p) == OwnedBy(s, p)
    {
      assert forall id <- t.pending :: SamePending(s.pending[id], t.pending[id]);
    }
  }

  lemma QuietAnswered(s: State, t: State)
    requires Quiet(s, t) && Answered(s)
    ensures Answered(t)
  {
    hide Answers;
    forall id
      ensures Answers(t.sent, id) == Answers(s.sent, id)
    {
      AnswersExtend(s.sent, t.sent, id);
    }
    assert forall id <- t.pending :: SamePending(s.pending[id], t.pending[id]);
  }

  lemma QuietCapacity(s: State, t: State)
    requires Quiet(s, t) && Capacity(s)
    ensures Capacity(t)
  {
    SubsetSize(t.entries.Keys, s.entries.Keys);
    assert |t.pending| == |t.pending.Keys| && |s.pending| == |s.pending.Keys|;
    assert |t.entries| == |t.entries.Keys| && |s.entries| == |s.entries.Keys|;
  }

  lemma GrantQuiet(s: State, p: PeerId)
    ensures Quiet(s, Grant(s, p))
  {
    hide Grant;
    GrantHasEffect(s, p);
    var t := Grant(s, p);
    assert forall id <- s.entries :: EntryGrant(s.entries[id], t.entries[id], s.now);
  }

  // Leaving the scheduler

  lemma {:induction false} WithoutElements(q: seq<RequestId>, id: RequestId)
    requires NoDuplicates(q)
    ensures NoDuplicates(Without(q, id)) && |Without(q, id)| <= |q|
    ensures forall x :: x in Without(q, id) <==> x in q && x != id
    decreases |q|
  {
    if q != [] {
      assert forall i :: 0 < i < |q| ==> q[i] == q[1..][i - 1];
      assert q[0] !in q[1..];
      WithoutElements(q[1..], id);
      if q[0] != id {
        var w := Without(q[1..], id);
        assert q[0] !in w;
        forall i, j | 0 <= i < j < |[q[0]] + w|
          ensures ([q[0]] + w)[i] != ([q[0]] + w)[j]
        {
          assert ([q[0]] + w)[j] == w[j - 1] && w[j - 1] in w;
          assert i > 0 ==> ([q[0]] + w)[i] == w[i - 1];
        }
      }
    }
  }

  /** Taking one entry out of a queue keeps the others in their order. */
  lemma {:induction false} WithoutOrdered(s: State, q: seq<RequestId>, id: RequestId)
    requires Ordered(s, q)
    ensures Ordered(s, Without(q, id))
    decreases |q|
  {
    hide OrderOk;
    if q != [] {
      var rest := q[1..];
      assert forall i :: 0 <= i < |rest| ==> rest[i] == q[i + 1];
      assert Ordered(s, rest);
      if q[0] != id {
        WithoutOrdered(s, rest, id);
        var w := [q[0]] + Without(rest, id);
        WithoutWithin(rest, id);
        forall i, j | 0 <= i < j < |w| && w[i] in s.entries && w[j] in s.entries
          ensures OrderOk(s.entries[w[i]], s.entries[w[j]])
        {
          if i == 0 {
            assert w[j] in rest;
            var k :| 0 <= k < |rest| && rest[k] == w[j];
            assert q[k + 1] == w[j];
          } else {
            assert w[i] == Without(rest, id)[i - 1] && w[j] == Without(rest, id)[j - 1];
          }
        }
      }
    }
  }

  lemma {:induction false} WithoutWithin(q: seq<RequestId>, id: RequestId)
    ensures forall x :: x in Without(q, id) ==> x in q
    decreases |q|
  {
    if q != [] {
      WithoutWithin(q[1..], id);
    }
  }

  lemma UnscheduleTables(s: State, id: RequestId)
    requires Tables(s) && id in s.entries
    ensures Tables(Unschedule(s, id, s.entries[id].target))
    ensures Quiet(s, Unschedule(s, id, s.entries[id].target))
  {
    hide NoDuplicates;
    var p := s.entries[id].target;
    var t := Unschedule(s, id, p);
    var q := Queue(s, p);
    WithoutElements(q, id);
    assert id in q;
    forall x | x in t.entries
      ensures t.entries[x].id == x && t.entries[x].target in t.queues && x in t.queues[t.entries[x].target]
    {
      assert x in s.entries && x != id;
      if s.entries[x].target == p {
        assert x in Without(q, id);
      }
    }
    forall r | r in t.queues
      ensures t.queues[r] != [] && NoDuplicates(t.queues[r])
      ensures forall x <- t.queues[r] :: x in t.entries && t.entries[x].target == r
    {
      if r != p {
        forall x | x in t.queues[r]
          ensures x in t.entries && t.entries[x].target == r
        {
          assert s.entries[x].target == r;
        }
      }
    }
  }

  lemma UnscheduleKeeps(s: State, id: RequestId, hole: set<RequestId>)
    requires Core(s, hole) && id in s.entries
    ensures var t := Unschedule(s, id, s.entries[id].target);
            Core(t, hole) && Core(t, hole - {id}) && Quiet(s, t) && id !in t.entries
  {
    hide Tables, Quiet, OrderOk, SlotOk, Without;
    var p := s.entries[id].target;
    var t := Unschedule(s, id, p);
    UnscheduleTables(s, id);
    forall r | r in t.queues
      ensures Ordered(t, t.queues[r])
    {
      if r == p {
        QueueOrdered(s, p, hole);
        WithoutOrdered(s, Queue(s, p), id);
      } else {
        assert Ordered(s, s.queues[r]);
      }
      assert forall x <- t.entries :: t.entries[x] == s.entries[x];
    }
  }

  lemma QueueOrdered(s: State, p: PeerId, hole: set<RequestId>)
    requires Core(s, hole)
    ensures Ordered(s, Queue(s, p))
  {}

  lemma RemoveKeeps(s: State, id: RequestId, p: PeerId, hole: set<RequestId>)
    requires Core(s, hole) && hole <= {id}
    ensures Core(RemoveMutation(s, id, p), hole) && Quiet(s, RemoveMutation(s, id, p))
    ensures id in s.entries && s.entries[id].target == p ==>
      && Core(RemoveMutation(s, id, p), {})
      && id !in RemoveMutation(s, id, p).entries && Settled(RemoveMutation(s, id, p), p)
  {
    hide Core, Quiet, Unschedule, Grant, Settled;
    QuietSame(s);
    if id in s.entries && s.entries[id].target == p {
      var t := Unschedule(s, id, p);
      UnscheduleKeeps(s, id, hole);
      assert hole - {id} == {};
      GrantKeeps(t, p, {});
      GrantQuiet(t, p);
      QuietTrans(s, t, Grant(t, p));
      GrantHasEffect(t, p);
      Widened(Grant(t, p), hole);
    }
  }

  lemma Widened(s: State, hole: set<RequestId>)
    requires Core(s, {})
    ensures Core(s, hole)
  {
    hide Tables, OrderOk, SlotOk;
  }

  /** One entry changes, compatibly with every other entry. */
  lemma EntryChanged(s: State, t: State, id: RequestId, e': Mutation)
    requires Tables(s) && AllOrdered(s) && Slots(s) && id in s.entries
    requires t.queues == s.queues && t.entries == s.entries[id := e'] && e'.target == s.entries[id].target && e'.id == s.entries[id].id
    requires forall x <- s.entries | x != id ::
      && (OrderOk(s.entries[x], s.entries[id]) ==> OrderOk(s.entries[x], e'))
      && (OrderOk(s.entries[id], s.entries[x]) ==> OrderOk(e', s.entries[x]))
      && (SlotOk(s.entries[x], s.entries[id]) && SlotOk(s.entries[id], s.entries[x]) ==> SlotOk(s.entries[x], e') && SlotOk(e', s.entries[x]))
    ensures Tables(t) && AllOrdered(t) && Slots(t)
  {
    hide OrderOk, SlotOk;
    EntryChangedTables(s, t, id, e');
    forall r | r in t.queues
      ensures Ordered(t, t.queues[r])
    {
      var q := t.queues[r];
      assert Ordered(s, q);
      assert NoDuplicates(q);
      forall i, j | 0 <= i < j < |q| && q[i] in t.entries && q[j] in t.entries
        ensures OrderOk(t.entries[q[i]], t.entries[q[j]])
      {
        assert q[i] != q[j];
        assert OrderOk(s.entries[q[i]], s.entries[q[j]]);
      }
    }
    forall a, b | a in t.entries && b in t.entries && a != b
      ensures SlotOk(t.entries[a], t.entries[b])
    {
      assert SlotOk(s.entries[a], s.entries[b]) && SlotOk(s.entries[b], s.entries[a]);
    }
  }

  lemma EntryChangedTables(s: State, t: State, id: RequestId, e': Mutation)
    requires Tables(s) && id in s.entries
    requires t.queues == s.queues && t.entries == s.entries[id := e'] && e'.target == s.entries[id].target && e'.id == s.entries[id].id
    ensures Tables(t)
  {
    hide NoDuplicates;
  }

  lemma MarkCanceledKeeps(s: State, id: RequestId)
    requires Core(s, {id}) && id in s.entries && id !in s.pending
    requires s.entries[id].granted.Some? && !s.entries[id].canceled
    ensures Core(MarkCanceled(s, id), {}) && Quiet(s, MarkCanceled(s, id))
  {
    hide Tables, AllOrdered, Slots, Preempts;
    var t := MarkCanceled(s, id);
    EntryChanged(s, t, id, t.entries[id]);
  }

  lemma CancelKeeps(s: State, id: RequestId)
    requires Core(s, {id}) && id !in s.pending
    ensures Core(CancelMutation(s, id), {}) && Quiet(s, CancelMutation(s, id))
  {
    hide Quiet, MarkCanceled, RemoveMutation, OrderOk, SlotOk, NoDuplicates, Tables, Ordered;
    QuietSame(s);
    if id !in s.entries || s.entries[id].canceled {
      assert Lifecycle(s, {});
    } else if s.entries[id].granted.None? {
      RemoveKeeps(s, id, s.entries[id].target, {id});
    } else {
      MarkCanceledKeeps(s, id);
    }
  }

  /** Cancelling leaves the peers and the request table as they are, but for times of grants. */
  lemma CancelPeers(s: State, id: RequestId)
    ensures CancelMutation(s, id).peers == s.peers && CancelMutation(s, id).pending.Keys == s.pending.Keys
  {
    hide RemoveMutation;
    if id in s.entries {
      RemovePeers(s, id, s.entries[id].target);
    }
  }

  lemma RemovePeers(s: State, id: RequestId, p: PeerId)
    ensures RemoveMutation(s, id, p).peers == s.peers && RemoveMutation(s, id, p).pending.Keys == s.pending.Keys
  {
    hide Grant, Without;
    GrantHasEffect(Unschedule(s, id, p), p);
  }

  // Ending a request

  lemma ForgetKeeps(s: State, id: RequestId)
    requires Core(s, {})
    ensures Core(Forget(s, id), {id})
  {
    hide Tables, OrderOk, SlotOk;
    assert forall r <- s.queues :: Ordered(Forget(s, id), s.queues[r]) by {
      assert forall r <- s.queues :: Ordered(s, s.queues[r]);
    }
    assert Tables(Forget(s, id)) by {
      TablesSame(s, Forget(s, id));
    }
  }

  lemma TablesSame(s: State, t: State)
    requires Tables(s) && t.entries == s.entries && t.queues == s.queues
    ensures Tables(t)
  {}

  /** The scheduler's laws do not depend on peers, messages or history. */
  lemma CoreSame(s: State, t: State, hole: set<RequestId>)
    requires Core(s, hole) && t.entries == s.entries && t.queues == s.queues && t.pending == s.pending
    ensures Core(t, hole)
  {
    hide Tables, OrderOk, SlotOk;
    TablesSame(s, t);
    assert forall r <- s.queues :: Ordered(t, s.queues[r]) by {
      assert forall r <- s.queues :: Ordered(s, s.queues[r]);
    }
  }

  lemma FirstQueued(s: State, p: PeerId)
    requires Tables(s) && p in s.queues
    ensures s.queues[p] != [] && s.queues[p][0] in s.entries && s.entries[s.queues[p][0]].target == p
  {
    hide NoDuplicates;
    assert s.queues[p][0] in s.queues[p];
  }

  // Parts of the frame that a change leaves alone

  lemma CountedSame(s: State, t: State)
    requires Counted(s) && t.pending == s.pending && t.storing == s.storing
    requires forall p <- t.peers :: p in s.peers && t.peers[p].pending == s.peers[p].pending
    ensures Counted(t)
  {
    assert forall p <- t.peers :: OwnedBy(t, p) == OwnedBy(s, p) && StoredFor(t, p) == StoredFor(s, p);
  }

  lemma AnsweredSame(s: State, t: State)
    requires Answered(s) && t.pending == s.pending && t.owners == s.owners && t.sent == s.sent
    requires t.entries.Keys == s.entries.Keys && s.peers.Keys <= t.peers.Keys
    requires forall p <- s.peers :: Connected(t, p) ==> Connected(s, p)
    ensures Answered(t)
  {
    hide Answers, Connected;
  }

  lemma CapacitySame(s: State, t: State)
    requires Capacity(s) && t.pending == s.pending && t.entries == s.entries && t.queues == s.queues
    requires forall p <- t.peers :: t.peers[p].pending <= MAX_PEER_PENDING
    ensures Capacity(t)
  {}

  lemma TimersSame(s: State, t: State)
    requires Timers(s) && t.entries == s.entries && t.now == s.now
    ensures Timers(t)
  {}

  lemma PeopleSame(s: State, t: State, leaving: set<PeerId>, leaving': set<PeerId>)
    requires People(s, leaving) && t.pending == s.pending && t.entries == s.entries && t.storing == s.storing
    requires s.peers.Keys <= t.peers.Keys && leaving <= leaving'
    requires forall p <- s.peers :: t.peers[p].extension == s.peers[p].extension
    requires forall p <- s.peers :: p !in leaving' && Connected(s, p) ==> Connected(t, p)
    ensures People(t, leaving')
  {
    hide Connected;
  }

  // The frame while one request is ending

  /** The owner's counter still includes the request that left the table. */
  ghost predicate EndingCounted(s: State, owner: PeerId) {
    && owner in s.peers
    && (forall p <- s.peers :: s.peers[p].pending == |OwnedBy(s, p)| + |StoredFor(s, p)| + if p == owner then 1 else 0)
  }

  /** The request that left the table has not been answered yet. */
  ghost predicate EndingAnswered(s: State, id: RequestId, owner: PeerId) {
    && id !in s.pending && id in s.owners && s.owners[id] == owner
    && s.entries.Keys <= s.owners.Keys
    && (forall x <- s.pending :: x in s.owners && s.owners[x] == s.pending[x].owner && Answers(s.sent, x) == 0)
    && (forall x <- s.owners :: s.owners[x] in s.peers && Answers(s.sent, x) <= 1)
    && Answers(s.sent, id) == 0
    && (forall x <- s.owners :: x != id && x !in s.pending && Connected(s, s.owners[x]) ==> Answers(s.sent, x) == 1)
    && (forall x {:trigger Answers(s.sent, x)} :: x !in s.owners ==> Answers(s.sent, x) == 0)
  }

  ghost predicate Ending(s: State, id: RequestId, owner: PeerId, leaving: set<PeerId>) {
    People(s, leaving) && Capacity(s) && Timers(s) && EndingCounted(s, owner) && EndingAnswered(s, id, owner)
  }

  lemma ForgetEnds(s: State, id: RequestId, leaving: set<PeerId>)
    requires Frame(s, leaving) && id in s.pending
    ensures Ending(Forget(s, id), id, s.pending[id].owner, leaving)
  {
    hide Answers, OwnedBy, StoredFor, Counted, EndingCounted, Answered, EndingAnswered, People, Capacity;
    ForgetCounted(s, id, leaving);
    ForgetAnswered(s, id);
    ForgetPeople(s, id, leaving);
    ForgetCapacity(s, id);
  }

  lemma ForgetCounted(s: State, id: RequestId, leaving: set<PeerId>)
    requires Counted(s) && People(s, leaving) && id in s.pending
    ensures EndingCounted(Forget(s, id), s.pending[id].owner)
  {
    hide OwnedBy, StoredFor, Forget;
    forall p | p in s.peers
      ensures |OwnedBy(s, p)| == |OwnedBy(Forget(s, id), p)| + (if p == s.pending[id].owner then 1 else 0)
      ensures StoredFor(Forget(s, id), p) == StoredFor(s, p)
    {
      OwnedForget(s, id, p);
    }
    assert Forget(s, id).peers == s.peers && s.pending[id].owner in s.peers by {
      ForgetPeers(s, id);
    }
  }

  lemma ForgetPeers(s: State, id: RequestId)
    ensures Forget(s, id).peers == s.peers
  {}

  lemma OwnedForget(s: State, id: RequestId, p: PeerId)
    requires id in s.pending
    ensures |OwnedBy(s, p)| == |OwnedBy(Forget(s, id), p)| + (if p == s.pending[id].owner then 1 else 0)
    ensures StoredFor(Forget(s, id), p) == StoredFor(s, p)
  {
    var t := Forget(s, id);
    assert s.pending == t.pending[id := s.pending[id]];
    OwnedInsert(t, s, id, p);
  }

  lemma ForgetAnswered(s: State, id: RequestId)
    requires Answered(s) && id in s.pending
    ensures EndingAnswered(Forget(s, id), id, s.pending[id].owner)
  {
    hide Answers;
  }

  lemma ForgetPeople(s: State, id: RequestId, leaving: set<PeerId>)
    requires People(s, leaving)
    ensures People(Forget(s, id), leaving)
  {}

  lemma ForgetCapacity(s: State, id: RequestId)
    requires Capacity(s)
    ensures Capacity(Forget(s, id))
  {
    var t := Forget(s, id);
    SubsetSize(t.pending.Keys, s.pending.Keys);
    assert |t.pending| == |t.pending.Keys| && |s.pending| == |s.pending.Keys|;
  }

  lemma QuietEnding(s: State, t: State, id: RequestId, owner: PeerId, leaving: set<PeerId>)
    requires Quiet(s, t) && Ending(s, id, owner, leaving)
    ensures Ending(t, id, owner, leaving)
  {
    hide Answers, EndingCounted, EndingAnswered, People, Capacity;
    QuietPeople(s, t, leaving);
    QuietCapacity(s, t);
    QuietExpiry(s, t);
    QuietEndingCounted(s, t, owner);
    QuietEndingAnswered(s, t, id, owner);
  }

  lemma QuietEndingCounted(s: State, t: State, owner: PeerId)
    requires Quiet(s, t) && EndingCounted(s, owner)
    ensures EndingCounted(t, owner)
  {
    forall p | p in t.peers
      ensures OwnedBy(t, p) == OwnedBy(s, p) && StoredFor(t, p) == StoredFor(s, p)
    {
      assert forall x <- t.pending :: SamePending(s.pending[x], t.pending[x]);
    }
  }

  lemma QuietEndingAnswered(s: State, t: State, id: RequestId, owner: PeerId)
    requires Quiet(s, t) && EndingAnswered(s, id, owner)
    ensures EndingAnswered(t, id, owner)
  {
    hide Answers;
    forall x
      ensures Answers(t.sent, x) == Answers(s.sent, x)
    {
      AnswersExtend(s.sent, t.sent, x);
    }
    assert forall x <- t.pending :: SamePending(s.pending[x], t.pending[x]);
  }

  /** Counting down, and answering unless the owner left, restores the frame. */
  lemma EndingEnds(s: State, id: RequestId, owner: PeerId, leaving: set<PeerId>, ok: bool)
    requires Ending(s, id, owner, leaving)
    ensures Frame(Send(CountPending(s, owner, -1), Answer(owner, id, ok)), leaving)
    ensures !Connected(s, owner) ==> Frame(CountPending(s, owner, -1), leaving)
  {
    var t := CountPending(s, owner, -1);
    var u := Send(t, Answer(owner, id, ok));
    assert forall p <- s.peers :: t.peers[p] == s.peers[p].(pending := t.peers[p].pending) && t.peers[p].pending <= MAX_PEER_PENDING;
    assert t.peers.Keys == s.peers.Keys;
    hide Answers, EndingAnswered, Answered, People, Capacity, Timers, OwnedBy, StoredFor, CountPending, Send;
    EndingPeople(s, t, leaving);
    EndingPeople(t, u, leaving);
    EndingCounts(s, owner);
    CountedSame(t, u);
    AnsweredOnce(s, t, id, owner, ok);
  }

  lemma EndingCounts(s: State, owner: PeerId)
    requires EndingCounted(s, owner)
    ensures Counted(CountPending(s, owner, -1))
  {
    var t := CountPending(s, owner, -1);
    assert forall p <- t.peers :: OwnedBy(t, p) == OwnedBy(s, p) && StoredFor(t, p) == StoredFor(s, p);
  }

  lemma AnsweredOnce(s: State, t: State, id: RequestId, owner: PeerId, ok: bool)
    requires EndingAnswered(s, id, owner) && t == s.(peers := t.peers)
    requires t.peers.Keys == s.peers.Keys && forall p <- s.peers :: t.peers[p].connected == s.peers[p].connected
    ensures Answered(Send(t, Answer(owner, id, ok)))
    ensures !Connected(s, owner) ==> Answered(t)
  {
    hide Answers;
    var u := Send(t, Answer(owner, id, ok));
    forall x
      ensures Answers(u.sent, x) == Answers(s.sent, x) + if x == id then 1 else 0
    {
      AnswersAppend(s.sent, Answer(owner, id, ok), x);
    }
    assert forall p :: Connected(t, p) == Connected(s, p) && Connected(u, p) == Connected(s, p);
  }

  lemma EndingPeople(s: State, t: State, leaving: set<PeerId>)
    requires People(s, leaving) && Capacity(s) && Timers(s)
    requires t == s.(peers := t.peers, sent := t.sent)
    requires t.peers.Keys == s.peers.Keys
    requires forall p <- s.peers :: t.peers[p] == s.peers[p].(pending := t.peers[p].pending) && t.peers[p].pending <= MAX_PEER_PENDING
    ensures People(t, leaving) && Capacity(t) && Timers(t)
  {
    assert forall p :: Connected(t, p) == Connected(s, p);
  }

  lemma FinishKeeps(s: State, id: RequestId, ok: bool, leaving: set<PeerId>)
    requires Inv(s, leaving)
    ensures Inv(Finish(s, id, ok), leaving)
  {
    hide Core, Frame, Ending, Quiet, CancelMutation, Forget, Answers;
    if id in s.pending {
      var owner := s.pending[id].owner;
      var t := Forget(s, id);
      ForgetKeeps(s, id);
      ForgetEnds(s, id, leaving);
      Forgotten(s, id);
      CancelKeeps(t, id);
      QuietEnding(t, CancelMutation(t, id), id, owner, leaving);
      EndingEnds(CancelMutation(t, id), id, owner, leaving, ok);
      CoreSame(CancelMutation(t, id), Finish(s, id, ok), {});
    }
  }

  lemma Forgotten(s: State, id: RequestId)
    ensures id !in Forget(s, id).pending
  {}

  lemma AbandonKeeps(s: State, id: RequestId, leaving: set<PeerId>)
    requires Inv(s, leaving) && (id in s.pending ==> !Connected(s, s.pending[id].owner))
    ensures Inv(Abandon(s, id), leaving)
  {
    hide Core, Frame, Ending, CancelMutation, Answers;
    if id in s.pending {
      var owner := s.pending[id].owner;
      var t := Forget(s, id);
      ForgetKeeps(s, id);
      ForgetEnds(s, id, leaving);
      CancelKeeps(t, id);
      QuietEnding(t, CancelMutation(t, id), id, owner, leaving);
      EndingEnds(CancelMutation(t, id), id, owner, leaving, false);
      CoreSame(CancelMutation(t, id), Abandon(s, id), {});
    }
  }

  lemma NotifyKeeps(s: State, id: RequestId, leaving: set<PeerId>)
    requires Inv(s, leaving)
    ensures Inv(NotifyCanceled(s, id), leaving)
  {
    hide Core, Frame;
    assert Quiet(s, NotifyCanceled(s, id));
    QuietFrame(s, NotifyCanceled(s, id), leaving);
    CoreSame(s, NotifyCanceled(s, id), {});
  }

  lemma FailKeeps(s: State, id: RequestId, leaving: set<PeerId>)
    requires Inv(s, leaving)
    ensures Inv(Fail(s, id), leaving)
  {
    hide Inv, Finish, NotifyCanceled;
    NotifyKeeps(s, id, leaving);
    FinishKeeps(NotifyCanceled(s, id), id, false, leaving);
  }

  // The steps

  lemma MarkReadyKeeps(s: State, id: RequestId, tab: nat)
    requires Core(s, {}) && id in s.entries && s.entries[id].ready.None?
    requires 0 < tab && (s.entries[id].tab == 0 || s.entries[id].tab == tab)
    ensures Core(MarkReady(s, id, tab), {}) && Quiet(s, MarkReady(s, id, tab))
  {
    hide Tables, AllOrdered, Slots, Preempts;
    var t := MarkReady(s, id, tab);
    EntryChanged(s, t, id, t.entries[id]);
  }

  lemma MutationReadyKeeps(s: State, p: PeerId, id: RequestId, tab: Option<nat>, leaving: set<PeerId>)
    requires Inv(s, leaving)
    ensures Inv(MutationReady(s, p, id, tab), leaving)
  {
    hide Core, Frame, Quiet, MarkReady, Grant, Fail;
    if id in s.entries && s.entries[id].target == p && s.entries[id].ready.None? {
      var e := s.entries[id];
      if tab.None? || tab.value == 0 || tab.value > MAX_SAFE_INTEGER || (e.tab != 0 && e.tab != tab.value) {
        FailKeeps(s, id, leaving);
      } else {
        var t := MarkReady(s, id, tab.value);
        MarkReadyKeeps(s, id, tab.value);
        GrantKeeps(t, p, {});
        GrantQuiet(t, p);
        QuietTrans(s, t, Grant(t, p));
        QuietFrame(s, Grant(t, p), leaving);
      }
    }
  }

  lemma RemoveInv(s: State, id: RequestId, p: PeerId, leaving: set<PeerId>)
    requires Inv(s, leaving)
    ensures Inv(RemoveMutation(s, id, p), leaving)
  {
    hide Core, Frame, Quiet, RemoveMutation;
    RemoveKeeps(s, id, p, {});
    QuietFrame(s, RemoveMutation(s, id, p), leaving);
  }

  lemma RespondKeeps(s: State, p: PeerId, id: RequestId, reply: Reply, leaving: set<PeerId>)
    requires Inv(s, leaving)
    ensures Inv(Respond(s, p, id, reply), leaving)
  {
    hide Inv, RemoveMutation, Finish;
    RemoveInv(s, id, p, leaving);
    FinishKeeps(s, id, false, leaving);
    FinishKeeps(RemoveMutation(s, id, p), id, false, leaving);
    FinishKeeps(RemoveMutation(s, id, p), id, true, leaving);
  }

  lemma {:induction false} RevokeKeeps(s: State, p: PeerId, order: seq<RequestId>, leaving: set<PeerId>)
    requires Inv(s, leaving)
    ensures Inv(RevokeFrom(s, p, order), leaving)
    decreases |order|
  {
    hide Inv, Fail;
    if order != [] {
      FailKeeps(s, order[0], leaving);
      var t := if order[0] in s.entries && s.entries[order[0]].target == p && order[0] in s.pending then Fail(s, order[0]) else s;
      RevokeKeeps(t, p, order[1..], leaving);
    }
  }

  lemma SetAccessKeeps(s: State, p: PeerId, access: bool, leaving: set<PeerId>)
    requires Inv(s, leaving)
    ensures Inv(SetAccess(s, p, access), leaving)
  {
    hide Inv, SetAccess, Connected;
    AccessPeers(s, p, access);
    PeersFrame(s, SetAccess(s, p, access), leaving, leaving);
  }

  lemma AccessPeers(s: State, p: PeerId, access: bool)
    ensures var t := SetAccess(s, p, access);
            && t == s.(peers := t.peers) && t.peers.Keys == s.peers.Keys
            && (forall r <- s.peers :: t.peers[r].pending == s.peers[r].pending && t.peers[r].extension == s.peers[r].extension)
            && (forall r <- s.peers :: Connected(t, r) == Connected(s, r))
  {}

  lemma LeavePeers(s: State, p: PeerId)
    ensures var t := Leave(s, p);
            && t == s.(peers := t.peers) && t.peers.Keys == s.peers.Keys
            && (forall r <- s.peers :: t.peers[r].pending == s.peers[r].pending && t.peers[r].extension == s.peers[r].extension)
            && (forall r <- s.peers :: r != p ==> Connected(t, r) == Connected(s, r))
            && !Connected(t, p)
  {}

  /** A change to flags of peers keeps the frame. */
  lemma PeersFrame(s: State, t: State, leaving: set<PeerId>, leaving': set<PeerId>)
    requires Inv(s, leaving) && t == s.(peers := t.peers) && t.peers.Keys == s.peers.Keys && leaving <= leaving'
    requires forall r <- s.peers :: t.peers[r].pending == s.peers[r].pending && t.peers[r].extension == s.peers[r].extension
    requires forall r <- s.peers :: Connected(t, r) ==> Connected(s, r)
    requires forall r <- s.peers :: r !in leaving' && Connected(s, r) ==> Connected(t, r)
    ensures Inv(t, leaving')
  {
    assert forall r <- t.peers :: t.peers[r].pending <= MAX_PEER_PENDING;
    hide Core, Answers, OwnedBy, StoredFor, Connected, People, Counted, Answered, Capacity, Timers;
    CoreSame(s, t, {});
    PeopleSame(s, t, leaving, leaving');
    CountedSame(s, t);
    AnsweredSame(s, t);
    CapacitySame(s, t);
    TimersSame(s, t);
  }

  lemma AccessKeeps(s: State, p: PeerId, access: bool, order: seq<RequestId>, leaving: set<PeerId>)
    requires Inv(s, leaving)
    ensures Inv(AccessUpdate(s, p, access, order), leaving)
  {
    hide Core, Frame, Quiet, SetAccess, Grant, RevokeFrom;
    SetAccessKeeps(s, p, access, leaving);
    var t := SetAccess(s, p, access);
    if access {
      GrantKeeps(t, p, {});
      GrantQuiet(t, p);
      QuietFrame(t, Grant(t, p), leaving);
    } else {
      RevokeKeeps(t, p, order, leaving);
    }
  }

  // Disconnecting

  lemma LeaveKeeps(s: State, p: PeerId)
    requires Inv(s, {})
    ensures Inv(Leave(s, p), {p})
  {
    hide Inv, Leave, Connected;
    LeavePeers(s, p);
    PeersFrame(s, Leave(s, p), {}, {p});
  }

  /** Requests and slots disappear but never change hands. */
  ghost predicate Shrinks(s: State, t: State) {
    && (forall r :: Connected(t, r) == Connected(s, r))
    && t.peers.Keys == s.peers.Keys && (forall r <- s.peers :: t.peers[r].extension == s.peers[r].extension)
    && t.pending.Keys <= s.pending.Keys
    && (forall id <- t.pending :: t.pending[id].owner == s.pending[id].owner && t.pending[id].target == s.pending[id].target)
    && t.entries.Keys <= s.entries.Keys
    && (forall id <- t.entries :: t.entries[id].target == s.entries[id].target)
  }

  lemma QuietShrinks(s: State, t: State)
    requires Quiet(s, t)
    ensures Shrinks(s, t)
  {
    assert forall id <- t.pending :: SamePending(s.pending[id], t.pending[id]);
    assert forall id <- t.entries :: LaterEntry(s.entries[id], t.entries[id], s.now);
  }

  lemma ShrinksTrans(s: State, t: State, u: State)
    requires Shrinks(s, t) && Shrinks(t, u)
    ensures Shrinks(s, u)
  {}

  lemma EndShrinks(s: State, id: RequestId)
    requires Core(s, {}) && id in s.pending
    ensures Shrinks(s, Finish(s, id, false)) && id !in Finish(s, id, false).pending
    ensures Shrinks(s, Abandon(s, id)) && id !in Abandon(s, id).pending
  {
    hide Core, CancelMutation, Quiet;
    var t := Forget(s, id);
    ForgetKeeps(s, id);
    CancelKeeps(t, id);
    var u := CancelMutation(t, id);
    QuietShrinks(t, u);
    assert Shrinks(s, t);
    ShrinksTrans(s, t, u);
    assert u.pending.Keys == t.pending.Keys by {
      QuietKeys(t, u);
    }
    CountShrinks(u, s.pending[id].owner);
    ShrinksTrans(s, u, CountPending(u, s.pending[id].owner, -1));
  }

  lemma QuietKeys(s: State, t: State)
    requires Quiet(s, t)
    ensures t.pending.Keys == s.pending.Keys
  {}

  lemma CountShrinks(s: State, p: PeerId)
    ensures Shrinks(s, CountPending(s, p, -1))
  {}

  predicate Involves(s: State, id: RequestId, p: PeerId)
    requires id in s.pending
  {
    s.pending[id].owner == p || s.pending[id].target == p
  }

  lemma DropOneKeeps(s: State, p: PeerId, id: RequestId)
    requires Inv(s, {p}) && !Connected(s, p)
    ensures var t := DropOne(s, p, id);
            && Inv(t, {p}) && Shrinks(s, t)
            && (id in t.pending ==> !Involves(t, id, p))
  {
    hide Inv, Finish, Abandon, NotifyCanceled, Shrinks, Core;
    assert Shrinks(s, s) by { QuietSame(s); QuietShrinks(s, s); }
    assert Core(s, {}) by { InvCore(s, {p}); }
    if id in s.pending {
      if s.pending[id].owner == p {
        var n := NotifyCanceled(s, id);
        NotifyKeeps(s, id, {p});
        NotifySame(s, id);
        InvCore(n, {p});
        AbandonKeeps(n, id, {p});
        EndShrinks(n, id);
        ShrinksTrans(s, n, Abandon(n, id));
      } else if s.pending[id].target == p {
        FinishKeeps(s, id, false, {p});
        EndShrinks(s, id);
      }
    }
  }

  lemma InvCore(s: State, leaving: set<PeerId>)
    requires Inv(s, leaving)
    ensures Core(s, {})
  {}

  lemma NotifySame(s: State, id: RequestId)
    ensures var n := NotifyCanceled(s, id);
            n.pending == s.pending && n.peers == s.peers && n.entries == s.entries && Shrinks(s, n)
  {}

  lemma {:induction false} DropKeeps(s: State, p: PeerId, order: seq<RequestId>)
    requires Inv(s, {p}) && !Connected(s, p)
    ensures var t := DropFrom(s, p, order);
            && Inv(t, {p}) && Shrinks(s, t)
            && (forall id <- t.pending :: id in order ==> !Involves(t, id, p))
    decreases |order|
  {
    hide Inv, DropOne;
    if order == [] {
      QuietSame(s);
      QuietShrinks(s, s);
    } else {
      var t := DropOne(s, p, order[0]);
      DropOneKeeps(s, p, order[0]);
      DropKeeps(t, p, order[1..]);
      ShrinksTrans(s, t, DropFrom(s, p, order));
    }
  }

  lemma {:induction false} UnscheduleAllKeeps(s: State, p: PeerId, order: seq<RequestId>)
    requires Inv(s, {p})
    ensures var t := UnscheduleFrom(s, p, order);
            && Inv(t, {p}) && Quiet(s, t)
            && (forall id <- t.entries :: id in order ==> t.entries[id].target != p)
    decreases |order|
  {
    hide Inv, RemoveMutation, Quiet, Core;
    if order == [] {
      QuietSame(s);
    } else {
      var id := order[0];
      var t := if id in s.entries && s.entries[id].target == p then RemoveMutation(s, id, p) else s;
      InvCore(s, {p});
      QuietSame(s);
      RemoveInv(s, id, p, {p});
      RemoveKeeps(s, id, p, {});
      UnscheduleAllKeeps(t, p, order[1..]);
      var u := UnscheduleFrom(s, p, order);
      QuietTrans(s, t, u);
      QuietShrinks(t, u);
    }
  }

  /** A walk over a map visits every key. */
  ghost predicate Covers(order: seq<RequestId>, keys: set<RequestId>) {
    forall id <- keys :: id in order
  }

  lemma DisconnectKeeps(s: State, p: PeerId, order: seq<RequestId>, slots: seq<RequestId>)
    requires Inv(s, {}) && Covers(order, s.pending.Keys)
    requires p in s.peers && s.peers[p].extension ==> Covers(slots, DropFrom(Leave(s, p), p, order).entries.Keys)
    ensures Inv(Disconnect(s, p, order, slots), {})
  {
    hide Inv, Quiet, DropFrom, UnscheduleFrom, Involves;
    var l := Leave(s, p);
    LeaveKeeps(s, p);
    DropKeeps(l, p, order);
    var t := DropFrom(l, p, order);
    assert forall id <- t.pending :: !Involves(t, id, p);
    if p in s.peers && s.peers[p].extension {
      var u := UnscheduleFrom(t, p, slots);
      UnscheduleAllKeeps(t, p, slots);
      QuietShrinks(t, u);
      NotInvolved(t, u, p);
      Gone(u, p);
    } else {
      NoSlots(t, p);
      Gone(t, p);
    }
  }

  lemma NotInvolved(t: State, u: State, p: PeerId)
    requires Shrinks(t, u) && forall id <- t.pending :: !Involves(t, id, p)
    ensures forall id <- u.pending :: !Involves(u, id, p)
  {
    forall id | id in u.pending
      ensures !Involves(u, id, p)
    {
      assert !Involves(t, id, p);
    }
  }

  lemma NoSlots(t: State, p: PeerId)
    requires Inv(t, {p}) && (p in t.peers ==> !t.peers[p].extension)
    ensures forall id <- t.entries :: t.entries[id].target != p
  {
    hide Core, Counted, Answered, Capacity, Timers;
  }

  /** Once nothing concerns the peer that left, the laws hold without exception. */
  lemma Gone(t: State, p: PeerId)
    requires Inv(t, {p})
    requires forall id <- t.pending :: !Involves(t, id, p)
    requires forall id <- t.entries :: t.entries[id].target != p
    ensures Inv(t, {})
  {
    hide Core, Counted, Answered, Capacity, Timers, Connected;
    assert forall id <- t.pending :: t.pending[id].owner != p && t.pending[id].target != p by {
      assert forall id <- t.pending :: !Involves(t, id, p);
    }
  }

  /** In a sound state nothing concerns a peer that is not connected. */
  lemma NoTrace(t: State, p: PeerId)
    requires Inv(t, {}) && !Connected(t, p)
    ensures forall id <- t.pending :: t.pending[id].owner != p && t.pending[id].target != p
    ensures forall id <- t.entries :: t.entries[id].target != p
    ensures p !in t.queues
  {
    hide Connected, Lifecycle, AllOrdered, Slots, Counted, Answered, Capacity, Timers, NoDuplicates;
    if p in t.queues {
      FirstQueued(t, p);
    }
  }

  lemma DisconnectGone(s: State, p: PeerId, order: seq<RequestId>, slots: seq<RequestId>)
    requires Inv(s, {})
    ensures !Connected(Disconnect(s, p, order, slots), p)
  {
    hide Inv, Leave, DropFrom, UnscheduleFrom, Connected, Quiet;
    var l := Leave(s, p);
    LeaveKeeps(s, p);
    LeavePeers(s, p);
    DropKeeps(l, p, order);
    var t := DropFrom(l, p, order);
    UnscheduleAllKeeps(t, p, slots);
    QuietShrinks(t, UnscheduleFrom(t, p, slots));
  }

  lemma FailShrinks(s: State, id: RequestId, leaving: set<PeerId>)
    requires Inv(s, leaving) && id in s.pending
    ensures Shrinks(s, Fail(s, id)) && id !in Fail(s, id).pending
  {
    hide Inv, Finish, NotifyCanceled, Shrinks, Abandon;
    var n := NotifyCanceled(s, id);
    NotifySame(s, id);
    NotifyKeeps(s, id, leaving);
    InvCore(n, leaving);
    EndShrinks(n, id);
    ShrinksTrans(s, n, Finish(n, id, false));
  }

  /** The revoked browser has no pending mutation left among those the walk visited. */
  lemma {:induction false} RevokeGone(s: State, p: PeerId, order: seq<RequestId>, leaving: set<PeerId>)
    requires Inv(s, leaving)
    ensures var t := RevokeFrom(s, p, order);
            Shrinks(s, t) && forall id <- t.entries :: id in order && t.entries[id].target == p ==> id !in t.pending
    decreases |order|
  {
    hide Inv, Fail;
    if order == [] {
      QuietSame(s);
      QuietShrinks(s, s);
    } else {
      var id := order[0];
      FailKeeps(s, id, leaving);
      if id in s.pending {
        FailShrinks(s, id, leaving);
      }
      QuietSame(s);
      QuietShrinks(s, s);
      var t := if id in s.entries && s.entries[id].target == p && id in s.pending then Fail(s, id) else s;
      RevokeGone(t, p, order[1..], leaving);
      ShrinksTrans(s, t, RevokeFrom(s, p, order));
    }
  }

  lemma AccessOutcome(s: State, p: PeerId, access: bool, order: seq<RequestId>, leaving: set<PeerId>)
    requires Inv(s, leaving) && (!access ==> Covers(order, s.entries.Keys))
    ensures var t := AccessUpdate(s, p, access, order);
      if access then Settled(t, p) else forall id <- t.entries :: t.entries[id].target == p ==> id !in t.pending
  {
    hide Inv, Settled, Grant, RevokeFrom, Connected;
    var t := SetAccess(s, p, access);
    SetAccessKeeps(s, p, access, leaving);
    AccessPeers(s, p, access);
    if access {
      InvCore(t, leaving);
      GrantKeeps(t, p, {});
    } else {
      RevokeGone(t, p, order, leaving);
    }
  }

  // Admission

  lemma ScheduleKeeps(s: State, id: RequestId, r: Request)
    requires Core(s, {}) && id !in s.entries && id !in s.pending && r.target.Some?
    ensures Core(Schedule(s, id, r), {id})
  {
    hide Tables, AllOrdered, Slots, NoDuplicates;
    ScheduleTables(s, id, r);
    ScheduleOrdered(s, id, r);
    ScheduleSlots(s, id, r);
    assert forall x <- s.entries :: x in Schedule(s, id, r).entries && Schedule(s, id, r).entries[x] == s.entries[x];
  }

  lemma ScheduleTables(s: State, id: RequestId, r: Request)
    requires Tables(s) && id !in s.entries && r.target.Some?
    ensures Tables(Schedule(s, id, r))
  {
    var p := r.target.value;
    var t := Schedule(s, id, r);
    var q := Queue(s, p);
    assert id !in q;
    assert NoDuplicates(q) && NoDuplicates(t.queues[p]);
    hide NoDuplicates;
    forall x | x in t.entries
      ensures t.entries[x].id == x && t.entries[x].target in t.queues && x in t.queues[t.entries[x].target]
    {
      if x == id {
        assert t.queues[p][|q|] == id;
      }
    }
  }

  lemma ScheduleOrdered(s: State, id: RequestId, r: Request)
    requires Tables(s) && AllOrdered(s) && id !in s.entries && r.target.Some?
    ensures AllOrdered(Schedule(s, id, r))
  {
    hide Preempts, NoDuplicates;
    var p := r.target.value;
    var t := Schedule(s, id, r);
    var q := Queue(s, p);
    assert forall x <- s.entries :: t.entries[x] == s.entries[x];
    forall u | u in t.queues
      ensures Ordered(t, t.queues[u])
    {
      if u == p {
        assert Ordered(s, q);
        var q' := t.queues[p];
        assert forall x <- q :: x in s.entries;
        forall i, j | 0 <= i < j < |q'| && q'[i] in t.entries && q'[j] in t.entries
          ensures OrderOk(t.entries[q'[i]], t.entries[q'[j]])
        {
          if j < |q| {
            assert q'[i] == q[i] && q'[j] == q[j] && q[i] in q && q[j] in q;
            assert OrderOk(s.entries[q[i]], s.entries[q[j]]);
          }
        }
      } else {
        assert Ordered(s, s.queues[u]);
        assert forall x <- t.queues[u] :: x in s.entries;
      }
    }
  }

  lemma ScheduleSlots(s: State, id: RequestId, r: Request)
    requires Slots(s) && id !in s.entries && r.target.Some?
    ensures Slots(Schedule(s, id, r))
  {
    hide Preempts;
    var t := Schedule(s, id, r);
    forall a, b | a in t.entries && b in t.entries && a != b
      ensures SlotOk(t.entries[a], t.entries[b])
    {
      if a in s.entries && b in s.entries {
        assert SlotOk(s.entries[a], s.entries[b]);
      }
    }
  }

  lemma AdmitCore(s: State, p: PeerId, id: RequestId, r: Request)
    requires Core(s, {}) && id !in s.entries && id !in s.pending && r.target.Some?
    ensures Core(Admit(s, p, id, r), {})
  {
    var t := if Scheduled(s, r) then Schedule(s, id, r) else s;
    var u := Admit(s, p, id, r);
    if Scheduled(s, r) {
      ScheduleKeeps(s, id, r);
    } else {
      Widened(s, {id});
    }
    AdmitTables(s, p, id, r, t);
    hide Core, Schedule, Admit;
    PendingAdded(t, u, id);
  }

  lemma AdmitTables(s: State, p: PeerId, id: RequestId, r: Request, t: State)
    requires Core(s, {}) && id !in s.entries && id !in s.pending && r.target.Some?
    requires t == if Scheduled(s, r) then Schedule(s, id, r) else s
    ensures var u := Admit(s, p, id, r);
            && u.entries == t.entries && u.queues == t.queues
            && id in u.pending && u.pending == t.pending[id := u.pending[id]]
            && (id in t.entries ==> !t.entries[id].canceled && u.pending[id].target == t.entries[id].target)
  {
    hide Core;
  }

  /** A scheduled request enters the request table. */
  lemma PendingAdded(t: State, u: State, id: RequestId)
    requires Core(t, {id}) && u.entries == t.entries && u.queues == t.queues
    requires id in u.pending && u.pending == t.pending[id := u.pending[id]]
    requires id in t.entries ==> !t.entries[id].canceled && u.pending[id].target == t.entries[id].target
    ensures Core(u, {})
  {
    hide Tables, OrderOk, SlotOk;
    TablesSame(t, u);
    assert forall x <- t.queues :: Ordered(u, t.queues[x]) by {
      assert forall x <- t.queues :: Ordered(t, t.queues[x]);
    }
  }

  lemma AdmitFrame(s: State, p: PeerId, id: RequestId, r: Request)
    requires Frame(s, {}) && Tables(s) && id !in s.owners && id !in s.pending && r.target.Some?
    requires Connected(s, p) && Connected(s, r.target.value) && s.peers[r.target.value].extension
    requires |s.pending| < MAX_PENDING && s.peers[p].pending < MAX_PEER_PENDING
    requires Scheduled(s, r) ==> !SchedulerFull(s, r.target.value)
    requires id !in s.entries
    ensures Frame(Admit(s, p, id, r), {})
  {
    hide Answers, Tables, People, Counted, Answered, Capacity, Timers, Admit, SchedulerFull;
    AdmitPeople(s, p, id, r);
    AdmitCounted(s, p, id, r);
    AdmitAnswered(s, p, id, r);
    AdmitCapacity(s, p, id, r);
  }

  lemma AdmitPeople(s: State, p: PeerId, id: RequestId, r: Request)
    requires People(s, {}) && Timers(s) && r.target.Some? && id !in s.entries
    requires p in s.peers && r.target.value in s.peers
    requires Connected(s, p) && Connected(s, r.target.value) && s.peers[r.target.value].extension
    ensures People(Admit(s, p, id, r), {}) && Timers(Admit(s, p, id, r))
  {
    var t := Admit(s, p, id, r);
    AdmitConnects(s, p, id, r);
    hide Admit, Connected;
    AdmitPeers(s, p, id, r);
    AdmitSlots(s, p, id, r);
    hide PendingPeople, SlotPeople;
    AdmitPendingPeople(s, t, id);
    AdmitSlotPeople(s, t, id);
  }

  lemma AdmitSlotPeople(s: State, t: State, id: RequestId)
    requires SlotPeople(s, {}) && t.peers.Keys == s.peers.Keys
    requires forall y <- s.peers :: Connected(t, y) == Connected(s, y) && t.peers[y].extension == s.peers[y].extension
    requires forall x <- t.entries | x != id :: x in s.entries && t.entries[x] == s.entries[x]
    requires id in t.entries ==> Connected(s, t.entries[id].target) && s.peers[t.entries[id].target].extension
    ensures SlotPeople(t, {})
  {
    hide Connected;
    assert id in t.entries ==> t.entries[id].target in s.peers by {
      ConnectedPeer(s);
    }
  }

  lemma ConnectedPeer(s: State)
    ensures forall p :: Connected(s, p) ==> p in s.peers
  {}

  lemma AdmitConnects(s: State, p: PeerId, id: RequestId, r: Request)
    requires r.target.Some? && p in s.peers
    ensures forall y <- s.peers :: Connected(Admit(s, p, id, r), y) == Connected(s, y)
  {
    hide SchedulerFull;
  }

  lemma AdmitPendingPeople(s: State, t: State, id: RequestId)
    requires PendingPeople(s, {}) && t.peers.Keys == s.peers.Keys
    requires forall y <- s.peers :: Connected(t, y) == Connected(s, y) && t.peers[y].extension == s.peers[y].extension
    requires id in t.pending && t.pending == s.pending[id := t.pending[id]]
    requires Connected(s, t.pending[id].owner) && Connected(s, t.pending[id].target) && s.peers[t.pending[id].target].extension
    ensures PendingPeople(t, {})
  {}

  /** A new slot is free of timers and belongs to the chosen profile. */
  lemma AdmitSlots(s: State, p: PeerId, id: RequestId, r: Request)
    requires r.target.Some? && id !in s.entries
    ensures var t := Admit(s, p, id, r);
            && t.now == s.now && t.pending[id].target == r.target.value
            && (forall x <- t.entries | x != id :: x in s.entries && t.entries[x] == s.entries[x])
            && (id in t.entries ==> t.entries[id].target == r.target.value && t.entries[id].expiry.None?)
  {}

  lemma AdmitCounted(s: State, p: PeerId, id: RequestId, r: Request)
    requires Counted(s) && id !in s.pending && r.target.Some? && p in s.peers
    ensures Counted(Admit(s, p, id, r))
  {
    AdmitPeers(s, p, id, r);
    hide OwnedBy, StoredFor, Admit;
    forall y | y in s.peers
      ensures |OwnedBy(Admit(s, p, id, r), y)| == |OwnedBy(s, y)| + (if y == p then 1 else 0)
      ensures StoredFor(Admit(s, p, id, r), y) == StoredFor(s, y)
    {
      OwnedInsert(s, Admit(s, p, id, r), id, y);
    }
  }

  lemma AdmitPeers(s: State, p: PeerId, id: RequestId, r: Request)
    requires r.target.Some? && p in s.peers
    ensures var t := Admit(s, p, id, r);
            t.peers == s.peers[p := s.peers[p].(pending := s.peers[p].pending + 1)]
            && t.owners == s.owners[id := p] && t.pending.Keys == s.pending.Keys + {id} && t.entries.Keys <= s.entries.Keys + {id}
            && t.sent == s.sent + [Forward(r.target.value, id)]
            && id in t.pending && t.pending[id].owner == p && t.pending == s.pending[id := t.pending[id]] && t.storing == s.storing
            && s.entries.Keys <= t.entries.Keys
  {
    hide SchedulerFull;
  }

  lemma OwnedPending(s: State, y: PeerId)
    ensures OwnedBy(s, y) <= s.pending.Keys
  {}

  lemma OwnedInsert(s: State, t: State, id: RequestId, y: PeerId)
    requires id !in s.pending && id in t.pending && t.pending == s.pending[id := t.pending[id]] && t.storing == s.storing
    ensures |OwnedBy(t, y)| == |OwnedBy(s, y)| + (if y == t.pending[id].owner then 1 else 0)
    ensures StoredFor(t, y) == StoredFor(s, y)
  {
    OwnedInsertSet(s, t, id, y);
    OwnedPending(s, y);
    hide OwnedBy;
  }

  lemma OwnedInsertSet(s: State, t: State, id: RequestId, y: PeerId)
    requires id !in s.pending && id in t.pending && t.pending == s.pending[id := t.pending[id]] && t.storing == s.storing
    ensures OwnedBy(t, y) == OwnedBy(s, y) + if y == t.pending[id].owner then {id} else {}
    ensures StoredFor(t, y) == StoredFor(s, y)
  {}

  lemma AdmitAnswered(s: State, p: PeerId, id: RequestId, r: Request)
    requires Answered(s) && id !in s.owners && r.target.Some? && p in s.peers
    ensures Answered(Admit(s, p, id, r))
  {
    hide Admit, Answered, Connected;
    AdmitPeers(s, p, id, r);
    AdmitConnects(s, p, id, r);
    var t := Admit(s, p, id, r);
    AnsweredInsert(s, t, id, p, Forward(r.target.value, id));
  }

  lemma AnsweredInsert(s: State, t: State, id: RequestId, p: PeerId, m: Message)
    requires Answered(s) && id !in s.owners && p in s.peers && !m.Answer?
    requires t.peers.Keys == s.peers.Keys && forall y <- s.peers :: Connected(t, y) == Connected(s, y)
    requires id in t.pending && t.pending == s.pending[id := t.pending[id]] && t.pending[id].owner == p
    requires t.owners == s.owners[id := p] && t.sent == s.sent + [m] && t.entries.Keys <= s.entries.Keys + {id}
    ensures Answered(t)
  {
    hide Answers, Connected;
    forall y
      ensures Answers(t.sent, y) == Answers(s.sent, y)
    {
      AnswersAppend(s.sent, m, y);
    }
  }

  lemma AdmitCapacity(s: State, p: PeerId, id: RequestId, r: Request)
    requires Capacity(s) && id !in s.pending && id !in s.entries && r.target.Some? && p in s.peers
    requires |s.pending| < MAX_PENDING && s.peers[p].pending < MAX_PEER_PENDING
    requires Scheduled(s, r) ==> !SchedulerFull(s, r.target.value)
    ensures Capacity(Admit(s, p, id, r))
  {
    var t := Admit(s, p, id, r);
    assert |t.pending.Keys| == |s.pending.Keys| + 1;
    assert |t.entries.Keys| <= |s.entries.Keys| + 1;
  }

  lemma RefuseKeeps(s: State, p: PeerId, original: string)
    requires Inv(s, {})
    ensures Inv(Refuse(s, p, original), {})
  {
    hide Inv;
    SendKeeps(s, LocalAnswer(p, original, false));
  }

  /** Who may send a request, and where it may go; ids are fresh. */
  predicate Routable(s: State, p: PeerId, id: RequestId, r: Request) {
    && Connected(s, p) && id !in s.owners
    && (r.target.Some? ==> Connected(s, r.target.value) && s.peers[r.target.value].extension)
  }

  lemma RouteKeeps(s: State, p: PeerId, id: RequestId, r: Request)
    requires Inv(s, {}) && Routable(s, p, id, r)
    ensures Inv(Route(s, p, id, r), {})
  {
    hide Core, Frame, Admit, Refuse, SchedulerFull;
    RefuseKeeps(s, p, r.original);
    if !Duplicate(s, p, r.original) && r.target.Some? && |s.pending| < MAX_PENDING && s.peers[p].pending < MAX_PEER_PENDING
       && !(Scheduled(s, r) && SchedulerFull(s, r.target.value)) {
      FreshId(s, id);
      AdmitCore(s, p, id, r);
      AdmitFrame(s, p, id, r);
    }
  }

  lemma FreshId(s: State, id: RequestId)
    requires Inv(s, {}) && id !in s.owners
    ensures id !in s.entries && id !in s.pending && Tables(s)
  {}

  /** A storage request that enters or leaves the table, counted. */
  lemma StorageCounted(s: State, t: State, p: PeerId, o: (PeerId, string), delta: int)
    requires Counted(s) && o.0 == p && p in s.peers && t.pending == s.pending
    requires t.peers == s.peers[p := s.peers[p].(pending := s.peers[p].pending + delta)]
    requires (delta == 1 && o !in s.storing && t.storing == s.storing + {o}) || (delta == -1 && o in s.storing && t.storing == s.storing - {o})
    ensures Counted(t)
  {
    hide OwnedBy, StoredFor;
    forall y | y in s.peers
      ensures OwnedBy(t, y) == OwnedBy(s, y)
      ensures |StoredFor(t, y)| == |StoredFor(s, y)| + if y == p then delta else 0
    {
      StoredChange(s, t, o, delta, y);
    }
  }

  lemma StoredChange(s: State, t: State, o: (PeerId, string), delta: int, y: PeerId)
    requires t.pending == s.pending
    requires (delta == 1 && o !in s.storing && t.storing == s.storing + {o}) || (delta == -1 && o in s.storing && t.storing == s.storing - {o})
    ensures OwnedBy(t, y) == OwnedBy(s, y)
    ensures |StoredFor(t, y)| == |StoredFor(s, y)| + if y == o.0 then delta else 0
  {
    if y != o.0 {
      assert StoredFor(t, y) == StoredFor(s, y);
    } else if delta == 1 {
      assert StoredFor(t, y) == StoredFor(s, y) + {o};
    } else {
      assert StoredFor(s, y) == StoredFor(t, y) + {o};
    }
  }

  lemma StorageFrame(s: State, t: State, p: PeerId, o: (PeerId, string), delta: int)
    requires Inv(s, {}) && o.0 == p && p in s.peers && t == s.(peers := t.peers, storing := t.storing)
    requires t.peers == s.peers[p := s.peers[p].(pending := s.peers[p].pending + delta)]
    requires (delta == 1 && o !in s.storing && t.storing == s.storing + {o}) || (delta == -1 && o in s.storing && t.storing == s.storing - {o})
    requires delta == 1 ==> s.peers[p].pending < MAX_PEER_PENDING
    ensures Inv(t, {})
  {
    assert forall r <- t.peers :: t.peers[r].pending <= MAX_PEER_PENDING;
    assert forall r :: Connected(t, r) == Connected(s, r);
    assert People(t, {}) by {
      StoragePeople(s, t, p, o);
    }
    hide Core, Answers, OwnedBy, StoredFor, Connected, People, Counted, Answered, Capacity, Timers;
    CoreSame(s, t, {});
    StorageCounted(s, t, p, o, delta);
    AnsweredSame(s, t);
    CapacitySame(s, t);
    TimersSame(s, t);
  }

  lemma StoragePeople(s: State, t: State, p: PeerId, o: (PeerId, string))
    requires People(s, {}) && o.0 == p && p in s.peers && t == s.(peers := t.peers, storing := t.storing)
    requires p in t.peers && t.peers == s.peers[p := s.peers[p].(pending := t.peers[p].pending)] && t.storing <= s.storing + {o}
    ensures People(t, {})
  {
    assert forall r :: Connected(t, r) == Connected(s, r);
  }

  lemma SendKeeps(s: State, m: Message)
    requires Inv(s, {}) && !m.Answer?
    ensures Inv(Send(s, m), {})
  {
    hide Core, Frame;
    assert Quiet(s, Send(s, m));
    QuietFrame(s, Send(s, m), {});
    CoreSame(s, Send(s, m), {});
  }

  lemma StorageDoneKeeps(s: State, p: PeerId, original: string, ok: bool)
    requires Inv(s, {})
    ensures Inv(StorageDone(s, p, original, ok), {})
  {
    hide Inv, Connected, CountPending;
    if (p, original) in s.storing {
      StoragePeer(s, p, original);
      var t := CountPending(s.(storing := s.storing - {(p, original)}), p, -1);
      StorageFrame(s, t, p, (p, original), -1);
      if Connected(t, p) {
        SendKeeps(t, LocalAnswer(p, original, ok));
      }
    }
  }

  lemma StoragePeer(s: State, p: PeerId, original: string)
    requires Inv(s, {}) && (p, original) in s.storing
    ensures p in s.peers
    ensures var t := CountPending(s.(storing := s.storing - {(p, original)}), p, -1);
            && t == s.(peers := t.peers, storing := s.storing - {(p, original)})
            && t.peers == s.peers[p := s.peers[p].(pending := s.peers[p].pending - 1)]
  {
    hide Core, Counted, Answered, Capacity, Timers, PendingPeople, SlotPeople;
  }

  lemma StorageBegunKeeps(s: State, p: PeerId, original: string)
    requires Inv(s, {}) && p in s.peers && (p, original) !in s.storing && s.peers[p].pending < MAX_PEER_PENDING
    ensures Inv(CountPending(s.(storing := s.storing + {(p, original)}), p, 1), {})
  {
    hide Inv;
    StorageFrame(s, CountPending(s.(storing := s.storing + {(p, original)}), p, 1), p, (p, original), 1);
  }

  lemma StorageRequestKeeps(s: State, p: PeerId, original: string, queued: bool)
    requires Inv(s, {})
    ensures Inv(StorageRequest(s, p, original, queued), {})
  {
    hide Core, Frame, Refuse, StorageDone;
    RefuseKeeps(s, p, original);
    if !Duplicate(s, p, original) && p in s.peers && s.peers[p].pending < MAX_PEER_PENDING {
      StorageBegunKeeps(s, p, original);
      StorageDoneKeeps(CountPending(s.(storing := s.storing + {(p, original)}), p, 1), p, original, false);
    }
  }

  lemma ExpireKeeps(s: State, id: RequestId)
    requires Inv(s, {})
    ensures Inv(Expire(s, id), {})
  {
    hide Inv, RemoveMutation;
    if id in s.entries {
      RemoveInv(s, id, s.entries[id].target, {});
    }
  }

  lemma JoinKeeps(s: State, p: PeerId, peer: Peer)
    requires Inv(s, {}) && p !in s.peers
    ensures Inv(Join(s, p, peer), {})
  {
    hide Core, Answers, OwnedBy, StoredFor, Connected, People, Counted, Answered, Capacity, Timers, Join;
    var t := Join(s, p, peer);
    JoinPeers(s, p, peer);
    JoinCounted(s, p, peer);
    JoinPending(s, t);
    CoreSame(s, t, {});
    PeopleSame(s, t, {}, {});
    AnsweredSame(s, t);
    CapacitySame(s, t);
    TimersSame(s, t);
  }

  lemma JoinPeers(s: State, p: PeerId, peer: Peer)
    requires p !in s.peers
    ensures var t := Join(s, p, peer);
            && t == s.(peers := t.peers) && s.peers.Keys <= t.peers.Keys
            && (forall y <- s.peers :: t.peers[y] == s.peers[y] && Connected(t, y) == Connected(s, y))
            && (forall y <- t.peers :: y in s.peers || t.peers[y].pending == 0)
  {}

  lemma JoinPending(s: State, t: State)
    requires Capacity(s) && forall y <- t.peers :: t.peers[y].pending == 0 || (y in s.peers && t.peers[y] == s.peers[y])
    ensures forall y <- t.peers :: t.peers[y].pending <= MAX_PEER_PENDING
  {}

  lemma JoinCounted(s: State, p: PeerId, peer: Peer)
    requires Counted(s) && People(s, {}) && p !in s.peers
    ensures Counted(Join(s, p, peer))
  {
    var t := Join(s, p, peer);
    forall y
      ensures OwnedBy(t, y) == OwnedBy(s, y) && StoredFor(t, y) == StoredFor(s, y)
    {}
    assert OwnedBy(s, p) == {} && StoredFor(s, p) == {};
    hide OwnedBy, StoredFor, People;
  }

  lemma TickKeeps(s: State, now: nat)
    requires Inv(s, {}) && s.now <= now
    requires forall id <- s.entries :: s.entries[id].expiry.Some? ==> now <= s.entries[id].expiry.value
    ensures Inv(s.(now := now), {})
  {
    var t := s.(now := now);
    assert forall y :: Connected(t, y) == Connected(s, y);
    assert Timers(t);
    assert forall y <- t.peers :: t.peers[y].pending <= MAX_PEER_PENDING;
    hide Core, Answers, OwnedBy, StoredFor, Connected, People, Counted, Answered, Capacity, Timers;
    CoreSame(s, t, {});
    PeopleSame(s, t, {}, {});
    CountedSame(s, t);
    AnsweredSame(s, t);
    CapacitySame(s, t);
  }
}
