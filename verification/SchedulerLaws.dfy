/**
 * The mutation scheduler: what its tables always satisfy, and that one granting
 * pass keeps it and grants all there is to grant.
 */
module SchedulerLaws {
  import opened Options
  import opened DaemonState

  ghost predicate NoDuplicates(q: seq<RequestId>) {
    forall i, j :: 0 <= i < j < |q| ==> q[i] != q[j]
  }

  /** Every entry is exactly once in the queue of its profile, and nothing else is queued. */
  ghost predicate Tables(s: State) {
    && (forall p <- s.queues :: s.queues[p] != [] && NoDuplicates(s.queues[p]))
    && (forall p <- s.queues :: forall id <- s.queues[p] :: id in s.entries && s.entries[id].target == p)
    && (forall id <- s.entries :: s.entries[id].id == id && s.entries[id].target in s.queues && id in s.queues[s.entries[id].target])
  }

  predicate EntryOk(e: Mutation) {
    && (e.ready.Some? ==> e.tab > 0)
    && (e.granted.Some? ==> e.ready.Some?)
    && (e.canceled ==> e.granted.Some?)
    && (e.canceled <==> e.expiry.Some?)
  }

  /**
   * An entry is cancelled exactly when its request has ended, apart from requests
   * in hole, which are just ending.
   */
  ghost predicate Lifecycle(s: State, hole: set<RequestId>) {
    forall id <- s.entries ::
      && EntryOk(s.entries[id])
      && (id !in hole ==> (s.entries[id].canceled <==> id !in s.pending))
      && (id in s.pending ==> s.pending[id].target == s.entries[id].target)
  }

  /** Its tab is not known yet, so nothing may be reordered around it. */
  predicate Unknown(e: Mutation) {
    e.ready.None? && e.tab == 0
  }

  /** What may hold of two entries of one queue, a before b. */
  predicate OrderOk(a: Mutation, b: Mutation) {
    b.granted.Some? && a.granted.None? ==>
      && !Unknown(a)
      && (a.ready.None? ==> a.tab != b.tab)
      && (a.tab == b.tab ==> Preempts(b.operation))
  }

  ghost predicate Before(q: seq<RequestId>, a: RequestId, b: RequestId) {
    exists i, j :: 0 <= i < j < |q| && q[i] == a && q[j] == b
  }

  ghost predicate Ordered(s: State, q: seq<RequestId>) {
    forall i, j :: 0 <= i < j < |q| && q[i] in s.entries && q[j] in s.entries ==> OrderOk(s.entries[q[i]], s.entries[q[j]])
  }

  /** A running mutation has its tab to itself, or shares it as a navigation with cancelled work. */
  predicate SlotOk(a: Mutation, b: Mutation) {
    Running(a) && b.granted.Some? && a.target == b.target && a.tab == b.tab ==> b.canceled && Preempts(a.operation)
  }

  ghost predicate Slots(s: State) {
    forall a, b | a in s.entries && b in s.entries && a != b :: SlotOk(s.entries[a], s.entries[b])
  }

  ghost predicate AllOrdered(s: State) {
    forall p <- s.queues :: Ordered(s, s.queues[p])
  }

  ghost predicate Core(s: State, hole: set<RequestId>) {
    Tables(s) && Lifecycle(s, hole) && AllOrdered(s) && Slots(s)
  }

  // What a granting pass may change

  predicate EntryGrant(e: Mutation, e': Mutation, now: nat) {
    e' == e || (e.granted.None? && !e.canceled && e.ready.Some? && e' == e.(granted := Some(now)))
  }

  ghost predicate GrantEffect(s: State, t: State) {
    && t == s.(entries := t.entries, pending := t.pending, sent := t.sent)
    && t.entries.Keys == s.entries.Keys && t.pending.Keys == s.pending.Keys
    && (forall id <- s.entries :: EntryGrant(s.entries[id], t.entries[id], s.now))
    && (forall id <- s.entries :: t.entries[id] != s.entries[id] ==> id in s.pending)
    && (forall id <- s.pending :: t.pending[id] == s.pending[id].(dispatched := t.pending[id].dispatched))
    && s.sent <= t.sent
    && (forall i :: |s.sent| <= i < |t.sent| ==> t.sent[i].GrantMutation?)
  }

  lemma GrantEffectTrans(s: State, t: State, u: State)
    requires GrantEffect(s, t) && GrantEffect(t, u)
    ensures GrantEffect(s, u)
  {
    forall id | id in s.entries
      ensures EntryGrant(s.entries[id], u.entries[id], s.now)
      ensures u.entries[id] != s.entries[id] ==> id in s.pending
    {
      assert EntryGrant(s.entries[id], t.entries[id], s.now);
      assert EntryGrant(t.entries[id], u.entries[id], s.now);
    }
    forall id | id in s.pending
      ensures u.pending[id] == s.pending[id].(dispatched := u.pending[id].dispatched)
    {
      assert t.pending[id] == s.pending[id].(dispatched := t.pending[id].dispatched);
      assert u.pending[id] == t.pending[id].(dispatched := u.pending[id].dispatched);
    }
    forall i | |s.sent| <= i < |u.sent|
      ensures u.sent[i].GrantMutation?
    {
      assert i < |t.sent| ==> u.sent[i] == t.sent[i];
    }
  }

  lemma GrantOneEffect(s: State, id: RequestId)
    requires id in s.entries && id in s.pending
    requires s.entries[id].granted.None? && !s.entries[id].canceled && s.entries[id].ready.Some?
    ensures GrantEffect(s, GrantOne(s, id))
  {
    var t := GrantOne(s, id);
    assert t.entries.Keys == s.entries.Keys && t.pending.Keys == s.pending.Keys;
  }

  lemma {:induction false} GrantFromEffect(s: State, q: seq<RequestId>, busy: set<nat>, canceling: set<nat>)
    ensures GrantEffect(s, GrantFrom(s, q, busy, canceling))
    decreases |q|
  {
    hide GrantEffect, GrantOne, Preempts;
    SameEffect(s);
    if q != [] {
      var id := q[0];
      if id !in s.entries || s.entries[id].granted.Some? || s.entries[id].canceled {
        GrantFromEffect(s, q[1..], busy, canceling);
      } else {
        var e := s.entries[id];
        if e.ready.None? {
          GrantFromEffect(s, q[1..], busy + {e.tab}, canceling);
        } else if e.tab in busy || (e.tab in canceling && !Preempts(e.operation)) || id !in s.pending {
          GrantFromEffect(s, q[1..], busy, canceling);
        } else {
          GrantOneEffect(s, id);
          GrantFromEffect(GrantOne(s, id), q[1..], busy + {e.tab}, canceling);
          GrantEffectTrans(s, GrantOne(s, id), GrantFrom(GrantOne(s, id), q[1..], busy + {e.tab}, canceling));
        }
      }
    }
  }

  lemma SameEffect(s: State)
    ensures GrantEffect(s, s)
  {}

  lemma GrantHasEffect(s: State, p: PeerId)
    ensures GrantEffect(s, Grant(s, p))
  {
    hide GrantEffect, GrantFrom;
    SameEffect(s);
    GrantFromEffect(s, Queue(s, p), BusyTabs(s, Queue(s, p)), CancelingTabs(s, Queue(s, p)));
  }

  lemma EffectTables(s: State, t: State)
    requires GrantEffect(s, t) && Tables(s)
    ensures Tables(t)
  {
    hide NoDuplicates;
    assert forall id <- s.entries :: EntryGrant(s.entries[id], t.entries[id], s.now);
  }

  lemma EffectLifecycle(s: State, t: State, hole: set<RequestId>)
    requires GrantEffect(s, t) && Lifecycle(s, hole)
    ensures Lifecycle(t, hole)
  {
    forall id | id in t.entries
      ensures EntryOk(t.entries[id])
      ensures id !in hole ==> (t.entries[id].canceled <==> id !in t.pending)
      ensures id in t.pending ==> t.pending[id].target == t.entries[id].target
    {
      assert EntryGrant(s.entries[id], t.entries[id], s.now);
    }
  }

  // One pass over a queue

  /** The tabs that entries still being prepared keep busy. */
  function PreparingTabs(s: State, q: seq<RequestId>): set<nat> {
    set id | id in q && id in s.entries && s.entries[id].granted.None? && s.entries[id].ready.None? :: s.entries[id].tab
  }

  /** Why the ready entry at i of the queue may not run now. */
  ghost predicate Blocked(s: State, q: seq<RequestId>, i: nat)
    requires i < |q| && q[i] in s.entries
  {
    var e := s.entries[q[i]];
    || e.tab in BusyTabs(s, q)
    || e.tab in PreparingTabs(s, q[..i])
    || 0 in PreparingTabs(s, q[..i])
    || (e.tab in CancelingTabs(s, q) && !Preempts(e.operation))
  }

  /** Nothing in the first k entries of the queue waits without a reason. */
  ghost predicate SettledTo(s: State, q: seq<RequestId>, k: nat)
    requires k <= |q| && forall id <- q :: id in s.entries
  {
    forall i :: 0 <= i < k && s.entries[q[i]].granted.None? && s.entries[q[i]].ready.Some? ==> Blocked(s, q, i)
  }

  ghost predicate QueueOk(s: State, q: seq<RequestId>) {
    && NoDuplicates(q)
    && (forall id <- q :: id in s.entries && EntryOk(s.entries[id]) && (s.entries[id].granted.None? ==> id in s.pending))
  }

  /** Where the pass stands at position k. */
  ghost predicate Pass(s: State, q: seq<RequestId>, k: nat, busy: set<nat>, canceling: set<nat>) {
    && QueueOk(s, q) && k <= |q|
    && canceling == CancelingTabs(s, q)
    && busy == BusyTabs(s, q) + PreparingTabs(s, q[..k])
    && 0 !in PreparingTabs(s, q[..k])
    && SettledTo(s, q, k)
  }

  lemma PreparingGrows(s: State, q: seq<RequestId>, k: nat)
    requires k < |q| && q[k] in s.entries
    ensures PreparingTabs(s, q[..k + 1]) == PreparingTabs(s, q[..k]) +
      if s.entries[q[k]].granted.None? && s.entries[q[k]].ready.None? then {s.entries[q[k]].tab} else {}
  {
    assert q[..k + 1] == q[..k] + [q[k]];
    var one := if s.entries[q[k]].granted.None? && s.entries[q[k]].ready.None? then {s.entries[q[k]].tab} else {};
    forall tab
      ensures tab in PreparingTabs(s, q[..k + 1]) <==> tab in PreparingTabs(s, q[..k]) + one
    {
      if tab in PreparingTabs(s, q[..k + 1]) {
        var id :| id in q[..k + 1] && id in s.entries && s.entries[id].granted.None? && s.entries[id].ready.None? && s.entries[id].tab == tab;
      }
      if tab in one {
        assert q[k] in q[..k + 1];
      }
      if tab in PreparingTabs(s, q[..k]) {
        var id :| id in q[..k] && id in s.entries && s.entries[id].granted.None? && s.entries[id].ready.None? && s.entries[id].tab == tab;
        assert id in q[..k + 1];
      }
    }
  }

  lemma GrantOneTabs(s: State, q: seq<RequestId>, k: nat, m: nat)
    requires NoDuplicates(q) && k < |q| && m <= |q| && q[k] in s.entries && q[k] in s.pending
    requires s.entries[q[k]].granted.None? && !s.entries[q[k]].canceled && s.entries[q[k]].ready.Some?
    ensures var t := GrantOne(s, q[k]);
            && BusyTabs(t, q) == BusyTabs(s, q) + {s.entries[q[k]].tab}
            && CancelingTabs(t, q) == CancelingTabs(s, q)
            && PreparingTabs(t, q[..m]) == PreparingTabs(s, q[..m])
  {
    var id := q[k];
    var t := GrantOne(s, id);
    assert forall x <- s.entries :: t.entries[x] == if x == id then s.entries[id].(granted := Some(s.now)) else s.entries[x];
    assert t.entries.Keys == s.entries.Keys;
    forall tab
      ensures tab in BusyTabs(t, q) <==> tab in BusyTabs(s, q) + {s.entries[id].tab}
    {
      if tab in BusyTabs(s, q) {
        var x :| x in q && x in s.entries && Running(s.entries[x]) && s.entries[x].tab == tab;
        assert x in t.entries && Running(t.entries[x]) && t.entries[x].tab == tab;
      }
      if tab == s.entries[id].tab {
        assert id in q && Running(t.entries[id]) && t.entries[id].tab == tab;
      }
    }
    assert CancelingTabs(t, q) == CancelingTabs(s, q) by {
      forall tab
        ensures tab in CancelingTabs(t, q) <==> tab in CancelingTabs(s, q)
      {
        if tab in CancelingTabs(s, q) {
          var x :| x in q && x in s.entries && Canceling(s.entries[x]) && s.entries[x].tab == tab;
          assert x in t.entries && Canceling(t.entries[x]) && t.entries[x].tab == tab;
        }
      }
    }
    forall tab
      ensures tab in PreparingTabs(t, q[..m]) <==> tab in PreparingTabs(s, q[..m])
    {
      if tab in PreparingTabs(s, q[..m]) {
        var x :| x in q[..m] && x in s.entries && s.entries[x].granted.None? && s.entries[x].ready.None? && s.entries[x].tab == tab;
        assert x in t.entries && t.entries[x] == s.entries[x];
      }
    }
  }

  /** What stays blocked when one more entry is granted. */
  lemma GrantOneSettled(s: State, q: seq<RequestId>, k: nat)
    requires QueueOk(s, q) && k < |q| && q[k] in s.pending
    requires s.entries[q[k]].granted.None? && !s.entries[q[k]].canceled && s.entries[q[k]].ready.Some?
    requires SettledTo(s, q, k)
    ensures QueueOk(GrantOne(s, q[k]), q) && SettledTo(GrantOne(s, q[k]), q, k + 1)
  {
    hide BusyTabs, CancelingTabs, PreparingTabs, Preempts;
    var t := GrantOne(s, q[k]);
    forall i | 0 <= i < k + 1 && t.entries[q[i]].granted.None? && t.entries[q[i]].ready.Some?
      ensures Blocked(t, q, i)
    {
      assert q[i] in q;
      if i < k {
        assert q[i] != q[k];
        assert Blocked(s, q, i);
        GrantOneTabs(s, q, k, i);
      }
    }
  }

  /** Granting the entry at k breaks neither the order nor the slots. */
  lemma GrantOneOrdered(s: State, q: seq<RequestId>, k: nat, busy: set<nat>, canceling: set<nat>)
    requires Pass(s, q, k, busy, canceling) && Ordered(s, q) && k < |q|
    requires var e := s.entries[q[k]];
             && e.granted.None? && !e.canceled && e.ready.Some? && q[k] in s.pending
             && e.tab !in busy && (e.tab in canceling ==> Preempts(e.operation))
    ensures Ordered(GrantOne(s, q[k]), q)
  {
    hide Preempts;
    var t := GrantOne(s, q[k]);
    var e := s.entries[q[k]];
    forall i, j | 0 <= i < j < |q|
      ensures OrderOk(t.entries[q[i]], t.entries[q[j]])
    {
      assert OrderOk(s.entries[q[i]], s.entries[q[j]]);
      assert q[i] in q && q[j] in q && q[i] != q[j];
      if j == k && s.entries[q[i]].granted.None? {
        var a := s.entries[q[i]];
        assert q[i] in q[..k];
        if a.ready.None? {
          assert a.tab in PreparingTabs(s, q[..k]);
        } else if a.tab == e.tab {
          assert Blocked(s, q, i);
          if a.tab in PreparingTabs(s, q[..i]) {
            SubPreparing(s, q, i, k, a.tab);
          }
          if 0 in PreparingTabs(s, q[..i]) {
            SubPreparing(s, q, i, k, 0);
          }
        }
      }
    }
  }

  lemma SubPreparing(s: State, q: seq<RequestId>, i: nat, k: nat, tab: nat)
    requires i <= k <= |q| && tab in PreparingTabs(s, q[..i])
    ensures tab in PreparingTabs(s, q[..k])
  {
    var id :| id in q[..i] && id in s.entries && s.entries[id].granted.None? && s.entries[id].ready.None? && s.entries[id].tab == tab;
    assert id in q[..k];
  }

  lemma GrantOneSlots(s: State, p: PeerId, q: seq<RequestId>, k: nat, busy: set<nat>, canceling: set<nat>)
    requires Pass(s, q, k, busy, canceling) && Slots(s) && k < |q|
    requires forall id <- s.entries :: s.entries[id].target == p ==> id in q
    requires var e := s.entries[q[k]];
             && e.target == p && e.granted.None? && !e.canceled && e.ready.Some? && q[k] in s.pending
             && e.tab !in busy && (e.tab in canceling ==> Preempts(e.operation))
    ensures Slots(GrantOne(s, q[k]))
  {
    hide Preempts, PreparingTabs, SettledTo;
    var x := q[k];
    var t := GrantOne(s, x);
    var e := s.entries[x];
    forall a, b | a in t.entries && b in t.entries && a != b
      ensures SlotOk(t.entries[a], t.entries[b])
    {
      assert SlotOk(s.entries[a], s.entries[b]);
      if a == x && s.entries[b].target == p && s.entries[b].tab == e.tab {
        assert Running(s.entries[b]) ==> e.tab in BusyTabs(s, q);
        assert Canceling(s.entries[b]) ==> e.tab in CancelingTabs(s, q);
      }
      if b == x && s.entries[a].target == p && s.entries[a].tab == e.tab {
        assert Running(s.entries[a]) ==> e.tab in BusyTabs(s, q);
      }
    }
  }

  /** How the pass moves on from an entry it does not grant. */
  lemma PassSkips(s: State, q: seq<RequestId>, k: nat, busy: set<nat>, canceling: set<nat>)
    requires Pass(s, q, k, busy, canceling) && k < |q|
    ensures q[k] in s.entries
    ensures var e := s.entries[q[k]];
            && (e.granted.Some? || e.canceled ==> Pass(s, q, k + 1, busy, canceling))
            && (e.granted.None? && !e.canceled && e.ready.None? && e.tab > 0 ==> Pass(s, q, k + 1, busy + {e.tab}, canceling))
            && (e.granted.None? && !e.canceled && e.ready.Some? && (e.tab in busy || (e.tab in canceling && !Preempts(e.operation)))
                ==> Pass(s, q, k + 1, busy, canceling))
            && (e.granted.None? ==> q[k] in s.pending)
  {
    assert q[k] in q;
    PreparingGrows(s, q, k);
    hide Preempts, BusyTabs, CancelingTabs, PreparingTabs, NoDuplicates;
    var e := s.entries[q[k]];
    if e.granted.None? && e.ready.Some? && (e.tab in busy || (e.tab in canceling && !Preempts(e.operation))) {
      assert Blocked(s, q, k);
    }
  }

  lemma PassGrants(s: State, q: seq<RequestId>, k: nat, busy: set<nat>, canceling: set<nat>)
    requires Pass(s, q, k, busy, canceling) && k < |q|
    requires var e := s.entries[q[k]]; e.granted.None? && !e.canceled && e.ready.Some? && q[k] in s.pending
    ensures Pass(GrantOne(s, q[k]), q, k + 1, busy + {s.entries[q[k]].tab}, canceling)
  {
    hide Preempts, BusyTabs, CancelingTabs, PreparingTabs, SettledTo, GrantOne;
    PreparingGrows(s, q, k);
    GrantOneSettled(s, q, k);
    GrantOneTabs(s, q, k, k + 1);
  }

  lemma GrantFromUnfolds(s: State, q: seq<RequestId>, k: nat, busy: set<nat>, canceling: set<nat>)
    requires k < |q| && q[k] in s.entries
    ensures GrantFrom(s, q[k..], busy, canceling) ==
      var e, rest := s.entries[q[k]], q[k + 1..];
      if e.granted.Some? || e.canceled then GrantFrom(s, rest, busy, canceling)
      else if e.ready.None? then
        if e.tab > 0 then GrantFrom(s, rest, busy + {e.tab}, canceling) else s
      else if e.tab in busy || (e.tab in canceling && !Preempts(e.operation)) then GrantFrom(s, rest, busy, canceling)
      else if q[k] !in s.pending then GrantFrom(s, rest, busy, canceling)
      else GrantFrom(GrantOne(s, q[k]), rest, busy + {e.tab}, canceling)
  {
    assert q[k..][0] == q[k] && q[k..][1..] == q[k + 1..];
  }

  lemma GrantFromNothing(s: State, busy: set<nat>, canceling: set<nat>)
    ensures GrantFrom(s, [], busy, canceling) == s
  {}

  /** A pass from position k on keeps the queue in order and leaves nothing grantable. */
  lemma {:induction false} PassKeeps(s: State, p: PeerId, q: seq<RequestId>, k: nat, busy: set<nat>, canceling: set<nat>)
    requires Pass(s, q, k, busy, canceling) && Ordered(s, q) && Slots(s)
    requires forall id <- s.entries :: s.entries[id].target == p <==> id in q
    ensures var t := GrantFrom(s, q[k..], busy, canceling);
            Ordered(t, q) && Slots(t) && QueueOk(t, q) && SettledTo(t, q, |q|)
    decreases |q| - k
  {
    if k < |q| {
      hide Preempts, Ordered, Slots, BusyTabs, CancelingTabs, PreparingTabs, SettledTo, NoDuplicates, GrantFrom;
      var id := q[k];
      PassSkips(s, q, k, busy, canceling);
      GrantFromUnfolds(s, q, k, busy, canceling);
      var e := s.entries[id];
      if e.granted.Some? || e.canceled {
        PassKeeps(s, p, q, k + 1, busy, canceling);
      } else if e.ready.None? {
        if e.tab > 0 {
          PassKeeps(s, p, q, k + 1, busy + {e.tab}, canceling);
        } else {
          UnknownBlocks(s, q, k);
        }
      } else if e.tab in busy || (e.tab in canceling && !Preempts(e.operation)) {
        PassKeeps(s, p, q, k + 1, busy, canceling);
      } else {
        GrantOneOrdered(s, q, k, busy, canceling);
        GrantOneSlots(s, p, q, k, busy, canceling);
        PassGrants(s, q, k, busy, canceling);
        PassKeeps(GrantOne(s, id), p, q, k + 1, busy + {e.tab}, canceling);
      }
    } else {
      assert q[k..] == [];
      GrantFromNothing(s, busy, canceling);
    }
  }

  lemma UnknownBlocks(s: State, q: seq<RequestId>, k: nat)
    requires QueueOk(s, q) && k < |q| && SettledTo(s, q, k)
    requires s.entries[q[k]].granted.None? && Unknown(s.entries[q[k]])
    ensures SettledTo(s, q, |q|)
  {
    hide BusyTabs, CancelingTabs, Preempts;
    forall i | k < i < |q| && s.entries[q[i]].granted.None? && s.entries[q[i]].ready.Some?
      ensures Blocked(s, q, i)
    {
      assert q[k] in q[..i] && q[i] in q;
    }
  }

  /** No entry of the profile's queue could be granted. */
  ghost predicate Settled(s: State, p: PeerId) {
    Connected(s, p) && s.peers[p].access ==>
      var q := Queue(s, p);
      (forall id <- q :: id in s.entries) && SettledTo(s, q, |q|)
  }

  lemma PassStarts(s: State, p: PeerId, hole: set<RequestId>)
    requires Core(s, hole) && forall id <- Queue(s, p) :: id !in hole
    ensures var q := Queue(s, p);
            && Pass(s, q, 0, BusyTabs(s, q), CancelingTabs(s, q))
            && Ordered(s, q) && (forall id <- s.entries :: s.entries[id].target == p <==> id in q)
  {
    hide Preempts;
    var q := Queue(s, p);
    assert q[..0] == [];
    assert PreparingTabs(s, []) == {};
    forall id | id in q
      ensures id in s.entries && EntryOk(s.entries[id]) && (s.entries[id].granted.None? ==> id in s.pending)
    {
      assert s.entries[id].canceled <==> id !in s.pending;
    }
  }

  /** Granting keeps every law of the scheduler and leaves nothing grantable. */
  lemma GrantKeeps(s: State, p: PeerId, hole: set<RequestId>)
    requires Core(s, hole) && forall id <- Queue(s, p) :: id !in hole
    ensures Core(Grant(s, p), hole)
    ensures Settled(Grant(s, p), p)
  {
    hide BusyTabs, CancelingTabs, Tables, Lifecycle, Slots, NoDuplicates, SettledTo, GrantFrom;
    var t := Grant(s, p);
    GrantHasEffect(s, p);
    EffectTables(s, t);
    EffectLifecycle(s, t, hole);
    PassStarts(s, p, hole);
    var q := Queue(s, p);
    if Connected(s, p) && s.peers[p].access {
      PassKeeps(s, p, q, 0, BusyTabs(s, q), CancelingTabs(s, q));
      assert q[0..] == q;
      OthersOrdered(s, t, p);
    }
  }

  lemma OthersOrdered(s: State, t: State, p: PeerId)
    requires Tables(s) && AllOrdered(s) && GrantEffect(s, t)
    requires Connected(s, p) && s.peers[p].access && t == Grant(s, p)
    requires p in s.queues ==> Ordered(t, s.queues[p])
    ensures AllOrdered(t)
  {
    hide Grant, GrantFrom, BusyTabs, CancelingTabs, Ordered;
    GrantIs(s, p);
    forall r | r in t.queues
      ensures Ordered(t, t.queues[r])
    {
      if r != p {
        forall id | id in t.queues[r]
          ensures id in s.entries && id in t.entries && t.entries[id] == s.entries[id]
        {
          assert s.entries[id].target == r;
          GrantElsewhere(s, Queue(s, p), BusyTabs(s, Queue(s, p)), CancelingTabs(s, Queue(s, p)), id);
        }
        OrderedSame(s, t, t.queues[r]);
      }
    }
  }

  lemma GrantIs(s: State, p: PeerId)
    requires Connected(s, p) && s.peers[p].access
    ensures Grant(s, p) == GrantFrom(s, Queue(s, p), BusyTabs(s, Queue(s, p)), CancelingTabs(s, Queue(s, p)))
  {}

  lemma OrderedSame(s: State, t: State, q: seq<RequestId>)
    requires Ordered(s, q) && forall id :: id in q ==> id in s.entries && id in t.entries && t.entries[id] == s.entries[id]
    ensures Ordered(t, q)
  {}

  lemma {:induction false} GrantElsewhere(s: State, q: seq<RequestId>, busy: set<nat>, canceling: set<nat>, x: RequestId)
    requires x in s.entries && x !in q
    ensures var t := GrantFrom(s, q, busy, canceling); x in t.entries && t.entries[x] == s.entries[x]
    decreases |q|
  {
    hide Preempts;
    if q != [] {
      var id := q[0];
      if id !in s.entries || s.entries[id].granted.Some? || s.entries[id].canceled {
        GrantElsewhere(s, q[1..], busy, canceling, x);
      } else {
        var e := s.entries[id];
        if e.ready.None? {
          GrantElsewhere(s, q[1..], busy + {e.tab}, canceling, x);
        } else if e.tab in busy || (e.tab in canceling && !Preempts(e.operation)) || id !in s.pending {
          GrantElsewhere(s, q[1..], busy, canceling, x);
        } else {
          GrantElsewhere(GrantOne(s, id), q[1..], busy + {e.tab}, canceling, x);
        }
      }
    }
  }

  // A second pass grants nothing

  lemma {:induction false} SettledPass(s: State, q: seq<RequestId>, k: nat, busy: set<nat>, canceling: set<nat>)
    requires Pass(s, q, k, busy, canceling) && SettledTo(s, q, |q|)
    ensures GrantFrom(s, q[k..], busy, canceling) == s
    decreases |q| - k
  {
    hide Preempts, BusyTabs, CancelingTabs, PreparingTabs, NoDuplicates, GrantFrom, QueueOk;
    if k < |q| {
      PassSkips(s, q, k, busy, canceling);
      GrantFromUnfolds(s, q, k, busy, canceling);
      var e := s.entries[q[k]];
      if e.granted.Some? || e.canceled {
        SettledPass(s, q, k + 1, busy, canceling);
      } else if e.ready.None? {
        if e.tab > 0 {
          SettledPass(s, q, k + 1, busy + {e.tab}, canceling);
        }
      } else {
        assert Blocked(s, q, k);
        SettledPass(s, q, k + 1, busy, canceling);
      }
    } else {
      assert q[k..] == [];
      GrantFromNothing(s, busy, canceling);
    }
  }

  /** When nothing is grantable, granting changes nothing. */
  lemma SettledGrantsNothing(s: State, p: PeerId, hole: set<RequestId>)
    requires Core(s, hole) && (forall id <- Queue(s, p) :: id !in hole) && Settled(s, p)
    ensures Grant(s, p) == s
  {
    hide BusyTabs, CancelingTabs, Core, SettledTo, GrantFrom, Pass;
    if Connected(s, p) && s.peers[p].access {
      PassStarts(s, p, hole);
      var q := Queue(s, p);
      SettledPass(s, q, 0, BusyTabs(s, q), CancelingTabs(s, q));
      assert q[0..] == q;
    }
  }

  /** Granting twice is granting once. */
  lemma GrantTwice(s: State, p: PeerId, hole: set<RequestId>)
    requires Core(s, hole) && forall id <- Queue(s, p) :: id !in hole
    ensures Grant(Grant(s, p), p) == Grant(s, p)
  {
    hide Grant, Core, Settled, GrantEffect;
    GrantKeeps(s, p, hole);
    GrantHasEffect(s, p);
    EffectQueue(s, Grant(s, p), p);
    SettledGrantsNothing(Grant(s, p), p, hole);
  }

  lemma EffectQueue(s: State, t: State, p: PeerId)
    requires GrantEffect(s, t)
    ensures Queue(t, p) == Queue(s, p)
  {}

  lemma {:induction false} HeldTabSkips(s: State, q: seq<RequestId>, busy: set<nat>, canceling: set<nat>, x: RequestId)
    requires x in s.entries && s.entries[x].tab in canceling && !Preempts(s.entries[x].operation)
    requires s.entries[x].ready.Some?
    ensures var t := GrantFrom(s, q, busy, canceling); x in t.entries && t.entries[x] == s.entries[x]
    decreases |q|
  {
    hide Preempts;
    if q != [] {
      var id := q[0];
      if id !in s.entries || s.entries[id].granted.Some? || s.entries[id].canceled {
        HeldTabSkips(s, q[1..], busy, canceling, x);
      } else {
        var e := s.entries[id];
        if e.ready.None? {
          HeldTabSkips(s, q[1..], busy + {e.tab}, canceling, x);
        } else if e.tab in busy || (e.tab in canceling && !Preempts(e.operation)) || id !in s.pending {
          HeldTabSkips(s, q[1..], busy, canceling, x);
        } else {
          HeldTabSkips(GrantOne(s, id), q[1..], busy + {e.tab}, canceling, x);
        }
      }
    }
  }

  /** What the timeout explains is so: the mutation waits, and granting passes leave it waiting. */
  lemma QueuedBehindCanceledWaits(s: State, id: RequestId)
    requires QueuedBehindCanceled(s, id) && !Preempts(s.entries[id].operation)
    ensures var t := Grant(s, s.entries[id].target);
      id in t.entries && t.entries[id] == s.entries[id] && t.entries[id].granted.None?
  {
    hide Preempts, GrantFrom;
    var p := s.entries[id].target;
    if Connected(s, p) && s.peers[p].access {
      HeldTabSkips(s, Queue(s, p), BusyTabs(s, Queue(s, p)), CancelingTabs(s, Queue(s, p)), id);
    }
  }
}
