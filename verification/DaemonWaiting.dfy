/**
 * Who may wait: a ready mutation stays ungranted only for a reason, in every
 * state a run can reach.
 */
module DaemonWaiting {
  import opened Options
  import opened DaemonState
  import opened SchedulerLaws
  import opened DaemonLaws
  import opened DaemonRuns

  /** Granted work, cancelled or not, or preparation ahead in the queue holds what the entry at i needs. */
  ghost predicate Held(s: State, q: seq<RequestId>, i: nat)
    requires i < |q| && q[i] in s.entries
  {
    var tab := s.entries[q[i]].tab;
    || tab in BusyTabs(s, q) || tab in CancelingTabs(s, q)
    || tab in PreparingTabs(s, q[..i]) || 0 in PreparingTabs(s, q[..i])
  }

  predicate Waiting(m: Mutation) {
    m.ready.Some? && m.granted.None?
  }

  predicate MayGrant(s: State, p: PeerId) {
    Connected(s, p) && s.peers[p].access
  }

  ghost predicate Rested(s: State, p: PeerId) {
    MayGrant(s, p) ==>
      forall i | 0 <= i < |Queue(s, p)| && Queue(s, p)[i] in s.entries && Waiting(s.entries[Queue(s, p)[i]]) :: Held(s, Queue(s, p), i)
  }

  ghost predicate AllRested(s: State) {
    forall p :: Rested(s, p)
  }

  // What keeps a queue at rest

  /** The two agree on everything that decides who waits. */
  predicate Alike(a: Mutation, b: Mutation) {
    a.tab == b.tab && a.ready.Some? == b.ready.Some? && a.granted.Some? == b.granted.Some?
  }

  ghost predicate AlikeOn(s: State, t: State, q: seq<RequestId>) {
    forall id <- q :: (id in s.entries <==> id in t.entries) && (id in s.entries ==> Alike(s.entries[id], t.entries[id]))
  }

  lemma HeldSame(s: State, t: State, q: seq<RequestId>, i: nat)
    requires AlikeOn(s, t, q) && i < |q| && q[i] in s.entries && q[i] in t.entries && Held(s, q, i)
    ensures Held(t, q, i)
  {
    var tab := s.entries[q[i]].tab;
    assert q[i] in q;
    assert t.entries[q[i]].tab == tab;
    if tab in BusyTabs(s, q) || tab in CancelingTabs(s, q) {
      var id :| id in q && id in s.entries && s.entries[id].granted.Some? && s.entries[id].tab == tab;
      assert Alike(s.entries[id], t.entries[id]);
      assert Running(t.entries[id]) || Canceling(t.entries[id]);
    } else {
      var k := if tab in PreparingTabs(s, q[..i]) then tab else 0;
      PreparingSame(s, t, q, i, k);
    }
  }

  lemma PreparingSame(s: State, t: State, q: seq<RequestId>, i: nat, tab: nat)
    requires AlikeOn(s, t, q) && i <= |q| && tab in PreparingTabs(s, q[..i])
    ensures tab in PreparingTabs(t, q[..i])
  {
    var id :| id in q[..i] && id in s.entries && s.entries[id].granted.None? && s.entries[id].ready.None? && s.entries[id].tab == tab;
    assert id in q && Alike(s.entries[id], t.entries[id]);
  }

  lemma RestedSame(s: State, t: State, p: PeerId)
    requires Rested(s, p) && Queue(t, p) == Queue(s, p) && AlikeOn(s, t, Queue(s, p))
    requires MayGrant(t, p) ==> MayGrant(s, p)
    ensures Rested(t, p)
  {
    hide Held, MayGrant, Queue;
    if MayGrant(t, p) {
      var q := Queue(s, p);
      forall i | 0 <= i < |q| && q[i] in t.entries && Waiting(t.entries[q[i]])
        ensures Held(t, q, i)
      {
        assert q[i] in q && Alike(s.entries[q[i]], t.entries[q[i]]);
        HeldSame(s, t, q, i);
      }
    }
  }

  /** Nothing changed that a granting decision looks at. */
  lemma AllRestedSame(s: State, t: State)
    requires AllRested(s) && t.queues == s.queues && t.entries == s.entries
    requires forall p :: MayGrant(t, p) ==> MayGrant(s, p)
    ensures AllRested(t)
  {
    hide Rested, MayGrant;
    forall p ensures Rested(t, p) {
      RestedSame(s, t, p);
    }
  }

  lemma SettledRests(s: State, p: PeerId)
    requires Settled(s, p)
    ensures Rested(s, p)
  {
    hide BusyTabs, CancelingTabs, PreparingTabs, Preempts, Queue;
    if MayGrant(s, p) {
      var q := Queue(s, p);
      forall i | 0 <= i < |q| && q[i] in s.entries && Waiting(s.entries[q[i]])
        ensures Held(s, q, i)
      {
        assert Blocked(s, q, i);
      }
    }
  }

  /** A granting pass puts its own queue at rest and leaves the others alone. */
  lemma GrantRests(s: State, p: PeerId)
    requires Core(s, {}) && forall r | r != p :: Rested(s, r)
    ensures AllRested(Grant(s, p)) && Settled(Grant(s, p), p)
  {
    hide Rested, Grant, Core, Settled, GrantEffect;
    var t := Grant(s, p);
    GrantKeeps(s, p, {});
    SettledRests(t, p);
    forall r | r != p ensures Rested(t, r) {
      GrantOthers(s, p, r);
      RestedSame(s, t, r);
    }
  }

  lemma GrantOthers(s: State, p: PeerId, r: PeerId)
    requires Core(s, {}) && r != p
    ensures var t := Grant(s, p); Queue(t, r) == Queue(s, r) && AlikeOn(s, t, Queue(s, r)) && (MayGrant(t, r) ==> MayGrant(s, r))
  {
    hide GrantFrom, BusyTabs, CancelingTabs, Lifecycle, AllOrdered, Slots, NoDuplicates, Grant;
    var t := Grant(s, p);
    GrantHasEffect(s, p);
    forall id | id in Queue(s, r)
      ensures id in s.entries && id in t.entries && t.entries[id] == s.entries[id]
    {
      assert s.entries[id].target == r;
      GrantKeepsOther(s, p, id);
    }
  }

  lemma GrantKeepsOther(s: State, p: PeerId, id: RequestId)
    requires id in s.entries && id !in Queue(s, p)
    ensures id in Grant(s, p).entries && Grant(s, p).entries[id] == s.entries[id]
  {
    hide BusyTabs, CancelingTabs, GrantFrom;
    GrantElsewhere(s, Queue(s, p), BusyTabs(s, Queue(s, p)), CancelingTabs(s, Queue(s, p)), id);
  }

  /** Work that leaves the scheduler sets its queue granting again. */
  lemma RemoveRests(s: State, id: RequestId, p: PeerId, hole: set<RequestId>)
    requires Core(s, hole) && hole <= {id} && AllRested(s)
    ensures AllRested(RemoveMutation(s, id, p))
    ensures id in s.entries && s.entries[id].target == p ==> Settled(RemoveMutation(s, id, p), p)
  {
    hide Core, Grant, Settled, Unschedule, Rested;
    if id in s.entries && s.entries[id].target == p {
      var t := Unschedule(s, id, p);
      UnscheduleKeeps(s, id, hole);
      assert hole - {id} == {};
      forall r | r != p ensures Rested(t, r) {
        UnscheduleOthers(s, id, p, r, hole);
        RestedSame(s, t, r);
      }
      GrantRests(t, p);
    }
  }

  lemma UnscheduleOthers(s: State, id: RequestId, p: PeerId, r: PeerId, hole: set<RequestId>)
    requires Core(s, hole) && id in s.entries && s.entries[id].target == p && r != p
    ensures var t := Unschedule(s, id, p); Queue(t, r) == Queue(s, r) && AlikeOn(s, t, Queue(s, r)) && (MayGrant(t, r) ==> MayGrant(s, r))
  {
    hide Lifecycle, AllOrdered, Slots, NoDuplicates, Without;
  }

  lemma CancelRests(s: State, id: RequestId)
    requires Core(s, {id}) && AllRested(s)
    ensures AllRested(CancelMutation(s, id))
  {
    hide Core, RemoveMutation, Rested;
    if id in s.entries {
      if s.entries[id].granted.None? {
        RemoveRests(s, id, s.entries[id].target, {id});
      } else if !s.entries[id].canceled {
        forall r ensures Rested(MarkCanceled(s, id), r) {
          RestedSame(s, MarkCanceled(s, id), r);
        }
      }
    }
  }

  lemma FinishRests(s: State, id: RequestId, ok: bool)
    requires Core(s, {}) && AllRested(s)
    ensures AllRested(Finish(s, id, ok)) && AllRested(Abandon(s, id))
  {
    hide Core, CancelMutation, AllRested;
    if id in s.pending {
      var t := Forget(s, id);
      ForgetKeeps(s, id);
      AllRestedSame(s, t);
      CancelRests(t, id);
      var u := CancelMutation(t, id);
      AllRestedSame(u, Finish(s, id, ok));
      AllRestedSame(u, Abandon(s, id));
    }
  }

  lemma NotifyRests(s: State, id: RequestId)
    requires AllRested(s)
    ensures AllRested(NotifyCanceled(s, id))
  {
    hide AllRested;
    AllRestedSame(s, NotifyCanceled(s, id));
  }

  lemma FailRests(s: State, id: RequestId)
    requires Inv(s, {}) && AllRested(s)
    ensures AllRested(Fail(s, id))
  {
    hide Inv, AllRested, Finish, NotifyCanceled;
    NotifyRests(s, id);
    NotifyKeeps(s, id, {});
    InvCore(NotifyCanceled(s, id), {});
    FinishRests(NotifyCanceled(s, id), id, false);
  }

  lemma RespondRests(s: State, p: PeerId, id: RequestId, reply: Reply)
    requires Inv(s, {}) && AllRested(s)
    ensures AllRested(Respond(s, p, id, reply))
  {
    hide Inv, AllRested, Finish, RemoveMutation;
    InvCore(s, {});
    RemoveRests(s, id, p, {});
    RemoveInv(s, id, p, {});
    var t := RemoveMutation(s, id, p);
    InvCore(t, {});
    FinishRests(s, id, false);
    FinishRests(t, id, false);
    FinishRests(t, id, true);
  }

  predicate GoodTab(e: Mutation, tab: Option<nat>) {
    tab.Some? && 0 < tab.value <= MAX_SAFE_INTEGER && (e.tab == 0 || e.tab == tab.value)
  }

  lemma ReadyRests(s: State, p: PeerId, id: RequestId, tab: Option<nat>)
    requires Inv(s, {}) && AllRested(s)
    ensures AllRested(MutationReady(s, p, id, tab))
    ensures id in s.entries && s.entries[id].target == p && s.entries[id].ready.None? && GoodTab(s.entries[id], tab)
      ==> Settled(MutationReady(s, p, id, tab), p)
  {
    hide Core, Frame, Rested, Fail, MarkReady, Grant, Settled, Quiet;
    FailRests(s, id);
    if id in s.entries && s.entries[id].target == p && s.entries[id].ready.None? && GoodTab(s.entries[id], tab) {
      var t := MarkReady(s, id, tab.value);
      MarkReadyKeeps(s, id, tab.value);
      forall r | r != p ensures Rested(t, r) {
        ReadyOthers(s, id, tab.value, r);
        RestedSame(s, t, r);
      }
      GrantRests(t, p);
    }
  }

  lemma ReadyOthers(s: State, id: RequestId, tab: nat, r: PeerId)
    requires Core(s, {}) && id in s.entries && s.entries[id].target != r
    ensures var t := MarkReady(s, id, tab); Queue(t, r) == Queue(s, r) && AlikeOn(s, t, Queue(s, r)) && (MayGrant(t, r) ==> MayGrant(s, r))
  {
    hide Lifecycle, AllOrdered, Slots, NoDuplicates;
  }

  lemma {:induction false} RevokeRests(s: State, p: PeerId, order: seq<RequestId>)
    requires Inv(s, {}) && AllRested(s)
    ensures AllRested(RevokeFrom(s, p, order))
    decreases |order|
  {
    hide Inv, AllRested, Fail;
    if order != [] {
      var id := order[0];
      FailKeeps(s, id, {});
      FailRests(s, id);
      RevokeRests(if id in s.entries && s.entries[id].target == p && id in s.pending then Fail(s, id) else s, p, order[1..]);
    }
  }

  lemma AccessRests(s: State, p: PeerId, access: bool, order: seq<RequestId>)
    requires Inv(s, {}) && AllRested(s)
    ensures AllRested(AccessUpdate(s, p, access, order))
    ensures access ==> Settled(AccessUpdate(s, p, access, order), p)
  {
    hide Inv, Rested, Grant, RevokeFrom, Settled;
    var t := SetAccess(s, p, access);
    SetAccessKeeps(s, p, access, {});
    InvCore(t, {});
    forall r | r != p ensures Rested(t, r) {
      RestedSame(s, t, r);
    }
    if access {
      GrantRests(t, p);
    } else {
      AccessOff(s, p);
      RevokeRests(t, p, order);
    }
  }

  lemma AccessOff(s: State, p: PeerId)
    ensures Rested(SetAccess(s, p, false), p)
  {}

  lemma LeaveRests(s: State, p: PeerId)
    requires AllRested(s)
    ensures AllRested(Leave(s, p))
  {
    hide AllRested;
    AllRestedSame(s, Leave(s, p));
  }

  lemma {:induction false} DropRests(s: State, p: PeerId, order: seq<RequestId>)
    requires Inv(s, {p}) && !Connected(s, p) && AllRested(s)
    ensures AllRested(DropFrom(s, p, order))
    decreases |order|
  {
    hide Inv, AllRested, DropOne, Shrinks;
    if order != [] {
      var t := DropOne(s, p, order[0]);
      DropOneKeeps(s, p, order[0]);
      DropOneRests(s, p, order[0]);
      assert !Connected(t, p) by { StillGone(s, t, p); }
      DropRests(t, p, order[1..]);
    }
  }

  lemma DropOneRests(s: State, p: PeerId, id: RequestId)
    requires Inv(s, {p}) && AllRested(s)
    ensures AllRested(DropOne(s, p, id))
  {
    hide Inv, AllRested, Finish, Abandon, NotifyCanceled;
    InvCore(s, {p});
    FinishRests(s, id, false);
    NotifyRests(s, id);
    NotifyKeeps(s, id, {p});
    InvCore(NotifyCanceled(s, id), {p});
    FinishRests(NotifyCanceled(s, id), id, false);
  }

  lemma {:induction false} UnscheduleRests(s: State, p: PeerId, order: seq<RequestId>)
    requires Inv(s, {p}) && AllRested(s)
    ensures AllRested(UnscheduleFrom(s, p, order))
    decreases |order|
  {
    hide Inv, AllRested, RemoveMutation;
    if order != [] {
      var id := order[0];
      RemoveInv(s, id, p, {p});
      InvCore(s, {p});
      RemoveRests(s, id, p, {});
      UnscheduleRests(if id in s.entries && s.entries[id].target == p then RemoveMutation(s, id, p) else s, p, order[1..]);
    }
  }

  lemma DisconnectRests(s: State, p: PeerId, order: seq<RequestId>, slots: seq<RequestId>)
    requires Inv(s, {}) && AllRested(s)
    ensures AllRested(Disconnect(s, p, order, slots))
  {
    hide Inv, AllRested, DropFrom, UnscheduleFrom, Leave, Connected;
    LeaveKeeps(s, p);
    LeavePeers(s, p);
    LeaveRests(s, p);
    DropRests(Leave(s, p), p, order);
    DropKeeps(Leave(s, p), p, order);
    UnscheduleRests(DropFrom(Leave(s, p), p, order), p, slots);
  }

  lemma RouteRests(s: State, p: PeerId, id: RequestId, r: Request)
    requires Inv(s, {}) && Routable(s, p, id, r) && AllRested(s)
    ensures AllRested(Route(s, p, id, r))
  {
    hide Inv, AllRested, SchedulerFull, Duplicate, Admit, Connected, MayGrant;
    FreshId(s, id);
    assert forall y :: MayGrant(Refuse(s, p, r.original), y) == MayGrant(s, y) by {
      RefuseSame(s, p, r.original);
    }
    AllRestedSame(s, Refuse(s, p, r.original));
    if r.target.Some? {
      AdmitRests(s, p, id, r);
    }
  }

  lemma RefuseSame(s: State, p: PeerId, original: string)
    ensures forall y :: MayGrant(Refuse(s, p, original), y) == MayGrant(s, y)
  {}

  lemma AdmitRests(s: State, p: PeerId, id: RequestId, r: Request)
    requires r.target.Some? && id !in s.entries && Tables(s) && AllRested(s)
    ensures AllRested(Admit(s, p, id, r))
  {
    hide AllRested;
    if Scheduled(s, r) {
      ScheduleRests(s, id, r);
      AllRestedSame(Schedule(s, id, r), Admit(s, p, id, r));
    } else {
      AllRestedSame(s, Admit(s, p, id, r));
    }
  }

  /** A new entry is not ready, and it waits behind all others. */
  lemma ScheduleRests(s: State, id: RequestId, r: Request)
    requires r.target.Some? && id !in s.entries && Tables(s) && AllRested(s)
    ensures AllRested(Schedule(s, id, r))
  {
    hide Rested, NoDuplicates;
    var t := Schedule(s, id, r);
    var p := r.target.value;
    forall y ensures Rested(t, y) {
      if y != p {
        RestedSame(s, t, y);
      } else {
        LongerRests(s, t, p, id);
      }
    }
  }

  lemma LongerRests(s: State, t: State, p: PeerId, id: RequestId)
    requires Rested(s, p) && t.peers == s.peers && Queue(t, p) == Queue(s, p) + [id]
    requires id !in s.entries && id in t.entries && t.entries[id].ready.None? && t.entries == s.entries[id := t.entries[id]]
    requires forall x <- Queue(s, p) :: x in s.entries
    ensures Rested(t, p)
  {
    hide Held;
    var q := Queue(s, p);
    forall i | MayGrant(t, p) && 0 <= i < |q + [id]| && (q + [id])[i] in t.entries && Waiting(t.entries[(q + [id])[i]])
      ensures Held(t, q + [id], i)
    {
      assert i < |q| && q[i] in q;
      HeldSame(s, t, q, i);
      HeldLonger(t, q, id, i);
    }
  }

  lemma HeldLonger(t: State, q: seq<RequestId>, id: RequestId, i: nat)
    requires i < |q| && q[i] in t.entries && Held(t, q, i)
    ensures Held(t, q + [id], i)
  {
    assert (q + [id])[..i] == q[..i] && (q + [id])[i] == q[i];
    hide PreparingTabs;
    assert BusyTabs(t, q) <= BusyTabs(t, q + [id]) && CancelingTabs(t, q) <= CancelingTabs(t, q + [id]);
  }

  /** A peer that has just joined has no queue. */
  lemma JoinRests(s: State, p: PeerId, peer: Peer)
    requires Inv(s, {}) && AllRested(s) && p !in s.peers
    ensures AllRested(Join(s, p, peer))
  {
    hide Inv, Rested, Join, MayGrant;
    var t := Join(s, p, peer);
    NoQueue(s, p);
    JoinSame(s, p, peer);
    EmptyRests(t, p);
    forall y | y != p ensures Rested(t, y) {
      RestedSame(s, t, y);
    }
  }

  lemma JoinSame(s: State, p: PeerId, peer: Peer)
    ensures var t := Join(s, p, peer);
      t.entries == s.entries && t.queues == s.queues && forall y :: y != p ==> MayGrant(t, y) == MayGrant(s, y)
  {}

  lemma EmptyRests(s: State, p: PeerId)
    requires p !in s.queues
    ensures Rested(s, p)
  {}

  lemma NoQueue(s: State, p: PeerId)
    requires Inv(s, {}) && p !in s.peers
    ensures p !in s.queues
  {
    hide Lifecycle, AllOrdered, Slots, Counted, Answered, Capacity, Timers, NoDuplicates;
    if p in s.queues {
      FirstQueued(s, p);
    }
  }

  lemma StorageRests(s: State, p: PeerId, original: string, queued: bool, ok: bool)
    requires AllRested(s)
    ensures AllRested(StorageRequest(s, p, original, queued)) && AllRested(StorageDone(s, p, original, ok))
  {
    hide AllRested, Duplicate, StorageDone;
    StoredSame(s, p, original, ok);
    AllRestedSame(s, StorageDone(s, p, original, ok));
    var t := CountPending(s.(storing := s.storing + {(p, original)}), p, 1);
    AllRestedSame(s, t);
    StoredSame(t, p, original, false);
    AllRestedSame(t, StorageDone(t, p, original, false));
    AllRestedSame(s, Refuse(s, p, original));
  }

  lemma StoredSame(s: State, p: PeerId, original: string, ok: bool)
    ensures var t := StorageDone(s, p, original, ok);
            t.entries == s.entries && t.queues == s.queues && forall y :: MayGrant(t, y) ==> MayGrant(s, y)
  {}

  lemma StepRests(s: State, step: Step)
    requires Inv(s, {}) && Enabled(s, step) && AllRested(s)
    ensures AllRested(Next(s, step))
  {
    hide Inv, AllRested, Route, MutationReady, Respond, Finish, Fail, RemoveMutation, AccessUpdate, Disconnect, Join, StorageRequest,
      StorageDone, Routable;
    InvCore(s, {});
    match step
    case Joins(p, peer) => JoinRests(s, p, peer);
    case Routes(p, id, r) => RouteRests(s, p, id, r);
    case Readies(p, id, tab) => ReadyRests(s, p, id, tab);
    case Responds(p, id, reply) => RespondRests(s, p, id, reply);
    case Completes(id, ok) => FinishRests(s, id, ok);
    case Cancels(id) => FailRests(s, id);
    case TimesOut(id) => FailRests(s, id);
    case Expires(id) => RemoveRests(s, id, s.entries[id].target, {});
    case Accesses(p, access, order) => AccessRests(s, p, access, order);
    case Disconnects(p, order, slots) => DisconnectRests(s, p, order, slots);
    case Stores(p, original, queued) => StorageRests(s, p, original, queued, false);
    case Stored(p, original, ok) => StorageRests(s, p, original, false, ok);
    case Passes(now) => AllRestedSame(s, s.(now := now));
  }

  lemma {:induction false} RunRests(s: State, steps: seq<Step>)
    requires Inv(s, {}) && AllRested(s) && IsRun(s, steps)
    ensures AllRested(After(s, steps))
    decreases |steps|
  {
    hide Inv, Next, Enabled, AllRested;
    if steps != [] {
      StepKeeps(s, steps[0]);
      StepRests(s, steps[0]);
      RunRests(Next(s, steps[0]), steps[1..]);
    }
  }

  lemma ReachableRests(s: State)
    requires Reachable(s)
    ensures AllRested(s)
  {
    hide Inv;
    var steps :| IsRun(Start, steps) && After(Start, steps) == s;
    StartHolds();
    RunRests(Start, steps);
  }

  // What it comes to

  /**
   * With access on, a ready mutation that nothing in front of it stops is a
   * navigation on a tab that cancelled work still holds.
   */
  lemma OnlyNavigationsWait(s: State, p: PeerId, i: nat)
    requires Reachable(s) && MayGrant(s, p) && i < |Queue(s, p)|
    ensures Queue(s, p)[i] in s.entries
    ensures var e := s.entries[Queue(s, p)[i]];
            Waiting(e) && !Blocked(s, Queue(s, p), i) ==> Preempts(e.operation) && e.tab in CancelingTabs(s, Queue(s, p))
  {
    hide Reachable, Preempts, BusyTabs, CancelingTabs, PreparingTabs, MayGrant, Connected;
    ReachableRests(s);
    ReachableHolds(s);
    Queued(s, p, i);
    hide Inv;
    var q := Queue(s, p);
    if Waiting(s.entries[q[i]]) {
      assert Rested(s, p);
      assert Held(s, q, i);
    }
  }

  lemma Queued(s: State, p: PeerId, i: nat)
    requires Inv(s, {}) && i < |Queue(s, p)|
    ensures Queue(s, p)[i] in s.entries
  {
    hide Lifecycle, AllOrdered, Slots, NoDuplicates, Frame;
    assert Queue(s, p)[i] in Queue(s, p);
  }

  /** The entry is a ready navigation whose tab is free but for cancelled work, with no preparation in its way. */
  ghost predicate Overlooked(s: State, q: seq<RequestId>, i: nat)
    requires i < |q| && q[i] in s.entries
  {
    var e := s.entries[q[i]];
    && Waiting(e) && Preempts(e.operation)
    && e.tab in CancelingTabs(s, q) && e.tab !in BusyTabs(s, q)
    && e.tab !in PreparingTabs(s, q[..i]) && 0 !in PreparingTabs(s, q[..i])
  }

  /** A granting pass changes nothing exactly when no such navigation is in the queue. */
  lemma GrantsNothingIff(s: State, p: PeerId)
    requires Reachable(s) && MayGrant(s, p)
    ensures forall i :: 0 <= i < |Queue(s, p)| ==> Queue(s, p)[i] in s.entries
    ensures Grant(s, p) == s <==> forall i :: 0 <= i < |Queue(s, p)| ==> !Overlooked(s, Queue(s, p), i)
  {
    hide Reachable, Grant, Core, Frame, Queue, Preempts, BusyTabs, CancelingTabs, PreparingTabs;
    ReachableHolds(s);
    var q := Queue(s, p);
    forall i | 0 <= i < |q|
      ensures q[i] in s.entries
      ensures Overlooked(s, q, i) <==> Waiting(s.entries[q[i]]) && !Blocked(s, q, i)
    {
      Queued(s, p, i);
      OnlyNavigationsWait(s, p, i);
    }
    GrantKeeps(s, p, {});
    if Settled(s, p) {
      SettledGrantsNothing(s, p, {});
    }
  }

  // Which steps leave nothing grantable

  lemma FinishSettles(s: State, id: RequestId, ok: bool, x: RequestId)
    requires Inv(s, {}) && x in s.entries && x !in Finish(s, id, ok).entries
    ensures Settled(Finish(s, id, ok), s.entries[x].target)
  {
    hide Core, Frame, Settled, RemoveMutation, Quiet;
    var t := Forget(s, id);
    ForgetKeeps(s, id);
    var p := s.entries[id].target;
    var u := RemoveMutation(t, id, p);
    RemoveKeeps(t, id, p, {id});
    if x != id {
      RemovesOne(t, id, p, x);
    }
    SettledSame(u, Finish(s, id, ok), p);
  }

  lemma SettledSame(s: State, t: State, p: PeerId)
    requires Settled(s, p) && t.entries == s.entries && t.queues == s.queues
    requires MayGrant(t, p) ==> MayGrant(s, p)
    ensures Settled(t, p)
  {
    hide Preempts;
  }

  /** Removing a mutation removes no other. */
  lemma RemovesOne(s: State, id: RequestId, p: PeerId, x: RequestId)
    requires x in s.entries && x != id
    ensures x in RemoveMutation(s, id, p).entries
  {
    hide Grant, Without;
    GrantHasEffect(Unschedule(s, id, p), p);
  }

  lemma FailSettles(s: State, id: RequestId, x: RequestId)
    requires Inv(s, {}) && x in s.entries && x !in Fail(s, id).entries
    ensures Settled(Fail(s, id), s.entries[x].target)
  {
    hide Inv, Finish, Settled;
    NotifyKeeps(s, id, {});
    FinishSettles(NotifyCanceled(s, id), id, false, x);
  }

  lemma RespondSettles(s: State, p: PeerId, id: RequestId, reply: Reply, x: RequestId)
    requires Inv(s, {}) && x in s.entries && x !in Respond(s, p, id, reply).entries
    ensures Settled(Respond(s, p, id, reply), s.entries[x].target)
  {
    hide Inv, Finish, Settled, RemoveMutation, Quiet;
    InvCore(s, {});
    var u := RemoveMutation(s, id, p);
    if id in s.pending && reply.Malformed? {
      FinishSettles(s, id, false, x);
    } else if x !in u.entries {
      RemoveKeeps(s, id, p, {});
      RemovedTarget(s, id, p, x);
      FinishAbsent(u, id, true, s.entries[x].target);
      FinishAbsent(u, id, false, s.entries[x].target);
    } else {
      RemoveInv(s, id, p, {});
      RemoveTargets(s, id, p, x);
      if reply == Settles(true) {
        FinishSettles(u, id, true, x);
      } else {
        FinishSettles(u, id, false, x);
      }
    }
  }

  lemma RemovedTarget(s: State, id: RequestId, p: PeerId, x: RequestId)
    requires Core(s, {}) && x in s.entries && x !in RemoveMutation(s, id, p).entries
    ensures x == id && s.entries[x].target == p && Settled(RemoveMutation(s, id, p), p) && id !in RemoveMutation(s, id, p).entries
  {
    hide Core, Settled, Grant, Unschedule, Quiet;
    RemoveKeeps(s, id, p, {});
    if x != id {
      RemovesOne(s, id, p, x);
    }
  }

  lemma RemoveTargets(s: State, id: RequestId, p: PeerId, x: RequestId)
    requires Inv(s, {}) && x in s.entries && x in RemoveMutation(s, id, p).entries
    ensures RemoveMutation(s, id, p).entries[x].target == s.entries[x].target
  {
    hide Core, Frame, RemoveMutation;
    RemoveKeeps(s, id, p, {});
    QuietShrinks(s, RemoveMutation(s, id, p));
  }

  /** Ending a request whose entry is gone leaves the queues as they are. */
  lemma FinishAbsent(s: State, id: RequestId, ok: bool, p: PeerId)
    requires id !in s.entries && Settled(s, p)
    ensures Settled(Finish(s, id, ok), p)
  {
    hide Settled;
    SettledSame(s, Finish(s, id, ok), p);
  }

  lemma ReadySettles(s: State, p: PeerId, id: RequestId, tab: Option<nat>, x: RequestId)
    requires Inv(s, {}) && x in s.entries && x !in MutationReady(s, p, id, tab).entries
    ensures Settled(MutationReady(s, p, id, tab), s.entries[x].target)
  {
    hide Inv, Fail, Settled, Grant;
    if id in s.entries && GoodTab(s.entries[id], tab) {
      GrantHasEffect(MarkReady(s, id, tab.value), p);
    } else {
      FailSettles(s, id, x);
    }
  }

  lemma ExpireSettles(s: State, id: RequestId, x: RequestId)
    requires Inv(s, {}) && x in s.entries && x !in Expire(s, id).entries
    ensures Settled(Expire(s, id), s.entries[x].target)
  {
    hide Inv, Settled, RemoveMutation;
    InvCore(s, {});
    RemovedTarget(s, id, s.entries[id].target, x);
  }

  lemma {:induction false} RevokeSpares(s: State, p: PeerId, order: seq<RequestId>, x: RequestId)
    requires Inv(s, {}) && x in s.entries && s.entries[x].target != p
    ensures x in RevokeFrom(s, p, order).entries
    decreases |order|
  {
    hide Inv, Fail;
    if order != [] {
      var id := order[0];
      if id in s.entries && s.entries[id].target == p && id in s.pending {
        FailKeeps(s, id, {});
        FailSpares(s, id, x);
        RevokeSpares(Fail(s, id), p, order[1..], x);
      } else {
        RevokeSpares(s, p, order[1..], x);
      }
    }
  }

  lemma FailSpares(s: State, id: RequestId, x: RequestId)
    requires Inv(s, {}) && x in s.entries && x != id
    ensures x in Fail(s, id).entries && Fail(s, id).entries[x].target == s.entries[x].target
  {
    hide Core, Frame, RemoveMutation, Quiet;
    var n := NotifyCanceled(s, id);
    if id in s.pending {
      var t := Forget(n, id);
      NotifyKeeps(s, id, {});
      ForgetKeeps(n, id);
      CancelKeeps(t, id);
      QuietShrinks(t, CancelMutation(t, id));
      if id in t.entries {
        RemovesOne(t, id, t.entries[id].target, x);
      }
    }
  }

  lemma AccessOffLasts(s: State, p: PeerId, order: seq<RequestId>)
    requires Inv(s, {})
    ensures !MayGrant(AccessUpdate(s, p, false, order), p)
  {
    RevokeStaysOff(SetAccess(s, p, false), p, order);
  }

  lemma {:induction false} RevokeStaysOff(s: State, p: PeerId, order: seq<RequestId>)
    requires !MayGrant(s, p)
    ensures !MayGrant(RevokeFrom(s, p, order), p)
    decreases |order|
  {
    hide Fail, MayGrant;
    if order != [] {
      var id := order[0];
      FailAccess(s, id, p);
      RevokeStaysOff(if id in s.entries && s.entries[id].target == p && id in s.pending then Fail(s, id) else s, p, order[1..]);
    }
  }

  lemma FailAccess(s: State, id: RequestId, p: PeerId)
    ensures MayGrant(Fail(s, id), p) == MayGrant(s, p)
  {
    hide Finish;
    FinishAccess(NotifyCanceled(s, id), id, p);
  }

  lemma FinishAccess(s: State, id: RequestId, p: PeerId)
    ensures MayGrant(Finish(s, id, false), p) == MayGrant(s, p)
  {
    hide CancelMutation;
    CancelPeers(Forget(s, id), id);
  }

  /** A mutation of the profile left the scheduler, became ready, or access came on. */
  ghost predicate Wakes(s: State, step: Step, p: PeerId) {
    || (exists x :: x in s.entries && s.entries[x].target == p && x !in Next(s, step).entries)
    || (step.Readies? && step.p == p && step.id in s.entries && s.entries[step.id].target == p
        && s.entries[step.id].ready.None? && GoodTab(s.entries[step.id], step.tab))
    || (step.Accesses? && step.p == p && step.access)
  }

  /**
   * After each step that removes a mutation of the profile, readies one or turns
   * access on, a second pass grants nothing. A disconnect is apart: its walk may
   * cancel running work after the last removal.
   */
  lemma NothingGrantableWaits(s: State, step: Step, p: PeerId)
    requires Reachable(s) && Enabled(s, step) && !step.Disconnects? && Wakes(s, step, p)
    ensures Settled(Next(s, step), p)
    ensures Grant(Next(s, step), p) == Next(s, step)
  {
    hide Reachable, Core, Frame, Grant, Settled, Next, Enabled, Wakes;
    ReachableHolds(s);
    ReachableRests(s);
    StepKeeps(s, step);
    WakingSettles(s, step, p);
    SettledGrantsNothing(Next(s, step), p, {});
  }

  lemma WakingSettles(s: State, step: Step, p: PeerId)
    requires Inv(s, {}) && AllRested(s) && Enabled(s, step) && !step.Disconnects? && Wakes(s, step, p)
    ensures Settled(Next(s, step), p)
  {
    hide Inv, AllRested, Settled, RemoveMutation, Grant, Enabled, MutationReady, AccessUpdate, Next;
    if step.Readies? && step.p == p && step.id in s.entries && s.entries[step.id].target == p
       && s.entries[step.id].ready.None? && GoodTab(s.entries[step.id], step.tab) {
      ReadyRests(s, p, step.id, step.tab);
      NextIs(s, step);
    } else if step.Accesses? && step.p == p && step.access {
      AccessRests(s, p, true, step.order);
      NextIs(s, step);
    } else {
      var x :| x in s.entries && s.entries[x].target == p && x !in Next(s, step).entries;
      RemovalSettles(s, step, x);
    }
  }

  lemma NextIs(s: State, step: Step)
    ensures step.Readies? ==> Next(s, step) == MutationReady(s, step.p, step.id, step.tab)
    ensures step.Accesses? ==> Next(s, step) == AccessUpdate(s, step.p, step.access, step.order)
  {}

  lemma RemovalSettles(s: State, step: Step, x: RequestId)
    requires Inv(s, {}) && Enabled(s, step) && !step.Disconnects? && x in s.entries && x !in Next(s, step).entries
    ensures Settled(Next(s, step), s.entries[x].target)
  {
    hide Inv, Settled, Route, MutationReady, Respond, Finish, Fail, Expire, AccessUpdate, Disconnect, Join, StorageRequest,
      StorageDone, Routable;
    match step
    case Joins(p, peer) => IdleEntries(s, step);
    case Routes(p, id, r) => RouteSpares(s, p, id, r);
    case Readies(p, id, tab) => ReadySettles(s, p, id, tab, x);
    case Responds(p, id, reply) => RespondSettles(s, p, id, reply, x);
    case Completes(id, ok) => FinishSettles(s, id, ok, x);
    case Cancels(id) => FailSettles(s, id, x);
    case TimesOut(id) => FailSettles(s, id, x);
    case Expires(id) => ExpireSettles(s, id, x);
    case Accesses(p, access, order) => AccessSettles(s, p, access, order, x);
    case Stores(p, original, queued) => IdleEntries(s, step);
    case Stored(p, original, ok) => IdleEntries(s, step);
    case Passes(now) =>
  }

  lemma IdleEntries(s: State, step: Step)
    requires step.Joins? || step.Stores? || step.Stored?
    ensures Next(s, step).entries == s.entries
  {
    hide StorageRequest, StorageDone;
    match step
    case Joins(_, _) =>
    case Stores(p, original, queued) => StoresEntries(s, p, original, queued);
    case Stored(p, original, ok) => StoredEntries(s, p, original, ok);
  }

  lemma RouteSpares(s: State, p: PeerId, id: RequestId, r: Request)
    ensures s.entries.Keys <= Route(s, p, id, r).entries.Keys
  {
    hide Duplicate, SchedulerFull;
  }

  lemma AccessSettles(s: State, p: PeerId, access: bool, order: seq<RequestId>, x: RequestId)
    requires Inv(s, {}) && x in s.entries && x !in AccessUpdate(s, p, access, order).entries
    ensures Settled(AccessUpdate(s, p, access, order), s.entries[x].target)
  {
    hide Inv, Grant, RevokeFrom, SetAccess;
    var t := SetAccess(s, p, access);
    SetAccessKeeps(s, p, access, {});
    AccessPeers(s, p, access);
    if access {
      GrantHasEffect(t, p);
    } else if s.entries[x].target != p {
      RevokeSpares(t, p, order, x);
    } else {
      AccessOffLasts(s, p, order);
    }
  }
}
