/**
 * What the daemon tells whom: which outcome a request is answered with, which
 * browsers hear of a cancellation, and which of a grant.
 */
module DaemonAnswers {
  import opened Options
  import opened DaemonState
  import opened SchedulerLaws
  import opened DaemonLaws
  import opened DaemonRuns

  // ---- grants ----

  /** The new messages grant exactly the entries that changed, each to its own browser and once. */
  ghost predicate Tells(s: State, t: State) {
    && s.sent <= t.sent && t.entries.Keys == s.entries.Keys
    && (forall id <- s.entries :: t.entries[id] != s.entries[id] ==> t.entries[id] == s.entries[id].(granted := t.entries[id].granted))
    && (forall id <- s.entries :: t.entries[id] != s.entries[id] ==> s.entries[id].granted.None? && t.entries[id].granted.Some?)
    && (forall id <- s.entries :: t.entries[id] != s.entries[id] ==>
          exists i :: |s.sent| <= i < |t.sent| && t.sent[i] == GrantMutation(s.entries[id].target, id))
    && (forall i :: |s.sent| <= i < |t.sent| ==>
          && t.sent[i].GrantMutation? && t.sent[i].id in s.entries && t.entries[t.sent[i].id] != s.entries[t.sent[i].id]
          && t.sent[i].to == s.entries[t.sent[i].id].target)
    && (forall i, j :: |s.sent| <= i < j < |t.sent| ==> t.sent[i].id != t.sent[j].id)
  }

  lemma TellsNothing(s: State)
    ensures Tells(s, s)
  {}

  lemma TellsOne(s: State, id: RequestId)
    requires id in s.entries && id in s.pending && s.entries[id].granted.None?
    ensures Tells(s, GrantOne(s, id))
  {
    var t := GrantOne(s, id);
    assert t.sent[|s.sent|] == GrantMutation(s.entries[id].target, id);
  }

  lemma TellsTrans(s: State, t: State, u: State)
    requires Tells(s, t) && Tells(t, u)
    ensures Tells(s, u)
  {
    forall id | id in s.entries && u.entries[id] != s.entries[id]
      ensures exists i :: |s.sent| <= i < |u.sent| && u.sent[i] == GrantMutation(s.entries[id].target, id)
    {
      if t.entries[id] != s.entries[id] {
        var i :| |s.sent| <= i < |t.sent| && t.sent[i] == GrantMutation(s.entries[id].target, id);
        assert u.sent[i] == t.sent[i];
      } else {
        var i :| |t.sent| <= i < |u.sent| && u.sent[i] == GrantMutation(t.entries[id].target, id);
      }
    }
    forall i | |s.sent| <= i < |u.sent|
      ensures u.sent[i].GrantMutation? && u.sent[i].id in s.entries && u.entries[u.sent[i].id] != s.entries[u.sent[i].id]
      ensures u.sent[i].to == s.entries[u.sent[i].id].target
    {
      if i < |t.sent| {
        assert u.sent[i] == t.sent[i];
      }
    }
    forall i, j | |s.sent| <= i < j < |u.sent|
      ensures u.sent[i].id != u.sent[j].id
    {
      if i < |t.sent| {
        assert u.sent[i] == t.sent[i];
        if j < |t.sent| {
          assert u.sent[j] == t.sent[j];
        } else {
          assert t.entries[t.sent[i].id].granted.Some? && t.entries[u.sent[j].id].granted.None?;
        }
      }
    }
  }

  lemma {:induction false} GrantFromTells(s: State, q: seq<RequestId>, busy: set<nat>, canceling: set<nat>)
    ensures Tells(s, GrantFrom(s, q, busy, canceling))
    decreases |q|
  {
    hide Preempts, Tells, GrantOne;
    TellsNothing(s);
    if q != [] {
      var id := q[0];
      if id !in s.entries || s.entries[id].granted.Some? || s.entries[id].canceled {
        GrantFromTells(s, q[1..], busy, canceling);
      } else {
        var e := s.entries[id];
        if e.ready.None? {
          GrantFromTells(s, q[1..], busy + {e.tab}, canceling);
        } else if e.tab in busy || (e.tab in canceling && !Preempts(e.operation)) || id !in s.pending {
          GrantFromTells(s, q[1..], busy, canceling);
        } else {
          TellsOne(s, id);
          GrantFromTells(GrantOne(s, id), q[1..], busy + {e.tab}, canceling);
          TellsTrans(s, GrantOne(s, id), GrantFrom(GrantOne(s, id), q[1..], busy + {e.tab}, canceling));
        }
      }
    }
  }

  /** A granting pass tells exactly the browsers of what it grants. */
  lemma GrantTells(s: State, p: PeerId)
    ensures Tells(s, Grant(s, p))
  {
    hide Tells, GrantFrom;
    TellsNothing(s);
    GrantFromTells(s, Queue(s, p), BusyTabs(s, Queue(s, p)), CancelingTabs(s, Queue(s, p)));
  }

  // ---- answers ----

  predicate Succeeds(m: Message) {
    m.Answer? && m.ok
  }

  /** Nothing that was sent since reports a success. */
  ghost predicate NoSuccess(s: State, t: State) {
    s.sent <= t.sent && forall i :: |s.sent| <= i < |t.sent| ==> !Succeeds(t.sent[i])
  }

  /** Nothing that was sent since answers a request. */
  ghost predicate NoAnswer(s: State, t: State) {
    s.sent <= t.sent && forall i :: |s.sent| <= i < |t.sent| ==> !t.sent[i].Answer?
  }

  lemma NoSuccessTrans(s: State, t: State, u: State)
    requires NoSuccess(s, t) && NoSuccess(t, u)
    ensures NoSuccess(s, u)
  {
    forall i | |s.sent| <= i < |u.sent|
      ensures !Succeeds(u.sent[i])
    {
      assert i < |t.sent| ==> u.sent[i] == t.sent[i];
    }
  }

  lemma NoSuccessSame(s: State, t: State)
    requires t.sent == s.sent
    ensures NoSuccess(s, t) && NoAnswer(s, t)
  {}

  lemma GrantAnswersNone(s: State, p: PeerId)
    ensures NoAnswer(s, Grant(s, p)) && NoSuccess(s, Grant(s, p)) && Grant(s, p).pending.Keys == s.pending.Keys
  {
    hide Grant;
    GrantHasEffect(s, p);
  }

  lemma RemoveAnswersNone(s: State, id: RequestId, p: PeerId)
    ensures var t := RemoveMutation(s, id, p); NoAnswer(s, t) && NoSuccess(s, t) && t.pending.Keys == s.pending.Keys
  {
    hide Grant, Without;
    GrantAnswersNone(Unschedule(s, id, p), p);
  }

  lemma CancelAnswersNone(s: State, id: RequestId)
    ensures NoAnswer(s, CancelMutation(s, id)) && NoSuccess(s, CancelMutation(s, id))
  {
    hide RemoveMutation;
    if id in s.entries {
      RemoveAnswersNone(s, id, s.entries[id].target);
    }
  }

  lemma EndAnswers(s: State, id: RequestId, ok: bool)
    ensures NoSuccess(s, Finish(s, id, false)) && NoSuccess(s, Abandon(s, id)) && NoAnswer(s, Abandon(s, id))
    ensures id in s.pending ==>
      var t := Finish(s, id, ok);
      && id !in t.pending && t.sent != [] && t.sent[|t.sent| - 1] == Answer(s.pending[id].owner, id, ok)
      && s.sent <= t.sent && forall i :: |s.sent| <= i < |t.sent| - 1 ==> !t.sent[i].Answer?
  {
    hide CancelMutation;
    if id in s.pending {
      CancelAnswersNone(Forget(s, id), id);
      CancelPeers(Forget(s, id), id);
    }
  }

  lemma FailAnswers(s: State, id: RequestId)
    ensures NoSuccess(s, Fail(s, id))
  {
    hide Finish;
    var n := NotifyCanceled(s, id);
    EndAnswers(n, id, false);
    NoSuccessTrans(s, n, Finish(n, id, false));
  }

  lemma {:induction false} RevokeAnswers(s: State, p: PeerId, order: seq<RequestId>)
    ensures NoSuccess(s, RevokeFrom(s, p, order))
    decreases |order|
  {
    hide Fail, NoSuccess;
    NoSuccessSame(s, s);
    if order != [] {
      var id := order[0];
      FailAnswers(s, id);
      var t := if id in s.entries && s.entries[id].target == p && id in s.pending then Fail(s, id) else s;
      RevokeAnswers(t, p, order[1..]);
      NoSuccessTrans(s, t, RevokeFrom(s, p, order));
    }
  }

  lemma DropOneAnswers(s: State, p: PeerId, id: RequestId)
    ensures NoSuccess(s, DropOne(s, p, id))
  {
    hide Finish, Abandon, NoSuccess, NotifyCanceled;
    NoSuccessSame(s, s);
    EndAnswers(s, id, false);
    var n := NotifyCanceled(s, id);
    NotifyAnswers(s, id);
    EndAnswers(n, id, false);
    NoSuccessTrans(s, n, Abandon(n, id));
  }

  lemma NotifyAnswers(s: State, id: RequestId)
    ensures NoSuccess(s, NotifyCanceled(s, id))
  {}

  lemma {:induction false} DropAnswers(s: State, p: PeerId, order: seq<RequestId>)
    ensures NoSuccess(s, DropFrom(s, p, order))
    decreases |order|
  {
    hide DropOne, NoSuccess;
    NoSuccessSame(s, s);
    if order != [] {
      var t := DropOne(s, p, order[0]);
      DropOneAnswers(s, p, order[0]);
      DropAnswers(t, p, order[1..]);
      NoSuccessTrans(s, t, DropFrom(s, p, order));
    }
  }

  lemma {:induction false} UnscheduleAnswers(s: State, p: PeerId, order: seq<RequestId>)
    ensures NoSuccess(s, UnscheduleFrom(s, p, order))
    decreases |order|
  {
    hide RemoveMutation, NoSuccess;
    NoSuccessSame(s, s);
    if order != [] {
      var id := order[0];
      RemoveAnswersNone(s, id, p);
      var t := if id in s.entries && s.entries[id].target == p then RemoveMutation(s, id, p) else s;
      UnscheduleAnswers(t, p, order[1..]);
      NoSuccessTrans(s, t, UnscheduleFrom(s, p, order));
    }
  }

  /**
   * A response is answered as it says: a settled one with its own outcome, a malformed
   * one and one there is no room to store with a failure; a deferred one, and one from
   * another browser or for a request that is gone, not at all. One from the browser of
   * the slot frees it, even when the request is gone.
   */
  ghost predicate Responded(s: State, t: State, p: PeerId, id: RequestId, reply: Reply) {
    && (if id in s.pending && s.pending[id].target == p && !reply.Deferred? then
          && id !in t.pending && t.sent != [] && t.sent[|t.sent| - 1] == Answer(s.pending[id].owner, id, reply == Settles(true))
          && s.sent <= t.sent && forall i :: |s.sent| <= i < |t.sent| - 1 ==> !t.sent[i].Answer?
        else NoAnswer(s, t) && t.pending.Keys == s.pending.Keys)
    && (id in s.entries && s.entries[id].target == p && (id in s.pending ==> s.pending[id].target == p && !reply.Malformed?) ==>
          id !in t.entries)
  }

  lemma ResponseAnswers(s: State, p: PeerId, id: RequestId, reply: Reply)
    ensures Responded(s, Next(s, Responds(p, id, reply)), p, id, reply)
  {
    hide RemoveMutation, Finish;
    NoSuccessSame(s, s);
    RemoveAnswersNone(s, id, p);
    var u := RemoveMutation(s, id, p);
    RemoveKeepsOwner(s, id, p);
    EndAnswers(s, id, false);
    EndAnswers(u, id, true);
    EndAnswers(u, id, false);
    if id in s.entries && s.entries[id].target == p && (id in s.pending ==> s.pending[id].target == p && !reply.Malformed?) {
      ResponseFrees(s, p, id, reply);
    }
    if id in s.pending && s.pending[id].target == p && !reply.Deferred? && !reply.Malformed? {
      var t := Next(s, Responds(p, id, reply));
      forall i | |s.sent| <= i < |t.sent| - 1
        ensures !t.sent[i].Answer?
      {
        assert i < |u.sent| ==> t.sent[i] == u.sent[i];
      }
    }
  }

  lemma RemoveKeepsOwner(s: State, id: RequestId, p: PeerId)
    ensures var t := RemoveMutation(s, id, p); id in s.pending ==> id in t.pending && t.pending[id].owner == s.pending[id].owner
  {
    hide Grant, Without;
    GrantHasEffect(Unschedule(s, id, p), p);
  }

  lemma RemoveFrees(s: State, id: RequestId, p: PeerId)
    ensures var t := RemoveMutation(s, id, p);
      if id in s.entries && s.entries[id].target == p then t.entries.Keys == s.entries.Keys - {id} else t == s
  {
    hide Grant, Without;
    if id in s.entries && s.entries[id].target == p {
      GrantHasEffect(Unschedule(s, id, p), p);
    }
  }

  /** A response of the entry's own browser frees its slot, even when its request is gone; so does the slot timer. */
  lemma ResponseFrees(s: State, p: PeerId, id: RequestId, reply: Reply)
    requires id in s.entries && s.entries[id].target == p
    requires id in s.pending ==> s.pending[id].target == p && !reply.Malformed?
    ensures id !in Next(s, Responds(p, id, reply)).entries && id !in Next(s, Expires(id)).entries
  {
    hide RemoveMutation, Forget, CountPending, Send;
    RemoveFrees(s, id, p);
    var u := RemoveMutation(s, id, p);
    FinishUnscheduled(u, id, true);
    FinishUnscheduled(u, id, false);
  }

  lemma FinishUnscheduled(s: State, id: RequestId, ok: bool)
    requires id !in s.entries
    ensures Finish(s, id, ok).entries == s.entries
  {}

  /** A cancelled or timed out request is cancelled in its browser too, and answered with a failure. */
  lemma CancelAnswers(s: State, id: RequestId)
    requires Reachable(s) && id in s.pending
    ensures Next(s, Cancels(id)) == Next(s, TimesOut(id))
    ensures var t := Next(s, Cancels(id));
      && id !in t.pending && |t.sent| > |s.sent| + 1 && s.sent <= t.sent
      && t.sent[|s.sent|] == CancelRequest(s.pending[id].target, id)
      && t.sent[|t.sent| - 1] == Answer(s.pending[id].owner, id, false)
  {
    hide Reachable, Finish, Core, Counted, Answered, Capacity, Timers, SlotPeople;
    ReachableHolds(s);
    var n := NotifyCanceled(s, id);
    EndAnswers(n, id, false);
    assert Connected(s, s.pending[id].target);
    assert n.sent == s.sent + [CancelRequest(s.pending[id].target, id)];
  }

  /** Every other step reports no success. */
  lemma OthersReportNone(s: State, step: Step)
    requires !step.Responds? && !step.Completes?
    ensures NoSuccess(s, Next(s, step))
  {
    hide Route, Grant, Fail, RemoveMutation, RevokeFrom, DropFrom, UnscheduleFrom, StorageRequest, StorageDone, SetAccess, Leave, NoSuccess,
      MarkReady;
    NoSuccessSame(s, s);
    match step
    case Joins(p, peer) => NoSuccessSame(s, Join(s, p, peer));
    case Routes(p, id, r) => RouteReportsNone(s, p, id, r);
    case Readies(p, id, tab) =>
      FailAnswers(s, id);
      if id in s.entries && tab.Some? {
        var t := MarkReady(s, id, tab.value);
        MarkReadySends(s, id, tab.value);
        GrantAnswersNone(t, p);
        NoSuccessTrans(s, t, Grant(t, p));
      }
    case Cancels(id) => FailAnswers(s, id);
    case TimesOut(id) => FailAnswers(s, id);
    case Expires(id) =>
      if id in s.entries {
        RemoveAnswersNone(s, id, s.entries[id].target);
      }
    case Accesses(p, access, order) =>
      var t := SetAccess(s, p, access);
      SetAccessSends(s, p, access);
      GrantAnswersNone(t, p);
      RevokeAnswers(t, p, order);
      NoSuccessTrans(s, t, AccessUpdate(s, p, access, order));
    case Disconnects(p, order, slots) =>
      var l := Leave(s, p);
      LeaveSends(s, p);
      DropAnswers(l, p, order);
      NoSuccessTrans(s, l, DropFrom(l, p, order));
      UnscheduleAnswers(DropFrom(l, p, order), p, slots);
      NoSuccessTrans(s, DropFrom(l, p, order), UnscheduleFrom(DropFrom(l, p, order), p, slots));
    case Stores(p, original, queued) => StorageReportsNone(s, p, original, queued, false);
    case Stored(p, original, ok) => StorageReportsNone(s, p, original, false, ok);
    case Passes(now) => NoSuccessSame(s, s.(now := now));
  }

  lemma MarkReadySends(s: State, id: RequestId, tab: nat)
    requires id in s.entries
    ensures NoSuccess(s, MarkReady(s, id, tab))
  {}

  lemma SetAccessSends(s: State, p: PeerId, access: bool)
    ensures NoSuccess(s, SetAccess(s, p, access))
  {}

  lemma LeaveSends(s: State, p: PeerId)
    ensures NoSuccess(s, Leave(s, p))
  {}

  lemma RouteReportsNone(s: State, p: PeerId, id: RequestId, r: Request)
    ensures NoSuccess(s, Route(s, p, id, r))
  {
    hide Duplicate, SchedulerFull;
  }

  lemma StorageReportsNone(s: State, p: PeerId, original: string, queued: bool, ok: bool)
    ensures NoSuccess(s, StorageRequest(s, p, original, queued)) && NoSuccess(s, StorageDone(s, p, original, ok))
  {
    hide Duplicate, Connected;
  }

  // ---- admission ----

  /** Neither a pending nor a storage request of the peer has this name. */
  ghost predicate Unused(s: State, p: PeerId, original: string) {
    (p, original) !in s.storing && forall x <- s.pending :: s.pending[x].owner != p || s.pending[x].original != original
  }

  ghost predicate HasRoom(s: State, p: PeerId, r: Request) {
    && |s.pending| < 128 && p in s.peers && s.peers[p].pending < 16
    && (r.target.Some? && r.mutation && r.target.value in s.peers && s.peers[r.target.value].schedules ==>
          |s.entries| < 128 && (r.target.value in s.queues ==> |s.queues[r.target.value]| < 32))
  }

  /**
   * A request with a new id becomes pending exactly when its name is unused, it has a
   * target, and every limit leaves room; then it is forwarded, and otherwise refused.
   */
  ghost predicate Admitted(s: State, t: State, p: PeerId, id: RequestId, r: Request) {
    && (id in t.pending <==> Unused(s, p, r.original) && r.target.Some? && HasRoom(s, p, r))
    && if id !in t.pending then t == s.(sent := s.sent + [LocalAnswer(p, r.original, false)])
       else
         && r.target.Some? && p in s.peers
         && t.pending == s.pending[id := t.pending[id]]
         && t.pending[id].owner == p && t.pending[id].target == r.target.value && t.pending[id].original == r.original
         && t.pending[id].expires == s.now + r.timeout
         && t.peers == s.peers[p := s.peers[p].(pending := s.peers[p].pending + 1)]
         && t.sent == s.sent + [Forward(r.target.value, id)]
         && if r.mutation && r.target.value in s.peers && s.peers[r.target.value].schedules then
              && t.entries == s.entries[id := Mutation(id, r.target.value, r.operation, s.now + r.timeout, r.tab, None, None, false, None)]
              && t.queues == s.queues[r.target.value := Queue(s, r.target.value) + [id]]
            else t.entries == s.entries && t.queues == s.queues
  }

  lemma RouteDecides(s: State, p: PeerId, id: RequestId, r: Request)
    requires id !in s.pending
    ensures Admitted(s, Next(s, Routes(p, id, r)), p, id, r)
  {
    DuplicateIs(s, p, r.original);
    hide Duplicate, Unused, Admit, Refuse;
    RefusedIs(s, p, r.original);
    if r.target.Some? && p in s.peers {
      AdmittedIs(s, p, id, r);
      hide Scheduled, SchedulerFull;
      FullIs(s, r);
    }
  }

  lemma DuplicateIs(s: State, p: PeerId, original: string)
    ensures Duplicate(s, p, original) <==> !Unused(s, p, original)
  {}

  lemma FullIs(s: State, r: Request)
    requires r.target.Some?
    ensures Scheduled(s, r) && SchedulerFull(s, r.target.value) <==>
      && r.mutation && r.target.value in s.peers && s.peers[r.target.value].schedules
      && !(|s.entries| < 128 && (r.target.value in s.queues ==> |s.queues[r.target.value]| < 32))
  {}

  lemma RefusedIs(s: State, p: PeerId, original: string)
    ensures Refuse(s, p, original) == s.(sent := s.sent + [LocalAnswer(p, original, false)])
  {}

  lemma AdmittedIs(s: State, p: PeerId, id: RequestId, r: Request)
    requires r.target.Some? && p in s.peers
    ensures var t := Admit(s, p, id, r);
      && id in t.pending && t.pending == s.pending[id := t.pending[id]]
      && t.pending[id].owner == p && t.pending[id].target == r.target.value && t.pending[id].original == r.original
      && t.pending[id].expires == s.now + r.timeout
      && t.peers == s.peers[p := s.peers[p].(pending := s.peers[p].pending + 1)]
      && t.sent == s.sent + [Forward(r.target.value, id)]
      && if r.mutation && r.target.value in s.peers && s.peers[r.target.value].schedules then
           && t.entries == s.entries[id := Mutation(id, r.target.value, r.operation, s.now + r.timeout, r.tab, None, None, false, None)]
           && t.queues == s.queues[r.target.value := Queue(s, r.target.value) + [id]]
         else t.entries == s.entries && t.queues == s.queues
  {
    hide SchedulerFull;
  }

  // ---- what a ready message and access leave ----

  /** The tab is a positive safe integer, and the one already known if any. */
  predicate TabFits(e: Mutation, tab: Option<nat>) {
    tab.Some? && 0 < tab.value <= 9007199254740991 && (e.tab == 0 || e.tab == tab.value)
  }

  /**
   * A first ready message of the entry's own browser marks it ready on the tab that it
   * names, or ends its request when the tab does not fit; any other changes nothing.
   */
  lemma ReadyMarks(s: State, p: PeerId, id: RequestId, tab: Option<nat>)
    ensures var t := Next(s, Readies(p, id, tab));
      if id !in s.entries || s.entries[id].target != p || s.entries[id].ready.Some? then t == s
      else if TabFits(s.entries[id], tab) then
        && id in t.entries && t.entries[id].ready == Some(s.now) && t.entries[id].tab == tab.value
        && t.entries[id].target == p && t.pending.Keys == s.pending.Keys
      else id !in t.pending && (id in s.pending ==> Answer(s.pending[id].owner, id, false) in t.sent)
  {
    hide Grant, Fail;
    if id in s.entries && s.entries[id].target == p && s.entries[id].ready.None? {
      if TabFits(s.entries[id], tab) {
        GrantHasEffect(MarkReady(s, id, tab.value), p);
        MarkedReady(s, id, tab.value);
      } else {
        FailEnds(s, id);
      }
    }
  }

  lemma MarkedReady(s: State, id: RequestId, tab: nat)
    requires id in s.entries
    ensures var t := MarkReady(s, id, tab);
      && id in t.entries && t.entries[id] == s.entries[id].(tab := tab, ready := Some(s.now)) && t.pending.Keys == s.pending.Keys
  {}

  lemma FailEnds(s: State, id: RequestId)
    ensures id !in Fail(s, id).pending
    ensures id in s.pending ==> Answer(s.pending[id].owner, id, false) in Fail(s, id).sent
  {
    hide Finish;
    EndAnswers(NotifyCanceled(s, id), id, false);
    FinishGone(NotifyCanceled(s, id), id);
  }

  lemma FinishGone(s: State, id: RequestId)
    ensures id !in s.pending ==> Finish(s, id, false) == s
  {
    hide CancelMutation;
  }

  /** Access is as the message says afterwards. */
  lemma AccessIsSet(s: State, p: PeerId, access: bool, order: seq<RequestId>)
    requires p in s.peers
    ensures var t := Next(s, Accesses(p, access, order)); p in t.peers && t.peers[p].access == access
  {
    hide Grant, RevokeFrom;
    GrantHasEffect(SetAccess(s, p, access), p);
    RevokeKeepsAccess(SetAccess(s, p, access), p, order);
  }

  lemma {:induction false} RevokeKeepsAccess(s: State, p: PeerId, order: seq<RequestId>)
    requires p in s.peers
    ensures p in RevokeFrom(s, p, order).peers && RevokeFrom(s, p, order).peers[p].access == s.peers[p].access
    decreases |order|
  {
    hide Fail;
    if order != [] {
      var id := order[0];
      FailKeepsAccess(s, id, p);
      RevokeKeepsAccess(if id in s.entries && s.entries[id].target == p && id in s.pending then Fail(s, id) else s, p, order[1..]);
    }
  }

  lemma FailKeepsAccess(s: State, id: RequestId, p: PeerId)
    requires p in s.peers
    ensures p in Fail(s, id).peers && Fail(s, id).peers[p].access == s.peers[p].access
  {
    hide Finish;
    FinishKeepsAccess(NotifyCanceled(s, id), id, p);
  }

  lemma FinishKeepsAccess(s: State, id: RequestId, p: PeerId)
    requires p in s.peers
    ensures p in Finish(s, id, false).peers && Finish(s, id, false).peers[p].access == s.peers[p].access
  {
    hide CancelMutation;
    CancelPeers(Forget(s, id), id);
  }

  // ---- over runs ----

  /** The step completes the pending request, or settles it for its browser, with success. */
  predicate Earns(s: State, step: Step, id: RequestId, owner: PeerId) {
    && id in s.pending && s.pending[id].owner == owner
    && (step == Completes(id, true) || step == Responds(s.pending[id].target, id, Settles(true)))
  }

  lemma StepEarns(s: State, step: Step, i: nat)
    requires |s.sent| <= i < |Next(s, step).sent| && Succeeds(Next(s, step).sent[i])
    ensures s.sent <= Next(s, step).sent
    ensures Earns(s, step, Next(s, step).sent[i].id, Next(s, step).sent[i].to)
  {
    hide Next, Finish, Respond;
    if step.Responds? {
      ResponseAnswers(s, step.p, step.id, step.reply);
    } else if step.Completes? {
      CompletesIs(s, step);
      EndAnswers(s, step.id, step.ok);
    } else {
      OthersReportNone(s, step);
    }
  }

  lemma CompletesIs(s: State, step: Step)
    requires step.Completes?
    ensures Next(s, step) == Finish(s, step.id, step.ok) && (step.id !in s.pending ==> Next(s, step) == s)
  {
    hide CancelMutation;
  }

  lemma StepSends(s: State, step: Step)
    ensures s.sent <= Next(s, step).sent
  {
    hide Next, Finish, Respond;
    if step.Responds? {
      ResponseAnswers(s, step.p, step.id, step.reply);
    } else if step.Completes? {
      CompletesIs(s, step);
      EndAnswers(s, step.id, step.ok);
    } else {
      OthersReportNone(s, step);
    }
  }

  lemma {:induction false} RunEarns(s: State, steps: seq<Step>, i: nat) returns (k: nat)
    requires |s.sent| <= i < |After(s, steps).sent| && Succeeds(After(s, steps).sent[i])
    ensures k < |steps|
    ensures Earns(After(s, steps[..k]), steps[k], After(s, steps).sent[i].id, After(s, steps).sent[i].to)
    decreases |steps|
  {
    hide Next, Earns, Succeeds;
    var t := Next(s, steps[0]);
    StepSends(s, steps[0]);
    RunSends(t, steps[1..]);
    if i < |t.sent| {
      k := 0;
      StepEarns(s, steps[0], i);
      assert steps[..0] == [] && After(s, []) == s;
    } else {
      var j := RunEarns(t, steps[1..], i);
      k := j + 1;
      assert steps[..k][0] == steps[0] && steps[..k][1..] == steps[1..][..j];
    }
  }

  lemma {:induction false} RunSends(s: State, steps: seq<Step>)
    ensures s.sent <= After(s, steps).sent
    decreases |steps|
  {
    hide Next;
    if steps != [] {
      StepSends(s, steps[0]);
      RunSends(Next(s, steps[0]), steps[1..]);
    }
  }

  /**
   * A success is reported only to the owner of a request, for a success that its own
   * browser reported or the daemon completed while the request was pending.
   */
  lemma SuccessIsEarned(steps: seq<Step>, owner: PeerId, id: RequestId)
    requires Answer(owner, id, true) in After(Start, steps).sent
    ensures exists k :: 0 <= k < |steps| && Earns(After(Start, steps[..k]), steps[k], id, owner)
  {
    hide After, Earns;
    var i :| 0 <= i < |After(Start, steps).sent| && After(Start, steps).sent[i] == Answer(owner, id, true);
    var k := RunEarns(Start, steps, i);
  }
}
