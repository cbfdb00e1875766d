/**
 * Runs of the daemon, and what holds of every state a run can reach.
 */
module DaemonRuns {
  import opened Options
  import opened DaemonState
  import opened SchedulerLaws
  import opened DaemonLaws

  /** One section under the daemon lock; order and slots are the map walks it makes. */
  datatype Step =
    | Joins(p: PeerId, peer: Peer)
    | Routes(p: PeerId, id: RequestId, request: Request)
    | Readies(p: PeerId, id: RequestId, tab: Option<nat>)
    | Responds(p: PeerId, id: RequestId, reply: Reply)
    | Completes(id: RequestId, ok: bool)
    | Cancels(id: RequestId)
    | TimesOut(id: RequestId)
    | Expires(id: RequestId)
    | Accesses(p: PeerId, access: bool, order: seq<RequestId>)
    | Disconnects(p: PeerId, order: seq<RequestId>, slots: seq<RequestId>)
    | Stores(p: PeerId, original: string, queued: bool)
    | Stored(p: PeerId, original: string, ok: bool)
    | Passes(now: nat)

  /**
   * When a step can happen. Peers and ids are new, walks visit every key, timers
   * fire no earlier than set, and time does not pass a slot timer that is due.
   */
  ghost predicate Enabled(s: State, step: Step) {
    match step
    case Joins(p, _) => p !in s.peers
    case Routes(p, id, r) => Routable(s, p, id, r)
    case TimesOut(id) => id in s.pending && s.pending[id].expires <= s.now
    case Expires(id) => id in s.entries && s.entries[id].expiry.Some? && s.entries[id].expiry.value <= s.now
    case Accesses(p, access, order) => Covers(order, s.entries.Keys)
    case Disconnects(p, order, slots) =>
      && Covers(order, s.pending.Keys)
      && (p in s.peers && s.peers[p].extension ==> Covers(slots, DropFrom(Leave(s, p), p, order).entries.Keys))
    case Passes(now) => s.now <= now && forall id <- s.entries :: s.entries[id].expiry.Some? ==> now <= s.entries[id].expiry.value
    case _ => true
  }

  function Next(s: State, step: Step): State {
    match step
    case Joins(p, peer) => Join(s, p, peer)
    case Routes(p, id, r) => Route(s, p, id, r)
    case Readies(p, id, tab) => MutationReady(s, p, id, tab)
    case Responds(p, id, reply) => Respond(s, p, id, reply)
    case Completes(id, ok) => Finish(s, id, ok)
    case Cancels(id) => Fail(s, id)
    case TimesOut(id) => Fail(s, id)
    case Expires(id) => Expire(s, id)
    case Accesses(p, access, order) => AccessUpdate(s, p, access, order)
    case Disconnects(p, order, slots) => Disconnect(s, p, order, slots)
    case Stores(p, original, queued) => StorageRequest(s, p, original, queued)
    case Stored(p, original, ok) => StorageDone(s, p, original, ok)
    case Passes(now) => s.(now := now)
  }

  const Start := State(map[], map[], map[], map[], {}, [], map[], 0)

  lemma StartHolds()
    ensures Inv(Start, {})
  {
    hide Answers;
    assert forall id :: Answers([], id) == 0 by {
      forall id ensures Answers([], id) == 0 { NoAnswers(id); }
    }
  }

  lemma NoAnswers(id: RequestId)
    ensures Answers([], id) == 0
  {}

  /** Every step keeps every law. */
  lemma StepKeeps(s: State, step: Step)
    requires Inv(s, {}) && Enabled(s, step)
    ensures Inv(Next(s, step), {})
  {
    hide Inv;
    match step
    case Joins(p, peer) => JoinKeeps(s, p, peer);
    case Routes(p, id, r) => RouteKeeps(s, p, id, r);
    case Readies(p, id, tab) => MutationReadyKeeps(s, p, id, tab, {});
    case Responds(p, id, reply) => RespondKeeps(s, p, id, reply, {});
    case Completes(id, ok) => FinishKeeps(s, id, ok, {});
    case Cancels(id) => FailKeeps(s, id, {});
    case TimesOut(id) => FailKeeps(s, id, {});
    case Expires(id) => ExpireKeeps(s, id);
    case Accesses(p, access, order) => AccessKeeps(s, p, access, order, {});
    case Disconnects(p, order, slots) => DisconnectKeeps(s, p, order, slots);
    case Stores(p, original, queued) => StorageRequestKeeps(s, p, original, queued);
    case Stored(p, original, ok) => StorageDoneKeeps(s, p, original, ok);
    case Passes(now) => TickKeeps(s, now);
  }

  ghost predicate IsRun(s: State, steps: seq<Step>)
    decreases |steps|
  {
    steps == [] || (Enabled(s, steps[0]) && IsRun(Next(s, steps[0]), steps[1..]))
  }

  function After(s: State, steps: seq<Step>): State
    decreases |steps|
  {
    if steps == [] then s else After(Next(s, steps[0]), steps[1..])
  }

  /** The laws hold in every reachable state. */
  lemma {:induction false} RunKeeps(s: State, steps: seq<Step>)
    requires Inv(s, {}) && IsRun(s, steps)
    ensures Inv(After(s, steps), {})
    decreases |steps|
  {
    hide Inv, Next, Enabled;
    if steps != [] {
      StepKeeps(s, steps[0]);
      RunKeeps(Next(s, steps[0]), steps[1..]);
    }
  }

  ghost predicate Reachable(s: State) {
    exists steps :: IsRun(Start, steps) && After(Start, steps) == s
  }

  lemma ReachableHolds(s: State)
    requires Reachable(s)
    ensures Inv(s, {})
  {
    hide Inv;
    var steps :| IsRun(Start, steps) && After(Start, steps) == s;
    StartHolds();
    RunKeeps(Start, steps);
  }

  // What the laws come to

  /** Two mutations never run on one tab; work beside cancelled work is a navigation. */
  lemma OneRunningMutationPerTab(s: State, a: RequestId, b: RequestId)
    requires Reachable(s)
    requires a in s.entries && b in s.entries && a != b
    requires s.entries[a].target == s.entries[b].target && s.entries[a].tab == s.entries[b].tab
    requires Running(s.entries[a]) && s.entries[b].granted.Some?
    ensures s.entries[b].canceled && Preempts(s.entries[a].operation)
  {
    hide Reachable, Preempts;
    ReachableHolds(s);
    assert SlotOk(s.entries[a], s.entries[b]);
  }

  /**
   * Queue order: behind a mutation whose tab is unknown nothing has been granted,
   * and only a navigation overtakes an ungranted mutation of the same tab.
   */
  lemma QueueOrderKept(s: State, p: PeerId, i: nat, j: nat)
    requires Reachable(s) && i < j < |Queue(s, p)|
    ensures Queue(s, p)[i] in s.entries && Queue(s, p)[j] in s.entries
    ensures var a, b := s.entries[Queue(s, p)[i]], s.entries[Queue(s, p)[j]];
            b.granted.Some? && a.granted.None? ==> !Unknown(a) && (a.tab == b.tab ==> a.ready.Some? && Preempts(b.operation))
  {
    hide Reachable, Preempts;
    ReachableHolds(s);
    var q := Queue(s, p);
    assert q[i] in q && q[j] in q;
    assert Ordered(s, q);
    assert OrderOk(s.entries[q[i]], s.entries[q[j]]);
  }

  /** The scheduler's tables and the request table agree. */
  lemma TablesAgree(s: State, id: RequestId)
    requires Reachable(s) && id in s.entries
    ensures var e := s.entries[id];
            && id in Queue(s, e.target)
            && (forall p :: id in Queue(s, p) ==> p == e.target)
            && NoDuplicates(Queue(s, e.target))
            && (e.canceled <==> id !in s.pending) && (e.canceled ==> e.granted.Some?)
            && (id in s.pending ==> s.pending[id].target == e.target)
  {
    hide Reachable;
    ReachableHolds(s);
    assert id in s.queues[s.entries[id].target];
  }

  /**
   * Every accepted request still waits unanswered, was answered exactly once, or
   * lost its owner and was answered at most once.
   */
  lemma AnsweredExactlyOnce(s: State, id: RequestId)
    requires Reachable(s) && id in s.owners
    ensures id in s.pending ==> Answers(s.sent, id) == 0 && Connected(s, s.owners[id])
    ensures id !in s.pending && Connected(s, s.owners[id]) ==> Answers(s.sent, id) == 1
    ensures Answers(s.sent, id) <= 1
  {
    hide Reachable, Answers, Core;
    ReachableHolds(s);
  }

  /** The counters count, and no capacity is exceeded. */
  lemma CountersAndCapacities(s: State, p: PeerId)
    requires Reachable(s) && p in s.peers
    ensures s.peers[p].pending == |OwnedBy(s, p)| + |StoredFor(s, p)|
    ensures 0 <= s.peers[p].pending <= MAX_PEER_PENDING
    ensures |s.pending| <= MAX_PENDING && |s.entries| <= MAX_SCHEDULED && |Queue(s, p)| <= MAX_QUEUE
  {
    hide Reachable, Answers, Core;
    ReachableHolds(s);
  }

  // How long a cancelled slot lives

  /** At one instant entries stay, go or are cancelled with their timer, and ids are not reused. */
  ghost predicate TimersKept(s: State, t: State) {
    && s.owners.Keys <= t.owners.Keys && t.now == s.now
    && (forall id <- s.entries :: id in t.entries ==> LaterEntry(s.entries[id], t.entries[id], s.now))
    && (forall id <- t.entries :: id in s.entries || id !in s.owners)
  }

  lemma QuietTimers(s: State, t: State)
    requires Quiet(s, t)
    ensures TimersKept(s, t)
  {}

  lemma SameTimers(s: State, t: State)
    requires t.entries == s.entries && t.owners == s.owners && t.now == s.now
    ensures TimersKept(s, t)
  {}

  lemma TimersTrans(s: State, t: State, u: State, leaving: set<PeerId>)
    requires TimersKept(s, t) && TimersKept(t, u) && Inv(s, leaving)
    ensures TimersKept(s, u)
  {
    hide Core, People, Counted, Capacity, Timers, Answers;
    forall id | id in s.entries && id in u.entries
      ensures LaterEntry(s.entries[id], u.entries[id], s.now)
    {
      assert id in s.owners && id in t.owners;
      assert id in t.entries;
    }
  }

  lemma FinishTimers(s: State, id: RequestId, ok: bool, leaving: set<PeerId>)
    requires Inv(s, leaving)
    ensures TimersKept(s, Finish(s, id, ok)) && TimersKept(s, Abandon(s, id)) && TimersKept(s, Fail(s, id))
  {
    hide Core, Frame, CancelMutation, Forget, TimersKept, Inv, NotifyCanceled;
    SameTimers(s, s);
    FinishTimersHere(s, id, ok, leaving);
    var n := NotifyCanceled(s, id);
    NotifyKeeps(s, id, leaving);
    NotifyOnlySends(s, id);
    SameTimers(s, n);
    FinishTimersHere(n, id, false, leaving);
    TimersTrans(s, n, Finish(n, id, false), leaving);
  }

  lemma NotifyOnlySends(s: State, id: RequestId)
    ensures NotifyCanceled(s, id).entries == s.entries && NotifyCanceled(s, id).owners == s.owners && NotifyCanceled(s, id).now == s.now
  {}

  lemma FinishTimersHere(s: State, id: RequestId, ok: bool, leaving: set<PeerId>)
    requires Inv(s, leaving)
    ensures TimersKept(s, Finish(s, id, ok)) && TimersKept(s, Abandon(s, id))
  {
    hide Core, Frame, CancelMutation, TimersKept, Quiet;
    SameTimers(s, s);
    if id in s.pending {
      var t := Forget(s, id);
      ForgetKeeps(s, id);
      CancelKeeps(t, id);
      var u := CancelMutation(t, id);
      QuietTimers(t, u);
      SameTimers(s, t);
      TimersTrans(s, t, u, leaving);
      SameTimers(u, Finish(s, id, ok));
      TimersTrans(s, u, Finish(s, id, ok), leaving);
      SameTimers(u, Abandon(s, id));
      TimersTrans(s, u, Abandon(s, id), leaving);
    }
  }

  lemma RemoveTimers(s: State, id: RequestId, p: PeerId, leaving: set<PeerId>)
    requires Inv(s, leaving)
    ensures TimersKept(s, RemoveMutation(s, id, p))
  {
    hide Core, Frame, RemoveMutation, TimersKept, Quiet;
    RemoveKeeps(s, id, p, {});
    QuietTimers(s, RemoveMutation(s, id, p));
  }

  lemma RespondTimers(s: State, p: PeerId, id: RequestId, reply: Reply)
    requires Inv(s, {})
    ensures TimersKept(s, Respond(s, p, id, reply))
  {
    hide Inv, RemoveMutation, Finish, TimersKept;
    SameTimers(s, s);
    RemoveTimers(s, id, p, {});
    RemoveInv(s, id, p, {});
    var t := RemoveMutation(s, id, p);
    FinishTimers(s, id, false, {});
    FinishTimers(t, id, false, {});
    FinishTimers(t, id, true, {});
    TimersTrans(s, t, Finish(t, id, false), {});
    TimersTrans(s, t, Finish(t, id, true), {});
  }

  lemma ReadyTimers(s: State, p: PeerId, id: RequestId, tab: Option<nat>)
    requires Inv(s, {})
    ensures TimersKept(s, MutationReady(s, p, id, tab))
  {
    hide Core, Frame, Fail, MarkReady, Grant, TimersKept, Quiet;
    SameTimers(s, s);
    FinishTimers(s, id, false, {});
    if id in s.entries && s.entries[id].target == p && s.entries[id].ready.None? {
      var e := s.entries[id];
      if !(tab.None? || tab.value == 0 || tab.value > MAX_SAFE_INTEGER || (e.tab != 0 && e.tab != tab.value)) {
        var t := MarkReady(s, id, tab.value);
        MarkReadyKeeps(s, id, tab.value);
        GrantQuiet(t, p);
        QuietTrans(s, t, Grant(t, p));
        QuietTimers(s, Grant(t, p));
      }
    }
  }

  lemma {:induction false} RevokeTimers(s: State, p: PeerId, order: seq<RequestId>)
    requires Inv(s, {})
    ensures TimersKept(s, RevokeFrom(s, p, order))
    decreases |order|
  {
    hide Inv, Fail, TimersKept;
    SameTimers(s, s);
    if order != [] {
      var id := order[0];
      FailKeeps(s, id, {});
      FinishTimers(s, id, false, {});
      var t := if id in s.entries && s.entries[id].target == p && id in s.pending then Fail(s, id) else s;
      RevokeTimers(t, p, order[1..]);
      TimersTrans(s, t, RevokeFrom(s, p, order), {});
    }
  }

  lemma AccessTimers(s: State, p: PeerId, access: bool, order: seq<RequestId>)
    requires Inv(s, {})
    ensures TimersKept(s, AccessUpdate(s, p, access, order))
  {
    hide Inv, TimersKept, Grant, RevokeFrom, Quiet;
    SetAccessKeeps(s, p, access, {});
    var t := SetAccess(s, p, access);
    SameTimers(s, t);
    GrantQuiet(t, p);
    QuietTimers(t, Grant(t, p));
    RevokeTimers(t, p, order);
    TimersTrans(s, t, AccessUpdate(s, p, access, order), {});
  }

  lemma {:induction false} DropTimers(s: State, p: PeerId, order: seq<RequestId>)
    requires Inv(s, {p}) && !Connected(s, p)
    ensures TimersKept(s, DropFrom(s, p, order))
    decreases |order|
  {
    hide Inv, DropOne, TimersKept, Shrinks;
    SameTimers(s, s);
    if order != [] {
      var t := DropOne(s, p, order[0]);
      DropOneKeeps(s, p, order[0]);
      DropOneTimers(s, p, order[0]);
      assert !Connected(t, p) by { StillGone(s, t, p); }
      DropTimers(t, p, order[1..]);
      TimersTrans(s, t, DropFrom(s, p, order), {p});
    }
  }

  lemma StillGone(s: State, t: State, p: PeerId)
    requires Shrinks(s, t) && !Connected(s, p)
    ensures !Connected(t, p)
  {}

  lemma DropOneTimers(s: State, p: PeerId, id: RequestId)
    requires Inv(s, {p})
    ensures TimersKept(s, DropOne(s, p, id))
  {
    hide Inv, Finish, Abandon, NotifyCanceled, TimersKept;
    SameTimers(s, s);
    FinishTimers(s, id, false, {p});
    var n := NotifyCanceled(s, id);
    NotifyKeeps(s, id, {p});
    NotifyOnlySends(s, id);
    SameTimers(s, n);
    FinishTimers(n, id, false, {p});
    TimersTrans(s, n, Abandon(n, id), {p});
  }

  lemma DisconnectTimers(s: State, p: PeerId, order: seq<RequestId>, slots: seq<RequestId>)
    requires Inv(s, {})
    ensures TimersKept(s, Disconnect(s, p, order, slots))
  {
    hide Inv, TimersKept, DropFrom, UnscheduleFrom, Quiet, Connected;
    var l := Leave(s, p);
    LeaveKeeps(s, p);
    LeavePeers(s, p);
    SameTimers(s, l);
    DropKeeps(l, p, order);
    DropTimers(l, p, order);
    var t := DropFrom(l, p, order);
    TimersTrans(s, l, t, {});
    UnscheduleAllKeeps(t, p, slots);
    QuietTimers(t, UnscheduleFrom(t, p, slots));
    TimersTrans(s, t, UnscheduleFrom(t, p, slots), {});
  }

  lemma RouteTimers(s: State, p: PeerId, id: RequestId, r: Request)
    requires Inv(s, {}) && Routable(s, p, id, r)
    ensures TimersKept(s, Route(s, p, id, r))
  {
    hide Inv, SchedulerFull, Duplicate, TimersKept, Admit;
    FreshId(s, id);
    AdmitTimers(s, p, id, r);
    if r.target.None? || Route(s, p, id, r) != Admit(s, p, id, r) {
      SameTimers(s, Route(s, p, id, r));
    }
  }

  lemma AdmitTimers(s: State, p: PeerId, id: RequestId, r: Request)
    requires id !in s.entries && id !in s.owners
    ensures r.target.Some? ==> TimersKept(s, Admit(s, p, id, r))
  {}

  lemma StepTimers(s: State, step: Step)
    requires Inv(s, {}) && Enabled(s, step) && !step.Passes?
    ensures TimersKept(s, Next(s, step))
  {
    hide Inv, TimersKept, Route, MutationReady, Respond, Finish, Fail, Expire, AccessUpdate, Disconnect, Join, StorageRequest,
      StorageDone, Routable;
    match step
    case Joins(p, peer) => IdleTimers(s, step);
    case Routes(p, id, r) => RouteTimers(s, p, id, r);
    case Readies(p, id, tab) => ReadyTimers(s, p, id, tab);
    case Responds(p, id, reply) => RespondTimers(s, p, id, reply);
    case Completes(id, ok) => FinishTimers(s, id, ok, {});
    case Cancels(id) => FinishTimers(s, id, false, {});
    case TimesOut(id) => FinishTimers(s, id, false, {});
    case Expires(id) => ExpireTimers(s, id);
    case Accesses(p, access, order) => AccessTimers(s, p, access, order);
    case Disconnects(p, order, slots) => DisconnectTimers(s, p, order, slots);
    case Stores(p, original, queued) => IdleTimers(s, step);
    case Stored(p, original, ok) => IdleTimers(s, step);
  }

  lemma ExpireTimers(s: State, id: RequestId)
    requires Inv(s, {}) && Enabled(s, Expires(id))
    ensures TimersKept(s, Expire(s, id))
  {
    hide Inv, TimersKept, RemoveMutation;
    RemoveTimers(s, id, s.entries[id].target, {});
  }

  /** Steps that touch no entry. */
  lemma IdleTimers(s: State, step: Step)
    requires step.Joins? || step.Stores? || step.Stored?
    ensures TimersKept(s, Next(s, step))
  {
    hide TimersKept, StorageRequest, StorageDone, Route, MutationReady, Respond, Finish, Fail, Expire, AccessUpdate, Disconnect;
    match step
    case Joins(p, peer) => SameTimers(s, Join(s, p, peer));
    case Stores(p, original, queued) => StoresEntries(s, p, original, queued); SameTimers(s, StorageRequest(s, p, original, queued));
    case Stored(p, original, ok) => StoredEntries(s, p, original, ok); SameTimers(s, StorageDone(s, p, original, ok));
  }

  lemma StoredEntries(s: State, p: PeerId, original: string, ok: bool)
    ensures var t := StorageDone(s, p, original, ok); t.entries == s.entries && t.owners == s.owners && t.now == s.now
  {
    hide Connected;
  }

  lemma StoresEntries(s: State, p: PeerId, original: string, queued: bool)
    ensures var t := StorageRequest(s, p, original, queued); t.entries == s.entries && t.owners == s.owners && t.now == s.now
  {
    hide Duplicate, StorageDone;
    if p in s.peers {
      StoredEntries(CountPending(s.(storing := s.storing + {(p, original)}), p, 1), p, original, false);
    }
  }

  /** A timer, once set, stays as set while its slot exists, and ids are not reused. */
  ghost predicate TimersLast(s: State, t: State) {
    && s.owners.Keys <= t.owners.Keys
    && (forall id <- s.entries :: id in t.entries && s.entries[id].expiry.Some? ==> t.entries[id].expiry == s.entries[id].expiry)
    && (forall id <- t.entries :: id in s.entries || id !in s.owners)
  }

  lemma StepTimersLast(s: State, step: Step)
    requires Inv(s, {}) && Enabled(s, step)
    ensures TimersLast(s, Next(s, step))
  {
    hide Inv, Next, Enabled;
    if step.Passes? {
      PassesOnly(s, step);
    } else {
      StepTimers(s, step);
    }
  }

  lemma PassesOnly(s: State, step: Step)
    requires step.Passes?
    ensures Next(s, step) == s.(now := step.now)
  {}

  lemma TimersLastTrans(s: State, t: State, u: State)
    requires TimersLast(s, t) && TimersLast(t, u) && Inv(s, {})
    ensures TimersLast(s, u)
  {
    hide Core, People, Counted, Capacity, Timers, Answers;
    forall id | id in s.entries && id in u.entries && s.entries[id].expiry.Some?
      ensures u.entries[id].expiry == s.entries[id].expiry
    {
      assert id in s.owners && id in t.owners;
      assert id in t.entries;
    }
  }

  lemma {:induction false} RunTimers(s: State, steps: seq<Step>)
    requires Inv(s, {}) && IsRun(s, steps)
    ensures TimersLast(s, After(s, steps)) && Inv(After(s, steps), {})
    decreases |steps|
  {
    hide Inv, Next, Enabled, TimersLast;
    if steps == [] {
      assert TimersLast(s, s) by { LastsItself(s); }
    } else {
      StepKeeps(s, steps[0]);
      StepTimersLast(s, steps[0]);
      RunTimers(Next(s, steps[0]), steps[1..]);
      TimersLastTrans(s, Next(s, steps[0]), After(s, steps));
    }
  }

  lemma LastsItself(s: State)
    ensures TimersLast(s, s)
  {}

  /**
   * Whichever step ends the request of a mutation that runs: if the slot stays, it
   * stays cancelled until 20 seconds past that moment or its deadline, the later.
   */
  lemma EndingSetsTimer(s: State, step: Step, id: RequestId)
    requires Reachable(s) && Enabled(s, step) && id in s.entries && Running(s.entries[id])
    requires id !in Next(s, step).pending && id in Next(s, step).entries
    ensures Next(s, step).entries[id].canceled
    ensures Next(s, step).entries[id].expiry == Some(Max(s.now, s.entries[id].deadline) + CANCEL_GRACE)
  {
    hide Reachable, Core, Frame, Next, Enabled;
    ReachableHolds(s);
    StepKeeps(s, step);
    CanceledWhenEnded(Next(s, step), id);
    if step.Passes? {
      CanceledWhenEnded(s, id);
      PassesOnly(s, step);
    } else {
      StepTimers(s, step);
    }
  }

  lemma CanceledWhenEnded(s: State, id: RequestId)
    requires Core(s, {}) && id in s.entries
    ensures s.entries[id].canceled <==> id !in s.pending
  {
    hide Tables, AllOrdered, Slots;
  }

  /**
   * Once a running mutation's request has ended, whichever step ended it and
   * whatever follows, its slot is gone when the clock is past that time.
   */
  lemma CanceledSlotIsReleased(s: State, step: Step, id: RequestId, steps: seq<Step>)
    requires Reachable(s) && Enabled(s, step) && id in s.entries && Running(s.entries[id]) && id !in Next(s, step).pending
    requires IsRun(Next(s, step), steps)
    requires After(Next(s, step), steps).now > Max(s.now, s.entries[id].deadline) + CANCEL_GRACE
    ensures id !in After(Next(s, step), steps).entries
  {
    hide Reachable, Next, Enabled, IsRun, After, Core, Answers, People, Counted, Capacity;
    ReachableHolds(s);
    StepKeeps(s, step);
    StepTimersLast(s, step);
    RunTimers(Next(s, step), steps);
    if id in Next(s, step).entries {
      EndingSetsTimer(s, step, id);
    }
  }

  /** What concerns a peer that disconnects is gone from every table. */
  lemma DisconnectLeavesNoTrace(s: State, p: PeerId, order: seq<RequestId>, slots: seq<RequestId>)
    requires Reachable(s) && Enabled(s, Disconnects(p, order, slots))
    ensures var t := Next(s, Disconnects(p, order, slots));
            && (forall id <- t.pending :: t.pending[id].owner != p && t.pending[id].target != p)
            && (forall id <- t.entries :: t.entries[id].target != p)
            && p !in t.queues && !Connected(t, p)
  {
    hide Reachable, Inv, Disconnect, Connected;
    ReachableHolds(s);
    var t := Disconnect(s, p, order, slots);
    DisconnectKeeps(s, p, order, slots);
    DisconnectGone(s, p, order, slots);
    NoTrace(t, p);
  }

  /** When access goes off no mutation of that browser is left to wait; when it comes on none waits that could run. */
  lemma AccessDecides(s: State, p: PeerId, access: bool, order: seq<RequestId>)
    requires Reachable(s) && Enabled(s, Accesses(p, access, order))
    ensures var t := Next(s, Accesses(p, access, order));
      if access then Settled(t, p) else forall id <- t.entries :: t.entries[id].target == p ==> id !in t.pending && t.entries[id].canceled
  {
    hide Reachable, Inv, AccessUpdate, Settled;
    ReachableHolds(s);
    AccessOutcome(s, p, access, order, {});
    AccessKeeps(s, p, access, order, {});
    hide Core, Frame;
    var t := AccessUpdate(s, p, access, order);
    forall id | !access && id in t.entries && t.entries[id].target == p
      ensures t.entries[id].canceled
    {
      InvCore(t, {});
      CanceledWhenEnded(t, id);
    }
  }
}
