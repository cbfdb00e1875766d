/**
 * The daemon object: its tables change in place, and each method is one section
 * under the daemon lock, proved to take the transition of the same name. Map walks
 * take whatever order the loop happens to pick and report it.
 */
module Daemon {
  import opened Options
  import DS = DaemonState
  import opened SchedulerLaws
  import opened DaemonLaws
  import opened DaemonAnswers

  type PeerId = DS.PeerId
  type RequestId = DS.RequestId

  lemma BusyGrows(s: DS.State, q: seq<RequestId>, i: nat)
    requires i < |q| && q[i] in s.entries
    ensures DS.BusyTabs(s, q[..i + 1]) == DS.BusyTabs(s, q[..i]) + if DS.Running(s.entries[q[i]]) then {s.entries[q[i]].tab} else {}
    ensures DS.CancelingTabs(s, q[..i + 1]) == DS.CancelingTabs(s, q[..i]) + if DS.Canceling(s.entries[q[i]]) then {s.entries[q[i]].tab} else {}
  {
    var p, r := q[..i], q[..i + 1];
    assert r == p + [q[i]];
    forall tab
      ensures tab in DS.BusyTabs(s, r) <==> tab in DS.BusyTabs(s, p) + if DS.Running(s.entries[q[i]]) then {s.entries[q[i]].tab} else {}
    {
      if tab in DS.BusyTabs(s, p) {
        var id :| id in p && id in s.entries && DS.Running(s.entries[id]) && s.entries[id].tab == tab;
        assert id in r;
      }
      if DS.Running(s.entries[q[i]]) && tab == s.entries[q[i]].tab {
        assert q[i] in r;
      }
    }
    forall tab
      ensures tab in DS.CancelingTabs(s, r) <==> tab in DS.CancelingTabs(s, p) + if DS.Canceling(s.entries[q[i]]) then {s.entries[q[i]].tab} else {}
    {
      if tab in DS.CancelingTabs(s, p) {
        var id :| id in p && id in s.entries && DS.Canceling(s.entries[id]) && s.entries[id].tab == tab;
        assert id in r;
      }
      if DS.Canceling(s.entries[q[i]]) && tab == s.entries[q[i]].tab {
        assert q[i] in r;
      }
    }
  }

  lemma {:induction false} WithoutAt(q: seq<RequestId>, i: nat)
    requires i < |q| && forall j :: 0 <= j < i ==> q[j] != q[i]
    ensures DS.Without(q, q[i]) == q[..i] + q[i + 1..]
    decreases i
  {
    if i > 0 {
      WithoutAt(q[1..], i - 1);
      assert q[1..][..i - 1] == q[1..i] && q[1..][i..] == q[i + 1..];
      assert q[..i] == [q[0]] + q[1..i];
    }
  }

  lemma {:induction false} RevokeAppend(s: DS.State, p: PeerId, order: seq<RequestId>, id: RequestId)
    ensures DS.RevokeFrom(s, p, order + [id]) == DS.RevokeFrom(DS.RevokeFrom(s, p, order), p, [id])
    decreases |order|
  {
    hide DS.Fail;
    if order == [] {
      assert order + [id] == [id];
    } else {
      assert (order + [id])[1..] == order[1..] + [id];
      var t := if order[0] in s.entries && s.entries[order[0]].target == p && order[0] in s.pending then DS.Fail(s, order[0]) else s;
      RevokeAppend(t, p, order[1..], id);
    }
  }

  lemma RevokeOne(s: DS.State, p: PeerId, id: RequestId)
    ensures DS.RevokeFrom(s, p, [id]) ==
      if id in s.entries && s.entries[id].target == p && id in s.pending then DS.Fail(s, id) else s
  {
    hide DS.Fail;
    assert [id][1..] == [];
  }

  lemma {:induction false} DropAppend(s: DS.State, p: PeerId, order: seq<RequestId>, id: RequestId)
    ensures DS.DropFrom(s, p, order + [id]) == DS.DropOne(DS.DropFrom(s, p, order), p, id)
    decreases |order|
  {
    hide DS.DropOne;
    if order == [] {
      assert (order + [id])[1..] == [];
    } else {
      assert (order + [id])[1..] == order[1..] + [id];
      DropAppend(DS.DropOne(s, p, order[0]), p, order[1..], id);
    }
  }

  lemma {:induction false} UnscheduleAppend(s: DS.State, p: PeerId, order: seq<RequestId>, id: RequestId)
    ensures var t := DS.UnscheduleFrom(s, p, order);
            DS.UnscheduleFrom(s, p, order + [id]) == if id in t.entries && t.entries[id].target == p then DS.RemoveMutation(t, id, p) else t
    decreases |order|
  {
    hide DS.RemoveMutation;
    if order == [] {
      assert (order + [id])[1..] == [];
    } else {
      assert (order + [id])[1..] == order[1..] + [id];
      UnscheduleAppend(if order[0] in s.entries && s.entries[order[0]].target == p then DS.RemoveMutation(s, order[0], p) else s, p, order[1..], id);
    }
  }

  class Daemon {
    var peers: map<PeerId, DS.Peer>
    var pending: map<RequestId, DS.Pending>
    var entries: map<RequestId, DS.Mutation>
    var queues: map<PeerId, seq<RequestId>>
    var storing: set<(PeerId, string)>
    var sent: seq<DS.Message>
    var now: nat
    // Which peer sent each accepted request: history for the proofs only.
    ghost var owners: map<RequestId, PeerId>

    ghost function Abs(): DS.State
      reads this
    {
      DS.State(peers, pending, entries, queues, storing, sent, owners, now)
    }

    constructor ()
      ensures Abs() == DS.State(map[], map[], map[], map[], {}, [], map[], 0)
    {
      peers, pending, entries, queues, storing, sent, now, owners := map[], map[], map[], map[], {}, [], 0, map[];
    }

    method Send(m: DS.Message)
      modifies this`sent
      ensures Abs() == DS.Send(old(Abs()), m)
    {
      sent := sent + [m];
    }

    method CountPending(p: PeerId, delta: int)
      modifies this`peers
      ensures Abs() == DS.CountPending(old(Abs()), p, delta)
    {
      if p in peers {
        peers := peers[p := peers[p].(pending := peers[p].pending + delta)];
      }
    }

    method GrantMutations(target: PeerId)
      requires forall id <- DS.Queue(Abs(), target) :: id in entries
      modifies this`entries, this`pending, this`sent
      ensures Abs() == DS.Grant(old(Abs()), target)
      ensures Tells(old(Abs()), Abs())
    {
      hide DS.BusyTabs, DS.CancelingTabs, DS.Preempts, DS.GrantFrom, Tells;
      GrantTells(Abs(), target);
      if target !in peers || !peers[target].connected || !peers[target].access {
        return;
      }
      ghost var s := Abs();
      var queue := if target in queues then queues[target] else [];
      var busy: set<nat>, canceling: set<nat> := {}, {};
      assert queue[..0] == [];
      NoTabs(s);
      for i := 0 to |queue|
        invariant Abs() == s
        invariant busy == DS.BusyTabs(s, queue[..i]) && canceling == DS.CancelingTabs(s, queue[..i])
      {
        assert queue[i] in queue;
        BusyGrows(s, queue, i);
        var entry := entries[queue[i]];
        if entry.granted.None? {
          continue;
        }
        if entry.canceled {
          canceling := canceling + {entry.tab};
        } else {
          busy := busy + {entry.tab};
        }
      }
      assert queue[..|queue|] == queue;
      ghost var goal := DS.GrantFrom(s, queue, busy, canceling);
      var k := 0;
      assert queue[0..] == queue;
      while k < |queue|
        invariant k <= |queue|
        invariant peers == s.peers && queues == s.queues && entries.Keys == s.entries.Keys
        invariant DS.GrantFrom(Abs(), queue[k..], busy, canceling) == goal
      {
        assert queue[k] in queue;
        GrantFromUnfolds(Abs(), queue, k, busy, canceling);
        var id := queue[k];
        var entry := entries[id];
        k := k + 1;
        if entry.granted.Some? || entry.canceled {
          continue;
        }
        if entry.ready.None? {
          if entry.tab > 0 {
            busy := busy + {entry.tab};
            continue;
          }
          return;
        }
        if entry.tab in busy || (entry.tab in canceling && !DS.Preempts(entry.operation)) {
          continue;
        }
        if id !in pending {
          continue;
        }
        entries := entries[id := entry.(granted := Some(now))];
        pending := pending[id := pending[id].(dispatched := Some(now))];
        busy := busy + {entry.tab};
        Send(DS.GrantMutation(entry.target, id));
      }
      assert queue[k..] == [];
      GrantFromNothing(Abs(), busy, canceling);
    }

    method RemoveMutation(id: RequestId, target: PeerId)
      requires Tables(Abs())
      modifies this`entries, this`queues, this`pending, this`sent
      ensures Abs() == DS.RemoveMutation(old(Abs()), id, target)
    {
      hide DS.Grant, NoDuplicates, DS.Without;
      if id !in entries || entries[id].target != target {
        return;
      }
      ghost var s := Abs();
      UnscheduleTables(s, id);
      entries := entries - {id};
      var queue := queues[target];
      assert id in queue;
      var i := 0;
      while i < |queue| && queue[i] != id
        invariant 0 <= i <= |queue|
        invariant forall j :: 0 <= j < i ==> queue[j] != id
      {
        i := i + 1;
      }
      WithoutAt(queue, i);
      queue := queue[..i] + queue[i + 1..];
      if queue == [] {
        queues := queues - {target};
      } else {
        queues := queues[target := queue];
      }
      assert Abs() == DS.Unschedule(s, id, target);
      GrantMutations(target);
    }

    method CancelMutation(id: RequestId)
      requires Tables(Abs())
      modifies this`entries, this`queues, this`pending, this`sent
      ensures Abs() == DS.CancelMutation(old(Abs()), id)
    {
      hide DS.RemoveMutation, Tables;
      if id !in entries {
        return;
      }
      var entry := entries[id];
      if entry.granted.None? {
        RemoveMutation(id, entry.target);
        return;
      }
      if entry.canceled {
        return;
      }
      entries := entries[id := entry.(canceled := true, expiry := Some(DS.Max(now, entry.deadline) + DS.CANCEL_GRACE))];
    }

    method Finish(id: RequestId, ok: bool)
      requires Tables(Abs())
      modifies this
      ensures Abs() == DS.Finish(old(Abs()), id, ok)
      ensures if id !in old(pending) then Abs() == old(Abs()) else
        var owner := old(pending)[id].owner;
        && pending.Keys == old(pending).Keys - {id}
        && sent != [] && sent[|sent| - 1] == DS.Answer(owner, id, ok)
        && (owner in old(peers) ==> peers == old(peers)[owner := old(peers)[owner].(pending := old(peers)[owner].pending - 1)])
    {
      hide DS.CancelMutation, Tables;
      if id !in pending {
        return;
      }
      CancelPeers(DS.Forget(Abs(), id), id);
      var owner := pending[id].owner;
      ghost var s := Abs();
      pending := pending - {id};
      TablesSame(s, Abs());
      CancelMutation(id);
      CountPending(owner, -1);
      Send(DS.Answer(owner, id, ok));
    }

    method CancelBrowserRequest(id: RequestId)
      modifies this`sent
      ensures Abs() == DS.NotifyCanceled(old(Abs()), id)
    {
      if id in pending && pending[id].target in peers && peers[pending[id].target].connected {
        Send(DS.CancelRequest(pending[id].target, id));
      }
    }

    /** A caller's cancellation, a timeout, or any other end the browser must hear of. */
    method Fail(id: RequestId)
      requires Tables(Abs())
      modifies this
      ensures Abs() == DS.Fail(old(Abs()), id)
      ensures id in old(pending) ==>
        && id !in pending && sent[|sent| - 1] == DS.Answer(old(pending)[id].owner, id, false)
        && (DS.Connected(old(Abs()), old(pending)[id].target) ==> old(sent) + [DS.CancelRequest(old(pending)[id].target, id)] <= sent)
    {
      hide DS.Finish, Tables;
      ghost var s := Abs();
      CancelBrowserRequest(id);
      NotifySame(s, id);
      NotifyTables(s, id);
      EndAnswers(Abs(), id, false);
      Finish(id, false);
    }

    method MutationReady(p: PeerId, id: RequestId, tab: Option<nat>)
      requires Tables(Abs())
      modifies this
      ensures Abs() == DS.MutationReady(old(Abs()), p, id, tab)
      ensures if id !in old(entries) || old(entries)[id].target != p || old(entries)[id].ready.Some? then Abs() == old(Abs())
        else if TabFits(old(entries)[id], tab) then id in entries && entries[id].ready == Some(now) && entries[id].tab == tab.value
        else id !in pending && (id in old(pending) ==> DS.Answer(old(pending)[id].owner, id, false) in sent)
    {
      hide DS.Grant, DS.Fail, NoDuplicates;
      ReadyMarks(Abs(), p, id, tab);
      if id !in entries || entries[id].target != p || entries[id].ready.Some? {
        return;
      }
      var entry := entries[id];
      if tab.None? || tab.value == 0 || tab.value > DS.MAX_SAFE_INTEGER || (entry.tab != 0 && entry.tab != tab.value) {
        Fail(id);
        return;
      }
      entries := entries[id := entry.(tab := tab.value, ready := Some(now))];
      if id in pending {
        pending := pending[id := pending[id].(prepared := Some(now))];
      }
      GrantMutations(p);
    }

    method Response(p: PeerId, id: RequestId, reply: DS.Reply)
      requires Inv(Abs(), {})
      modifies this
      ensures Abs() == DS.Respond(old(Abs()), p, id, reply)
      ensures Responded(old(Abs()), Abs(), p, id, reply)
    {
      hide DS.RemoveMutation, DS.Finish, Inv, Tables, Responded;
      ghost var s := Abs();
      ResponseAnswers(s, p, id, reply);
      InvTables(s, {});
      if id !in pending {
        RemoveMutation(id, p);
        return;
      }
      if pending[id].target != p {
        return;
      }
      if reply.Malformed? {
        Finish(id, false);
        return;
      }
      RemoveMutation(id, p);
      RemoveInv(s, id, p, {});
      InvTables(Abs(), {});
      match reply {
        case Settles(ok) => Finish(id, ok);
        case StorageFull => Finish(id, false);
        case _ =>
      }
    }

    method RevokeMutations(target: PeerId) returns (ghost order: seq<RequestId>)
      requires Inv(Abs(), {})
      modifies this
      ensures Abs() == DS.RevokeFrom(old(Abs()), target, order)
      ensures Covers(order, old(entries.Keys))
    {
      hide DS.RevokeFrom, DS.Fail, Inv, Tables;
      ghost var s := Abs();
      order := [];
      assert DS.RevokeFrom(s, target, []) == s by {
        RevokeNone(s, target);
      }
      var todo := entries.Keys;
      while todo != {}
        invariant Inv(Abs(), {})
        invariant Abs() == DS.RevokeFrom(s, target, order)
        invariant forall id <- s.entries :: id in todo || id in order
        decreases |todo|
      {
        var id :| id in todo;
        todo := todo - {id};
        RevokeAppend(s, target, order, id);
        RevokeOne(Abs(), target, id);
        order := order + [id];
        if id in entries && entries[id].target == target && id in pending {
          InvTables(Abs(), {});
          FailKeeps(Abs(), id, {});
          Fail(id);
        }
      }
    }

    method AccessUpdate(p: PeerId, access: bool) returns (ghost order: seq<RequestId>)
      requires Inv(Abs(), {})
      modifies this
      ensures Abs() == DS.AccessUpdate(old(Abs()), p, access, order)
      ensures !access ==> Covers(order, old(entries.Keys))
      ensures Inv(Abs(), {})
      ensures p in old(peers) ==> p in peers && peers[p].access == access
      ensures if access then Settled(Abs(), p) else forall id <- entries :: entries[id].target == p ==> id !in pending
    {
      hide DS.RevokeFrom, DS.Grant, Inv, Tables, Settled;
      ghost var s := Abs();
      order := [];
      if p in peers {
        peers := peers[p := peers[p].(access := access)];
      }
      SetAccessKeeps(s, p, access, {});
      if access {
        InvTables(Abs(), {});
        QueueEntries(Abs(), p);
        GrantMutations(p);
      } else {
        order := RevokeMutations(p);
      }
      if p in s.peers {
        AccessIsSet(s, p, access, order);
      }
      AccessKeeps(s, p, access, order, {});
      AccessOutcome(s, p, access, order, {});
    }

    method Disconnect(p: PeerId) returns (ghost order: seq<RequestId>, ghost slots: seq<RequestId>)
      requires Inv(Abs(), {})
      modifies this
      ensures Abs() == DS.Disconnect(old(Abs()), p, order, slots)
      ensures Covers(order, old(pending.Keys))
      ensures p in old(peers) && old(peers)[p].extension ==> Covers(slots, DS.DropFrom(DS.Leave(old(Abs()), p), p, order).entries.Keys)
      ensures Inv(Abs(), {}) && !DS.Connected(Abs(), p) && p !in queues
      ensures forall id <- pending :: pending[id].owner != p && pending[id].target != p
      ensures forall id <- entries :: entries[id].target != p
    {
      hide DS.DropFrom, DS.DropOne, DS.UnscheduleFrom, DS.RemoveMutation, DS.Finish, Inv, Tables, Shrinks, DS.Connected;
      ghost var s := Abs();
      if p in peers {
        peers := peers[p := peers[p].(connected := false)];
      }
      ghost var l := Abs();
      LeaveKeeps(s, p);
      LeavePeers(s, p);
      order, slots := [], [];
      NoDrops(l, p);
      var todo := pending.Keys;
      while todo != {}
        invariant Inv(Abs(), {p}) && !DS.Connected(Abs(), p)
        invariant Abs() == DS.DropFrom(l, p, order)
        invariant forall id <- s.pending :: id in todo || id in order
        decreases |todo|
      {
        var id :| id in todo;
        todo := todo - {id};
        DropAppend(l, p, order, id);
        order := order + [id];
        DropOneKeeps(Abs(), p, id);
        StillLeft(Abs(), DS.DropOne(Abs(), p, id), p);
        DropPending(p, id);
      }
      if p in peers && peers[p].extension {
        ghost var d := Abs();
        NoUnschedules(d, p);
        todo := entries.Keys;
        while todo != {}
          invariant Inv(Abs(), {p})
          invariant Abs() == DS.UnscheduleFrom(d, p, slots)
          invariant forall id <- d.entries :: id in todo || id in slots
          decreases |todo|
        {
          var id :| id in todo;
          todo := todo - {id};
          UnscheduleAppend(d, p, slots, id);
          slots := slots + [id];
          if id in entries && entries[id].target == p {
            InvTables(Abs(), {p});
            RemoveInv(Abs(), id, p, {p});
            RemoveMutation(id, p);
          }
        }
      }
      ExtensionKept(l, p, order);
      DisconnectKeeps(s, p, order, slots);
      DisconnectGone(s, p, order, slots);
      NoTrace(Abs(), p);
    }

    /** What disconnecting does to one request. */
    method DropPending(p: PeerId, id: RequestId)
      requires Inv(Abs(), {p}) && !DS.Connected(Abs(), p)
      modifies this
      ensures Abs() == DS.DropOne(old(Abs()), p, id)
    {
      hide DS.Finish, DS.CancelMutation, Inv, Tables;
      if id !in pending {
        return;
      }
      InvTables(Abs(), {p});
      if pending[id].owner == p {
        ghost var s := Abs();
        CancelBrowserRequest(id);
        NotifySame(s, id);
        NotifyTables(s, id);
        ghost var n := Abs();
        pending := pending - {id};
        TablesSame(n, Abs());
        CancelMutation(id);
        CountPending(p, -1);
      } else if pending[id].target == p {
        Finish(id, false);
      }
    }

    /** Admits a routed request, or refuses it. */
    method Route(p: PeerId, id: RequestId, r: DS.Request)
      requires p in peers
      modifies this
      ensures Abs() == DS.Route(old(Abs()), p, id, r)
      ensures id !in old(pending) ==> Admitted(old(Abs()), Abs(), p, id, r)
    {
      hide Admitted;
      if id !in pending {
        RouteDecides(Abs(), p, id, r);
      }
      var duplicate := exists other :: other in pending && pending[other].owner == p && pending[other].original == r.original;
      if duplicate || (p, r.original) in storing || r.target.None? {
        Send(DS.LocalAnswer(p, r.original, false));
        return;
      }
      if |pending| >= DS.MAX_PENDING || peers[p].pending >= DS.MAX_PEER_PENDING {
        Send(DS.LocalAnswer(p, r.original, false));
        return;
      }
      var ok := ScheduleMutation(id, r);
      if !ok {
        Send(DS.LocalAnswer(p, r.original, false));
        return;
      }
      pending := pending[id := DS.Pending(p, r.target.value, r.original, r.operation, r.tab, now + r.timeout, None, None)];
      owners := owners[id := p];
      CountPending(p, 1);
      Send(DS.Forward(r.target.value, id));
    }

    /** False when the scheduler is full; unscheduled requests pass. */
    method ScheduleMutation(id: RequestId, r: DS.Request) returns (ok: bool)
      requires r.target.Some?
      modifies this`entries, this`queues
      ensures ok == !(DS.Scheduled(old(Abs()), r) && DS.SchedulerFull(old(Abs()), r.target.value))
      ensures Abs() == if ok && DS.Scheduled(old(Abs()), r) then DS.Schedule(old(Abs()), id, r) else old(Abs())
    {
      var target := r.target.value;
      if target !in peers || !peers[target].schedules || !r.mutation {
        return true;
      }
      var queue := if target in queues then queues[target] else [];
      if |entries| >= DS.MAX_SCHEDULED || |queue| >= DS.MAX_QUEUE {
        return false;
      }
      entries := entries[id := DS.Mutation(id, target, r.operation, now + r.timeout, r.tab, None, None, false, None)];
      queues := queues[target := queue + [id]];
      return true;
    }

    method StorageDone(p: PeerId, original: string, ok: bool)
      modifies this
      ensures Abs() == DS.StorageDone(old(Abs()), p, original, ok)
      ensures if (p, original) !in old(storing) then Abs() == old(Abs()) else
        && storing == old(storing) - {(p, original)}
        && (p in old(peers) ==> peers == old(peers)[p := old(peers)[p].(pending := old(peers)[p].pending - 1)])
        && sent == old(sent) + if p in old(peers) && old(peers)[p].connected then [DS.LocalAnswer(p, original, ok)] else []
    {
      if (p, original) !in storing {
        return;
      }
      storing := storing - {(p, original)};
      CountPending(p, -1);
      if p in peers && peers[p].connected {
        Send(DS.LocalAnswer(p, original, ok));
      }
    }

    /** queued says whether the storage executor had room. */
    method StorageRequest(p: PeerId, original: string, queued: bool)
      modifies this
      ensures Abs() == DS.StorageRequest(old(Abs()), p, original, queued)
      ensures if Unused(old(Abs()), p, original) && p in old(peers) && old(peers)[p].pending < 16 then
          if queued then sent == old(sent) && storing == old(storing) + {(p, original)}
          else storing == old(storing) && (old(peers)[p].connected ==> sent == old(sent) + [DS.LocalAnswer(p, original, false)])
        else storing == old(storing) && peers == old(peers) && sent == old(sent) + [DS.LocalAnswer(p, original, false)]
    {
      hide DS.StorageDone;
      var duplicate := exists other :: other in pending && pending[other].owner == p && pending[other].original == original;
      if duplicate || (p, original) in storing || p !in peers || peers[p].pending >= DS.MAX_PEER_PENDING {
        Send(DS.LocalAnswer(p, original, false));
        return;
      }
      storing := storing + {(p, original)};
      CountPending(p, 1);
      if !queued {
        StorageDone(p, original, false);
      }
    }

    /** The slot timer of a cancelled mutation fires. */
    method Expire(id: RequestId)
      requires Tables(Abs())
      modifies this
      ensures Abs() == DS.Expire(old(Abs()), id)
      ensures entries.Keys == old(entries).Keys - {id}
    {
      hide DS.RemoveMutation, Tables;
      if id in entries {
        RemoveFrees(Abs(), id, entries[id].target);
      }
      if id in entries {
        RemoveMutation(id, entries[id].target);
      }
    }

    /** Whether a queued timeout is caused by cancelled work the browser has not settled. */
    method QueuedBehindCanceled(id: RequestId) returns (waits: bool)
      ensures waits <==> DS.QueuedBehindCanceled(Abs(), id)
    {
      if id !in entries || entries[id].granted.Some? || entries[id].ready.None? {
        return false;
      }
      var entry := entries[id];
      var q := if entry.target in queues then queues[entry.target] else [];
      for i := 0 to |q|
        invariant forall k :: 0 <= k < i ==> !(q[k] in entries && DS.Canceling(entries[q[k]]) && entries[q[k]].tab == entry.tab)
      {
        if q[i] in entries && entries[q[i]].tab == entry.tab && entries[q[i]].canceled && entries[q[i]].granted.Some? {
          return true;
        }
      }
      return false;
    }
  }

  lemma NoTabs(s: DS.State)
    ensures DS.BusyTabs(s, []) == {} && DS.CancelingTabs(s, []) == {}
  {}

  lemma InvTables(s: DS.State, leaving: set<PeerId>)
    requires Inv(s, leaving)
    ensures Tables(s)
  {}

  lemma QueueEntries(s: DS.State, p: PeerId)
    requires Tables(s)
    ensures forall id <- DS.Queue(s, p) :: id in s.entries
  {}

  lemma NotifyTables(s: DS.State, id: RequestId)
    requires Tables(s)
    ensures Tables(DS.NotifyCanceled(s, id))
  {
    hide Tables;
    TablesSame(s, DS.NotifyCanceled(s, id));
  }

  lemma RevokeNone(s: DS.State, p: PeerId)
    ensures DS.RevokeFrom(s, p, []) == s
  {}

  lemma NoDrops(s: DS.State, p: PeerId)
    ensures DS.DropFrom(s, p, []) == s
  {}

  lemma NoUnschedules(s: DS.State, p: PeerId)
    ensures DS.UnscheduleFrom(s, p, []) == s
  {}

  lemma StillLeft(s: DS.State, t: DS.State, p: PeerId)
    requires Shrinks(s, t) && !DS.Connected(s, p)
    ensures !DS.Connected(t, p)
  {}

  lemma ExtensionKept(l: DS.State, p: PeerId, order: seq<RequestId>)
    requires Inv(l, {p}) && !DS.Connected(l, p)
    ensures var t := DS.DropFrom(l, p, order);
            t.peers.Keys == l.peers.Keys && (p in l.peers ==> t.peers[p].extension == l.peers[p].extension)
  {
    hide Inv, DS.DropFrom;
    DropKeeps(l, p, order);
  }
}
