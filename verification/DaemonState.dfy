/**
 * The daemon's request lifecycle as transitions on values: the request table,
 * the scheduler's entries and per-profile queues, and the peers. Each function is
 * what one section under the daemon lock does. Where the source walks a map, the
 * order is a parameter, since the language leaves it open.
 */
module DaemonState {
  import opened Options

  type PeerId = nat
  type RequestId = nat

  const MAX_SCHEDULED := 128
  const MAX_QUEUE := 32
  const MAX_PENDING := 128
  const MAX_PEER_PENDING := 16
  const MAX_SAFE_INTEGER := 9007199254740991
  // Milliseconds a cancelled slot outlives its deadline.
  const CANCEL_GRACE := 20000

  datatype Peer = Peer(connected: bool, extension: bool, schedules: bool, access: bool, pending: int)

  datatype Pending = Pending(owner: PeerId, target: PeerId, original: string, operation: string,
                             requestedTab: nat, expires: nat, prepared: Option<nat>, dispatched: Option<nat>)

  /** A scheduled mutation; tab is 0 while unknown. */
  datatype Mutation = Mutation(id: RequestId, target: PeerId, operation: string, deadline: nat, tab: nat,
                               ready: Option<nat>, granted: Option<nat>, canceled: bool, expiry: Option<nat>)

  datatype Message =
    | Forward(to: PeerId, id: RequestId)
    | CancelRequest(to: PeerId, id: RequestId)
    | GrantMutation(to: PeerId, id: RequestId)
    | Answer(to: PeerId, id: RequestId, ok: bool)
    | LocalAnswer(to: PeerId, original: string, ok: bool)

  /**
   * owners records every request ever accepted and who sent it; it is history,
   * not something the daemon looks at.
   */
  datatype State = State(
    peers: map<PeerId, Peer>,
    pending: map<RequestId, Pending>,
    entries: map<RequestId, Mutation>,
    queues: map<PeerId, seq<RequestId>>,
    storing: set<(PeerId, string)>,
    sent: seq<Message>,
    owners: map<RequestId, PeerId>,
    now: nat)

  predicate Connected(s: State, p: PeerId) {
    p in s.peers && s.peers[p].connected
  }

  function Send(s: State, m: Message): State {
    s.(sent := s.sent + [m])
  }

  function CountPending(s: State, p: PeerId, delta: int): State {
    if p in s.peers then s.(peers := s.peers[p := s.peers[p].(pending := s.peers[p].pending + delta)]) else s
  }

  /** Navigation replaces the document, so it may share a tab with cancelled work. */
  predicate Preempts(operation: string) {
    "navigation." <= operation
  }

  function Queue(s: State, p: PeerId): seq<RequestId> {
    if p in s.queues then s.queues[p] else []
  }

  // Granting

  predicate Running(m: Mutation) {
    m.granted.Some? && !m.canceled
  }

  predicate Canceling(m: Mutation) {
    m.granted.Some? && m.canceled
  }

  function BusyTabs(s: State, q: seq<RequestId>): set<nat> {
    set id | id in q && id in s.entries && Running(s.entries[id]) :: s.entries[id].tab
  }

  function CancelingTabs(s: State, q: seq<RequestId>): set<nat> {
    set id | id in q && id in s.entries && Canceling(s.entries[id]) :: s.entries[id].tab
  }

  /** The entry runs from now on. */
  function GrantOne(s: State, id: RequestId): State
    requires id in s.entries && id in s.pending
  {
    Send(s.(entries := s.entries[id := s.entries[id].(granted := Some(s.now))],
            pending := s.pending[id := s.pending[id].(dispatched := Some(s.now))]),
         GrantMutation(s.entries[id].target, id))
  }

  /** The granting loop over the rest of a queue. */
  function GrantFrom(s: State, q: seq<RequestId>, busy: set<nat>, canceling: set<nat>): State
    decreases |q|
  {
    if q == [] then s
    else
      var id := q[0];
      if id !in s.entries || s.entries[id].granted.Some? || s.entries[id].canceled then
        GrantFrom(s, q[1..], busy, canceling)
      else
        var e := s.entries[id];
        if e.ready.None? then
          if e.tab > 0 then GrantFrom(s, q[1..], busy + {e.tab}, canceling) else s
        else if e.tab in busy || (e.tab in canceling && !Preempts(e.operation)) then
          GrantFrom(s, q[1..], busy, canceling)
        else if id !in s.pending then
          GrantFrom(s, q[1..], busy, canceling)
        else
          GrantFrom(GrantOne(s, id), q[1..], busy + {e.tab}, canceling)
  }

  function Grant(s: State, p: PeerId): State {
    if !Connected(s, p) || !s.peers[p].access then s
    else
      var q := Queue(s, p);
      GrantFrom(s, q, BusyTabs(s, q), CancelingTabs(s, q))
  }

  /** A ready mutation waits on a tab that cancelled work still holds. */
  predicate QueuedBehindCanceled(s: State, id: RequestId) {
    && id in s.entries && s.entries[id].granted.None? && s.entries[id].ready.Some?
    && s.entries[id].tab in CancelingTabs(s, Queue(s, s.entries[id].target))
  }

  // Leaving the scheduler

  function Without(q: seq<RequestId>, id: RequestId): seq<RequestId> {
    if q == [] then [] else if q[0] == id then q[1..] else [q[0]] + Without(q[1..], id)
  }

  /** The entry leaves both tables. */
  function Unschedule(s: State, id: RequestId, p: PeerId): State {
    var q := Without(Queue(s, p), id);
    s.(entries := s.entries - {id},
       queues := if q == [] then s.queues - {p} else s.queues[p := q])
  }

  function RemoveMutation(s: State, id: RequestId, p: PeerId): State {
    if id !in s.entries || s.entries[id].target != p then s else Grant(Unschedule(s, id, p), p)
  }

  function Max(a: nat, b: nat): nat {
    if a < b then b else a
  }

  function MarkCanceled(s: State, id: RequestId): State
    requires id in s.entries
  {
    var e := s.entries[id];
    s.(entries := s.entries[id := e.(canceled := true, expiry := Some(Max(s.now, e.deadline) + CANCEL_GRACE))])
  }

  function CancelMutation(s: State, id: RequestId): State {
    if id !in s.entries then s
    else if s.entries[id].granted.None? then RemoveMutation(s, id, s.entries[id].target)
    else if s.entries[id].canceled then s
    else MarkCanceled(s, id)
  }

  // Ending a request

  function Forget(s: State, id: RequestId): State {
    s.(pending := s.pending - {id})
  }

  function Finish(s: State, id: RequestId, ok: bool): State {
    if id !in s.pending then s
    else
      var owner := s.pending[id].owner;
      Send(CountPending(CancelMutation(Forget(s, id), id), owner, -1), Answer(owner, id, ok))
  }

  /** The owner left: the request ends without an answer. */
  function Abandon(s: State, id: RequestId): State {
    if id !in s.pending then s
    else CountPending(CancelMutation(Forget(s, id), id), s.pending[id].owner, -1)
  }

  function NotifyCanceled(s: State, id: RequestId): State {
    if id in s.pending && Connected(s, s.pending[id].target) then Send(s, CancelRequest(s.pending[id].target, id)) else s
  }

  /** Cancels in the browser and answers with a failure. */
  function Fail(s: State, id: RequestId): State {
    Finish(NotifyCanceled(s, id), id, false)
  }

  // Messages from the browser

  function MutationReady(s: State, p: PeerId, id: RequestId, tab: Option<nat>): State {
    if id !in s.entries || s.entries[id].target != p || s.entries[id].ready.Some? then s
    else
      var e := s.entries[id];
      if tab.None? || tab.value == 0 || tab.value > MAX_SAFE_INTEGER || (e.tab != 0 && e.tab != tab.value) then Fail(s, id)
      else Grant(MarkReady(s, id, tab.value), p)
  }

  function MarkReady(s: State, id: RequestId, tab: nat): State
    requires id in s.entries
  {
    s.(entries := s.entries[id := s.entries[id].(tab := tab, ready := Some(s.now))],
       pending := if id in s.pending then s.pending[id := s.pending[id].(prepared := Some(s.now))] else s.pending)
  }

  /** What the daemon makes of a response body. */
  datatype Reply = Malformed | Settles(ok: bool) | Deferred | StorageFull

  function Respond(s: State, p: PeerId, id: RequestId, reply: Reply): State {
    if id !in s.pending then RemoveMutation(s, id, p)
    else if s.pending[id].target != p then s
    else if reply.Malformed? then Finish(s, id, false)
    else
      var t := RemoveMutation(s, id, p);
      match reply
      case Settles(ok) => Finish(t, id, ok)
      case StorageFull => Finish(t, id, false)
      case _ => t
  }

  // Access

  function RevokeFrom(s: State, p: PeerId, order: seq<RequestId>): State
    decreases |order|
  {
    if order == [] then s
    else
      var id := order[0];
      var t := if id in s.entries && s.entries[id].target == p && id in s.pending then Fail(s, id) else s;
      RevokeFrom(t, p, order[1..])
  }

  function SetAccess(s: State, p: PeerId, access: bool): State {
    if p in s.peers then s.(peers := s.peers[p := s.peers[p].(access := access)]) else s
  }

  function AccessUpdate(s: State, p: PeerId, access: bool, order: seq<RequestId>): State {
    var t := SetAccess(s, p, access);
    if access then Grant(t, p) else RevokeFrom(t, p, order)
  }

  // Disconnecting

  function Leave(s: State, p: PeerId): State {
    if p in s.peers then s.(peers := s.peers[p := s.peers[p].(connected := false)]) else s
  }

  function DropFrom(s: State, p: PeerId, order: seq<RequestId>): State
    decreases |order|
  {
    if order == [] then s else DropFrom(DropOne(s, p, order[0]), p, order[1..])
  }

  function DropOne(s: State, p: PeerId, id: RequestId): State {
    if id !in s.pending then s
    else if s.pending[id].owner == p then Abandon(NotifyCanceled(s, id), id)
    else if s.pending[id].target == p then Finish(s, id, false)
    else s
  }

  function UnscheduleFrom(s: State, p: PeerId, order: seq<RequestId>): State
    decreases |order|
  {
    if order == [] then s
    else
      var id := order[0];
      UnscheduleFrom(if id in s.entries && s.entries[id].target == p then RemoveMutation(s, id, p) else s, p, order[1..])
  }

  function Disconnect(s: State, p: PeerId, order: seq<RequestId>, slots: seq<RequestId>): State {
    var t := DropFrom(Leave(s, p), p, order);
    if p in s.peers && s.peers[p].extension then UnscheduleFrom(t, p, slots) else t
  }

  // Admission

  /** What reaches admission once the target profile is chosen. */
  datatype Request = Request(original: string, operation: string, mutation: bool, tab: nat, target: Option<PeerId>, timeout: nat)

  predicate Duplicate(s: State, p: PeerId, original: string) {
    || (exists id :: id in s.pending && s.pending[id].owner == p && s.pending[id].original == original)
    || (p, original) in s.storing
  }

  function Refuse(s: State, p: PeerId, original: string): State {
    Send(s, LocalAnswer(p, original, false))
  }

  predicate Scheduled(s: State, r: Request)
    requires r.target.Some?
  {
    r.target.value in s.peers && s.peers[r.target.value].schedules && r.mutation
  }

  predicate SchedulerFull(s: State, p: PeerId) {
    |s.entries| >= MAX_SCHEDULED || |Queue(s, p)| >= MAX_QUEUE
  }

  function Schedule(s: State, id: RequestId, r: Request): State
    requires r.target.Some?
  {
    var p := r.target.value;
    s.(entries := s.entries[id := Mutation(id, p, r.operation, s.now + r.timeout, r.tab, None, None, false, None)],
       queues := s.queues[p := Queue(s, p) + [id]])
  }

  function Admit(s: State, p: PeerId, id: RequestId, r: Request): State
    requires r.target.Some?
  {
    var t := if Scheduled(s, r) then Schedule(s, id, r) else s;
    var u := t.(pending := t.pending[id := Pending(p, r.target.value, r.original, r.operation, r.tab, s.now + r.timeout, None, None)],
                owners := t.owners[id := p]);
    Send(CountPending(u, p, 1), Forward(r.target.value, id))
  }

  function Route(s: State, p: PeerId, id: RequestId, r: Request): State {
    if Duplicate(s, p, r.original) then Refuse(s, p, r.original)
    else if r.target.None? then Refuse(s, p, r.original)
    else if |s.pending| >= MAX_PENDING || p !in s.peers || s.peers[p].pending >= MAX_PEER_PENDING then Refuse(s, p, r.original)
    else if Scheduled(s, r) && SchedulerFull(s, r.target.value) then Refuse(s, p, r.original)
    else Admit(s, p, id, r)
  }

  // Requests the storage executor serves

  function StorageDone(s: State, p: PeerId, original: string, ok: bool): State {
    if (p, original) !in s.storing then s
    else
      var t := CountPending(s.(storing := s.storing - {(p, original)}), p, -1);
      if Connected(t, p) then Send(t, LocalAnswer(p, original, ok)) else t
  }

  function StorageRequest(s: State, p: PeerId, original: string, queued: bool): State {
    if Duplicate(s, p, original) then Refuse(s, p, original)
    else if p !in s.peers || s.peers[p].pending >= MAX_PEER_PENDING then Refuse(s, p, original)
    else
      var t := CountPending(s.(storing := s.storing + {(p, original)}), p, 1);
      if queued then t else StorageDone(t, p, original, false)
  }

  // Timers

  function Expire(s: State, id: RequestId): State {
    if id in s.entries then RemoveMutation(s, id, s.entries[id].target) else s
  }

  function Join(s: State, p: PeerId, peer: Peer): State {
    s.(peers := s.peers[p := peer.(connected := true, pending := 0)])
  }
}
