/**
 * Why a disconnect is apart from the other steps that remove mutations: a run at
 * whose end a navigation waits that the next granting pass would start.
 */
module DaemonLeaving {
  import opened Options
  import opened DaemonState
  import opened SchedulerLaws
  import opened DaemonLaws
  import opened DaemonRuns
  import opened DaemonWaiting

  lemma {:induction false} RunOneMore(s: State, steps: seq<Step>, step: Step)
    requires IsRun(s, steps) && Enabled(After(s, steps), step)
    ensures IsRun(s, steps + [step]) && After(s, steps + [step]) == Next(After(s, steps), step)
    decreases |steps|
  {
    hide Next, Enabled;
    if steps == [] {
      assert [step][1..] == [];
      assert steps + [step] == [step];
    } else {
      RunOneMore(Next(s, steps[0]), steps[1..], step);
      assert (steps + [step])[1..] == steps[1..] + [step];
    }
  }

  lemma ReachableNext(s: State, step: Step)
    requires Reachable(s) && Enabled(s, step)
    ensures Reachable(Next(s, step))
  {
    hide IsRun, After, Next, Enabled;
    var steps :| IsRun(Start, steps) && After(Start, steps) == s;
    RunOneMore(Start, steps, step);
  }

  lemma StartReachable()
    ensures Reachable(Start)
  {
    assert IsRun(Start, []) && After(Start, []) == Start;
  }

  const Click := "element.click"
  const Visit := "navigation.navigate"

  function Client(pending: int): Peer {
    Peer(true, false, false, false, pending)
  }

  const Browser := Peer(true, true, true, true, 0)

  function Asks(original: string, operation: string): Request {
    Request(original, operation, true, 5, Some(2), 1000)
  }

  function Slot(id: RequestId, operation: string, ready: bool, granted: bool): Mutation {
    Mutation(id, 2, operation, 1000, 5, if ready then Some(0) else None, if granted then Some(0) else None, false, None)
  }

  function Asked(owner: PeerId, original: string, operation: string, ready: bool, granted: bool): Pending {
    Pending(owner, 2, original, operation, 5, 1000, if ready then Some(0) else None, if granted then Some(0) else None)
  }

  /** Two clients and a browser; the first client clicks twice and the second navigates, all on one tab. */
  lemma ThreeJoin() returns (s: State)
    ensures Reachable(s)
    ensures s == State(map[1 := Client(0), 2 := Browser, 3 := Client(0)], map[], map[], map[], {}, [], map[], 0)
  {
    hide Reachable;
    StartReachable();
    ReachableNext(Start, Joins(1, Client(0)));
    s := Next(Start, Joins(1, Client(0)));
    ReachableNext(s, Joins(2, Browser));
    s := Next(s, Joins(2, Browser));
    ReachableNext(s, Joins(3, Client(0)));
    s := Next(s, Joins(3, Client(0)));
  }

  lemma RoutedTo(s: State, p: PeerId, id: RequestId, original: string, operation: string) returns (t: State)
    requires Reachable(s) && p in s.peers && p != 2 && s.peers[p].connected && 2 in s.peers && s.peers[2] == Browser && id !in s.owners
    requires s.now == 0 && s.storing == {} && s.peers[p].pending < 2 && |s.pending| < 3 && |s.entries| < 3 && |Queue(s, 2)| < 3
    requires forall x <- s.pending :: s.pending[x].owner != p || s.pending[x].original != original
    ensures Reachable(t) && t.now == 0 && t.storing == {} && t.owners == s.owners[id := p]
    ensures t.peers == s.peers[p := s.peers[p].(pending := s.peers[p].pending + 1)]
    ensures t.pending == s.pending[id := Asked(p, original, operation, false, false)]
    ensures t.entries == s.entries[id := Slot(id, operation, false, false)] && t.queues == s.queues[2 := Queue(s, 2) + [id]]
  {
    var r := Asks(original, operation);
    hide Reachable;
    assert !Duplicate(s, p, original);
    assert Enabled(s, Routes(p, id, r));
    ReachableNext(s, Routes(p, id, r));
    t := Next(s, Routes(p, id, r));
    hide Duplicate, Enabled;
    assert t == Admit(s, p, id, r);
  }

  lemma ThreeRoute() returns (s: State)
    ensures Reachable(s)
    ensures s.peers == map[1 := Client(2), 2 := Browser, 3 := Client(1)] && s.queues == map[2 := [10, 11, 12]]
    ensures s.entries == map[10 := Slot(10, Click, false, false), 11 := Slot(11, Click, false, false), 12 := Slot(12, Visit, false, false)]
    ensures s.pending == map[10 := Asked(1, "a", Click, false, false), 11 := Asked(1, "b", Click, false, false),
                             12 := Asked(3, "a", Visit, false, false)]
    ensures s.now == 0
  {
    hide Reachable, Next, Enabled;
    s := ThreeJoin();
    s := RoutedTo(s, 1, 10, "a", Click);
    assert s.queues[2] == [10];
    s := RoutedTo(s, 1, 11, "b", Click);
    assert s.queues[2] == [10, 11];
    s := RoutedTo(s, 3, 12, "a", Visit);
    assert s.queues[2] == [10, 11, 12];
  }

  lemma ReadyTo(s: State, id: RequestId) returns (t: State)
    requires Reachable(s) && id in s.entries && id in s.pending && s.entries[id].target == 2 && s.entries[id].ready.None?
    requires s.entries[id].tab == 5 && s.now == 0
    ensures Reachable(t) && t == Grant(MarkReady(s, id, 5), 2)
  {
    hide Reachable, Grant;
    ReachableNext(s, Readies(2, id, Some(5)));
    t := Next(s, Readies(2, id, Some(5)));
  }

  lemma ThreeReady() returns (s: State)
    ensures Reachable(s)
    ensures s.peers == map[1 := Client(2), 2 := Browser, 3 := Client(1)] && s.queues == map[2 := [10, 11, 12]]
    ensures s.entries == map[10 := Slot(10, Click, true, true), 11 := Slot(11, Click, true, false), 12 := Slot(12, Visit, true, false)]
    ensures s.pending == map[10 := Asked(1, "a", Click, true, true), 11 := Asked(1, "b", Click, true, false),
                             12 := Asked(3, "a", Visit, true, false)]
    ensures s.now == 0
  {
    hide Reachable, Grant;
    s := ThreeRoute();
    var r := s;
    s := ReadyTo(s, 10);
    FirstGrant(MarkReady(r, 10, 5));
    r := s;
    s := ReadyTo(s, 11);
    BusyGrant(MarkReady(r, 11, 5));
    r := s;
    s := ReadyTo(s, 12);
    BusyGrant(MarkReady(r, 12, 5));
  }

  /** Nothing is granted on tabs that are busy. */
  lemma {:induction false} BusyGrants(s: State, q: seq<RequestId>, busy: set<nat>, canceling: set<nat>)
    requires forall id <- q :: id in s.entries ==> s.entries[id].tab in busy && s.entries[id].tab > 0
    ensures GrantFrom(s, q, busy, canceling) == s
    decreases |q|
  {
    hide Preempts;
    if q != [] {
      if q[0] in s.entries {
        assert busy + {s.entries[q[0]].tab} == busy;
      }
      BusyGrants(s, q[1..], busy, canceling);
    }
  }

  lemma BusyGrant(s: State)
    requires 10 in Queue(s, 2) && 10 in s.entries && Running(s.entries[10])
    requires forall x <- s.entries :: s.entries[x].tab == 5
    ensures Grant(s, 2) == s
  {
    hide GrantFrom;
    var q := Queue(s, 2);
    assert s.entries[10].tab in BusyTabs(s, q);
    BusyGrants(s, q, BusyTabs(s, q), CancelingTabs(s, q));
  }

  lemma FirstGrant(s: State)
    requires Queue(s, 2) == [10, 11, 12] && s.entries.Keys == {10, 11, 12} && 10 in s.pending && MayGrant(s, 2)
    requires forall x <- s.entries :: s.entries[x].tab == 5 && s.entries[x].granted.None? && !s.entries[x].canceled
    requires s.entries[10].ready.Some?
    ensures Grant(s, 2) == GrantOne(s, 10)
  {
    hide Preempts;
    var q := Queue(s, 2);
    assert BusyTabs(s, q) == {} && CancelingTabs(s, q) == {};
    assert q[0] == 10 && q[1..] == [11, 12];
    BusyGrants(GrantOne(s, 10), q[1..], {} + {5}, {});
  }

  lemma FirstDrop(s: State) returns (t: State)
    requires 1 in s.peers && !s.peers[1].connected && !s.peers[1].extension && 2 in s.peers && s.peers[2] == Browser
    requires s.queues == map[2 := [10, 11, 12]]
    requires s.entries == map[10 := Slot(10, Click, true, true), 11 := Slot(11, Click, true, false), 12 := Slot(12, Visit, true, false)]
    requires s.pending == map[10 := Asked(1, "a", Click, true, true), 11 := Asked(1, "b", Click, true, false),
                              12 := Asked(3, "a", Visit, true, false)]
    ensures t == DropOne(s, 1, 11)
    ensures 1 in t.peers && !t.peers[1].connected && !t.peers[1].extension && 2 in t.peers && t.peers[2] == Browser
    ensures t.queues == map[2 := [10, 12]]
    ensures t.entries == map[10 := Slot(10, Click, true, true), 12 := Slot(12, Visit, true, false)]
    ensures t.pending == map[10 := Asked(1, "a", Click, true, true), 12 := Asked(3, "a", Visit, true, false)]
  {
    hide Grant;
    var n := Forget(NotifyCanceled(s, 11), 11);
    var u := Unschedule(n, 11, 2);
    assert Without([10, 11, 12], 11) == [10, 12] by {
      assert [10, 11, 12][1..] == [11, 12] && [11, 12][1..] == [12];
    }
    assert u.queues == map[2 := [10, 12]] && u.entries.Keys == {10, 12};
    BusyGrant(u);
    t := CountPending(u, 1, -1);
    assert u == RemoveMutation(n, 11, 2) == CancelMutation(n, 11);
  }

  lemma SecondDrop(s: State) returns (t: State)
    requires 1 in s.peers && !s.peers[1].connected && !s.peers[1].extension && 2 in s.peers && s.peers[2] == Browser
    requires s.queues == map[2 := [10, 12]]
    requires s.entries == map[10 := Slot(10, Click, true, true), 12 := Slot(12, Visit, true, false)]
    requires s.pending == map[10 := Asked(1, "a", Click, true, true), 12 := Asked(3, "a", Visit, true, false)]
    ensures t == DropOne(s, 1, 10) == DropOne(t, 1, 12)
    ensures MayGrant(t, 2) && 1 in t.peers && !t.peers[1].extension && t.queues == map[2 := [10, 12]]
    ensures t.entries.Keys == {10, 12} && Canceling(t.entries[10]) && t.entries[10].tab == 5
    ensures t.entries[12] == Slot(12, Visit, true, false)
  {
    var n := Forget(NotifyCanceled(s, 10), 10);
    t := CountPending(MarkCanceled(n, 10), 1, -1);
    assert MarkCanceled(n, 10) == CancelMutation(n, 10);
  }

  /**
   * The first client leaves. Its waiting click goes and the queue is granted again,
   * in vain; then its running click is cancelled, and the navigation that might
   * run now is not granted.
   */
  lemma NavigationLeftWaiting() returns (s: State, step: Step)
    ensures Reachable(s) && Enabled(s, step) && Wakes(s, step, 2)
    ensures MayGrant(Next(s, step), 2) && Grant(Next(s, step), 2) != Next(s, step)
  {
    hide Reachable, Grant, DropOne, BusyTabs, CancelingTabs;
    s := ThreeReady();
    step := Disconnects(1, [11, 10, 12], [10, 11, 12]);
    var l := Leave(s, 1);
    var t := FirstDrop(l);
    var u := SecondDrop(t);
    assert DropFrom(l, 1, [11, 10, 12]) == u by {
      assert [11, 10, 12][1..] == [10, 12] && [10, 12][1..] == [12] && [12][1..] == [];
      assert DropFrom(u, 1, []) == u && DropFrom(u, 1, [12]) == u && DropFrom(t, 1, [10, 12]) == u;
    }
    assert Next(s, step) == u;
    assert Enabled(s, step);
    assert 11 in s.entries && 11 !in u.entries;
    ReachableNext(s, step);
    LastFree(u);
    GrantsNothingIff(u, 2);
    assert Queue(u, 2)[1] == 12;
  }

  lemma LastFree(s: State)
    requires Queue(s, 2) == [10, 12] && s.entries.Keys == {10, 12} && Canceling(s.entries[10]) && s.entries[10].tab == 5
    requires s.entries[12] == Slot(12, Visit, true, false)
    ensures Overlooked(s, [10, 12], 1)
  {
    assert [10, 12][..1] == [10];
    assert Preempts(Visit);
    assert 10 in [10, 12] && s.entries[10].tab in CancelingTabs(s, [10, 12]);
    assert BusyTabs(s, [10, 12]) == {} && PreparingTabs(s, [10]) == {};
  }
}
