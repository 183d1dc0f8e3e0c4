/** The least-loaded strategy over whole dispatches: fairness up to one task. */
module Fairness {
  import opened Wrappers
  import opened Machine
  import opened Model
  import opened Strategy
  import opened Cluster
  import opened Invariants
  import opened Counts

  ghost predicate UsesLeastLoaded(c: Config) {
    forall a, b :: c.Strategy()(a, b) == LeastLoaded(a, b)
  }

  ghost predicate CapacitiesUpTo(s: State, bound: int) {
    forall id :: id in s.nodes ==> s.nodes[id].capacity <= bound
  }

  /** `b` is at most one task ahead of `a`, measured against their capacities. */
  predicate AtMostOneAhead(a: Node, b: Node) {
    (b.runningTasks - 1) * a.capacity <= a.runningTasks * b.capacity
  }

  predicate OnlineAt(c: Config, s: State, id: string, now: Time) {
    id in s.nodes && !Late(s.nodes[id], now, c.offlineAfter)
  }

  ghost predicate FairAt(c: Config, s: State, now: Time) {
    forall i, j :: OnlineAt(c, s, i, now) && OnlineAt(c, s, j, now) ==> AtMostOneAhead(s.nodes[i], s.nodes[j])
  }

  lemma EligiblePreorder(c: Config, s: State)
    requires Valid(s) && UsesLeastLoaded(c) && CapacitiesUpTo(s, LARGEST_CAPACITY)
    ensures PreorderOn(c.Strategy(), EligibleNodes(s))
  {
    LeastLoadedIsPreorder(EligibleNodes(s));
  }

  /** The selected worker has the lowest load ratio of all eligible workers. */
  lemma SelectedIsLeastLoaded(c: Config, s: State, id: string)
    requires Valid(s) && UsesLeastLoaded(c) && CapacitiesUpTo(s, LARGEST_CAPACITY)
    requires Select(c, s).Some? && id in s.nodes && Eligible(s.nodes[id])
    ensures
      var chosen := NodeAt(s, Select(c, s).value);
      chosen.runningTasks * s.nodes[id].capacity <= s.nodes[id].runningTasks * chosen.capacity
  {
    EligiblePreorder(c, s);
    SelectIsFirstMinimum(c, s);
    var b := Select(c, s).value;
    var i: nat :| i < |s.nodeOrder| && s.nodeOrder[i] == id;
    ScanIsBijective(s, i, 0);
    assert EligibleAt(s, Visited(s, OffsetOf(s, i)));
    NotWorseRatio(NodeAt(s, b), s.nodes[id]);
  }

  lemma FullIsNoLessLoaded(full: Node, free: Node)
    requires full.capacity >= 1 && Full(full) && HasSlot(free)
    ensures free.runningTasks * full.capacity <= full.runningTasks * free.capacity
  {
    ScaledBound(free.runningTasks, full.capacity, free.capacity, full.runningTasks);
  }

  /** The selected worker is no more loaded than any online worker, eligible or full. */
  lemma SelectedIsLeastOfOnline(c: Config, s: State, id: string, now: Time)
    requires Valid(s) && FreshAt(c, s, now) && Select(c, s).Some? && OnlineAt(c, s, id, now)
    requires UsesLeastLoaded(c) && CapacitiesUpTo(s, LARGEST_CAPACITY)
    ensures
      var chosen := NodeAt(s, Select(c, s).value);
      chosen.runningTasks * s.nodes[id].capacity <= s.nodes[id].runningTasks * chosen.capacity
  {
    if Eligible(s.nodes[id]) {
      SelectedIsLeastLoaded(c, s, id);
    } else {
      FullIsNoLessLoaded(s.nodes[id], NodeAt(s, Select(c, s).value));
    }
  }

  lemma AssignKeepsFair(c: Config, s: State, id: string, now: Time)
    requires Valid(s) && FreshAt(c, s, now) && IsPending(s, id) && Select(c, s).Some?
    requires UsesLeastLoaded(c) && CapacitiesUpTo(s, LARGEST_CAPACITY) && FairAt(c, s, now)
    ensures FairAt(c, Assign(c, s, id, Select(c, s).value, now), now)
  {
    var b := Select(c, s).value;
    var w, chosen, r := s.nodeOrder[b], NodeAt(s, b), Assign(c, s, id, b, now);
    forall i, j | OnlineAt(c, r, i, now) && OnlineAt(c, r, j, now)
      ensures AtMostOneAhead(r.nodes[i], r.nodes[j])
    {
      assert OnlineAt(c, s, i, now) && OnlineAt(c, s, j, now);
      assert AtMostOneAhead(s.nodes[i], s.nodes[j]);
      if i != w && j == w {
        SelectedIsLeastOfOnline(c, s, i, now);
      } else if i == w {
        MoreRoom(chosen.runningTasks, s.nodes[j].capacity);
      }
    }
  }

  lemma MoreRoom(x: int, y: int)
    requires y >= 0
    ensures x * y <= (x + 1) * y
  {
  }

  lemma {:induction false} QueueKeepsFair(c: Config, s: State, q: seq<string>, now: Time)
    requires QueueReady(c, s, q, now)
    requires UsesLeastLoaded(c) && CapacitiesUpTo(s, LARGEST_CAPACITY) && FairAt(c, s, now)
    ensures FairAt(c, DispatchQueue(c, s, q, now), now)
    decreases |q|
  {
    if q == [] || Select(c, s).None? {
    } else {
      QueueTurn(c, s, q, now);
      AssignKeepsFair(c, s, q[0], now);
      var s1 := PlaceFirst(c, s, q, now);
      assert CapacitiesUpTo(s1, LARGEST_CAPACITY);
      QueueKeepsFair(c, s1, q[1..], now);
    }
  }

  /** A dispatch of any number of tasks keeps online workers within one task of each other. */
  lemma DispatchKeepsFair(c: Config, s: State, now: Time)
    requires Valid(s) && UsesLeastLoaded(c) && CapacitiesUpTo(s, LARGEST_CAPACITY) && FairAt(c, s, now)
    ensures FairAt(c, DispatchPending(c, s, now), now)
  {
    RefreshValid(c, s, now);
    RefreshKeepsFair(c, s, now);
    var ready := Refresh(c, s, now);
    QueueKeepsFair(c, ready, PendingQueue(ready), now);
  }

  lemma RefreshKeepsFair(c: Config, s: State, now: Time)
    requires CapacitiesUpTo(s, LARGEST_CAPACITY) && FairAt(c, s, now)
    ensures CapacitiesUpTo(Refresh(c, s, now), LARGEST_CAPACITY) && FairAt(c, Refresh(c, s, now), now)
  {
    var r := Refresh(c, s, now);
    forall i, j | OnlineAt(c, r, i, now) && OnlineAt(c, r, j, now)
      ensures AtMostOneAhead(r.nodes[i], r.nodes[j])
    {
      assert OnlineAt(c, s, i, now) && OnlineAt(c, s, j, now);
    }
  }

  // ----- The capacity bound is exact -----

  /** In every state that some run reaches. */
  ghost predicate DispatchFairUpTo(bound: int) {
    forall c: Config, s: State, now: Time ::
      Reachable(c, s) && UsesLeastLoaded(c) && CapacitiesUpTo(s, bound) && FairAt(c, s, now) ==>
      FairAt(c, DispatchPending(c, s, now), now)
  }

  lemma ReachableValid(c: Config, s: State)
    requires Reachable(c, s)
    ensures Valid(s)
  {
    var steps: seq<Step> :| Exec(c, steps) == s;
    RunValid(c, steps);
  }

  const PLAIN: Config := Config(None, 0)

  /** A worker just beyond the bound, heard from at time 1. */
  predicate Wide(n: Node, running: int) {
    n.capacity == LARGEST_CAPACITY + 1 && n.runningTasks == running && n.lastHeartbeat == 1
  }

  /** Two such workers, one task apart, and the tasks waiting. */
  ghost predicate WideCluster(s: State, a: string, b: string, waiting: set<string>) {
    && a != b && a != "" && b != "" && s.nodeOrder == [a, b] && s.nodes.Keys == {a, b} && s.nextNodeIndex == 0
    && Wide(s.nodes[a], 3037000499) && Wide(s.nodes[b], 3037000498) && PendingIDs(s) == waiting
  }

  lemma WideWorkers(a: string, b: string) returns (s: State)
    requires a != b && a != "" && b != ""
    ensures Reachable(PLAIN, s) && WideCluster(s, a, b, {})
  {
    ReachInitial(PLAIN);
    s := WideWorker(INITIAL, a, 3037000499);
    s := WideWorker(s, b, 3037000498);
  }

  /** A worker joins, and reports how many tasks it runs. */
  lemma WideWorker(s: State, w: string, running: nat) returns (r: State)
    requires Reachable(PLAIN, s) && w != "" && w !in s.nodes
    ensures Reachable(PLAIN, r) && w in r.nodes && Wide(r.nodes[w], running)
    ensures r.nodes == s.nodes[w := r.nodes[w]] && r.nodeOrder == s.nodeOrder + [w]
    ensures r.tasks == s.tasks && r.nextNodeIndex == s.nextNodeIndex
  {
    var join := RegisterRequest(w, "", LARGEST_CAPACITY + 1, []);
    ReachRegister(PLAIN, s, join, 1);
    r := Register(PLAIN, s, join, 1).0;
    ReachHeartbeat(PLAIN, r, HeartbeatRequest(w, running), 1);
    r := Heartbeat(PLAIN, r, HeartbeatRequest(w, running), 1).0;
  }

  lemma WideSubmit(s: State, a: string, b: string, req: SubmitRequest) returns (r: State, id: string)
    requires Reachable(PLAIN, s) && WideCluster(s, a, b, {}) && SubmitAccepted(req)
    ensures Reachable(PLAIN, r) && WideCluster(r, a, b, {id})
  {
    ReachSubmit(PLAIN, s, req, 1);
    r, id := Submit(s, req, 1).0, Submit(s, req, 1).1.value;
    forall x ensures x in PendingIDs(r) <==> x == id { assert x !in PendingIDs(s); }
  }

  /** The product for the busier worker overflows, so it compares as the better one. */
  lemma WideMisordered(idler: Node, busier: Node)
    requires Wide(idler, 3037000498) && Wide(busier, 3037000499)
    ensures LeastLoaded(idler, busier) > 0
  {
    assert 3037000499 * 3037000501 == 9223372037000249999;
    assert 3037000498 * 3037000501 == 9223372033963249498;
    assert WrapInt64(9223372037000249999) < 0;
  }

  lemma WideSelectsFirst(s: State, a: string, b: string, waiting: set<string>)
    requires WideCluster(s, a, b, waiting)
    ensures Select(PLAIN, Refresh(PLAIN, s, 1)) == Some(0)
  {
    var ready := Refresh(PLAIN, s, 1);
    WideMisordered(ready.nodes[b], ready.nodes[a]);
    assert Visited(ready, 0) == 0 && Visited(ready, 1) == 1;
    assert Best(PLAIN.Strategy(), ready, 1) == Some(0) by { assert Best(PLAIN.Strategy(), ready, 0) == None; }
    assert Best(PLAIN.Strategy(), ready, 2) == Some(0);
  }

  lemma WideIsFair(s: State, a: string, b: string, waiting: set<string>)
    requires WideCluster(s, a, b, waiting)
    ensures FairAt(PLAIN, s, 1)
  {
    forall i, j | OnlineAt(PLAIN, s, i, 1) && OnlineAt(PLAIN, s, j, 1)
      ensures AtMostOneAhead(s.nodes[i], s.nodes[j])
    {
      StrictScale(s.nodes[i].runningTasks, s.nodes[j].runningTasks - 1, LARGEST_CAPACITY + 1);
    }
  }

  lemma WideTurnsUnfair(s: State, a: string, b: string, id: string)
    requires WideCluster(s, a, b, {id})
    ensures !FairAt(PLAIN, DispatchPending(PLAIN, s, 1), 1)
  {
    WideSelectsFirst(s, a, b, {id});
    DispatchOne(PLAIN, s, id, 1);
    WidePairUnfair(DispatchPending(PLAIN, s, 1), a, b);
  }

  lemma WidePairUnfair(r: State, a: string, b: string)
    requires a in r.nodes && b in r.nodes && Wide(r.nodes[a], 3037000500) && Wide(r.nodes[b], 3037000498)
    ensures !FairAt(PLAIN, r, 1)
  {
    assert OnlineAt(PLAIN, r, a, 1) && OnlineAt(PLAIN, r, b, 1);
    assert !AtMostOneAhead(r.nodes[b], r.nodes[a]);
  }

  /** A reachable fair state, with a capacity just beyond the bound, that a dispatch makes unfair. */
  lemma WideClusterTurnsUnfair(a: string, b: string, req: SubmitRequest) returns (s: State)
    requires a != b && a != "" && b != "" && SubmitAccepted(req)
    ensures Reachable(PLAIN, s) && CapacitiesUpTo(s, LARGEST_CAPACITY + 1)
    ensures FairAt(PLAIN, s, 1) && !FairAt(PLAIN, DispatchPending(PLAIN, s, 1), 1)
  {
    var id;
    s := WideWorkers(a, b);
    s, id := WideSubmit(s, a, b, req);
    WideIsFair(s, a, b, {id});
    WideTurnsUnfair(s, a, b, id);
  }

  /** Every dispatch of every run is fair on clusters with capacities up to `bound` iff the bound is the one proved. */
  lemma FairUpToIff(bound: int)
    ensures DispatchFairUpTo(bound) <==> bound <= LARGEST_CAPACITY
  {
    if bound <= LARGEST_CAPACITY {
      forall c: Config, s: State, now: Time |
        Reachable(c, s) && UsesLeastLoaded(c) && CapacitiesUpTo(s, bound) && FairAt(c, s, now)
        ensures FairAt(c, DispatchPending(c, s, now), now)
      {
        ReachableValid(c, s);
        DispatchKeepsFair(c, s, now);
      }
    } else {
      var s := WideClusterTurnsUnfair("a", "b", SubmitRequest("m", "o", "", map[]));
      assert UsesLeastLoaded(PLAIN) && CapacitiesUpTo(s, bound);
    }
  }
}
