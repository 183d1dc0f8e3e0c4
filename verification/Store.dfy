/** The scheduler process: a store updated in place, and the objects that share it. */
module Store {
  import opened Wrappers
  import opened Machine
  import opened Order
  import opened Model
  import C = Cluster

  /** Every method of the classes below runs its body inside one locked section of the store. */
  class MemoryStore {
    var nodes: map<string, Node>
    var tasks: map<string, Task>
    var nodeOrder: seq<string>
    var nextNodeIndex: nat
    var taskCounter: Uint64

    constructor ()
      ensures View() == C.INITIAL
    {
      nodes, tasks, nodeOrder, nextNodeIndex, taskCounter := map[], map[], [], 0, 0;
    }

    function View(): C.State
      reads this
    {
      C.State(nodes, tasks, nodeOrder, nextNodeIndex, taskCounter)
    }
  }

  datatype StatusResponse = StatusResponse(
    generatedAt: Time, totalWorkers: nat, activeWorkers: nat,
    pendingTasks: nat, runningTasks: nat, completedTasks: nat,
    workers: seq<Node>, tasks: seq<Task>)

  ghost function OnlineIDs(s: C.State): (ids: set<string>) {
    set id | id in s.nodes && s.nodes[id].status != Offline
  }

  /** How many of the listed tasks have a status, counted one by one. */
  ghost function Tally(s: C.State, ids: seq<string>, status: TaskState): (n: nat) {
    if ids == [] then 0 else
      var last := ids[|ids| - 1];
      Tally(s, ids[..|ids| - 1], status) + if C.HasStatus(s, last, status) then 1 else 0
  }

  lemma TallyExtends(s: C.State, ids: seq<string>, id: string, status: TaskState)
    ensures Tally(s, ids + [id], status)
            == Tally(s, ids, status) + if C.HasStatus(s, id, status) then 1 else 0
  {
    assert (ids + [id])[..|ids|] == ids;
  }

  ghost function Listed(s: C.State, ids: seq<string>, status: TaskState): (r: set<string>) {
    set id | id in ids && C.HasStatus(s, id, status)
  }

  lemma ListedExtends(s: C.State, ids: seq<string>, id: string, status: TaskState)
    requires id !in ids
    ensures |Listed(s, ids + [id], status)| == |Listed(s, ids, status)| + if C.HasStatus(s, id, status) then 1 else 0
  {
    var before, after := Listed(s, ids, status), Listed(s, ids + [id], status);
    assert forall x :: x in ids + [id] <==> x in ids || x == id;
    if C.HasStatus(s, id, status) { assert after == before + {id}; } else { assert after == before; }
  }

  lemma {:induction false} TallyListed(s: C.State, ids: seq<string>, status: TaskState)
    requires Distinct(ids)
    ensures Tally(s, ids, status) == |Listed(s, ids, status)|
  {
    if ids == [] {
      assert Listed(s, ids, status) == {};
    } else {
      var init, last := ids[..|ids| - 1], ids[|ids| - 1];
      assert ids == init + [last];
      TallyListed(s, init, status);
      ListedExtends(s, init, last, status);
    }
  }

  lemma TallyCounts(s: C.State, ids: seq<string>, status: TaskState)
    requires Distinct(ids) && forall id :: id in ids <==> id in s.tasks
    ensures Tally(s, ids, status) == |C.IDsWithStatus(s, status)|
  {
    TallyListed(s, ids, status);
    assert Listed(s, ids, status) == C.IDsWithStatus(s, status);
  }

  /** The listed entries of a map, copied out in order. */
  function Copy<V>(m: map<string, V>, ids: seq<string>): (r: seq<V>)
    requires forall i :: 0 <= i < |ids| ==> ids[i] in m
    ensures |r| == |ids| && forall i :: 0 <= i < |ids| ==> r[i] == m[ids[i]]
  {
    if ids == [] then [] else [m[ids[0]]] + Copy(m, ids[1..])
  }

  /** By creation time, and among equal ones by identifier. */
  ghost predicate OldestFirst(ids: seq<string>, tasks: seq<Task>)
    requires |tasks| == |ids|
  {
    forall i, j :: 0 <= i < j < |ids| ==>
      || tasks[i].createdAt < tasks[j].createdAt
      || (tasks[i].createdAt == tasks[j].createdAt && Less(ids[i], ids[j]))
  }

  lemma CopiedOldestFirst(s: C.State, ids: seq<string>, tasks: seq<Task>)
    requires Sorted(C.Older(s), ids) && |tasks| == |ids|
    requires forall i :: 0 <= i < |ids| ==> ids[i] in s.tasks && tasks[i] == s.tasks[ids[i]]
    ensures OldestFirst(ids, tasks)
  {
    forall i, j | 0 <= i < j < |ids|
      ensures
        || tasks[i].createdAt < tasks[j].createdAt
        || (tasks[i].createdAt == tasks[j].createdAt && Less(ids[i], ids[j]))
    {
      assert C.Older(s)(ids[i], ids[j]);
      assert C.CreatedAt(s, ids[i]) == tasks[i].createdAt && C.CreatedAt(s, ids[j]) == tasks[j].createdAt;
    }
  }

  class Scheduler {
    const store: MemoryStore
    const config: C.Config

    constructor (store: MemoryStore, config: C.Config)
      ensures this.store == store && this.config == config
    {
      this.store, this.config := store, config;
    }

    method RefreshNodeStatesLocked(now: Time)
      modifies store
      ensures store.View() == C.Refresh(config, old(store.View()), now)
    {
      ghost var before := store.View();
      ghost var after := C.Refresh(config, before, now);
      var remaining := store.nodes.Keys;
      while remaining != {}
        invariant remaining <= before.nodes.Keys
        invariant store.View() == before.(nodes := store.nodes)
        invariant store.nodes.Keys == before.nodes.Keys
        invariant forall id :: id in before.nodes ==>
          store.nodes[id] == if id in remaining then before.nodes[id] else after.nodes[id]
      {
        var id :| id in remaining;
        var node := store.nodes[id];
        store.nodes := store.nodes[id := node.(status := config.Derive(node, now))];
        remaining := remaining - {id};
      }
      assert store.nodes == after.nodes;
    }

    /** Scans every worker once, starting at the rotation index. */
    method SelectNodeLocked() returns (chosen: Option<nat>)
      modifies store`nextNodeIndex
      ensures chosen == C.Select(config, old(store.View()))
      ensures chosen.None? ==> store.View() == old(store.View())
      ensures chosen.Some? ==>
        store.View() == old(store.View()).(nextNodeIndex := C.Successor(store.View(), chosen.value))
    {
      if |store.nodeOrder| == 0 { return None; }
      ghost var before := store.View();
      var compare := config.Strategy();
      C.ScanIsModular(store.View(), 0);
      var start := store.nextNodeIndex % |store.nodeOrder|;
      var best: Option<nat> := None;
      var offset := 0;
      while offset < |store.nodeOrder|
        invariant 0 <= offset <= |store.nodeOrder|
        invariant store.View() == before
        invariant best == C.Best(compare, before, offset)
      {
        C.ScanIsModular(store.View(), offset);
        var index := (start + offset) % |store.nodeOrder|;
        var id := store.nodeOrder[index];
        if id in store.nodes && store.nodes[id].status != Offline && !Full(store.nodes[id]) {
          if best.None? || compare(store.nodes[id], store.nodes[store.nodeOrder[best.value]]) < 0 {
            best := Some(index);
          }
        }
        offset := offset + 1;
      }
      if best.Some? {
        C.ScanIsModular(store.View(), best.value);
        store.nextNodeIndex := (best.value + 1) % |store.nodeOrder|;
      }
      return best;
    }

    method AssignTaskLocked(id: string, now: Time) returns (placed: bool)
      modifies store
      ensures
        var s := old(store.View());
        var chosen := C.Select(config, s);
        && placed == (C.IsPending(s, id) && chosen.Some?)
        && store.View() == if placed then C.Assign(config, s, id, chosen.value, now) else s
    {
      if id !in store.tasks || store.tasks[id].status != Pending { return false; }
      var chosen := SelectNodeLocked();
      if chosen.None? { return false; }
      var worker := store.nodeOrder[chosen.value];
      var node := store.nodes[worker];
      store.tasks := store.tasks[id := store.tasks[id].(
        assignedWorker := node.id, status := Running, message := "assigned to worker", startedAt := Some(now))];
      node := node.(runningTasks := node.runningTasks + 1);
      store.nodes := store.nodes[worker := node.(status := config.Derive(node, now))];
      return true;
    }

    /** Pending tasks in whatever order the map yields them. */
    method CollectPending() returns (pending: seq<string>)
      ensures Distinct(pending) && forall id :: id in pending <==> id in C.PendingIDs(store.View())
    {
      ghost var s := store.View();
      pending := [];
      var remaining := store.tasks.Keys;
      while remaining != {}
        invariant remaining <= store.tasks.Keys && Distinct(pending)
        invariant forall id :: id in pending <==> id in C.PendingIDs(s) && id !in remaining
      {
        var id :| id in remaining;
        remaining := remaining - {id};
        if store.tasks[id].status == Pending { pending := pending + [id]; }
      }
    }

    /** Collects, sorts, and assigns in turn until no worker can take a task. */
    method DispatchPendingLocked(now: Time)
      modifies store
      ensures store.View() == C.DispatchQueue(config, old(store.View()), C.PendingQueue(old(store.View())), now)
    {
      ghost var before := store.View();
      var pending := CollectPending();
      C.OlderIsStrictTotal(before);
      var queue := Sort(C.Older(store.View()), pending);
      assert (set id | id in pending) == C.PendingIDs(before);
      SortedUnique(C.Older(before), queue, C.PendingQueue(before), C.PendingIDs(before));
      AssignInOrder(queue, now);
    }

    method AssignInOrder(queue: seq<string>, now: Time)
      modifies store
      ensures store.View() == C.DispatchQueue(config, old(store.View()), queue, now)
    {
      ghost var before := store.View();
      var k := 0;
      while k < |queue|
        invariant 0 <= k <= |queue|
        invariant C.DispatchQueue(config, store.View(), queue[k..], now)
          == C.DispatchQueue(config, before, queue, now)
      {
        assert queue[k..][1..] == queue[k + 1..];
        var placed := AssignTaskLocked(queue[k], now);
        if !placed { return; }
        k := k + 1;
      }
    }

    method DispatchPending(now: Time)
      modifies store
      ensures store.View() == C.DispatchPending(config, old(store.View()), now)
    {
      RefreshNodeStatesLocked(now);
      DispatchPendingLocked(now);
    }

    method RefreshNodeStates(now: Time)
      modifies store
      ensures store.View() == C.Refresh(config, old(store.View()), now)
    {
      RefreshNodeStatesLocked(now);
    }

    /** The counters are the sizes of the sets they name; the lists are complete and sorted. */
    method Overview(now: Time) returns (response: StatusResponse)
      modifies store
      ensures store.View() == C.Refresh(config, old(store.View()), now)
      ensures var s := store.View();
        && response.generatedAt == now
        && response.totalWorkers == |s.nodes|
        && response.activeWorkers == |OnlineIDs(s)|
        && response.pendingTasks == |C.IDsWithStatus(s, Pending)|
        && response.runningTasks == |C.IDsWithStatus(s, Running)|
        && response.completedTasks == |C.IDsWithStatus(s, Completed)|
      ensures exists ids ::
        && Enumerates(Less, ids, store.nodes.Keys)
        && |response.workers| == |ids|
        && forall i :: 0 <= i < |ids| ==> response.workers[i] == store.nodes[ids[i]]
      ensures exists ids ::
        && Enumerates(C.Older(store.View()), ids, store.tasks.Keys)
        && |response.tasks| == |ids| && OldestFirst(ids, response.tasks)
        && forall i :: 0 <= i < |ids| ==> response.tasks[i] == store.tasks[ids[i]]
    {
      RefreshNodeStatesLocked(now);
      var workerIDs, active := CollectWorkers();
      var taskIDs, pending, running, completed := CollectTasks();
      assert forall i :: 0 <= i < |workerIDs| ==> workerIDs[i] in store.nodes.Keys;
      assert forall i :: 0 <= i < |taskIDs| ==> taskIDs[i] in store.tasks.Keys;
      var workers := Copy(store.nodes, workerIDs);
      var tasks := Copy(store.tasks, taskIDs);
      CopiedOldestFirst(store.View(), taskIDs, tasks);
      response := StatusResponse(
        now, |store.nodes|, active, pending, running, completed, workers, tasks);
    }

    /** The loop over all workers: their identifiers in map order, and how many are online. */
    method CountWorkers() returns (found: seq<string>, active: nat)
      ensures Distinct(found) && forall id :: id in found <==> id in store.nodes
      ensures active == |OnlineIDs(store.View())|
    {
      found, active := [], 0;
      var remaining := store.nodes.Keys;
      ghost var online: set<string> := {};
      while remaining != {}
        invariant remaining <= store.nodes.Keys && Distinct(found)
        invariant forall id :: id in found <==> id in store.nodes && id !in remaining
        invariant online == OnlineIDs(store.View()) - remaining && active == |online|
      {
        var id :| id in remaining;
        remaining := remaining - {id};
        if store.nodes[id].status != Offline {
          active := active + 1;
          online := online + {id};
        }
        found := found + [id];
      }
    }

    method CollectWorkers() returns (ids: seq<string>, active: nat)
      ensures Enumerates(Less, ids, store.nodes.Keys)
      ensures active == |OnlineIDs(store.View())|
    {
      var found;
      found, active := CountWorkers();
      LessIsStrictTotal();
      ids := Sort(Less, found);
      assert (set id | id in found) == store.nodes.Keys;
    }

    /** The loop over all tasks: their identifiers in map order, and three counters. */
    method CountTasks() returns (found: seq<string>, pending: nat, running: nat, completed: nat)
      ensures Distinct(found) && forall id :: id in found <==> id in store.tasks
      ensures pending == Tally(store.View(), found, Pending)
      ensures running == Tally(store.View(), found, Running)
      ensures completed == Tally(store.View(), found, Completed)
    {
      found, pending, running, completed := [], 0, 0, 0;
      var remaining := store.tasks.Keys;
      ghost var s := store.View();
      while remaining != {}
        invariant remaining <= store.tasks.Keys && Distinct(found)
        invariant forall id :: id in found <==> id in store.tasks && id !in remaining
        invariant pending == Tally(s, found, Pending)
        invariant running == Tally(s, found, Running)
        invariant completed == Tally(s, found, Completed)
      {
        var id :| id in remaining;
        remaining := remaining - {id};
        match store.tasks[id].status {
          case Pending => pending := pending + 1;
          case Running => running := running + 1;
          case Completed => completed := completed + 1;
          case Failed =>
        }
        TallyExtends(s, found, id, Pending);
        TallyExtends(s, found, id, Running);
        TallyExtends(s, found, id, Completed);
        found := found + [id];
      }
    }

    method CollectTasks() returns (ids: seq<string>, pending: nat, running: nat, completed: nat)
      ensures Enumerates(C.Older(store.View()), ids, store.tasks.Keys)
      ensures pending == |C.IDsWithStatus(store.View(), Pending)|
      ensures running == |C.IDsWithStatus(store.View(), Running)|
      ensures completed == |C.IDsWithStatus(store.View(), Completed)|
    {
      var found;
      found, pending, running, completed := CountTasks();
      TallyCounts(store.View(), found, Pending);
      TallyCounts(store.View(), found, Running);
      TallyCounts(store.View(), found, Completed);
      C.OlderIsStrictTotal(store.View());
      ids := Sort(C.Older(store.View()), found);
      assert (set id | id in found) == store.tasks.Keys;
    }
  }

  class Registry {
    const store: MemoryStore
    const config: C.Config

    constructor (store: MemoryStore, config: C.Config)
      ensures this.store == store && this.config == config
    {
      this.store, this.config := store, config;
    }

    method Register(req: RegisterRequest, now: Time) returns (result: Result<Node>)
      modifies store
      ensures (store.View(), result) == C.Register(config, old(store.View()), req, now)
    {
      if req.id == "" { return Err("worker id is required"); }
      var capacity := req.capacity;
      if capacity <= 0 { capacity := 1; }
      ghost var before := store.nodes;
      if req.id !in store.nodes {
        store.nodes := store.nodes[req.id := Node(req.id, "", 0, [], 0, Offline, 0)];
        store.nodeOrder := store.nodeOrder + [req.id];
      }
      var node := store.nodes[req.id].(
        address := req.address, capacity := capacity, labels := req.labels, lastHeartbeat := now);
      node := node.(status := config.Derive(node, now));
      store.nodes := store.nodes[req.id := node];
      assert store.nodes == before[req.id := node];
      return Ok(node);
    }

    method Heartbeat(req: HeartbeatRequest, now: Time) returns (result: Result<Node>)
      modifies store
      ensures (store.View(), result) == C.Heartbeat(config, old(store.View()), req, now)
    {
      if req.id == "" { return Err("worker id is required"); }
      if req.id !in store.nodes { return Err("worker not found"); }
      var running := req.runningTasks;
      if running < 0 { running := 0; }
      var node := store.nodes[req.id].(runningTasks := running, lastHeartbeat := now);
      node := node.(status := config.Derive(node, now));
      store.nodes := store.nodes[req.id := node];
      return Ok(node);
    }

    method Get(id: string) returns (node: Option<Node>)
      ensures node == if id in store.nodes then Some(store.nodes[id]) else None
    {
      return if id in store.nodes then Some(store.nodes[id]) else None;
    }
  }
}
