/** What workers are told about their assignments: the snapshots of the polling stream and of the TCP deliverer. */
module Delivery {
  import opened Wrappers
  import opened Order
  import opened Model
  import opened Cluster
  import opened Counts
  import opened Store

  // ----- Snapshots -----

  function StartedAt(s: State, id: string): (t: Option<Time>) {
    if id in s.tasks then s.tasks[id].startedAt else None
  }

  /** The stream's comparator: tasks without a start time first, then by start time, then by identifier. */
  function StartedEarlier(s: State): (lt: (string, string) -> bool) {
    (a, b) =>
      var x, y := StartedAt(s, a), StartedAt(s, b);
      if x.None? && y.None? then Less(a, b)
      else if x.None? then true
      else if y.None? then false
      else if x.value == y.value then Less(a, b)
      else x.value < y.value
  }

  lemma StartedEarlierIsStrictTotal(s: State)
    ensures StrictTotalOrder(StartedEarlier(s))
  {
    LessIsStrictTotal();
    var lt := StartedEarlier(s);
    forall a: string, b: string, d: string | lt(a, b) && lt(b, d) ensures lt(a, d) {
      if StartedAt(s, a) == StartedAt(s, b) == StartedAt(s, d) { LessTransitive(a, b, d); }
    }
  }

  /** The running tasks of one worker, in the order the stream sends them. */
  ghost function RunningAssignments(s: State, worker: string): (ids: seq<string>)
    ensures Enumerates(StartedEarlier(s), ids, RunningOn(s, worker))
  {
    StartedEarlierIsStrictTotal(s);
    SortSet(StartedEarlier(s), RunningOn(s, worker))
  }

  method CollectAssignments(store: MemoryStore, worker: string) returns (ids: seq<string>)
    ensures ids == RunningAssignments(store.View(), worker)
  {
    ghost var s := store.View();
    var found: seq<string> := [];
    var remaining := store.tasks.Keys;
    while remaining != {}
      invariant remaining <= store.tasks.Keys && Distinct(found)
      invariant forall id :: id in found <==> id in RunningOn(s, worker) && id !in remaining
    {
      var id :| id in remaining;
      remaining := remaining - {id};
      if store.tasks[id].assignedWorker == worker && store.tasks[id].status == Running { found := found + [id]; }
    }
    StartedEarlierIsStrictTotal(s);
    ids := Sort(StartedEarlier(store.View()), found);
    SortedUnique(StartedEarlier(s), ids, RunningAssignments(s, worker), RunningOn(s, worker));
  }

  datatype Assignment = Assignment(taskID: string, payload: string, address: string)

  ghost function Deliverable(s: State): (ids: set<string>) {
    set id | id in s.tasks && s.tasks[id].status == Running && s.tasks[id].assignedWorker != ""
          && s.tasks[id].assignedWorker in s.nodes && s.nodes[s.tasks[id].assignedWorker].address != ""
  }

  function AddressOf(s: State, id: string): (a: string) {
    if id in s.tasks && s.tasks[id].assignedWorker in s.nodes then s.nodes[s.tasks[id].assignedWorker].address else ""
  }

  /** What is sent for a task: its own payload, to the address of the worker it was assigned to. */
  function ItemFor(s: State, id: string): (item: Assignment) {
    Assignment(id, if id in s.tasks then s.tasks[id].payloadRef else "", AddressOf(s, id))
  }

  function ByAddress(s: State): (lt: (string, string) -> bool) {
    (a, b) => if AddressOf(s, a) == AddressOf(s, b) then Less(a, b) else Less(AddressOf(s, a), AddressOf(s, b))
  }

  lemma ByAddressIsStrictTotal(s: State)
    ensures StrictTotalOrder(ByAddress(s))
  {
    LessIsStrictTotal();
    var lt := ByAddress(s);
    forall a: string, b: string, d: string | lt(a, b) && lt(b, d) ensures lt(a, d) {
      var x, y, z := AddressOf(s, a), AddressOf(s, b), AddressOf(s, d);
      if x == y == z {
        LessTransitive(a, b, d);
      } else if x != y && y != z {
        LessTransitive(x, y, z);
        LessIrreflexive(x);
      }
    }
  }

  /** One delivery round: every running task whose worker has an address, each once, sorted by address. */
  method SnapshotAssignments(store: MemoryStore) returns (items: seq<Assignment>)
    ensures exists ids ::
      && Enumerates(ByAddress(store.View()), ids, Deliverable(store.View()))
      && |items| == |ids|
      && forall i :: 0 <= i < |ids| ==> items[i] == ItemFor(store.View(), ids[i])
    ensures forall i, j :: 0 <= i < j < |items| ==>
      || Less(items[i].address, items[j].address)
      || (items[i].address == items[j].address && Less(items[i].taskID, items[j].taskID))
  {
    ghost var s := store.View();
    var found: seq<string> := [];
    var remaining := store.tasks.Keys;
    while remaining != {}
      invariant remaining <= store.tasks.Keys && Distinct(found)
      invariant forall id :: id in found <==> id in Deliverable(s) && id !in remaining
    {
      var id :| id in remaining;
      remaining := remaining - {id};
      var t := store.tasks[id];
      if t.status == Running && t.assignedWorker != "" {
        if t.assignedWorker in store.nodes && store.nodes[t.assignedWorker].address != "" { found := found + [id]; }
      }
    }
    ByAddressIsStrictTotal(s);
    var ids := Sort(ByAddress(store.View()), found);
    assert (set id | id in found) == Deliverable(s);
    var tasks, nodes := store.tasks, store.nodes;
    items := [];
    for i := 0 to |ids|
      invariant |items| == i
      invariant forall j :: 0 <= j < i ==> items[j] == ItemFor(s, ids[j])
    {
      assert ids[i] in Deliverable(s);
      items := items + [Assignment(ids[i], tasks[ids[i]].payloadRef, nodes[tasks[ids[i]].assignedWorker].address)];
    }
    assert forall i, j :: 0 <= i < j < |ids| ==> ByAddress(s)(ids[i], ids[j]);
  }
}
