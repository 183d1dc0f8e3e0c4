/** The scheduler's shared state and what each write section does to it. */
module Cluster {
  import opened Wrappers
  import opened Machine
  import opened Order
  import opened Naming
  import opened Model
  import opened Strategy

  datatype State = State(
    nodes: map<string, Node>, tasks: map<string, Task>,
    nodeOrder: seq<string>, nextNodeIndex: nat, taskCounter: Uint64)

  const INITIAL: State := State(map[], map[], [], 0, 0)

  /** `compare` is the configured strategy; the scheduler falls back on least-loaded. */
  datatype Config = Config(compare: Option<Comparison>, offlineAfter: int) {
    function Strategy(): Comparison { if compare.Some? then compare.value else LeastLoaded }

    function Derive(node: Node, now: Time): NodeState { DeriveNodeState(Some(node), now, offlineAfter) }
  }

  // ----- Registry -----

  function Register(c: Config, s: State, req: RegisterRequest, now: Time): (r: (State, Result<Node>)) {
    if req.id == "" then (s, Err("worker id is required")) else
      var known := req.id in s.nodes;
      var before := if known then s.nodes[req.id] else Node(req.id, "", 0, [], 0, Offline, 0);
      var updated := before.(
        address := req.address, capacity := if req.capacity <= 0 then 1 else req.capacity,
        labels := req.labels, lastHeartbeat := now);
      var node := updated.(status := c.Derive(updated, now));
      (s.(nodes := s.nodes[req.id := node],
          nodeOrder := if known then s.nodeOrder else s.nodeOrder + [req.id]), Ok(node))
  }

  function Heartbeat(c: Config, s: State, req: HeartbeatRequest, now: Time): (r: (State, Result<Node>)) {
    if req.id == "" then (s, Err("worker id is required"))
    else if req.id !in s.nodes then (s, Err("worker not found"))
    else
      var updated := s.nodes[req.id].(runningTasks := Max(0, req.runningTasks), lastHeartbeat := now);
      var node := updated.(status := c.Derive(updated, now));
      (s.(nodes := s.nodes[req.id := node]), Ok(node))
  }

  function Refresh(c: Config, s: State, now: Time): (r: State) {
    s.(nodes := map id | id in s.nodes :: s.nodes[id].(status := c.Derive(s.nodes[id], now)))
  }

  // ----- Tasks -----

  function NewTask(id: string, req: SubmitRequest, now: Time): (t: Task) {
    Task(id, req.model, req.operation, req.payloadRef, req.metadata, Pending, "", "queued", now, None, None)
  }

  predicate SubmitAccepted(req: SubmitRequest) { req.model != "" && req.operation != "" }

  /** The write section of `Submit`. The counter is a 64-bit unsigned register. */
  function Submit(s: State, req: SubmitRequest, now: Time): (r: (State, Result<string>)) {
    if req.model == "" then (s, Err("model is required"))
    else if req.operation == "" then (s, Err("operation is required"))
    else
      var counter := Increment(s.taskCounter);
      var id := FormatTaskID(counter);
      (s.(taskCounter := counter, tasks := s.tasks[id := NewTask(id, req, now)]), Ok(id))
  }

  function FinishedTask(t: Task, req: CompleteRequest, now: Time): (r: Task) {
    t.(completedAt := Some(now),
       status := if req.success then Completed else Failed,
       message := if req.message != "" then req.message else if req.success then "completed" else "failed")
  }

  /** Releasing a slot never takes the counter below zero. */
  function ReleaseSlot(nodes: map<string, Node>, worker: string): (r: map<string, Node>) {
    if worker != "" && worker in nodes && nodes[worker].runningTasks > 0
    then nodes[worker := nodes[worker].(runningTasks := nodes[worker].runningTasks - 1)]
    else nodes
  }

  /** The write section of `Complete`. */
  function Complete(s: State, id: string, req: CompleteRequest, now: Time): (r: (State, Result<()>)) {
    if id == "" then (s, Err("task id is required"))
    else if id !in s.tasks then (s, Err("task not found"))
    else
      var t := s.tasks[id];
      (s.(tasks := s.tasks[id := FinishedTask(t, req, now)],
          nodes := if t.status == Running then ReleaseSlot(s.nodes, t.assignedWorker) else s.nodes), Ok(()))
  }

  // ----- Dispatch -----

  predicate Eligible(n: Node) { n.status != Offline && !Full(n) }

  predicate EligibleAt(s: State, i: nat)
    requires i < |s.nodeOrder|
  {
    s.nodeOrder[i] in s.nodes && Eligible(s.nodes[s.nodeOrder[i]])
  }

  function NodeAt(s: State, i: nat): (n: Node)
    requires i < |s.nodeOrder| && s.nodeOrder[i] in s.nodes
  {
    s.nodes[s.nodeOrder[i]]
  }

  function Start(s: State): (i: nat)
    requires s.nodeOrder != []
    ensures i < |s.nodeOrder|
  {
    Remainder(s.nextNodeIndex, |s.nodeOrder|)
  }

  /** The index visited at a given offset of the circular scan. */
  function Visited(s: State, offset: nat): (i: nat)
    requires offset < |s.nodeOrder|
    ensures i < |s.nodeOrder|
  {
    if Start(s) + offset < |s.nodeOrder| then Start(s) + offset else Start(s) + offset - |s.nodeOrder|
  }

  function Successor(s: State, i: nat): (j: nat)
    requires i < |s.nodeOrder|
    ensures j < |s.nodeOrder|
  {
    if i + 1 == |s.nodeOrder| then 0 else i + 1
  }

  /** All three agree with the remainders the source computes. */
  lemma ScanIsModular(s: State, offset: nat)
    requires offset < |s.nodeOrder|
    ensures Start(s) == s.nextNodeIndex % |s.nodeOrder|
    ensures Visited(s, offset) == (Start(s) + offset) % |s.nodeOrder|
    ensures Successor(s, offset) == (offset + 1) % |s.nodeOrder|
  {
    var n := |s.nodeOrder|;
    RemainderIsModulo(s.nextNodeIndex, n);
    RemainderIsModulo(Start(s) + offset, n);
    RemainderIsModulo(offset + 1, n);
  }

  /** The best index among the first `k` visited: a later index replaces it only when strictly better. */
  function Best(compare: Comparison, s: State, k: nat): (r: Option<nat>)
    requires k <= |s.nodeOrder|
    ensures r.Some? ==> r.value < |s.nodeOrder| && EligibleAt(s, r.value)
  {
    if k == 0 then None else
      var before := Best(compare, s, k - 1);
      var i := Visited(s, k - 1);
      if !EligibleAt(s, i) then before
      else if before.None? || compare(NodeAt(s, i), NodeAt(s, before.value)) < 0 then Some(i)
      else before
  }

  function Select(c: Config, s: State): (r: Option<nat>)
    ensures r.Some? ==> r.value < |s.nodeOrder| && EligibleAt(s, r.value)
  {
    if s.nodeOrder == [] then None else Best(c.Strategy(), s, |s.nodeOrder|)
  }

  /** Gives task `id` to the worker at index `i` and moves the rotation just past it. */
  function Assign(c: Config, s: State, id: string, i: nat, now: Time): (r: State)
    requires i < |s.nodeOrder| && s.nodeOrder[i] in s.nodes && id in s.tasks
  {
    var node := NodeAt(s, i);
    var loaded := node.(runningTasks := node.runningTasks + 1);
    s.(tasks := s.tasks[id := s.tasks[id].(
                  assignedWorker := node.id, status := Running,
                  message := "assigned to worker", startedAt := Some(now))],
       nodes := s.nodes[s.nodeOrder[i] := loaded.(status := c.Derive(loaded, now))],
       nextNodeIndex := Successor(s, i))
  }

  predicate HasStatus(s: State, id: string, status: TaskState) { id in s.tasks && s.tasks[id].status == status }

  predicate IsPending(s: State, id: string) { HasStatus(s, id, Pending) }

  /** Assigns tasks in queue order until one finds no worker. */
  function DispatchQueue(c: Config, s: State, queue: seq<string>, now: Time): (r: State)
    decreases |queue|
  {
    if queue == [] || !IsPending(s, queue[0]) then s else
      var chosen := Select(c, s);
      if chosen.None? then s
      else DispatchQueue(c, Assign(c, s, queue[0], chosen.value, now), queue[1..], now)
  }

  function IDsWithStatus(s: State, status: TaskState): (ids: set<string>) {
    set id | id in s.tasks && HasStatus(s, id, status)
  }

  function PendingIDs(s: State): (ids: set<string>) { IDsWithStatus(s, Pending) }

  function CreatedAt(s: State, id: string): (t: Time) { if id in s.tasks then s.tasks[id].createdAt else 0 }

  /** The comparator handed to the sort: creation time, then identifier. */
  function Older(s: State): (lt: (string, string) -> bool) {
    (a, b) => if CreatedAt(s, a) == CreatedAt(s, b) then Less(a, b) else CreatedAt(s, a) < CreatedAt(s, b)
  }

  lemma OlderIsStrictTotal(s: State)
    ensures StrictTotalOrder(Older(s))
  {
    LessIsStrictTotal();
    var lt := Older(s);
    forall a: string, b: string, d: string | lt(a, b) && lt(b, d) ensures lt(a, d) {
      if CreatedAt(s, a) == CreatedAt(s, b) == CreatedAt(s, d) { LessTransitive(a, b, d); }
    }
  }

  /** Pending tasks, oldest first: the one list the sort can return. */
  ghost function PendingQueue(s: State): (q: seq<string>)
    ensures Enumerates(Older(s), q, PendingIDs(s)) && Distinct(q)
  {
    OlderIsStrictTotal(s);
    var q := SortSet(Older(s), PendingIDs(s));
    SortedDistinct(Older(s), q);
    q
  }

  ghost function DispatchPending(c: Config, s: State, now: Time): (r: State) {
    var refreshed := Refresh(c, s, now);
    DispatchQueue(c, refreshed, PendingQueue(refreshed), now)
  }

  // ----- Runs -----

  /** One write section of the store, with the time its caller read from the clock. */
  datatype Step =
    | RegisterStep(register: RegisterRequest, now: Time)
    | HeartbeatStep(heartbeat: HeartbeatRequest, now: Time)
    | SubmitStep(submit: SubmitRequest, now: Time)
    | CompleteStep(id: string, complete: CompleteRequest, now: Time)
    | DispatchStep(now: Time)
    | RefreshStep(now: Time)

  ghost function Next(c: Config, s: State, step: Step): (r: State) {
    match step
    case RegisterStep(req, now) => Register(c, s, req, now).0
    case HeartbeatStep(req, now) => Heartbeat(c, s, req, now).0
    case SubmitStep(req, now) => Submit(s, req, now).0
    case CompleteStep(id, req, now) => Complete(s, id, req, now).0
    case DispatchStep(now) => DispatchPending(c, s, now)
    case RefreshStep(now) => Refresh(c, s, now)
  }

  /** The state after any interleaving of write sections, each with any clock reading. */
  ghost function Exec(c: Config, steps: seq<Step>): (r: State) {
    if steps == [] then INITIAL else Next(c, Exec(c, steps[..|steps| - 1]), steps[|steps| - 1])
  }

  lemma ExecExtends(c: Config, steps: seq<Step>, step: Step)
    ensures Exec(c, steps + [step]) == Next(c, Exec(c, steps), step)
  {
    assert (steps + [step])[..|steps|] == steps;
  }

  lemma ExecSubmit(c: Config, steps: seq<Step>, req: SubmitRequest, now: Time)
    ensures Exec(c, steps + [SubmitStep(req, now)]) == Submit(Exec(c, steps), req, now).0
  {
    ExecExtends(c, steps, SubmitStep(req, now));
  }

  lemma ExecHeartbeat(c: Config, steps: seq<Step>, req: HeartbeatRequest, now: Time)
    ensures Exec(c, steps + [HeartbeatStep(req, now)]) == Heartbeat(c, Exec(c, steps), req, now).0
  {
    ExecExtends(c, steps, HeartbeatStep(req, now));
  }

  lemma NextDispatch(c: Config, s: State, now: Time)
    ensures Next(c, s, DispatchStep(now)) == DispatchPending(c, s, now)
  {
  }

  lemma ExecDispatch(c: Config, steps: seq<Step>, now: Time)
    ensures Exec(c, steps + [DispatchStep(now)]) == DispatchPending(c, Exec(c, steps), now)
  {
    ExecExtends(c, steps, DispatchStep(now));
    NextDispatch(c, Exec(c, steps), now);
  }

  /** Some run ends in this state. */
  ghost predicate Reachable(c: Config, s: State) { exists steps: seq<Step> :: Exec(c, steps) == s }

  lemma ReachInitial(c: Config)
    ensures Reachable(c, INITIAL)
  {
    assert Exec(c, []) == INITIAL;
  }

  lemma ReachNext(c: Config, s: State, step: Step)
    requires Reachable(c, s)
    ensures Reachable(c, Next(c, s, step))
  {
    var steps :| Exec(c, steps) == s;
    ExecExtends(c, steps, step);
  }

  lemma ReachRegister(c: Config, s: State, req: RegisterRequest, now: Time)
    requires Reachable(c, s)
    ensures Reachable(c, Register(c, s, req, now).0)
  {
    ReachNext(c, s, RegisterStep(req, now));
  }

  lemma ReachHeartbeat(c: Config, s: State, req: HeartbeatRequest, now: Time)
    requires Reachable(c, s)
    ensures Reachable(c, Heartbeat(c, s, req, now).0)
  {
    ReachNext(c, s, HeartbeatStep(req, now));
  }

  lemma ReachSubmit(c: Config, s: State, req: SubmitRequest, now: Time)
    requires Reachable(c, s)
    ensures Reachable(c, Submit(s, req, now).0)
  {
    ReachNext(c, s, SubmitStep(req, now));
  }

  predicate AcceptedSubmit(step: Step) { step.SubmitStep? && SubmitAccepted(step.submit) }

  function Submissions(steps: seq<Step>): (n: nat)
    ensures n <= |steps|
  {
    if steps == [] then 0
    else Submissions(steps[..|steps| - 1]) + if AcceptedSubmit(steps[|steps| - 1]) then 1 else 0
  }
}
