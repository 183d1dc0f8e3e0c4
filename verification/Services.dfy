/** The service objects behind the HTTP and gRPC endpoints. */
module Services {
  import opened Wrappers
  import opened Machine
  import opened Naming
  import opened Model
  import C = Cluster
  import opened Store
  import opened Calls
  import I = Invariants
  import H = History
  import R = Records

  class NodeService {
    const registry: Registry
    const scheduler: Scheduler

    /** Both parts share one store and one offline threshold. */
    ghost predicate Wired() {
      registry.store == scheduler.store && registry.config == scheduler.config
    }

    constructor (registry: Registry, scheduler: Scheduler)
      ensures this.registry == registry && this.scheduler == scheduler
    {
      this.registry, this.scheduler := registry, scheduler;
    }

    method Register(req: RegisterRequest, now: Time) returns (result: Result<Node>)
      requires Wired()
      modifies registry.store
      ensures registry.store.View() == Invoke(registry.config, old(registry.store.View()), RegisterCall(req), now)
      ensures if req.id == "" then result == Err("worker id is required") else result.Ok?
      ensures result.Ok? ==> req.id in registry.store.nodes && result.value == registry.store.nodes[req.id]
      ensures result.Ok? ==>
        var n := result.value;
        && n.address == req.address && n.labels == req.labels && n.lastHeartbeat == now
        && n.capacity == if req.capacity <= 0 then 1 else req.capacity
    {
      var written := registry.Register(req, now);
      if written.Err? { return written; }
      I.DispatchKeepsKeys(scheduler.config, registry.store.View(), now);
      R.DispatchKeepsNodes(scheduler.config, registry.store.View(), now);
      scheduler.DispatchPending(now);
      var node := registry.Get(req.id);
      return if node.Some? then Ok(node.value) else Err("worker not found");
    }

    method Heartbeat(req: HeartbeatRequest, now: Time) returns (result: Result<Node>)
      requires Wired()
      modifies registry.store
      ensures registry.store.View() == Invoke(registry.config, old(registry.store.View()), HeartbeatCall(req), now)
      ensures result.Ok? <==> req.id != "" && req.id in old(registry.store.nodes)
      ensures result.Ok? ==> req.id in registry.store.nodes && result.value == registry.store.nodes[req.id]
      ensures result.Ok? ==>
        result.value.lastHeartbeat == now && R.SameStatic(old(registry.store.nodes)[req.id], result.value)
    {
      var written := registry.Heartbeat(req, now);
      if written.Err? { return written; }
      I.DispatchKeepsKeys(scheduler.config, registry.store.View(), now);
      R.DispatchKeepsNodes(scheduler.config, registry.store.View(), now);
      scheduler.DispatchPending(now);
      var node := registry.Get(req.id);
      return if node.Some? then Ok(node.value) else Err("worker not found");
    }
  }

  class TaskService {
    const store: MemoryStore
    const scheduler: Scheduler

    ghost predicate Wired() { store == scheduler.store }

    constructor (store: MemoryStore, scheduler: Scheduler)
      ensures this.store == store && this.scheduler == scheduler
    {
      this.store, this.scheduler := store, scheduler;
    }

    method Submit(req: SubmitRequest, now: Time) returns (result: Result<Task>)
      requires Wired()
      modifies store
      ensures store.View() == Invoke(scheduler.config, old(store.View()), SubmitCall(req), now)
      ensures if req.model == "" then result == Err("model is required")
              else if req.operation == "" then result == Err("operation is required") else result.Ok?
      ensures
        var id := FormatTaskID(Increment(old(store.taskCounter)));
        result.Ok? ==> id in store.tasks && result.value == store.tasks[id] && result.value.id == id
      ensures result.Ok? ==>
        var t := result.value;
        && t.model == req.model && t.operation == req.operation && t.payloadRef == req.payloadRef
        && t.metadata == req.metadata && t.createdAt == now
    {
      if req.model == "" { return Err("model is required"); }
      if req.operation == "" { return Err("operation is required"); }
      store.taskCounter := Increment(store.taskCounter);
      var id := FormatTaskID(store.taskCounter);
      store.tasks := store.tasks[id := C.NewTask(id, req, now)];
      I.DispatchKeepsKeys(scheduler.config, store.View(), now);
      H.DispatchProgress(scheduler.config, store.View(), now);
      scheduler.DispatchPending(now);
      var task := Get(id);
      return if task.Some? then Ok(task.value) else Err("task not found");
    }

    /** The write section of `Complete`. */
    method RecordResult(id: string, req: CompleteRequest, now: Time) returns (written: Result<()>)
      modifies store
      ensures (store.View(), written) == C.Complete(old(store.View()), id, req, now)
      ensures written.Ok? ==> id in store.tasks && R.Outcome(store.tasks[id], req, now)
    {
      if id == "" { return Err("task id is required"); }
      if id !in store.tasks { return Err("task not found"); }
      var task := store.tasks[id];
      var wasRunning := task.status == Running;
      task := task.(completedAt := Some(now), message := req.message);
      if req.success {
        task := task.(status := Completed);
        if task.message == "" { task := task.(message := "completed"); }
      } else {
        task := task.(status := Failed);
        if task.message == "" { task := task.(message := "failed"); }
      }
      store.tasks := store.tasks[id := task];
      if wasRunning && task.assignedWorker != "" && task.assignedWorker in store.nodes {
        var node := store.nodes[task.assignedWorker];
        if node.runningTasks > 0 {
          store.nodes := store.nodes[task.assignedWorker := node.(runningTasks := node.runningTasks - 1)];
        }
      }
      return Ok(());
    }

    method Complete(id: string, req: CompleteRequest, now: Time) returns (result: Result<Task>)
      requires Wired()
      modifies store
      ensures store.View() == Invoke(scheduler.config, old(store.View()), CompleteCall(id, req), now)
      ensures result.Ok? <==> id != "" && id in old(store.tasks)
      ensures id == "" ==> result == Err("task id is required")
      ensures result.Ok? ==> id in store.tasks && result.value == store.tasks[id] && R.Outcome(result.value, req, now)
    {
      var written := RecordResult(id, req, now);
      if written.Err? { return Err(written.message); }
      I.DispatchKeepsKeys(scheduler.config, store.View(), now);
      R.DispatchLeavesOutcome(scheduler.config, store.View(), now, id);
      scheduler.DispatchPending(now);
      var current := Get(id);
      return if current.Some? then Ok(current.value) else Err("task not found");
    }

    method Get(id: string) returns (task: Option<Task>)
      ensures task == if id in store.tasks then Some(store.tasks[id]) else None
    {
      return if id in store.tasks then Some(store.tasks[id]) else None;
    }
  }
}
