/** The objects of the data plane: completion queue, transport and worker session. */
module Sessions {
  import opened Wrappers
  import opened Machine
  import opened Messages
  import opened Links
  import F = Fabric
  import M = Memory
  import opened Buffers

  class CompletionQueue {
    const depth: nat
    var queue: seq<F.Completion>

    constructor (depth: nat)
      ensures this.depth == depth && queue == []
    {
      this.depth, queue := depth, [];
    }

    method Push(e: F.Completion)
      modifies this
      ensures queue == F.PushCompletion(depth, old(queue), e)
    {
      if depth > 0 && |queue| >= depth { queue := queue[1..]; }
      queue := queue + [e];
    }

    /** After the wait: the oldest completion, or nothing when the wait timed out. */
    method Poll() returns (e: Option<F.Completion>)
      modifies this
      ensures if old(queue) == [] then e == None && queue == []
              else e == Some(old(queue)[0]) && queue == old(queue)[1..]
    {
      if queue == [] { return None; }
      e := Some(queue[0]);
      queue := queue[1..];
    }
  }

  class TransportRdma {
    const capacity: nat
    var inboxes: map<string, seq<F.Message>>
    ghost var boxes: F.Boxes

    /** `boxes` adds to each mailbox the history of what was sent to and removed from it. */
    ghost predicate Valid()
      reads this
    {
      inboxes.Keys == boxes.Keys && forall node :: node in inboxes ==> inboxes[node] == boxes[node].inbox
    }

    constructor (capacity: nat)
      ensures Valid() && this.capacity == capacity && boxes == map[]
    {
      this.capacity, inboxes, boxes := capacity, map[], map[];
    }

    method TryEmplace(node: string)
      requires Valid()
      modifies this
      ensures Valid() && boxes == F.Touch(old(boxes), node)
    {
      boxes := F.Touch(boxes, node);
      if node !in inboxes { inboxes := inboxes[node := []]; }
    }

    method Connect(qp: QueuePair)
      requires Valid()
      modifies this
      ensures Valid() && boxes == F.Touch(F.Touch(old(boxes), qp.local), qp.remote)
    {
      TryEmplace(qp.local);
      TryEmplace(qp.remote);
    }

    method PostSend(qp: QueuePair, message: F.Message, cq: CompletionQueue)
      requires Valid()
      modifies this, cq
      ensures Valid()
      ensures
        var (sent, e) := F.PostSend(capacity, qp.state, old(boxes), qp.local, qp.remote, message);
        boxes == sent && cq.queue == F.PushCompletion(cq.depth, old(cq.queue), e)
      ensures qp.state != ReadyToSend ==>
        var e := F.Completion(message.workRequest, false, message.operation, qp.local, qp.remote,
                              "queue pair is not ready to send", 0);
        boxes == old(boxes) && cq.queue == F.PushCompletion(cq.depth, old(cq.queue), e)
      ensures qp.state == ReadyToSend ==>
        var from := if message.source == "" then qp.local else message.source;
        && F.HistoryOf(boxes, qp.remote)
           == F.HistoryOf(old(boxes), qp.remote) + [message.(source := from, destination := qp.remote)]
        && forall node :: node != qp.remote ==> F.HistoryOf(boxes, node) == F.HistoryOf(old(boxes), node)
    {
      if qp.state != ReadyToSend {
        cq.Push(F.Completion(message.workRequest, false, message.operation, qp.local, qp.remote, F.NOT_READY, 0));
        return;
      }
      var m := message;
      if m.source == "" { m := m.(source := qp.local); }
      m := m.(destination := qp.remote);
      TryEmplace(qp.remote);
      var inbox := inboxes[qp.remote];
      if capacity > 0 && |inbox| >= capacity { inbox := inbox[1..]; }
      inbox := inbox + [m];
      inboxes := inboxes[qp.remote := inbox];
      boxes := boxes[qp.remote := F.Deposit(capacity, boxes[qp.remote], m)];
      cq.Push(F.Completion(
        message.workRequest, true, message.operation, qp.local, qp.remote, F.SENT, |message.payload|));
    }

    method PollReceive(node: string) returns (m: Option<F.Message>)
      requires Valid()
      modifies this
      ensures Valid()
      ensures
        var touched := F.Touch(old(boxes), node);
        if touched[node].inbox == [] then m == None && boxes == touched
        else m == Some(touched[node].inbox[0]) && boxes == touched[node := F.Withdraw(touched[node])]
    {
      TryEmplace(node);
      if inboxes[node] == [] { return None; }
      m := Some(inboxes[node][0]);
      boxes := boxes[node := F.Withdraw(boxes[node])];
      inboxes := inboxes[node := inboxes[node][1..]];
    }
  }

  datatype SubmissionResult = SubmissionResult(taskId: string, success: bool, detail: string, workRequest: Uint64)

  class WorkerSession {
    const node: string
    const transport: TransportRdma?
    const completions: CompletionQueue
    const registry: MemoryRegistry
    const pool: BufferPool
    var peers: map<string, Connection>
    var nextRequest: Uint64
    var metrics: F.Metrics
    ghost var issued: nat

    ghost predicate Valid()
      reads this, transport, registry
    {
      && (transport != null ==> transport.Valid()) && registry.Valid()
      && forall p :: p in peers ==> peers[p].queuePair.local == node && peers[p].queuePair.remote == p
    }

    ghost function LinkStates(): map<string, LinkState>
      reads this`peers, set p | p in peers :: peers[p].queuePair
    {
      map p | p in peers :: peers[p].queuePair.state
    }

    ghost function View(): F.Session
      reads this, completions, registry, set p | p in peers :: peers[p].queuePair
    {
      F.Session(node, transport != null, completions.depth, LinkStates(),
                nextRequest, issued, completions.queue, metrics, registry.View())
    }

    ghost function Boxes(): F.Boxes
      reads transport
    {
      if transport != null then transport.boxes else map[]
    }

    /** The pool takes its buffers from the session's registry at once, and is not used again. */
    constructor (node: string, depth: nat, buffers: nat, size: nat, transport: TransportRdma?)
      requires transport != null ==> transport.Valid()
      ensures Valid()
      ensures View() == F.Fresh(node, transport != null, depth, M.NewPool(M.Registry(0, map[]), size, buffers).registry)
      ensures this.transport == transport && fresh(completions) && fresh(registry)
    {
      this.node, this.transport := node, transport;
      completions := new CompletionQueue(depth);
      var memory := new MemoryRegistry();
      registry := memory;
      pool := new BufferPool(memory, buffers, size);
      peers, nextRequest, issued := map[], 1, 0;
      metrics := F.Metrics(0, 0, 0, 0, 0, 0);
    }

    method NewConnection(peer: string) returns (connection: Connection)
      requires Valid() && transport != null
      modifies transport
      ensures Valid() && fresh(connection) && fresh(connection.queuePair)
      ensures connection.queuePair.local == node && connection.queuePair.remote == peer
      ensures connection.queuePair.state == ReadyToSend
      ensures transport.boxes == F.Touch(F.Touch(old(transport.boxes), node), peer)
    {
      var qp := new QueuePair(node, peer);
      connection := new Connection(qp);
      var up := connection.Establish();
      transport.Connect(qp);
    }

    /** A peer met for the first time gets a connection that is established at once. */
    method EnsurePeer(peer: string) returns (connection: Connection)
      requires Valid() && transport != null
      modifies this`peers, transport
      ensures Valid() && peer in peers && connection == peers[peer]
      ensures (View(), Boxes()) == F.EnsurePeer(old(View()), old(Boxes()), peer)
    {
      if peer in peers { return peers[peer]; }
      connection := NewConnection(peer);
      assert LinkStates() == old(LinkStates());
      ghost var links := LinkStates();
      peers := peers[peer := connection];
      assert LinkStates() == links[peer := ReadyToSend];
    }

    /** Sends one message on an existing link and counts it. */
    method PostOn(peer: string, topic: string, description: string, payload: string, operation: F.Operation)
      returns (request: Uint64)
      requires Valid() && transport != null && peer in peers
      modifies this, transport, completions
      ensures Valid() && request == old(nextRequest)
      ensures (View(), Boxes())
        == F.PostOn(transport.capacity, old(View()), old(Boxes()), peer, topic, description, payload, operation)
    {
      request := nextRequest;
      nextRequest := Increment(nextRequest);
      issued := issued + 1;
      transport.PostSend(peers[peer].queuePair,
                         F.Message(node, peer, topic, description, payload, request, operation), completions);
      metrics := metrics.(sends := metrics.sends + 1, sentBytes := metrics.sentBytes + |payload|);
      assert LinkStates() == old(LinkStates());
    }

    method Post(target: string, topic: string, description: string, payload: string, operation: F.Operation)
      returns (request: Uint64)
      requires Valid() && transport != null
      modifies this, transport, completions
      ensures Valid() && request == old(nextRequest)
      ensures (View(), Boxes())
        == F.Post(transport.capacity, old(View()), old(Boxes()), target, topic, description, payload, operation)
    {
      var peer := if target == "" then node else target;
      var connection := EnsurePeer(peer);
      request := PostOn(peer, topic, description, payload, operation);
    }

    method Submit(task: TaskMessage) returns (result: SubmissionResult)
      requires Valid()
      modifies this, transport, completions, registry
      ensures Valid()
      ensures result == if transport == null
        then SubmissionResult(task.taskId, false, "transport is not configured", 0)
        else SubmissionResult(task.taskId, true, "task submitted through rdma session", old(nextRequest))
      ensures transport != null ==>
        (View(), Boxes()) == F.Submit(transport.capacity, old(View()), old(Boxes()), task)
      ensures transport == null ==> View() == old(View())
    {
      if transport == null { return SubmissionResult(task.taskId, false, "transport is not configured", 0); }
      var bytes := WriteTask(task);
      var request := RegisterAndPost(task.targetNode, "task", task.description, bytes, F.SendOp);
      return SubmissionResult(task.taskId, true, "task submitted through rdma session", request);
    }

    method RegisterAndPost(target: string, topic: string, description: string, payload: string, operation: F.Operation)
      returns (request: Uint64)
      requires Valid() && transport != null
      modifies this, transport, completions, registry
      ensures Valid() && request == old(nextRequest)
      ensures
        var (s, boxes) :=
          F.Post(transport.capacity, old(View()), old(Boxes()), target, topic, description, payload, operation);
        View() == s.(registry := M.Register(old(View()).registry, payload).0) && Boxes() == boxes
    {
      var peer := if target == "" then node else target;
      var connection := EnsurePeer(peer);
      ghost var s, boxes := View(), Boxes();
      var key := Register(payload);
      F.RegisteredPost(transport.capacity, s, View().registry, boxes, peer, topic, description, payload, operation);
      request := PostOn(peer, topic, description, payload, operation);
    }

    method Register(bytes: string) returns (key: string)
      requires Valid()
      modifies registry
      ensures Valid() && Boxes() == old(Boxes())
      ensures View() == old(View()).(registry := M.Register(old(View()).registry, bytes).0)
    {
      key := registry.Register(bytes);
      assert LinkStates() == old(LinkStates());
    }

    method SendResult(message: ResultMessage) returns (ok: bool)
      requires Valid()
      modifies this, transport, completions
      ensures Valid() && ok == (transport != null)
      ensures transport != null ==>
        (View(), Boxes()) == F.SendResult(transport.capacity, old(View()), old(Boxes()), message)
      ensures transport == null ==> View() == old(View())
    {
      if transport == null { return false; }
      var bytes := WriteResult(message);
      var request := Post(message.targetNode, "result", message.detail, bytes, F.ResultOp);
      return true;
    }

    method PollTask() returns (task: Option<TaskMessage>)
      requires Valid()
      modifies this, transport
      ensures Valid()
      ensures (View(), Boxes(), task) == F.PollTask(old(View()), old(Boxes()))
    {
      if transport == null { return None; }
      var m := transport.PollReceive(node);
      if m.None? { return None; }
      metrics := metrics.(receives := metrics.receives + 1, receivedBytes := metrics.receivedBytes + |m.value.payload|);
      assert LinkStates() == old(LinkStates());
      var parsed := ReadTask(m.value.payload);
      return Some(parsed);
    }

    method PollCompletion() returns (e: Option<F.Completion>)
      requires Valid()
      modifies this, completions
      ensures Valid() && (View(), e) == F.PollCompletion(old(View()))
    {
      e := completions.Poll();
      if e.Some? {
        metrics := metrics.(completions := metrics.completions + 1,
                            failures := metrics.failures + if e.value.success then 0 else 1);
      }
      assert LinkStates() == old(LinkStates());
    }
  }
}
