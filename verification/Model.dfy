/** Workers and tasks as the scheduler stores them, and how a worker's state is derived. */
module Model {
  import opened Wrappers
  import opened Machine

  /** Nanoseconds since Go's zero time; the zero time itself is 0. */
  type Time = int

  datatype NodeState = Ready | Busy | Offline

  datatype TaskState = Pending | Running | Completed | Failed

  datatype Node = Node(
    id: string, address: string, capacity: int, labels: seq<string>,
    runningTasks: int, status: NodeState, lastHeartbeat: Time)

  datatype Task = Task(
    id: string, model: string, operation: string, payloadRef: string, metadata: map<string, string>,
    status: TaskState, assignedWorker: string, message: string,
    createdAt: Time, startedAt: Option<Time>, completedAt: Option<Time>)

  datatype RegisterRequest = RegisterRequest(id: string, address: string, capacity: int, labels: seq<string>)

  datatype HeartbeatRequest = HeartbeatRequest(id: string, runningTasks: int)

  datatype SubmitRequest = SubmitRequest(
    model: string, operation: string, payloadRef: string, metadata: map<string, string>)

  datatype CompleteRequest = CompleteRequest(success: bool, message: string)

  /** No heartbeat for longer than the threshold. A worker that never sent one is not late. */
  predicate Late(node: Node, now: Time, offlineAfter: int) {
    node.lastHeartbeat != 0 && SaturateInt64(now - node.lastHeartbeat) > offlineAfter
  }

  predicate Full(node: Node) { node.capacity > 0 && node.runningTasks >= node.capacity }

  function DeriveNodeState(node: Option<Node>, now: Time, offlineAfter: int): (r: NodeState) {
    if node.None? then Offline
    else if Late(node.value, now, offlineAfter) then Offline
    else if Full(node.value) then Busy
    else Ready
  }

  /** Time only ever takes a silent worker from online to offline. */
  lemma LatenessIsMonotone(node: Node, now: Time, later: Time, offlineAfter: int)
    requires now <= later && Late(node, now, offlineAfter)
    ensures Late(node, later, offlineAfter)
  {
  }

  predicate Terminal(t: Task) { t.status == Completed || t.status == Failed }
}
