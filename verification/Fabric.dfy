/** Sessions that exchange messages through one in-memory transport with bounded mailboxes. */
module Fabric {
  import opened Wrappers
  import opened Machine
  import opened Messages
  import opened Links
  import Memory

  datatype Operation = SendOp | WriteOp | ResultOp

  datatype Message = Message(
    source: string, destination: string, topic: string, description: string,
    payload: string, workRequest: Uint64, operation: Operation)

  datatype Completion = Completion(workRequest: Uint64, success: bool, operation: Operation,
                                   source: string, destination: string, detail: string, bytes: nat)

  const NOT_READY: string := "queue pair is not ready to send"
  const SENT: string := "send completed through in-memory RDMA backend"

  // ----- Mailboxes -----

  /** How a message left a mailbox. */
  datatype Removal = Delivered(message: Message) | Evicted(message: Message)

  /** A node's mailbox and its full history. */
  datatype Box = Box(inbox: seq<Message>, sent: seq<Message>, removed: seq<Removal>)

  type Boxes = map<string, Box>

  function Touch(boxes: Boxes, node: string): (r: Boxes) {
    if node in boxes then boxes else boxes[node := Box([], [], [])]
  }

  /** The oldest message makes room when a bounded mailbox is full. Capacity 0 means unbounded. */
  function Deposit(capacity: nat, b: Box, m: Message): (r: Box) {
    if capacity > 0 && |b.inbox| >= capacity
    then Box(b.inbox[1..] + [m], b.sent + [m], b.removed + [Evicted(b.inbox[0])])
    else Box(b.inbox + [m], b.sent + [m], b.removed)
  }

  function Withdraw(b: Box): (r: Box)
    requires b.inbox != []
  {
    Box(b.inbox[1..], b.sent, b.removed + [Delivered(b.inbox[0])])
  }

  function Contents(rs: seq<Removal>): (ms: seq<Message>) {
    seq(|rs|, i requires 0 <= i < |rs| => rs[i].message)
  }

  /** The history, in order: first what left the mailbox, then what is in it. `PlayHistory` says what it consists of. */
  ghost predicate BoxOk(capacity: nat, b: Box) {
    && Contents(b.removed) + b.inbox == b.sent
    && (capacity > 0 ==> |b.inbox| <= capacity)
  }

  lemma DepositOk(capacity: nat, b: Box, m: Message)
    requires BoxOk(capacity, b)
    ensures BoxOk(capacity, Deposit(capacity, b, m))
  {
    var r := Deposit(capacity, b, m);
    if capacity > 0 && |b.inbox| >= capacity {
      assert Contents(r.removed) == Contents(b.removed) + [b.inbox[0]];
      assert b.inbox == [b.inbox[0]] + b.inbox[1..];
    }
    assert Contents(r.removed) + r.inbox == r.sent;
  }

  lemma WithdrawOk(capacity: nat, b: Box)
    requires BoxOk(capacity, b) && b.inbox != []
    ensures BoxOk(capacity, Withdraw(b))
  {
    var r := Withdraw(b);
    assert Contents(r.removed) == Contents(b.removed) + [b.inbox[0]];
    assert b.inbox == [b.inbox[0]] + b.inbox[1..];
  }

  // ----- Completion queues -----

  /** A full bounded queue drops its oldest entry. Depth 0 means unbounded. */
  function PushCompletion(depth: nat, q: seq<Completion>, e: Completion): (r: seq<Completion>) {
    if depth > 0 && |q| >= depth then q[1..] + [e] else q + [e]
  }

  // ----- Sessions -----

  datatype Metrics = Metrics(sends: nat, receives: nat, completions: nat, failures: nat,
                             sentBytes: nat, receivedBytes: nat)

  /** `issued` counts the work requests of the session's whole life; `registry` is its registered memory. */
  datatype Session = Session(
    node: string, attached: bool, depth: nat, peers: map<string, LinkState>, nextRequest: Uint64, issued: nat,
    completions: seq<Completion>, metrics: Metrics, registry: Memory.Registry)

  function Fresh(node: string, attached: bool, depth: nat, registry: Memory.Registry): (s: Session) {
    Session(node, attached, depth, map[], 1, 0, [], Metrics(0, 0, 0, 0, 0, 0), registry)
  }

  /** Posting on a link that is not ready completes with a failure and sends nothing. */
  function PostSend(capacity: nat, link: LinkState, boxes: Boxes, local: string, remote: string, m: Message)
    : (r: (Boxes, Completion))
  {
    if link != ReadyToSend
    then (boxes, Completion(m.workRequest, false, m.operation, local, remote, NOT_READY, 0))
    else
      var sent := m.(source := if m.source == "" then local else m.source, destination := remote);
      var touched := Touch(boxes, remote);
      (touched[remote := Deposit(capacity, touched[remote], sent)],
       Completion(m.workRequest, true, m.operation, local, remote, SENT, |m.payload|))
  }

  /** A new peer gets a link that is brought up at once, and both ends get mailboxes. */
  function EnsurePeer(s: Session, boxes: Boxes, peer: string): (r: (Session, Boxes)) {
    if peer in s.peers then (s, boxes)
    else (s.(peers := s.peers[peer := ReadyToSend]), Touch(Touch(boxes, s.node), peer))
  }

  /** Sends one message on an existing link and counts it. */
  function PostOn(capacity: nat, s: Session, boxes: Boxes, peer: string, topic: string, description: string,
                  payload: string, operation: Operation): (r: (Session, Boxes))
    requires peer in s.peers
  {
    var m := Message(s.node, peer, topic, description, payload, s.nextRequest, operation);
    var (boxes1, e) := PostSend(capacity, s.peers[peer], boxes, s.node, peer, m);
    (s.(nextRequest := Increment(s.nextRequest), issued := s.issued + 1,
        completions := PushCompletion(s.depth, s.completions, e),
        metrics := s.metrics.(sends := s.metrics.sends + 1, sentBytes := s.metrics.sentBytes + |payload|)),
     boxes1)
  }

  /** No target means the session's own node. */
  function PeerOf(s: Session, target: string): (peer: string) { if target == "" then s.node else target }

  /** The common part of submitting a task and sending a result. */
  function Post(capacity: nat, s: Session, boxes: Boxes, target: string, topic: string, description: string,
                payload: string, operation: Operation): (r: (Session, Boxes))
  {
    var peer := PeerOf(s, target);
    var (s1, boxes1) := EnsurePeer(s, boxes, peer);
    PostOn(capacity, s1, boxes1, peer, topic, description, payload, operation)
  }

  /** A submitted task's text is registered memory, which nothing releases. */
  ghost function Submit(capacity: nat, s: Session, boxes: Boxes, task: TaskMessage): (r: (Session, Boxes)) {
    if !s.attached then (s, boxes) else
      var (s1, boxes1) :=
        Post(capacity, s, boxes, task.targetNode, "task", task.description, SerializeTask(task), SendOp);
      (s1.(registry := Memory.Register(s.registry, SerializeTask(task)).0), boxes1)
  }

  ghost function SendResult(capacity: nat, s: Session, boxes: Boxes, result: ResultMessage): (r: (Session, Boxes)) {
    if !s.attached then (s, boxes)
    else Post(capacity, s, boxes, result.targetNode, "result", result.detail, SerializeResult(result), ResultOp)
  }

  function PollTask(s: Session, boxes: Boxes): (r: (Session, Boxes, Option<TaskMessage>)) {
    if !s.attached then (s, boxes, None) else
      var touched := Touch(boxes, s.node);
      var b := touched[s.node];
      if b.inbox == [] then (s, touched, None)
      else
        var m := b.inbox[0];
        (s.(metrics := s.metrics.(receives := s.metrics.receives + 1,
                                  receivedBytes := s.metrics.receivedBytes + |m.payload|)),
         touched[s.node := Withdraw(b)], Some(DeserializeTask(m.payload)))
  }

  function PollCompletion(s: Session): (r: (Session, Option<Completion>)) {
    if s.completions == [] then (s, None) else
      var e := s.completions[0];
      (s.(completions := s.completions[1..],
          metrics := s.metrics.(completions := s.metrics.completions + 1,
                                failures := s.metrics.failures + if e.success then 0 else 1)), Some(e))
  }

  // ----- Runs of many sessions over one transport -----

  datatype Network = Network(capacity: nat, boxes: Boxes, sessions: seq<Session>)

  datatype Action =
    | SubmitBy(session: nat, task: TaskMessage)
    | ResultBy(session: nat, result: ResultMessage)
    | PollTaskBy(session: nat)
    | PollCompletionBy(session: nat)

  ghost function Act(n: Network, a: Action): (r: Network) {
    if a.session >= |n.sessions| then n else
      var s := n.sessions[a.session];
      match a
      case SubmitBy(i, task) =>
        var (s1, boxes) := Submit(n.capacity, s, n.boxes, task);
        n.(sessions := n.sessions[i := s1], boxes := boxes)
      case ResultBy(i, result) =>
        var (s1, boxes) := SendResult(n.capacity, s, n.boxes, result);
        n.(sessions := n.sessions[i := s1], boxes := boxes)
      case PollTaskBy(i) =>
        var (s1, boxes, _) := PollTask(s, n.boxes);
        n.(sessions := n.sessions[i := s1], boxes := boxes)
      case PollCompletionBy(i) => n.(sessions := n.sessions[i := PollCompletion(s).0])
  }

  ghost function Play(n: Network, actions: seq<Action>): (r: Network)
    decreases |actions|
  {
    if actions == [] then n else Play(Act(n, actions[0]), actions[1..])
  }

  /** A network before any message: sessions as constructed, no mailboxes. */
  ghost predicate Initial(n: Network) {
    n.boxes == map[] && forall i :: 0 <= i < |n.sessions| ==>
      n.sessions[i] == Fresh(n.sessions[i].node, n.sessions[i].attached, n.sessions[i].depth, n.sessions[i].registry)
  }

  /** Every link is up, and the queue holds the completions of the latest requests, without a gap. */
  ghost predicate SessionOk(s: Session) {
    && (forall p :: p in s.peers ==> s.peers[p] == ReadyToSend)
    && s.nextRequest == Low64(s.issued + 1)
    && Latest(s.depth, s.completions, s.issued)
  }

  /** The queue holds the successes of the latest of `issued` requests. */
  ghost predicate Latest(depth: nat, q: seq<Completion>, issued: nat) {
    && |q| <= issued && (depth > 0 ==> |q| <= depth)
    && forall k :: 0 <= k < |q| ==> q[k].success && q[k].workRequest == Low64(issued - |q| + 1 + k)
  }

  lemma PushLatest(depth: nat, q: seq<Completion>, issued: nat, e: Completion)
    requires Latest(depth, q, issued) && e.success && e.workRequest == Low64(issued + 1)
    ensures Latest(depth, PushCompletion(depth, q, e), issued + 1)
  {
  }

  ghost predicate BoxesOk(capacity: nat, boxes: Boxes) {
    forall node :: node in boxes ==> BoxOk(capacity, boxes[node])
  }

  ghost predicate NetworkOk(n: Network) {
    && BoxesOk(n.capacity, n.boxes)
    && (forall i :: 0 <= i < |n.sessions| ==> SessionOk(n.sessions[i]))
  }

  lemma PostSessionOk(capacity: nat, s: Session, boxes: Boxes, target: string, topic: string, description: string,
                      payload: string, operation: Operation)
    requires SessionOk(s)
    ensures SessionOk(Post(capacity, s, boxes, target, topic, description, payload, operation).0)
  {
    var peer := PeerOf(s, target);
    var (s1, boxes1) := EnsurePeer(s, boxes, peer);
    PostOnSessionOk(capacity, s1, boxes1, peer, topic, description, payload, operation);
  }

  lemma PostOnSessionOk(capacity: nat, s: Session, boxes: Boxes, peer: string, topic: string, description: string,
                        payload: string, operation: Operation)
    requires SessionOk(s) && peer in s.peers
    ensures SessionOk(PostOn(capacity, s, boxes, peer, topic, description, payload, operation).0)
  {
    IncrementLow64(s.issued + 1);
    var m := Message(s.node, peer, topic, description, payload, s.nextRequest, operation);
    PushLatest(s.depth, s.completions, s.issued, PostSend(capacity, ReadyToSend, boxes, s.node, peer, m).1);
  }

  /** The mailboxes a post finds once its peer is connected. */
  function Connected(s: Session, boxes: Boxes, peer: string): (r: Boxes)
    ensures peer in r
  {
    if peer in s.peers then Touch(boxes, peer) else Touch(Touch(boxes, s.node), peer)
  }

  /** What a post does to the mailboxes: one deposit at the peer, of exactly the message composed. */
  lemma PostBoxes(capacity: nat, s: Session, boxes: Boxes, target: string, topic: string, description: string,
                  payload: string, operation: Operation)
    requires SessionOk(s)
    ensures
      var peer := PeerOf(s, target);
      var before := Connected(s, boxes, peer);
      Post(capacity, s, boxes, target, topic, description, payload, operation).1
      == before[peer := Deposit(capacity, before[peer],
           Message(s.node, peer, topic, description, payload, s.nextRequest, operation))]
  {
  }

  lemma PostBoxesOk(capacity: nat, s: Session, boxes: Boxes, target: string, topic: string, description: string,
                    payload: string, operation: Operation)
    requires SessionOk(s) && BoxesOk(capacity, boxes)
    ensures BoxesOk(capacity, Post(capacity, s, boxes, target, topic, description, payload, operation).1)
  {
    PostBoxes(capacity, s, boxes, target, topic, description, payload, operation);
    var peer := PeerOf(s, target);
    var before := Connected(s, boxes, peer);
    assert BoxesOk(capacity, before) by { assert Contents([]) + [] == []; }
    DepositOk(capacity, before[peer], Message(s.node, peer, topic, description, payload, s.nextRequest, operation));
  }

  lemma PollTaskOk(capacity: nat, s: Session, boxes: Boxes)
    requires SessionOk(s) && BoxesOk(capacity, boxes)
    ensures SessionOk(PollTask(s, boxes).0) && BoxesOk(capacity, PollTask(s, boxes).1)
  {
    var touched := Touch(boxes, s.node);
    assert BoxesOk(capacity, touched) by { assert Contents([]) + [] == []; }
    if touched[s.node].inbox != [] { WithdrawOk(capacity, touched[s.node]); }
  }

  lemma PollCompletionOk(s: Session)
    requires SessionOk(s)
    ensures SessionOk(PollCompletion(s).0)
  {
  }

  lemma ActOk(n: Network, a: Action)
    requires NetworkOk(n)
    ensures NetworkOk(Act(n, a))
  {
    if a.session < |n.sessions| {
      var s := n.sessions[a.session];
      match a
      case SubmitBy(i, t) =>
        PostSessionOk(n.capacity, s, n.boxes, t.targetNode, "task", t.description, SerializeTask(t), SendOp);
        PostBoxesOk(n.capacity, s, n.boxes, t.targetNode, "task", t.description, SerializeTask(t), SendOp);
      case ResultBy(i, t) =>
        PostSessionOk(n.capacity, s, n.boxes, t.targetNode, "result", t.detail, SerializeResult(t), ResultOp);
        PostBoxesOk(n.capacity, s, n.boxes, t.targetNode, "result", t.detail, SerializeResult(t), ResultOp);
      case PollTaskBy(i) => PollTaskOk(n.capacity, s, n.boxes);
      case PollCompletionBy(i) => PollCompletionOk(s);
    }
  }

  lemma InitialOk(n: Network)
    requires Initial(n)
    ensures NetworkOk(n)
  {
    assert Low64(1) == 1;
  }

  /** In every run: each mailbox accounts for its whole history, in order; each session's
      completion queue holds the latest consecutive work requests, ending at the last one issued. */
  lemma {:induction false} PlayOk(n: Network, actions: seq<Action>)
    requires NetworkOk(n)
    ensures NetworkOk(Play(n, actions))
    decreases |actions|
  {
    if actions == [] {
    } else {
      ActOk(n, actions[0]);
      PlayOk(Act(n, actions[0]), actions[1..]);
    }
  }

  // ----- Conservation -----

  /** Messages can be counted or their bytes added up. */
  datatype Measure = Count | Bytes

  function Weight(q: Measure, m: Message): (w: nat) { match q case Count => 1 case Bytes => |m.payload| }

  function Total(q: Measure, ms: seq<Message>): (w: nat) {
    if ms == [] then 0 else Total(q, ms[..|ms| - 1]) + Weight(q, ms[|ms| - 1])
  }

  lemma TotalOne(q: Measure, ms: seq<Message>, m: Message)
    ensures Total(q, ms + [m]) == Total(q, ms) + Weight(q, m)
  {
    assert (ms + [m])[..|ms|] == ms;
  }

  lemma {:induction false} TotalConcat(q: Measure, a: seq<Message>, b: seq<Message>)
    ensures Total(q, a + b) == Total(q, a) + Total(q, b)
  {
    if b == [] {
      assert a + b == a;
    } else {
      assert (a + b)[..|a + b| - 1] == a + b[..|b| - 1];
      TotalConcat(q, a, b[..|b| - 1]);
    }
  }

  /** Delivered or evicted messages of a mailbox. */
  function Left(q: Measure, rs: seq<Removal>, delivered: bool): (w: nat) {
    if rs == [] then 0 else
      var last := rs[|rs| - 1];
      Left(q, rs[..|rs| - 1], delivered) + if last.Delivered? == delivered then Weight(q, last.message) else 0
  }

  lemma LeftOne(q: Measure, rs: seq<Removal>, r: Removal, delivered: bool)
    ensures Left(q, rs + [r], delivered)
            == Left(q, rs, delivered) + if r.Delivered? == delivered then Weight(q, r.message) else 0
  {
    assert (rs + [r])[..|rs|] == rs;
  }

  lemma {:induction false} LeftIsAll(q: Measure, rs: seq<Removal>)
    ensures Left(q, rs, true) + Left(q, rs, false) == Total(q, Contents(rs))
  {
    if rs == [] {
    } else {
      LeftIsAll(q, rs[..|rs| - 1]);
      assert Contents(rs)[..|rs| - 1] == Contents(rs[..|rs| - 1]);
    }
  }

  datatype Stat = SentStat | ReceivedStat | EvictedStat | QueuedStat

  function StatOf(q: Measure, k: Stat, b: Box): (w: nat) {
    match k
    case SentStat => Total(q, b.sent)
    case ReceivedStat => Left(q, b.removed, true)
    case EvictedStat => Left(q, b.removed, false)
    case QueuedStat => Total(q, b.inbox)
  }

  lemma BoxConserves(q: Measure, capacity: nat, b: Box)
    requires BoxOk(capacity, b)
    ensures StatOf(q, SentStat, b) == StatOf(q, ReceivedStat, b) + StatOf(q, EvictedStat, b) + StatOf(q, QueuedStat, b)
  {
    LeftIsAll(q, b.removed);
    TotalConcat(q, Contents(b.removed), b.inbox);
  }

  ghost function Pick(keys: set<string>): (k: string)
    requires keys != {}
    ensures k in keys
  {
    var k :| k in keys; k
  }

  /** A statistic added up over some mailboxes. */
  ghost function Sum(q: Measure, k: Stat, boxes: Boxes, keys: set<string>): (w: nat)
    requires keys <= boxes.Keys
  {
    if keys == {} then 0 else
      var node := Pick(keys);
      StatOf(q, k, boxes[node]) + Sum(q, k, boxes, keys - {node})
  }

  lemma {:induction false} SumWithout(q: Measure, k: Stat, boxes: Boxes, keys: set<string>, node: string)
    requires keys <= boxes.Keys && node in keys
    ensures Sum(q, k, boxes, keys) == StatOf(q, k, boxes[node]) + Sum(q, k, boxes, keys - {node})
    decreases |keys|
  {
    var first := Pick(keys);
    if first != node {
      SumWithout(q, k, boxes, keys - {first}, node);
      SumWithout(q, k, boxes, keys - {node}, first);
      assert keys - {first} - {node} == keys - {node} - {first};
    }
  }

  lemma {:induction false} SumSame(q: Measure, k: Stat, a: Boxes, b: Boxes, keys: set<string>)
    requires keys <= a.Keys && keys <= b.Keys && forall node :: node in keys ==> a[node] == b[node]
    ensures Sum(q, k, a, keys) == Sum(q, k, b, keys)
    decreases |keys|
  {
    if keys == {} {
    } else {
      SumSame(q, k, a, b, keys - {Pick(keys)});
    }
  }

  ghost function SumAll(q: Measure, k: Stat, boxes: Boxes): (w: nat) { Sum(q, k, boxes, boxes.Keys) }

  lemma SumReplaced(q: Measure, k: Stat, boxes: Boxes, node: string, b: Box)
    requires node in boxes
    ensures SumAll(q, k, boxes[node := b]) + StatOf(q, k, boxes[node]) == SumAll(q, k, boxes) + StatOf(q, k, b)
  {
    var r := boxes[node := b];
    SumWithout(q, k, boxes, boxes.Keys, node);
    SumWithout(q, k, r, r.Keys, node);
    assert r.Keys == boxes.Keys;
    SumSame(q, k, boxes, r, boxes.Keys - {node});
  }

  lemma SumTouched(q: Measure, k: Stat, boxes: Boxes, node: string)
    ensures SumAll(q, k, Touch(boxes, node)) == SumAll(q, k, boxes)
  {
    if node !in boxes {
      var r := Touch(boxes, node);
      SumWithout(q, k, r, r.Keys, node);
      assert r.Keys - {node} == boxes.Keys;
      SumSame(q, k, boxes, r, boxes.Keys);
    }
  }

  lemma {:induction false} SumConserves(q: Measure, capacity: nat, boxes: Boxes, keys: set<string>)
    requires BoxesOk(capacity, boxes) && keys <= boxes.Keys
    ensures Sum(q, SentStat, boxes, keys)
            == Sum(q, ReceivedStat, boxes, keys) + Sum(q, EvictedStat, boxes, keys) + Sum(q, QueuedStat, boxes, keys)
    decreases |keys|
  {
    if keys == {} {
    } else {
      BoxConserves(q, capacity, boxes[Pick(keys)]);
      SumConserves(q, capacity, boxes, keys - {Pick(keys)});
    }
  }

  function SentBy(q: Measure, s: Session): (w: nat) {
    match q case Count => s.metrics.sends case Bytes => s.metrics.sentBytes
  }

  function ReceivedBy(q: Measure, s: Session): (w: nat) {
    match q case Count => s.metrics.receives case Bytes => s.metrics.receivedBytes
  }

  function SentByAll(q: Measure, ss: seq<Session>): (w: nat) {
    if ss == [] then 0 else SentBy(q, ss[0]) + SentByAll(q, ss[1..])
  }

  function ReceivedByAll(q: Measure, ss: seq<Session>): (w: nat) {
    if ss == [] then 0 else ReceivedBy(q, ss[0]) + ReceivedByAll(q, ss[1..])
  }

  lemma {:induction false} SessionReplaced(q: Measure, ss: seq<Session>, i: nat, s: Session)
    requires i < |ss|
    ensures SentByAll(q, ss[i := s]) + SentBy(q, ss[i]) == SentByAll(q, ss) + SentBy(q, s)
    ensures ReceivedByAll(q, ss[i := s]) + ReceivedBy(q, ss[i]) == ReceivedByAll(q, ss) + ReceivedBy(q, s)
  {
    if i == 0 {
      assert ss[i := s][1..] == ss[1..];
    } else {
      assert ss[i := s][1..] == ss[1..][i - 1 := s];
      SessionReplaced(q, ss[1..], i - 1, s);
    }
  }

  /** The sessions' counters agree with the mailboxes' histories. */
  ghost predicate Balanced(n: Network) {
    forall q: Measure ::
      && SentByAll(q, n.sessions) == SumAll(q, SentStat, n.boxes)
      && ReceivedByAll(q, n.sessions) == SumAll(q, ReceivedStat, n.boxes)
  }

  lemma DepositStats(q: Measure, capacity: nat, b: Box, m: Message)
    ensures StatOf(q, SentStat, Deposit(capacity, b, m)) == StatOf(q, SentStat, b) + Weight(q, m)
    ensures StatOf(q, ReceivedStat, Deposit(capacity, b, m)) == StatOf(q, ReceivedStat, b)
  {
    TotalOne(q, b.sent, m);
    if capacity > 0 && |b.inbox| >= capacity { LeftOne(q, b.removed, Evicted(b.inbox[0]), true); }
  }

  lemma PostSums(q: Measure, capacity: nat, s: Session, boxes: Boxes, target: string, topic: string,
                 description: string, payload: string, operation: Operation)
    requires SessionOk(s)
    ensures
      var r := Post(capacity, s, boxes, target, topic, description, payload, operation);
      var w := match q case Count => 1 case Bytes => |payload|;
      && SumAll(q, SentStat, r.1) == SumAll(q, SentStat, boxes) + w
      && SumAll(q, ReceivedStat, r.1) == SumAll(q, ReceivedStat, boxes)
      && SentBy(q, r.0) == SentBy(q, s) + w && ReceivedBy(q, r.0) == ReceivedBy(q, s)
  {
    PostBoxes(capacity, s, boxes, target, topic, description, payload, operation);
    var peer := PeerOf(s, target);
    var before := Connected(s, boxes, peer);
    var m := Message(s.node, peer, topic, description, payload, s.nextRequest, operation);
    ConnectedSums(q, SentStat, s, boxes, peer);
    ConnectedSums(q, ReceivedStat, s, boxes, peer);
    SumReplaced(q, SentStat, before, peer, Deposit(capacity, before[peer], m));
    SumReplaced(q, ReceivedStat, before, peer, Deposit(capacity, before[peer], m));
    DepositStats(q, capacity, before[peer], m);
  }

  lemma ConnectedSums(q: Measure, k: Stat, s: Session, boxes: Boxes, peer: string)
    ensures SumAll(q, k, Connected(s, boxes, peer)) == SumAll(q, k, boxes)
  {
    SumTouched(q, k, boxes, s.node);
    SumTouched(q, k, boxes, peer);
    SumTouched(q, k, Touch(boxes, s.node), peer);
  }

  lemma PollSums(q: Measure, s: Session, boxes: Boxes)
    ensures
      var r := PollTask(s, boxes);
      && SumAll(q, SentStat, r.1) == SumAll(q, SentStat, boxes) && SentBy(q, r.0) == SentBy(q, s)
      && SumAll(q, ReceivedStat, r.1) + ReceivedBy(q, s) == SumAll(q, ReceivedStat, boxes) + ReceivedBy(q, r.0)
  {
    if s.attached {
      SumTouched(q, SentStat, boxes, s.node);
      SumTouched(q, ReceivedStat, boxes, s.node);
      var touched := Touch(boxes, s.node);
      var b := touched[s.node];
      if b.inbox != [] {
        SumReplaced(q, SentStat, touched, s.node, Withdraw(b));
        SumReplaced(q, ReceivedStat, touched, s.node, Withdraw(b));
        LeftOne(q, b.removed, Delivered(b.inbox[0]), true);
      }
    }
  }

  lemma ActSums(n: Network, a: Action, q: Measure)
    requires NetworkOk(n) && a.session < |n.sessions|
    ensures
      var s, r := n.sessions[a.session], Act(n, a);
      var s1 := r.sessions[a.session];
      && r.sessions == n.sessions[a.session := s1]
      && SumAll(q, SentStat, r.boxes) + SentBy(q, s) == SumAll(q, SentStat, n.boxes) + SentBy(q, s1)
      && SumAll(q, ReceivedStat, r.boxes) + ReceivedBy(q, s) == SumAll(q, ReceivedStat, n.boxes) + ReceivedBy(q, s1)
  {
    var s := n.sessions[a.session];
    match a
    case SubmitBy(i, t) =>
      PostSums(q, n.capacity, s, n.boxes, t.targetNode, "task", t.description, SerializeTask(t), SendOp);
    case ResultBy(i, t) =>
      PostSums(q, n.capacity, s, n.boxes, t.targetNode, "result", t.detail, SerializeResult(t), ResultOp);
    case PollTaskBy(i) => PollSums(q, s, n.boxes);
    case PollCompletionBy(i) =>
  }

  lemma ActBalanced(n: Network, a: Action)
    requires NetworkOk(n) && Balanced(n)
    ensures Balanced(Act(n, a))
  {
    if a.session < |n.sessions| {
      var r := Act(n, a);
      forall q: Measure
        ensures SentByAll(q, r.sessions) == SumAll(q, SentStat, r.boxes)
        ensures ReceivedByAll(q, r.sessions) == SumAll(q, ReceivedStat, r.boxes)
      {
        ActSums(n, a, q);
        SessionReplaced(q, n.sessions, a.session, r.sessions[a.session]);
      }
    }
  }

  lemma {:induction false} PlayBalanced(n: Network, actions: seq<Action>)
    requires NetworkOk(n) && Balanced(n)
    ensures NetworkOk(Play(n, actions)) && Balanced(Play(n, actions))
    decreases |actions|
  {
    if actions == [] {
    } else {
      ActOk(n, actions[0]);
      ActBalanced(n, actions[0]);
      PlayBalanced(Act(n, actions[0]), actions[1..]);
    }
  }

  lemma {:induction false} NothingCounted(q: Measure, ss: seq<Session>)
    requires forall i :: 0 <= i < |ss| ==> ss[i] == Fresh(ss[i].node, ss[i].attached, ss[i].depth, ss[i].registry)
    ensures SentByAll(q, ss) == 0 && ReceivedByAll(q, ss) == 0
  {
    if ss == [] {
    } else {
      NothingCounted(q, ss[1..]);
    }
  }

  /** Over all sessions of every run, messages (and bytes) sent are those received, queued or evicted. */
  lemma Conservation(n: Network, actions: seq<Action>, q: Measure)
    requires Initial(n)
    ensures
      var r := Play(n, actions);
      SentByAll(q, r.sessions)
      == ReceivedByAll(q, r.sessions) + SumAll(q, QueuedStat, r.boxes) + SumAll(q, EvictedStat, r.boxes)
  {
    InitialOk(n);
    forall q: Measure ensures SentByAll(q, n.sessions) == 0 && ReceivedByAll(q, n.sessions) == 0 {
      NothingCounted(q, n.sessions);
    }
    assert Balanced(n);
    PlayBalanced(n, actions);
    var r := Play(n, actions);
    SumConserves(q, r.capacity, r.boxes, r.boxes.Keys);
  }

  // ----- What was sent to a node -----

  lemma {:induction false} PlayExtends(n: Network, actions: seq<Action>, a: Action)
    ensures Play(n, actions + [a]) == Act(Play(n, actions), a)
    decreases |actions|
  {
    if actions == [] {
      assert [] + [a] == [a] && [a][1..] == [];
    } else {
      assert (actions + [a])[1..] == actions[1..] + [a];
      PlayExtends(Act(n, actions[0]), actions[1..], a);
    }
  }

  /** The action makes an attached session send. */
  predicate Posts(n: Network, a: Action) {
    a.session < |n.sessions| && n.sessions[a.session].attached && (a.SubmitBy? || a.ResultBy?)
  }

  function PostedBy(n: Network, actions: seq<Action>, i: nat): (k: nat) {
    if actions == [] then 0 else
      var last := actions[|actions| - 1];
      PostedBy(n, actions[..|actions| - 1], i) + if last.session == i && Posts(n, last) then 1 else 0
  }

  /** The message that the action sends as the session's `k`-th work request. */
  ghost function Composed(n: Network, a: Action, k: nat): (m: Message)
    requires Posts(n, a)
  {
    var s := n.sessions[a.session];
    match a
    case SubmitBy(_, t) =>
      Message(s.node, if t.targetNode == "" then s.node else t.targetNode, "task", t.description,
              SerializeTask(t), Low64(k), SendOp)
    case ResultBy(_, t) =>
      Message(s.node, if t.targetNode == "" then s.node else t.targetNode, "result", t.detail,
              SerializeResult(t), Low64(k), ResultOp)
  }

  /** Read off the actions alone: the messages for a node, in the order in which they are sent. */
  ghost function SentTo(n: Network, actions: seq<Action>, node: string): (ms: seq<Message>) {
    if actions == [] then [] else
      var init, last := actions[..|actions| - 1], actions[|actions| - 1];
      SentTo(n, init, node) + SentNow(n, last, PostedBy(n, init, last.session), node)
  }

  ghost function SentNow(n: Network, a: Action, posted: nat, node: string): (ms: seq<Message>) {
    if !Posts(n, a) then [] else
      var m := Composed(n, a, n.sessions[a.session].issued + posted + 1);
      if m.destination == node then [m] else []
  }

  function HistoryOf(boxes: Boxes, node: string): (ms: seq<Message>) { if node in boxes then boxes[node].sent else [] }

  /** Registering and posting do not depend on each other. */
  lemma RegisteredPost(capacity: nat, s: Session, registry: Memory.Registry, boxes: Boxes, peer: string, topic: string,
                       description: string, payload: string, operation: Operation)
    requires peer in s.peers
    ensures
      var (s1, boxes1) := PostOn(capacity, s, boxes, peer, topic, description, payload, operation);
      PostOn(capacity, s.(registry := registry), boxes, peer, topic, description, payload, operation)
      == (s1.(registry := registry), boxes1)
  {
  }

  lemma PostHistory(capacity: nat, s: Session, boxes: Boxes, target: string, topic: string, description: string,
                    payload: string, operation: Operation, node: string)
    requires SessionOk(s)
    ensures
      var peer := PeerOf(s, target);
      var m := Message(s.node, peer, topic, description, payload, Low64(s.issued + 1), operation);
      HistoryOf(Post(capacity, s, boxes, target, topic, description, payload, operation).1, node)
      == HistoryOf(boxes, node) + if peer == node then [m] else []
  {
    PostBoxes(capacity, s, boxes, target, topic, description, payload, operation);
  }

  lemma ActHistory(n: Network, a: Action, node: string)
    requires NetworkOk(n)
    ensures HistoryOf(Act(n, a).boxes, node) == HistoryOf(n.boxes, node) + SentNow(n, a, 0, node)
  {
    if a.session < |n.sessions| {
      var s := n.sessions[a.session];
      match a
      case SubmitBy(i, t) =>
        PostHistory(n.capacity, s, n.boxes, t.targetNode, "task", t.description, SerializeTask(t), SendOp, node);
      case ResultBy(i, t) =>
        PostHistory(n.capacity, s, n.boxes, t.targetNode, "result", t.detail, SerializeResult(t), ResultOp, node);
      case _ =>
    }
  }

  /** Sessions keep their configuration and count their requests. */
  ghost predicate Counted(n: Network, actions: seq<Action>, r: Network) {
    && |r.sessions| == |n.sessions|
    && forall i :: 0 <= i < |n.sessions| ==>
         && r.sessions[i].node == n.sessions[i].node && r.sessions[i].attached == n.sessions[i].attached
         && r.sessions[i].issued == n.sessions[i].issued + PostedBy(n, actions, i)
  }

  lemma ActCounts(n: Network, a: Action)
    ensures
      var r := Act(n, a);
      && |r.sessions| == |n.sessions|
      && forall i :: 0 <= i < |n.sessions| ==>
           && r.sessions[i].node == n.sessions[i].node && r.sessions[i].attached == n.sessions[i].attached
           && r.sessions[i].issued == n.sessions[i].issued + if a.session == i && Posts(n, a) then 1 else 0
  {
  }

  lemma {:induction false} PlayCounts(n: Network, actions: seq<Action>)
    ensures Counted(n, actions, Play(n, actions))
    decreases |actions|
  {
    if actions == [] {
    } else {
      var init, last := actions[..|actions| - 1], actions[|actions| - 1];
      assert actions == init + [last];
      PlayCounts(n, init);
      PlayExtends(n, init, last);
      ActCounts(Play(n, init), last);
    }
  }

  lemma SentNowAlike(n: Network, actions: seq<Action>, r: Network, a: Action, node: string)
    requires Counted(n, actions, r)
    ensures SentNow(r, a, 0, node) == SentNow(n, a, PostedBy(n, actions, a.session), node)
  {
    if Posts(n, a) {
      var k := n.sessions[a.session].issued + PostedBy(n, actions, a.session) + 1;
      assert r.sessions[a.session].issued + 0 + 1 == k;
      assert Composed(r, a, k) == Composed(n, a, k);
    }
  }

  /** In every run, the history of each mailbox is exactly the list of messages the run sends to its node. */
  lemma {:induction false} PlayHistory(n: Network, actions: seq<Action>, node: string)
    requires NetworkOk(n)
    ensures HistoryOf(Play(n, actions).boxes, node) == HistoryOf(n.boxes, node) + SentTo(n, actions, node)
    decreases |actions|
  {
    if actions == [] {
    } else {
      var init, last := actions[..|actions| - 1], actions[|actions| - 1];
      assert actions == init + [last];
      PlayHistory(n, init, node);
      PlayOk(n, init);
      PlayCounts(n, init);
      PlayExtends(n, init, last);
      var r := Play(n, init);
      ActHistory(r, last, node);
      SentNowAlike(n, init, r, last, node);
    }
  }

  /** From the start, what has left a mailbox followed by what is in it is all that was sent to the node, in order. */
  lemma MailboxHoldsAllSent(n: Network, actions: seq<Action>, node: string)
    requires Initial(n) && node in Play(n, actions).boxes
    ensures
      var b := Play(n, actions).boxes[node];
      Contents(b.removed) + b.inbox == SentTo(n, actions, node)
  {
    InitialOk(n);
    PlayOk(n, actions);
    PlayHistory(n, actions, node);
    assert [] + SentTo(n, actions, node) == SentTo(n, actions, node);
  }

  // ----- Registered memory -----

  function SubmittedBy(n: Network, actions: seq<Action>, i: nat): (k: nat) {
    if actions == [] then 0 else
      var last := actions[|actions| - 1];
      SubmittedBy(n, actions[..|actions| - 1], i)
      + if last.session == i && Posts(n, last) && last.SubmitBy? then 1 else 0
  }

  lemma ActRegisters(n: Network, a: Action, i: nat)
    requires i < |n.sessions|
    ensures i < |Act(n, a).sessions|
    ensures
      Act(n, a).sessions[i].registry
      == if a.session == i && Posts(n, a) && a.SubmitBy?
         then Memory.Register(n.sessions[i].registry, SerializeTask(a.task)).0 else n.sessions[i].registry
  {
  }

  /** Every submission leaves one more region registered in its session, for good. */
  lemma {:induction false} SubmissionsStayRegistered(n: Network, actions: seq<Action>, i: nat)
    requires i < |n.sessions| && Memory.AllIssued(n.sessions[i].registry)
    requires n.sessions[i].registry.issued + SubmittedBy(n, actions, i) <= TWO_64
    ensures i < |Play(n, actions).sessions|
    ensures
      var before, after := n.sessions[i].registry, Play(n, actions).sessions[i].registry;
      && Memory.AllIssued(after) && after.issued == before.issued + SubmittedBy(n, actions, i)
      && |after.regions| == |before.regions| + SubmittedBy(n, actions, i)
      && forall key :: key in before.regions ==> key in after.regions && after.regions[key] == before.regions[key]
    decreases |actions|
  {
    if actions == [] {
    } else {
      var init, last := actions[..|actions| - 1], actions[|actions| - 1];
      assert actions == init + [last];
      SubmissionsStayRegistered(n, init, i);
      PlayCounts(n, init);
      PlayExtends(n, init, last);
      var r := Play(n, init);
      ActRegisters(r, last, i);
      if last.session == i && Posts(n, last) && last.SubmitBy? {
        Memory.RegisterIsFresh(r.sessions[i].registry, SerializeTask(last.task));
      }
    }
  }

  // ----- Polling -----

  /** What is left after `i` polls. */
  function PollMany(s: Session, boxes: Boxes, i: nat): (r: (Session, Boxes))
    decreases i
  {
    if i == 0 then (s, boxes) else var (s1, boxes1, _) := PollTask(s, boxes); PollMany(s1, boxes1, i - 1)
  }

  /** The answer to the poll after `i` others. */
  function PollAt(s: Session, boxes: Boxes, i: nat): (r: Option<TaskMessage>) {
    var (s1, boxes1) := PollMany(s, boxes, i);
    PollTask(s1, boxes1).2
  }

  /** Polls answer with the messages of the mailbox in order, each read as a task whatever its topic. */
  lemma {:induction false} PollsInOrder(s: Session, boxes: Boxes, i: nat)
    requires s.attached && s.node in boxes && i < |boxes[s.node].inbox|
    ensures PollAt(s, boxes, i) == Some(DeserializeTask(boxes[s.node].inbox[i].payload))
    decreases i
  {
    if i == 0 {
    } else {
      var (s1, boxes1, _) := PollTask(s, boxes);
      PollsInOrder(s1, boxes1, i - 1);
    }
  }

  /** The last message of a mailbox after a post to it. */
  lemma PostLands(capacity: nat, s: Session, boxes: Boxes, target: string, topic: string, description: string,
                  payload: string, operation: Operation) returns (inbox: seq<Message>)
    requires SessionOk(s)
    ensures
      var r := Post(capacity, s, boxes, target, topic, description, payload, operation).1;
      PeerOf(s, target) in r && inbox == r[PeerOf(s, target)].inbox
    ensures inbox != [] && inbox[|inbox| - 1].payload == payload
  {
    PostBoxes(capacity, s, boxes, target, topic, description, payload, operation);
    inbox := Post(capacity, s, boxes, target, topic, description, payload, operation).1[PeerOf(s, target)].inbox;
  }

  lemma LastPolled(s: Session, boxes: Boxes, inbox: seq<Message>, text: string)
    requires s.attached && s.node in boxes && inbox == boxes[s.node].inbox
    requires inbox != [] && inbox[|inbox| - 1].payload == text
    ensures PollAt(s, boxes, |inbox| - 1) == Some(DeserializeTask(text))
  {
    PollsInOrder(s, boxes, |inbox| - 1);
  }

  /** The mailboxes after a submission, whose last message is the task's text. */
  lemma SubmitLands(capacity: nat, s: Session, boxes: Boxes, task: TaskMessage)
    returns (sent: Boxes, inbox: seq<Message>)
    requires SessionOk(s) && s.attached
    ensures sent == Submit(capacity, s, boxes, task).1 && PeerOf(s, task.targetNode) in sent
    ensures inbox == sent[PeerOf(s, task.targetNode)].inbox
    ensures inbox != [] && inbox[|inbox| - 1].payload == SerializeTask(task)
  {
    sent := Submit(capacity, s, boxes, task).1;
    inbox := PostLands(capacity, s, boxes, task.targetNode, "task", task.description, SerializeTask(task), SendOp);
  }

  /** A task submitted to any mailbox is polled, in its turn, as it was submitted iff its text can hold it. */
  lemma SubmitThenPollIff(capacity: nat, a: Session, b: Session, boxes: Boxes, task: TaskMessage)
    returns (sent: Boxes, i: nat)
    requires SessionOk(a) && a.attached && b.attached && b.node == PeerOf(a, task.targetNode)
    ensures sent == Submit(capacity, a, boxes, task).1 && b.node in sent && i + 1 == |sent[b.node].inbox|
    ensures PollAt(b, sent, i) == Some(task) <==> CleanTask(task)
  {
    var inbox;
    sent, inbox := SubmitLands(capacity, a, boxes, task);
    i := |inbox| - 1;
    var text := SerializeTask(task);
    LastPolled(b, sent, inbox, text);
    TaskRoundTripIff(task);
    assert PollAt(b, sent, i) == Some(DeserializeTask(text));
  }

  lemma ResultLands(capacity: nat, s: Session, boxes: Boxes, result: ResultMessage)
    returns (sent: Boxes, inbox: seq<Message>)
    requires SessionOk(s) && s.attached
    ensures sent == SendResult(capacity, s, boxes, result).1 && PeerOf(s, result.targetNode) in sent
    ensures inbox == sent[PeerOf(s, result.targetNode)].inbox
    ensures inbox != [] && inbox[|inbox| - 1].payload == SerializeResult(result)
  {
    sent := SendResult(capacity, s, boxes, result).1;
    var text := SerializeResult(result);
    inbox := PostLands(capacity, s, boxes, result.targetNode, "result", result.detail, text, ResultOp);
  }

  /** A result sent to a node is polled there as a task that has the result's task id, target and metadata. */
  lemma ResultPolledAsTask(capacity: nat, a: Session, b: Session, boxes: Boxes, result: ResultMessage)
    returns (sent: Boxes, i: nat)
    requires SessionOk(a) && a.attached && b.attached && b.node == PeerOf(a, result.targetNode) && CleanResult(result)
    ensures sent == SendResult(capacity, a, boxes, result).1 && b.node in sent && i + 1 == |sent[b.node].inbox|
    ensures PollAt(b, sent, i) == Some(TaskMessage(result.taskId, "", "", result.targetNode, "", result.metadata))
  {
    var inbox;
    sent, inbox := ResultLands(capacity, a, boxes, result);
    i := |inbox| - 1;
    LastPolled(b, sent, inbox, SerializeResult(result));
    ResultReadAsTask(result);
  }
}
