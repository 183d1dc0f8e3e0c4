/** What sessions are told about their sends, and when a mailbox loses a message. */
module Completions {
  import opened Machine
  import opened Messages
  import opened Fabric
  import Memory

  // ----- Completions -----

  /** Read off the actions alone: the messages that session `i` sends, in order. */
  ghost function PostsOf(n: Network, actions: seq<Action>, i: nat): (ms: seq<Message>) {
    if actions == [] then [] else
      var init, last := actions[..|actions| - 1], actions[|actions| - 1];
      PostsOf(n, init, i) + PostNow(n, last, PostedBy(n, init, i), i)
  }

  ghost function PostNow(n: Network, a: Action, posted: nat, i: nat): (ms: seq<Message>) {
    if a.session == i && Posts(n, a) then [Composed(n, a, n.sessions[i].issued + posted + 1)] else []
  }

  /** The completion says that this message was sent. */
  predicate CompletionOf(e: Completion, m: Message) {
    && e.success && e.workRequest == m.workRequest && e.operation == m.operation
    && e.source == m.source && e.destination == m.destination && e.bytes == |m.payload|
    && e.detail == "send completed through in-memory RDMA backend"
  }

  /** The queue holds the completions of the latest messages, in order. */
  ghost predicate LatestOf(q: seq<Completion>, ms: seq<Message>) {
    |q| <= |ms| && forall j :: 0 <= j < |q| ==> CompletionOf(q[j], ms[|ms| - |q| + j])
  }

  lemma PushMatches(depth: nat, q: seq<Completion>, ms: seq<Message>, e: Completion, m: Message)
    requires LatestOf(q, ms) && CompletionOf(e, m)
    ensures LatestOf(PushCompletion(depth, q, e), ms + [m])
  {
  }

  /** A bounded queue of completions keeps as many as it can. */
  lemma PushKeepsMost(depth: nat, q: seq<Completion>, e: Completion)
    requires depth > 0 ==> |q| <= depth
    ensures |PushCompletion(depth, q, e)| == if depth == 0 then |q| + 1 else Min(depth, |q| + 1)
  {
  }

  /** What an action does to one session's completions. */
  lemma ActCompletes(n: Network, a: Action, i: nat) returns (e: Completion)
    requires NetworkOk(n) && i < |n.sessions|
    ensures i < |Act(n, a).sessions|
    ensures
      var s, r := n.sessions[i], Act(n, a).sessions[i];
      && r.depth == s.depth
      && (a.session == i && Posts(n, a) ==>
            && CompletionOf(e, Composed(n, a, s.issued + 1))
            && r.completions == PushCompletion(s.depth, s.completions, e)
            && r.metrics.completions == s.metrics.completions && r.metrics.failures == s.metrics.failures)
      && (a == PollCompletionBy(i) && s.completions != [] ==>
            && s.completions == [e] + r.completions && r.metrics.completions == s.metrics.completions + 1
            && r.metrics.failures == s.metrics.failures + if e.success then 0 else 1)
      && (!(a.session == i && Posts(n, a)) && !(a == PollCompletionBy(i) && s.completions != []) ==>
            && r.completions == s.completions && r.metrics.completions == s.metrics.completions
            && r.metrics.failures == s.metrics.failures)
  {
    var s := n.sessions[i];
    e := Completion(0, false, SendOp, "", "", "", 0);
    if a.session == i && Posts(n, a) {
      var m := Composed(n, a, s.issued + 1);
      e := Completion(m.workRequest, true, m.operation, m.source, m.destination,
                      "send completed through in-memory RDMA backend", |m.payload|);
    } else if a == PollCompletionBy(i) && s.completions != [] {
      e := s.completions[0];
    }
  }

  /** Completions were polled, are queued, or were dropped by a bounded queue; none is a failure. */
  ghost predicate Tallied(before: Session, s: Session, posted: nat) {
    && s.depth == before.depth && s.metrics.failures == before.metrics.failures
    && before.metrics.completions <= s.metrics.completions
    && s.metrics.completions - before.metrics.completions + |s.completions| <= posted
    && (s.depth == 0 ==> s.metrics.completions - before.metrics.completions + |s.completions| == posted)
  }

  lemma PostsAlike(n: Network, init: seq<Action>, r: Network, last: Action, i: nat)
    requires Counted(n, init, r) && i < |n.sessions|
    ensures PostNow(n, last, PostedBy(n, init, i), i)
            == if last.session == i && Posts(r, last) then [Composed(r, last, r.sessions[i].issued + 1)] else []
  {
  }

  lemma PopMatches(e: Completion, rest: seq<Completion>, ms: seq<Message>)
    requires LatestOf([e] + rest, ms)
    ensures e.success && LatestOf(rest, ms)
  {
    var q := [e] + rest;
    assert CompletionOf(q[0], ms[|ms| - |q|]);
    forall j | 0 <= j < |rest| ensures CompletionOf(rest[j], ms[|ms| - |rest| + j]) {
      assert rest[j] == q[j + 1];
    }
  }

  ghost predicate Accounted(before: Session, s: Session, ms: seq<Message>) {
    LatestOf(s.completions, ms) && Tallied(before, s, |ms|)
  }

  lemma PushStep(before: Session, s: Session, r: Session, ms: seq<Message>, m: Message, e: Completion)
    requires Accounted(before, s, ms) && CompletionOf(e, m)
    requires r.depth == s.depth && r.completions == PushCompletion(s.depth, s.completions, e)
    requires r.metrics.completions == s.metrics.completions && r.metrics.failures == s.metrics.failures
    ensures Accounted(before, r, ms + [m])
  {
    PushMatches(s.depth, s.completions, ms, e, m);
    assert |r.completions| <= |s.completions| + 1;
  }

  lemma PopStep(before: Session, s: Session, r: Session, ms: seq<Message>, e: Completion)
    requires Accounted(before, s, ms) && r.depth == s.depth && s.completions == [e] + r.completions
    requires r.metrics.completions == s.metrics.completions + 1
    requires r.metrics.failures == s.metrics.failures + if e.success then 0 else 1
    ensures Accounted(before, r, ms)
  {
    PopMatches(e, r.completions, ms);
    assert |s.completions| == 1 + |r.completions|;
  }

  lemma AccountStep(before: Session, n: Network, a: Action, i: nat, ms: seq<Message>)
    requires NetworkOk(n) && i < |n.sessions| && Accounted(before, n.sessions[i], ms)
    ensures i < |Act(n, a).sessions|
    ensures Accounted(before, Act(n, a).sessions[i], ms +
      if a.session == i && Posts(n, a) then [Composed(n, a, n.sessions[i].issued + 1)] else [])
  {
    var e := ActCompletes(n, a, i);
    var s, r := n.sessions[i], Act(n, a).sessions[i];
    if a.session == i && Posts(n, a) {
      PushStep(before, s, r, ms, Composed(n, a, s.issued + 1), e);
    } else {
      assert ms + [] == ms;
      if a == PollCompletionBy(i) && s.completions != [] { PopStep(before, s, r, ms, e); }
    }
  }

  /** In every run, each session's queue holds the completions of its latest sends, in order, each with the request,
      operation, ends and size of the message; polled, queued and dropped ones add up, and none is a failure. */
  lemma {:induction false} PlayCompletes(n: Network, actions: seq<Action>, i: nat)
    requires NetworkOk(n) && i < |n.sessions| && n.sessions[i].completions == []
    ensures i < |Play(n, actions).sessions|
    ensures Accounted(n.sessions[i], Play(n, actions).sessions[i], PostsOf(n, actions, i))
    decreases |actions|
  {
    if actions == [] {
    } else {
      var init, last := actions[..|actions| - 1], actions[|actions| - 1];
      assert actions == init + [last];
      PlayCompletes(n, init, i);
      PlayOk(n, init);
      PlayCounts(n, init);
      PlayExtends(n, init, last);
      var r := Play(n, init);
      PostsAlike(n, init, r, last, i);
      AccountStep(n.sessions[i], r, last, i, PostsOf(n, init, i));
    }
  }

  // ----- Registered memory -----

  /** Read off the actions alone: the texts of the tasks that session `i` submits. */
  ghost function TextsOf(n: Network, actions: seq<Action>, i: nat): (texts: seq<string>) {
    if actions == [] then [] else
      var init, last := actions[..|actions| - 1], actions[|actions| - 1];
      TextsOf(n, init, i)
      + if last.session == i && Posts(n, last) && last.SubmitBy? then [SerializeTask(last.task)] else []
  }

  ghost predicate HoldsText(r: Memory.Registry, n: nat, text: string) {
    Memory.KeyOf(n) in r.regions && r.regions[Memory.KeyOf(n)] == text
  }

  /** The registry holds these texts under its latest keys. */
  ghost predicate HoldsTexts(r: Memory.Registry, issued: nat, texts: seq<string>) {
    && r.issued == issued + |texts|
    && forall j :: 0 <= j < |texts| ==> HoldsText(r, issued + 1 + j, texts[j])
  }

  lemma HoldsStill(r: Memory.Registry, n: nat, held: string, text: string)
    requires HoldsText(r, n, held) && Memory.AllIssued(r) && r.issued < TWO_64
    ensures HoldsText(Memory.Register(r, text).0, n, held)
  {
    Memory.RegisterIsFresh(r, text);
  }

  lemma HoldsOneMore(r: Memory.Registry, issued: nat, texts: seq<string>, text: string)
    requires HoldsTexts(r, issued, texts) && Memory.AllIssued(r) && r.issued < TWO_64
    ensures HoldsTexts(Memory.Register(r, text).0, issued, texts + [text])
  {
    var after, all := Memory.Register(r, text).0, texts + [text];
    forall j | 0 <= j < |all| ensures HoldsText(after, issued + 1 + j, all[j]) {
      if j < |texts| {
        HoldsStill(r, issued + 1 + j, texts[j], text);
      } else {
        Memory.RegisterIsFresh(r, text);
      }
    }
  }

  /** Each submission's text stays registered under the key issued for it. */
  lemma {:induction false} SubmittedTextsRegistered(n: Network, actions: seq<Action>, i: nat)
    requires i < |n.sessions| && Memory.AllIssued(n.sessions[i].registry)
    requires n.sessions[i].registry.issued + SubmittedBy(n, actions, i) <= TWO_64
    ensures i < |Play(n, actions).sessions|
    ensures HoldsTexts(Play(n, actions).sessions[i].registry, n.sessions[i].registry.issued, TextsOf(n, actions, i))
    decreases |actions|
  {
    if actions == [] {
    } else {
      var init, last := actions[..|actions| - 1], actions[|actions| - 1];
      assert actions == init + [last];
      SubmittedTextsRegistered(n, init, i);
      SubmissionsStayRegistered(n, init, i);
      PlayCounts(n, init);
      PlayExtends(n, init, last);
      var r := Play(n, init);
      ActRegisters(r, last, i);
      if last.session == i && Posts(n, last) && last.SubmitBy? {
        HoldsOneMore(r.sessions[i].registry, n.sessions[i].registry.issued, TextsOf(n, init, i),
                     SerializeTask(last.task));
      } else {
        assert TextsOf(n, init, i) + [] == TextsOf(n, init, i);
      }
    }
  }

  // ----- Evictions -----

  ghost predicate NothingEvicted(b: Box) { forall i :: 0 <= i < |b.removed| ==> b.removed[i].Delivered? }

  /** A mailbox loses a message only to make room for one beyond its capacity. */
  lemma DepositEvictsIff(capacity: nat, b: Box, m: Message)
    requires BoxOk(capacity, b)
    ensures
      var r := Deposit(capacity, b, m);
      && (capacity > 0 && |b.inbox| == capacity ==> [b.inbox[0]] + r.inbox == b.inbox + [m])
      && (capacity == 0 || |b.inbox| < capacity ==> r.inbox == b.inbox + [m] && r.removed == b.removed)
  {
  }

  lemma DepositKeepsAll(capacity: nat, b: Box, m: Message)
    requires BoxOk(capacity, b) && NothingEvicted(b) && (capacity == 0 || |b.sent| < capacity)
    ensures NothingEvicted(Deposit(capacity, b, m))
  {
    assert |b.inbox| <= |b.sent|;
  }

  /** The messages sent to a node so far, and whether its mailbox lost one. */
  ghost predicate KeptAll(n: Network, node: string) { node in n.boxes ==> NothingEvicted(n.boxes[node]) }

  lemma PostKeepsAll(capacity: nat, s: Session, boxes: Boxes, target: string, topic: string, description: string,
                     payload: string, operation: Operation, node: string)
    requires SessionOk(s) && BoxesOk(capacity, boxes) && (node in boxes ==> NothingEvicted(boxes[node]))
    requires
      var r := Post(capacity, s, boxes, target, topic, description, payload, operation).1;
      capacity == 0 || |HistoryOf(r, node)| <= capacity
    ensures
      var r := Post(capacity, s, boxes, target, topic, description, payload, operation).1;
      node in r ==> NothingEvicted(r[node])
  {
    PostBoxes(capacity, s, boxes, target, topic, description, payload, operation);
    var peer := PeerOf(s, target);
    var before := Connected(s, boxes, peer);
    assert Contents([]) + [] == [];
    if node == peer {
      DepositKeepsAll(capacity, before[peer],
                      Message(s.node, peer, topic, description, payload, s.nextRequest, operation));
    }
  }

  lemma ActKeepsAll(n: Network, a: Action, node: string)
    requires NetworkOk(n) && KeptAll(n, node)
    requires n.capacity == 0 || |HistoryOf(Act(n, a).boxes, node)| <= n.capacity
    ensures KeptAll(Act(n, a), node)
  {
    if a.session < |n.sessions| {
      var s := n.sessions[a.session];
      match a
      case SubmitBy(i, t) =>
        if s.attached {
          PostKeepsAll(n.capacity, s, n.boxes, t.targetNode, "task", t.description, SerializeTask(t), SendOp, node);
        }
      case ResultBy(i, t) =>
        if s.attached {
          PostKeepsAll(n.capacity, s, n.boxes, t.targetNode, "result", t.detail, SerializeResult(t), ResultOp, node);
        }
      case _ =>
    }
  }

  lemma PlayCapacity(n: Network, actions: seq<Action>)
    ensures Play(n, actions).capacity == n.capacity
    decreases |actions|
  {
  }

  /** A mailbox that is unbounded, or is sent no more messages than it can hold, loses none. */
  lemma {:induction false} NothingLostWithinCapacity(n: Network, actions: seq<Action>, node: string)
    requires Initial(n) && (n.capacity == 0 || |SentTo(n, actions, node)| <= n.capacity)
    ensures KeptAll(Play(n, actions), node)
    decreases |actions|
  {
    if actions == [] {
    } else {
      var init, last := actions[..|actions| - 1], actions[|actions| - 1];
      assert actions == init + [last];
      InitialOk(n);
      NothingLostWithinCapacity(n, init, node);
      PlayOk(n, init);
      PlayExtends(n, init, last);
      PlayHistory(n, actions, node);
      PlayCapacity(n, init);
      assert HistoryOf(n.boxes, node) + SentTo(n, actions, node) == SentTo(n, actions, node);
      ActKeepsAll(Play(n, init), last, node);
    }
  }
}
