/** What every write section keeps, which worker is selected, and how much one dispatch assigns. */
module Invariants {
  import opened Wrappers
  import opened Machine
  import opened Order
  import opened Naming
  import opened Model
  import opened Strategy
  import opened Cluster

  ghost predicate NodeOk(id: string, n: Node) {
    id != "" && n.id == id && n.capacity >= 1 && n.runningTasks >= 0
  }

  ghost predicate TaskOk(s: State, id: string, t: Task) {
    && t.id == id && id != ""
    && (t.status == Pending ==> t.assignedWorker == "" && t.completedAt == None)
    && (t.status == Running ==> t.assignedWorker != "" && t.completedAt == None)
    && (Terminal(t) ==> t.completedAt.Some?)
    && (if t.assignedWorker == "" then t.startedAt == None else t.assignedWorker in s.nodes && t.startedAt.Some?)
  }

  ghost predicate Valid(s: State) {
    && Distinct(s.nodeOrder)
    && (forall id :: id in s.nodeOrder <==> id in s.nodes)
    && (forall id :: id in s.nodes ==> NodeOk(id, s.nodes[id]))
    && (forall id :: id in s.tasks ==> TaskOk(s, id, s.tasks[id]))
    && (s.nextNodeIndex == 0 || s.nextNodeIndex < |s.nodeOrder|)
  }

  lemma AssignValid(c: Config, s: State, id: string, i: nat, now: Time)
    requires Valid(s) && IsPending(s, id) && i < |s.nodeOrder| && EligibleAt(s, i)
    ensures Valid(Assign(c, s, id, i, now))
  {
  }

  lemma {:induction false} DispatchQueueValid(c: Config, s: State, q: seq<string>, now: Time)
    requires Valid(s)
    ensures Valid(DispatchQueue(c, s, q, now))
    decreases |q|
  {
    if q == [] || !IsPending(s, q[0]) {
    } else {
      var chosen := Select(c, s);
      if chosen.Some? {
        AssignValid(c, s, q[0], chosen.value, now);
        DispatchQueueValid(c, Assign(c, s, q[0], chosen.value, now), q[1..], now);
      }
    }
  }

  lemma RegisterValid(c: Config, s: State, req: RegisterRequest, now: Time)
    requires Valid(s)
    ensures Valid(Register(c, s, req, now).0)
  {
    var r := Register(c, s, req, now).0;
    if req.id != "" {
      assert forall id :: id in r.nodeOrder <==> id in r.nodes;
    }
  }

  lemma HeartbeatValid(c: Config, s: State, req: HeartbeatRequest, now: Time)
    requires Valid(s)
    ensures Valid(Heartbeat(c, s, req, now).0)
  {
  }

  lemma SubmitValid(s: State, req: SubmitRequest, now: Time)
    requires Valid(s)
    ensures Valid(Submit(s, req, now).0)
  {
    assert FormatTaskID(Increment(s.taskCounter))[0] == 't';
  }

  lemma CompleteValid(s: State, id: string, req: CompleteRequest, now: Time)
    requires Valid(s)
    ensures Valid(Complete(s, id, req, now).0)
  {
  }

  lemma RefreshValid(c: Config, s: State, now: Time)
    requires Valid(s)
    ensures Valid(Refresh(c, s, now)) && FreshAt(c, Refresh(c, s, now), now)
  {
  }

  lemma DispatchValid(c: Config, s: State, now: Time)
    requires Valid(s)
    ensures Valid(DispatchPending(c, s, now))
  {
    RefreshValid(c, s, now);
    var ready := Refresh(c, s, now);
    DispatchQueueValid(c, ready, PendingQueue(ready), now);
  }

  lemma StepValid(c: Config, s: State, step: Step)
    requires Valid(s)
    ensures Valid(Next(c, s, step))
  {
    match step
    case RegisterStep(req, now) => RegisterValid(c, s, req, now);
    case HeartbeatStep(req, now) => HeartbeatValid(c, s, req, now);
    case SubmitStep(req, now) => SubmitValid(s, req, now);
    case CompleteStep(id, req, now) => CompleteValid(s, id, req, now);
    case DispatchStep(now) => DispatchValid(c, s, now);
    case RefreshStep(now) => RefreshValid(c, s, now);
  }

  /** Every interleaving of write sections, with any clock readings, keeps the store well formed. */
  lemma {:induction false} RunValid(c: Config, steps: seq<Step>)
    ensures Valid(Exec(c, steps))
  {
    if steps == [] {
    } else {
      RunValid(c, steps[..|steps| - 1]);
      StepValid(c, Exec(c, steps[..|steps| - 1]), steps[|steps| - 1]);
    }
  }

  // ----- Repeated calls -----

  /** Registering again under the same id leaves what the last registration alone would leave. */
  lemma LastRegistrationWins(c: Config, s: State, a: RegisterRequest, b: RegisterRequest, now: Time, later: Time)
    requires a.id == b.id
    ensures Register(c, Register(c, s, a, now).0, b, later) == Register(c, s, b, later)
  {
    var r := Register(c, s, a, now).0;
    if a.id != "" {
      assert Register(c, r, b, later).0.nodes == Register(c, s, b, later).0.nodes;
    }
  }

  /** Likewise for heartbeats. */
  lemma LastHeartbeatWins(c: Config, s: State, a: HeartbeatRequest, b: HeartbeatRequest, now: Time, later: Time)
    requires a.id == b.id
    ensures Heartbeat(c, Heartbeat(c, s, a, now).0, b, later) == Heartbeat(c, s, b, later)
  {
    var r := Heartbeat(c, s, a, now).0;
    assert Heartbeat(c, r, b, later).0.nodes == Heartbeat(c, s, b, later).0.nodes;
  }

  /** A second report of a task replaces the first, and does not release its slot again. */
  lemma LastReportWins(s: State, id: string, a: CompleteRequest, b: CompleteRequest, now: Time, later: Time)
    ensures Complete(Complete(s, id, a, now).0, id, b, later) == Complete(s, id, b, later)
  {
    var r := Complete(s, id, a, now).0;
    assert Complete(r, id, b, later).0.tasks == Complete(s, id, b, later).0.tasks;
  }

  // ----- Task identifiers -----

  lemma {:induction false} DispatchQueueKeepsKeys(c: Config, s: State, q: seq<string>, now: Time)
    ensures
      var r := DispatchQueue(c, s, q, now);
      r.tasks.Keys == s.tasks.Keys && r.taskCounter == s.taskCounter
      && r.nodes.Keys == s.nodes.Keys && r.nodeOrder == s.nodeOrder
    decreases |q|
  {
    if q == [] || !IsPending(s, q[0]) {
    } else {
      var chosen := Select(c, s);
      if chosen.Some? { DispatchQueueKeepsKeys(c, Assign(c, s, q[0], chosen.value, now), q[1..], now); }
    }
  }

  /** A dispatch neither adds nor removes tasks or workers. */
  lemma DispatchKeepsKeys(c: Config, s: State, now: Time)
    ensures
      var r := DispatchPending(c, s, now);
      && r.tasks.Keys == s.tasks.Keys && r.taskCounter == s.taskCounter
      && r.nodes.Keys == s.nodes.Keys && r.nodeOrder == s.nodeOrder
  {
    var ready := Refresh(c, s, now);
    DispatchQueueKeepsKeys(c, ready, PendingQueue(ready), now);
  }

  ghost predicate KeysIssued(s: State, n: nat) {
    s.taskCounter == Low64(n) && s.tasks.Keys == IssuedIDs(n)
  }

  lemma SubmitKeys(s: State, n: nat, req: SubmitRequest, now: Time)
    requires KeysIssued(s, n) && SubmitAccepted(req)
    ensures KeysIssued(Submit(s, req, now).0, n + 1)
  {
    IncrementLow64(n);
  }

  lemma StepKeys(c: Config, s: State, n: nat, step: Step)
    requires KeysIssued(s, n)
    ensures KeysIssued(Next(c, s, step), n + if AcceptedSubmit(step) then 1 else 0)
  {
    match step
    case SubmitStep(req, now) => if SubmitAccepted(req) { SubmitKeys(s, n, req, now); }
    case DispatchStep(now) => DispatchKeepsKeys(c, s, now);
    case _ =>
  }

  /** In every run the stored keys are the identifiers of the accepted submissions, and no others. */
  lemma {:induction false} RunKeys(c: Config, steps: seq<Step>)
    ensures KeysIssued(Exec(c, steps), Submissions(steps))
  {
    if steps == [] {
      assert IssuedIDs(0) == {};
    } else {
      var init := steps[..|steps| - 1];
      RunKeys(c, init);
      StepKeys(c, Exec(c, init), Submissions(init), steps[|steps| - 1]);
    }
  }

  lemma SubmitFreshIn(s: State, n: nat, req: SubmitRequest, now: Time)
    requires SubmitAccepted(req) && KeysIssued(s, n)
    ensures Submit(s, req, now).1.Ok?
    ensures Submit(s, req, now).1.value !in s.tasks <==> n < TWO_64
  {
    IncrementLow64(n);
    FreshIff(n);
  }

  /** A submission after any run overwrites no stored task exactly while fewer than 2^64 were accepted. */
  lemma {:induction false} SubmitIsFreshIff(c: Config, steps: seq<Step>, req: SubmitRequest, now: Time)
    requires SubmitAccepted(req)
    ensures Submit(Exec(c, steps), req, now).1.Ok?
    ensures Submit(Exec(c, steps), req, now).1.value !in Exec(c, steps).tasks <==> Submissions(steps) < TWO_64
  {
    RunKeys(c, steps);
    SubmitFreshIn(Exec(c, steps), Submissions(steps), req, now);
  }

  // ----- The circular scan -----

  /** The offset at which the scan meets index `i`. */
  function OffsetOf(s: State, i: nat): (offset: nat)
    requires i < |s.nodeOrder|
    ensures offset < |s.nodeOrder|
  {
    if i >= Start(s) then i - Start(s) else i + |s.nodeOrder| - Start(s)
  }

  /** Offsets and indices correspond one to one: the scan meets every worker exactly once. */
  lemma ScanIsBijective(s: State, i: nat, offset: nat)
    requires i < |s.nodeOrder| && offset < |s.nodeOrder|
    ensures Visited(s, OffsetOf(s, i)) == i && OffsetOf(s, Visited(s, offset)) == offset
  {
  }

  lemma {:induction false} BestNoneIff(compare: Comparison, s: State, k: nat)
    requires k <= |s.nodeOrder| && s.nodeOrder != []
    ensures Best(compare, s, k).None? <==> forall o: nat :: o < k ==> !EligibleAt(s, Visited(s, o))
  {
    if k == 0 {
    } else {
      BestNoneIff(compare, s, k - 1);
    }
  }

  /** Selection fails exactly when no registered worker is eligible, whatever the strategy. */
  lemma SelectNoneIff(c: Config, s: State)
    ensures Select(c, s).None? <==> forall i: nat :: i < |s.nodeOrder| ==> !EligibleAt(s, i)
  {
    if s.nodeOrder != [] {
      BestNoneIff(c.Strategy(), s, |s.nodeOrder|);
      if Select(c, s).None? {
        forall i: nat | i < |s.nodeOrder| ensures !EligibleAt(s, i) {
          ScanIsBijective(s, i, 0);
          assert !EligibleAt(s, Visited(s, OffsetOf(s, i)));
        }
      }
    }
  }

  ghost function EligibleNodes(s: State): (ns: set<Node>) {
    set id | id in s.nodeOrder && id in s.nodes && Eligible(s.nodes[id]) :: s.nodes[id]
  }

  /** Best so far, and strictly better than everything met before it. */
  ghost predicate FirstMinimum(compare: Comparison, s: State, best: nat, k: nat)
    requires k <= |s.nodeOrder| && best < |s.nodeOrder| && EligibleAt(s, best)
  {
    forall o: nat :: o < k && EligibleAt(s, Visited(s, o)) ==>
      var d := compare(NodeAt(s, best), NodeAt(s, Visited(s, o)));
      d <= 0 && (o < OffsetOf(s, best) ==> d < 0)
  }

  lemma {:induction false} BestIsFirstMinimum(compare: Comparison, s: State, k: nat) returns (r: Option<nat>)
    requires s.nodeOrder != [] && k <= |s.nodeOrder|
    requires PreorderOn(compare, EligibleNodes(s))
    ensures r == Best(compare, s, k) && Leads(compare, s, r, k)
  {
    if k == 0 {
      r := None;
    } else {
      var before := BestIsFirstMinimum(compare, s, k - 1);
      r := BestStep(compare, s, k - 1, before);
    }
  }

  /** `r`, if there is one, is the first minimum of the first `k` places. */
  ghost predicate Leads(compare: Comparison, s: State, r: Option<nat>, k: nat)
    requires s.nodeOrder != [] && k <= |s.nodeOrder|
  {
    r.Some? ==>
      && r.value < |s.nodeOrder| && EligibleAt(s, r.value)
      && FirstMinimum(compare, s, r.value, k) && OffsetOf(s, r.value) < k
  }

  lemma {:induction false} BestStep(compare: Comparison, s: State, k: nat, before: Option<nat>) returns (r: Option<nat>)
    requires s.nodeOrder != [] && k < |s.nodeOrder| && PreorderOn(compare, EligibleNodes(s))
    requires before == Best(compare, s, k) && Leads(compare, s, before, k)
    ensures r == Best(compare, s, k + 1) && Leads(compare, s, r, k + 1)
  {
    var i := Visited(s, k);
    r := Best(compare, s, k + 1);
    ScanIsBijective(s, i, k);
    if !EligibleAt(s, i) {
      if before.Some? { SkipIneligible(compare, s, before.value, k); }
    } else if before.Some? {
      ExtendMinimum(compare, s, before.value, i, k);
    } else {
      BestNoneIff(compare, s, k);
      OnlyEligible(compare, s, i, k);
    }
  }

  lemma SkipIneligible(compare: Comparison, s: State, best: nat, k: nat)
    requires k < |s.nodeOrder| && best < |s.nodeOrder| && EligibleAt(s, best) && !EligibleAt(s, Visited(s, k))
    requires FirstMinimum(compare, s, best, k)
    ensures FirstMinimum(compare, s, best, k + 1)
  {
    forall o: nat | o < k + 1 && EligibleAt(s, Visited(s, o)) ensures o < k {}
  }

  lemma OnlyEligible(compare: Comparison, s: State, i: nat, k: nat)
    requires k < |s.nodeOrder| && i == Visited(s, k) && EligibleAt(s, i) && OffsetOf(s, i) == k
    requires forall o: nat :: o < k ==> !EligibleAt(s, Visited(s, o))
    requires PreorderOn(compare, EligibleNodes(s))
    ensures FirstMinimum(compare, s, i, k + 1)
  {
    assert NodeAt(s, i) in EligibleNodes(s);
    forall o: nat | o < k + 1 && EligibleAt(s, Visited(s, o)) ensures o == k {}
  }

  /** Meeting one more eligible worker leaves the better of the two ahead of all that were met. */
  lemma ExtendMinimum(compare: Comparison, s: State, best: nat, i: nat, k: nat)
    requires k < |s.nodeOrder| && best < |s.nodeOrder| && EligibleAt(s, best) && OffsetOf(s, best) < k
    requires i == Visited(s, k) && EligibleAt(s, i) && OffsetOf(s, i) == k
    requires PreorderOn(compare, EligibleNodes(s)) && FirstMinimum(compare, s, best, k)
    ensures FirstMinimum(compare, s, if compare(NodeAt(s, i), NodeAt(s, best)) < 0 then i else best, k + 1)
  {
    var all := EligibleNodes(s);
    var x, y := NodeAt(s, i), NodeAt(s, best);
    assert x in all && y in all;
    forall o: nat | o < k + 1 && EligibleAt(s, Visited(s, o))
      ensures
        var r := if compare(x, y) < 0 then i else best;
        var d := compare(NodeAt(s, r), NodeAt(s, Visited(s, o)));
        d <= 0 && (o < OffsetOf(s, r) ==> d < 0)
    {
      var z := NodeAt(s, Visited(s, o));
      assert z in all;
      if o < k && compare(x, y) < 0 {
        assert compare(y, z) <= 0;
        assert compare(z, x) <= 0 ==> compare(y, x) <= 0;
      }
    }
  }

  /** The selected worker is a best eligible one, and the first such in rotation order. */
  lemma SelectIsFirstMinimum(c: Config, s: State)
    requires PreorderOn(c.Strategy(), EligibleNodes(s))
    ensures
      var r := Select(c, s);
      var compare := if c.compare.Some? then c.compare.value else LeastLoaded;
      r.Some? ==> FirstMinimum(compare, s, r.value, |s.nodeOrder|)
  {
    if s.nodeOrder != [] { var _ := BestIsFirstMinimum(c.Strategy(), s, |s.nodeOrder|); }
  }

  // ----- How much one dispatch assigns -----

  /** Statuses were derived at `now`. */
  ghost predicate FreshAt(c: Config, s: State, now: Time) {
    forall id :: id in s.nodes ==> s.nodes[id].status == c.Derive(s.nodes[id], now)
  }

  function SlotsOf(s: State, id: string): (n: nat) {
    if id in s.nodes && s.nodes[id].status != Offline
    then Max(0, s.nodes[id].capacity - s.nodes[id].runningTasks) else 0
  }

  function FreeSlots(s: State, ids: seq<string>): (n: nat) {
    if ids == [] then 0 else SlotsOf(s, ids[0]) + FreeSlots(s, ids[1..])
  }

  lemma {:induction false} NoSlotsIff(s: State, ids: seq<string>)
    requires Valid(s) && forall id :: id in ids ==> id in s.nodes
    ensures FreeSlots(s, ids) == 0 <==> forall id :: id in ids ==> !Eligible(s.nodes[id])
  {
    if ids == [] {
    } else {
      assert ids == [ids[0]] + ids[1..];
      NoSlotsIff(s, ids[1..]);
    }
  }

  lemma {:induction false} AssignTakesOneSlot(c: Config, s: State, id: string, i: nat, now: Time, ids: seq<string>)
    requires Valid(s) && FreshAt(c, s, now) && IsPending(s, id) && i < |s.nodeOrder| && EligibleAt(s, i)
    requires Distinct(ids)
    ensures FreeSlots(Assign(c, s, id, i, now), ids)
            == FreeSlots(s, ids) - if s.nodeOrder[i] in ids then 1 else 0
  {
    if ids == [] {
    } else {
      assert ids == [ids[0]] + ids[1..];
      AssignTakesOneSlot(c, s, id, i, now, ids[1..]);
    }
  }

  /** What assignment does to one task record. */
  ghost predicate PlacedBy(s: State, t: Task, r: Task, now: Time) {
    && r == t.(assignedWorker := r.assignedWorker, status := Running,
               message := "assigned to worker", startedAt := Some(now))
    && r.assignedWorker in s.nodes && r.assignedWorker != ""
  }

  ghost function AssignedNow(s: State, q: seq<string>): (n: nat)
    ensures n <= |q|
  {
    Min(|q|, FreeSlots(s, s.nodeOrder))
  }

  ghost predicate PrefixPlaced(s: State, r: State, q: seq<string>, now: Time) {
    && r.tasks.Keys == s.tasks.Keys
    && forall id :: id in s.tasks ==>
         if id in q[..AssignedNow(s, q)] then PlacedBy(s, s.tasks[id], r.tasks[id], now)
         else r.tasks[id] == s.tasks[id]
  }

  lemma SlotsDecideSelection(c: Config, s: State)
    requires Valid(s)
    ensures Select(c, s).None? <==> FreeSlots(s, s.nodeOrder) == 0
  {
    SelectNoneIff(c, s);
    NoSlotsIff(s, s.nodeOrder);
    if forall i: nat :: i < |s.nodeOrder| ==> !EligibleAt(s, i) {
      forall id | id in s.nodeOrder ensures !Eligible(s.nodes[id]) {
        var i: nat :| i < |s.nodeOrder| && s.nodeOrder[i] == id;
        assert !EligibleAt(s, i);
      }
    } else {
      var i: nat :| i < |s.nodeOrder| && EligibleAt(s, i);
      assert s.nodeOrder[i] in s.nodeOrder;
    }
  }

  lemma AssignPlaces(c: Config, s: State, id: string, i: nat, now: Time)
    requires Valid(s) && FreshAt(c, s, now) && IsPending(s, id) && i < |s.nodeOrder| && EligibleAt(s, i)
    ensures
      var r := Assign(c, s, id, i, now);
      && FreshAt(c, r, now) && r.nodes.Keys == s.nodes.Keys && r.nodeOrder == s.nodeOrder
      && r.tasks == s.tasks[id := r.tasks[id]] && PlacedBy(s, s.tasks[id], r.tasks[id], now)
      && FreeSlots(s, s.nodeOrder) == FreeSlots(r, r.nodeOrder) + 1
  {
    AssignTakesOneSlot(c, s, id, i, now, s.nodeOrder);
  }

  ghost predicate QueueReady(c: Config, s: State, q: seq<string>, now: Time) {
    Valid(s) && FreshAt(c, s, now) && Distinct(q) && forall id :: id in q ==> IsPending(s, id)
  }

  /** The state after the first task of the queue is placed. */
  ghost function PlaceFirst(c: Config, s: State, q: seq<string>, now: Time): (r: State)
    requires q != [] && IsPending(s, q[0]) && Select(c, s).Some?
  {
    Assign(c, s, q[0], Select(c, s).value, now)
  }

  /** One turn of the dispatch loop leaves the rest of the queue ready. */
  lemma QueueTurn(c: Config, s: State, q: seq<string>, now: Time)
    requires QueueReady(c, s, q, now) && q != [] && Select(c, s).Some?
    ensures IsPending(s, q[0])
    ensures
      var s1 := PlaceFirst(c, s, q, now);
      && QueueReady(c, s1, q[1..], now) && s1.nodes.Keys == s.nodes.Keys && s1.nodeOrder == s.nodeOrder
      && q[0] in s1.tasks && s1.tasks == s.tasks[q[0] := s1.tasks[q[0]]]
      && PlacedBy(s, s.tasks[q[0]], s1.tasks[q[0]], now)
      && FreeSlots(s, s.nodeOrder) == FreeSlots(s1, s1.nodeOrder) + 1
      && DispatchQueue(c, s, q, now) == DispatchQueue(c, s1, q[1..], now)
  {
    assert q[0] in q;
    var i := Select(c, s).value;
    var s1 := PlaceFirst(c, s, q, now);
    AssignValid(c, s, q[0], i, now);
    AssignPlaces(c, s, q[0], i, now);
    forall id | id in q[1..] ensures IsPending(s1, id) { assert id in q && id != q[0]; }
  }

  lemma {:induction false} QueuePrefix(c: Config, s: State, q: seq<string>, now: Time)
    requires QueueReady(c, s, q, now)
    ensures PrefixPlaced(s, DispatchQueue(c, s, q, now), q, now)
    decreases |q|
  {
    SlotsDecideSelection(c, s);
    if q == [] || FreeSlots(s, s.nodeOrder) == 0 {
      assert q[..AssignedNow(s, q)] == [];
    } else {
      QueueTurn(c, s, q, now);
      var s1 := PlaceFirst(c, s, q, now);
      QueuePrefix(c, s1, q[1..], now);
      ConsPrefix(s, s1, DispatchQueue(c, s1, q[1..], now), q, now);
    }
  }

  /** Each placed task uses up one free slot. */
  lemma {:induction false} QueueUsesSlots(c: Config, s: State, q: seq<string>, now: Time)
    requires QueueReady(c, s, q, now)
    ensures
      var r := DispatchQueue(c, s, q, now);
      FreshAt(c, r, now) && FreeSlots(r, r.nodeOrder) == FreeSlots(s, s.nodeOrder) - AssignedNow(s, q)
    decreases |q|
  {
    SlotsDecideSelection(c, s);
    if q == [] || FreeSlots(s, s.nodeOrder) == 0 {
    } else {
      QueueTurn(c, s, q, now);
      QueueUsesSlots(c, PlaceFirst(c, s, q, now), q[1..], now);
    }
  }

  lemma ConsPrefix(s: State, s1: State, r: State, q: seq<string>, now: Time)
    requires q != [] && Distinct(q) && q[0] in s.tasks
    requires FreeSlots(s, s.nodeOrder) == FreeSlots(s1, s1.nodeOrder) + 1
    requires s1.nodes.Keys == s.nodes.Keys && q[0] in s1.tasks && s1.tasks == s.tasks[q[0] := s1.tasks[q[0]]]
    requires PlacedBy(s, s.tasks[q[0]], s1.tasks[q[0]], now)
    requires PrefixPlaced(s1, r, q[1..], now)
    ensures PrefixPlaced(s, r, q, now)
  {
    var rest := q[1..][..AssignedNow(s1, q[1..])];
    assert q[..AssignedNow(s, q)] == [q[0]] + rest;
    assert q[0] !in rest;
  }

  /** One dispatch assigns the oldest min(pending, free slots) tasks and touches no other task. */
  lemma DispatchAssignsPrefix(c: Config, s: State, now: Time)
    requires Valid(s)
    ensures
      var ready := Refresh(c, s, now);
      PrefixPlaced(ready, DispatchPending(c, s, now), PendingQueue(ready), now)
  {
    var ready := Refresh(c, s, now);
    RefreshValid(c, s, now);
    QueuePrefix(c, ready, PendingQueue(ready), now);
  }

  lemma AmountOf(s: State, r: State, q: seq<string>, now: Time)
    requires PrefixPlaced(s, r, q, now) && Distinct(q) && forall id :: id in q <==> id in PendingIDs(s)
    ensures |PendingIDs(s)| - |PendingIDs(r)| == Min(|PendingIDs(s)|, FreeSlots(s, s.nodeOrder))
  {
    var n := AssignedNow(s, q);
    StillPending(s, r, q, now);
    DistinctSize(q);
    DistinctSize(q[n..]);
    assert PendingIDs(s) == set id | id in q;
  }

  /** After any run, a dispatch assigns exactly min(pending tasks, free slots of online workers). */
  lemma DispatchAmount(c: Config, steps: seq<Step>, now: Time)
    ensures
      var s := Exec(c, steps);
      var ready := Refresh(c, s, now);
      |PendingIDs(s)| - |PendingIDs(DispatchPending(c, s, now))|
      == Min(|PendingIDs(s)|, FreeSlots(ready, ready.nodeOrder))
  {
    RunValid(c, steps);
    var s := Exec(c, steps);
    var ready := Refresh(c, s, now);
    assert PendingIDs(s) == PendingIDs(ready);
    DispatchAssignsPrefix(c, s, now);
    AmountOf(ready, DispatchPending(c, s, now), PendingQueue(ready), now);
  }

  lemma StillPending(s: State, r: State, q: seq<string>, now: Time)
    requires PrefixPlaced(s, r, q, now) && Distinct(q) && forall id :: id in q <==> id in PendingIDs(s)
    ensures PendingIDs(r) == set id | id in q[AssignedNow(s, q)..]
  {
    var n := AssignedNow(s, q);
    assert q == q[..n] + q[n..];
    forall id | id in PendingIDs(r) ensures id in q[n..] { assert id in q; }
    forall id | id in q[n..] ensures id in PendingIDs(r) { assert id in q && id !in q[..n]; }
  }

  /** The dispatched state is the same for every order in which the map yields its pending tasks. */
  lemma DispatchIgnoresMapOrder(c: Config, s: State, collected: seq<string>, sorted: seq<string>, now: Time)
    requires Distinct(collected) && forall id :: id in collected <==> id in PendingIDs(s)
    requires Enumerates(Older(s), sorted, set id | id in collected)
    ensures DispatchQueue(c, s, sorted, now) == DispatchQueue(c, s, PendingQueue(s), now)
  {
    OlderIsStrictTotal(s);
    assert PendingIDs(s) == set id | id in collected;
    SortedUnique(Older(s), sorted, PendingQueue(s), PendingIDs(s));
  }
}
