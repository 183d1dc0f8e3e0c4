/** What the stored records of workers and tasks say, read off the steps of a run. */
module Records {
  import opened Wrappers
  import opened Machine
  import opened Order
  import opened Naming
  import opened Model
  import opened Cluster
  import opened Invariants
  import opened Counts
  import opened History

  // ----- Workers -----

  /** The step is an accepted registration of the worker. */
  predicate Registers(step: Step, w: string) { step.RegisterStep? && step.register.id == w && w != "" }

  predicate Beats(step: Step, w: string) { step.HeartbeatStep? && step.heartbeat.id == w }

  /** Step `k` is an accepted registration or heartbeat of the worker. */
  ghost predicate Contact(c: Config, steps: seq<Step>, k: nat, w: string) {
    k < |steps| && (Registers(steps[k], w) || (Beats(steps[k], w) && w in Exec(c, steps[..k]).nodes))
  }

  /** What only registrations change. */
  ghost predicate SameStatic(n: Node, r: Node) {
    r.id == n.id && r.address == n.address && r.labels == n.labels && r.capacity == n.capacity
  }

  /** What only registrations and heartbeats change. */
  ghost predicate SameIdentity(n: Node, r: Node) {
    SameStatic(n, r) && r.lastHeartbeat == n.lastHeartbeat
  }

  ghost predicate NodesKept(s: State, r: State) {
    r.nodes.Keys == s.nodes.Keys && forall w :: w in s.nodes ==> SameIdentity(s.nodes[w], r.nodes[w])
  }

  lemma {:induction false} QueueKeepsNodes(c: Config, s: State, q: seq<string>, now: Time)
    ensures NodesKept(s, DispatchQueue(c, s, q, now))
    decreases |q|
  {
    if q == [] || !IsPending(s, q[0]) {
    } else {
      var chosen := Select(c, s);
      if chosen.Some? { QueueKeepsNodes(c, Assign(c, s, q[0], chosen.value, now), q[1..], now); }
    }
  }

  lemma DispatchKeepsNodes(c: Config, s: State, now: Time)
    ensures NodesKept(s, DispatchPending(c, s, now))
  {
    var ready := Refresh(c, s, now);
    QueueKeepsNodes(c, ready, PendingQueue(ready), now);
  }

  lemma OtherStepsKeepNodes(c: Config, s: State, step: Step)
    requires !step.RegisterStep? && !step.HeartbeatStep?
    ensures NodesKept(s, Next(c, s, step))
  {
    match step
    case DispatchStep(now) => DispatchKeepsNodes(c, s, now);
    case _ =>
  }

  /** The static part of a worker record is that of a registration. */
  ghost predicate RegisteredAs(n: Node, req: RegisterRequest) {
    && n.id == req.id && n.address == req.address && n.labels == req.labels
    && n.capacity == if req.capacity <= 0 then 1 else req.capacity
  }

  lemma RegistrationStep(c: Config, s: State, step: Step, w: string)
    requires Valid(s)
    ensures w in Next(c, s, step).nodes <==> w in s.nodes || Registers(step, w)
    ensures Registers(step, w) ==> RegisteredAs(Next(c, s, step).nodes[w], step.register)
    ensures w in s.nodes && !Registers(step, w) ==>
      SameStatic(s.nodes[w], Next(c, s, step).nodes[w])
  {
    if !step.RegisterStep? && !step.HeartbeatStep? { OtherStepsKeepNodes(c, s, step); }
    assert w in s.nodes ==> NodeOk(w, s.nodes[w]);
  }

  lemma ContactStep(c: Config, s: State, step: Step, w: string)
    requires Valid(s) && w in Next(c, s, step).nodes
    ensures Registers(step, w) || w in s.nodes
    ensures Next(c, s, step).nodes[w].lastHeartbeat
            == if Registers(step, w) || Beats(step, w) then step.now else s.nodes[w].lastHeartbeat
  {
    RegistrationStep(c, s, step, w);
    if !step.RegisterStep? && !step.HeartbeatStep? { OtherStepsKeepNodes(c, s, step); }
    assert w in s.nodes ==> NodeOk(w, s.nodes[w]);
  }

  /** A worker is known exactly when it was registered. */
  lemma {:induction false} RegisteredIff(c: Config, steps: seq<Step>, w: string)
    ensures w in Exec(c, steps).nodes <==> exists k: nat :: k < |steps| && Registers(steps[k], w)
  {
    if steps == [] {
    } else {
      var init, last := steps[..|steps| - 1], steps[|steps| - 1];
      RegisteredIff(c, init, w);
      RunValid(c, init);
      RegistrationStep(c, Exec(c, init), last, w);
      if exists k: nat :: k < |steps| && Registers(steps[k], w) {
        var k: nat :| k < |steps| && Registers(steps[k], w);
        assert k < |init| ==> Registers(init[k], w);
      }
      assert forall k: nat :: k < |init| ==> steps[k] == init[k];
    }
  }

  lemma LastWrite(c: Config, steps: seq<Step>) returns (init: seq<Step>, last: Step)
    requires steps != []
    ensures init == steps[..|steps| - 1] && last == steps[|steps| - 1] && steps == init + [last]
    ensures Valid(Exec(c, init)) && Exec(c, steps) == Next(c, Exec(c, init), last)
  {
    init, last := steps[..|steps| - 1], steps[|steps| - 1];
    RunValid(c, init);
  }

  /** Its address, labels and capacity are those of its last accepted registration. */
  lemma {:induction false} RegistrationRecord(c: Config, steps: seq<Step>, w: string) returns (k: nat)
    requires w in Exec(c, steps).nodes
    ensures k < |steps| && Registers(steps[k], w) && forall j: nat :: k < j < |steps| ==> !Registers(steps[j], w)
    ensures RegisteredAs(Exec(c, steps).nodes[w], steps[k].register)
    decreases |steps|
  {
    var init, last := LastWrite(c, steps);
    RegistrationStep(c, Exec(c, init), last, w);
    if Registers(last, w) {
      k := |init|;
    } else {
      k := RegistrationRecord(c, init, w);
      assert SameStatic(Exec(c, init).nodes[w], Exec(c, steps).nodes[w]);
    }
  }

  /** Its heartbeat time is the clock reading of its last accepted registration or heartbeat. */
  lemma {:induction false} ContactRecord(c: Config, steps: seq<Step>, w: string) returns (k: nat)
    requires w in Exec(c, steps).nodes
    ensures Contact(c, steps, k, w) && forall j: nat :: k < j < |steps| ==> !Contact(c, steps, j, w)
    ensures Exec(c, steps).nodes[w].lastHeartbeat == steps[k].now
    decreases |steps|
  {
    var init, last := LastWrite(c, steps);
    ContactStep(c, Exec(c, init), last, w);
    if Registers(last, w) || Beats(last, w) {
      k := |init|;
    } else {
      k := ContactRecord(c, init, w);
      forall j: nat | j < |init| ensures Contact(c, steps, j, w) <==> Contact(c, init, j, w) {
        assert steps[..j] == init[..j];
      }
    }
  }

  /** Workers are listed in the order in which they first registered: what was listed once stays in its place. */
  lemma {:induction false} RegistrationOrder(c: Config, steps: seq<Step>, k: nat)
    requires k <= |steps|
    ensures Exec(c, steps[..k]).nodeOrder <= Exec(c, steps).nodeOrder
    decreases |steps|
  {
    if k == |steps| {
      assert steps[..k] == steps;
    } else {
      var init, last := steps[..|steps| - 1], steps[|steps| - 1];
      assert init[..k] == steps[..k];
      RegistrationOrder(c, init, k);
      if last.DispatchStep? { DispatchKeepsKeys(c, Exec(c, init), last.now); }
      assert Exec(c, init).nodeOrder <= Exec(c, steps).nodeOrder;
    }
  }

  // ----- Worker states -----

  /** Silent for longer than the threshold. A worker whose last contact reads zero is not, and at the largest
      threshold a 64-bit duration can hold no worker ever is. */
  predicate SilentTooLong(contact: Time, now: Time, offlineAfter: int) {
    contact != 0 && now - contact > offlineAfter && offlineAfter < TWO_63 - 1
  }

  /** The state shown for a worker that was last heard of at `contact`. */
  ghost predicate ShownAt(n: Node, contact: Time, now: Time, offlineAfter: int) {
    && (n.status == Offline <==> SilentTooLong(contact, now, offlineAfter))
    && (n.status == Busy <==> !SilentTooLong(contact, now, offlineAfter) && n.runningTasks >= n.capacity)
    && (n.status == Ready <==> !SilentTooLong(contact, now, offlineAfter) && n.runningTasks < n.capacity)
  }

  predicate IsDuration(d: int) { -TWO_63 <= d < TWO_63 }

  lemma FreshIsShown(c: Config, s: State, now: Time, w: string)
    requires Valid(s) && FreshAt(c, s, now) && w in s.nodes && IsDuration(c.offlineAfter)
    ensures ShownAt(s.nodes[w], s.nodes[w].lastHeartbeat, now, c.offlineAfter)
  {
    assert NodeOk(w, s.nodes[w]);
  }

  lemma RefreshedIsFresh(c: Config, s: State, step: Step)
    requires Valid(s) && (step.RefreshStep? || step.DispatchStep?)
    ensures FreshAt(c, Next(c, s, step), step.now)
  {
    RefreshValid(c, s, step.now);
    if step.DispatchStep? {
      var ready := Refresh(c, s, step.now);
      QueueUsesSlots(c, ready, PendingQueue(ready), step.now);
    }
  }

  /** After a refresh or a dispatch at any point of a run, every worker is offline exactly when it was silent for
      longer than the threshold, and otherwise busy exactly when it has no free slot. */
  lemma StatusRecord(c: Config, steps: seq<Step>, last: Step, w: string) returns (k: nat)
    requires IsDuration(c.offlineAfter) && (last.RefreshStep? || last.DispatchStep?)
    requires w in Exec(c, steps + [last]).nodes
    ensures Contact(c, steps, k, w) && forall j: nat :: k < j < |steps| ==> !Contact(c, steps, j, w)
    ensures ShownAt(Exec(c, steps + [last]).nodes[w], steps[k].now, last.now, c.offlineAfter)
  {
    ExecExtends(c, steps, last);
    RunValid(c, steps);
    RunValid(c, steps + [last]);
    RefreshedIsFresh(c, Exec(c, steps), last);
    FreshIsShown(c, Exec(c, steps + [last]), last.now, w);
    RegistrationStep(c, Exec(c, steps), last, w);
    ContactStep(c, Exec(c, steps), last, w);
    k := ContactRecord(c, steps, w);
  }

  /** What a registration or heartbeat shows of its own worker. */
  lemma StatusOfContact(c: Config, s: State, step: Step, w: string)
    requires Valid(s) && IsDuration(c.offlineAfter)
    requires Registers(step, w) || (Beats(step, w) && w in s.nodes)
    ensures w in Next(c, s, step).nodes && ShownAt(Next(c, s, step).nodes[w], step.now, step.now, c.offlineAfter)
    ensures Beats(step, w) ==>
      Next(c, s, step).nodes[w].runningTasks
      == if step.heartbeat.runningTasks < 0 then 0 else step.heartbeat.runningTasks
  {
    StepValid(c, s, step);
    assert w in s.nodes ==> NodeOk(w, s.nodes[w]);
    assert NodeOk(w, Next(c, s, step).nodes[w]);
  }

  // ----- Tasks -----

  /** What a report leaves of a task. */
  ghost predicate Outcome(t: Task, req: CompleteRequest, now: Time) {
    && (t.status == Completed <==> req.success) && (t.status == Failed <==> !req.success)
    && t.completedAt == Some(now)
    && (req.message != "" ==> t.message == req.message)
    && (req.message == "" ==> t.message == if req.success then "completed" else "failed")
  }

  ghost predicate Placement(t: Task, r: Task, now: Time) {
    && r.status == Running && r.startedAt == Some(now) && r.message == "assigned to worker"
    && r.completedAt == t.completedAt && r.assignedWorker != ""
  }

  lemma ReportStep(c: Config, s: State, step: Step, id: string)
    requires Valid(s) && id in s.tasks && ReportsOn(step, id)
    ensures
      var t, r := s.tasks[id], Next(c, s, step).tasks[id];
      id in Next(c, s, step).tasks && Outcome(r, step.complete, step.now)
      && r.startedAt == t.startedAt && r.assignedWorker == t.assignedWorker
  {
    assert TaskOk(s, id, s.tasks[id]);
  }

  lemma DispatchTask(c: Config, s: State, now: Time, id: string)
    requires Valid(s) && id in s.tasks
    ensures
      var r := DispatchPending(c, s, now);
      && id in r.tasks
      && (r.tasks[id] == s.tasks[id]
          || (s.tasks[id].status == Pending && Placement(s.tasks[id], r.tasks[id], now)))
  {
    DispatchAssignsPrefix(c, s, now);
    var ready := Refresh(c, s, now);
    var q := PendingQueue(ready);
    if id in q[..AssignedNow(ready, q)] { assert id in q; }
  }

  lemma {:induction false} QueueLeavesPlaced(c: Config, s: State, q: seq<string>, now: Time, id: string)
    requires id in s.tasks && s.tasks[id].status != Pending
    ensures id in DispatchQueue(c, s, q, now).tasks && DispatchQueue(c, s, q, now).tasks[id] == s.tasks[id]
    decreases |q|
  {
    if q == [] || !IsPending(s, q[0]) {
    } else {
      var chosen := Select(c, s);
      if chosen.Some? { QueueLeavesPlaced(c, Assign(c, s, q[0], chosen.value, now), q[1..], now, id); }
    }
  }

  /** What a call returns after recording a report and dispatching. */
  lemma DispatchLeavesOutcome(c: Config, s: State, now: Time, id: string)
    requires id in s.tasks && s.tasks[id].status != Pending
    ensures id in DispatchPending(c, s, now).tasks && DispatchPending(c, s, now).tasks[id] == s.tasks[id]
  {
    var ready := Refresh(c, s, now);
    QueueLeavesPlaced(c, ready, PendingQueue(ready), now, id);
  }

  /** A step that does not report on a task leaves it alone, or is the dispatch that places it. */
  lemma TaskStep(c: Config, s: State, step: Step, id: string)
    requires Valid(s) && OverwritesNothing(s, step) && id in s.tasks && !ReportsOn(step, id)
    ensures
      var r := Next(c, s, step);
      && id in r.tasks
      && (r.tasks[id] == s.tasks[id]
          || (step.DispatchStep? && s.tasks[id].status == Pending && Placement(s.tasks[id], r.tasks[id], step.now)))
  {
    match step
    case DispatchStep(now) => DispatchTask(c, s, now, id);
    case _ =>
  }

  /** Step `k` is an accepted report on the task. */
  ghost predicate Reported(c: Config, steps: seq<Step>, k: nat, id: string) {
    k < |steps| && ReportsOn(steps[k], id) && id in Exec(c, steps[..k]).tasks
  }

  lemma {:induction false} LastStep(c: Config, steps: seq<Step>) returns (init: seq<Step>, last: Step)
    requires steps != [] && Submissions(steps) <= TWO_64
    ensures init == steps[..|steps| - 1] && last == steps[|steps| - 1] && steps == init + [last]
    ensures Submissions(init) <= TWO_64 && Valid(Exec(c, init)) && OverwritesNothing(Exec(c, init), last)
    ensures Exec(c, steps) == Next(c, Exec(c, init), last)
  {
    init, last := LastWrite(c, steps);
    RunOverwritesNothing(c, init, last);
  }

  /** A task's outcome is that of the last accepted report on it. */
  lemma {:induction false} OutcomeRecord(c: Config, steps: seq<Step>, k: nat, id: string)
    requires Submissions(steps) <= TWO_64 && Reported(c, steps, k, id)
    requires forall j: nat :: k < j < |steps| ==> !ReportsOn(steps[j], id)
    ensures id in Exec(c, steps).tasks && Outcome(Exec(c, steps).tasks[id], steps[k].complete, steps[k].now)
    decreases |steps|
  {
    var init, last := LastStep(c, steps);
    if k == |init| {
      ReportStep(c, Exec(c, init), last, id);
    } else {
      assert init[..k] == steps[..k] && forall j: nat :: j < |init| ==> steps[j] == init[j];
      OutcomeRecord(c, init, k, id);
      TaskStep(c, Exec(c, init), last, id);
    }
  }

  /** From its assignment on, a task carries the time of that dispatch, and says so until a report on it. */
  lemma {:induction false} PlacementRecord(c: Config, steps: seq<Step>, k: nat, id: string)
    requires Submissions(steps) <= TWO_64 && AssignedBy(c, steps, k, id)
    ensures steps[k].DispatchStep? && id in Exec(c, steps).tasks
    ensures
      var t := Exec(c, steps).tasks[id];
      && t.startedAt == Some(steps[k].now) && t.status != Pending
      && ((forall j: nat :: k < j < |steps| ==> !ReportsOn(steps[j], id)) ==>
            t.status == Running && t.message == "assigned to worker" && t.completedAt == None)
    decreases |steps|
  {
    var init, last := LastStep(c, steps);
    if k == |init| {
      assert steps[..k] == init && steps[..k + 1] == steps;
      PlacedNow(c, Exec(c, init), last, id);
    } else {
      assert init[..k] == steps[..k] && init[..k + 1] == steps[..k + 1];
      PlacementRecord(c, init, k, id);
      PlacedLater(c, Exec(c, init), last, id);
      assert forall j: nat :: j < |init| ==> steps[j] == init[j];
    }
  }

  lemma PlacedNow(c: Config, s: State, step: Step, id: string)
    requires Valid(s) && OverwritesNothing(s, step) && IsPending(s, id)
    requires HasStatus(Next(c, s, step), id, Running)
    ensures step.DispatchStep?
    ensures
      var t := Next(c, s, step).tasks[id];
      t.startedAt == Some(step.now) && t.message == "assigned to worker" && t.completedAt == None
  {
    assert TaskOk(s, id, s.tasks[id]);
    if ReportsOn(step, id) { ReportStep(c, s, step, id); } else { TaskStep(c, s, step, id); }
  }

  lemma PlacedLater(c: Config, s: State, step: Step, id: string)
    requires Valid(s) && OverwritesNothing(s, step) && id in s.tasks && s.tasks[id].status != Pending
    ensures
      var r := Next(c, s, step);
      && id in r.tasks && r.tasks[id].startedAt == s.tasks[id].startedAt && r.tasks[id].status != Pending
      && (!ReportsOn(step, id) ==> r.tasks[id] == s.tasks[id])
  {
    if ReportsOn(step, id) { ReportStep(c, s, step, id); } else { TaskStep(c, s, step, id); }
  }

  // ----- Which events a task's state reflects -----

  ghost predicate WasReported(c: Config, steps: seq<Step>, id: string) { exists k: nat :: Reported(c, steps, k, id) }

  ghost predicate WasAssigned(c: Config, steps: seq<Step>, id: string) { exists k: nat :: AssignedBy(c, steps, k, id) }

  lemma ReportedExtends(c: Config, init: seq<Step>, last: Step, id: string)
    ensures WasReported(c, init + [last], id)
            <==> WasReported(c, init, id) || (ReportsOn(last, id) && id in Exec(c, init).tasks)
  {
    var steps := init + [last];
    assert steps[..|init|] == init;
    forall k: nat | k < |init| ensures Reported(c, steps, k, id) <==> Reported(c, init, k, id) {
      assert steps[..k] == init[..k];
    }
    if ReportsOn(last, id) && id in Exec(c, init).tasks { assert Reported(c, steps, |init|, id); }
  }

  lemma AssignedSame(c: Config, init: seq<Step>, last: Step, k: nat, id: string)
    requires k < |init|
    ensures AssignedBy(c, init + [last], k, id) <==> AssignedBy(c, init, k, id)
  {
    assert (init + [last])[..k] == init[..k] && (init + [last])[..k + 1] == init[..k + 1];
  }

  lemma AssignedExtends(c: Config, init: seq<Step>, last: Step, id: string)
    ensures WasAssigned(c, init + [last], id) <==>
            WasAssigned(c, init, id) || (IsPending(Exec(c, init), id) && HasStatus(Exec(c, init + [last]), id, Running))
  {
    var steps := init + [last];
    assert steps[..|init|] == init && steps[..|steps|] == steps;
    forall k: nat | k < |init| ensures AssignedBy(c, steps, k, id) <==> AssignedBy(c, init, k, id) {
      AssignedSame(c, init, last, k, id);
    }
    if IsPending(Exec(c, init), id) && HasStatus(Exec(c, steps), id, Running) {
      assert AssignedBy(c, steps, |init|, id);
    }
  }

  lemma NothingBefore(c: Config, steps: seq<Step>, id: string)
    requires Submissions(steps) <= TWO_64 && id !in Exec(c, steps).tasks
    ensures !WasReported(c, steps, id) && !WasAssigned(c, steps, id)
  {
    forall k: nat | k < |steps| ensures id !in Exec(c, steps[..k]).tasks { RunProgress(c, steps, k); }
  }

  ghost predicate Waiting(t: Task) {
    && t.status == Pending && t.message == "queued" && t.assignedWorker == ""
    && t.startedAt == None && t.completedAt == None
  }

  /** The state of a task after the events so far. */
  ghost predicate Lifecycle(t: Task, reported: bool, placed: bool) {
    && (Terminal(t) <==> reported)
    && (t.status == Running <==> placed && !reported)
    && (t.status == Pending <==> !placed && !reported)
    && (t.status == Pending ==> Waiting(t))
  }

  lemma OnlySubmissionsCreate(c: Config, s: State, step: Step, id: string)
    requires id !in s.tasks && id in Next(c, s, step).tasks
    ensures step.SubmitStep?
  {
    match step
    case DispatchStep(now) => DispatchKeepsKeys(c, s, now);
    case _ =>
  }

  lemma CreatedWaiting(c: Config, s: State, step: Step, id: string)
    requires id !in s.tasks && id in Next(c, s, step).tasks
    ensures Waiting(Next(c, s, step).tasks[id])
  {
    OnlySubmissionsCreate(c, s, step, id);
  }

  lemma LifecycleStep(c: Config, s: State, step: Step, id: string, reported: bool, placed: bool)
    requires Valid(s) && OverwritesNothing(s, step) && id in s.tasks && Lifecycle(s.tasks[id], reported, placed)
    ensures
      var r := Next(c, s, step);
      && id in r.tasks
      && Lifecycle(r.tasks[id], reported || ReportsOn(step, id),
                   placed || (IsPending(s, id) && HasStatus(r, id, Running)))
  {
    if ReportsOn(step, id) { ReportStep(c, s, step, id); } else { TaskStep(c, s, step, id); }
  }

  /** In every run a task is finished exactly when a report on it was accepted, running exactly when a dispatch has
      placed it and no report came, and waiting in the queue otherwise. */
  lemma {:induction false} LifecycleRecord(c: Config, steps: seq<Step>, id: string)
    requires Submissions(steps) <= TWO_64 && id in Exec(c, steps).tasks
    ensures Lifecycle(Exec(c, steps).tasks[id], WasReported(c, steps, id), WasAssigned(c, steps, id))
    decreases |steps|
  {
    var init, last := LastStep(c, steps);
    var s := Exec(c, init);
    ReportedExtends(c, init, last, id);
    AssignedExtends(c, init, last, id);
    if id in s.tasks {
      LifecycleRecord(c, init, id);
      LifecycleStep(c, s, last, id, WasReported(c, init, id), WasAssigned(c, init, id));
    } else {
      NothingBefore(c, init, id);
      CreatedWaiting(c, s, last, id);
    }
  }

  // ----- Requests -----

  /** Step `k` is the submission that created the task. */
  ghost predicate CreatedAtStep(steps: seq<Step>, k: nat, id: string) {
    k < |steps| && AcceptedSubmit(steps[k]) && id == NthID(Submissions(steps[..k]) + 1)
  }

  /** Every stored task carries what the submission that created it asked for. */
  lemma RequestRecord(c: Config, steps: seq<Step>, id: string) returns (k: nat)
    requires Submissions(steps) <= TWO_64 && id in Exec(c, steps).tasks
    ensures CreatedAtStep(steps, k, id)
    ensures
      var t, req := Exec(c, steps).tasks[id], steps[k].submit;
      && t.model == req.model && t.operation == req.operation && t.payloadRef == req.payloadRef
      && t.metadata == req.metadata && t.createdAt == steps[k].now
  {
    RunKeys(c, steps);
    var n := IssuedIDsOnly(Submissions(steps), id);
    k := CreationRecord(c, steps, n);
  }

  /** The queue is ordered by the clock readings of the submissions, and among equal ones by identifier. */
  lemma QueueOrder(c: Config, steps: seq<Step>, i: nat, j: nat) returns (a: nat, b: nat)
    requires Submissions(steps) <= TWO_64 && i < j < |PendingQueue(Exec(c, steps))|
    ensures
      var q := PendingQueue(Exec(c, steps));
      && CreatedAtStep(steps, a, q[i]) && CreatedAtStep(steps, b, q[j])
      && (steps[a].now < steps[b].now || (steps[a].now == steps[b].now && Less(q[i], q[j])))
  {
    var s := Exec(c, steps);
    var q := PendingQueue(s);
    assert q[i] in PendingIDs(s) && q[j] in PendingIDs(s);
    a := RequestRecord(c, steps, q[i]);
    b := RequestRecord(c, steps, q[j]);
    assert CreatedAt(s, q[i]) == steps[a].now && CreatedAt(s, q[j]) == steps[b].now;
    assert Older(s)(q[i], q[j]);
  }

  // ----- Only workers that are heard of are given tasks -----

  lemma {:induction false} QueueAssignsAlive(c: Config, s: State, q: seq<string>, now: Time, id: string)
    requires QueueReady(c, s, q, now) && IsPending(s, id) && IsDuration(c.offlineAfter)
    requires HasStatus(DispatchQueue(c, s, q, now), id, Running)
    ensures
      var w := DispatchQueue(c, s, q, now).tasks[id].assignedWorker;
      w in s.nodes && !SilentTooLong(s.nodes[w].lastHeartbeat, now, c.offlineAfter)
    decreases |q|
  {
    SlotsDecideSelection(c, s);
    if q == [] || Select(c, s).None? {
      assert false;
    } else {
      QueueTurn(c, s, q, now);
      var i := Select(c, s).value;
      var s1 := PlaceFirst(c, s, q, now);
      if id == q[0] {
        FreshIsShown(c, s, now, s.nodeOrder[i]);
        assert NodeOk(s.nodeOrder[i], s.nodes[s.nodeOrder[i]]);
        QueueProgress(c, s1, q[1..], now);
      } else {
        QueueAssignsAlive(c, s1, q[1..], now, id);
        AssignKeepsNodes(c, s, q[0], i, now);
      }
    }
  }

  lemma AssignKeepsNodes(c: Config, s: State, id: string, i: nat, now: Time)
    requires i < |s.nodeOrder| && s.nodeOrder[i] in s.nodes && id in s.tasks
    ensures NodesKept(s, Assign(c, s, id, i, now))
  {
  }

  lemma DispatchAssignsAlive(c: Config, s: State, now: Time, id: string)
    requires Valid(s) && IsPending(s, id) && IsDuration(c.offlineAfter)
    requires HasStatus(DispatchPending(c, s, now), id, Running)
    ensures
      var w := DispatchPending(c, s, now).tasks[id].assignedWorker;
      w in s.nodes && !SilentTooLong(s.nodes[w].lastHeartbeat, now, c.offlineAfter)
  {
    RefreshValid(c, s, now);
    var ready := Refresh(c, s, now);
    QueueAssignsAlive(c, ready, PendingQueue(ready), now, id);
  }

  /** No dispatch of a run places a task on a worker that was silent for longer than the threshold. */
  lemma AssignedToLiving(c: Config, steps: seq<Step>, k: nat, id: string) returns (w: string, j: nat)
    requires IsDuration(c.offlineAfter) && Submissions(steps) <= TWO_64 && AssignedBy(c, steps, k, id)
    ensures w == Exec(c, steps[..k + 1]).tasks[id].assignedWorker
    ensures Contact(c, steps[..k], j, w) && forall i: nat :: j < i < k ==> !Contact(c, steps[..k], i, w)
    ensures !SilentTooLong(steps[j].now, steps[k].now, c.offlineAfter)
  {
    var init, last := steps[..k], steps[k];
    assert steps[..k + 1] == init + [last];
    SubmissionsOfPrefix(steps, k + 1);
    ExecExtends(c, init, last);
    RunValid(c, init);
    RunOverwritesNothing(c, init, last);
    PlacedNow(c, Exec(c, init), last, id);
    DispatchAssignsAlive(c, Exec(c, init), last.now, id);
    w := Exec(c, init + [last]).tasks[id].assignedWorker;
    j := ContactRecord(c, init, w);
  }

  // ----- The threshold is sharp -----

  /** A worker registers, and a task is submitted and dispatched later. */
  function LateTask(w: string, t: Time, req: SubmitRequest, later: Time): (steps: seq<Step>) {
    [RegisterStep(RegisterRequest(w, "", 1, []), t), SubmitStep(req, later), DispatchStep(later)]
  }

  lemma FirstID()
    ensures FormatTaskID(1) == "task-000001"
  {
    assert Decimal(1) == "1" && Zeros(5) == "00000";
  }

  lemma LoneTask(c: Config, w: string, t: Time, req: SubmitRequest, later: Time) returns (s: State)
    requires w != "" && SubmitAccepted(req)
    ensures Exec(c, LateTask(w, t, req, later)) == DispatchPending(c, s, later) && Valid(s)
    ensures s.nodeOrder == [w] && PendingIDs(s) == {"task-000001"} && w in s.nodes
    ensures s.nodes[w].capacity == 1 && s.nodes[w].runningTasks == 0 && s.nodes[w].lastHeartbeat == t
  {
    var join, steps := RegisterRequest(w, "", 1, []), LateTask(w, t, req, later);
    var s1 := Register(c, INITIAL, join, t).0;
    assert [] + [steps[0]] == [steps[0]] && steps[..2] == [steps[0]] + [steps[1]];
    ExecExtends(c, [], steps[0]);
    ExecSubmit(c, [steps[0]], req, later);
    s := Submit(s1, req, later).0;
    FirstID();
    RunValid(c, steps[..2]);
    assert PendingIDs(s) == {"task-000001"};
    assert steps == steps[..2] + [DispatchStep(later)];
    ExecDispatch(c, steps[..2], later);
  }

  lemma LoneSlots(s: State, w: string)
    requires w in s.nodes && s.nodes[w].capacity == 1 && s.nodes[w].runningTasks == 0
    ensures FreeSlots(s, [w]) == if s.nodes[w].status == Offline then 0 else 1
  {
    assert [w][1..] == [] && FreeSlots(s, []) == 0;
  }

  lemma LoneDispatch(c: Config, s: State, w: string, id: string, now: Time)
    requires Valid(s) && s.nodeOrder == [w] && PendingIDs(s) == {id} && IsDuration(c.offlineAfter)
    requires w in s.nodes && s.nodes[w].capacity == 1 && s.nodes[w].runningTasks == 0
    ensures
      var r := DispatchPending(c, s, now);
      && id in r.tasks
      && if SilentTooLong(s.nodes[w].lastHeartbeat, now, c.offlineAfter) then r.tasks[id].status == Pending
         else r.tasks[id].status == Running && r.tasks[id].assignedWorker == w
  {
    var ready := RefreshedLone(c, s, w, now);
    RefreshValid(c, s, now);
    FreshIsShown(c, ready, now, w);
    OnlyPending(ready, id);
    assert id in PendingIDs(s);
    DispatchAssignsPrefix(c, s, now);
    LoneSlots(ready, w);
    assert [id][..1] == [id] && [id][..0] == [];
    assert forall x :: x in ready.nodes ==> x in ready.nodeOrder;
  }

  /** At exactly the threshold the worker is still given the task, and one nanosecond later it is not. */
  lemma ThresholdIsSharp(c: Config, w: string, t: Time, req: SubmitRequest, later: Time)
    requires IsDuration(c.offlineAfter) && c.offlineAfter < TWO_63 - 1 && w != "" && t != 0 && SubmitAccepted(req)
    ensures
      var s := Exec(c, LateTask(w, t, req, later));
      && "task-000001" in s.tasks
      && (if later - t <= c.offlineAfter
          then s.tasks["task-000001"].status == Running && s.tasks["task-000001"].assignedWorker == w
          else s.tasks["task-000001"].status == Pending)
  {
    var s := LoneTask(c, w, t, req, later);
    LoneDispatch(c, s, w, "task-000001", later);
  }
}
