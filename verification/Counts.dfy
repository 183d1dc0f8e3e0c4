/** Running counters against the tasks they are meant to count, over whole runs. */
module Counts {
  import opened Machine
  import opened Order
  import opened Model
  import opened Cluster
  import opened Invariants

  /** Tasks the scheduler believes to be running on a worker. */
  function RunningOn(s: State, worker: string): (ids: set<string>) {
    set id | id in s.tasks && s.tasks[id].status == Running && s.tasks[id].assignedWorker == worker
  }

  /** How far a worker's counter is from the truth. */
  function Drift(s: State, worker: string): (d: int)
    requires worker in s.nodes
  {
    s.nodes[worker].runningTasks - |RunningOn(s, worker)|
  }

  predicate AcceptedHeartbeat(s: State, step: Step, worker: string) {
    step.HeartbeatStep? && step.heartbeat.id == worker && worker in s.nodes
  }

  lemma AssignKeepsDrift(c: Config, s: State, id: string, i: nat, now: Time, w: string)
    requires Valid(s) && IsPending(s, id) && i < |s.nodeOrder| && EligibleAt(s, i) && w in s.nodes
    ensures Drift(Assign(c, s, id, i, now), w) == Drift(s, w)
  {
    AssignAddsTask(c, s, id, i, now, w);
    assert id !in RunningOn(s, w);
  }

  lemma AssignAddsTask(c: Config, s: State, id: string, i: nat, now: Time, w: string)
    requires Valid(s) && IsPending(s, id) && i < |s.nodeOrder| && EligibleAt(s, i)
    ensures RunningOn(Assign(c, s, id, i, now), w) == RunningOn(s, w) + if w == s.nodeOrder[i] then {id} else {}
  {
  }

  lemma {:induction false} QueueKeepsDrift(c: Config, s: State, q: seq<string>, now: Time, w: string)
    requires Valid(s) && w in s.nodes
    ensures w in DispatchQueue(c, s, q, now).nodes
    ensures Drift(DispatchQueue(c, s, q, now), w) == Drift(s, w)
    decreases |q|
  {
    if q == [] || !IsPending(s, q[0]) {
    } else {
      var chosen := Select(c, s);
      if chosen.Some? {
        AssignKeepsDrift(c, s, q[0], chosen.value, now, w);
        AssignValid(c, s, q[0], chosen.value, now);
        QueueKeepsDrift(c, Assign(c, s, q[0], chosen.value, now), q[1..], now, w);
      }
    }
  }

  lemma DispatchKeepsDrift(c: Config, s: State, now: Time, w: string)
    requires Valid(s) && w in s.nodes
    ensures w in DispatchPending(c, s, now).nodes
    ensures Drift(DispatchPending(c, s, now), w) == Drift(s, w)
  {
    var ready := Refresh(c, s, now);
    RefreshValid(c, s, now);
    assert RunningOn(ready, w) == RunningOn(s, w);
    QueueKeepsDrift(c, ready, PendingQueue(ready), now, w);
  }

  /** Completing keeps the drift, except that a counter already at zero cannot follow the tasks down. */
  lemma CompleteDrift(s: State, id: string, req: CompleteRequest, now: Time, w: string)
    requires Valid(s) && w in s.nodes
    ensures
      var r := Complete(s, id, req, now).0;
      && w in r.nodes
      && Drift(r, w) == Drift(s, w) + if id in RunningOn(s, w) && s.nodes[w].runningTasks == 0 then 1 else 0
  {
    var r := Complete(s, id, req, now).0;
    if id in s.tasks {
      assert RunningOn(r, w) == RunningOn(s, w) - {id};
    } else {
      assert RunningOn(r, w) == RunningOn(s, w);
    }
  }

  lemma SubmitDrift(s: State, req: SubmitRequest, now: Time, w: string)
    requires Valid(s) && w in s.nodes
    requires var id := Submit(s, req, now).1; id.Ok? ==> id.value !in s.tasks
    ensures var r := Submit(s, req, now).0; w in r.nodes && Drift(r, w) == Drift(s, w)
  {
    var r := Submit(s, req, now).0;
    assert RunningOn(r, w) == RunningOn(s, w);
  }

  predicate OverwritesNothing(s: State, step: Step) {
    step.SubmitStep? ==> var id := Submit(s, step.submit, step.now).1; id.Ok? ==> id.value !in s.tasks
  }

  /** Between two heartbeats of a worker its drift is constant, or negative and closing by one. */
  lemma DriftStep(c: Config, s: State, step: Step, w: string)
    requires Valid(s) && w in s.nodes && OverwritesNothing(s, step) && !AcceptedHeartbeat(s, step, w)
    ensures w in Next(c, s, step).nodes
    ensures
      var d, d' := Drift(s, w), Drift(Next(c, s, step), w);
      d' == d || (d < 0 && d' == d + 1 && step.CompleteStep?)
  {
    var r := Next(c, s, step);
    match step
    case RegisterStep(req, now) => assert RunningOn(r, w) == RunningOn(s, w);
    case HeartbeatStep(req, now) => assert RunningOn(r, w) == RunningOn(s, w);
    case SubmitStep(req, now) => SubmitDrift(s, req, now, w);
    case CompleteStep(id, req, now) =>
      CompleteDrift(s, id, req, now, w);
      if id in RunningOn(s, w) { assert |RunningOn(s, w)| > 0; }
    case DispatchStep(now) => DispatchKeepsDrift(c, s, now, w);
    case RefreshStep(now) => assert RunningOn(r, w) == RunningOn(s, w);
  }

  /** A heartbeat sets the drift to its own error, so it leaves the counter exact iff it was truthful. */
  lemma HeartbeatDrift(c: Config, s: State, req: HeartbeatRequest, now: Time)
    requires Valid(s) && req.id in s.nodes
    ensures
      var r := Heartbeat(c, s, req, now).0;
      && req.id in r.nodes
      && Drift(r, req.id) == Max(0, req.runningTasks) - |RunningOn(s, req.id)|
  {
    var r := Heartbeat(c, s, req, now).0;
    assert RunningOn(r, req.id) == RunningOn(s, req.id);
  }

  lemma NewWorkerHasNoTasks(c: Config, s: State, req: RegisterRequest, now: Time)
    requires Valid(s) && req.id != "" && req.id !in s.nodes
    ensures Drift(Register(c, s, req, now).0, req.id) == 0
  {
    var r := Register(c, s, req, now).0;
    assert RunningOn(r, req.id) == {};
  }

  ghost predicate Exact(s: State) { forall w :: w in s.nodes ==> Drift(s, w) == 0 }

  /** The heartbeat, if it is one that is accepted, reports the true count. */
  predicate Truthful(s: State, step: Step) {
    step.HeartbeatStep? && step.heartbeat.id in s.nodes ==>
      Max(0, step.heartbeat.runningTasks) == |RunningOn(s, step.heartbeat.id)|
  }

  /** From exact counters, a step keeps them exact if and only if it is truthful. */
  lemma ExactStepIff(c: Config, s: State, step: Step)
    requires Valid(s) && Exact(s) && OverwritesNothing(s, step)
    ensures Exact(Next(c, s, step)) <==> Truthful(s, step)
  {
    var r := Next(c, s, step);
    if step.HeartbeatStep? && step.heartbeat.id in s.nodes { HeartbeatDrift(c, s, step.heartbeat, step.now); }
    if Truthful(s, step) {
      forall w | w in r.nodes ensures Drift(r, w) == 0 {
        if w !in s.nodes {
          WorkersOnlyJoin(c, s, step, w);
          NewWorkerHasNoTasks(c, s, step.register, step.now);
        } else if !AcceptedHeartbeat(s, step, w) {
          DriftStep(c, s, step, w);
        }
      }
    }
  }

  lemma WorkersOnlyJoin(c: Config, s: State, step: Step, w: string)
    requires w !in s.nodes && w in Next(c, s, step).nodes
    ensures step.RegisterStep? && step.register.id == w && w != ""
  {
    if step.DispatchStep? { DispatchKeepsKeys(c, s, step.now); }
  }

  ghost predicate TruthfulRun(c: Config, steps: seq<Step>) {
    forall k :: 0 <= k < |steps| ==> Truthful(Exec(c, steps[..k]), steps[k])
  }

  lemma RunOverwritesNothing(c: Config, steps: seq<Step>, step: Step)
    requires Submissions(steps + [step]) <= TWO_64
    ensures OverwritesNothing(Exec(c, steps), step)
  {
    var all := steps + [step];
    assert all[..|all| - 1] == steps;
    if AcceptedSubmit(step) { SubmitIsFreshIff(c, steps, step.submit, step.now); }
  }

  lemma {:induction false} TruthfulPrefix(c: Config, init: seq<Step>, last: Step)
    requires TruthfulRun(c, init + [last])
    ensures TruthfulRun(c, init) && Truthful(Exec(c, init), last)
  {
    var steps := init + [last];
    forall k | 0 <= k < |init| ensures Truthful(Exec(c, init[..k]), init[k]) {
      assert steps[..k] == init[..k] && steps[k] == init[k];
    }
    assert steps[..|init|] == init && steps[|init|] == last;
  }

  /** In every run whose heartbeats are truthful, each counter equals the number of running tasks. */
  lemma {:induction false} RunExact(c: Config, steps: seq<Step>)
    requires TruthfulRun(c, steps) && Submissions(steps) <= TWO_64
    ensures Exact(Exec(c, steps))
  {
    if steps == [] {
    } else {
      var init, last := steps[..|steps| - 1], steps[|steps| - 1];
      assert steps == init + [last];
      TruthfulPrefix(c, init, last);
      RunExact(c, init);
      RunValid(c, init);
      RunOverwritesNothing(c, init, last);
      ExactStepIff(c, Exec(c, init), last);
    }
  }

  // ----- Capacity -----

  ghost predicate WithinCapacity(s: State) {
    forall w :: w in s.nodes ==> s.nodes[w].runningTasks <= s.nodes[w].capacity
  }

  /** Re-registration does not lower a capacity below the counter, nor a heartbeat report above it. */
  predicate RespectsCapacity(s: State, step: Step) {
    && (step.RegisterStep? && step.register.id in s.nodes ==>
          s.nodes[step.register.id].runningTasks <= Max(1, step.register.capacity))
    && (step.HeartbeatStep? && step.heartbeat.id in s.nodes ==>
          step.heartbeat.runningTasks <= s.nodes[step.heartbeat.id].capacity)
  }

  lemma {:induction false} QueueWithinCapacity(c: Config, s: State, q: seq<string>, now: Time)
    requires Valid(s) && WithinCapacity(s)
    ensures WithinCapacity(DispatchQueue(c, s, q, now))
    decreases |q|
  {
    if q == [] || !IsPending(s, q[0]) {
    } else {
      var chosen := Select(c, s);
      if chosen.Some? {
        AssignValid(c, s, q[0], chosen.value, now);
        QueueWithinCapacity(c, Assign(c, s, q[0], chosen.value, now), q[1..], now);
      }
    }
  }

  /** No worker is over capacity after a step iff the step respected the capacities it found. */
  lemma CapacityStepIff(c: Config, s: State, step: Step)
    requires Valid(s) && WithinCapacity(s)
    ensures WithinCapacity(Next(c, s, step)) <==> RespectsCapacity(s, step)
  {
    var r := Next(c, s, step);
    match step
    case RegisterStep(req, now) =>
      assert req.id in r.nodes && !RespectsCapacity(s, step) ==> !WithinCapacity(r);
    case HeartbeatStep(req, now) =>
      assert req.id in r.nodes && !RespectsCapacity(s, step) ==> !WithinCapacity(r);
    case DispatchStep(now) =>
      RefreshValid(c, s, now);
      var ready := Refresh(c, s, now);
      QueueWithinCapacity(c, ready, PendingQueue(ready), now);
    case _ =>
  }

  ghost predicate CapacityRun(c: Config, steps: seq<Step>) {
    forall k :: 0 <= k < |steps| ==> RespectsCapacity(Exec(c, steps[..k]), steps[k])
  }

  lemma {:induction false} RunWithinCapacity(c: Config, steps: seq<Step>)
    requires CapacityRun(c, steps)
    ensures WithinCapacity(Exec(c, steps))
  {
    if steps == [] {
    } else {
      var init, last := steps[..|steps| - 1], steps[|steps| - 1];
      forall k | 0 <= k < |init| ensures RespectsCapacity(Exec(c, init[..k]), init[k]) {
        assert steps[..k] == init[..k];
      }
      RunWithinCapacity(c, init);
      RunValid(c, init);
      CapacityStepIff(c, Exec(c, init), last);
    }
  }

  /** Re-registration never asks for less capacity than the tasks the worker is running. */
  predicate KeepsRoom(s: State, step: Step) {
    step.RegisterStep? && step.register.id in s.nodes ==>
      |RunningOn(s, step.register.id)| <= Max(1, step.register.capacity)
  }

  /** With truthful heartbeats and room kept at re-registration, no worker ever runs more than it can hold. */
  lemma {:induction false} RunNeverOverloads(c: Config, steps: seq<Step>)
    requires TruthfulRun(c, steps) && Submissions(steps) <= TWO_64
    requires forall k :: 0 <= k < |steps| ==> KeepsRoom(Exec(c, steps[..k]), steps[k])
    ensures forall w :: w in Exec(c, steps).nodes ==>
      |RunningOn(Exec(c, steps), w)| == Exec(c, steps).nodes[w].runningTasks <= Exec(c, steps).nodes[w].capacity
  {
    RunExact(c, steps);
    if steps == [] {
    } else {
      var init, last := steps[..|steps| - 1], steps[|steps| - 1];
      forall k | 0 <= k < |init|
        ensures Truthful(Exec(c, init[..k]), init[k]) && KeepsRoom(Exec(c, init[..k]), init[k])
      {
        assert steps[..k] == init[..k];
      }
      assert Submissions(init) <= Submissions(steps);
      RunNeverOverloads(c, init);
      RunValid(c, init);
      assert steps[..|init|] == init;
      var s := Exec(c, init);
      assert WithinCapacity(s);
      assert KeepsRoom(s, last) && Truthful(s, last);
      CapacityStepIff(c, s, last);
      var r := Exec(c, steps);
      forall w | w in r.nodes
        ensures |RunningOn(r, w)| == r.nodes[w].runningTasks <= r.nodes[w].capacity
      {
        assert Drift(r, w) == 0;
      }
    }
  }

  // ----- Why truthful heartbeats are needed -----

  lemma OnlyPending(s: State, id: string)
    requires PendingIDs(s) == {id}
    ensures PendingQueue(s) == [id]
  {
    OlderIsStrictTotal(s);
    SortedUnique(Older(s), PendingQueue(s), [id], PendingIDs(s));
  }

  /** A cluster of one worker of capacity 1, which really runs `count` tasks; none is waiting. */
  ghost predicate LoneWorker(c: Config, s: State, w: string, now: Time, count: nat) {
    && Valid(s) && s.nodeOrder == [w] && w in s.nodes && s.nodes[w].capacity == 1
    && !Late(s.nodes[w], now, c.offlineAfter) && PendingIDs(s) == {} && |RunningOn(s, w)| == count
  }

  /** With one task waiting, a dispatch is one assignment, if there is a worker. */
  lemma DispatchOne(c: Config, s: State, id: string, now: Time)
    requires PendingIDs(s) == {id} && Select(c, Refresh(c, s, now)).Some?
    ensures IsPending(s, id)
    ensures
      var ready := Refresh(c, s, now);
      DispatchPending(c, s, now) == Assign(c, ready, id, Select(c, ready).value, now)
  {
    assert id in PendingIDs(s);
    var ready := Refresh(c, s, now);
    assert PendingIDs(ready) == PendingIDs(s);
    OnlyPending(ready, id);
    var r := Assign(c, ready, id, Select(c, ready).value, now);
    assert [id][1..] == [];
    assert DispatchQueue(c, r, [], now) == r;
  }

  lemma SingleDispatch(c: Config, s: State, w: string, id: string, now: Time)
    requires Valid(s) && s.nodeOrder == [w] && w in s.nodes && PendingIDs(s) == {id}
    requires s.nodes[w].capacity == 1 && s.nodes[w].runningTasks == 0 && !Late(s.nodes[w], now, c.offlineAfter)
    ensures IsPending(s, id) && DispatchPending(c, s, now) == Assign(c, Refresh(c, s, now), id, 0, now)
  {
    var ready := RefreshedLone(c, s, w, now);
    assert EligibleAt(ready, 0);
    SelectNoneIff(c, ready);
    DispatchOne(c, s, id, now);
  }

  /** Waiting for one task, with the counter at zero. */
  ghost predicate LoneWithTask(c: Config, s: State, w: string, id: string, now: Time, count: nat) {
    && Valid(s) && s.nodeOrder == [w] && w in s.nodes && PendingIDs(s) == {id}
    && s.nodes[w].capacity == 1 && s.nodes[w].runningTasks == 0 && !Late(s.nodes[w], now, c.offlineAfter)
    && |RunningOn(s, w)| == count
  }

  lemma AssignedSets(c: Config, s: State, w: string, id: string, now: Time)
    requires Valid(s) && s.nodeOrder == [w] && w in s.nodes && PendingIDs(s) == {id}
    ensures id in s.tasks
    ensures
      var r := Assign(c, s, id, 0, now);
      PendingIDs(r) == {} && RunningOn(r, w) == RunningOn(s, w) + {id} && id !in RunningOn(s, w)
  {
    assert id in PendingIDs(s);
    var r := Assign(c, s, id, 0, now);
    forall x ensures x in PendingIDs(r) <==> x in PendingIDs(s) && x != id {}
  }

  lemma LoneWorkerTakesTask(c: Config, s: State, w: string, id: string, now: Time, count: nat)
    requires LoneWithTask(c, s, w, id, now, count)
    ensures
      var r := DispatchPending(c, s, now);
      LoneWorker(c, r, w, now, count + 1) && r.tasks.Keys == s.tasks.Keys && r.taskCounter == s.taskCounter
  {
    DispatchValid(c, s, now);
    RefreshValid(c, s, now);
    SingleDispatch(c, s, w, id, now);
    var ready := RefreshedLone(c, s, w, now);
    AssignedSets(c, ready, w, id, now);
    AssignedFields(c, ready, w, id, now);
  }

  lemma RefreshedLone(c: Config, s: State, w: string, now: Time) returns (r: State)
    requires Valid(s) && s.nodeOrder == [w] && w in s.nodes
    ensures r == Refresh(c, s, now) && Valid(r) && r.nodeOrder == [w] && w in r.nodes
    ensures PendingIDs(r) == PendingIDs(s) && RunningOn(r, w) == RunningOn(s, w)
    ensures r.tasks.Keys == s.tasks.Keys && r.taskCounter == s.taskCounter
    ensures r.nodes[w].capacity == s.nodes[w].capacity && r.nodes[w].lastHeartbeat == s.nodes[w].lastHeartbeat
    ensures r.nodes[w].runningTasks == s.nodes[w].runningTasks
    ensures EligibleAt(r, 0) <==> !Late(s.nodes[w], now, c.offlineAfter) && !Full(s.nodes[w])
  {
    RefreshValid(c, s, now);
    r := Refresh(c, s, now);
    assert PendingIDs(r) == PendingIDs(s) && RunningOn(r, w) == RunningOn(s, w);
  }

  lemma AssignedFields(c: Config, s: State, w: string, id: string, now: Time)
    requires Valid(s) && s.nodeOrder == [w] && w in s.nodes && id in s.tasks
    ensures
      var r := Assign(c, s, id, 0, now);
      && r.nodeOrder == [w] && w in r.nodes && r.nodes[w].capacity == s.nodes[w].capacity
      && r.nodes[w].lastHeartbeat == s.nodes[w].lastHeartbeat
      && r.tasks.Keys == s.tasks.Keys && r.taskCounter == s.taskCounter
  {
  }

  lemma SubmitToLone(c: Config, s: State, w: string, req: SubmitRequest, now: Time, count: nat)
    requires SubmitAccepted(req) && count < 10
    requires LoneWorker(c, s, w, now, count) && s.nodes[w].runningTasks == 0 && KeysIssued(s, count)
    ensures Submit(s, req, now).1.Ok? && KeysIssued(Submit(s, req, now).0, count + 1)
    ensures LoneWithTask(c, Submit(s, req, now).0, w, Submit(s, req, now).1.value, now, count)
  {
    var (s1, result) := Submit(s, req, now);
    SubmitFreshIn(s, count, req, now);
    SubmitKeys(s, count, req, now);
    SubmittedSets(s, w, req, now);
    SubmitValid(s, req, now);
  }

  lemma SubmittedSets(s: State, w: string, req: SubmitRequest, now: Time)
    requires SubmitAccepted(req) && Submit(s, req, now).1.value !in s.tasks
    ensures PendingIDs(Submit(s, req, now).0) == PendingIDs(s) + {Submit(s, req, now).1.value}
    ensures RunningOn(Submit(s, req, now).0, w) == RunningOn(s, w)
  {
  }

  /** A longer run whose new steps are neither registrations nor heartbeats. */
  ghost predicate QuietlyExtends(longer: seq<Step>, steps: seq<Step>) {
    && |steps| <= |longer| && longer[..|steps|] == steps
    && forall k :: |steps| <= k < |longer| ==> !longer[k].RegisterStep? && !longer[k].HeartbeatStep?
  }

  /** While its counter shows zero, the worker is given one more task. */
  lemma OneMoreTask(c: Config, steps: seq<Step>, w: string, req: SubmitRequest, now: Time, count: nat)
    returns (longer: seq<Step>)
    requires SubmitAccepted(req) && count < 10
    requires LoneWorker(c, Exec(c, steps), w, now, count) && KeysIssued(Exec(c, steps), count)
    requires Exec(c, steps).nodes[w].runningTasks == 0
    ensures QuietlyExtends(longer, steps)
    ensures LoneWorker(c, Exec(c, longer), w, now, count + 1) && KeysIssued(Exec(c, longer), count + 1)
  {
    var s := Exec(c, steps);
    var (s1, result) := Submit(s, req, now);
    SubmitToLone(c, s, w, req, now, count);
    LoneWorkerTakesTask(c, s1, w, result.value, now, count);
    ExecSubmit(c, steps, req, now);
    ExecDispatch(c, steps + [SubmitStep(req, now)], now);
    longer := QuietPair(steps, SubmitStep(req, now), DispatchStep(now));
  }

  lemma QuietPair(steps: seq<Step>, x: Step, y: Step) returns (longer: seq<Step>)
    requires x.SubmitStep? && y.DispatchStep?
    ensures longer == steps + [x] + [y] && QuietlyExtends(longer, steps)
  {
    longer := steps + [x] + [y];
    assert longer[..|steps|] == steps;
  }

  lemma JoinedWorker(c: Config, w: string, address: string, now: Time) returns (steps: seq<Step>)
    requires c.offlineAfter >= 0 && w != ""
    ensures |steps| == 1 && steps[0].RegisterStep?
    ensures LoneWorker(c, Exec(c, steps), w, now, 0) && KeysIssued(Exec(c, steps), 0)
    ensures Exec(c, steps).nodes[w].runningTasks == 0 && Exec(c, steps).nodes[w].address == address
  {
    var join := RegisterRequest(w, address, 1, []);
    var s := Register(c, INITIAL, join, now).0;
    RegisterValid(c, INITIAL, join, now);
    assert RunningOn(s, w) == {};
    steps := [RegisterStep(join, now)];
    assert steps[..0] == [];
    assert Exec(c, steps) == s;
  }

  /** The worker forgets what it runs, and reports nothing. */
  lemma LyingWorker(c: Config, steps: seq<Step>, w: string, now: Time, count: nat) returns (longer: seq<Step>)
    requires c.offlineAfter >= 0 && LoneWorker(c, Exec(c, steps), w, now, count) && KeysIssued(Exec(c, steps), count)
    ensures longer == steps + [HeartbeatStep(HeartbeatRequest(w, 0), now)]
    ensures count > 0 ==> !Truthful(Exec(c, steps), longer[|steps|])
    ensures LoneWorker(c, Exec(c, longer), w, now, count) && KeysIssued(Exec(c, longer), count)
    ensures Exec(c, longer).nodes[w].runningTasks == 0
  {
    var s, lie := Exec(c, steps), HeartbeatRequest(w, 0);
    HeartbeatValid(c, s, lie, now);
    LieKeepsTasks(c, s, lie, now);
    assert NodeOk(w, s.nodes[w]);
    ExecHeartbeat(c, steps, lie, now);
    longer := steps + [HeartbeatStep(lie, now)];
  }

  /** Exactly one step of the run is untruthful, and no re-registration cuts a capacity below the tasks running. */
  ghost predicate OneLie(c: Config, steps: seq<Step>, lie: nat) {
    && lie < |steps|
    && (forall k :: 0 <= k < |steps| ==> (Truthful(Exec(c, steps[..k]), steps[k]) <==> k != lie))
    && (forall k :: 0 <= k < |steps| ==> KeepsRoom(Exec(c, steps[..k]), steps[k]))
  }

  lemma LieShape(joined: seq<Step>, before: seq<Step>, lied: seq<Step>, steps: seq<Step>)
    requires |joined| == 1 && QuietlyExtends(before, joined) && QuietlyExtends(steps, lied)
    requires |lied| == |before| + 1 && lied[..|before|] == before
    ensures steps[..|before|] == before && steps[|before|] == lied[|before|]
    ensures forall k :: 0 <= k < |steps| && steps[k].HeartbeatStep? && !before[0].HeartbeatStep? ==> k == |before|
    ensures forall k :: 0 <= k < |steps| && steps[k].RegisterStep? && !lied[|before|].RegisterStep? ==> k == 0
  {
    assert forall k :: 0 <= k < |lied| ==> steps[k] == lied[k] by { assert steps[..|lied|] == lied; }
    assert forall k :: 0 <= k < |before| ==> lied[k] == before[k] by { assert lied[..|before|] == before; }
    assert steps[..|before|] == before;
  }

  lemma OnlyOneLie(c: Config, steps: seq<Step>, lie: nat)
    requires lie < |steps| && !Truthful(Exec(c, steps[..lie]), steps[lie])
    requires forall k :: 0 <= k < |steps| && steps[k].HeartbeatStep? ==> k == lie
    requires forall k :: 0 <= k < |steps| && steps[k].RegisterStep? ==> k == 0
    ensures OneLie(c, steps, lie)
  {
    assert steps[..0] == [];
    assert Exec(c, steps[..0]) == INITIAL;
  }

  /** One untruthful heartbeat, in a run that is otherwise as required, lets a worker of capacity 1 run two tasks. */
  lemma FalseHeartbeatOverloads(c: Config, w: string, req: SubmitRequest) returns (steps: seq<Step>, lie: nat)
    requires c.offlineAfter >= 0 && w != "" && SubmitAccepted(req)
    ensures OneLie(c, steps, lie)
    ensures
      var s := Exec(c, steps);
      w in s.nodes && s.nodes[w].capacity == 1 && |RunningOn(s, w)| == 2
  {
    var joined := JoinedWorker(c, w, "", 1);
    var before := OneMoreTask(c, joined, w, req, 1, 0);
    var lied := LyingWorker(c, before, w, 1, 1);
    lie := |before|;
    steps := OneMoreTask(c, lied, w, req, 1, 1);
    LieShape(joined, before, lied, steps);
    OnlyOneLie(c, steps, lie);
  }

  lemma LieKeepsTasks(c: Config, s: State, lie: HeartbeatRequest, now: Time)
    ensures RunningOn(Heartbeat(c, s, lie, now).0, lie.id) == RunningOn(s, lie.id)
    ensures PendingIDs(Heartbeat(c, s, lie, now).0) == PendingIDs(s)
  {
  }
}
