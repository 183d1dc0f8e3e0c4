/** What happens to one task over a whole run. */
module History {
  import opened Wrappers
  import opened Machine
  import opened Order
  import opened Naming
  import opened Model
  import opened Cluster
  import opened Invariants
  import opened Counts

  /** A task's request never changes; its placement is decided once; finished stays finished. */
  ghost predicate Progress(t: Task, r: Task) {
    && r.id == t.id && r.model == t.model && r.operation == t.operation
    && r.payloadRef == t.payloadRef && r.metadata == t.metadata && r.createdAt == t.createdAt
    && (t.status != Pending ==>
          r.status != Pending && r.assignedWorker == t.assignedWorker && r.startedAt == t.startedAt)
    && (Terminal(t) ==> Terminal(r))
  }

  ghost predicate AllProgress(s: State, r: State) {
    forall id :: id in s.tasks ==> id in r.tasks && Progress(s.tasks[id], r.tasks[id])
  }

  lemma {:induction false} QueueProgress(c: Config, s: State, q: seq<string>, now: Time)
    ensures AllProgress(s, DispatchQueue(c, s, q, now))
    decreases |q|
  {
    if q == [] || !IsPending(s, q[0]) {
    } else {
      var chosen := Select(c, s);
      if chosen.Some? {
        var s1 := Assign(c, s, q[0], chosen.value, now);
        assert AllProgress(s, s1);
        QueueProgress(c, s1, q[1..], now);
      }
    }
  }

  lemma DispatchProgress(c: Config, s: State, now: Time)
    ensures AllProgress(s, DispatchPending(c, s, now))
  {
    var ready := Refresh(c, s, now);
    QueueProgress(c, ready, PendingQueue(ready), now);
  }

  lemma CompleteProgress(s: State, id: string, req: CompleteRequest, now: Time)
    ensures AllProgress(s, Complete(s, id, req, now).0)
  {
  }

  lemma StepProgress(c: Config, s: State, step: Step)
    requires OverwritesNothing(s, step)
    ensures AllProgress(s, Next(c, s, step))
  {
    match step
    case DispatchStep(now) => DispatchProgress(c, s, now);
    case CompleteStep(id, req, now) => CompleteProgress(s, id, req, now);
    case _ =>
  }

  /** From any point of a run to any later one, every task makes progress and nothing else. */
  lemma {:induction false} RunProgress(c: Config, steps: seq<Step>, k: nat)
    requires k <= |steps| && Submissions(steps) <= TWO_64
    ensures AllProgress(Exec(c, steps[..k]), Exec(c, steps))
    decreases |steps|
  {
    if k == |steps| {
      assert steps[..k] == steps;
    } else {
      var init, last := steps[..|steps| - 1], steps[|steps| - 1];
      assert init[..k] == steps[..k] && steps == init + [last];
      RunProgress(c, init, k);
      RunOverwritesNothing(c, init, last);
      StepProgress(c, Exec(c, init), last);
    }
  }

  /** Step `k` of the run takes the task from pending to running. */
  ghost predicate AssignedBy(c: Config, steps: seq<Step>, k: nat, id: string) {
    && k < |steps|
    && IsPending(Exec(c, steps[..k]), id)
    && id in Exec(c, steps[..k + 1]).tasks && Exec(c, steps[..k + 1]).tasks[id].status == Running
  }

  /** No task is assigned by two steps of a run. */
  lemma AssignedAtMostOnce(c: Config, steps: seq<Step>, j: nat, k: nat, id: string)
    requires Submissions(steps) <= TWO_64 && AssignedBy(c, steps, j, id) && AssignedBy(c, steps, k, id)
    ensures j == k
  {
    if j < k {
      NotPendingAgain(c, steps, j, k, id);
    } else if k < j {
      NotPendingAgain(c, steps, k, j, id);
    }
  }

  lemma NotPendingAgain(c: Config, steps: seq<Step>, j: nat, k: nat, id: string)
    requires Submissions(steps) <= TWO_64 && AssignedBy(c, steps, j, id) && j < k <= |steps|
    ensures !IsPending(Exec(c, steps[..k]), id)
  {
    SubmissionsOfPrefix(steps, k);
    assert steps[..k][..j + 1] == steps[..j + 1];
    RunProgress(c, steps[..k], j + 1);
  }

  lemma {:induction false} SubmissionsOfPrefix(steps: seq<Step>, k: nat)
    requires k <= |steps|
    ensures Submissions(steps[..k]) <= Submissions(steps)
    decreases |steps|
  {
    if k == |steps| {
      assert steps[..k] == steps;
    } else {
      var init := steps[..|steps| - 1];
      assert init[..k] == steps[..k];
      SubmissionsOfPrefix(init, k);
    }
  }

  predicate ReportsOn(step: Step, id: string) { step.CompleteStep? && step.id == id }

  /** A placed task keeps its worker, and goes on running exactly until a report on it. */
  lemma PlacedStep(c: Config, s: State, step: Step, id: string)
    requires Valid(s) && OverwritesNothing(s, step) && id in s.tasks && s.tasks[id].status != Pending
    ensures
      var r := Next(c, s, step);
      && id in r.tasks && r.tasks[id].status != Pending && r.tasks[id].assignedWorker == s.tasks[id].assignedWorker
      && (r.tasks[id].status == Running <==> s.tasks[id].status == Running && !ReportsOn(step, id))
  {
    match step
    case DispatchStep(now) => DispatchLeavesPlaced(c, s, now, id);
    case CompleteStep(_, _, _) => assert id != "";
    case _ =>
  }

  lemma DispatchLeavesPlaced(c: Config, s: State, now: Time, id: string)
    requires Valid(s) && id in s.tasks && s.tasks[id].status != Pending
    ensures id in DispatchPending(c, s, now).tasks && DispatchPending(c, s, now).tasks[id] == s.tasks[id]
  {
    DispatchAssignsPrefix(c, s, now);
    var ready := Refresh(c, s, now);
    var q := PendingQueue(ready);
    assert id !in q;
    assert id !in q[..AssignedNow(ready, q)];
  }

  // ----- Dispatch order against submission order -----

  /** The `n`-th accepted submission of a run. */
  function NthID(n: nat): (id: string) { FormatTaskID(Low64(n)) }

  ghost predicate SubmitClockOrdered(steps: seq<Step>) {
    forall i, j :: 0 <= i < j < |steps| && AcceptedSubmit(steps[i]) && AcceptedSubmit(steps[j]) ==>
      steps[i].now <= steps[j].now
  }

  /** Task number `n` carries what the submission asked for, and the time it was made. */
  ghost predicate CreatedBy(s: State, n: nat, req: SubmitRequest, now: Time) {
    NthID(n) in s.tasks &&
      var t := s.tasks[NthID(n)];
      && t.id == NthID(n) && t.model == req.model && t.operation == req.operation
      && t.payloadRef == req.payloadRef && t.metadata == req.metadata && t.createdAt == now
  }

  lemma SubmitCreates(s: State, n: nat, req: SubmitRequest, now: Time)
    requires KeysIssued(s, n) && SubmitAccepted(req)
    ensures CreatedBy(Submit(s, req, now).0, n + 1, req, now)
  {
    IncrementLow64(n);
  }

  lemma StaysCreated(s: State, r: State, n: nat, req: SubmitRequest, now: Time)
    requires CreatedBy(s, n, req, now) && AllProgress(s, r)
    ensures CreatedBy(r, n, req, now)
  {
  }

  lemma {:induction false} CreatedNow(c: Config, steps: seq<Step>, last: Step, n: nat)
    requires AcceptedSubmit(last) && Submissions(steps) == n
    ensures CreatedBy(Exec(c, steps + [last]), n + 1, last.submit, last.now)
  {
    ExecExtends(c, steps, last);
    RunKeys(c, steps);
    SubmitCreates(Exec(c, steps), n, last.submit, last.now);
  }

  lemma {:induction false} CreatedBefore(c: Config, steps: seq<Step>, last: Step, n: nat, req: SubmitRequest, now: Time)
    requires Submissions(steps + [last]) <= TWO_64 && CreatedBy(Exec(c, steps), n, req, now)
    ensures CreatedBy(Exec(c, steps + [last]), n, req, now)
  {
    ExecExtends(c, steps, last);
    RunOverwritesNothing(c, steps, last);
    StepProgress(c, Exec(c, steps), last);
    StaysCreated(Exec(c, steps), Exec(c, steps + [last]), n, req, now);
  }

  /** Task number `n` was created by the step that made the submission count reach `n`, and still carries the model,
      operation, payload and metadata of that step. */
  lemma {:induction false} CreationRecord(c: Config, steps: seq<Step>, n: nat) returns (k: nat)
    requires 1 <= n <= Submissions(steps) <= TWO_64
    ensures k < |steps| && AcceptedSubmit(steps[k]) && Submissions(steps[..k]) == n - 1
    ensures CreatedBy(Exec(c, steps), n, steps[k].submit, steps[k].now)
    decreases |steps|
  {
    var init, last := steps[..|steps| - 1], steps[|steps| - 1];
    assert steps == init + [last];
    if AcceptedSubmit(last) && Submissions(init) == n - 1 {
      k := |steps| - 1;
      CreatedNow(c, init, last, n - 1);
    } else {
      k := CreationRecord(c, init, n);
      assert steps[..k] == init[..k];
      CreatedBefore(c, init, last, n, steps[k].submit, steps[k].now);
    }
  }

  lemma NthOrdered(m: nat, n: nat)
    requires m <= LAST_ORDERED_ID && n <= LAST_ORDERED_ID
    ensures Less(NthID(m), NthID(n)) <==> m < n
  {
    assert Low64(m) == m && Low64(n) == n;
    SixDigitsOrdered(m, n);
  }

  lemma {:induction false} CreatedInOrder(c: Config, steps: seq<Step>, m: nat, n: nat)
    requires 1 <= m < n <= Submissions(steps) < TWO_64 && SubmitClockOrdered(steps)
    ensures CreatedAt(Exec(c, steps), NthID(m)) <= CreatedAt(Exec(c, steps), NthID(n))
  {
    var j := CreationRecord(c, steps, m);
    var k := CreationRecord(c, steps, n);
    if k <= j { PrefixMonotone(steps, k, j); }
  }

  /** With a clock that does not go back and at most 999999 submissions, older means submitted earlier. */
  lemma {:induction false} OlderIsEarlier(c: Config, steps: seq<Step>, m: nat, n: nat)
    requires 1 <= m <= Submissions(steps) && 1 <= n <= Submissions(steps) <= LAST_ORDERED_ID
    requires SubmitClockOrdered(steps)
    ensures Older(Exec(c, steps))(NthID(m), NthID(n)) <==> m < n
  {
    NthOrdered(m, n);
    if m < n { CreatedInOrder(c, steps, m, n); }
    if n < m { CreatedInOrder(c, steps, n, m); }
    OlderFrom(Exec(c, steps), NthID(m), NthID(n), m, n);
  }

  lemma OlderFrom(s: State, a: string, b: string, m: nat, n: nat)
    requires (Less(a, b) <==> m < n) && (m == n ==> a == b)
    requires m < n ==> CreatedAt(s, a) <= CreatedAt(s, b)
    requires n < m ==> CreatedAt(s, b) <= CreatedAt(s, a)
    ensures Older(s)(a, b) <==> m < n
  {
  }

  /** So a dispatch serves pending tasks in the order in which they were submitted. */
  lemma {:induction false} QueueIsSubmissionOrder(c: Config, steps: seq<Step>, i: nat, j: nat, m: nat, n: nat)
    requires Submissions(steps) <= LAST_ORDERED_ID && SubmitClockOrdered(steps)
    requires i < |PendingQueue(Exec(c, steps))| && j < |PendingQueue(Exec(c, steps))|
    requires 1 <= m <= Submissions(steps) && 1 <= n <= Submissions(steps)
    requires PendingQueue(Exec(c, steps))[i] == NthID(m) && PendingQueue(Exec(c, steps))[j] == NthID(n)
    ensures i < j <==> m < n
  {
    OlderIsStrictTotal(Exec(c, steps));
    OlderIsEarlier(c, steps, m, n);
    OlderIsEarlier(c, steps, n, m);
  }

  // ----- The limit on identifiers is exact -----

  /** Comparing two submitted tasks tells which was submitted first. */
  ghost predicate ComparedInOrder(c: Config, steps: seq<Step>) {
    forall m: nat, n: nat :: 1 <= m < n <= Submissions(steps) ==> Older(Exec(c, steps))(NthID(m), NthID(n))
  }

  /** The next dispatch would serve pending tasks in the order in which they were submitted. */
  ghost predicate ServedInOrder(c: Config, steps: seq<Step>) {
    var q := PendingQueue(Exec(c, steps));
    forall i: nat, j: nat, m: nat, n: nat ::
      i < |q| && j < |q| && 1 <= m < n <= Submissions(steps) && q[i] == NthID(m) && q[j] == NthID(n) ==> i < j
  }

  ghost predicate ComparedUpTo(bound: int) {
    forall c: Config, steps: seq<Step> ::
      SubmitClockOrdered(steps) && Submissions(steps) <= bound ==> ComparedInOrder(c, steps)
  }

  ghost predicate ServedUpTo(bound: int) {
    forall c: Config, steps: seq<Step> ::
      SubmitClockOrdered(steps) && Submissions(steps) <= bound ==> ServedInOrder(c, steps)
  }

  /** The same task submitted `n` times at one clock reading. */
  function Burst(req: SubmitRequest, n: nat): (steps: seq<Step>)
    ensures |steps| == n && forall i :: 0 <= i < n ==> steps[i] == SubmitStep(req, 1)
  {
    seq(n, _ => SubmitStep(req, 1))
  }

  /** All of them are waiting. */
  lemma {:induction false} BurstWaits(c: Config, req: SubmitRequest, n: nat)
    requires SubmitAccepted(req)
    ensures Submissions(Burst(req, n)) == n
    ensures AllWaiting(Exec(c, Burst(req, n)))
  {
    if n == 0 {
    } else {
      var init := Burst(req, n - 1);
      assert Burst(req, n) == init + [SubmitStep(req, 1)];
      BurstWaits(c, req, n - 1);
      ExecSubmit(c, init, req, 1);
      SubmitWaits(Exec(c, init), req);
      OneMoreSubmission(init, SubmitStep(req, 1));
    }
  }

  ghost predicate AllWaiting(s: State) {
    forall id :: id in s.tasks ==> s.tasks[id].status == Pending && s.tasks[id].createdAt == 1
  }

  lemma SubmitWaits(s: State, req: SubmitRequest)
    requires AllWaiting(s)
    ensures AllWaiting(Submit(s, req, 1).0)
  {
  }

  lemma OneMoreSubmission(steps: seq<Step>, last: Step)
    requires AcceptedSubmit(last)
    ensures Submissions(steps + [last]) == Submissions(steps) + 1
  {
    assert (steps + [last])[..|steps|] == steps;
  }

  lemma BurstPending(c: Config, req: SubmitRequest, n: nat, k: nat)
    requires SubmitAccepted(req) && 1 <= k <= n
    ensures NthID(k) in PendingIDs(Exec(c, Burst(req, n))) && CreatedAt(Exec(c, Burst(req, n)), NthID(k)) == 1
  {
    BurstWaits(c, req, n);
    RunKeys(c, Burst(req, n));
    IssuedIDsHold(n, k);
  }

  /** The millionth submission overtakes the one before it. */
  lemma MillionthOvertakes(c: Config, req: SubmitRequest) returns (steps: seq<Step>)
    requires SubmitAccepted(req)
    ensures SubmitClockOrdered(steps) && Submissions(steps) == LAST_ORDERED_ID + 1
    ensures !ComparedInOrder(c, steps) && !ServedInOrder(c, steps)
  {
    var m, n: nat := LAST_ORDERED_ID, LAST_ORDERED_ID + 1;
    steps := Burst(req, n);
    BurstWaits(c, req, n);
    BurstPending(c, req, n, m);
    BurstPending(c, req, n, n);
    MillionSortsFirst();
    assert Low64(m) == m && Low64(n) == n;
    Overtaken(Exec(c, steps), NthID(m), NthID(n));
    var q := PendingQueue(Exec(c, steps));
    var i: nat :| i < |q| && q[i] == NthID(m);
    var j: nat :| j < |q| && q[j] == NthID(n);
    OutOfOrder(Older(Exec(c, steps)), q, i, j);
  }

  lemma Overtaken(s: State, a: string, b: string)
    requires CreatedAt(s, a) == CreatedAt(s, b) && Less(b, a)
    ensures Older(s)(b, a) && !Older(s)(a, b)
  {
    if Less(a, b) {
      LessTransitive(a, b, a);
      LessIrreflexive(a);
    }
  }

  lemma OutOfOrder(lt: (string, string) -> bool, q: seq<string>, i: nat, j: nat)
    requires Sorted(lt, q) && i < |q| && j < |q| && !lt(q[i], q[j])
    ensures j <= i
  {
  }

  /** On clocks that do not go back, tasks compare and are served in submission order in every run of up to `bound`
      submissions if and only if the bound is at most 999999. */
  lemma SubmissionOrderIff(bound: int)
    ensures ComparedUpTo(bound) <==> bound <= LAST_ORDERED_ID
    ensures ServedUpTo(bound) <==> bound <= LAST_ORDERED_ID
  {
    if bound <= LAST_ORDERED_ID {
      forall c: Config, steps: seq<Step> | SubmitClockOrdered(steps) && Submissions(steps) <= bound
        ensures ComparedInOrder(c, steps) && ServedInOrder(c, steps)
      {
        OrderedRun(c, steps);
      }
    } else {
      var c := Config(None, 0);
      var steps := MillionthOvertakes(c, SubmitRequest("m", "o", "", map[]));
    }
  }

  lemma OrderedRun(c: Config, steps: seq<Step>)
    requires SubmitClockOrdered(steps) && Submissions(steps) <= LAST_ORDERED_ID
    ensures ComparedInOrder(c, steps) && ServedInOrder(c, steps)
  {
    forall m: nat, n: nat | 1 <= m < n <= Submissions(steps) ensures Older(Exec(c, steps))(NthID(m), NthID(n)) {
      OlderIsEarlier(c, steps, m, n);
    }
    var q := PendingQueue(Exec(c, steps));
    forall i: nat, j: nat, m: nat, n: nat |
      i < |q| && j < |q| && 1 <= m < n <= Submissions(steps) && q[i] == NthID(m) && q[j] == NthID(n)
      ensures i < j
    {
      QueueIsSubmissionOrder(c, steps, i, j, m, n);
    }
  }

  lemma PrefixMonotone(steps: seq<Step>, j: nat, k: nat)
    requires j <= k <= |steps|
    ensures Submissions(steps[..j]) <= Submissions(steps[..k])
  {
    assert steps[..k][..j] == steps[..j];
    SubmissionsOfPrefix(steps[..k], j);
  }
}
