/** What workers are sent, traced back to the submissions and registrations it comes from. */
module Rounds {
  import opened Wrappers
  import opened Machine
  import opened Order
  import opened Naming
  import opened Model
  import opened Cluster
  import opened Invariants
  import opened Counts
  import opened History
  import opened Records
  import opened Delivery
  import F = Frames

  // ----- The deliverer -----

  /** In every run, what a delivery round sends for a task is the payload reference of the submission that created it,
      to the address of the last registration of the worker it was placed on. */
  lemma RoundItem(c: Config, steps: seq<Step>, id: string) returns (k: nat, w: string, j: nat)
    requires Submissions(steps) <= TWO_64 && id in Deliverable(Exec(c, steps))
    ensures CreatedAtStep(steps, k, id) && w == Exec(c, steps).tasks[id].assignedWorker
    ensures j < |steps| && Registers(steps[j], w) && forall i: nat :: j < i < |steps| ==> !Registers(steps[i], w)
    ensures ItemFor(Exec(c, steps), id) == Assignment(id, steps[k].submit.payloadRef, steps[j].register.address)
  {
    k := RequestRecord(c, steps, id);
    w := Exec(c, steps).tasks[id].assignedWorker;
    j := RegistrationRecord(c, steps, w);
  }

  /** A round sends exactly the tasks that a dispatch has placed, that no report was accepted on, and whose worker has
      an address. */
  lemma SentIff(c: Config, steps: seq<Step>, id: string)
    requires Submissions(steps) <= TWO_64 && id in Exec(c, steps).tasks
    ensures
      var s := Exec(c, steps);
      var w := s.tasks[id].assignedWorker;
      id in Deliverable(s) <==>
        WasAssigned(c, steps, id) && !WasReported(c, steps, id) && w in s.nodes && s.nodes[w].address != ""
  {
    LifecycleRecord(c, steps, id);
    RunValid(c, steps);
    assert TaskOk(Exec(c, steps), id, Exec(c, steps).tasks[id]);
  }

  lemma PlainID(n: nat)
    ensures NthID(n) != "" && '|' !in NthID(n) && '\n' !in NthID(n)
  {
    var id, digits := NthID(n), SixDigits(Low64(n));
    assert id == "task-" + digits;
    forall i | 0 <= i < |id| ensures id[i] != '|' && id[i] != '\n' {
      if i < 5 { assert id[i] == "task-"[i]; } else { assert id[i] == digits[i - 5]; }
    }
  }

  /** And that is what the worker reads from the frame, exactly when the reference fits on a line and does not end in
      a carriage return. */
  lemma RoundReceived(c: Config, steps: seq<Step>, id: string) returns (k: nat)
    requires Submissions(steps) <= TWO_64 && id in Deliverable(Exec(c, steps))
    ensures CreatedAtStep(steps, k, id)
    ensures
      var item, ref := ItemFor(Exec(c, steps), id), steps[k].submit.payloadRef;
      F.Receive(F.FrameText(item.taskID, item.payload)) == Some(F.Frame(id, ref))
      <==> '\n' !in ref && (ref != "" ==> ref[|ref| - 1] != '\r')
  {
    var w, j;
    k, w, j := RoundItem(c, steps, id);
    PlainID(Submissions(steps[..k]) + 1);
    F.FrameRoundTripIff(id, steps[k].submit.payloadRef);
  }

  // ----- The assignment stream -----

  /** A snapshot lists the tasks running on the worker in the order in which they were placed; tasks of one dispatch, or
      of equal clock readings, come in the order of their identifiers. */
  lemma SnapshotInStartOrder(c: Config, steps: seq<Step>, worker: string, i: nat, j: nat) returns (a: nat, b: nat)
    requires Submissions(steps) <= TWO_64 && i < j < |RunningAssignments(Exec(c, steps), worker)|
    ensures
      var ids := RunningAssignments(Exec(c, steps), worker);
      && AssignedBy(c, steps, a, ids[i]) && AssignedBy(c, steps, b, ids[j])
      && (steps[a].now < steps[b].now || (steps[a].now == steps[b].now && Less(ids[i], ids[j])))
  {
    var s := Exec(c, steps);
    var ids := RunningAssignments(s, worker);
    assert ids[i] in RunningOn(s, worker) && ids[j] in RunningOn(s, worker);
    a := StartOf(c, steps, ids[i]);
    b := StartOf(c, steps, ids[j]);
    assert StartedAt(s, ids[i]) == Some(steps[a].now) && StartedAt(s, ids[j]) == Some(steps[b].now);
    assert StartedEarlier(s)(ids[i], ids[j]);
  }

  lemma StartOf(c: Config, steps: seq<Step>, id: string) returns (k: nat)
    requires Submissions(steps) <= TWO_64 && HasStatus(Exec(c, steps), id, Running)
    ensures AssignedBy(c, steps, k, id) && Exec(c, steps).tasks[id].startedAt == Some(steps[k].now)
  {
    LifecycleRecord(c, steps, id);
    k :| AssignedBy(c, steps, k, id);
    PlacementRecord(c, steps, k, id);
  }
}
