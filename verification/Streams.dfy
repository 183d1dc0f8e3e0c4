/** Assignment streams: opened, polled, sent on and closed while the store changes. */
module Streams {
  import opened Wrappers
  import opened Machine
  import opened Order
  import opened Model
  import opened Cluster
  import opened Invariants
  import opened Counts
  import opened History
  import opened Delivery

  /** `ready` once what to skip is settled; `queue` is what is left of the last snapshot; `log` is everything sent,
      in order. */
  datatype Stream = Stream(worker: string, ready: bool, sent: set<string>, queue: seq<string>, log: seq<string>)

  datatype System = System(state: State, streams: map<nat, Stream>)

  const STARTED: System := System(INITIAL, map[])

  datatype Event =
    | Write(step: Step)
    | Open(stream: nat, worker: string, resume: bool)
    | Skip(stream: nat)
    | Poll(stream: nat)
    | Send(stream: nat)
    | Close(stream: nat)

  function SendHead(st: Stream): (r: Stream)
    requires st.queue != []
  {
    var id := st.queue[0];
    if id in st.sent then st.(queue := st.queue[1..])
    else st.(queue := st.queue[1..], sent := st.sent + {id}, log := st.log + [id])
  }

  /** Opening checks that the worker exists. Unless it asks to resume, a second read then settles which tasks are
      treated as sent. Each turn of the loop reads a snapshot and sends from it, task by task. */
  ghost function Advance(s: State, st: Stream, e: Event): (r: Stream) {
    match e
    case Skip(_) => if st.ready then st else st.(ready := true, sent := RunningOn(s, st.worker))
    case Poll(_) =>
      if !st.ready || st.queue != [] then st else st.(queue := RunningAssignments(s, st.worker))
    case Send(_) => if st.queue == [] then st else SendHead(st)
    case _ => st
  }

  /** Reads of the store, sends and write sections interleave freely. Events that cannot happen change nothing. */
  ghost function Happen(c: Config, y: System, e: Event): (r: System) {
    match e
    case Write(step) => y.(state := Next(c, y.state, step))
    case Open(k, worker, resume) =>
      if worker == "" || worker !in y.state.nodes || k in y.streams then y
      else y.(streams := y.streams[k := Stream(worker, resume, {}, [], [])])
    case Close(k) => y.(streams := y.streams - {k})
    case _ =>
      if e.stream !in y.streams then y
      else y.(streams := y.streams[e.stream := Advance(y.state, y.streams[e.stream], e)])
  }

  ghost function RunEvents(c: Config, events: seq<Event>): (r: System) {
    if events == [] then STARTED else Happen(c, RunEvents(c, events[..|events| - 1]), events[|events| - 1])
  }

  lemma RunExtends(c: Config, events: seq<Event>, e: Event)
    ensures RunEvents(c, events + [e]) == Happen(c, RunEvents(c, events), e)
  {
    assert (events + [e])[..|events|] == events;
  }

  /** The write sections of a run of events. */
  function Writes(events: seq<Event>): (steps: seq<Step>) {
    if events == [] then [] else
      Writes(events[..|events| - 1]) +
      if events[|events| - 1].Write? then [events[|events| - 1].step] else []
  }

  lemma {:induction false} StateOfEvents(c: Config, events: seq<Event>)
    ensures RunEvents(c, events).state == Exec(c, Writes(events))
  {
    if events == [] {
    } else {
      var init, last := events[..|events| - 1], events[|events| - 1];
      StateOfEvents(c, init);
      if last.Write? { ExecExtends(c, Writes(init), last.step); } else { assert Writes(init) + [] == Writes(init); }
    }
  }

  /** Fewer than 2^64 submissions so far, so that no task record was replaced. */
  predicate CounterHolds(events: seq<Event>) { Submissions(Writes(events)) <= TWO_64 }

  lemma {:induction false} LastEvent(c: Config, init: seq<Event>, last: Event)
    requires CounterHolds(init + [last])
    ensures CounterHolds(init) && Valid(RunEvents(c, init).state)
    ensures last.Write? ==> OverwritesNothing(RunEvents(c, init).state, last.step)
  {
    var events := init + [last];
    assert events[..|events| - 1] == init;
    StateOfEvents(c, init);
    RunValid(c, Writes(init));
    if last.Write? {
      SubmissionsOfPrefix(Writes(events), |Writes(init)|);
      assert Writes(events)[..|Writes(init)|] == Writes(init);
      RunOverwritesNothing(c, Writes(init), last.step);
    } else {
      assert Writes(events) == Writes(init);
    }
  }

  lemma {:induction false} CounterHeld(c: Config, events: seq<Event>, i: nat)
    requires i <= |events| && CounterHolds(events)
    ensures CounterHolds(events[..i])
    decreases |events|
  {
    if i == |events| {
      assert events[..i] == events;
    } else {
      var init, last := events[..|events| - 1], events[|events| - 1];
      assert events == init + [last] && init[..i] == events[..i];
      LastEvent(c, init, last);
      CounterHeld(c, init, i);
    }
  }

  // ----- One stream -----

  /** The task belongs to the worker for good. */
  ghost predicate Owned(s: State, id: string, worker: string) {
    id in s.tasks && s.tasks[id].status != Pending && s.tasks[id].assignedWorker == worker
  }

  ghost predicate StreamOk(s: State, st: Stream) {
    && st.worker != "" && Distinct(st.log)
    && (forall id :: id in st.log ==> id in st.sent)
    && (forall id :: id in st.sent ==> Owned(s, id, st.worker))
    && (forall id :: id in st.queue ==> Owned(s, id, st.worker))
    && (!st.ready ==> st.queue == [] && st.log == [])
  }

  ghost predicate StreamsOk(y: System) { forall k :: k in y.streams ==> StreamOk(y.state, y.streams[k]) }

  lemma AdvanceOk(s: State, st: Stream, e: Event)
    requires StreamOk(s, st)
    ensures StreamOk(s, Advance(s, st, e))
  {
    if e.Send? && st.queue != [] {
      assert st.queue[0] in st.queue;
      assert forall id :: id in st.queue[1..] ==> id in st.queue;
    }
  }

  lemma EventKeepsStreams(c: Config, y: System, e: Event)
    requires StreamsOk(y) && (e.Write? ==> OverwritesNothing(y.state, e.step))
    ensures StreamsOk(Happen(c, y, e))
  {
    match e
    case Write(step) =>
      StepProgress(c, y.state, step);
      forall k | k in y.streams ensures StreamOk(Next(c, y.state, step), y.streams[k]) {}
    case Open(_, _, _) =>
    case Close(_) =>
    case _ => if e.stream in y.streams { AdvanceOk(y.state, y.streams[e.stream], e); }
  }

  /** On every stream of every interleaving, each task is sent at most once and belongs to that worker. */
  lemma {:induction false} RunStreams(c: Config, events: seq<Event>)
    requires CounterHolds(events)
    ensures StreamsOk(RunEvents(c, events))
  {
    if events == [] {
    } else {
      var init, last := events[..|events| - 1], events[|events| - 1];
      assert events == init + [last];
      LastEvent(c, init, last);
      RunStreams(c, init);
      EventKeepsStreams(c, RunEvents(c, init), last);
    }
  }

  /** Sending until the snapshot is used up. */
  function Drained(st: Stream): (r: Stream)
    decreases |st.queue|
  {
    if st.queue == [] then st else Drained(SendHead(st))
  }

  /** One pass of the stream's loop over a snapshot. */
  method SendAll(st: Stream) returns (sent: set<string>, log: seq<string>)
    ensures Drained(st) == st.(queue := [], sent := sent, log := log)
  {
    sent, log := st.sent, st.log;
    for i := 0 to |st.queue|
      invariant Drained(st.(queue := st.queue[i..], sent := sent, log := log)) == Drained(st)
    {
      assert st.queue[i..][1..] == st.queue[i + 1..];
      if st.queue[i] !in sent {
        log := log + [st.queue[i]];
        sent := sent + {st.queue[i]};
      }
    }
    assert st.queue[|st.queue|..] == [];
  }

  /** A pass sends exactly the tasks of the snapshot that were not sent before, each once. */
  lemma {:induction false} DrainedSendsNew(st: Stream)
    requires Distinct(st.log) && forall id :: id in st.log ==> id in st.sent
    ensures
      var r := Drained(st);
      && r.queue == [] && Distinct(r.log)
      && (forall id :: id in r.sent <==> id in st.sent || id in st.queue)
      && (forall id :: id in r.log <==> id in st.log || (id in st.queue && id !in st.sent))
    decreases |st.queue|
  {
    if st.queue == [] {
    } else {
      DrainedSendsNew(SendHead(st));
      assert st.queue == [st.queue[0]] + st.queue[1..];
    }
  }

  // ----- What a stream sends and what it skips -----

  /** Everything the stream will not send again was sent on it or is skipped, and not both. */
  ghost predicate Accounts(st: Stream, skipped: set<string>) {
    && (forall id :: id in st.sent <==> id in st.log || id in skipped)
    && forall id :: id in st.log ==> id !in skipped
  }

  /** Event `o` opened the stream. Event `p`, if it does not resume, settled what it skips: the tasks running then. */
  ghost predicate OpenedBy(c: Config, events: seq<Event>, k: nat, st: Stream, o: nat, p: nat) {
    && o < |events| && events[o].Open? && events[o].stream == k && events[o].worker == st.worker
    && (if events[o].resume then st.ready && Accounts(st, {})
        else if st.ready then
          && o < p < |events| && events[p] == Skip(k)
          && Accounts(st, RunningOn(RunEvents(c, events[..p]).state, st.worker))
        else st.sent == {} && st.log == [])
  }

  lemma SendAccounts(st: Stream, skipped: set<string>)
    requires st.queue != [] && Accounts(st, skipped)
    ensures Accounts(SendHead(st), skipped)
  {
  }

  lemma AdvanceAccounts(s: State, st: Stream, e: Event, skipped: set<string>)
    requires st.ready && Accounts(st, skipped)
    ensures
      var r := Advance(s, st, e);
      r.ready && r.worker == st.worker && Accounts(r, skipped)
  {
    if e.Send? && st.queue != [] { SendAccounts(st, skipped); }
  }

  lemma OpenedStill(c: Config, init: seq<Event>, last: Event, k: nat, st: Stream, r: Stream, o: nat, p: nat)
    requires OpenedBy(c, init, k, st, o, p) && r.worker == st.worker && r.ready == st.ready
    requires st.ready ==> forall skipped :: Accounts(st, skipped) ==> Accounts(r, skipped)
    requires !st.ready ==> r.sent == st.sent && r.log == st.log
    ensures OpenedBy(c, init + [last], k, r, o, p)
  {
    var events := init + [last];
    if !events[o].resume && st.ready { assert events[..p] == init[..p]; }
  }

  lemma SettledNow(c: Config, init: seq<Event>, k: nat, st: Stream, o: nat, p: nat)
    requires OpenedBy(c, init, k, st, o, p) && !st.ready
    ensures OpenedBy(c, init + [Skip(k)], k, Advance(RunEvents(c, init).state, st, Skip(k)), o, |init|)
  {
    assert (init + [Skip(k)])[..|init|] == init;
  }

  lemma UnsettledStill(s: State, st: Stream, e: Event)
    requires StreamOk(s, st) && (e.Skip? ==> st.ready)
    ensures Advance(s, st, e).ready == st.ready && Advance(s, st, e).worker == st.worker
    ensures !st.ready ==> Advance(s, st, e) == st
  {
  }

  lemma AccountNext(c: Config, init: seq<Event>, last: Event, k: nat, y: System, o: nat, p: nat) returns (q: nat)
    requires y == RunEvents(c, init) && k in y.streams && StreamOk(y.state, y.streams[k])
    requires OpenedBy(c, init, k, y.streams[k], o, p) && k in Happen(c, y, last).streams
    ensures OpenedBy(c, init + [last], k, Happen(c, y, last).streams[k], o, q)
  {
    var st, r := y.streams[k], Happen(c, y, last).streams[k];
    q := p;
    if last == Skip(k) && !st.ready {
      SettledNow(c, init, k, st, o, p);
      q := |init|;
    } else {
      if !last.Skip? || st.ready { UnsettledStill(y.state, st, last); }
      forall skipped | st.ready && Accounts(st, skipped) ensures Accounts(r, skipped) {
        AdvanceAccounts(y.state, st, last, skipped);
      }
      OpenedStill(c, init, last, k, st, r, o, p);
    }
  }

  /** A stream never sends what it skips: nothing if it resumes, else the tasks that were running when it settled. And
      it has marked nothing else. */
  lemma {:induction false} StreamAccount(c: Config, events: seq<Event>, k: nat) returns (o: nat, p: nat)
    requires CounterHolds(events) && k in RunEvents(c, events).streams
    ensures OpenedBy(c, events, k, RunEvents(c, events).streams[k], o, p)
    decreases |events|
  {
    var init, last := events[..|events| - 1], events[|events| - 1];
    assert events == init + [last];
    LastEvent(c, init, last);
    RunStreams(c, init);
    var y := RunEvents(c, init);
    if k !in y.streams {
      o, p := |init|, 0;
    } else {
      o, p := StreamAccount(c, init, k);
      p := AccountNext(c, init, last, k, y, o, p);
    }
  }

  // ----- Sends of a whole run -----

  datatype Sent = Sent(stream: nat, worker: string, id: string)

  /** What an event sends. */
  ghost function SentBy(y: System, e: Event): (r: Option<Sent>) {
    if e.Send? && e.stream in y.streams && y.streams[e.stream].queue != []
       && y.streams[e.stream].queue[0] !in y.streams[e.stream].sent
    then Some(Sent(e.stream, y.streams[e.stream].worker, y.streams[e.stream].queue[0]))
    else None
  }

  /** What event `i` of a run sends, on a stream that may be closed later. */
  ghost function SentAt(c: Config, events: seq<Event>, i: nat): (r: Option<Sent>)
    requires i < |events|
  {
    SentBy(RunEvents(c, events[..i]), events[i])
  }

  lemma EventKeepsOwned(c: Config, y: System, e: Event, id: string, worker: string)
    requires Owned(y.state, id, worker) && (e.Write? ==> OverwritesNothing(y.state, e.step))
    ensures Owned(Happen(c, y, e).state, id, worker)
  {
    if e.Write? { StepProgress(c, y.state, e.step); }
  }

  lemma {:induction false} OwnedLater(c: Config, events: seq<Event>, i: nat, id: string, worker: string)
    requires i <= |events| && CounterHolds(events) && Owned(RunEvents(c, events[..i]).state, id, worker)
    ensures Owned(RunEvents(c, events).state, id, worker)
    decreases |events|
  {
    if i == |events| {
      assert events[..i] == events;
    } else {
      var init, last := events[..|events| - 1], events[|events| - 1];
      assert events == init + [last] && init[..i] == events[..i];
      LastEvent(c, init, last);
      OwnedLater(c, init, i, id, worker);
      EventKeepsOwned(c, RunEvents(c, init), last, id, worker);
    }
  }

  lemma SentIsOwned(c: Config, events: seq<Event>, i: nat)
    requires i < |events| && CounterHolds(events) && SentAt(c, events, i).Some?
    ensures Owned(RunEvents(c, events).state, SentAt(c, events, i).value.id, SentAt(c, events, i).value.worker)
  {
    var sent := SentAt(c, events, i).value;
    CounterHeld(c, events, i);
    RunStreams(c, events[..i]);
    var st := RunEvents(c, events[..i]).streams[sent.stream];
    assert st.queue[0] in st.queue;
    OwnedLater(c, events, i, sent.id, sent.worker);
  }

  /** Over a whole run, whatever streams were opened and closed, no task is sent to two different workers. */
  lemma NeverSentToTwoWorkers(c: Config, events: seq<Event>, i: nat, j: nat)
    requires i < |events| && j < |events| && CounterHolds(events)
    requires SentAt(c, events, i).Some? && SentAt(c, events, j).Some?
    requires SentAt(c, events, i).value.id == SentAt(c, events, j).value.id
    ensures SentAt(c, events, i).value.worker == SentAt(c, events, j).value.worker
  {
    SentIsOwned(c, events, i);
    SentIsOwned(c, events, j);
  }

  // ----- Is a task still running when it is sent? -----

  /** The event reads a snapshot for the stream. */
  ghost predicate Polls(y: System, e: Event, k: nat) {
    e == Poll(k) && k in y.streams && y.streams[k].ready && y.streams[k].queue == []
  }

  ghost function LatestPoll(c: Config, events: seq<Event>, k: nat): (p: Option<nat>)
    ensures p.Some? ==> p.value < |events| && events[p.value] == Poll(k)
  {
    if events == [] then None else
      var init := events[..|events| - 1];
      if Polls(RunEvents(c, init), events[|events| - 1], k) then Some(|init|) else LatestPoll(c, init, k)
  }

  ghost predicate FromPoll(c: Config, events: seq<Event>, k: nat, st: Stream) {
    st.queue != [] ==>
      var p := LatestPoll(c, events, k);
      p.Some? && forall id :: id in st.queue ==> id in RunningOn(RunEvents(c, events[..p.value]).state, st.worker)
  }

  /** An event that is no poll of the stream leaves it with part of its snapshot. */
  lemma QueueShrinks(c: Config, y: System, e: Event, k: nat)
    requires k in Happen(c, y, e).streams && !Polls(y, e, k) && Happen(c, y, e).streams[k].queue != []
    ensures
      && k in y.streams && Happen(c, y, e).streams[k].worker == y.streams[k].worker
      && forall id :: id in Happen(c, y, e).streams[k].queue ==> id in y.streams[k].queue
  {
    if k in y.streams && e == Send(k) && y.streams[k].queue != [] {
      assert forall id :: id in y.streams[k].queue[1..] ==> id in y.streams[k].queue;
    }
  }

  /** What a stream still has to send was running on its worker when the stream last read the store. */
  lemma {:induction false} QueueIsFromPoll(c: Config, events: seq<Event>, k: nat)
    requires k in RunEvents(c, events).streams
    ensures FromPoll(c, events, k, RunEvents(c, events).streams[k])
  {
    if events == [] {
    } else {
      var init, last := events[..|events| - 1], events[|events| - 1];
      var y, st := RunEvents(c, init), RunEvents(c, events).streams[k];
      if st.queue != [] {
        if Polls(y, last, k) {
          assert events[..|init|] == init;
        } else {
          QueueShrinks(c, y, last, k);
          QueueIsFromPoll(c, init, k);
          var p := LatestPoll(c, init, k).value;
          assert y.streams[k].queue != [] by { assert st.queue[0] in y.streams[k].queue; }
          assert events[..p] == init[..p];
        }
      }
    }
  }

  predicate ReportedBy(e: Event, id: string) { e.Write? && ReportsOn(e.step, id) }

  lemma EventKeepsRunning(c: Config, y: System, e: Event, id: string, worker: string)
    requires Valid(y.state) && (e.Write? ==> OverwritesNothing(y.state, e.step)) && Owned(y.state, id, worker)
    ensures
      var r := Happen(c, y, e);
      && Owned(r.state, id, worker)
      && (id in RunningOn(r.state, worker) <==> id in RunningOn(y.state, worker) && !ReportedBy(e, id))
  {
    if e.Write? { PlacedStep(c, y.state, e.step, id); }
  }

  /** From a point where a task runs on, it is running later if and only if no report on it came between. */
  lemma {:induction false} RunningUntilReported(c: Config, events: seq<Event>, p: nat, id: string, worker: string)
    requires p <= |events| && CounterHolds(events) && id in RunningOn(RunEvents(c, events[..p]).state, worker)
    ensures Owned(RunEvents(c, events).state, id, worker)
    ensures id in RunningOn(RunEvents(c, events).state, worker)
            <==> forall m :: p <= m < |events| ==> !ReportedBy(events[m], id)
    decreases |events|
  {
    if p == |events| {
      assert events[..p] == events;
    } else {
      var init, last := events[..|events| - 1], events[|events| - 1];
      assert events == init + [last] && init[..p] == events[..p];
      LastEvent(c, init, last);
      RunningUntilReported(c, init, p, id, worker);
      EventKeepsRunning(c, RunEvents(c, init), last, id, worker);
      assert forall m :: p <= m < |init| ==> events[m] == init[m];
    }
  }

  ghost predicate RunningAfter(c: Config, events: seq<Event>, sent: Sent) {
    sent.id in RunningOn(RunEvents(c, events).state, sent.worker)
  }

  /** A task that is sent was running on the worker at the stream's latest read of the store. It is still running
      if and only if no report on it has come in since. */
  lemma SentRunningIff(c: Config, events: seq<Event>, i: nat)
    requires i < |events| && CounterHolds(events) && SentAt(c, events, i).Some?
    ensures
      var sent := SentAt(c, events, i).value;
      var p := LatestPoll(c, events[..i], sent.stream);
      && p.Some? && RunningAfter(c, events[..p.value], sent)
      && (RunningAfter(c, events[..i], sent) <==> forall m :: p.value < m < i ==> !ReportedBy(events[m], sent.id))
  {
    var sent := SentAt(c, events, i).value;
    var before := events[..i];
    CounterHeld(c, events, i);
    var p := HeadFromPoll(c, before, events[i]);
    assert before[..p] == events[..p];
    RunningUntilReported(c, before, p, sent.id, sent.worker);
    assert !ReportedBy(before[p], sent.id);
    assert forall m :: p <= m < i ==> before[m] == events[m];
  }

  lemma HeadFromPoll(c: Config, before: seq<Event>, e: Event) returns (p: nat)
    requires SentBy(RunEvents(c, before), e).Some?
    ensures LatestPoll(c, before, e.stream) == Some(p) && p < |before| && before[p] == Poll(e.stream)
    ensures RunningAfter(c, before[..p], SentBy(RunEvents(c, before), e).value)
  {
    QueueIsFromPoll(c, before, e.stream);
    p := LatestPoll(c, before, e.stream).value;
    var st := RunEvents(c, before).streams[e.stream];
    assert st.queue[0] in st.queue;
  }

  // ----- A send that comes too late -----

  function Lifted(steps: seq<Step>): (events: seq<Event>) {
    seq(|steps|, i requires 0 <= i < |steps| => Write(steps[i]))
  }

  lemma {:induction false} LiftedRun(c: Config, steps: seq<Step>)
    ensures RunEvents(c, Lifted(steps)) == System(Exec(c, steps), map[])
  {
    if steps == [] {
    } else {
      assert Lifted(steps)[..|steps| - 1] == Lifted(steps[..|steps| - 1]);
      LiftedRun(c, steps[..|steps| - 1]);
    }
  }

  lemma OnlyAssignment(s: State, worker: string) returns (id: string)
    requires |RunningOn(s, worker)| == 1
    ensures RunningOn(s, worker) == {id} && RunningAssignments(s, worker) == [id]
  {
    id :| id in RunningOn(s, worker);
    var rest := RunningOn(s, worker) - {id};
    assert RunningOn(s, worker) == rest + {id} && |rest| == 0;
    StartedEarlierIsStrictTotal(s);
    SortedUnique(StartedEarlier(s), RunningAssignments(s, worker), [id], {id});
  }

  /** A stream that has read one running task and not yet sent it. */
  lemma AboutToSend(c: Config, steps: seq<Step>, worker: string) returns (events: seq<Event>, id: string)
    requires worker != "" && worker in Exec(c, steps).nodes && |RunningOn(Exec(c, steps), worker)| == 1
    ensures RunningOn(Exec(c, steps), worker) == {id}
    ensures RunEvents(c, events) == System(Exec(c, steps), map[0 := Stream(worker, true, {}, [id], [])])
  {
    var s := Exec(c, steps);
    LiftedRun(c, steps);
    id := OnlyAssignment(s, worker);
    var waiting := Lifted(steps) + [Open(0, worker, true)];
    RunExtends(c, Lifted(steps), Open(0, worker, true));
    assert RunEvents(c, waiting) == System(s, map[0 := Stream(worker, true, {}, [], [])]);
    RunExtends(c, waiting, Poll(0));
    events := waiting + [Poll(0)];
  }

  /** A run in which a stream sends a task that was reported on after the stream read the store. */
  lemma StaleSend(c: Config, w: string, req: SubmitRequest, report: CompleteRequest) returns (events: seq<Event>)
    requires c.offlineAfter >= 0 && w != "" && SubmitAccepted(req)
    ensures events != [] && SentAt(c, events, |events| - 1).Some?
    ensures !RunningAfter(c, events[..|events| - 1], SentAt(c, events, |events| - 1).value)
  {
    var joined := JoinedWorker(c, w, "", 1);
    var steps := OneMoreTask(c, joined, w, req, 1, 0);
    var read, id := AboutToSend(c, steps, w);
    var done := Write(CompleteStep(id, report, 1));
    RunExtends(c, read, done);
    ReportedIsNotRunning(Exec(c, steps), id, report, 1, w);
    events := read + [done] + [Send(0)];
    assert events[..|events| - 1] == read + [done];
  }

  lemma ReportedIsNotRunning(s: State, id: string, report: CompleteRequest, now: Time, worker: string)
    requires Valid(s) && id in s.tasks
    ensures id !in RunningOn(Complete(s, id, report, now).0, worker)
  {
    assert id != "";
  }
}
