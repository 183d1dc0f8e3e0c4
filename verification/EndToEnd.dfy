/** The scheduler and one worker together: deliveries, reports and heartbeats are on their way for any time. */
module EndToEnd {
  import opened Wrappers
  import opened Machine
  import opened Model
  import opened Cluster
  import opened Invariants
  import opened Counts
  import opened History
  import opened Delivery
  import R = Records
  import W = WorkerNode

  /** The modelled process is registered as `worker`, listens at `address`, and has so many receiving and consuming
      threads. */
  datatype Setup = Setup(config: Config, worker: string, address: string, enqueuers: nat, consumers: nat)

  /** A task on its way to the address, read from the store after `taken` events. */
  datatype Letter = Letter(id: string, taken: nat)

  /** `counts` are the numbers of active tasks that heartbeats on their way carry. */
  datatype System = System(state: State, process: W.Execution, mail: set<Letter>, counts: multiset<nat>, time: nat)

  datatype Event =
    | Write(step: Step)                                         // a write section caused by anyone else
    | Snapshot                                                  // a delivery round reads the store
    | Arrive(letter: Letter, enqueuer: nat)                     // the worker receives a task
    | Local(move: W.Step)                                       // a step of the worker process alone
    | Report(consumer: nat, complete: CompleteRequest, at: Time) // a consumer's result is recorded
    | Count                                                     // the heartbeat thread counts active tasks
    | Farewell                                                  // a worker that stops announces no tasks
    | Beat(running: nat, at: Time)                              // a heartbeat is recorded

  /** The id that a consumer executes. */
  function Executed(x: W.Execution, k: nat): (id: Option<string>) {
    if k < |x.consumers| && x.consumers[k].Holding? then Some(x.consumers[k].id) else None
  }

  /** The write section that an event amounts to. */
  function SchedulerStep(u: Setup, y: System, e: Event): (s: Option<Step>) {
    match e
    case Write(step) => Some(step)
    case Report(k, complete, at) =>
      var id := Executed(y.process, k);
      if id.Some? then Some(CompleteStep(id.value, complete, at)) else None
    case Beat(n, at) =>
      if n in y.counts then Some(HeartbeatStep(HeartbeatRequest(u.worker, n), at)) else None
    case _ => None
  }

  /** The step of the worker process that an event amounts to. */
  function ProcessStep(y: System, e: Event): (s: Option<W.Step>) {
    match e
    case Arrive(l, k) =>
      if l in y.mail && W.Enabled(y.process, W.Deliver(k, l.id)) then Some(W.Deliver(k, l.id)) else None
    case Local(move) => if !move.Deliver? && W.Enabled(y.process, move) then Some(move) else None
    case _ => None
  }

  lemma ProcessStepEnabled(y: System, e: Event)
    ensures ProcessStep(y, e).Some? ==> W.Enabled(y.process, ProcessStep(y, e).value)
  {
  }

  ghost function StateAfter(u: Setup, y: System, e: Event): (r: State) {
    var s := SchedulerStep(u, y, e);
    if s.Some? then Next(u.config, y.state, s.value) else y.state
  }

  function ProcessAfter(y: System, e: Event): (r: W.Execution) {
    var s := ProcessStep(y, e);
    ProcessStepEnabled(y, e);
    if s.Some? then W.Next(y.process, s.value) else y.process
  }

  /** What a delivery round sends to the address. */
  ghost function SentTo(s: State, address: string): (ids: set<string>) {
    set id | id in Deliverable(s) && AddressOf(s, id) == address
  }

  ghost function MailAfter(u: Setup, y: System, e: Event): (r: set<Letter>) {
    match e
    case Snapshot => y.mail + set id | id in SentTo(y.state, u.address) :: Letter(id, y.time)
    case Arrive(l, _) => if ProcessStep(y, e).Some? then y.mail - {l} else y.mail
    case _ => y.mail
  }

  /** Each heartbeat is recorded at most once. */
  function CountsAfter(y: System, e: Event): (r: multiset<nat>) {
    match e
    case Count => y.counts + multiset{|y.process.active|}
    case Farewell => y.counts + multiset{0}
    case Beat(n, _) => y.counts - multiset{n}
    case _ => y.counts
  }

  /** Everything interleaves freely. Events that cannot happen change nothing but the count of events. */
  ghost function Happen(u: Setup, y: System, e: Event): (r: System) {
    System(StateAfter(u, y, e), ProcessAfter(y, e), MailAfter(u, y, e), CountsAfter(y, e), y.time + 1)
  }

  ghost function Run(u: Setup, events: seq<Event>): (r: System) {
    if events == [] then System(INITIAL, W.Fresh(u.enqueuers, u.consumers), {}, multiset{}, 0)
    else Happen(u, Run(u, events[..|events| - 1]), events[|events| - 1])
  }

  lemma RunExtends(u: Setup, events: seq<Event>, e: Event)
    ensures Run(u, events + [e]) == Happen(u, Run(u, events), e)
  {
    assert (events + [e])[..|events|] == events;
  }

  // ----- The scheduler's part of a run -----

  ghost function Steps(u: Setup, events: seq<Event>): (steps: seq<Step>) {
    if events == [] then [] else
      var init := events[..|events| - 1];
      var s := SchedulerStep(u, Run(u, init), events[|events| - 1]);
      Steps(u, init) + if s.Some? then [s.value] else []
  }

  lemma {:induction false} StateOfRun(u: Setup, events: seq<Event>)
    ensures Run(u, events).state == Exec(u.config, Steps(u, events)) && Run(u, events).time == |events|
  {
    if events == [] {
    } else {
      var init, last := events[..|events| - 1], events[|events| - 1];
      StateOfRun(u, init);
      var s := SchedulerStep(u, Run(u, init), last);
      if s.Some? {
        ExecExtends(u.config, Steps(u, init), s.value);
      } else {
        assert Steps(u, init) + [] == Steps(u, init);
      }
    }
  }

  ghost predicate CounterHolds(u: Setup, events: seq<Event>) { Submissions(Steps(u, events)) <= TWO_64 }

  /** What is known of the system before its last event. */
  lemma {:induction false} LastEvent(u: Setup, init: seq<Event>, last: Event)
    requires CounterHolds(u, init + [last])
    ensures CounterHolds(u, init) && Valid(Run(u, init).state) && Run(u, init).time == |init|
    ensures
      var s := SchedulerStep(u, Run(u, init), last);
      s.Some? ==> OverwritesNothing(Run(u, init).state, s.value)
  {
    var events := init + [last];
    assert events[..|events| - 1] == init;
    StateOfRun(u, init);
    RunValid(u.config, Steps(u, init));
    var s := SchedulerStep(u, Run(u, init), last);
    if s.Some? {
      SubmissionsOfPrefix(Steps(u, events), |Steps(u, init)|);
      assert Steps(u, events)[..|Steps(u, init)|] == Steps(u, init);
      RunOverwritesNothing(u.config, Steps(u, init), s.value);
    } else {
      assert Steps(u, events) == Steps(u, init);
    }
  }

  lemma {:induction false} CounterHeld(u: Setup, events: seq<Event>, i: nat)
    requires i <= |events| && CounterHolds(u, events)
    ensures CounterHolds(u, events[..i])
    decreases |events|
  {
    if i == |events| {
      assert events[..i] == events;
    } else {
      var init, last := events[..|events| - 1], events[|events| - 1];
      assert events == init + [last] && init[..i] == events[..i];
      LastEvent(u, init, last);
      CounterHeld(u, init, i);
    }
  }

  // ----- What is active was placed on a worker that claimed the address -----

  ghost function AtAddress(s: State, address: string): (workers: set<string>) {
    set w | w in s.nodes && s.nodes[w].address == address
  }

  /** The workers registered under the address when a delivery round read the store. */
  ghost function Claimants(u: Setup, events: seq<Event>): (workers: set<string>) {
    if events == [] then {} else
      var init := events[..|events| - 1];
      Claimants(u, init) +
        if events[|events| - 1].Snapshot? then AtAddress(Run(u, init).state, u.address) else {}
  }

  ghost predicate Belongs(s: State, id: string, workers: set<string>) {
    id in s.tasks && s.tasks[id].status != Pending && s.tasks[id].assignedWorker in workers
  }

  ghost predicate AllBelong(y: System, workers: set<string>) {
    && W.Inv(y.process)
    && (forall id :: id in y.process.active ==> Belongs(y.state, id, workers))
    && (forall l :: l in y.mail ==> Belongs(y.state, l.id, workers))
  }

  lemma StateKeepsBelongs(u: Setup, y: System, e: Event, id: string, workers: set<string>)
    requires Valid(y.state) && Belongs(y.state, id, workers)
    requires var s := SchedulerStep(u, y, e); s.Some? ==> OverwritesNothing(y.state, s.value)
    ensures Belongs(StateAfter(u, y, e), id, workers)
  {
    var s := SchedulerStep(u, y, e);
    if s.Some? { PlacedStep(u.config, y.state, s.value, id); }
  }

  /** A process step makes no id active but the one that is delivered. */
  lemma ActiveGrows(x: W.Execution, s: W.Step, id: string)
    requires W.Enabled(x, s) && id in W.Next(x, s).active
    ensures id in x.active || (s.Deliver? && s.id == id)
  {
  }

  lemma EventKeepsBelongs(u: Setup, y: System, e: Event, workers: set<string>)
    requires Valid(y.state) && AllBelong(y, workers) && (e.Snapshot? ==> AtAddress(y.state, u.address) <= workers)
    requires var s := SchedulerStep(u, y, e); s.Some? ==> OverwritesNothing(y.state, s.value)
    ensures AllBelong(Happen(u, y, e), workers)
  {
    var r := Happen(u, y, e);
    var p := ProcessStep(y, e);
    ProcessStepEnabled(y, e);
    if p.Some? { W.StepKeepsInv(y.process, p.value); }
    forall id | id in r.process.active ensures Belongs(r.state, id, workers) {
      if p.Some? { ActiveGrows(y.process, p.value, id); }
      StateKeepsBelongs(u, y, e, id, workers);
    }
    forall l | l in r.mail ensures Belongs(r.state, l.id, workers) {
      StateKeepsBelongs(u, y, e, l.id, workers);
    }
  }

  lemma BelongsExtends(u: Setup, init: seq<Event>, last: Event)
    requires CounterHolds(u, init + [last]) && AllBelong(Run(u, init), Claimants(u, init))
    ensures AllBelong(Run(u, init + [last]), Claimants(u, init + [last]))
  {
    LastEvent(u, init, last);
    assert (init + [last])[..|init|] == init;
    EventKeepsBelongs(u, Run(u, init), last, Claimants(u, init + [last]));
  }

  /** In every run, a task is active in the process only if the scheduler placed it on a worker that was registered
      under the process's address when a delivery round read the store. */
  lemma {:induction false} RunBelongs(u: Setup, events: seq<Event>)
    requires CounterHolds(u, events)
    ensures AllBelong(Run(u, events), Claimants(u, events))
  {
    if events == [] {
      W.FreshInv(u.enqueuers, u.consumers);
    } else {
      var init, last := events[..|events| - 1], events[|events| - 1];
      assert events == init + [last];
      CounterHeld(u, events, |init|);
      RunBelongs(u, init);
      BelongsExtends(u, init, last);
    }
  }

  // ----- Letters are older than the reports on their tasks -----

  /** The consumer that executes the task has its result recorded by event `r`. */
  ghost predicate Reported(u: Setup, events: seq<Event>, r: nat, id: string) {
    r < |events| && events[r].Report? && Executed(Run(u, events[..r]).process, events[r].consumer) == Some(id)
  }

  ghost predicate Ended(s: State, id: string) {
    id in s.tasks && Terminal(s.tasks[id])
  }

  lemma EventKeepsEnded(u: Setup, init: seq<Event>, last: Event, id: string)
    requires CounterHolds(u, init + [last]) && Ended(Run(u, init).state, id)
    ensures Ended(Run(u, init + [last]).state, id)
  {
    LastEvent(u, init, last);
    RunExtends(u, init, last);
    var y := Run(u, init);
    var s := SchedulerStep(u, y, last);
    if s.Some? { PlacedStep(u.config, y.state, s.value, id); }
  }

  lemma Unsnoc(events: seq<Event>, i: nat) returns (init: seq<Event>, last: Event)
    requires i < |events|
    ensures init == events[..|events| - 1] && events == init + [last] && init[..i] == events[..i]
  {
    init, last := events[..|events| - 1], events[|events| - 1];
  }

  lemma {:induction false} StaysEnded(u: Setup, events: seq<Event>, i: nat, id: string)
    requires i <= |events| && CounterHolds(u, events) && Ended(Run(u, events[..i]).state, id)
    ensures Ended(Run(u, events).state, id)
    decreases |events|
  {
    if i == |events| {
      assert events[..i] == events;
    } else {
      var init, last := Unsnoc(events, i);
      CounterHeld(u, events, |events| - 1);
      StaysEnded(u, init, i, id);
      EventKeepsEnded(u, init, last, id);
    }
  }

  lemma ExecutedIsActive(x: W.Execution, k: nat)
    requires W.Inv(x) && Executed(x, k).Some?
    ensures Executed(x, k).value in x.active
  {
    W.HeldAt(x.consumers, k);
    assert W.Places(x, Executed(x, k).value) >= 1;
  }

  lemma ReportStep(u: Setup, y: System, e: Event, id: string)
    requires Valid(y.state) && id in y.state.tasks && y.state.tasks[id].status != Pending
    requires e.Report? && Executed(y.process, e.consumer) == Some(id)
    ensures Ended(StateAfter(u, y, e), id)
  {
    PlacedStep(u.config, y.state, CompleteStep(id, e.complete, e.at), id);
  }

  lemma ReportEnds(u: Setup, init: seq<Event>, last: Event, id: string)
    requires CounterHolds(u, init + [last]) && last.Report?
    requires Executed(Run(u, init).process, last.consumer) == Some(id)
    ensures Ended(Run(u, init + [last]).state, id)
  {
    LastEvent(u, init, last);
    RunBelongs(u, init);
    ExecutedIsActive(Run(u, init).process, last.consumer);
    ReportStep(u, Run(u, init), last, id);
    RunExtends(u, init, last);
  }

  lemma PrefixEnd(events: seq<Event>, r: nat) returns (init: seq<Event>, last: Event)
    requires r < |events|
    ensures init == events[..r] && last == events[r] && events[..r + 1] == init + [last]
  {
    init, last := events[..r], events[r];
  }

  lemma ReportedIsEnded(u: Setup, events: seq<Event>, r: nat, id: string)
    requires CounterHolds(u, events) && Reported(u, events, r, id)
    ensures Ended(Run(u, events).state, id)
  {
    var init, last := PrefixEnd(events, r);
    CounterHeld(u, events, r + 1);
    ReportEnds(u, init, last, id);
    StaysEnded(u, events, r + 1, id);
  }

  /** What the store held when the letter was taken. */
  ghost predicate Dated(u: Setup, events: seq<Event>, l: Letter) {
    l.taken < |events| && l.id in SentTo(Run(u, events[..l.taken]).state, u.address)
  }

  lemma {:induction false} RunDated(u: Setup, events: seq<Event>, l: Letter)
    requires l in Run(u, events).mail
    ensures Dated(u, events, l)
  {
    if events == [] {
      assert false;
    } else {
      var init, last := events[..|events| - 1], events[|events| - 1];
      if l in Run(u, init).mail {
        RunDated(u, init, l);
        assert init[..l.taken] == events[..l.taken];
      } else {
        StateOfRun(u, init);
      }
    }
  }

  lemma EndedAfterReport(u: Setup, events: seq<Event>, r: nat, t: nat, id: string)
    requires CounterHolds(u, events) && Reported(u, events, r, id) && r < t <= |events|
    ensures Ended(Run(u, events[..t]).state, id)
  {
    assert events[..t][..r] == events[..r] && events[..t][r] == events[r];
    CounterHeld(u, events, t);
    ReportedIsEnded(u, events[..t], r, id);
  }

  /** No letter about a task is taken after a report on it. */
  lemma LetterIsOlder(u: Setup, events: seq<Event>, r: nat, l: Letter)
    requires CounterHolds(u, events) && l in Run(u, events).mail && Reported(u, events, r, l.id)
    ensures l.taken <= r
  {
    RunDated(u, events, l);
    if r < l.taken {
      EndedAfterReport(u, events, r, l.taken, l.id);
      assert false;
    }
  }

  // ----- The worker's part of a run -----

  ghost function ProcessSteps(u: Setup, events: seq<Event>): (steps: seq<W.Step>) {
    if events == [] then [] else
      var init := events[..|events| - 1];
      var s := ProcessStep(Run(u, init), events[|events| - 1]);
      ProcessSteps(u, init) + if s.Some? then [s.value] else []
  }

  lemma {:induction false} ProcessOfRun(u: Setup, events: seq<Event>)
    ensures W.IsRun(W.Fresh(u.enqueuers, u.consumers), ProcessSteps(u, events))
    ensures Run(u, events).process == W.After(W.Fresh(u.enqueuers, u.consumers), ProcessSteps(u, events))
  {
    if events == [] {
    } else {
      var init, last := events[..|events| - 1], events[|events| - 1];
      ProcessOfRun(u, init);
      var s := ProcessStep(Run(u, init), last);
      ProcessStepEnabled(Run(u, init), last);
      if s.Some? {
        W.RunAppend(W.Fresh(u.enqueuers, u.consumers), ProcessSteps(u, init), s.value);
      } else {
        assert ProcessSteps(u, init) + [] == ProcessSteps(u, init);
      }
    }
  }

  // ----- When the worker's own heartbeats are truthful -----

  /** No copy of the task is left in the process: none was accepted, or each execution ended or was withdrawn. */
  ghost predicate NoCopyLeft(u: Setup, events: seq<Event>, id: string) {
    ProcessOfRun(u, events);
    var x, steps := W.Fresh(u.enqueuers, u.consumers), ProcessSteps(u, events);
    W.Times(x, steps, W.Accept, id) == W.Times(x, steps, W.End, id) + W.Times(x, steps, W.Withdraw, id)
  }

  /** Tasks counted wrongly: active, but reported already or placed on another worker. */
  ghost function Lingering(u: Setup, y: System): (ids: set<string>) {
    set id | id in y.process.active && id in y.state.tasks
          && (Terminal(y.state.tasks[id]) || y.state.tasks[id].assignedWorker != u.worker)
  }

  /** Tasks missing from the count: running on the worker, but not in the process. */
  ghost function Missing(u: Setup, events: seq<Event>): (ids: set<string>) {
    set id | id in RunningOn(Run(u, events).state, u.worker) && NoCopyLeft(u, events, id)
  }

  lemma ActiveIff(u: Setup, events: seq<Event>, id: string)
    ensures id !in Run(u, events).process.active <==> NoCopyLeft(u, events, id)
  {
    ProcessOfRun(u, events);
    W.AcceptedIff(u.enqueuers, u.consumers, ProcessSteps(u, events), id);
  }

  /** The active tasks are those running on the worker, less the missing and with the lingering ones. */
  lemma ActiveAgainstRunning(u: Setup, events: seq<Event>)
    requires CounterHolds(u, events)
    ensures
      var y := Run(u, events);
      var active, placed := y.process.active, RunningOn(y.state, u.worker);
      && active - placed == Lingering(u, y) && placed - active == Missing(u, events)
      && forall id :: id in Lingering(u, y) && !Terminal(y.state.tasks[id]) ==>
           y.state.tasks[id].assignedWorker in Claimants(u, events) - {u.worker}
  {
    RunBelongs(u, events);
    forall id ensures id !in Run(u, events).process.active <==> NoCopyLeft(u, events, id) { ActiveIff(u, events, id); }
  }

  lemma SplitSize(a: set<string>, b: set<string>)
    ensures |a| == |a - b| + |a * b|
  {
    assert a == (a - b) + (a * b);
  }

  lemma SizeDifference(a: set<string>, b: set<string>)
    ensures |a| - |b| == |a - b| - |b - a|
  {
    SplitSize(a, b);
    SplitSize(b, a);
    assert a * b == b * a;
  }

  /** A count of the active tasks is wrong by the number of lingering tasks less the number of missing ones; recorded
      at once, that is how far it leaves the worker's counter from the truth. */
  lemma BeatDrift(u: Setup, events: seq<Event>, now: Time)
    requires CounterHolds(u, events) && u.worker in Run(u, events).state.nodes
    ensures
      var y := Run(u, events);
      var r := Heartbeat(u.config, y.state, HeartbeatRequest(u.worker, |y.process.active|), now).0;
      u.worker in r.nodes && Drift(r, u.worker) == |Lingering(u, y)| - |Missing(u, events)|
  {
    var y := Run(u, events);
    StateOfRun(u, events);
    RunValid(u.config, Steps(u, events));
    HeartbeatDrift(u.config, y.state, HeartbeatRequest(u.worker, |y.process.active|), now);
    ActiveAgainstRunning(u, events);
    SizeDifference(y.process.active, RunningOn(y.state, u.worker));
  }

  ghost predicate NoneReported(y: System) {
    forall id :: id in y.process.active && id in y.state.tasks ==> !Terminal(y.state.tasks[id])
  }

  lemma NoneLingers(u: Setup, events: seq<Event>)
    requires CounterHolds(u, events) && Claimants(u, events) <= {u.worker} && NoneReported(Run(u, events))
    ensures Lingering(u, Run(u, events)) == {}
  {
    ActiveAgainstRunning(u, events);
  }

  lemma NoneChosenIff(all: set<string>, p: string -> bool, chosen: set<string>)
    requires chosen == set id | id in all && p(id)
    ensures |chosen| == 0 <==> forall id :: id in all ==> !p(id)
  {
    if forall id :: id in all ==> !p(id) {
      assert chosen == {};
    } else {
      var id :| id in all && p(id);
      assert id in chosen;
    }
  }

  lemma NoneMissingIff(u: Setup, events: seq<Event>)
    ensures |Missing(u, events)| == 0
            <==> forall id :: id in RunningOn(Run(u, events).state, u.worker) ==> !NoCopyLeft(u, events, id)
  {
    NoneChosenIff(RunningOn(Run(u, events).state, u.worker), id => NoCopyLeft(u, events, id), Missing(u, events));
  }

  /** Such a count is truthful if and only if the two numbers are equal. While no other worker claims the address and
      no active task is reported, that is: every task that runs on the worker has a copy in the process. */
  lemma HeartbeatTruthfulIff(u: Setup, events: seq<Event>, now: Time)
    requires CounterHolds(u, events) && u.worker in Run(u, events).state.nodes
    ensures
      var y := Run(u, events);
      var beat := HeartbeatStep(HeartbeatRequest(u.worker, |y.process.active|), now);
      && (Truthful(y.state, beat) <==> |Lingering(u, y)| == |Missing(u, events)|)
      && (Claimants(u, events) <= {u.worker} && NoneReported(y) ==>
            (Truthful(y.state, beat)
             <==> forall id :: id in RunningOn(y.state, u.worker) ==> !NoCopyLeft(u, events, id)))
  {
    var y := Run(u, events);
    ActiveAgainstRunning(u, events);
    SizeDifference(y.process.active, RunningOn(y.state, u.worker));
    if Claimants(u, events) <= {u.worker} && NoneReported(y) {
      NoneLingers(u, events);
      NoneMissingIff(u, events);
    }
  }

  // ----- Which deliveries lead to another execution -----

  /** Event `e` is step `p` of the worker process. */
  ghost predicate Locates(u: Setup, events: seq<Event>, p: nat, e: nat) {
    && p < |ProcessSteps(u, events)| && e < |events|
    && ProcessSteps(u, events[..e]) == ProcessSteps(u, events)[..p]
    && ProcessStep(Run(u, events[..e]), events[e]) == Some(ProcessSteps(u, events)[p])
  }

  lemma LocatedEarlier(u: Setup, init: seq<Event>, events: seq<Event>, p: nat, e: nat)
    requires events != [] && init == events[..|events| - 1] && Locates(u, init, p, e)
    ensures Locates(u, events, p, e)
  {
    assert init[..e] == events[..e];
    var before, steps := ProcessSteps(u, init), ProcessSteps(u, events);
    assert before <= steps;
    assert steps[..p] == before[..p];
  }

  lemma LocatedLast(u: Setup, init: seq<Event>, events: seq<Event>, p: nat)
    requires events != [] && init == events[..|events| - 1]
    requires |ProcessSteps(u, init)| <= p < |ProcessSteps(u, events)|
    ensures Locates(u, events, p, |init|)
  {
    var before, s := ProcessSteps(u, init), ProcessStep(Run(u, init), events[|init|]);
    assert events[..|init|] == init;
    assert ProcessSteps(u, events) == before + if s.Some? then [s.value] else [];
    assert s.Some? && p == |before|;
    assert (before + [s.value])[..p] == before && (before + [s.value])[p] == s.value;
  }

  lemma {:induction false} Locate(u: Setup, events: seq<Event>, p: nat) returns (e: nat)
    requires p < |ProcessSteps(u, events)|
    ensures Locates(u, events, p, e)
  {
    var init := events[..|events| - 1];
    if p < |ProcessSteps(u, init)| {
      e := Locate(u, init, p);
      LocatedEarlier(u, init, events, p, e);
    } else {
      e := |init|;
      LocatedLast(u, init, events, p);
    }
  }

  lemma {:induction false} ProcessStepsGrow(u: Setup, events: seq<Event>, i: nat)
    requires i <= |events|
    ensures |ProcessSteps(u, events[..i])| <= |ProcessSteps(u, events)|
  {
    if i == |events| {
      assert events[..i] == events;
    } else {
      var init := events[..|events| - 1];
      assert init[..i] == events[..i];
      ProcessStepsGrow(u, init, i);
    }
  }

  lemma LocatedInOrder(u: Setup, events: seq<Event>, p: nat, q: nat, e: nat, m: nat)
    requires p < q && Locates(u, events, p, e) && Locates(u, events, q, m)
    ensures e < m
  {
    if m <= e {
      assert events[..e][..m] == events[..m];
      ProcessStepsGrow(u, events[..e], m);
    }
  }

  /** By event `e` an execution of the task ends. */
  ghost predicate FinishedBy(u: Setup, events: seq<Event>, e: nat, id: string) {
    && e < |events| && events[e].Local? && events[e].move.Finish?
    && Executed(Run(u, events[..e]).process, events[e].move.consumer) == Some(id)
  }

  /** By event `m` the worker takes a letter about the task, which was not active. */
  ghost predicate AcceptedBy(u: Setup, events: seq<Event>, m: nat, id: string) {
    && m < |events| && events[m].Arrive? && events[m].letter.id == id
    && events[m].letter in Run(u, events[..m]).mail && id !in Run(u, events[..m]).process.active
  }

  lemma HappensLocated(u: Setup, events: seq<Event>, p: nat, kind: W.Kind, id: string) returns (e: nat)
    requires W.HappensAt(W.Fresh(u.enqueuers, u.consumers), ProcessSteps(u, events), p, kind, id)
    ensures Locates(u, events, p, e)
    ensures kind.End? ==> FinishedBy(u, events, e, id)
    ensures kind.Accept? ==> AcceptedBy(u, events, e, id)
  {
    e := Locate(u, events, p);
    ProcessOfRun(u, events[..e]);
  }

  /** The letter that event `m` takes was read from the store before any report on its task. */
  ghost predicate Stale(u: Setup, events: seq<Event>, m: nat, id: string)
    requires m < |events| && events[m].Arrive?
  {
    forall r: nat :: r < m && Reported(u, events, r, id) ==> events[m].letter.taken <= r
  }

  lemma AcceptedIsStale(u: Setup, events: seq<Event>, m: nat, id: string)
    requires CounterHolds(u, events) && AcceptedBy(u, events, m, id)
    ensures Stale(u, events, m, id)
  {
    CounterHeld(u, events, m);
    forall r: nat | r < m && Reported(u, events, r, id) ensures events[m].letter.taken <= r {
      assert events[..m][..r] == events[..r];
      LetterIsOlder(u, events[..m], r, events[m].letter);
    }
  }

  /** A task is executed more than once only if a letter about it arrives after an execution of it ended. Like every
      letter that is accepted, it was read from the store before any report on the task; so if a report was recorded
      before that end, the letter is older than the end, and was on its way when the execution finished. */
  lemma ExecutedAgainFromStale(u: Setup, events: seq<Event>, id: string) returns (e: nat, m: nat)
    requires CounterHolds(u, events) && W.IsRun(W.Fresh(u.enqueuers, u.consumers), ProcessSteps(u, events))
    requires W.Times(W.Fresh(u.enqueuers, u.consumers), ProcessSteps(u, events), W.Start, id) >= 2
    ensures e < m && FinishedBy(u, events, e, id) && AcceptedBy(u, events, m, id) && Stale(u, events, m, id)
    ensures (exists r: nat :: r < e && Reported(u, events, r, id)) ==> events[m].letter.taken < e
  {
    var x, steps := W.Fresh(u.enqueuers, u.consumers), ProcessSteps(u, events);
    W.ExecutedAgainIff(u.enqueuers, u.consumers, steps, id);
    var i: nat, a: nat, j: nat :| i < a < j && W.HappensAt(x, steps, i, W.End, id)
      && W.HappensAt(x, steps, a, W.Accept, id) && W.HappensAt(x, steps, j, W.Start, id);
    e := HappensLocated(u, events, i, W.End, id);
    m := HappensLocated(u, events, a, W.Accept, id);
    LocatedInOrder(u, events, i, a, e, m);
    AcceptedIsStale(u, events, m, id);
  }

  // ----- Two runs in which everyone does what the code does -----

  /** All heartbeats of the run carry a count of the worker's active tasks. */
  ghost predicate OnlyOwnBeats(events: seq<Event>) {
    forall e :: e in events ==> !e.Farewell? && !(e.Write? && e.step.HeartbeatStep?)
  }

  ghost predicate NoHeartbeats(steps: seq<Step>) { forall s :: s in steps ==> !s.HeartbeatStep? }

  lemma OneWrite(u: Setup, events: seq<Event>, step: Step)
    ensures
      var y, r := Run(u, events), Run(u, events + [Write(step)]);
      && Steps(u, events + [Write(step)]) == Steps(u, events) + [step]
      && r.process == y.process && r.mail == y.mail && r.counts == y.counts
    ensures OnlyOwnBeats(events) && !step.HeartbeatStep? ==> OnlyOwnBeats(events + [Write(step)])
  {
    assert (events + [Write(step)])[..|events|] == events;
  }

  lemma AppendLast(before: seq<Step>, steps: seq<Step>) returns (init: seq<Step>, last: Step)
    requires steps != [] && NoHeartbeats(steps)
    ensures |init| == |steps| - 1 && before + init + [last] == before + steps
    ensures NoHeartbeats(init) && !last.HeartbeatStep?
  {
    init, last := steps[..|steps| - 1], steps[|steps| - 1];
  }

  /** Write sections of others can follow any run, and leave the worker alone. */
  lemma {:induction false} RunWrites(u: Setup, events: seq<Event>, steps: seq<Step>) returns (longer: seq<Event>)
    requires OnlyOwnBeats(events) && NoHeartbeats(steps)
    ensures OnlyOwnBeats(longer) && Steps(u, longer) == Steps(u, events) + steps
    ensures
      var y, r := Run(u, events), Run(u, longer);
      r.process == y.process && r.mail == y.mail && r.counts == y.counts
    decreases |steps|
  {
    if steps == [] {
      longer := events;
    } else {
      var init, last := AppendLast(Steps(u, events), steps);
      var before := RunWrites(u, events, init);
      OneWrite(u, before, last);
      longer := before + [Write(last)];
    }
  }

  lemma OneCount(u: Setup, events: seq<Event>)
    ensures
      var y, r := Run(u, events), Run(u, events + [Count]);
      && Steps(u, events + [Count]) == Steps(u, events)
      && r.process == y.process && |y.process.active| in r.counts
  {
    assert (events + [Count])[..|events|] == events;
  }

  lemma OneBeat(u: Setup, events: seq<Event>, n: nat, now: Time)
    requires n in Run(u, events).counts
    ensures Run(u, events + [Beat(n, now)]).process == Run(u, events).process
    ensures Steps(u, events + [Beat(n, now)]) == Steps(u, events) + [HeartbeatStep(HeartbeatRequest(u.worker, n), now)]
  {
    assert (events + [Beat(n, now)])[..|events|] == events;
  }

  /** The heartbeat thread counts, and what it sends is recorded. */
  lemma OwnBeat(u: Setup, events: seq<Event>, n: nat, now: Time) returns (longer: seq<Event>)
    requires OnlyOwnBeats(events) && n == |Run(u, events).process.active|
    ensures OnlyOwnBeats(longer) && Run(u, longer).process == Run(u, events).process
    ensures Steps(u, longer) == Steps(u, events) + [HeartbeatStep(HeartbeatRequest(u.worker, n), now)]
  {
    OneCount(u, events);
    OneBeat(u, events + [Count], n, now);
    longer := events + [Count] + [Beat(n, now)];
  }

  ghost predicate NoRegistrations(steps: seq<Step>) { forall s :: s in steps ==> !s.RegisterStep? }

  lemma {:induction false} AddressKept(c: Config, steps: seq<Step>, rest: seq<Step>, w: string)
    requires w in Exec(c, steps).nodes && NoRegistrations(rest)
    ensures w in Exec(c, steps + rest).nodes
    ensures Exec(c, steps + rest).nodes[w].address == Exec(c, steps).nodes[w].address
    decreases |rest|
  {
    if rest == [] {
      assert steps + rest == steps;
    } else {
      var init, last := rest[..|rest| - 1], rest[|rest| - 1];
      AddressKept(c, steps, init, w);
      assert steps + rest == steps + init + [last];
      ExecExtends(c, steps + init, last);
      RunValid(c, steps + init);
      R.RegistrationStep(c, Exec(c, steps + init), last, w);
    }
  }

  lemma Continuation(longer: seq<Step>, steps: seq<Step>) returns (rest: seq<Step>)
    requires QuietlyExtends(longer, steps)
    ensures longer == steps + rest && NoHeartbeats(rest) && NoRegistrations(rest)
  {
    rest := longer[|steps|..];
  }

  /** A worker of capacity 1 joins and is given its first task. */
  lemma FirstTask(c: Config, w: string, address: string, req: SubmitRequest) returns (steps: seq<Step>)
    requires c.offlineAfter >= 0 && w != "" && SubmitAccepted(req)
    ensures NoHeartbeats(steps) && LoneWorker(c, Exec(c, steps), w, 1, 1) && KeysIssued(Exec(c, steps), 1)
    ensures Exec(c, steps).nodes[w].address == address && steps != [] && NoRegistrations(steps[1..])
  {
    var joined := JoinedWorker(c, w, address, 1);
    steps := OneMoreTask(c, joined, w, req, 1, 0);
    var rest := Continuation(steps, joined);
    AddressKept(c, joined, rest, w);
    assert steps[1..] == rest;
  }

  /** Told that it runs none, the scheduler gives it another. */
  lemma SecondTask(c: Config, before: seq<Step>, w: string, req: SubmitRequest) returns (rest: seq<Step>)
    requires c.offlineAfter >= 0 && SubmitAccepted(req)
    requires LoneWorker(c, Exec(c, before), w, 1, 1) && KeysIssued(Exec(c, before), 1)
    ensures NoHeartbeats(rest) && NoRegistrations(rest)
    ensures !Truthful(Exec(c, before), HeartbeatStep(HeartbeatRequest(w, 0), 1))
    ensures LoneWorker(c, Exec(c, before + [HeartbeatStep(HeartbeatRequest(w, 0), 1)] + rest), w, 1, 2)
  {
    var beaten := LyingWorker(c, before, w, 1, 1);
    var steps := OneMoreTask(c, beaten, w, req, 1, 1);
    rest := Continuation(steps, beaten);
  }

  lemma LieBetween(c: Config, before: seq<Step>, lie: Step, rest: seq<Step>)
    requires before != [] && NoRegistrations(before[1..]) && NoHeartbeats(before)
    requires NoHeartbeats(rest) && NoRegistrations(rest) && lie.HeartbeatStep? && !Truthful(Exec(c, before), lie)
    ensures OneLie(c, before + [lie] + rest, |before|)
  {
    var steps := before + [lie] + rest;
    assert steps[..|before|] == before;
    forall k | 0 < k < |steps| ensures !steps[k].RegisterStep? {
      if k < |before| { assert steps[k] == before[1..][k - 1]; }
    }
    OnlyOneLie(c, steps, |before|);
  }

  /** A worker that only counts its own active tasks makes the scheduler overload it: it counts while its first
      task is still on the way, and is given a second one beyond its capacity. Nothing else in the run is untruthful
      or cuts a capacity below the tasks running. */
  lemma HonestWorkerOverloads(u: Setup, req: SubmitRequest) returns (events: seq<Event>, lie: nat)
    requires u.config.offlineAfter >= 0 && u.worker != "" && SubmitAccepted(req)
    ensures OnlyOwnBeats(events) && OneLie(u.config, Steps(u, events), lie)
    ensures
      var s := Run(u, events).state;
      u.worker in s.nodes && s.nodes[u.worker].capacity == 1 && |RunningOn(s, u.worker)| == 2
  {
    var before := FirstTask(u.config, u.worker, u.address, req);
    var rest := SecondTask(u.config, before, u.worker, req);
    var placed := RunWrites(u, [], before);
    assert Steps(u, placed) == before;
    var beaten := OwnBeat(u, placed, 0, 1);
    events := RunWrites(u, beaten, rest);
    StateOfRun(u, events);
    lie := |before|;
    LieBetween(u.config, before, HeartbeatStep(HeartbeatRequest(u.worker, 0), 1), rest);
  }

  lemma OneMove(u: Setup, events: seq<Event>, move: W.Step)
    requires !move.Deliver? && W.Enabled(Run(u, events).process, move)
    ensures
      var y, r := Run(u, events), Run(u, events + [Local(move)]);
      r.state == y.state && r.mail == y.mail && r.process == W.Next(y.process, move)
  {
    RunExtends(u, events, Local(move));
  }

  lemma OneArrival(u: Setup, events: seq<Event>, l: Letter, k: nat)
    requires l in Run(u, events).mail && W.Enabled(Run(u, events).process, W.Deliver(k, l.id))
    ensures
      var y, r := Run(u, events), Run(u, events + [Arrive(l, k)]);
      r.state == y.state && r.mail == y.mail - {l} && r.process == W.Next(y.process, W.Deliver(k, l.id))
  {
    RunExtends(u, events, Arrive(l, k));
  }

  lemma OneSnapshot(u: Setup, events: seq<Event>, id: string)
    requires id in SentTo(Run(u, events).state, u.address)
    ensures
      var y, r := Run(u, events), Run(u, events + [Snapshot]);
      r.state == y.state && r.process == y.process && y.mail <= r.mail && Letter(id, |events|) in r.mail
  {
    RunExtends(u, events, Snapshot);
    StateOfRun(u, events);
  }

  /** Nothing to do, with a thread to receive and one to execute. */
  ghost predicate Idle(x: W.Execution) {
    && !x.stopped && x.queue == [] && x.active == {} && x.enqueuers != [] && x.enqueuers[0].Empty?
    && x.consumers != [] && x.consumers[0].Empty?
  }

  /** The first thread executes the only task there is. */
  ghost predicate Busy(x: W.Execution, id: string) {
    && !x.stopped && x.queue == [] && x.active == {id} && x.enqueuers != [] && x.enqueuers[0].Empty?
    && Executed(x, 0) == Some(id)
  }

  lemma IdleServes(x: W.Execution, id: string)
    requires Idle(x)
    ensures
      var a := W.Next(x, W.Deliver(0, id));
      && W.Enabled(a, W.Push(0)) && W.Enabled(W.Next(a, W.Push(0)), W.Pop(0))
      && Busy(W.Next(W.Next(a, W.Push(0)), W.Pop(0)), id)
  {
    assert ([] + [id])[1..] == [];
  }

  /** A letter reaches an idle worker and its task is executed. */
  lemma Serve(u: Setup, events: seq<Event>, l: Letter) returns (longer: seq<Event>)
    requires l in Run(u, events).mail && Idle(Run(u, events).process)
    ensures |events| <= |longer| && longer[..|events|] == events && Busy(Run(u, longer).process, l.id)
    ensures Run(u, longer).state == Run(u, events).state && Run(u, longer).mail == Run(u, events).mail - {l}
  {
    IdleServes(Run(u, events).process, l.id);
    OneArrival(u, events, l, 0);
    var a := events + [Arrive(l, 0)];
    OneMove(u, a, W.Push(0));
    OneMove(u, a + [Local(W.Push(0))], W.Pop(0));
    longer := a + [Local(W.Push(0))] + [Local(W.Pop(0))];
  }

  /** The result is recorded and the execution ends. */
  lemma ReportAndFinish(u: Setup, events: seq<Event>, id: string, complete: CompleteRequest)
    returns (longer: seq<Event>)
    requires Valid(Run(u, events).state) && id in RunningOn(Run(u, events).state, u.worker)
    requires Busy(Run(u, events).process, id)
    ensures longer == events + [Report(0, complete, 2)] + [Local(W.Finish(0))]
    ensures Reported(u, longer, |events|, id) && FinishedBy(u, longer, |events| + 1, id)
    ensures Idle(Run(u, longer).process) && Ended(Run(u, longer).state, id)
    ensures Run(u, longer).mail == Run(u, events).mail
  {
    var y, report := Run(u, events), Report(0, complete, 2);
    RunExtends(u, events, report);
    PlacedStep(u.config, y.state, CompleteStep(id, complete, 2), id);
    OneMove(u, events + [report], W.Finish(0));
    longer := events + [report] + [Local(W.Finish(0))];
    assert longer[..|events|] == events && longer[..|events| + 1] == events + [report];
  }

  lemma TaskToSend(c: Config, w: string, address: string, req: SubmitRequest) returns (steps: seq<Step>, id: string)
    requires c.offlineAfter >= 0 && w != "" && address != "" && SubmitAccepted(req)
    ensures NoHeartbeats(steps)
    ensures
      var s := Exec(c, steps);
      Valid(s) && id in RunningOn(s, w) && id in SentTo(s, address)
  {
    steps := FirstTask(c, w, address, req);
    id :| id in RunningOn(Exec(c, steps), w);
  }

  lemma FirstPlaced(u: Setup, req: SubmitRequest) returns (events: seq<Event>, id: string)
    requires u.config.offlineAfter >= 0 && u.worker != "" && u.address != "" && SubmitAccepted(req)
    ensures
      var y := Run(u, events);
      && Valid(y.state) && id in RunningOn(y.state, u.worker) && id in SentTo(y.state, u.address)
      && y.process == W.Fresh(u.enqueuers, u.consumers)
  {
    var before;
    before, id := TaskToSend(u.config, u.worker, u.address, req);
    events := RunWrites(u, [], before);
    assert Steps(u, events) == before;
    StateOfRun(u, events);
  }

  lemma SentTwice(u: Setup, req: SubmitRequest) returns (events: seq<Event>, n: nat, id: string)
    requires u.config.offlineAfter >= 0 && u.worker != "" && u.address != "" && SubmitAccepted(req)
    requires u.enqueuers > 0 && u.consumers > 0
    ensures
      var y := Run(u, events);
      && Valid(y.state) && id in RunningOn(y.state, u.worker) && Idle(y.process)
      && Letter(id, n) in y.mail && Letter(id, n + 1) in y.mail
  {
    var placed;
    placed, id := FirstPlaced(u, req);
    n := |placed|;
    OneSnapshot(u, placed, id);
    OneSnapshot(u, placed + [Snapshot], id);
    events := placed + [Snapshot] + [Snapshot];
  }

  lemma StillThere(u: Setup, events: seq<Event>, longer: seq<Event>, r: nat, id: string)
    requires |events| <= |longer| && longer[..|events|] == events
    requires Reported(u, events, r, id) && FinishedBy(u, events, r + 1, id)
    ensures Reported(u, longer, r, id) && FinishedBy(u, longer, r + 1, id)
  {
    assert longer[..r] == events[..r] && longer[..r + 1] == events[..r + 1];
    assert longer[r] == events[r] && longer[r + 1] == events[r + 1];
  }

  /** The deliverer reads the store twice before the first copy arrives; the second arrives after the task was
      executed and reported, and the worker executes it again. */
  lemma StaleLetterRepeats(u: Setup, req: SubmitRequest, complete: CompleteRequest)
    returns (events: seq<Event>, r: nat, id: string)
    requires u.config.offlineAfter >= 0 && u.worker != "" && u.address != "" && SubmitAccepted(req)
    requires u.enqueuers > 0 && u.consumers > 0
    ensures Reported(u, events, r, id) && FinishedBy(u, events, r + 1, id)
    ensures Ended(Run(u, events).state, id) && Executed(Run(u, events).process, 0) == Some(id)
  {
    var sent, n;
    sent, n, id := SentTwice(u, req);
    var first := Serve(u, sent, Letter(id, n));
    r := |first|;
    var reported := ReportAndFinish(u, first, id, complete);
    events := Serve(u, reported, Letter(id, n + 1));
    StillThere(u, reported, events, r, id);
  }
}
