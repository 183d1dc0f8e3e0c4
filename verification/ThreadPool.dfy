/** The worker's thread pool: enqueuers, pool threads and one start/stop caller, interleaved. */
module ThreadPool {

  /** Which submitted job; two submissions of equal work are two jobs. */
  type Job = nat

  datatype Worker = Waiting | Executing(job: Job) | Exited

  /** Where the thread that calls start and stop is: outside, between start's two locked sections
      (possibly after a thread could not be created), or joining inside stop. */
  datatype Phase = Outside | Spawning | SpawnFailed | Joining

  /** The shared fields, the pool threads, and the history of jobs accepted, taken and finished. */
  datatype Pool = Pool(
    threadCount: nat, tasks: seq<Job>, started: bool, stopping: bool, workers: seq<Worker>, phase: Phase,
    accepted: seq<Job>, taken: seq<Job>, finished: multiset<Job>)

  function Fresh(threadCount: nat): (p: Pool) {
    Pool(threadCount, [], false, false, [], Outside, [], [], multiset{})
  }

  datatype Step =
    | BeginStart | Spawn | FailSpawn | FinishStart
    | BeginStop | FinishStop
    | Enqueue(job: Job)
    | Take(worker: nat) | Finish(worker: nat)

  predicate AllExited(p: Pool) { forall i :: 0 <= i < |p.workers| ==> p.workers[i].Exited? }

  /** The condition each thread waits for before the step. */
  predicate Enabled(p: Pool, s: Step) {
    match s
    case BeginStart => p.phase.Outside?
    case Spawn => p.phase.Spawning? && |p.workers| < p.threadCount
    case FailSpawn => p.phase.Spawning? && |p.workers| < p.threadCount
    case FinishStart => p.phase.Spawning? && |p.workers| >= p.threadCount
    case BeginStop => p.phase.Outside? || p.phase.SpawnFailed?
    case FinishStop => p.phase.Joining? && AllExited(p)
    case Enqueue(_) => true
    case Take(i) => i < |p.workers| && p.workers[i].Waiting? && (p.stopping || p.tasks != [])
    case Finish(i) => i < |p.workers| && p.workers[i].Executing?
  }

  function Next(p: Pool, s: Step): (r: Pool)
    requires Enabled(p, s)
  {
    match s
    case BeginStart => if p.started || p.threadCount == 0 then p else p.(stopping := false, phase := Spawning)
    case Spawn => p.(workers := p.workers + [Waiting])
    case FailSpawn => p.(phase := SpawnFailed)
    case FinishStart => p.(started := true, phase := Outside)
    case BeginStop =>
      if !p.started && p.workers == [] then p.(phase := Outside) else p.(stopping := true, phase := Joining)
    case FinishStop => p.(workers := [], tasks := [], started := false, phase := Outside)
    case Enqueue(job) =>
      if !p.started || p.stopping then p else p.(tasks := p.tasks + [job], accepted := p.accepted + [job])
    case Take(i) =>
      if p.tasks == [] then p.(workers := p.workers[i := Exited])
      else p.(workers := p.workers[i := Executing(p.tasks[0])], tasks := p.tasks[1..], taken := p.taken + [p.tasks[0]])
    case Finish(i) =>
      p.(workers := p.workers[i := Waiting], finished := p.finished + multiset{p.workers[i].job})
  }

  ghost predicate IsRun(p: Pool, steps: seq<Step>)
    decreases |steps|
  {
    steps == [] || (Enabled(p, steps[0]) && IsRun(Next(p, steps[0]), steps[1..]))
  }

  ghost function After(p: Pool, steps: seq<Step>): (r: Pool)
    requires IsRun(p, steps)
    decreases |steps|
  {
    if steps == [] then p else After(Next(p, steps[0]), steps[1..])
  }

  function JobOf(w: Worker): (jobs: multiset<Job>) { if w.Executing? then multiset{w.job} else multiset{} }

  /** The jobs being executed. */
  function InHand(ws: seq<Worker>): (jobs: multiset<Job>) {
    if ws == [] then multiset{} else JobOf(ws[0]) + InHand(ws[1..])
  }

  lemma {:induction false} InHandUpdate(ws: seq<Worker>, i: nat, w: Worker, j: Job)
    requires i < |ws|
    ensures InHand(ws[i := w])[j] + JobOf(ws[i])[j] == InHand(ws)[j] + JobOf(w)[j]
  {
    if i == 0 {
      assert ws[i := w][1..] == ws[1..];
    } else {
      assert ws[i := w][1..] == ws[1..][i - 1 := w];
      InHandUpdate(ws[1..], i - 1, w, j);
    }
  }

  lemma {:induction false} InHandGrow(ws: seq<Worker>)
    ensures InHand(ws + [Waiting]) == InHand(ws)
  {
    if ws == [] {
    } else {
      assert (ws + [Waiting])[1..] == ws[1..] + [Waiting];
      InHandGrow(ws[1..]);
    }
  }

  lemma {:induction false} InHandExited(ws: seq<Worker>)
    requires forall i :: 0 <= i < |ws| ==> ws[i].Exited?
    ensures InHand(ws) == multiset{}
  {
    if ws == [] {
    } else {
      InHandExited(ws[1..]);
    }
  }

  ghost predicate Inv(p: Pool) {
    // First in, first out: what was accepted is what was taken, then what is queued.
    && p.accepted == p.taken + p.tasks
    && multiset(p.taken) == p.finished + InHand(p.workers)
    // Jobs exist only while the pool is up, and threads only while it is coming up, up or going down.
    && (!p.started ==> p.tasks == [])
    && (p.phase.Outside? && !p.started ==> p.workers == [])
    && (p.started ==> |p.workers| >= 1)
    && (p.phase.Joining? ==> p.stopping && p.workers != [])
    && (p.phase.Spawning? || p.phase.SpawnFailed? ==> !p.started && !p.stopping && p.threadCount >= 1)
    && (p.phase.Outside? && p.started ==> !p.stopping)
    // A thread leaves only when told to stop and nothing is queued.
    && ExitedOnlyWhenDrained(p)
  }

  ghost predicate ExitedOnlyWhenDrained(p: Pool) {
    (exists i :: 0 <= i < |p.workers| && p.workers[i].Exited?) ==> p.stopping && p.tasks == []
  }

  lemma TakeKeepsOrder(p: Pool, i: nat)
    requires Inv(p) && Enabled(p, Take(i)) && p.tasks != []
    ensures var r := Next(p, Take(i)); r.accepted == r.taken + r.tasks
  {
    assert p.tasks == [p.tasks[0]] + p.tasks[1..];
  }

  lemma TakeKeepsHistory(p: Pool, i: nat)
    requires Inv(p) && Enabled(p, Take(i)) && p.tasks != []
    ensures var r := Next(p, Take(i)); multiset(r.taken) == r.finished + InHand(r.workers)
  {
    TakeInHand(p.workers, i, p.tasks[0]);
    assert multiset(p.taken + [p.tasks[0]]) == multiset(p.taken) + multiset{p.tasks[0]};
  }

  lemma TakeInHand(workers: seq<Worker>, i: nat, job: Job)
    requires i < |workers| && !workers[i].Executing?
    ensures InHand(workers[i := Executing(job)]) == InHand(workers) + multiset{job}
  {
    var before, after := InHand(workers), InHand(workers[i := Executing(job)]);
    forall j: Job ensures after[j] == before[j] + multiset{job}[j] {
      InHandUpdate(workers, i, Executing(job), j);
    }
  }

  lemma ExitKeepsHistory(p: Pool, i: nat)
    requires Inv(p) && Enabled(p, Take(i)) && p.tasks == []
    ensures multiset(p.taken) == p.finished + InHand(p.workers[i := Exited])
  {
    forall j: Job ensures InHand(p.workers[i := Exited])[j] == InHand(p.workers)[j] {
      InHandUpdate(p.workers, i, Exited, j);
    }
    assert InHand(p.workers[i := Exited]) == InHand(p.workers);
  }

  lemma FinishKeepsHistory(p: Pool, i: nat)
    requires Inv(p) && Enabled(p, Finish(i))
    ensures
      var r := Next(p, Finish(i));
      multiset(r.taken) == r.finished + InHand(r.workers)
  {
    var r := Next(p, Finish(i));
    forall j: Job ensures multiset(r.taken)[j] == r.finished[j] + InHand(r.workers)[j] {
      InHandUpdate(p.workers, i, Waiting, j);
      assert multiset(p.taken)[j] == p.finished[j] + InHand(p.workers)[j];
    }
  }

  lemma TakeKeepsExits(p: Pool, i: nat)
    requires Inv(p) && Enabled(p, Take(i))
    ensures ExitedOnlyWhenDrained(Next(p, Take(i)))
  {
    var r := Next(p, Take(i));
    forall k | 0 <= k < |r.workers| && r.workers[k].Exited? ensures r.stopping && r.tasks == [] {
      if k != i { assert p.workers[k].Exited?; }
    }
  }

  lemma FinishKeepsInv(p: Pool, i: nat)
    requires Inv(p) && Enabled(p, Finish(i))
    ensures Inv(Next(p, Finish(i)))
  {
    var r := Next(p, Finish(i));
    FinishKeepsHistory(p, i);
    forall k | 0 <= k < |r.workers| && r.workers[k].Exited? ensures r.stopping && r.tasks == [] {
      assert p.workers[k].Exited?;
    }
  }

  /** When stop has joined its threads, every accepted job was taken, in order, and has finished. */
  lemma JoinedMeansDrained(p: Pool)
    requires Inv(p) && p.phase.Joining? && AllExited(p)
    ensures p.tasks == [] && p.taken == p.accepted && p.finished == multiset(p.accepted)
  {
    assert p.workers[0].Exited?;
    InHandExited(p.workers);
  }

  lemma TakeKeepsInv(p: Pool, i: nat)
    requires Inv(p) && Enabled(p, Take(i))
    ensures Inv(Next(p, Take(i)))
  {
    TakeKeepsExits(p, i);
    if p.tasks == [] {
      ExitKeepsHistory(p, i);
    } else {
      TakeKeepsOrder(p, i);
      TakeKeepsHistory(p, i);
    }
  }

  lemma EnqueueKeepsInv(p: Pool, job: Job)
    requires Inv(p)
    ensures Inv(Next(p, Enqueue(job)))
  {
    assert p.taken + (p.tasks + [job]) == (p.taken + p.tasks) + [job];
  }

  lemma SpawnKeepsInv(p: Pool)
    requires Inv(p) && Enabled(p, Spawn)
    ensures Inv(Next(p, Spawn))
  {
    InHandGrow(p.workers);
    var r := Next(p, Spawn);
    assert forall k :: 0 <= k < |p.workers| ==> r.workers[k] == p.workers[k];
  }

  lemma StepKeepsInv(p: Pool, s: Step)
    requires Inv(p) && Enabled(p, s)
    ensures Inv(Next(p, s))
  {
    match s
    case Spawn => SpawnKeepsInv(p);
    case Enqueue(job) => EnqueueKeepsInv(p, job);
    case Take(i) => TakeKeepsInv(p, i);
    case Finish(i) => FinishKeepsInv(p, i);
    case FinishStop => JoinedMeansDrained(p);
    case _ =>
  }

  lemma {:induction false} RunKeepsInv(p: Pool, steps: seq<Step>)
    requires Inv(p) && IsRun(p, steps)
    ensures Inv(After(p, steps))
    decreases |steps|
  {
    if steps == [] {
    } else {
      StepKeepsInv(p, steps[0]);
      RunKeepsInv(Next(p, steps[0]), steps[1..]);
    }
  }

  /** In every interleaving, the clearing loop at the end of stop finds the queue empty, and whenever
      the pool is down every job it ever accepted has been taken once, in order, and has finished. */
  lemma StopDiscardsNothing(threadCount: nat, steps: seq<Step>)
    requires IsRun(Fresh(threadCount), steps)
    ensures
      var p := After(Fresh(threadCount), steps);
      && (Enabled(p, FinishStop) ==> p.tasks == [])
      && (Enabled(p, FinishStop) || (p.phase.Outside? && !p.started) ==>
            p.taken == p.accepted && p.finished == multiset(p.accepted))
  {
    assert Inv(Fresh(threadCount));
    RunKeepsInv(Fresh(threadCount), steps);
    var p := After(Fresh(threadCount), steps);
    if Enabled(p, FinishStop) { JoinedMeansDrained(p); }
  }

  // ----- Stop does return -----

  function Remaining(ws: seq<Worker>): (n: nat) {
    if ws == [] then 0
    else (match ws[0] case Exited => 0 case Waiting => 1 case Executing(_) => 2) + Remaining(ws[1..])
  }

  /** Pool-thread steps left before all threads have exited. */
  function Work(p: Pool): (n: nat) { 3 * |p.tasks| + Remaining(p.workers) }

  lemma {:induction false} RemainingUpdate(ws: seq<Worker>, i: nat, w: Worker)
    requires i < |ws|
    ensures Remaining(ws[i := w]) + Remaining([ws[i]]) == Remaining(ws) + Remaining([w])
  {
    if i == 0 {
      assert ws[i := w][1..] == ws[1..];
    } else {
      assert ws[i := w][1..] == ws[1..][i - 1 := w];
      RemainingUpdate(ws[1..], i - 1, w);
    }
  }

  function StepOf(p: Pool, i: nat): (s: Step)
    requires i < |p.workers|
  {
    if p.workers[i].Executing? then Finish(i) else Take(i)
  }

  /** While stop joins, a thread that has not exited can always step, each such step uses up work, and
      no other step adds any. */
  lemma JoinAlwaysProgresses(p: Pool, i: nat, other: Step)
    requires Inv(p) && p.phase.Joining? && i < |p.workers| && !p.workers[i].Exited?
    requires Enabled(p, other) && !other.FinishStop?
    ensures Enabled(p, StepOf(p, i)) && Work(Next(p, StepOf(p, i))) < Work(p)
    ensures Next(p, other).phase.Joining? && Work(Next(p, other)) <= Work(p)
  {
    WorkDecreases(p, i);
    match other
    case Take(k) => WorkDecreases(p, k);
    case Finish(k) => WorkDecreases(p, k);
    case _ =>
  }

  lemma WorkDecreases(p: Pool, i: nat)
    requires i < |p.workers| && Enabled(p, StepOf(p, i))
    ensures Work(Next(p, StepOf(p, i))) < Work(p)
  {
    var r := Next(p, StepOf(p, i));
    RemainingUpdate(p.workers, i, r.workers[i]);
    assert Remaining([p.workers[i]]) == if p.workers[i].Executing? then 2 else 1;
  }

  predicate IsPoolStep(s: Step) { s.Take? || s.Finish? }

  function PoolSteps(steps: seq<Step>): (n: nat) {
    if steps == [] then 0 else (if IsPoolStep(steps[0]) then 1 else 0) + PoolSteps(steps[1..])
  }

  lemma JoinStep(p: Pool, s: Step)
    requires Inv(p) && p.phase.Joining? && Enabled(p, s) && !s.FinishStop?
    ensures Next(p, s).phase.Joining? && Work(Next(p, s)) + (if IsPoolStep(s) then 1 else 0) <= Work(p)
  {
    match s
    case Take(i) => WorkDecreases(p, i);
    case Finish(i) => WorkDecreases(p, i);
    case _ =>
  }

  /** Whatever else happens while stop joins, the pool threads take at most `Work(p)` steps more. */
  lemma {:induction false} JoinIsBounded(p: Pool, steps: seq<Step>)
    requires Inv(p) && p.phase.Joining? && IsRun(p, steps) && FinishStop !in steps
    ensures After(p, steps).phase.Joining? && PoolSteps(steps) + Work(After(p, steps)) <= Work(p)
    decreases |steps|
  {
    if steps == [] {
    } else {
      JoinStep(p, steps[0]);
      StepKeepsInv(p, steps[0]);
      JoinIsBounded(Next(p, steps[0]), steps[1..]);
    }
  }

  /** Some pool thread can step. */
  ghost predicate CanStep(p: Pool) { exists i: nat :: Enabled(p, Take(i)) || Enabled(p, Finish(i)) }

  /** So stop returns: a run in which it has not returned is bounded in pool-thread steps, and at its end either
      a pool thread can step or stop can. */
  lemma StopReturns(p: Pool, steps: seq<Step>)
    requires Inv(p) && p.phase.Joining? && IsRun(p, steps) && FinishStop !in steps
    ensures PoolSteps(steps) <= Work(p)
    ensures CanStep(After(p, steps)) <==> !Enabled(After(p, steps), FinishStop)
  {
    JoinIsBounded(p, steps);
    RunKeepsInv(p, steps);
    var r := After(p, steps);
    if !AllExited(r) {
      var i: nat :| i < |r.workers| && !r.workers[i].Exited?;
      assert Enabled(r, Take(i)) || Enabled(r, Finish(i));
    }
  }

  // ----- The object -----

  class ThreadPool {
    const threadCount: nat
    var tasks: seq<Job>
    var started: bool
    var stopping: bool
    var workers: seq<Worker>
    var phase: Phase
    ghost var accepted: seq<Job>
    ghost var taken: seq<Job>
    ghost var finished: multiset<Job>

    ghost function View(): Pool
      reads this
    {
      Pool(threadCount, tasks, started, stopping, workers, phase, accepted, taken, finished)
    }

    constructor (threadCount: nat)
      ensures View() == Fresh(threadCount)
    {
      this.threadCount := threadCount;
      tasks, started, stopping, workers, phase := [], false, false, [], Outside;
      accepted, taken, finished := [], [], multiset{};
    }

    /** First locked section of start: the answer when there is nothing to do, else none yet. */
    method StartLocked() returns (done: bool, ok: bool)
      requires Enabled(View(), BeginStart)
      modifies this
      ensures View() == Next(old(View()), BeginStart)
      ensures done == (old(started) || threadCount == 0) && (done ==> ok == old(started))
    {
      if started { return true, true; }
      if threadCount == 0 { return true, false; }
      stopping, phase := false, Spawning;
      return false, false;
    }

    /** The loop that creates threads; creation may fail at any of them. */
    method SpawnThreads(failAt: nat) returns (ok: bool)
      requires Inv(View()) && phase == Spawning && workers == []
      modifies this
      ensures Inv(View()) && ok == (threadCount <= failAt)
      ensures ok ==> phase == Spawning && |workers| == threadCount && Enabled(View(), FinishStart)
      ensures !ok ==> phase == SpawnFailed && |workers| == failAt && Enabled(View(), BeginStop)
    {
      for i := 0 to threadCount
        invariant Inv(View()) && phase == Spawning && |workers| == i && i <= failAt
      {
        if i == failAt {
          StepKeepsInv(View(), FailSpawn);
          phase := SpawnFailed;
          return false;
        }
        SpawnOne();
      }
      return true;
    }

    method SpawnOne()
      requires Inv(View()) && Enabled(View(), Spawn)
      modifies this
      ensures View() == Next(old(View()), Spawn) && Inv(View())
    {
      StepKeepsInv(View(), Spawn);
      workers := workers + [Waiting];
    }

    method FinishStartLocked()
      requires Enabled(View(), FinishStart)
      modifies this
      ensures View() == Next(old(View()), FinishStart) && started
    {
      started, phase := true, Outside;
    }

    method EnqueueLocked(job: Job) returns (ok: bool)
      modifies this
      ensures View() == Next(old(View()), Enqueue(job))
      ensures ok == (old(started) && !old(stopping))
      ensures accepted == (if ok then old(accepted) + [job] else old(accepted))
      ensures tasks == if ok then old(tasks) + [job] else old(tasks)
    {
      if !started || stopping { return false; }
      tasks := tasks + [job];
      accepted := accepted + [job];
      return true;
    }

    method StopLocked() returns (joining: bool)
      requires Enabled(View(), BeginStop)
      modifies this
      ensures View() == Next(old(View()), BeginStop) && joining == phase.Joining?
      ensures joining == (old(started) || old(workers) != []) && (joining ==> stopping)
    {
      if !started && |workers| == 0 {
        phase := Outside;
        return false;
      }
      stopping, phase := true, Joining;
      return true;
    }

    /** Last locked section of stop. `StopDiscardsNothing` shows that it discards no job. */
    method FinishStopLocked() returns (discarded: nat)
      requires Enabled(View(), FinishStop)
      modifies this
      ensures View() == Next(old(View()), FinishStop) && discarded == |old(tasks)|
      ensures !started && tasks == [] && workers == []
    {
      ghost var before := View();
      workers := [];
      discarded := 0;
      while |tasks| > 0
        invariant |tasks| + discarded == |before.tasks|
        invariant View() == before.(workers := [], tasks := tasks)
      {
        tasks := tasks[1..];
        discarded := discarded + 1;
      }
      started, phase := false, Outside;
    }

    /** The locked part of one turn of a pool thread's loop: its next job, or none when it is to exit. */
    method TakeLocked(i: nat) returns (exit: bool, job: Job)
      requires Enabled(View(), Take(i))
      modifies this
      ensures View() == Next(old(View()), Take(i))
      ensures exit == workers[i].Exited? && (!exit ==> workers[i] == Executing(job))
      ensures exit == (old(stopping) && old(tasks) == []) && (!exit ==> [job] + tasks == old(tasks))
    {
      job := 0;
      if stopping && tasks == [] {
        workers := workers[i := Exited];
        return true, job;
      }
      job := tasks[0];
      tasks := tasks[1..];
      workers := workers[i := Executing(job)];
      taken := taken + [job];
      return false, job;
    }

    method JobDone(i: nat)
      requires Enabled(View(), Finish(i))
      modifies this
      ensures View() == Next(old(View()), Finish(i)) && workers[i] == Waiting
    {
      finished := finished + multiset{workers[i].job};
      workers := workers[i := Waiting];
    }
  }
}
