/** A worker process: redelivered tasks, a stoppable queue and consumer threads, interleaved. */
module WorkerNode {
  import opened Wrappers
  import opened Order

  /** What a thread holds: nothing, a task id, an id whose push was refused, or nothing ever again. */
  datatype Slot = Empty | Holding(id: string) | Undoing(id: string) | Gone

  datatype Execution = Execution(
    active: set<string>, queue: seq<string>, stopped: bool, enqueuers: seq<Slot>, consumers: seq<Slot>)

  function Fresh(enqueuers: nat, consumers: nat): (x: Execution) {
    Execution({}, [], false, seq(enqueuers, _ => Empty), seq(consumers, _ => Empty))
  }

  datatype Step =
    | Deliver(enqueuer: nat, id: string)  // insert into the active set, or skip a duplicate
    | Push(enqueuer: nat)                 // hand the task to the queue
    | Undo(enqueuer: nat)                 // withdraw it when the queue was stopped
    | Pop(consumer: nat)                  // take a task, or leave when stopped
    | Finish(consumer: nat)               // executed and reported
    | Quit(consumer: nat)                 // leave because the worker is no longer running
    | Stop

  predicate Enabled(x: Execution, s: Step) {
    match s
    case Deliver(e, _) => e < |x.enqueuers| && x.enqueuers[e].Empty?
    case Push(e) => e < |x.enqueuers| && x.enqueuers[e].Holding?
    case Undo(e) => e < |x.enqueuers| && x.enqueuers[e].Undoing?
    case Pop(k) => k < |x.consumers| && x.consumers[k].Empty? && (x.stopped || x.queue != [])
    case Finish(k) => k < |x.consumers| && x.consumers[k].Holding?
    case Quit(k) => k < |x.consumers| && x.consumers[k].Empty?
    case Stop => true
  }

  function Next(x: Execution, s: Step): (r: Execution)
    requires Enabled(x, s)
  {
    match s
    case Deliver(e, id) =>
      if id in x.active then x else x.(active := x.active + {id}, enqueuers := x.enqueuers[e := Holding(id)])
    case Push(e) =>
      var id := x.enqueuers[e].id;
      if x.stopped then x.(enqueuers := x.enqueuers[e := Undoing(id)])
      else x.(queue := x.queue + [id], enqueuers := x.enqueuers[e := Empty])
    case Undo(e) => x.(active := x.active - {x.enqueuers[e].id}, enqueuers := x.enqueuers[e := Empty])
    case Pop(k) =>
      if x.stopped then x.(consumers := x.consumers[k := Gone])
      else x.(queue := x.queue[1..], consumers := x.consumers[k := Holding(x.queue[0])])
    case Finish(k) => x.(active := x.active - {x.consumers[k].id}, consumers := x.consumers[k := Empty])
    case Quit(k) => x.(consumers := x.consumers[k := Gone])
    case Stop => x.(stopped := true)
  }

  ghost predicate IsRun(x: Execution, steps: seq<Step>)
    decreases |steps|
  {
    steps == [] || (Enabled(x, steps[0]) && IsRun(Next(x, steps[0]), steps[1..]))
  }

  ghost function After(x: Execution, steps: seq<Step>): (r: Execution)
    requires IsRun(x, steps)
    decreases |steps|
  {
    if steps == [] then x else After(Next(x, steps[0]), steps[1..])
  }

  function IdOf(slot: Slot): (ids: multiset<string>) {
    if slot.Holding? || slot.Undoing? then multiset{slot.id} else multiset{}
  }

  /** The ids held by a group of threads, with multiplicity. */
  function Held(slots: seq<Slot>): (ids: multiset<string>) {
    if slots == [] then multiset{} else IdOf(slots[0]) + Held(slots[1..])
  }

  lemma {:induction false} HeldUpdate(slots: seq<Slot>, i: nat, slot: Slot, id: string)
    requires i < |slots|
    ensures Held(slots[i := slot])[id] + IdOf(slots[i])[id] == Held(slots)[id] + IdOf(slot)[id]
  {
    if i == 0 {
      assert slots[i := slot][1..] == slots[1..];
    } else {
      assert slots[i := slot][1..] == slots[1..][i - 1 := slot];
      HeldUpdate(slots[1..], i - 1, slot, id);
    }
  }

  lemma {:induction false} HeldNothing(n: nat)
    ensures Held(seq(n, _ => Empty)) == multiset{}
  {
    if n == 0 {
    } else {
      assert seq(n, _ => Empty)[1..] == seq(n - 1, _ => Empty);
      HeldNothing(n - 1);
    }
  }

  /** How many places hold an id: threads delivering it, queue positions, consumers executing it. */
  function Places(x: Execution, id: string): (n: nat) {
    Held(x.enqueuers)[id] + multiset(x.queue)[id] + Held(x.consumers)[id]
  }

  /** The active set is the disjoint union of those places: an id is active iff exactly one holds it. */
  ghost predicate Inv(x: Execution) {
    forall id :: Places(x, id) == if id in x.active then 1 else 0
  }

  lemma QueueCounts(q: seq<string>, id: string, x: string)
    ensures multiset(q + [id])[x] == multiset(q)[x] + multiset{id}[x]
    ensures q != [] ==> multiset(q)[x] == multiset{q[0]}[x] + multiset(q[1..])[x]
  {
    assert multiset(q + [id]) == multiset(q) + multiset{id};
    if q != [] { assert q == [q[0]] + q[1..]; }
  }

  lemma PushKeepsPlaces(x: Execution, e: nat, id: string)
    requires Enabled(x, Push(e))
    ensures Places(Next(x, Push(e)), id) == Places(x, id)
  {
    var pushed := x.enqueuers[e].id;
    if x.stopped {
      HeldUpdate(x.enqueuers, e, Undoing(pushed), id);
    } else {
      HeldUpdate(x.enqueuers, e, Empty, id);
      QueueCounts(x.queue, pushed, id);
    }
  }

  lemma PopKeepsPlaces(x: Execution, k: nat, id: string)
    requires Enabled(x, Pop(k))
    ensures Places(Next(x, Pop(k)), id) == Places(x, id)
  {
    if x.stopped {
      HeldUpdate(x.consumers, k, Gone, id);
    } else {
      HeldUpdate(x.consumers, k, Holding(x.queue[0]), id);
      QueueCounts(x.queue, "", id);
    }
  }

  /** How a step changes the number of places that hold an id. */
  function Change(x: Execution, s: Step, id: string): (d: int)
    requires Enabled(x, s)
  {
    match s
    case Deliver(_, added) => if id == added && added !in x.active then 1 else 0
    case Undo(e) => if id == x.enqueuers[e].id then -1 else 0
    case Finish(k) => if id == x.consumers[k].id then -1 else 0
    case _ => 0
  }

  lemma DeliverPlaces(x: Execution, e: nat, added: string, id: string)
    requires Enabled(x, Deliver(e, added))
    ensures Places(Next(x, Deliver(e, added)), id) == Places(x, id) + Change(x, Deliver(e, added), id)
  {
    HeldUpdate(x.enqueuers, e, Holding(added), id);
  }

  lemma UndoPlaces(x: Execution, e: nat, id: string)
    requires Enabled(x, Undo(e))
    ensures Places(Next(x, Undo(e)), id) == Places(x, id) + Change(x, Undo(e), id)
  {
    HeldUpdate(x.enqueuers, e, Empty, id);
  }

  lemma FinishPlaces(x: Execution, k: nat, id: string)
    requires Enabled(x, Finish(k))
    ensures Places(Next(x, Finish(k)), id) == Places(x, id) + Change(x, Finish(k), id)
  {
    HeldUpdate(x.consumers, k, Empty, id);
  }

  lemma QuitPlaces(x: Execution, k: nat, id: string)
    requires Enabled(x, Quit(k))
    ensures Places(Next(x, Quit(k)), id) == Places(x, id)
  {
    HeldUpdate(x.consumers, k, Gone, id);
  }

  lemma PlacesStep(x: Execution, s: Step, id: string)
    requires Enabled(x, s)
    ensures Places(Next(x, s), id) == Places(x, id) + Change(x, s, id)
  {
    match s
    case Deliver(e, added) => DeliverPlaces(x, e, added, id);
    case Push(e) => PushKeepsPlaces(x, e, id);
    case Undo(e) => UndoPlaces(x, e, id);
    case Pop(k) => PopKeepsPlaces(x, k, id);
    case Finish(k) => FinishPlaces(x, k, id);
    case Quit(k) => QuitPlaces(x, k, id);
    case Stop =>
  }

  lemma HeldAt(slots: seq<Slot>, i: nat)
    requires i < |slots| && (slots[i].Holding? || slots[i].Undoing?)
    ensures Held(slots)[slots[i].id] >= 1
  {
    HeldUpdate(slots, i, Empty, slots[i].id);
  }

  /** The active set changes exactly as the places do. */
  lemma ActiveFollows(x: Execution, s: Step, id: string)
    requires Inv(x) && Enabled(x, s)
    ensures (if id in Next(x, s).active then 1 else 0) == (if id in x.active then 1 else 0) + Change(x, s, id)
  {
    match s
    case Undo(e) =>
      HeldAt(x.enqueuers, e);
      assert Places(x, x.enqueuers[e].id) >= 1;
    case Finish(k) =>
      HeldAt(x.consumers, k);
      assert Places(x, x.consumers[k].id) >= 1;
    case _ =>
  }

  lemma StepKeepsInv(x: Execution, s: Step)
    requires Inv(x) && Enabled(x, s)
    ensures Inv(Next(x, s))
  {
    forall id ensures Places(Next(x, s), id) == if id in Next(x, s).active then 1 else 0 {
      PlacesStep(x, s, id);
      ActiveFollows(x, s, id);
    }
  }

  /** In every interleaving each active id is held in exactly one place, and nothing else is held. */
  lemma {:induction false} RunKeepsInv(x: Execution, steps: seq<Step>)
    requires Inv(x) && IsRun(x, steps)
    ensures Inv(After(x, steps))
    decreases |steps|
  {
    if steps == [] {
    } else {
      StepKeepsInv(x, steps[0]);
      RunKeepsInv(Next(x, steps[0]), steps[1..]);
    }
  }

  lemma FreshInv(enqueuers: nat, consumers: nat)
    ensures Inv(Fresh(enqueuers, consumers))
  {
    HeldNothing(enqueuers);
    HeldNothing(consumers);
  }

  lemma {:induction false} TwoHolders(slots: seq<Slot>, i: nat, j: nat)
    requires i < j < |slots| && slots[i].Holding? && slots[j].Holding? && slots[i].id == slots[j].id
    ensures Held(slots)[slots[i].id] >= 2
  {
    var id := slots[i].id;
    HeldUpdate(slots, i, Empty, id);
    HeldAt(slots[i := Empty], j);
  }

  /** No id is queued twice, executed by two consumers at once, or queued while it executes. */
  lemma NeverConcurrentWithItself(enqueuers: nat, consumers: nat, steps: seq<Step>)
    requires IsRun(Fresh(enqueuers, consumers), steps)
    ensures
      var x := After(Fresh(enqueuers, consumers), steps);
      && Distinct(x.queue)
      && (forall i, j :: 0 <= i < j < |x.consumers| && x.consumers[i].Holding? && x.consumers[j].Holding? ==>
            x.consumers[i].id != x.consumers[j].id)
      && (forall i :: 0 <= i < |x.consumers| && x.consumers[i].Holding? ==>
            x.consumers[i].id !in x.queue && x.consumers[i].id in x.active)
  {
    FreshInv(enqueuers, consumers);
    RunKeepsInv(Fresh(enqueuers, consumers), steps);
    var x := After(Fresh(enqueuers, consumers), steps);
    forall i, j | 0 <= i < j < |x.queue| ensures x.queue[i] != x.queue[j] {
      assert Places(x, x.queue[i]) <= 1;
      if x.queue[i] == x.queue[j] { RepeatedInQueue(x.queue, i, j); }
    }
    forall i, j | 0 <= i < j < |x.consumers| && x.consumers[i].Holding? && x.consumers[j].Holding?
      ensures x.consumers[i].id != x.consumers[j].id
    {
      assert Places(x, x.consumers[i].id) <= 1;
      if x.consumers[i].id == x.consumers[j].id { TwoHolders(x.consumers, i, j); }
    }
    forall i | 0 <= i < |x.consumers| && x.consumers[i].Holding?
      ensures x.consumers[i].id !in x.queue && x.consumers[i].id in x.active
    {
      HeldAt(x.consumers, i);
      assert Places(x, x.consumers[i].id) <= 1;
      assert x.consumers[i].id in x.queue ==> multiset(x.queue)[x.consumers[i].id] >= 1;
    }
  }

  lemma RepeatedInQueue(q: seq<string>, i: nat, j: nat)
    requires i < j < |q| && q[i] == q[j]
    ensures multiset(q)[q[i]] >= 2
  {
    assert q == q[..j] + [q[j]] + q[j + 1..];
    assert q[i] in q[..j];
  }

  // ----- How often a task is executed -----

  /** What can happen to an id: it is accepted from a delivery, an execution of it starts or ends, or it is
      withdrawn. */
  datatype Kind = Accept | Start | End | Withdraw

  predicate Happens(x: Execution, s: Step, kind: Kind, id: string)
    requires Enabled(x, s)
  {
    match s
    case Deliver(_, added) => kind.Accept? && id == added && added !in x.active
    case Pop(_) => kind.Start? && !x.stopped && id == x.queue[0]
    case Finish(k) => kind.End? && id == x.consumers[k].id
    case Undo(e) => kind.Withdraw? && id == x.enqueuers[e].id
    case _ => false
  }

  ghost function Times(x: Execution, steps: seq<Step>, kind: Kind, id: string): (n: nat)
    requires IsRun(x, steps)
    decreases |steps|
  {
    if steps == [] then 0 else
      (if Happens(x, steps[0], kind, id) then 1 else 0) + Times(Next(x, steps[0]), steps[1..], kind, id)
  }

  function IsActive(x: Execution, id: string): (n: nat) { if id in x.active then 1 else 0 }

  /** Consumers that execute the id now. */
  function Executing(x: Execution, id: string): (n: nat) { Held(x.consumers)[id] }

  /** An id is accepted as often as it ends or is withdrawn, and once more while it is active. */
  lemma {:induction false} AcceptedBalance(x: Execution, steps: seq<Step>, id: string)
    requires Inv(x) && IsRun(x, steps)
    ensures IsActive(x, id) + Times(x, steps, Accept, id)
            == Times(x, steps, End, id) + Times(x, steps, Withdraw, id) + IsActive(After(x, steps), id)
    decreases |steps|
  {
    if steps == [] {
    } else {
      ActiveFollows(x, steps[0], id);
      StepKeepsInv(x, steps[0]);
      AcceptedBalance(Next(x, steps[0]), steps[1..], id);
    }
  }

  lemma PopExecuting(x: Execution, k: nat, id: string)
    requires Enabled(x, Pop(k))
    ensures Executing(Next(x, Pop(k)), id) == Executing(x, id) + if Happens(x, Pop(k), Start, id) then 1 else 0
  {
    HeldUpdate(x.consumers, k, if x.stopped then Gone else Holding(x.queue[0]), id);
  }

  lemma FinishExecuting(x: Execution, k: nat, id: string)
    requires Enabled(x, Finish(k))
    ensures Executing(Next(x, Finish(k)), id) + (if Happens(x, Finish(k), End, id) then 1 else 0) == Executing(x, id)
  {
    HeldUpdate(x.consumers, k, Empty, id);
  }

  lemma QuitExecuting(x: Execution, k: nat, id: string)
    requires Enabled(x, Quit(k))
    ensures Executing(Next(x, Quit(k)), id) == Executing(x, id)
  {
    HeldUpdate(x.consumers, k, Gone, id);
  }

  lemma ExecutingStep(x: Execution, s: Step, id: string)
    requires Enabled(x, s)
    ensures Executing(Next(x, s), id) + (if Happens(x, s, End, id) then 1 else 0)
            == Executing(x, id) + if Happens(x, s, Start, id) then 1 else 0
  {
    match s
    case Pop(k) => PopExecuting(x, k, id);
    case Finish(k) => FinishExecuting(x, k, id);
    case Quit(k) => QuitExecuting(x, k, id);
    case _ =>
  }

  /** Executions that started have ended or are going on. */
  lemma {:induction false} StartedBalance(x: Execution, steps: seq<Step>, id: string)
    requires IsRun(x, steps)
    ensures Executing(x, id) + Times(x, steps, Start, id) == Times(x, steps, End, id) + Executing(After(x, steps), id)
    decreases |steps|
  {
    if steps == [] {
    } else {
      ExecutingStep(x, steps[0], id);
      StartedBalance(Next(x, steps[0]), steps[1..], id);
    }
  }

  /** So a delivery is accepted if and only if all earlier acceptances of the id have ended or were withdrawn. */
  lemma AcceptedIff(enqueuers: nat, consumers: nat, steps: seq<Step>, id: string)
    requires IsRun(Fresh(enqueuers, consumers), steps)
    ensures
      var x := Fresh(enqueuers, consumers);
      id !in After(x, steps).active
      <==> Times(x, steps, Accept, id) == Times(x, steps, End, id) + Times(x, steps, Withdraw, id)
  {
    FreshInv(enqueuers, consumers);
    AcceptedBalance(Fresh(enqueuers, consumers), steps, id);
  }

  /** It happens at step `i` of the run. */
  ghost predicate HappensAt(x: Execution, steps: seq<Step>, i: nat, kind: Kind, id: string) {
    && i < |steps| && IsRun(x, steps[..i])
    && Enabled(After(x, steps[..i]), steps[i]) && Happens(After(x, steps[..i]), steps[i], kind, id)
  }

  lemma {:induction false} TimesConcat(x: Execution, a: seq<Step>, b: seq<Step>, kind: Kind, id: string)
    requires IsRun(x, a + b)
    ensures IsRun(x, a) && IsRun(After(x, a), b) && After(x, a + b) == After(After(x, a), b)
    ensures Times(x, a + b, kind, id) == Times(x, a, kind, id) + Times(After(x, a), b, kind, id)
    decreases |a|
  {
    if a == [] {
      assert a + b == b;
    } else {
      assert (a + b)[1..] == a[1..] + b;
      TimesConcat(Next(x, a[0]), a[1..], b, kind, id);
    }
  }

  lemma {:induction false} RunAppend(x: Execution, steps: seq<Step>, s: Step)
    requires IsRun(x, steps) && Enabled(After(x, steps), s)
    ensures IsRun(x, steps + [s]) && After(x, steps + [s]) == Next(After(x, steps), s)
    decreases |steps|
  {
    if steps == [] {
      assert [s][1..] == [] && steps + [s] == [s];
    } else {
      assert (steps + [s])[1..] == steps[1..] + [s];
      RunAppend(Next(x, steps[0]), steps[1..], s);
    }
  }

  /** A run up to and including step `i`, and the rest. */
  lemma TimesSplit(x: Execution, steps: seq<Step>, i: nat, kind: Kind, id: string)
    requires IsRun(x, steps) && i < |steps|
    ensures IsRun(x, steps[..i]) && IsRun(x, steps[..i + 1]) && Enabled(After(x, steps[..i]), steps[i])
    ensures After(x, steps[..i + 1]) == Next(After(x, steps[..i]), steps[i])
    ensures IsRun(After(x, steps[..i + 1]), steps[i + 1..])
    ensures After(x, steps) == After(After(x, steps[..i + 1]), steps[i + 1..])
    ensures Times(x, steps[..i + 1], kind, id)
            == Times(x, steps[..i], kind, id) + if HappensAt(x, steps, i, kind, id) then 1 else 0
    ensures Times(x, steps, kind, id)
            == Times(x, steps[..i + 1], kind, id) + Times(After(x, steps[..i + 1]), steps[i + 1..], kind, id)
  {
    assert steps == steps[..i + 1] + steps[i + 1..] && steps[..i + 1] == steps[..i] + [steps[i]];
    TimesConcat(x, steps[..i + 1], steps[i + 1..], kind, id);
    TimesConcat(x, steps[..i], [steps[i]], kind, id);
    assert [steps[i]][1..] == [];
  }

  /** What happens at all happens at some step, and it can be the last one of its kind. */
  lemma {:induction false} LastTime(x: Execution, steps: seq<Step>, kind: Kind, id: string) returns (i: nat)
    requires IsRun(x, steps) && Times(x, steps, kind, id) > 0
    ensures HappensAt(x, steps, i, kind, id) && Times(x, steps[..i], kind, id) == Times(x, steps, kind, id) - 1
    decreases |steps|
  {
    var last := |steps| - 1;
    TimesSplit(x, steps, last, kind, id);
    assert steps[..last + 1] == steps;
    if HappensAt(x, steps, last, kind, id) {
      i := last;
    } else {
      i := LastTime(x, steps[..last], kind, id);
      assert steps[..last][..i] == steps[..i];
    }
  }

  lemma TimesGrow(x: Execution, steps: seq<Step>, i: nat, kind: Kind, id: string)
    requires IsRun(x, steps) && i <= |steps|
    ensures IsRun(x, steps[..i]) && Times(x, steps[..i], kind, id) <= Times(x, steps, kind, id)
  {
    assert steps == steps[..i] + steps[i..];
    TimesConcat(x, steps[..i], steps[i..], kind, id);
  }

  /** Where an execution of the id starts, the id is active and not being executed. */
  lemma StartsFromQueue(x: Execution, s: Step, id: string)
    requires Inv(x) && Enabled(x, s) && Happens(x, s, Start, id)
    ensures id in x.active && Executing(x, id) == 0
  {
    assert x.queue[0] in x.queue;
    assert multiset(x.queue)[id] >= 1;
    assert Places(x, id) == IsActive(x, id);
  }

  lemma EndsExecuting(x: Execution, s: Step, id: string)
    requires Enabled(x, s) && Happens(x, s, End, id)
    ensures Executing(x, id) >= 1 && id !in Next(x, s).active
  {
    HeldAt(x.consumers, s.consumer);
  }

  lemma AcceptedInside(x: Execution, steps: seq<Step>, id: string) returns (d: nat)
    requires Inv(x) && IsRun(x, steps) && id !in x.active && id in After(x, steps).active
    ensures HappensAt(x, steps, d, Accept, id)
  {
    AcceptedBalance(x, steps, id);
    d := LastTime(x, steps, Accept, id);
  }

  lemma HappensShift(x: Execution, a: seq<Step>, b: seq<Step>, c: seq<Step>, d: nat, kind: Kind, id: string)
    requires IsRun(x, a + b + c) && IsRun(x, a) && HappensAt(After(x, a), b, d, kind, id)
    ensures HappensAt(x, a + b + c, |a| + d, kind, id)
  {
    var steps, m := a + b + c, |a| + d;
    assert steps[..m] == a + b[..d] && steps == a + b[..d] + steps[m..];
    TimesConcat(x, a + b[..d], steps[m..], kind, id);
    TimesConcat(x, a, b[..d], kind, id);
  }

  lemma AfterEnd(x: Execution, steps: seq<Step>, i: nat, id: string)
    requires IsRun(x, steps) && HappensAt(x, steps, i, End, id)
    ensures IsRun(x, steps[..i + 1]) && id !in After(x, steps[..i + 1]).active
    ensures Executing(After(x, steps[..i]), id) >= 1
  {
    TimesSplit(x, steps, i, End, id);
    EndsExecuting(After(x, steps[..i]), steps[i], id);
  }

  lemma BeforeStart(x: Execution, steps: seq<Step>, j: nat, id: string)
    requires Inv(x) && HappensAt(x, steps, j, Start, id)
    ensures id in After(x, steps[..j]).active && Executing(After(x, steps[..j]), id) == 0
  {
    RunKeepsInv(x, steps[..j]);
    StartsFromQueue(After(x, steps[..j]), steps[j], id);
  }

  /** Between an end and a later start of the same id there is an acceptance. */
  lemma AcceptedBetween(x: Execution, steps: seq<Step>, i: nat, j: nat, id: string) returns (m: nat)
    requires Inv(x) && IsRun(x, steps) && i < j
    requires HappensAt(x, steps, i, End, id) && HappensAt(x, steps, j, Start, id)
    ensures i < m < j && HappensAt(x, steps, m, Accept, id)
  {
    AfterEnd(x, steps, i, id);
    BeforeStart(x, steps, j, id);
    var a, b, c := ThreeParts(steps, i + 1, j);
    m := AcceptedIn(x, a, b, c, steps, id);
  }

  lemma ThreeParts(steps: seq<Step>, i: nat, j: nat) returns (a: seq<Step>, b: seq<Step>, c: seq<Step>)
    requires i <= j <= |steps|
    ensures steps == a + b + c && a == steps[..i] && a + b == steps[..j] && |a + b| == j
  {
    a, b, c := steps[..i], steps[i..j], steps[j..];
  }

  lemma AcceptedIn(x: Execution, a: seq<Step>, b: seq<Step>, c: seq<Step>, steps: seq<Step>, id: string)
    returns (m: nat)
    requires Inv(x) && steps == a + b + c && IsRun(x, steps)
    requires IsRun(x, a) && id !in After(x, a).active && IsRun(x, a + b) && id in After(x, a + b).active
    ensures |a| <= m < |a + b| && HappensAt(x, steps, m, Accept, id)
  {
    TimesConcat(x, a, b, Accept, id);
    RunKeepsInv(x, a);
    var d := AcceptedInside(After(x, a), b, id);
    HappensShift(x, a, b, c, d, Accept, id);
    m := |a| + d;
  }

  /** The id is executed, ends, is accepted from another delivery, and is executed again. */
  ghost predicate Redelivered(x: Execution, steps: seq<Step>, id: string) {
    exists i: nat, m: nat, j: nat :: i < m < j
      && HappensAt(x, steps, i, End, id) && HappensAt(x, steps, m, Accept, id) && HappensAt(x, steps, j, Start, id)
  }

  lemma StartedTwice(x: Execution, steps: seq<Step>, i: nat, j: nat, id: string)
    requires IsRun(x, steps) && i < j && Executing(x, id) == 0
    requires HappensAt(x, steps, i, End, id) && HappensAt(x, steps, j, Start, id)
    ensures Times(x, steps, Start, id) >= 2
  {
    TimesSplit(x, steps, j, Start, id);
    AfterEnd(x, steps, i, id);
    StartedBalance(x, steps[..i], id);
    assert steps[..j][..i] == steps[..i];
    TimesGrow(x, steps[..j], i, Start, id);
  }

  /** An execution that starts when there was one before is of a redelivered copy. */
  lemma StartedAgain(x: Execution, steps: seq<Step>, id: string)
    requires Inv(x) && IsRun(x, steps) && Executing(x, id) == 0 && Times(x, steps, Start, id) >= 2
    ensures Redelivered(x, steps, id)
  {
    var j := LastTime(x, steps, Start, id);
    BeforeStart(x, steps, j, id);
    StartedBalance(x, steps[..j], id);
    var i := EndedBefore(x, steps, j, id);
    var m := AcceptedBetween(x, steps, i, j, id);
    assert i < m < j;
  }

  lemma EndedBefore(x: Execution, steps: seq<Step>, j: nat, id: string) returns (i: nat)
    requires j < |steps| && IsRun(x, steps[..j]) && Times(x, steps[..j], End, id) > 0
    ensures i < j && HappensAt(x, steps, i, End, id)
  {
    i := LastTime(x, steps[..j], End, id);
    assert steps[..j][..i] == steps[..i];
  }

  /** Whatever is delivered and when, an id is executed more than once if and only if it is accepted again after
      an execution of it ended, and that copy is taken from the queue. */
  lemma ExecutedAgainIff(enqueuers: nat, consumers: nat, steps: seq<Step>, id: string)
    requires IsRun(Fresh(enqueuers, consumers), steps)
    ensures
      var x := Fresh(enqueuers, consumers);
      Times(x, steps, Start, id) >= 2 <==> Redelivered(x, steps, id)
  {
    var x := Fresh(enqueuers, consumers);
    FreshInv(enqueuers, consumers);
    HeldNothing(consumers);
    if Times(x, steps, Start, id) >= 2 { StartedAgain(x, steps, id); }
    if Redelivered(x, steps, id) {
      var i: nat, m: nat, j: nat :| i < m < j && HappensAt(x, steps, i, End, id)
        && HappensAt(x, steps, m, Accept, id) && HappensAt(x, steps, j, Start, id);
      StartedTwice(x, steps, i, j, id);
    }
  }

  /** How often an id was executed: each acceptance has started, was withdrawn, or is still on its way. */
  lemma ExecutionsCounted(enqueuers: nat, consumers: nat, steps: seq<Step>, id: string)
    requires IsRun(Fresh(enqueuers, consumers), steps)
    ensures
      var x := Fresh(enqueuers, consumers);
      var r := After(x, steps);
      Times(x, steps, Accept, id)
      == Times(x, steps, Start, id) + Times(x, steps, Withdraw, id) + Held(r.enqueuers)[id] + multiset(r.queue)[id]
  {
    var x := Fresh(enqueuers, consumers);
    FreshInv(enqueuers, consumers);
    HeldNothing(consumers);
    AcceptedBalance(x, steps, id);
    StartedBalance(x, steps, id);
    RunKeepsInv(x, steps);
    assert Places(After(x, steps), id) == IsActive(After(x, steps), id);
  }

  // ----- Tasks are executed in the order in which they were queued -----

  /** The ids that a run hands to the queue, in order. */
  ghost function Pushed(x: Execution, steps: seq<Step>): (ids: seq<string>)
    requires IsRun(x, steps)
    decreases |steps|
  {
    if steps == [] then [] else
      (if steps[0].Push? && !x.stopped then [x.enqueuers[steps[0].enqueuer].id] else [])
      + Pushed(Next(x, steps[0]), steps[1..])
  }

  /** What a consumer holds after its turn. */
  function TakenBy(x: Execution, s: Step): (ids: seq<string>)
    requires Enabled(x, s)
  {
    if !s.Pop? then [] else
      var slot := Next(x, s).consumers[s.consumer];
      if slot.Holding? then [slot.id] else []
  }

  /** The ids that consumers take, in order. */
  ghost function Taken(x: Execution, steps: seq<Step>): (ids: seq<string>)
    requires IsRun(x, steps)
    decreases |steps|
  {
    if steps == [] then [] else TakenBy(x, steps[0]) + Taken(Next(x, steps[0]), steps[1..])
  }

  lemma QueueStep(x: Execution, s: Step)
    requires Enabled(x, s)
    ensures TakenBy(x, s) + Next(x, s).queue
            == x.queue + if s.Push? && !x.stopped then [x.enqueuers[s.enqueuer].id] else []
  {
  }

  lemma QueueAlgebra(took: seq<string>, gave: seq<string>, queue: seq<string>, next: seq<string>,
                     taken: seq<string>, pushed: seq<string>, left: seq<string>)
    requires took + next == queue + gave && taken + left == next + pushed
    ensures (took + taken) + left == queue + (gave + pushed)
  {
    assert (took + taken) + left == took + (next + pushed) == (took + next) + pushed;
  }

  /** Over every run, what was taken, followed by what is queued, is what was queued, followed by what was pushed. */
  lemma {:induction false} ExecutedInOrder(x: Execution, steps: seq<Step>)
    requires IsRun(x, steps)
    ensures Taken(x, steps) + After(x, steps).queue == x.queue + Pushed(x, steps)
    decreases |steps|
  {
    if steps == [] {
    } else {
      var s, r := steps[0], Next(x, steps[0]);
      ExecutedInOrder(r, steps[1..]);
      QueueStep(x, s);
      QueueAlgebra(TakenBy(x, s), if s.Push? && !x.stopped then [x.enqueuers[s.enqueuer].id] else [],
                   x.queue, r.queue, Taken(r, steps[1..]), Pushed(r, steps[1..]), After(x, steps).queue);
    }
  }

  // ----- After stop -----

  lemma StopFreezes(x: Execution, s: Step)
    requires Inv(x) && x.stopped && Enabled(x, s)
    ensures Inv(Next(x, s)) && Next(x, s).stopped && Next(x, s).queue == x.queue
  {
    StepKeepsInv(x, s);
  }

  /** Once stopped, the queue is frozen: what it holds is never executed and stays active for good. */
  lemma {:induction false} StopAbandonsQueue(x: Execution, steps: seq<Step>, id: string)
    requires Inv(x) && x.stopped && id in x.queue && IsRun(x, steps)
    ensures
      var r := After(x, steps);
      && r.stopped && r.queue == x.queue && id in r.active && Executing(r, id) == 0
      && forall other :: Times(x, steps, Start, other) == 0
    decreases |steps|
  {
    if steps == [] {
      assert multiset(x.queue)[id] >= 1;
      assert Places(x, id) == IsActive(x, id);
    } else {
      StopFreezes(x, steps[0]);
      StopAbandonsQueue(Next(x, steps[0]), steps[1..], id);
    }
  }

  /** A run in which a redelivered task is executed twice. */
  lemma RedeliveryRepeats(id: string) returns (steps: seq<Step>)
    ensures IsRun(Fresh(1, 1), steps) && After(Fresh(1, 1), steps) == Fresh(1, 1)
    ensures Times(Fresh(1, 1), steps, Start, id) == 2
  {
    var x, once := Fresh(1, 1), [Deliver(0, id), Push(0), Pop(0), Finish(0)];
    OneRound(id);
    steps := once + once;
    RunTwice(x, once);
    TimesConcat(x, once, once, Start, id);
  }

  lemma OneRound(id: string)
    ensures
      var once := [Deliver(0, id), Push(0), Pop(0), Finish(0)];
      && IsRun(Fresh(1, 1), once) && After(Fresh(1, 1), once) == Fresh(1, 1)
      && Times(Fresh(1, 1), once, Start, id) == 1
  {
    var x0 := Fresh(1, 1);
    var x1 := Next(x0, Deliver(0, id));
    var x2 := Next(x1, Push(0));
    var x3 := Next(x2, Pop(0));
    var x4 := Next(x3, Finish(0));
    var s := [Deliver(0, id), Push(0), Pop(0), Finish(0)];
    assert x4.active == {} && x4.queue == [] && x4.enqueuers == [Empty] && x4.consumers == [Empty];
    assert x4 == x0;
    assert s[1..] == [Push(0), Pop(0), Finish(0)] && s[1..][1..] == [Pop(0), Finish(0)];
    assert s[1..][1..][1..] == [Finish(0)] && s[1..][1..][1..][1..] == [];
    assert IsRun(x4, []) && After(x4, []) == x4;
    assert IsRun(x3, [Finish(0)]) && After(x3, [Finish(0)]) == x4;
    assert IsRun(x2, [Pop(0), Finish(0)]) && After(x2, [Pop(0), Finish(0)]) == x4;
    assert IsRun(x1, s[1..]) && After(x1, s[1..]) == x4;
    assert Times(x3, [Finish(0)], Start, id) == 0 && Times(x2, [Pop(0), Finish(0)], Start, id) == 1;
    assert Times(x1, s[1..], Start, id) == 1;
  }

  lemma {:induction false} RunTwice(x: Execution, steps: seq<Step>)
    requires IsRun(x, steps) && After(x, steps) == x
    ensures IsRun(x, steps + steps) && After(x, steps + steps) == x
  {
    RunConcat(x, steps, steps);
  }

  lemma {:induction false} RunConcat(x: Execution, a: seq<Step>, b: seq<Step>)
    requires IsRun(x, a) && IsRun(After(x, a), b)
    ensures IsRun(x, a + b) && After(x, a + b) == After(After(x, a), b)
    decreases |a|
  {
    if a == [] {
      assert a + b == b;
    } else {
      assert (a + b)[1..] == a[1..] + b;
      RunConcat(Next(x, a[0]), a[1..], b);
    }
  }

  // ----- The objects -----

  class TaskQueue {
    var queue: seq<string>
    var stopped: bool

    constructor ()
      ensures queue == [] && !stopped
    {
      queue, stopped := [], false;
    }

    method Push(id: string) returns (ok: bool)
      modifies this
      ensures stopped == old(stopped) && ok == !stopped
      ensures queue == if ok then old(queue) + [id] else old(queue)
    {
      if stopped { return false; }
      queue := queue + [id];
      return true;
    }

    /** Called once the wait is over: the queue is stopped or has a task. */
    method WaitPop() returns (id: Option<string>)
      requires stopped || queue != []
      modifies this
      ensures stopped == old(stopped)
      ensures if stopped then id == None && queue == old(queue)
              else id == Some(old(queue)[0]) && queue == old(queue)[1..]
    {
      if stopped { return None; }
      id := Some(queue[0]);
      queue := queue[1..];
    }

    method Stop()
      modifies this
      ensures stopped && queue == old(queue)
    {
      stopped := true;
    }
  }

  class WorkerNode {
    const tasks: TaskQueue
    var active: set<string>
    ghost var enqueuers: seq<Slot>
    ghost var consumers: seq<Slot>

    ghost function View(): Execution
      reads this, tasks
    {
      Execution(active, tasks.queue, tasks.stopped, enqueuers, consumers)
    }

    constructor (ghost threads: nat, ghost receivers: nat)
      ensures View() == Fresh(receivers, threads) && fresh(tasks)
    {
      tasks := new TaskQueue();
      active := {};
      enqueuers, consumers := seq(receivers, _ => Empty), seq(threads, _ => Empty);
    }

    /** First half of enqueueing: false means a duplicate was skipped. */
    method InsertActive(id: string, ghost e: nat) returns (inserted: bool)
      requires Enabled(View(), Deliver(e, id))
      modifies this
      ensures View() == Next(old(View()), Deliver(e, id)) && inserted == (id !in old(active))
      ensures active == old(active) + {id} && unchanged(tasks)
    {
      if id in active { return false; }
      active := active + {id};
      enqueuers := enqueuers[e := Holding(id)];
      return true;
    }

    /** Second half: false means the queue refused the task, which is then withdrawn. */
    method PushTask(id: string, ghost e: nat) returns (ok: bool)
      requires Enabled(View(), Push(e)) && enqueuers[e].id == id
      modifies this, tasks
      ensures View() == Next(old(View()), Push(e)) && ok == !old(tasks.stopped)
      ensures active == old(active) && tasks.queue == if ok then old(tasks.queue) + [id] else old(tasks.queue)
    {
      ok := tasks.Push(id);
      enqueuers := enqueuers[e := if ok then Empty else Undoing(id)];
    }

    method WithdrawTask(id: string, ghost e: nat)
      requires Enabled(View(), Undo(e)) && enqueuers[e].id == id
      modifies this
      ensures View() == Next(old(View()), Undo(e))
      ensures active == old(active) - {id} && unchanged(tasks)
    {
      active := active - {id};
      enqueuers := enqueuers[e := Empty];
    }

    /** A consumer's turn: the task to execute, or none when it is to leave. */
    method NextTask(ghost k: nat) returns (id: Option<string>)
      requires Enabled(View(), Pop(k))
      modifies this, tasks
      ensures View() == Next(old(View()), Pop(k))
      ensures consumers[k] == if id.Some? then Holding(id.value) else Gone
      ensures id == if old(tasks.stopped) then None else Some(old(tasks.queue)[0])
    {
      id := tasks.WaitPop();
      consumers := consumers[k := if id.Some? then Holding(id.value) else Gone];
    }

    method FinishTask(id: string, ghost k: nat)
      requires Enabled(View(), Finish(k)) && consumers[k].id == id
      modifies this
      ensures View() == Next(old(View()), Finish(k))
      ensures active == old(active) - {id} && unchanged(tasks)
    {
      active := active - {id};
      consumers := consumers[k := Empty];
    }

    /** What a heartbeat reports. */
    method RunningTaskCount() returns (n: nat)
      requires Inv(View())
      ensures n == |active|
      ensures n == |Held(enqueuers)| + |tasks.queue| + |Held(consumers)|
    {
      n := |active|;
      ghost var all := Held(enqueuers) + multiset(tasks.queue) + Held(consumers);
      forall id ensures all[id] == multiset(active)[id] {
        assert Places(View(), id) == if id in active then 1 else 0;
      }
      assert all == multiset(active);
      assert |all| == |Held(enqueuers)| + |multiset(tasks.queue)| + |Held(consumers)|;
    }
  }
}
