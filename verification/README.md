# RDMA AI platform: verified model

The platform runs inference tasks on a cluster. A scheduler (Go) keeps workers and tasks in one
in-memory store and places tasks on workers. Workers (C++) receive their assignments over a gRPC
stream or a TCP frame and execute them on a thread pool. A data plane (C++) moves task and result
messages between nodes through bounded mailboxes, with completion queues and a pool of registered
buffers. This project models those parts in Dafny and proves what they keep over every run.

## How the model is built

* **Values and objects.** Each stateful part has a value-level state and functions that say what one
  step does to it. The Go and C++ classes are Dafny classes with mutable fields and the source's
  loops, and every method is proved to take the abstract state exactly where those functions say.
  The theorems are about the functions, so they hold of the objects.
* **Scheduler.** A write section of the store is one atomic step (`Cluster.Step`). `Cluster.Exec` runs
  any interleaving of write sections with any clock readings; safety results quantify over those
  runs. `Calls.ExecCalls` runs whole service calls one at a time, for the results that need it.
  The comparison strategy is a function value, as it is an interface in the source.
* **Concurrency.** Assignment streams, the thread pool, the worker's task queue and the data plane
  are state machines. Each locked section is one step and each wait is an enabling condition.
* **Machine integers.** `Machine.WrapInt64` is applied to the products of the load comparison, and the
  task counter, work request ids and region ids are 64-bit registers that wrap. Time is a number of
  nanoseconds, and the difference of two times saturates as in Go.
* **Map iteration.** Loops over Go maps pick keys in arbitrary order; `Order.Sort` stands for the
  library sorts and for the ordered walk of a `std::map`.

## Main results

* Every stored record is read off the steps of the run. A worker's address, labels and capacity are
  those of its last registration, its heartbeat time that of its last registration or heartbeat
  (`RegistrationRecord`, `ContactRecord`). After a refresh it is offline if and only if it was silent
  for longer than the threshold, else busy if and only if it has no free slot (`StatusRecord`,
  `ThresholdIsSharp`). A task carries what its submission asked for, is waiting, running or finished
  according to the dispatches and reports so far, and has the outcome of the last report
  (`RequestRecord`, `LifecycleRecord`, `OutcomeRecord`, `PlacementRecord`).
* No task is placed on a worker that was silent for too long (`AssignedToLiving`). What a delivery
  round sends is the payload of the submission, to the address last registered, and the worker reads
  just that (`RoundItem`, `RoundReceived`).
* Each worker's counter equals the number of tasks running on it in every run with truthful
  heartbeats (`RunExact`). A step keeps this if and only if it is truthful (`ExactStepIff`), and one
  false report in an otherwise faultless run lets a worker of capacity 1 run two tasks
  (`FalseHeartbeatOverloads`).
* With scheduler, deliverer and worker process composed, the worker's own heartbeat can be that one
  false report: counting while its first task is on the way, it is given a second one beyond its
  capacity (`HonestWorkerOverloads`). A count is wrong by exactly the active tasks that were reported
  already or belong to another worker at the address, less the running tasks of which the process
  holds no copy (`ActiveAgainstRunning`, `BeatDrift`). Without the former it is truthful if and only
  if every running task has a copy in the process (`HeartbeatTruthfulIff`).
* A dispatch keeps online workers within one task of each other, for any capacities up to
  3037000500. Because of 64-bit overflow that bound is exact over the states runs reach
  (`FairUpToIff`).
* A dispatch assigns exactly min(pending, free slots) tasks (`DispatchAmount`), namely the oldest
  ones (`DispatchAssignsPrefix`), whatever order the map yields (`DispatchIgnoresMapOrder`).
* Equally loaded workers take turns in registration order until they are full, within one dispatch
  (`RoundRobin`) and over successive submissions (`SubmitsTakeTurns`).
* No task waits while a worker could take it, at any point of a run of calls, if and only if no
  overview of the run finds such a pair (`NeverWaitsIff`). On a clock that does not go back none does
  (`RunLeavesNothingWaiting`); on one that does, one can (`ClockBackLeavesWaiting`).
* A task is assigned at most once and never sent to two workers, even over streams that reconnect
  (`AssignedAtMostOnce`, `NeverSentToTwoWorkers`). It is still running when sent if and only if no
  report on it came after the stream's latest read (`SentRunningIff`, `StaleSend`).
* Identifiers are fresh exactly until the counter wraps (`SubmitIsFreshIff`). Tasks compare and are
  served in submission order in every run of up to n submissions if and only if n is at most 999999
  (`SubmissionOrderIff`).
* Stopping the thread pool loses no accepted job (`StopDiscardsNothing`) and comes to an end
  (`StopReturns`). A worker never runs a task concurrently with itself (`NeverConcurrentWithItself`),
  and runs it again exactly when it is accepted again after it ended (`ExecutedAgainIff`). After
  a report that takes a delivery read from the store before the report, and still on its way when the
  execution ended (`ExecutedAgainFromStale`, `StaleLetterRepeats`).
* Tasks are executed in the order in which they were queued (`ExecutedInOrder`), and buffers reused in
  the order in which they came back (`ReuseOrder`).
* Mailboxes hold and have given out exactly what a run sends, in order (`MailboxHoldsAllSent`), and
  messages and bytes are conserved over all sessions (`Conservation`). A session's completions are
  those of its latest sends (`PlayCompletes`), and a mailbox that is not sent more than it can hold
  loses nothing (`NothingLostWithinCapacity`). The buffer pool never hands
  out a buffer twice without a release between, and grows no more than it must (`RunOk`).
* Both message codecs and the TCP frame round-trip exactly on a stated domain (`TaskRoundTripIff`,
  `ResultRoundTripIff`, `FrameRoundTripIff`), for every split of the bytes into chunks. What each line
  of a text says, and which lines decide what is read from any text, is stated literally (`TaskText`,
  `ResultText`, `TaskFields`, `ResultFields`, `ReceiveIff`).

## Where code and documentation differ

`docs/architecture.md:17` says that the worker with the fewest running tasks is chosen. The code
compares running tasks divided by capacity (`scheduler/internal/scheduler/strategy.go:74-86`), and the
model follows the code. The two agree at equal capacity (`Strategy.EqualCapacityCompare`).

## Model

Members that only wire fields together or look up a key have no row.

| member | source | states |
|---|---|---|
| `Naming.DecimalValue` | scheduler/internal/util/id.go:6-8 | printing a number in decimal and reading it back gives the number |
| `Naming.FormatTaskIDInjective` | scheduler/internal/util/id.go:6-8 | two counters never share a task identifier |
| `Naming.FormatTaskIDText` | scheduler/internal/util/id.go:6-8 | an identifier is `task-` and the counter in decimal, with zeros up to six digits and no further |
| `Naming.FreshIff` | scheduler/internal/util/id.go:6-8 | the next identifier differs from all issued ones if and only if fewer than 2^64 were issued |
| `Naming.LessIsNumeric` | scheduler/internal/util/id.go:6-8 | on digit strings of equal length, byte order is numeric order |
| `Naming.OrderedUpToIff` | scheduler/internal/util/id.go:6-8 | identifiers sort numerically up to a counter n if and only if n is at most 999999 |
| `Naming.RegionKeyText` | rdma/src/memory_region.cpp:66-69 | a key is `mr-` and the id in decimal |
| `Naming.RegionKeyInjective` | rdma/src/memory_region.cpp:66-69 | two ids never share a region key |
| `Model.LatenessIsMonotone` | scheduler/internal/model/node.go:60-71 | a worker that is late stays late as time passes, with saturating differences |
| `Strategy.SnapshotNodeLoad` | scheduler/internal/scheduler/strategy.go:47-72 | every worker, missing or malformed, yields a load with nonnegative counts and capacity at least 1 |
| `Strategy.RatioCompared` | scheduler/internal/scheduler/strategy.go:74-86 | when the products fit in 64 bits, the cross-multiplied comparison is the order of the real ratios |
| `Strategy.SafeBoundIff` | scheduler/internal/scheduler/strategy.go:74-86 | comparing all loads up to a bound orders them by ratio if and only if the bound is at most 3037000499 |
| `Strategy.CompareAntisymmetric` | scheduler/internal/scheduler/strategy.go:22-45 | swapping the workers flips the sign, overflow or not |
| `Strategy.ComparePrefers` | scheduler/internal/scheduler/strategy.go:22-45 | the comparison is negative exactly for lower ratio, then more free slots, then fewer running tasks |
| `Strategy.CompareTransitive` | scheduler/internal/scheduler/strategy.go:22-45 | without overflow the comparison is transitive |
| `Strategy.CompareZeroIff` | scheduler/internal/scheduler/strategy.go:22-45 | two loads tie if and only if their clamped counts and capacities are equal |
| `Strategy.ThirdTieBreakIdle` | scheduler/internal/scheduler/strategy.go:41-43 | the last tie-break never decides for a worker with a free slot |
| `Strategy.ThirdTieBreakDecidesWhenFull` | scheduler/internal/scheduler/strategy.go:41-43 | it does decide between two overfull workers |
| `Strategy.LeastLoadedIsPreorder` | scheduler/internal/scheduler/strategy.go:22-45 | on workers with a free slot and capacity up to 3037000500 the strategy is a total preorder |
| `Strategy.NotWorseRatio` | scheduler/internal/scheduler/strategy.go:22-45 | a worker that is not worse has no higher load ratio |
| `Strategy.EqualCapacityCompare` | scheduler/internal/scheduler/strategy.go:22-45 | at equal capacity the comparison is by running tasks |
| `Order.LessIff` | scheduler/internal/scheduler/dispatch.go:20-25 | strings compare by their first differing byte, and a proper prefix comes first |
| `Order.SortedUnique` | scheduler/internal/scheduler/dispatch.go:20-25 | a set has exactly one sorted list |
| `Order.Sort` | scheduler/internal/scheduler/dispatch.go:20-25 | the result is sorted and holds exactly the given elements |
| `Cluster.OlderIsStrictTotal` | scheduler/internal/scheduler/dispatch.go:20-25 | creation time, then identifier, is a strict total order |
| `Cluster.PendingQueue` | scheduler/internal/scheduler/dispatch.go:13-25 | the pending tasks, each once, oldest first |
| `Cluster.ScanIsModular` | scheduler/internal/scheduler/dispatch.go:67-94 | the scan's start, visited index and successor are the source's remainders |
| `Invariants.AssignValid` | scheduler/internal/scheduler/dispatch.go:35-54 | placing a pending task keeps the store well formed |
| `Invariants.RunValid` | scheduler/internal/storage/memory.go:10-21 | in every run the registration order lists each worker once, capacities are at least 1, counters are not negative, task records agree with their status and the rotation index is in range |
| `Invariants.LastRegistrationWins` | scheduler/internal/registry/registry.go:29-56 | registering twice leaves the state of the last registration alone |
| `Invariants.LastHeartbeatWins` | scheduler/internal/registry/registry.go:59-83 | two heartbeats leave the state of the last one alone |
| `Invariants.LastReportWins` | scheduler/internal/service/task_service.go:78-109 | a repeated report replaces the first and releases no second slot |
| `Invariants.DispatchKeepsKeys` | scheduler/internal/scheduler/dispatch.go:12-32 | a dispatch adds or removes no task and no worker, and leaves the counter and registration order |
| `Invariants.RunKeys` | scheduler/internal/service/task_service.go:40-54 | after every run the task keys are exactly the identifiers of the accepted submissions |
| `Invariants.SubmitIsFreshIff` | scheduler/internal/service/task_service.go:40-54 | a submission overwrites no task if and only if fewer than 2^64 were accepted before |
| `Invariants.ScanIsBijective` | scheduler/internal/scheduler/dispatch.go:67-77 | the circular scan meets every index exactly once |
| `Invariants.BestNoneIff` | scheduler/internal/scheduler/dispatch.go:72-88 | a prefix of the scan finds no worker if and only if none in it is eligible |
| `Invariants.SelectNoneIff` | scheduler/internal/scheduler/dispatch.go:57-96 | selection fails if and only if no registered worker is eligible |
| `Invariants.SelectIsFirstMinimum` | scheduler/internal/scheduler/dispatch.go:57-96 | for a preorder strategy, the configured one or else least-loaded, the selected worker is minimal, and strictly better than all met earlier in the rotation |
| `Invariants.SlotsDecideSelection` | scheduler/internal/scheduler/dispatch.go:57-96 | selection fails if and only if online workers have no free slot left |
| `Invariants.AssignPlaces` | scheduler/internal/scheduler/dispatch.go:35-54 | an assignment changes one task and uses up exactly one free slot |
| `Invariants.QueueTurn` | scheduler/internal/scheduler/dispatch.go:27-31 | one turn of the loop places the head of the queue and leaves the rest ready |
| `Invariants.QueueUsesSlots` | scheduler/internal/scheduler/dispatch.go:27-31 | each placed task uses up one slot, and statuses stay derived |
| `Invariants.DispatchAssignsPrefix` | scheduler/internal/scheduler/dispatch.go:12-32 | the assigned tasks are the oldest min(pending, free slots) ones; every other task is untouched |
| `Invariants.DispatchAmount` | scheduler/internal/scheduler/dispatch.go:12-54 | after every run a dispatch assigns exactly min(pending tasks, free slots of online workers) |
| `Invariants.DispatchIgnoresMapOrder` | scheduler/internal/scheduler/dispatch.go:13-31 | the resulting state is the same for every order in which the map yields its tasks |
| `Counts.DriftStep` | scheduler/internal/service/task_service.go:78-109 | between heartbeats of a worker, counter minus running tasks is constant, or negative and closing by one |
| `Counts.CompleteDrift` | scheduler/internal/service/task_service.go:78-109 | any report, duplicate or late, keeps the difference unless the counter was already zero |
| `Counts.HeartbeatDrift` | scheduler/internal/registry/registry.go:59-83 | a heartbeat sets the difference to the error of its report |
| `Counts.DispatchKeepsDrift` | scheduler/internal/scheduler/dispatch.go:12-54 | a dispatch keeps the difference for every worker |
| `Counts.ExactStepIff` | scheduler/internal/registry/registry.go:59-83 | from exact counters, a step keeps them exact if and only if it is not a false heartbeat |
| `Counts.RunExact` | scheduler/internal/service/task_service.go:78-109 | in every run with truthful heartbeats each counter is the number of tasks running on the worker |
| `Counts.CapacityStepIff` | scheduler/internal/registry/registry.go:29-56 | a step keeps counters within capacity if and only if no registration or heartbeat breaks the bound itself |
| `Counts.RunWithinCapacity` | scheduler/internal/scheduler/dispatch.go:57-96 | so over every such run no counter exceeds its capacity |
| `Counts.RunNeverOverloads` | scheduler/internal/scheduler/dispatch.go:35-54 | with truthful heartbeats and room kept at re-registration, no worker runs more tasks than its capacity |
| `Counts.FalseHeartbeatOverloads` | scheduler/internal/registry/registry.go:71-75 | a run in which every re-registration keeps room and exactly one heartbeat is false, and a worker of capacity 1 runs two tasks |
| `History.RunProgress` | scheduler/internal/service/task_service.go:78-109 | from any point of a run to any later one, requests never change, placement and start time are decided once, finished stays finished |
| `History.AssignedAtMostOnce` | scheduler/internal/scheduler/dispatch.go:35-54 | no task is assigned by two steps of a run |
| `History.PlacedStep` | scheduler/internal/service/task_service.go:78-109 | a placed task keeps its worker, and goes on running exactly until a report on it |
| `History.CreationRecord` | scheduler/internal/service/task_service.go:40-54 | task number n carries the model, operation, payload reference, metadata and clock reading of the n-th accepted submission |
| `History.OlderIsEarlier` | scheduler/internal/scheduler/dispatch.go:20-25 | with ordered submit times and at most 999999 tasks, the dispatch order is the submission order |
| `History.QueueIsSubmissionOrder` | scheduler/internal/scheduler/dispatch.go:13-31 | so the queue serves pending tasks in the order of submission |
| `History.MillionthOvertakes` | scheduler/internal/scheduler/dispatch.go:20-25 | a run of one million submissions on a clock that does not go back, whose tasks neither compare nor are queued in submission order |
| `History.SubmissionOrderIff` | scheduler/internal/scheduler/dispatch.go:13-31 | over all runs of up to n submissions on a clock that does not go back, tasks compare, and are queued, in submission order if and only if n is at most 999999 |
| `Records.RegisteredIff` | scheduler/internal/registry/registry.go:39-45 | a worker is known if and only if an accepted registration names it |
| `Records.RegistrationRecord` | scheduler/internal/registry/registry.go:29-56 | in every run a worker's address, labels and capacity, raised to at least 1, are those of its last accepted registration |
| `Records.ContactRecord` | scheduler/internal/registry/registry.go:59-83 | its heartbeat time is the clock reading of its last accepted registration or heartbeat |
| `Records.RegistrationOrder` | scheduler/internal/registry/registry.go:39-45 | workers are listed in the order of first registration: the list at any point of a run is a prefix of the list at any later one |
| `Records.StatusRecord` | scheduler/internal/model/node.go:60-71 | after a refresh or dispatch at any point of a run, a worker is offline if and only if more than the threshold has passed since its last contact, and otherwise busy or ready by its counter and capacity |
| `Records.StatusOfContact` | scheduler/internal/registry/registry.go:46-81 | a registration or heartbeat shows its worker in the state of that moment, and a heartbeat stores the count it reports, or zero if that is negative |
| `Records.ThresholdIsSharp` | scheduler/internal/model/node.go:64-66 | a worker that was silent for exactly the threshold is given a task, one silent for a nanosecond longer is not |
| `Records.AssignedToLiving` | scheduler/internal/scheduler/dispatch.go:57-83 | no dispatch of a run places a task on a worker that was silent for longer than the threshold |
| `Records.OutcomeRecord` | scheduler/internal/service/task_service.go:78-100 | after the last accepted report on a task it is completed if and only if the report says success, failed otherwise, with the report's time and its message or the default one |
| `Records.PlacementRecord` | scheduler/internal/scheduler/dispatch.go:45-49 | from its assignment on, a task carries the time of that dispatch, and says that it is assigned until a report on it |
| `Records.LifecycleRecord` | scheduler/internal/model/task.go:8-17 | a task is finished if and only if a report on it was accepted, running if and only if a dispatch placed it and no report came, and else waits as queued |
| `Records.RequestRecord` | scheduler/internal/service/task_service.go:40-54 | every stored task carries the request and time of the submission that created it |
| `Records.QueueOrder` | scheduler/internal/scheduler/dispatch.go:20-25 | the queue is ordered by the clock readings of the submissions, and among equal ones by identifier |
| `Fairness.SelectedIsLeastLoaded` | scheduler/internal/scheduler/dispatch.go:57-96 | the selected worker has the lowest load ratio of the eligible ones |
| `Fairness.SelectedIsLeastOfOnline` | scheduler/internal/scheduler/dispatch.go:57-96 | it has the lowest ratio even counting full workers |
| `Fairness.AssignKeepsFair` | scheduler/internal/scheduler/dispatch.go:35-54 | one assignment keeps every pair of online workers within one task |
| `Fairness.DispatchKeepsFair` | scheduler/internal/scheduler/dispatch.go:12-96 | so does a dispatch of any number of tasks over any mix of capacities |
| `Fairness.WideClusterTurnsUnfair` | scheduler/internal/scheduler/strategy.go:74-86 | a reachable, fair state with capacities of 3037000501 that a dispatch makes unfair |
| `Fairness.FairUpToIff` | scheduler/internal/scheduler/strategy.go:74-86 | over the states that runs reach, every dispatch is fair with capacities up to a bound if and only if the bound is at most 3037000500 |
| `Rotation.SelectsFirstLight` | scheduler/internal/scheduler/dispatch.go:57-96 | at equal capacity the first least-running worker in rotation order is selected |
| `Rotation.ScanRotates` | scheduler/internal/scheduler/dispatch.go:90-95 | after an assignment the scan order is the old one rotated just past the chosen worker |
| `Rotation.LightWorkersTakeTurns` | scheduler/internal/scheduler/dispatch.go:12-96 | at equal capacity the first tasks go to the least-running workers, in rotation order, one each |
| `Rotation.CycleStep` | scheduler/internal/scheduler/dispatch.go:35-96 | an assignment goes to the worker whose turn it is and moves the cycle on by one, into the next round when the last one is reached |
| `Rotation.RoundRobin` | scheduler/internal/scheduler/dispatch.go:12-96 | n equally loaded workers of equal capacity take the tasks of one dispatch in cyclic registration order: task k goes to worker k mod n, round after round until all are full |
| `Rotation.SubmitAllIsRun` | scheduler/internal/service/task_service.go:29-68 | the submissions below are ordinary service calls |
| `Rotation.SubmitsTakeTurns` | scheduler/internal/service/task_service.go:29-68 | the same over successive submissions, each dispatched by its own call, while the same workers are online |
| `Calls.DispatchLeavesNothingWaiting` | scheduler/internal/scheduler/scheduler.go:31-37 | after a dispatch no task is pending while an online worker has a free slot |
| `Calls.RefreshKeepsNothingWaiting` | scheduler/internal/scheduler/scheduler.go:40-45 | refreshing statuses at a later time cannot create waiting |
| `Calls.CallNothingWaitsIff` | scheduler/internal/service/task_service.go:71-123 | from any well-formed state and at any clock reading: a refused call leaves nothing waiting iff nothing waited, an overview iff no pending task has a worker that is on time with a free slot, any other call always |
| `Calls.NeverWaitsIff` | scheduler/internal/scheduler/scheduler.go:48-52 | nothing waits at any point of a run of calls if and only if none of its overviews finds a pending task and a worker that could take it |
| `Calls.ForwardExposesNothing` | scheduler/internal/model/node.go:60-71 | on a clock that does not go back no overview does |
| `Calls.CallLeavesNothingWaiting` | scheduler/internal/monitor/checker.go:29-45 | so every service call, checker tick and overview keeps that nothing waits |
| `Calls.RunLeavesNothingWaiting` | scheduler/internal/service/task_service.go:71-123 | on a clock that does not go back, nothing waits at any point of any run of calls |
| `Calls.ClockBackLeavesWaiting` | scheduler/internal/model/node.go:60-71 | a run in which the clock goes back, an overview revives a worker and a task waits |
| `Store.MemoryStore.constructor` | scheduler/internal/storage/memory.go:32-39 | the store starts empty |
| `Store.Scheduler.RefreshNodeStatesLocked` | scheduler/internal/scheduler/scheduler.go:108-112 | the loop over the map re-derives every status and nothing else |
| `Store.Scheduler.SelectNodeLocked` | scheduler/internal/scheduler/dispatch.go:57-96 | the loop computes the selection and moves the rotation index just past it, or changes nothing |
| `Store.Scheduler.AssignTaskLocked` | scheduler/internal/scheduler/dispatch.go:35-54 | places the task if and only if it is pending and a worker is selected, else changes nothing |
| `Store.Scheduler.CollectPending` | scheduler/internal/scheduler/dispatch.go:13-19 | the loop collects exactly the pending tasks, each once |
| `Store.Scheduler.AssignInOrder` | scheduler/internal/scheduler/dispatch.go:27-31 | the loop assigns in list order and stops at the first task that finds no worker |
| `Store.Scheduler.DispatchPendingLocked` | scheduler/internal/scheduler/dispatch.go:12-32 | collecting in any order, sorting and looping is dispatching the pending queue |
| `Store.Scheduler.DispatchPending` | scheduler/internal/scheduler/scheduler.go:31-37 | refreshes, then dispatches, in one write section |
| `Store.Scheduler.RefreshNodeStates` | scheduler/internal/scheduler/scheduler.go:40-45 | refreshes every status in one write section |
| `Store.Scheduler.Overview` | scheduler/internal/scheduler/scheduler.go:48-105 | counters are the sizes of the sets they name; both lists are complete, without repetition and sorted |
| `Store.Scheduler.CountWorkers` | scheduler/internal/scheduler/scheduler.go:62-67 | the loop lists every worker once and counts the online ones |
| `Store.Scheduler.CollectWorkers` | scheduler/internal/scheduler/scheduler.go:62-83 | every worker sorted by id, and the number online |
| `Store.Scheduler.CountTasks` | scheduler/internal/scheduler/scheduler.go:69-79 | the loop lists every task once and counts three statuses |
| `Store.Scheduler.CollectTasks` | scheduler/internal/scheduler/scheduler.go:69-89 | every task sorted by creation time and id, and three exact counts |
| `Store.TallyCounts` | scheduler/internal/scheduler/scheduler.go:69-79 | counting one by one gives the number of tasks with the status |
| `Store.Registry.Register` | scheduler/internal/registry/registry.go:29-56 | the whole new state and result, with the missing id refused and the capacity raised to at least 1 |
| `Store.Registry.Heartbeat` | scheduler/internal/registry/registry.go:59-83 | the whole new state and result, with missing and unknown ids refused and negative reports clamped |
| `Services.NodeService.Register` | scheduler/internal/service/node_service.go:27-41 | registers and dispatches; succeeds if and only if an id is given, and returns the worker as stored afterwards, with the address, labels and capacity asked for |
| `Services.NodeService.Heartbeat` | scheduler/internal/service/node_service.go:44-58 | records and dispatches; succeeds if and only if the worker is known, and returns it as stored afterwards, heard of now |
| `Services.TaskService.Submit` | scheduler/internal/service/task_service.go:29-68 | creates and dispatches; succeeds if and only if model and operation are given, with the error for the one missing, and returns the new task as stored afterwards, with what was asked for |
| `Services.TaskService.RecordResult` | scheduler/internal/service/task_service.go:78-109 | the whole new state, with at most one released slot, and what success, time and message the task then shows |
| `Services.TaskService.Complete` | scheduler/internal/service/task_service.go:71-123 | records and dispatches; succeeds if and only if the task is known, and returns it as stored afterwards, with the reported outcome |
| `Delivery.RunningAssignments` | scheduler/internal/grpcapi/server.go:238-272 | exactly the tasks running on the worker, by start time, then id |
| `Delivery.CollectAssignments` | scheduler/internal/grpcapi/server.go:238-272 | the loop and the sort compute that list |
| `Delivery.SnapshotAssignments` | scheduler/internal/monitor/deliverer.go:76-109 | one delivery round holds every running task whose worker has an address, each once; the items are sorted by address, then task id |
| `Rounds.RoundItem` | scheduler/internal/monitor/deliverer.go:76-95 | in every run, what a round sends for a task is the payload reference of its submission, to the address last registered by the worker it was placed on |
| `Rounds.SentIff` | scheduler/internal/monitor/deliverer.go:79-87 | a round sends a task if and only if a dispatch placed it, no report on it was accepted, and its worker has an address |
| `Rounds.RoundReceived` | scheduler/internal/monitor/deliverer.go:112-122 | the worker reads the id and that reference from the frame if and only if the reference has no newline and no final carriage return |
| `Rounds.SnapshotInStartOrder` | scheduler/internal/grpcapi/server.go:255-270 | a stream's snapshot lists tasks by the clock readings of the dispatches that placed them, and among equal ones by identifier |
| `Streams.StreamAccount` | scheduler/internal/grpcapi/server.go:107-135 | a stream has marked exactly what it sent and what it skips: nothing if it resumes, else the tasks running when it settled; it sends nothing that it skips |
| `Streams.StateOfEvents` | scheduler/internal/grpcapi/server.go:93-143 | streams only read: the store after any interleaving is that of its write sections alone |
| `Streams.RunStreams` | scheduler/internal/grpcapi/server.go:107-143 | at every point of every interleaving, each open stream has sent a task at most once, and only tasks assigned to its worker |
| `Streams.QueueIsFromPoll` | scheduler/internal/grpcapi/server.go:121-135 | what a stream has still to send was running on its worker when the stream last read the store |
| `Streams.RunningUntilReported` | scheduler/internal/service/task_service.go:78-109 | from a point where a task runs, it runs later if and only if no report on it came between |
| `Streams.SentRunningIff` | scheduler/internal/grpcapi/server.go:121-135 | a task was running at the stream's latest read, and is running when sent if and only if no report on it came since |
| `Streams.StaleSend` | scheduler/internal/grpcapi/server.go:121-135 | a run in which a stream sends a task that is no longer running |
| `Streams.NeverSentToTwoWorkers` | scheduler/internal/grpcapi/server.go:93-143 | over a whole run, with streams opened and closed at will, no two sends of a task go to different workers |
| `Streams.SendAll` | scheduler/internal/grpcapi/server.go:127-135 | the loop over one snapshot computes the drained stream |
| `Streams.DrainedSendsNew` | scheduler/internal/grpcapi/server.go:127-135 | a pass sends exactly the tasks of the snapshot not sent before, each once |
| `Messages.LinesOfUnlines` | rdma/include/rdma/task_message.h:32-40 | writing lines and splitting the text again gives the lines |
| `Messages.ParsedIsClean` | rdma/include/rdma/task_message.h:32-73 | no text parses to a value with a newline or a metadata key with an equals sign |
| `Messages.DecodeEncode` | rdma/include/rdma/task_message.h:19-73 | clean fields and metadata survive writing and reading, for any header |
| `Messages.TaskRoundTripIff` | rdma/include/rdma/task_message.h:19-73 | a task message survives writing and reading if and only if nothing in it holds a newline and no metadata key an equals sign |
| `Messages.TaskReadIsStable` | rdma/include/rdma/task_message.h:19-73 | for every buffer, reading, writing and reading again is reading once |
| `Messages.ResultRoundTripIff` | rdma/include/rdma/result_message.h:19-73 | the same round trip for result messages |
| `Messages.ResultReadIsStable` | rdma/include/rdma/result_message.h:19-73 | the same stability for result messages |
| `Messages.ResultReadAsTask` | rdma/include/rdma/task_message.h:32-73 | a result read as a task keeps its task id, target and metadata and nothing else |
| `MessageText.UnlinesOfLines` | rdma/include/rdma/task_message.h:32-40 | splitting a text into lines loses nothing but a missing final newline |
| `MessageText.TaskText` | rdma/include/rdma/task_message.h:19-30 | the lines of a task message, with their literal keys, and one line per metadata pair in key order |
| `MessageText.ResultText` | rdma/include/rdma/result_message.h:19-30 | the lines of a result message; the one on success says 1 if and only if it is one |
| `MessageText.TaskFields` | rdma/include/rdma/task_message.h:32-73 | for every buffer, each field is what the last line that starts with its key and an equals sign goes on with, and likewise each metadata pair |
| `MessageText.ResultFields` | rdma/include/rdma/result_message.h:32-73 | the same for results; it is a success if and only if the last line on that is `success=1` |
| `Messages.WriteTask` | rdma/include/rdma/task_message.h:19-30 | the appending loop writes the serialized task |
| `Messages.WriteResult` | rdma/include/rdma/result_message.h:19-30 | the appending loop writes the serialized result |
| `Messages.WriteMetadata` | rdma/include/rdma/task_message.h:26-28 | one line per metadata pair, in key order |
| `Messages.NextLine` | rdma/include/rdma/task_message.h:37-40 | one line read leaves exactly the remaining lines |
| `Messages.ReadTask` | rdma/include/rdma/task_message.h:32-73 | the line loop computes the deserialized task, for every buffer |
| `Messages.ReadTaskEntry` | rdma/include/rdma/task_message.h:42-69 | the branches of the loop: the last field wins, unknown fields are ignored |
| `Messages.ReadResult` | rdma/include/rdma/result_message.h:32-73 | the line loop computes the deserialized result, for every buffer |
| `Messages.ReadResultEntry` | rdma/include/rdma/result_message.h:42-69 | the branches of its loop |
| `Frames.ReadLine` | worker/src/transport_tcp.cpp:116-146 | the line is the first line of the bytes that arrived, however they were split, or none if a read fails before any newline |
| `Frames.HandleClient` | worker/src/transport_tcp.cpp:116-178 | what is received depends on the bytes and not on the chunks; a read error before any newline drops all of it |
| `Frames.ReceiveIff` | worker/src/transport_tcp.cpp:148-169 | for every text, a task is named if and only if the first line, less a final carriage return, is a nonempty id without a bar, a bar and the prompt |
| `Frames.ReceivedIsPlain` | worker/src/transport_tcp.cpp:141-169 | an accepted id is not empty and holds no separator; neither part holds a newline |
| `Frames.FrameRoundTripIff` | scheduler/internal/monitor/deliverer.go:112-122 | a frame arrives as sent if and only if the id is plain and the payload has no newline and no final carriage return |
| `ThreadPool.StepKeepsInv` | worker/runtime/thread_pool.cpp:17-111 | every step keeps: accepted jobs are the taken ones followed by the queue; taken jobs are finished or in hand |
| `ThreadPool.RunKeepsInv` | worker/runtime/thread_pool.cpp:17-111 | so does every interleaving |
| `ThreadPool.JoinedMeansDrained` | worker/runtime/thread_pool.cpp:62-85 | when all threads have exited, every accepted job was taken in order and has finished |
| `ThreadPool.StopDiscardsNothing` | worker/runtime/thread_pool.cpp:62-85 | in every interleaving the final clearing loop finds the queue empty, and a pool that is down has finished all it accepted |
| `ThreadPool.JoinAlwaysProgresses` | worker/runtime/thread_pool.cpp:62-111 | while stop joins, every thread left can step, its steps use up work and nothing adds any |
| `ThreadPool.JoinIsBounded` | worker/runtime/thread_pool.cpp:62-111 | over a run in which stop has not returned, the steps of pool threads and the work left add up to at most the work there was |
| `ThreadPool.StopReturns` | worker/runtime/thread_pool.cpp:62-111 | so they are bounded, and at the end of every such run a pool thread can step unless stop can return |
| `ThreadPool.ThreadPool.constructor` | worker/runtime/thread_pool.cpp:11 | the pool starts down and empty |
| `ThreadPool.ThreadPool.StartLocked` | worker/runtime/thread_pool.cpp:17-30 | a started pool answers true, one of zero threads false, else threads are to be created |
| `ThreadPool.ThreadPool.SpawnThreads` | worker/runtime/thread_pool.cpp:32-44 | creates all threads, or stops at the one that fails and leaves the pool to be stopped |
| `ThreadPool.ThreadPool.FinishStartLocked` | worker/runtime/thread_pool.cpp:46-49 | only then is the pool started |
| `ThreadPool.ThreadPool.EnqueueLocked` | worker/runtime/thread_pool.cpp:51-60 | accepts the job, and answers true, if and only if the pool is started and not stopping |
| `ThreadPool.ThreadPool.StopLocked` | worker/runtime/thread_pool.cpp:62-71 | does nothing for a pool that never started, else starts joining |
| `ThreadPool.ThreadPool.FinishStopLocked` | worker/runtime/thread_pool.cpp:79-85 | clears the queue, counting what it discards |
| `ThreadPool.ThreadPool.TakeLocked` | worker/runtime/thread_pool.cpp:87-101 | takes the oldest job, or exits only when stopping with an empty queue |
| `ThreadPool.ThreadPool.JobDone` | worker/runtime/thread_pool.cpp:103-110 | the thread goes back to waiting |
| `WorkerNode.PlacesStep` | worker/src/worker_node.cpp:187-219 | a step changes in how many places an id is held exactly as it changes the active set |
| `WorkerNode.StepKeepsInv` | worker/src/worker_node.cpp:187-219 | every step keeps: an id is active if and only if it is held in exactly one place |
| `WorkerNode.RunKeepsInv` | worker/src/worker_node.cpp:187-291 | so does every interleaving of redelivery, push, pop, finish and stop |
| `WorkerNode.NeverConcurrentWithItself` | worker/src/worker_node.cpp:187-291 | no id is queued twice, executed twice at once, or queued while it executes |
| `WorkerNode.AcceptedBalance` | worker/src/worker_node.cpp:187-219 | over every run an id is accepted as often as it ends or is withdrawn, and once more while active |
| `WorkerNode.StartedBalance` | worker/src/worker_node.cpp:276-290 | executions that started have ended or are going on |
| `WorkerNode.AcceptedIff` | worker/src/worker_node.cpp:187-196 | a delivery is accepted if and only if all earlier acceptances of the id have ended or were withdrawn |
| `WorkerNode.ExecutedAgainIff` | worker/src/worker_node.cpp:187-291 | over every run, an id is executed more than once if and only if it is accepted again after an execution of it ended and that copy is taken |
| `WorkerNode.ExecutionsCounted` | worker/src/worker_node.cpp:187-291 | over every run, an id was accepted as often as it was executed or withdrawn, plus the copies still being enqueued or queued |
| `WorkerNode.ExecutedInOrder` | worker/src/task_queue.cpp:7-31 | over every run, the ids that consumers took, followed by the queue, are the ids that were queued and pushed, in order |
| `WorkerNode.StopAbandonsQueue` | worker/src/task_queue.cpp:20-40 | over every run after stop, no execution starts, and what is queued stays queued and active |
| `WorkerNode.RedeliveryRepeats` | worker/src/worker_node.cpp:187-219 | a run in which a redelivered id is executed twice |
| `WorkerNode.TaskQueue.Push` | worker/src/task_queue.cpp:7-18 | appends unless stopped, and says which |
| `WorkerNode.TaskQueue.WaitPop` | worker/src/task_queue.cpp:20-31 | takes the oldest task, or none once stopped even when tasks are left |
| `WorkerNode.TaskQueue.Stop` | worker/src/task_queue.cpp:33-40 | stops for good and keeps the queue |
| `WorkerNode.WorkerNode.InsertActive` | worker/src/worker_node.cpp:187-196 | a duplicate is skipped, a new id becomes active |
| `WorkerNode.WorkerNode.PushTask` | worker/src/worker_node.cpp:198-203 | the active id moves to the queue, or is kept for withdrawal |
| `WorkerNode.WorkerNode.WithdrawTask` | worker/src/worker_node.cpp:198-201 | a refused id is no longer active |
| `WorkerNode.WorkerNode.NextTask` | worker/src/worker_node.cpp:276-280 | a consumer takes the oldest task or leaves |
| `WorkerNode.WorkerNode.FinishTask` | worker/src/worker_node.cpp:216-219 | an executed id is no longer active |
| `WorkerNode.WorkerNode.RunningTaskCount` | worker/src/worker_node.cpp:211-214 | the reported count is ids mid-enqueue plus queued plus executing |
| `EndToEnd.StateOfRun` | scheduler/internal/monitor/deliverer.go:61-73 | deliveries only read: the store after any interleaving with the worker is that of its write sections alone |
| `EndToEnd.ProcessOfRun` | worker/src/worker_node.cpp:187-291 | and the worker process goes through one of its own runs |
| `EndToEnd.RunBelongs` | scheduler/internal/monitor/deliverer.go:76-122 | over every run, a task is on its way or active only if it was placed on a worker that was registered under the process's address when a delivery round read the store |
| `EndToEnd.ActiveAgainstRunning` | worker/src/worker_node.cpp:187-219 | over every run, the active tasks that do not run on the worker are those reported already or placed on another claimant of the address; the running tasks that are not active are those never accepted, or of which every accepted copy ended or was withdrawn |
| `EndToEnd.BeatDrift` | worker/src/worker_node.cpp:211-239 | a count of the active tasks, recorded at once, leaves the scheduler's counter wrong by the number of the former less the number of the latter |
| `EndToEnd.HeartbeatTruthfulIff` | worker/src/worker_node.cpp:211-239 | such a count is truthful if and only if the two numbers are equal; while no other worker claims the address and no active task is reported, if and only if every task running on the worker has a copy in the process |
| `EndToEnd.LetterIsOlder` | scheduler/internal/monitor/deliverer.go:61-122 | no delivery of a task on its way was read from the store after a report on the task |
| `EndToEnd.ExecutedAgainFromStale` | worker/src/worker_node.cpp:187-291 | over every run, a task is executed more than once only if, after an execution ended, a delivery of it is accepted that was read before any report on the task; if a report was recorded before that end, the delivery was read before the end too |
| `EndToEnd.StaleLetterRepeats` | scheduler/internal/monitor/deliverer.go:61-122 | a run in which such a delivery makes the worker execute a task whose result is recorded already |
| `EndToEnd.HonestWorkerOverloads` | worker/src/worker_node.cpp:233-240 | a run in which all heartbeats are the worker's own counts, exactly one is false, every re-registration keeps room, and the worker of capacity 1 is given two tasks |
| `Links.NeverMovesBack` | rdma/src/queue_pair.cpp:9-45 | no sequence of requests moves a link back, and an error is final |
| `Links.ReadyNeedsEveryStep` | rdma/src/queue_pair.cpp:9-45 | a link is ready to send only after requests for every step still missing, in order |
| `Links.QueuePair.TransitionTo` | rdma/src/queue_pair.cpp:9-45 | moves if and only if the transition is allowed |
| `Links.QueuePair.BringUp` | rdma/src/queue_pair.cpp:47-60 | reaches ready-to-send from every state but the error state |
| `Links.Connection.Establish` | rdma/src/connection.cpp:10-16 | succeeds if and only if the link has not failed |
| `Links.Connection.Fail` | rdma/src/connection.cpp:18-21 | the link is in error and the connection down |
| `Fabric.PostBoxes` | rdma/src/worker_session.cpp:14-50 | a post is one deposit, at the peer, of exactly the message composed |
| `Fabric.PushLatest` | rdma/src/completion_queue.cpp:20-37 | dropping the oldest keeps the queue a gapless range ending at the latest request |
| `Fabric.PlayOk` | rdma/src/transport_rdma.cpp:20-100 | in every run each mailbox's removed messages followed by its inbox are its history, within capacity; completions are a gapless range ending at the latest request |
| `Fabric.PlayHistory` | rdma/src/worker_session.cpp:14-92 | each mailbox's history is exactly the messages that the actions of the run send to its node, in order and with their request ids |
| `Fabric.MailboxHoldsAllSent` | rdma/src/transport_rdma.cpp:20-100 | so from the start, what left a mailbox followed by what is in it is all that was sent to the node |
| `Fabric.ActBalanced` | rdma/src/worker_session.cpp:14-101 | every call keeps the sessions' counters equal to the mailboxes' histories, in messages and bytes |
| `Fabric.Conservation` | rdma/src/worker_session.cpp:14-101 | over every run, messages and bytes sent are those received, queued or evicted |
| `Completions.PlayCompletes` | rdma/src/transport_rdma.cpp:54-64 | over every run, a session's queue holds the completions of its latest sends, each with the request, operation, ends, size and text for that message; polled, queued and dropped ones add up, and none is a failure |
| `Completions.PushKeepsMost` | rdma/src/completion_queue.cpp:20-37 | a bounded queue holds as many completions as its depth allows |
| `Completions.DepositEvictsIff` | rdma/src/transport_rdma.cpp:43-51 | a mailbox drops its oldest message if and only if it is full |
| `Completions.NothingLostWithinCapacity` | rdma/src/transport_rdma.cpp:43-51 | over every run, a mailbox that is unbounded or is sent no more than it can hold loses no message |
| `Completions.SubmittedTextsRegistered` | rdma/src/worker_session.cpp:27 | each submission's text stays registered under the key issued for it |
| `Fabric.SubmissionsStayRegistered` | rdma/src/worker_session.cpp:27 | each submission leaves one more region registered in its session, and no region is lost or changed |
| `Fabric.PollsInOrder` | rdma/src/worker_session.cpp:52-64 | successive polls return the messages of the mailbox in order, each read as a task whatever its topic |
| `Fabric.SubmitThenPollIff` | rdma/src/worker_session.cpp:14-64 | a task submitted to any mailbox is polled unchanged, in its turn, if and only if its text can hold it |
| `Fabric.ResultPolledAsTask` | rdma/src/worker_session.cpp:52-92 | a result is polled as a task with the result's task id, target and metadata |
| `Sessions.CompletionQueue.Push` | rdma/src/completion_queue.cpp:20-37 | appends, dropping the oldest at the configured depth |
| `Sessions.CompletionQueue.Poll` | rdma/src/completion_queue.cpp:39-49 | the oldest completion, or none |
| `Sessions.TransportRdma.Connect` | rdma/src/transport_rdma.cpp:14-18 | both ends get a mailbox if they had none |
| `Sessions.TransportRdma.PostSend` | rdma/src/transport_rdma.cpp:20-65 | a link that is not ready yields a failed completion and no message, a ready one a deposit and a success, each with its detail text |
| `Sessions.TransportRdma.PollReceive` | rdma/src/transport_rdma.cpp:84-100 | withdraws the oldest message, creating a missing mailbox |
| `Sessions.WorkerSession.constructor` | rdma/src/worker_session.cpp:7-12 | a session without peers, completions or counts, whose registry holds the pool's buffers |
| `Sessions.WorkerSession.EnsurePeer` | rdma/src/worker_session.cpp:107-126 | a new peer gets an established connection and mailboxes, a known one is left alone |
| `Sessions.WorkerSession.Submit` | rdma/src/worker_session.cpp:14-50 | without a transport it fails and changes nothing; else it registers and posts the serialized task; the whole answer with its detail text and request id |
| `Sessions.WorkerSession.SendResult` | rdma/src/worker_session.cpp:66-92 | likewise for a result |
| `Sessions.WorkerSession.PollTask` | rdma/src/worker_session.cpp:52-64 | withdraws, counts and deserializes one message, if there is one |
| `Sessions.WorkerSession.PollCompletion` | rdma/src/worker_session.cpp:94-101 | takes the oldest completion and counts it |
| `Memory.Resize` | rdma/src/buffer_pool.cpp:28-30 | the result has exactly the requested size, keeps what fits and is zero beyond |
| `Memory.NextKeyIsNew` | rdma/src/memory_region.cpp:66-69 | the next key was never issued, until the 64-bit id wraps |
| `Memory.RegisterIsFresh` | rdma/src/memory_region.cpp:35-43 | registering adds one region under a new key and keeps all others |
| `Memory.NewPoolOk` | rdma/src/buffer_pool.cpp:8-15 | a new pool has exactly the configured buffers, all free |
| `Memory.AcquireOk` | rdma/src/buffer_pool.cpp:17-32 | an acquired buffer was not handed out, is now, and has the configured size |
| `Memory.ReleaseOk` | rdma/src/buffer_pool.cpp:34-49 | a release takes back exactly that buffer; unknown and free keys change nothing |
| `Memory.RunOk` | rdma/src/buffer_pool.cpp:8-49 | over every sequence of calls, and of other uses of the registry, free and handed-out buffers are disjoint and make up the known ones, and their number is max(configured, peak handed out) |
| `Memory.ReuseOrder` | rdma/src/buffer_pool.cpp:17-49 | over every run, the free buffers handed out, followed by those still free, are those free before, followed by those released, in order |
| `Memory.AcquireThenRelease` | rdma/src/buffer_pool.cpp:17-49 | releasing what was acquired restores the set handed out and frees the buffer |
| `Buffers.MemoryRegistry.Register` | rdma/src/memory_region.cpp:35-43 | the whole new registry and the key |
| `Buffers.MemoryRegistry.Release` | rdma/src/memory_region.cpp:56-59 | removes that key only |
| `Buffers.BufferPool.constructor` | rdma/src/buffer_pool.cpp:8-15 | the loop registers the configured buffers one by one |
| `Buffers.BufferPool.Acquire` | rdma/src/buffer_pool.cpp:17-32 | the whole new pool and registry, and the key or the error |
| `Buffers.BufferPool.Release` | rdma/src/buffer_pool.cpp:34-49 | the whole new pool and registry, and the error for a region that is gone |

## Left out

- HTTP handlers, gRPC plumbing, protobuf conversions and JSON: data conversion only.
- Sockets, the accept loop, the scheduler client and timeouts: received data is a list of chunks, interruptions and errors.
- Clocks, tickers and condition-variable timing: `now` is a parameter, and a wait is an enabling condition.
- Configuration loading, loggers, benchmarks, examples and scripts.
- Tensors, the fake model and the executor: floating point and random delays; executing a task is one step.
- The poller, the event channel and the timer: timing loops with shallow claims. Binding a channel to a completion queue is left out with them.
- RdmaClient, RdmaServer and the worker runtime: they repeat the session's pattern with less state.
- `TransportRdma::PostWrite`, devices, contexts, protection domains and the handshake.
- Two thresholds: the registry and the scheduler share one configuration here, as the server builds them; the source's types would allow two.
- Store.Scheduler.Overview: the response's copies are values, so the aliasing of cloned labels and metadata is not modelled.
- Store.Registry.Heartbeat: the text of the error for an unknown worker does not hold the id in Go's quoting; when the call fails is exact.
- Services.TaskService.Complete: likewise for an unknown task.
- Sessions.TransportRdma.PostSend: the time of a completion is not modelled; it is a clock reading that nothing else depends on.
- Sessions.WorkerSession.Submit: a session call is one step; two threads inside one session, and the 64-bit wrap of its metrics counters, are not modelled.
- Sessions.WorkerSession.PollTask: a message without a payload is not modelled, because every sender attaches one.
- Buffers.MemoryRegistry.Register: local and remote access keys are not modelled, because their order of evaluation is unspecified in C++; a region is one entry per key, and shared ownership of its storage is not modelled.
- WorkerNode.WorkerNode.NextTask: a task is its id here; prompt and execution result are not modelled, and the report to the scheduler is an event of `EndToEnd.Run`.
- EndToEnd.RunBelongs: one worker process, without restarts; its `running` flag and the order of its farewell heartbeat are not modelled, so more interleavings are covered than the process has.
- ThreadPool.ThreadPool.TakeLocked: jobs are numbers; what a job does, and the catching of its exceptions, is not modelled.
