# KAI Scheduler: a verified model of its transactional core

This project models the parts of KAI Scheduler whose correctness depends on several functions, or several
processes, working together, and proves what they promise. It is written in Dafny 4.11;
`dafny verify dfyconfig.toml` checks all of it.

**The statement** (`Options`, `Cluster`, `StatementSpec`, `StatementHistory`, `StatementRollback`, `StatementCalls`,
`StatementConvert`, `StatementConvertLaws`, `StatementConvertReady`, `StatementConvertLog`, `StatementRuns`,
`StatementLaws`, `StatementCommit`, `Accounting`, `StatementBooks`, `StatementConvertBooks`, `StatementLimits`,
`Session`, `SessionSteps`, `Statement`). A scheduling action tries evictions and
placements on the session and keeps an undo log. Undo entries point at other entries, undoing an undo runs the
original again, and an entry is valid unless a valid undo entry points at it. The session is modelled with what a
statement touches: the record of each task, the copy that each node keeps, the count that the plugins' event
handlers keep, and the idle, used and releasing vectors that nodes keep incrementally. The classes `Session` and
`Statement` do what the code does, step by step, and every method is proved against a function of the state
before. The theorems are about those functions, along every disciplined run of calls, conversions of allocations
to pipelined tasks, rollbacks and discards: what a rollback to a checkpoint and a discard restore, of the session and
of every resource vector; what a commit sends; what a conversion does to the log, the session and the vectors; and
how the plugins' counts and the log follow each other. A run is disciplined when it evicts tasks that hold
resources, allocates pending tasks that are on no node, pipelines pending tasks or tasks this statement has just
evicted, unevicts tasks that are still where the eviction left them, and converts the allocations of a job while
they stand and nothing that came after one of them has been undone.

**The binder** (`BinderApi`, `BindProtocol`, `BindProtocolLimits`, `Reservation`, `SyncRefinement`,
`BindRequests`, `BinderPlugins`). A GPU group that several pods share is held by a reservation pod. `BindProtocol` is
a state machine with one API call per step: the holder of a group's mutex interleaves with everything else in the
cluster. `Reservation` is the same
service as an object whose API calls may be refused, and `SyncRefinement` proves that the steps of an
uninterrupted sync add up to what that object does. `BindRequests` follows BindRequest objects through creation,
replacement and any number of reconciles in flight.

**Order and choice** (`Sequences`, `Strings`, `Heap`, `PriorityQueue`, `JobOrder`, `NodeScoring`, `GpuChoice`). The bounded
heap, the comparator chains that drive it, parallel node scoring, and the choice of GPUs for sharing.

**Planning and observing** (`Arithmetic`, `BucketPlanner`, `SuiteWeights`, `ZoneNames`, `MemoryGroups`, `MemoryAggregation`,
`Exporter`, `StatusReconciler`). The greedy split of the E2E packages, NUMA memory groups and their publication,
and the operator's status conditions.

## What does not hold

Some properties one would expect are false of the code. Each has a lemma that shows it, and a condition under
which the property does hold; "if and only if" is said where that condition is exact.

- Rolling back to a checkpoint between an eviction and a pipeline onto the same node loses the node's copy of the
  task, and rolling back past a conversion leaves the virtual flag of the converted tasks set: the rollback restores
  the session if and only if no task is in the first position and those flags were set at the checkpoint
  (`StatementRuns.RollbackReturnsToCheckpoint`, and runs that lose each in `StatementLimits.RollbackLosesCopy` and
  `StatementLimits.ConvertedFlagStays`).
- A task that moves to other GPUs of its own node leaves the evicted copy's charge on the node, because the old copy
  is dropped without its charge. Rolling back or discarding restores the idle, used and releasing vectors if and only
  if the charges dropped in the run sum to nothing; if no request is negative, if and only if every such move was of
  a task that its node is charged nothing for (`StatementBooks.RollbackRestoresBooks`,
  `StatementBooks.DiscardRestoresBooks`, and a run that leaks in `StatementLimits.GpuMoveLeaksCharge`).
- Unevicting undoes the earliest valid eviction, so a task that has moved since is not brought back by rolling the
  unevict back; it is if and only if the task is still where the eviction left it
  (`StatementLimits.UnevictInvertibleIff`, `StatementLimits.UnevictAfterMove`).
- For the same reason an unevicted task may have a second valid eviction, which Commit sends although the session
  says that the task runs (`StatementLimits.UnevictLeavesEviction`); none is left if and only if the task had just
  one (`StatementLaws.UnevictClearsIff`).
- Converting allocations leaves undo entries with stale indices. One can point at itself, and asking whether it is
  valid would then not end (`StatementLimits.ConvertBreaksUndo`). An entry keeps its index if and only if no
  converted allocation comes before it (`StatementConvertLog.EntryMoves`), and all entries keep their validity if and
  only if no converted allocation comes before an entry that has been undone
  (`StatementConvertLog.ConvertKeepsValidityIff`).
- A backoff limit of two or more never runs out, and the retry delay never exceeds two seconds, because the failure
  counter is written only when the phase changes: a failed request is retried if and only if its limit is at least
  two (`BindRequests.FailedIsRetriedIff`, `BindRequests.DelayStaysShort`), and it can fail any number of times with
  one failure on record (`BindRequests.FailsForEver`).
- A reservation that is needed at every moment can still be deleted, if a pod in phase Unknown comes back to life
  between the list of a sync that would have shown it and the end of that sync's lists
  (`BindProtocolLimits.RevivedPodLosesReservation`). The condition is exact: a step of a run makes the loss possible
  if and only if it brings back a pod in that way (`BindProtocolLimits.LosesIffUnseenRevival`,
  `BindProtocolLimits.FirstUnseenRevivalDecides`), and pods that come back at any other time do no harm
  (`BindProtocol.ReservationPersists`).
- One pass of syncs over several groups can leave a reservation without a user (`Reservation.PassCanLeaveIdle`): if
  and only if it was in use when the group's turn came, but only by pods that the pass deletes for later groups
  (`Reservation.PassLeavesIdleIff`).
- The bounded priority queue keeps the best items in every run of pushes if and only if it has no bound or room for
  at most one item, or its order tells no two items apart (`PriorityQueue.KeepsBestIff`); for every larger bound a
  run of one push too many drops an item and keeps one that comes after it
  (`PriorityQueue.LargeBoundDropsBetter`). The best one is never lost.
- VictimOrderFn puts a job before itself (`JobOrder.VictimBeforeItself`), and two jobs each before the other if and
  only if they tie in everything (`JobOrder.VictimLessBothIff`).

## Model

| member | source | states |
|---|---|---|
| StatementSpec.FirstUndo | pkg/scheduler/framework/statement.go:729-739 | finds the first undo entry that points at an entry, or shows that none does |
| StatementSpec.EarliestValidEvict | pkg/scheduler/framework/statement.go:654-674 | the entry that Unevict picks is a valid eviction of the task and no earlier one is; if it picks none, there is none |
| StatementHistory.PublicIsBackward | pkg/scheduler/framework/statement.go:676-719 | between successful calls every undo entry points strictly backwards, so the recursion of operationValid ends |
| StatementHistory.PublicValidity | pkg/scheduler/framework/statement.go:729-739 | between successful calls an entry is valid exactly if no undo entry points at it |
| StatementHistory.LostIff | pkg/scheduler/framework/statement.go:190-202 | which tasks are off their node when the log is undone down to an index: exactly those whose next entry is a pipeline onto their own node |
| StatementHistory.LostIsEvictedBefore | pkg/scheduler/framework/statement.go:190-202 | the next entry to undo for such a task is its eviction, which adds it back |
| StatementHistory.EvictRestores | pkg/scheduler/framework/statement.go:168-213 | unevict takes any state like the one after an eviction to one like the one before it |
| StatementHistory.PipelineRestores | pkg/scheduler/framework/statement.go:485-532 | the same for unpipeline, up to the node's copy if the task was pipelined onto its own node |
| StatementHistory.AllocateRestores | pkg/scheduler/framework/statement.go:439-479 | the same for unallocate |
| StatementHistory.UndoRestores | pkg/scheduler/framework/statement.go:686-709 | the same for evicting a task again when an undo is undone |
| StatementHistory.InverseRestores | pkg/scheduler/framework/statement.go:676-719 | undoing any entry restores the state before its call, up to the lost copies, also when other tasks' entries were undone out of order |
| StatementRollback.UnwoundValidity | pkg/scheduler/framework/statement.go:729-739 | while a log is being unwound from its end, every entry is valid when its turn comes, because whatever undid it has been undone before |
| StatementRollback.ReverseIsInverse | pkg/scheduler/framework/statement.go:676-719 | running the reverse closure of a valid entry succeeds and does what the inverse says |
| StatementRollback.UndoOneRestores | pkg/scheduler/framework/statement.go:676-719 | undoing the next entry of an unwinding succeeds, appends one undo entry and restores the state before the call that wrote it |
| StatementRollback.UndoDownToRestores | pkg/scheduler/framework/statement.go:56-61 | the loop of Rollback succeeds and restores the state before the entry it stops at |
| StatementRollback.RollbackRestores | pkg/scheduler/framework/statement.go:51-64 | Rollback to any index of a log with a history succeeds, truncates the log and restores the state there, up to the lost copies |
| StatementCalls.EvictKeeps | pkg/scheduler/framework/statement.go:66-136 | an eviction appends one entry and keeps every earlier checkpoint reachable |
| StatementCalls.AllocateKeeps | pkg/scheduler/framework/statement.go:336-405 | the same for an allocation |
| StatementCalls.PipelineOntoKeeps | pkg/scheduler/framework/statement.go:215-334 | the same for a pipeline that is not an unevict |
| StatementCalls.PipelineKeeps | pkg/scheduler/framework/statement.go:215-334 | the same for every pipeline, which may turn into an unevict |
| StatementCalls.UnevictKeeps | pkg/scheduler/framework/statement.go:534-539 | the same for an unevict, whose undo entry is the inverse of the eviction it undoes |
| StatementCalls.RollbackKeeps | pkg/scheduler/framework/statement.go:51-64 | the same for a rollback that is itself part of a run |
| StatementCalls.PerformDrops | pkg/scheduler/framework/statement.go:274-295 | a call drops a copy without its charge exactly if it moves a task to other GPUs of its node, and then that one |
| StatementRuns.RunKeeps | pkg/scheduler/framework/statement.go:47-64 | every disciplined run of calls, conversions and discards has a history, so every earlier checkpoint is still reachable; the copies dropped without their charge are exactly those of its GPU moves |
| StatementRuns.ConvertKeepsShape | pkg/scheduler/framework/statement.go:541-576 | a conversion that discipline allows leaves every undo entry pointing backwards |
| StatementRuns.RollbackReturnsToCheckpoint | pkg/scheduler/framework/statement.go:47-64 | main theorem: from any point of any disciplined run, conversions and discards included, Rollback returns log, statuses, node names, virtual flags, node task maps and plugin counts to the checkpoint, if and only if no task is lost and the converted tasks were flagged then; otherwise exactly the lost tasks are missing from their node and exactly the converted tasks are flagged |
| StatementRollback.DiscardIsUndo | pkg/scheduler/framework/statement.go:582-596 | Discard, which ignores failures, undoes what a rollback to the start undoes |
| StatementRuns.DiscardRestores | pkg/scheduler/framework/statement.go:582-596 | after any disciplined run, same-node re-pipelines included, Discard empties the log and restores every task, node task map and plugin count, but for the flags of converted tasks, which are restored if and only if they were set |
| StatementBooks.RollbackRestoresBooks | pkg/scheduler/framework/statement.go:47-64 | for every disciplined run: after the rollback all job totals are back, each node vector differs by exactly the charges dropped since the checkpoint less the shares of the lost copies, and all books are back if and only if these cancel; if no task is lost, if and only if the dropped charges sum to nothing, so always without a GPU move, and for requests that are not negative if and only if every GPU move weighs nothing |
| StatementBooks.DiscardRestoresBooks | pkg/scheduler/framework/statement.go:582-596 | the same for Discard after every disciplined run, where no copy is lost |
| StatementLaws.ValidityAppend | pkg/scheduler/framework/statement.go:729-739 | appending an undo entry makes its target invalid and changes the validity of nothing else |
| StatementLaws.ValidCreditsSuffice | pkg/scheduler/framework/statement.go:106-112 | counting only valid entries gives the same sum of handler calls as counting all entries |
| StatementLaws.LedgerFollowsValidEntries | pkg/scheduler/framework/statement.go:106-112 | after any disciplined run, conversions and discards included, a plugin's count for a task has moved exactly as the valid entries say, and in lockstep with whether the task is active |
| StatementLaws.LastEntryDecides | pkg/scheduler/framework/statement.go:66-136 | after any disciplined run the last entry about a task is valid, and the task is being evicted if and only if that is an eviction; then task and node copy are as it left them |
| StatementLaws.UndoneIsNotLast | pkg/scheduler/framework/statement.go:534-539 | an eviction that was undone is never the last entry about its task, so it does not decide what the task is |
| StatementLaws.UnevictClearsIff | pkg/scheduler/framework/statement.go:654-674 | after an unevict the task has no valid eviction left if and only if it had just one |
| StatementLimits.UnevictInvertibleIff | pkg/scheduler/framework/statement.go:168-213 | evicting again after an unevict gives the state back if and only if the task was where the eviction left it |
| StatementLimits.UnevictAfterMove | pkg/scheduler/framework/statement.go:654-674 | an evicted task that was pipelined elsewhere and then unevicted is not brought back by rolling back the unevict |
| StatementLimits.PipelineBackUnevicts | pkg/scheduler/framework/statement.go:225-252 | pipelining a moved task back to its node undoes the eviction, not the move |
| StatementLimits.RollbackOfUnevict | pkg/scheduler/framework/statement.go:676-719 | rolling back an undo entry evicts the task from the node it is on |
| StatementLimits.UnevictLeavesEviction | pkg/scheduler/framework/statement.go:654-674 | a disciplined run that evicts, pipelines back, evicts again and unevicts: the session is what it was, and Commit sends the second eviction |
| StatementLimits.RollbackLosesCopy | pkg/scheduler/framework/statement.go:190-202 | a checkpoint after an eviction, then a pipeline back onto the node: the run is disciplined, the task is lost and the rollback does not restore the checkpoint |
| StatementLimits.ConvertedFlagStays | pkg/scheduler/framework/statement.go:551-560 | an allocation and its conversion: neither Discard nor Rollback restores a task that was not flagged |
| StatementLimits.GpuMoveDrops | pkg/scheduler/framework/statement.go:274-295 | evicting a task and pipelining it to other GPUs of its node is a disciplined run that drops the releasing copy without its charge |
| StatementLimits.GpuMoveLeaksCharge | pkg/scheduler/api/node_info/gpu_sharing_node_info.go:320-322 | discarding that run leaves the node's vectors off by exactly that charge, in every resource; the books are restored if and only if it is zero |
| StatementLimits.ConvertBreaksUndo | pkg/scheduler/framework/statement.go:567-573 | a disciplined run that allocates one task and evicts and unevicts another: converting leaves an undo entry that points at itself |
| StatementConvert.KeptHasNoAllocation | pkg/scheduler/framework/statement.go:567-573 | the filtered log has no allocation of the job |
| StatementConvert.HistoryWithout | pkg/scheduler/framework/statement.go:541-576 | taking an allocation out of the middle of the log leaves a history in which the task was never allocated |
| StatementConvert.RecordedShelved | pkg/scheduler/framework/statement.go:541-576 | a call about another task is the same call when the converted task is taken aside |
| StatementConvertLaws.ConvertEachEffect | pkg/scheduler/framework/statement.go:541-566 | converting a list of allocations makes each task Pipelined and flagged on its node, appends one pipeline entry for each and changes nothing else |
| StatementConvertLaws.ConvertEntry | pkg/scheduler/framework/statement.go:541-576 | converting one allocation gives a log with a history again, and flags one task at the earlier checkpoints |
| StatementConvertLaws.ConvertKeeps | pkg/scheduler/framework/statement.go:541-576 | so does converting all allocations of a job |
| StatementConvertReady.ConvertReadyIff | pkg/scheduler/framework/statement.go:541-576 | for a log with a history, what those two ask of the log and the session holds if and only if the job's allocated tasks are still allocated and no allocation comes before an entry that was undone |
| StatementConvertLog.ConvertOutcome | pkg/scheduler/framework/statement.go:541-576 | if the job's allocated tasks are still allocated, conversion succeeds, leaves no allocation of the job, appends one pipeline entry per allocation in order, makes the tasks Pipelined where they were and leaves all others unchanged |
| StatementConvertLog.ConvertGoes | pkg/scheduler/framework/statement.go:541-576 | for every log with a history, whatever became of the tasks, conversion succeeds and its log is the retained entries and one pipeline entry per allocation, in order and onto the same node |
| StatementConvertLog.EntryMoves | pkg/scheduler/framework/statement.go:567-573 | a retained entry moves up by the number of converted allocations before it, so its index stays right if and only if there is none |
| StatementConvertLog.ConvertKeepsValidityIff | pkg/scheduler/framework/statement.go:541-576 | for every log with a history, every retained entry is valid after the conversion exactly if it was before, if and only if no converted allocation comes before an entry that was undone |
| StatementConvertBooks.ConvertBooks | pkg/scheduler/framework/statement.go:541-566 | on every node idle rises and releasing falls by the charges of the tasks converted there and used stays; the job's total falls by their requests; other nodes and jobs keep their vectors |
| StatementConvertBooks.ConvertBooksAfterRun | pkg/scheduler/framework/statement.go:541-566 | the same after any disciplined run that left the job's allocations standing |
| StatementCommit.SentExactly | pkg/scheduler/framework/statement.go:598-651 | the loop of Commit sends exactly the valid entries that no rejected allocation precedes, each once and in log order |
| StatementCommit.UndoneEvictionNotSent | pkg/scheduler/framework/statement.go:598-651 | between calls, an eviction is sent exactly if nothing undid it and no rejected allocation came first |
| Accounting.TotalWithout | pkg/scheduler/api/node_info/node_info.go:545-566 | taking a task off a node changes the recomputed sums by its share, whatever order they are summed in |
| Accounting.JobTotalUpdate | pkg/scheduler/api/podgroup_info/job_info.go:358-369 | changing a task's status changes the job's recomputed total by the difference of its shares |
| Accounting.OrphanedDifference | pkg/scheduler/api/node_info/gpu_sharing_node_info.go:320-322 | the vectors of two sessions that agree but for lost copies differ by exactly the charges dropped in between less the shares of those copies |
| Accounting.DroppedBooks | pkg/scheduler/api/node_info/node_info.go:486-530 | so they have equal vectors if and only if the two cancel on every node, in every resource and vector; job totals are equal anyway |
| Accounting.SumToNothingIff | pkg/scheduler/api/node_info/node_info.go:486-530 | for requests that are not negative, charges sum to nothing if and only if each of them is zero |
| Session.Plus | pkg/scheduler/api/resource_info/resource_vector.go:80-89 | vector addition, with the shorter vector extended by zeros |
| Session.Minus | pkg/scheduler/api/resource_info/resource_vector.go:91-100 | vector subtraction |
| Session.Tracked | pkg/scheduler/api/node_info/node_info.go:495-512 | the passes over the request end with what the sums charge the task for: no GPU for a task on a shared GPU or a reservation pod, nothing that the node does not have |
| Session.AddResources | pkg/scheduler/api/node_info/node_info.go:486-530 | the three vectors move by the task's share for its status |
| Session.RemoveResources | pkg/scheduler/api/node_info/node_info.go:568-613 | the exact opposite |
| Session.AddBalanced | pkg/scheduler/api/node_info/node_info.go:486-530 | after adding, the incremental vectors still equal the recomputed sums |
| Session.RemoveBalanced | pkg/scheduler/api/node_info/node_info.go:568-613 | and after removing |
| Session.OrphanBalanced | pkg/scheduler/api/node_info/node_info.go:409-418 | dropping a copy without its charge makes the charge an orphan; the vectors stay |
| Session.RecordBalanced | pkg/scheduler/api/podgroup_info/job_info.go:358-369 | the job's total follows a status change |
| Session.Session.constructor | pkg/scheduler/api/node_info/node_info.go:102-140 | an empty session is in balance |
| Session.Session.UpdateTaskStatus | pkg/scheduler/api/podgroup_info/job_info.go:358-369 | only the task's status and its job's total change, and the books stay balanced |
| Session.Session.AddTask | pkg/scheduler/api/node_info/node_info.go:405-438 | fails exactly if the node has the task; otherwise the node keeps a copy and the books stay balanced |
| Session.Session.RemoveTask | pkg/scheduler/api/node_info/node_info.go:545-566 | the node's entry goes with the charge of the stored copy |
| Session.Session.UpdateTask | pkg/scheduler/api/node_info/node_info.go:634-640 | remove and add: the copy is replaced if there was one |
| Session.Session.ConsolidateToDifferentGpu | pkg/scheduler/api/node_info/gpu_sharing_node_info.go:320-322 | the copy is replaced and the old charge stays as an orphan |
| SessionSteps.EvictTask | pkg/scheduler/framework/statement.go:91-112 | the session half of Evict, with its early exit after a failed node update |
| SessionSteps.UnevictTask | pkg/scheduler/framework/statement.go:168-213 | the session half of unevict |
| SessionSteps.AllocateTask | pkg/scheduler/framework/statement.go:336-396 | the session half of Allocate; a task that cannot be added keeps the status and node name it was given |
| SessionSteps.UnallocateTask | pkg/scheduler/framework/statement.go:439-479 | the session half of unallocate |
| SessionSteps.PipelineTask | pkg/scheduler/framework/statement.go:225-325 | the session half of Pipeline: new, updated or GPU-moved copy, and what the log entry must remember |
| SessionSteps.UnpipelineTask | pkg/scheduler/framework/statement.go:485-532 | the session half of unpipeline |
| Statement.Statement.IsValid | pkg/scheduler/framework/statement.go:729-739 | the loop and recursion of operationValid compute validity, and end |
| Statement.Statement.Evict | pkg/scheduler/framework/statement.go:66-136 | does what the specification of an eviction says, and keeps the books balanced and the log backward |
| Statement.Statement.Allocate | pkg/scheduler/framework/statement.go:336-405 | the same for an allocation |
| Statement.Statement.PipelineOnto | pkg/scheduler/framework/statement.go:254-334 | the same for a pipeline that is not an unevict |
| Statement.Statement.Pipeline | pkg/scheduler/framework/statement.go:215-334 | the same for every pipeline |
| Statement.Statement.Reverse | pkg/scheduler/framework/statement.go:676-719 | the same for running a reverse closure |
| Statement.Statement.UndoOperation | pkg/scheduler/framework/statement.go:676-719 | the same for undoing one entry |
| Statement.Statement.Unevict | pkg/scheduler/framework/statement.go:534-539 | the same for undoing the earliest valid eviction of a task |
| Statement.Statement.Rollback | pkg/scheduler/framework/statement.go:51-64 | the same for the rollback loop, with its range check |
| Statement.Statement.Discard | pkg/scheduler/framework/statement.go:582-596 | the same for the discard loop |
| Statement.Statement.Commit | pkg/scheduler/framework/statement.go:598-651 | empties the log, having sent what SentExactly describes and collected each event key once |
| Statement.Statement.ConvertAllAllocatedToPipelined | pkg/scheduler/framework/statement.go:541-576 | both loops do what the specification of a conversion says |
| BinderApi.ProtectingIff | pkg/binder/controllers/bindrequest_controller.go:358-372 | a request protects its GPU groups exactly if the binder would work on it were it not being deleted, or it succeeded and its pod is alive; so every actionable request protects |
| BinderApi.NeededWithoutPodsIsProtected | pkg/binder/binding/resourcereservation/resource_reservation.go:238-280 | a group that is needed and has no live pod is protected by a request |
| BindProtocol.NeverTwoReservations | pkg/binder/binding/resourcereservation/resource_reservation.go:398-457 | in every run from an empty cluster a group never has two reservation pods |
| BindProtocol.ReserveEstablishes | pkg/binder/binding/resourcereservation/resource_reservation.go:308-335 | a reserve call that succeeds leaves the pod labelled, the mutex free and one reservation with the index it returns |
| BindProtocol.ReservationPersists | pkg/binder/binding/resourcereservation/resource_reservation.go:182-233 | main theorem: in every interleaving, while at each moment a live labelled pod or an actionable request needs the group and no pod comes back to life behind the lists of a sync in flight, an established reservation and its device index stay, and no sync of the group deletes a pod |
| BindProtocol.SameDevice | pkg/binder/binding/resourcereservation/resource_reservation.go:398-433 | two reserve calls for a group that is needed in between return the same device |
| BindProtocol.OwnStepKeepsSecure | pkg/binder/binding/resourcereservation/resource_reservation.go:182-233 | no step of the mutex holder gets closer to deleting a needed reservation |
| BindProtocol.OthersKeepSecure | pkg/binder/binding/resourcereservation/resource_reservation.go:153-180 | nor does any step of the rest of the cluster make its listings unsafe |
| BindProtocolLimits.RevivedPodLosesReservation | pkg/binder/binding/resourcereservation/resource_reservation.go:193-198 | a run in which the group is always needed and the reservation is deleted, through a pod that leaves phase Unknown |
| BindProtocolLimits.UnseenRevivalLoses | pkg/binder/binding/resourcereservation/resource_reservation.go:153-233 | after every such revival, in every secure state, there is a run in which the group stays needed and the reservation goes, with no further revival |
| BindProtocolLimits.LosesIffUnseenRevival | pkg/binder/binding/resourcereservation/resource_reservation.go:153-233 | while a reservation is established and needed, a step makes such a run possible if and only if it is such a revival |
| BindProtocolLimits.FirstUnseenRevivalDecides | pkg/binder/binding/resourcereservation/resource_reservation.go:153-233 | the same along every run: up to the first such revival the reservation is safe, and from then on it can go |
| Reservation.SyncSettles | pkg/binder/binding/resourcereservation/resource_reservation.go:182-233 | after a successful sync no pod of the group runs unreserved and no reservation is idle, and a second sync changes nothing |
| Reservation.IdleLeftoverIff | pkg/binder/binding/resourcereservation/resource_reservation.go:182-233 | a sync leaves an idle reservation exactly if the group had several and needed none |
| Reservation.PassLeavesNoUnreserved | pkg/binder/binding/resourcereservation/resource_reservation.go:127-144 | after a pass over groups in any order no pod of any of them runs unreserved |
| Reservation.PassSoFar | pkg/binder/binding/resourcereservation/resource_reservation.go:127-144 | after part of a pass exactly the running pods of the unreserved groups so far are gone, and the reservations of the groups to come are there |
| Reservation.PassLeavesIdleIff | pkg/binder/binding/resourcereservation/resource_reservation.go:127-144 | a pass leaves a group an idle reservation if and only if it was in use at the group's turn, but only by pods that the pass deletes for later groups |
| Reservation.PassCanLeaveIdle | pkg/binder/binding/resourcereservation/resource_reservation.go:127-144 | a pass over two groups that does |
| Reservation.Service.HasActiveBindRequests | pkg/binder/binding/resourcereservation/resource_reservation.go:238-280 | the loop answers whether some request protects the group |
| Reservation.Service.DeleteNonReservedPods | pkg/binder/binding/resourcereservation/resource_reservation.go:459-475 | deletes only listed running pods, and all of them if no call fails |
| Reservation.Service.LivePods | pkg/binder/binding/resourcereservation/resource_reservation.go:153-198 | the two lists together give exactly the live pods of the group |
| Reservation.Service.SyncForGpuGroup | pkg/binder/binding/resourcereservation/resource_reservation.go:153-233 | a sync that succeeds does what SyncSettles is about; one that fails has deleted at most unreserved running pods |
| Reservation.Service.SyncForGroups | pkg/binder/binding/resourcereservation/resource_reservation.go:127-144 | a pass is a sequence of such syncs over all the groups, each once |
| Reservation.Service.FindGpuIndex | pkg/binder/binding/resourcereservation/resource_reservation.go:412-433 | returns the index of a reservation of the group, nothing if there is none, and fails if it has no index |
| Reservation.Service.CreateReservation | pkg/binder/binding/resourcereservation/resource_reservation.go:435-457 | creates or reuses the reservation and returns the index it writes, or takes it away again |
| Reservation.Service.ReserveGpuDevice | pkg/binder/binding/resourcereservation/resource_reservation.go:308-335 | on success the pod is labelled and the index belongs to a reservation of the group, the existing one if there was one; never a second reservation |
| Reservation.Service.RemovePodGpuGroupsConnection | pkg/binder/binding/resourcereservation/resource_reservation.go:368-388 | removes every group label of the pod and touches nothing else |
| SyncRefinement.UnprotectedIff | pkg/binder/binding/resourcereservation/resource_reservation.go:238-280 | judging open requests by the list and succeeded ones by their pod finds protection exactly if there is some |
| SyncRefinement.SoloSyncIsSync | pkg/binder/binding/resourcereservation/resource_reservation.go:153-233 | an uninterrupted sync of the protocol has the effect of a sync of the service |
| BindRequests.AttemptsWithinLimit | pkg/binder/controllers/bindrequest_controller.go:234-282 | in every run the persisted failure counter stays within the backoff limit, and never passes one |
| BindRequests.FailedIsRetriedIff | pkg/binder/controllers/bindrequest_controller.go:358-372 | in every run a failed request is still actionable if and only if its limit is at least two |
| BindRequests.FailsForEver | pkg/binder/controllers/bindrequest_controller.go:234-282 | for every request with a limit of two or more and every number of failures there is a run with that many failed reconciles, after which one failure is on record and the request is still actionable |
| BindRequests.OutcomeLandsOnWhatWasRead | pkg/binder/controllers/bindrequest_controller.go:256-273 | in every run a reconcile changes the store only at the very object it read, unchanged since |
| BindRequests.StatusMovesForwards | pkg/binder/controllers/bindrequest_controller.go:90-170 | over every run, while an object exists, Succeeded stays, a failure is not forgotten, the counter does not fall and the limit does not change |
| BindRequests.DelayStaysShort | pkg/binder/controllers/bindrequest_controller.go:242-245 | in every run the retry delay is one or two seconds |
| BindRequests.Reconciler.UpdateStatus | pkg/binder/controllers/bindrequest_controller.go:234-282 | is the end of a reconcile in that model, with the delay and the terminal error it returns |
| BinderPlugins.EntryExactlyWhileBinding | pkg/binder/plugins/k8s-plugins/k8s_plugins.go:116-191 | in every interleaving of calls for any pods, a pod has a state entry exactly between a successful PreBind and its PostBind or Rollback, the plugins then hold exactly what PreBind allocated, and nothing is held for a pod that is not bound or being bound |
| BinderPlugins.Recorded.PreBind | pkg/binder/plugins/k8s-plugins/k8s_plugins.go:116-148 | a call made for a pod that is not being bound or bound extends the member's trace, so every such sequence of calls is one of those traces |
| BinderPlugins.Recorded.PostBind | pkg/binder/plugins/k8s-plugins/k8s_plugins.go:150-167 | the same for a pod that is being bound |
| BinderPlugins.Recorded.Rollback | pkg/binder/plugins/k8s-plugins/k8s_plugins.go:169-191 | the same for a pod that is not bound |
| BinderPlugins.K8sPlugins.BindPlugin | pkg/binder/plugins/k8s-plugins/k8s_plugins.go:193-229 | holds an allocation afterwards exactly if it succeeded for a relevant plugin that was not skipped |
| BinderPlugins.K8sPlugins.PreBind | pkg/binder/plugins/k8s-plugins/k8s_plugins.go:116-148 | on failure nothing is held and no entry is made; on success exactly the relevant, unskipped plugins hold |
| BinderPlugins.K8sPlugins.PostBind | pkg/binder/plugins/k8s-plugins/k8s_plugins.go:150-167 | the entry goes, what is held stays |
| BinderPlugins.K8sPlugins.Rollback | pkg/binder/plugins/k8s-plugins/k8s_plugins.go:169-191 | the entry and everything held for the pod go |
| BinderPlugins.Chain.PreBind | pkg/binder/plugins/plugins.go:33-45 | the members before the failing one are open, the rest untouched |
| BinderPlugins.Chain.PostBind | pkg/binder/plugins/plugins.go:47-52 | no member keeps an entry, and every member holds what it held |
| BinderPlugins.Chain.Rollback | pkg/binder/plugins/plugins.go:54-66 | every member is clean for the pod, wherever the chain had stopped |
| BinderPlugins.Chain.Bind | pkg/binder/binding/binder.go:77-101 | on success no entry is left and every member holds exactly what is relevant and was not skipped; on failure the chain is open up to some member and clean after it |
| BinderPlugins.Chain.BindOrRollBack | pkg/binder/controllers/bindrequest_controller.go:152-168 | after a failed Bind and its Rollback no plugin holds anything for the pod, whatever failed; after a success each holds exactly what is relevant and was not skipped; other pods are unaffected |
| Heap.SiftUpHeap | pkg/scheduler/scheduler_util/priority_queue.go:50-55 | sifting up repairs a heap that is wrong only between one item and its parent |
| Heap.SiftDownHeap | pkg/scheduler/scheduler_util/priority_queue.go:57-63 | sifting down repairs a heap that is wrong only between one item and its children |
| PriorityQueue.FixedHeap | pkg/scheduler/scheduler_util/priority_queue.go:73-75 | Fix restores the heap when one item is out of place, and loses nothing |
| PriorityQueue.RemovedHeap | pkg/scheduler/scheduler_util/priority_queue.go:52-54 | Remove takes out exactly the item at the index and leaves a heap |
| PriorityQueue.RestHeap | pkg/scheduler/scheduler_util/priority_queue.go:57-63 | Pop takes out an item that no other comes before, and leaves a heap of the others |
| PriorityQueue.PushedWithinKeeps | pkg/scheduler/scheduler_util/priority_queue.go:50-55 | a bounded push stays within the bound and drops at most the last slot, and the first item is one that nothing comes before |
| PriorityQueue.BestIsNeverLost | pkg/scheduler/scheduler_util/priority_queue.go:50-71 | after every run of pushes and pops with a bound of at least one, the first item is the best of all that was left by the last Pop or came since |
| PriorityQueue.SmallBoundKeepsBest | pkg/scheduler/scheduler_util/priority_queue.go:50-55 | with no bound or room for at most one item, every run of pushes keeps as many items as it may and drops none that comes before a kept one |
| PriorityQueue.LargeBoundDropsBetter | pkg/scheduler/scheduler_util/priority_queue.go:50-55 | for every bound of two or more and every two items in order, a run of one push too many drops the better one and keeps the other |
| PriorityQueue.KeepsBestIff | pkg/scheduler/scheduler_util/priority_queue.go:50-55 | so all runs of pushes keep the best items if and only if the bound is less than two or no two items differ in the order |
| PriorityQueue.DrainsInOrder | pkg/scheduler/scheduler_util/priority_queue.go:57-63 | popping until empty gives all items in order |
| PriorityQueue.DrainIsCanonical | pkg/scheduler/scheduler_util/priority_queue.go:50-63 | an unbounded queue drains the same items in one order, however they were pushed |
| PriorityQueue.PriorityQueue.constructor | pkg/scheduler/scheduler_util/priority_queue.go:40-48 | a new queue is empty and valid |
| PriorityQueue.PriorityQueue.Up | pkg/scheduler/scheduler_util/priority_queue.go:87-98 | the swapping loop is the sift up |
| PriorityQueue.PriorityQueue.Down | pkg/scheduler/scheduler_util/priority_queue.go:87-98 | the swapping loop is the sift down in a prefix, and says whether it moved |
| PriorityQueue.PriorityQueue.Fix | pkg/scheduler/scheduler_util/priority_queue.go:73-75 | restores the order |
| PriorityQueue.PriorityQueue.RemoveAt | pkg/scheduler/scheduler_util/priority_queue.go:52-54 | heap.Remove for every index |
| PriorityQueue.PriorityQueue.Push | pkg/scheduler/scheduler_util/priority_queue.go:50-55 | keeps the heap and the bound, and nothing old or new comes before the first item |
| PriorityQueue.PriorityQueue.Pop | pkg/scheduler/scheduler_util/priority_queue.go:57-63 | nothing exactly if empty, otherwise an item that no other comes before |
| PriorityQueue.PriorityQueue.Peek | pkg/scheduler/scheduler_util/priority_queue.go:65-71 | the same item, without removing it |
| Strings.StringTotal | pkg/scheduler/framework/session_plugins.go:287-294 | the order on UIDs decides between any two different ones |
| JobOrder.JobLessDecides | pkg/scheduler/framework/session_plugins.go:296-303 | for consistent comparators JobOrderFn never orders two jobs both ways, and decides between any two UIDs |
| JobOrder.JobLessTransitive | pkg/scheduler/framework/session_plugins.go:296-303 | and is transitive |
| JobOrder.JobOrderIsWeakOrder | pkg/scheduler/framework/session_plugins.go:296-303 | so it is fit to drive the queue |
| JobOrder.JobsDrainInOneOrder | pkg/scheduler/framework/session_plugins.go:296-303 | jobs with distinct UIDs leave an unbounded queue in one order, whatever order they came in |
| JobOrder.VictimOrderIsReverse | pkg/scheduler/framework/session_plugins.go:305-323 | with no victim comparators the victim order is the negated job order, as its comment says |
| JobOrder.VictimLessBothIff | pkg/scheduler/framework/session_plugins.go:311-323 | two jobs are ordered both ways exactly if they tie in everything; different UIDs are ordered exactly one way |
| JobOrder.VictimBeforeItself | pkg/scheduler/framework/session_plugins.go:311-323 | so every job is put before itself |
| JobOrder.VictimLessTransitive | pkg/scheduler/framework/session_plugins.go:311-323 | among different UIDs the victim order is transitive |
| JobOrder.JobOrderFn | pkg/scheduler/framework/session_plugins.go:296-303 | the loop over the comparators computes that order |
| JobOrder.VictimOrderFn | pkg/scheduler/framework/session_plugins.go:311-323 | so do the two loops of the victim order |
| NodeScoring.OwnerIsUnique | pkg/scheduler/framework/session.go:283-289 | every node is in exactly one worker's chunk |
| NodeScoring.EverySlotWrittenOnce | pkg/scheduler/framework/session.go:276-303 | in every interleaving of the workers each slot is written exactly once, with its node's score |
| NodeScoring.OrderingIsUnique | pkg/scheduler/framework/session.go:637-654 | with distinct names there is one order by score and name |
| NodeScoring.ParallelIsSequential | pkg/scheduler/framework/session.go:276-306 | so parallel scoring gives the order of sequential scoring and sorting |
| NodeScoring.ScoreChunk | pkg/scheduler/framework/session.go:284-289 | a worker writes its own slots and no others |
| NodeScoring.SortNodesByScore | pkg/scheduler/framework/session.go:638-654 | drops failed nodes and orders the rest by score, then name |
| NodeScoring.OrderedNodesByTask | pkg/scheduler/framework/session.go:276-306 | the whole call, with the chunks run in turn |
| GpuChoice.Filter | pkg/scheduler/framework/session.go:202-217 | every shared group with room once, and one entry for each whole idle or releasing GPU |
| GpuChoice.FittingGpus | pkg/scheduler/framework/session.go:195-233 | the entries that can be scored, best first |
| GpuChoice.Prefer | pkg/scheduler/gpu_sharing/gpuSharing.go:50-105 | fails exactly if there are too few entries; otherwise takes the first ones, with new groups for whole GPUs, and waits exactly if one of them is not free |
| GpuChoice.FittingLength | pkg/scheduler/framework/session.go:195-233 | how many entries there are |
| GpuChoice.ChosenAreDistinct | pkg/scheduler/gpu_sharing/gpuSharing.go:50-87 | the chosen groups are distinct |
| GpuChoice.NewGroupsWithinWholes | pkg/scheduler/gpu_sharing/gpuSharing.go:60-66 | no more new groups than whole GPUs |
| GpuChoice.ChooseGpus | pkg/scheduler/gpu_sharing/gpuSharing.go:32-87 | all of that for the whole choice, which fails exactly if fewer GPUs can be used than asked for and leaves out no entry that scores higher than a chosen one |
| BucketPlanner.GreedyBound | hack/e2ebuckets/planner.go:56-79 | m times the heaviest bucket is at most the total plus m-1 times the largest package |
| BucketPlanner.PeakAtLeast | hack/e2ebuckets/planner.go:81-97 | no split is lighter than the average or the largest package |
| BucketPlanner.GreedyIsNearOptimal | hack/e2ebuckets/planner.go:56-79 | every greedy split is at most 2-1/m times as heavy as any split of the packages |
| BucketPlanner.SpreadFills | hack/e2ebuckets/planner.go:99-109 | with at least as many packages as buckets, a split in which no bucket has two packages while one is empty has no empty bucket |
| BucketPlanner.Lightest | hack/e2ebuckets/planner.go:65-74 | picks a lightest bucket |
| BucketPlanner.Assign | hack/e2ebuckets/planner.go:56-79 | for every shuffle and tie-break all packages are placed once, the loads are level, and with positive weights no bucket is empty |
| BucketPlanner.TargetIsLeast | hack/e2ebuckets/planner.go:81-89 | a load is at least the target exactly if every package fits and it is at least 110 percent of the average bucket, rounded up |
| BucketPlanner.TargetLoad | hack/e2ebuckets/planner.go:81-89 | the loop's target fits every package, and buckets at the target have room for all packages together |
| BucketPlanner.Validate | hack/e2ebuckets/planner.go:99-116 | passes exactly if no bucket is empty and every package is in exactly one place |
| BucketPlanner.Plan | hack/e2ebuckets/planner.go:28-54 | refuses exactly impossible counts; otherwise returns the lightest of the candidates tried, which all but the last missed the target; distinct packages with positive weights always pass validation |
| SuiteWeights.Tally | hack/e2ebuckets/suites.go:103-109 | sums and counts per package |
| SuiteWeights.Weights | hack/e2ebuckets/suites.go:102-132 | the estimate for packages with history, twice the upper median for the others, which are the missing ones |
| SuiteWeights.WeightsArePositive | hack/e2ebuckets/suites.go:102-132 | for run times that are not negative every weight is positive |
| SuiteWeights.PlanFromReports | hack/e2ebuckets/planner.go:28-54 | so distinct packages always get a plan that passes its validation |
| ZoneNames.KeyInjective | pkg/npe/placement/memory_groups.go:96-105 | different sets of NUMA nodes have different keys |
| MemoryGroups.TotalPermutes | pkg/npe/placement/memory_groups.go:116-121 | the bytes of a resource on a set of nodes do not depend on the order of the blocks |
| MemoryGroups.CanonicalGroups | pkg/npe/placement/memory_groups.go:124-127 | the same blocks have one list of groups in key order |
| MemoryGroups.GroupedInPlace | pkg/npe/placement/memory_groups.go:106-121 | adding a block to its group keeps every group exact |
| MemoryGroups.GroupedAppend | pkg/npe/placement/memory_groups.go:107-121 | so does adding one whose nodes are new |
| MemoryAggregation.AddBlock | pkg/npe/placement/memory_groups.go:85-122 | accepts a block exactly if it is sound and its total fits in 63 bits, and keeps the groups exact |
| MemoryAggregation.Aggregate | pkg/npe/placement/memory_groups.go:70-128 | fails exactly on a rejected observation; otherwise every byte of every resource is in the one group of its nodes, in key order |
| MemoryAggregation.OrderDoesNotMatter | pkg/npe/placement/memory_groups.go:70-128 | reordering containers and blocks changes neither the verdict nor the groups |
| Exporter.IsComplete | pkg/npe/placement/memory_groups.go:130-168 | complete exactly if every requested memory resource of every expected container has been observed |
| Exporter.MemoryGroupsValue | pkg/npe/placement/memory_groups.go:27-68 | no value exactly while nothing has been seen, now or before; a list exactly for an accepted and complete observation |
| Exporter.NeverAbsentAgain | pkg/npe/exporter.go:138-190 | over every run of passes, a pod that had a value published never computes none while it is listed |
| Exporter.Exporter.Reconcile | pkg/npe/exporter.go:154-189 | a pass remembers exactly the listed pods that have had a value |
| StatusReconciler.UpsertedKeeps | pkg/operator/controller/status_reconciler/status_reconciler.go:75-102 | an update is there afterwards, leaves other kinds alone and keeps one condition per kind |
| StatusReconciler.ReconcileKeepsOnePerKind | pkg/operator/controller/status_reconciler/status_reconciler.go:59-73 | so does a whole reconcile |
| StatusReconciler.Quiescent | pkg/operator/controller/status_reconciler/status_reconciler.go:36-73 | after one whole pass a further pass for the same generation and answers sends no patch |
| StatusReconciler.Status.ReconcileCondition | pkg/operator/controller/status_reconciler/status_reconciler.go:75-102 | the loop is that update, with a patch exactly if something changed |
| StatusReconciler.Status.Reconcile | pkg/operator/controller/status_reconciler/status_reconciler.go:36-73 | both passes together |

## Left out

- The clients, informers and caches of Kubernetes: the API server is a map whose calls may fail, and reads are fresh.
- Several binder replicas, deletion of reservation pods by anybody else, and panics.
- Graceful deletion of pods: a deleted pod is gone.
- SyncRefinement.SoloSyncIsSync: only syncs in which no call fails, because a failed sync promises nothing but what `Reservation.Service.SyncForGpuGroup` says.
- Reservation.Service.ReserveGpuDevice: the mutex and the interleaving are in `BindProtocol`, not in the object; the name of a reservation pod, a truncated hash of node and group, is taken to be different for different pairs.
- BindProtocol.ReservationPersists: pods are created without GPU group labels, which only the binder adds; and no pod comes back to life behind the lists of a sync in flight, without which the property is false.
- Binding pods to nodes, pod conditions, events and the annotations that Bind patches.
- The GPU sharing, HAMi core and NVIDIA fractions plugins of the chain, which hold no allocations; a failed Allocate is taken to hold nothing, and UnAllocate to succeed.
- Statement.Statement.Commit: the changes that committing makes to the session, and an eviction whose commit fails, are not modelled; the cluster's answer for each entry is an input.
- StatementRuns.RollbackReturnsToCheckpoint: GPU groups and NUMA placement of tasks that are pending or being evicted are not compared, because the scheduler writes them outside the statement; resource claim information is not modelled.
- StatementConvertLog.ConvertOutcome: only for tasks that are still allocated. The code converts the copy of the task that was taken when it was allocated, and the model the task itself; they are alike exactly as long as the task is as its allocation left it. What the log becomes does not depend on that and is stated for all logs in `StatementConvertLog.ConvertGoes`.
- StatementConvertBooks.ConvertBooks: only for tasks that are still allocated, for the same reason.
- StatementRuns.RunKeeps: a run goes on after a conversion only if no converted allocation came before an undone entry; after any other conversion the log has stale indices and no theorem says more than `StatementConvertLog.EntryMoves`.
- Calls that return an error leave the session as the specification says, but the theorems about runs are for successful calls.
- The event handlers of the plugins are counted, not run: the NUMA placement that one of them writes into a freshly allocated task is not modelled, only that undoing restores what was there before.
- Storage, pod affinity indices, the shared use of DRA devices, GPU memory maps of shared GPUs and the adjustments of whole GPUs: the node vectors are those of the tracked resources.
- A node's copy keeps, of the virtual flag, only whether the copy counts for pod affinity.
- Tasks are identified by UID; a task object that was replaced after a conversion is the same task.
- PriorityQueue.PriorityQueue.constructor: the queue without a comparison function, which orders by position, is not modelled, nor is a bound below -1, which would panic.
- TaskOrderFn, SubGroupOrderFn and QueueOrderFn have the shape of JobOrderFn and would add nothing new.
- GpuChoice.FittingGpus: the grouping of entries by score is a stable insertion, with the same result.
- Scores and GPU counts are exact reals; NaN and rounding are left out.
- The order of the packages inside a bucket, and the random source of the planner, which is any shuffle and any tie-break.
- The publication of NUMA placement, and the exporter on nodes with fake GPUs, which mirrors predictions.
- The reason and transition time of conditions are one stamp; the answers of the operands do not change within a pass.
- Fair share, proportion, topology, and the preempt, reclaim and consolidate actions: other parts of the scheduler, not needed here.
