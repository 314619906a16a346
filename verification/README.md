# JobDock verification

A Dafny model of the decision-making core of the JobDock control plane: the scheduler and its
capacity accounting, the job and build state machines, secret redaction, resumable transfers,
ordered logs and the dashboard algorithms.  `dafny verify dfyconfig.toml` checks everything.

## What is modelled

**Scheduling** (`Fleet`, `Capacity`, `Placement`, `Selection`, `Jobs`, `JobStore`, `Ledger`,
`Scheduling`, `SchedulerLoop`, `Progress`, `Recount`, `Reports`, `StatusUpdates`, `TwoStatements`).
The store is a value whose operations are atomic steps.  The one scheduler reads queue, nodes, jobs
and allocations in separate steps, keeps copies of them that go stale, and reserves job by job;
anything else may happen in between.  Safety rests on a rely condition that is proved operation by
operation: everybody else only releases.  `JobStore` is the same store as a class whose methods
change tables statement by statement, each proved to perform the specified operation;
`SchedulerLoop` is the pass as a program on that class, and `Progress` says what a pass achieves
when nobody disturbs it.  `Placement` proves that the choice of a node is complete, optimal and
independent of order, `Selection` what it means in the fields of nodes and jobs, and `Recount`
compares the snapshot of a pass with a recount.  `Reports` says which reports and operations are
accepted, status by status, `StatusUpdates` what a successful status update means for the attempt,
and `TwoStatements` what becomes of the three operations that the service does in several
statements when others act between them.

**Builds and artifacts** (`Builds`, `BuildStore`, `BuildOutcomes`, `ManagedReference`).  Builders
claim, renew, lose and complete leased assignments while users cancel, jobs pin artifacts, and
collection and deletion race with all of it.  One invariant over builds, events, assignments,
artifacts and jobs is kept by every transaction, work is handed on when a lease ends, and
`BuildOutcomes` says when each transaction succeeds and what it leaves.

**Redaction** (`Redactor`, `SecretSets`, `MaskOrder`).  The streaming redactor with its held-back
tail, against a scan of the whole stream.  Where a promise depends on the secrets, the exact
condition is proved.

**Transfers and logs** (`Checkpoint`, `CheckpointFiles`, `LogTail`).  The upload loop against
the offset-checked, quota-limited append and the atomic promotion, over a network that loses,
delays, repeats and truncates requests; and the order log, from the agent that writes it to the
tail that follows it in chunks.

**Dashboards and observations** (`Grid`, `Templates`, `Hierarchy`, `Matrix`, `Distribution`).
First-fit packing, template resolution, the forest check by depth-first search, block means and
distribution summaries, with `real` for floating point.

`Domain` holds the vocabularies that are shared, `Text` what counts as white space, `Sorting` the
library sort (stable insertion sort) and byte-wise string order.

## Where the code and its promises differ

- A status update is documented to report success only when both the job and its current attempt
  reflect the status (internal/store/store.go:364-366).  On the early return it does not look at
  the attempt, which may not exist, may have been accepted late, or may have been left alone by
  deletion; `StatusUpdates.UpdateReflectsAttempt` is the exact condition.
- Stopping reads the job and then writes it unconditionally (internal/store/store.go:445-462).  If
  the job has been rerun in between, the write leaves it STOPPING without node and attempt, which
  breaks the lifecycle invariant (`TwoStatements.StopInTwoKeepsInvIff`), and nothing anybody does
  ever changes it again (`TwoStatements.StopInTwoStrandsIff`, `TwoStatements.StopStrandsARerunJob`).
  If it has merely ended, it becomes active again and its demand is charged to its node once more,
  which may overcommit it (`TwoStatements.StopInTwoFitsIff`, `TwoStatements.StopOvercommits`).
- Accepting a deletion does the same (internal/store/store.go:464-477).  A queued job that has been
  placed in between becomes DELETING while its token still works and its demand is no longer
  counted: `TwoStatements.DeleteInTwoKeepsInvIff`, `TwoStatements.DeletionOfAPlacedJob`.
- Giving up the jobs of a silent node writes LOST into an attempt without looking at the job again
  (internal/store/store.go:742-751), so that a job that has succeeded in between has a lost attempt:
  `TwoStatements.LoseOneAgreesIff`, `TwoStatements.SucceededAttemptIsLost`.
- The redactor's guarantees fail for secrets that begin or end with the mask byte `*`;
  `Redactor.SingleSecretChunkIndependence` and `Redactor.SingleSecretNeverReleased` give the exact
  conditions.  With several secrets, which bytes are masked can depend on how the stream is cut:
  `SecretSets.TwoSecretsChunkIndependence` is exact for two, `SecretSets.ChunkIndependentIff` for any
  number, and `SecretSets.OrderedSecretsChunkIndependence` is a sufficient condition on the secrets.
- It can also depend on the order in which they are masked, which is that of a map iteration
  (internal/agent/redactor.go:13), as `MaskOrder.OrderMatters` shows:
  `MaskOrder.TwoSecretsOrderIndependence` is exact for two, and by `MaskOrder.AnyOrderMasksAlike`
  its condition on every pair suffices for any number.
- A checkpoint that contains an empty file can never be confirmed, because the upload loop sends
  nothing for it (internal/agent/agent.go:823-829): `Checkpoint.ConfirmedIffNoEmptyFile`.
- A read error reported together with exactly the first byte beyond the quota leaves that byte
  behind, and nothing else does: `Checkpoint.AppendRespectsLimit`, `Checkpoint.OneByteBeyondLimit`.
- An order record of length zero passes the format check and then stops the tail for good, as
  reading it asks for a chunk of length zero: `LogTail.EmptyFrameStopsForGood`.  The agent itself
  never writes such a record, as it skips empty output (internal/agent/agent.go:575, 585).
- Assignment rows of earlier attempts count as allocated while their job is active, so recounted
  GPU flags can exceed those of the snapshot: `Scheduling.SnapshotRefinesStore` says exactly when,
  and `Recount.FlagsDifferAfterRerun` shows such a job.

## Model

| member | source | states |
|---|---|---|
| Scheduling.NoNodeIsEverOvercommitted | internal/scheduler/scheduler.go:51-82 | over every run of scheduling passes interleaved with any other operations, the CPU, memory and per-package demand of a node's active jobs never exceeds what the node offers |
| Scheduling.NoPackageIsEverOvercommitted | internal/scheduler/scheduler.go:51-82 | the same in the fields of jobs and nodes: over all jobs, each once, the CPU and memory asked for by those that occupy a node are within its totals, and the CPU asked for on each of its packages within that of the package |
| Scheduling.NoGPUIsEverShared | internal/scheduler/scheduler.go:51-82 | over every such run, no two active jobs on a node hold the same GPU with their current attempts |
| Scheduling.ActKeepsSafe | internal/scheduler/scheduler.go:51-82 | the inductive step: each read, each reservation and each step of another client keeps the job invariant, capacity, GPU exclusivity and the fact that the scheduler's stale copies still cover what is in use |
| Scheduling.SnapshotRefinesStore | internal/scheduler/scheduler.go:257-281 | reserving in the snapshot and recounting from the store after the reservation give the same nodes up to GPU flags; the flags agree if and only if, on every listed node, each GPU named by an assignment row of the job is allocated already or chosen now |
| Recount.PassRefinesStore | internal/scheduler/scheduler.go:60-81 | the same after any number of successful reservations in the store, with the rows made before the pass and the GPUs chosen during it |
| Recount.FlagsDifferAfterRerun | internal/store/store.go:856-878 | a reachable job whose flags do differ: it ran with a GPU, failed, was rerun, and is placed without that GPU |
| Recount.PassAllocates | internal/store/store.go:856-878 | what the store reports as allocated after the pass: what it reported before, what was chosen, and what earlier rows of the reserved jobs name |
| Capacity.AccountsAgreeIff | internal/capacity/capacity.go:27-53 | two accounts of the same jobs differ in GPU flags only, and agree if and only if the allocations agree on the listed GPUs |
| Scheduling.ReserveAllocates | internal/store/store.go:856-878 | after a reservation the store reports as allocated exactly the GPUs it reported before, the chosen ones, and those of every earlier assignment row of that job |
| Scheduling.WinnerFits | internal/scheduler/scheduler.go:84-229 | a winner on a snapshot that covers current use has room and free GPUs in the store itself, not just in the snapshot |
| Ledger.StepReleases | internal/store/store.go:363-543 | every operation other than a reservation only releases: no job becomes active, active jobs keep node, attempt and spec, nodes keep their totals (the scheduler's rely condition) |
| Ledger.ReleaseKeepsSafety | internal/store/store.go:363-543 | any step that only releases keeps capacity and GPU exclusivity |
| Ledger.ReportKeepsFitIff | internal/store/store.go:513-543 | a node report keeps all nodes within their totals if and only if it still offers what is in use: the exact form of the assumption that nodes do not shrink |
| Ledger.ListingDemandsUsage | internal/store/store.go:287-307 | leaving out deleted jobs, as the snapshot does, leaves out no demand |
| Ledger.HeldIsAllocated | internal/store/store.go:856-878 | the allocated GPUs reported by the store include every GPU held by a current attempt |
| SchedulerLoop.Schedule | internal/scheduler/scheduler.go:51-82 | the pass as a program on the store and an array of nodes, other clients acting between its accesses, ends in the state the transition system allows, and in a safe one |
| SchedulerLoop.PlaceAll | internal/scheduler/scheduler.go:60-81 | the loop over the queue: skip what does not fit or lost a race, stop on a refused reservation, update the snapshot after a successful one |
| SchedulerLoop.PassIsRun | internal/scheduler/scheduler.go:51-82 | every pass is a run of the transition system about which safety is proved |
| SchedulerLoop.ListNodes | internal/store/store.go:545-616 | lists every node that is not removed, each once, with an operator's labels if there are any and nothing counted on it yet |
| SchedulerLoop.QueuedJobs | internal/store/store.go:309-325 | lists exactly the queued jobs, oldest first |
| SchedulerLoop.ListJobs | internal/store/store.go:287-307 | lists the jobs that are not deleted, newest first |
| Scheduling.QueueIs | internal/store/store.go:309-325 | the queue holds exactly the queued jobs in the order of their creation |
| Scheduling.ListedAs | internal/store/store.go:545-616 | a node is listed as reported, with an operator's labels if there are any, and nothing counted on it |
| Progress.QuietPassLeavesNothing | internal/scheduler/scheduler.go:51-82 | an undisturbed pass, from reading the store to the last reservation, gets to the end of its queue, and whatever is still queued in the store then would not fit on any node, counting all that was placed |
| Progress.PassLeavesNothing | internal/scheduler/scheduler.go:60-81 | the same for any queue and snapshot: jobs that do not fit are passed over without holding up those behind them |
| Progress.WillDoBefore | internal/scheduler/scheduler.go:257-281 | what does not fit on a node does not fit any better once more is reserved on it |
| Selection.SelectNode | internal/scheduler/scheduler.go:84-229 | selects a node if and only if some listed node will do, in its own fields, and then the best; otherwise the code says what is lacking first |
| Selection.SelectsTheBest | internal/scheduler/scheduler.go:84-229 | will do: the target if one is named, online, every selected label with its value and "" for an absent one, enough CPU and memory, the package with room and the capability for it, free GPUs; the winner wastes the least VRAM over all nodes and all choices of GPUs, then leaves the least memory, then the least CPU, then has the first id |
| Selection.ReasonIs | internal/scheduler/scheduler.go:185-214 | the code of a job that must wait names the first thing asked for that no node has together with all before it, in the fields of the nodes |
| Selection.SmallestAreChosen | internal/scheduler/scheduler.go:134-176 | of the GPUs that would do the smallest are chosen, and of equally large ones those whose UUIDs come first |
| Sorting.StringLessIff | internal/scheduler/scheduler.go:215-227 | ids are compared as in a dictionary: at the first place where they part |
| Placement.SelectIsComplete | internal/scheduler/scheduler.go:126-229 | a node is selected if and only if a feasible one exists, and it is lexicographically least in VRAM, memory and CPU waste, then id |
| Placement.CandidateIffFeasible | internal/scheduler/scheduler.go:87-180 | the filter loop makes a candidate of exactly the feasible nodes: those that pass the filters and offer some choice of as many free GPUs as asked for |
| Placement.SelectIgnoresOrder | internal/scheduler/scheduler.go:84-229 | neither the choice nor the reason code depends on the order in which nodes are listed |
| Placement.SelectIsFeasible | internal/scheduler/scheduler.go:87-180 | the winner is online, is the target if one is named, has the CPU, memory, package capacity and free GPUs asked for, and as many GPUs as asked for |
| Placement.GreedyPickIsOptimal | internal/scheduler/scheduler.go:134-179 | no other choice of that many free GPUs with enough memory wastes less VRAM |
| Placement.FirstWasteLeast | internal/scheduler/scheduler.go:134-179 | the exchange argument: the first k of an ascending list waste no more than any k of it |
| Placement.PickIgnoresInventoryOrder | internal/scheduler/scheduler.go:134-140 | the sorted inventory does not depend on the order in which a node reports its GPUs |
| Placement.Evaluate | internal/scheduler/scheduler.go:87-180 | one turn of the filter loop: exactly how many filters the node clears, and the candidate it makes |
| Placement.FilterNodes | internal/scheduler/scheduler.go:85-180 | which filters some node cleared, and all candidates |
| Placement.RequestedGPUs | internal/scheduler/scheduler.go:143-165 | whether all requested GPUs exist and whether all are free |
| Placement.GreedyGPUs | internal/scheduler/scheduler.go:166-176 | the greedy pick and its waste |
| Capacity.Account | internal/capacity/capacity.go:27-53 | the two loops add to every node the CPU and memory asked for by the jobs that occupy it, to every package the CPU asked for on it, and flag exactly the allocated GPUs |
| Capacity.ReserveInSnapshot | internal/scheduler/scheduler.go:257-281 | updates in place exactly the node reserved on: CPU and memory grow by what is asked for, the package named by the CPU, others stay, and the chosen GPUs become busy |
| Capacity.ReservationRefinesAccount | internal/scheduler/scheduler.go:257-281 | one incremental update equals recomputation over the updated jobs and allocations |
| Capacity.PassRefinesAccount | internal/scheduler/scheduler.go:60-81 | after any number of reservations the snapshot still equals recomputation from scratch |
| Capacity.DemandUpdate | internal/capacity/capacity.go:38-52 | changing one job changes a node's demand by exactly the difference of its own |
| Jobs.StepKeepsInv | internal/store/store.go:255-483 | every operation keeps the invariant that ties jobs, attempts, assignments, tokens, numbers and nodes together |
| Jobs.LifecycleEver | internal/store/store.go:335-483 | in every reachable state active jobs have a node and an attempt of their own on it, queued jobs have neither, and attempts are numbered 1, 2, ..., n |
| Jobs.EveryStepIsAnEdge | internal/domain/types.go:544-571 | every step moves every job along a legal transition or from a terminal status back to the queue, and no job row disappears |
| Jobs.TokensEver | internal/store/store.go:924-927 | a job token resolves to at most one job, and only while that job is active and the token's attempt is its current one |
| Jobs.UpdateIsOneLegalCommit | internal/store/store.go:363-415 | under arbitrary interference a status update is what the others did plus at most one legal commit; a commit changes job and attempt together, a failure changes neither |
| StatusUpdates.UpdateReflectsAttempt | internal/store/store.go:363-415 | a successful status update leaves the attempt with the status if and only if the loop did not return early, or the attempt row did not miss the status then; it misses it exactly if there is no attempt, it was accepted after it was last written with its job, or deletion left it alone |
| StatusUpdates.SuccessShowsIff | internal/store/store.go:363-415 | over any state and any interference, the attempt shows the status after a success if and only if there was no early return or the row showed it then |
| StatusUpdates.AttemptShowsIff | internal/store/store.go:372-377 | in every reachable state, which attempts of jobs that show a status do not show it |
| StatusUpdates.RunInStep | internal/store/store.go:335-483 | in every reachable state job and attempt rows are in step, apart from acceptances and deletion |
| StatusUpdates.CancelledInQueueMisses | internal/store/store.go:450-452 | success without any attempt: a job cancelled while queued |
| StatusUpdates.LateAcceptanceMisses | internal/store/store.go:880-899 | success with an attempt that is STARTING: whenever a job shows another status, one late acceptance is enough |
| StatusUpdates.RunningJobExists | internal/store/store.go:335-415 | such a job is reachable: reserved and then reported running |
| StatusUpdates.DeletionMisses | internal/store/store.go:464-483 | success with an attempt that deletion left alone: whenever a job that has ended is deleted |
| StatusUpdates.FailedJobExists | internal/store/store.go:335-415 | such a job is reachable: reserved and then reported failed |
| TwoStatements.StopInTwoIsStopIff | internal/store/store.go:445-462 | reading a job and then writing it as stopping amounts to one stop if and only if, when written, it can still be stopped and has the attempt that was read, or the rows say STOPPING already |
| TwoStatements.StopInTwoIsAnEdgeIff | internal/store/store.go:453-457 | the write is a legal transition if and only if the job can still be stopped, or is stopping, when it is written |
| TwoStatements.StopInTwoKeepsInvIff | internal/store/store.go:453-457 | the lifecycle invariant survives the write if and only if the job has an attempt then, its deletion has not been accepted and its specification has not been wiped |
| TwoStatements.StopInTwoCharges | internal/store/store.go:453-457 | the load of every node afterwards: a job that had ended in between is active again, and its demand is charged to its node once more |
| TwoStatements.StopInTwoFitsIff | internal/store/store.go:453-457 | the write leaves every node within its totals if and only if the job was still active, or its node has room for it once more |
| TwoStatements.StopInTwoStrandsIff | internal/store/store.go:453-457 | after the write no sequence of operations ever changes the job again, if and only if it had no attempt then, as after a rerun, and its deletion has not been accepted |
| TwoStatements.StopStrandsARerunJob | internal/store/store.go:429-462 | a reachable run that strands a job: read for a stop, it fails and is rerun before the stop is written; the invariant is broken |
| TwoStatements.StopOvercommits | internal/store/store.go:335-462 | a reachable run that overcommits a node: a job is read for a stop and fails, another is placed, and the stop is written |
| TwoStatements.CancelInTwoIsStopIff | internal/store/store.go:450-452 | cancelling a queued job looks at the status again: it keeps the invariant, and differs from one stop if and only if the job was placed in between; then nothing is written although success is reported |
| TwoStatements.DeleteInTwoIsOneIff | internal/store/store.go:464-477 | accepting a deletion by reading and then writing is a legal transition, and amounts to one statement, if and only if the job is neither active nor deleted when it is written |
| TwoStatements.DeleteInTwoKeepsInvIff | internal/store/store.go:464-477 | the lifecycle invariant survives that write if and only if the job is not active and its specification has not been wiped; an active job keeps a working token |
| TwoStatements.DeleteInTwoReleases | internal/store/store.go:464-477 | the demand of an active job is no longer counted, and in every later run the job is being deleted or deleted |
| TwoStatements.DeletionOfAPlacedJob | internal/store/store.go:335-477 | a reachable run: a queued job is read for its deletion, is placed, and the deletion is written |
| TwoStatements.LoseInTurnKeepsInv | internal/store/store.go:742-751 | giving up the selected jobs in turn keeps the lifecycle invariant, whatever others do between the statements |
| TwoStatements.LossReleases | internal/store/store.go:743-748 | the two writes for a job that is given up only release, so that capacity and exclusivity are kept |
| TwoStatements.LoseOneAgreesIff | internal/store/store.go:743-748 | the write of the job is a legal transition; after that of the attempt both rows show the same if and only if the job is LOST at that moment |
| TwoStatements.SucceededAttemptIsLost | internal/store/store.go:727-748 | a reachable run in which they do not: a job selected as lost succeeds before it is written, and ends as SUCCEEDED with its attempt LOST |
| Jobs.ActiveIffAuthorised | internal/store/store.go:335-415 | in every reachable state a job answers to some token if and only if it is active |
| Jobs.DrainingHolds | internal/store/store.go:513-521 | a draining node stays so in every run, whatever heartbeats report, until it is resumed, registered again or deleted |
| Jobs.LabelsHold | internal/store/store.go:631-646 | an operator's labels stay in every run, whatever the node reports, until they are replaced |
| Jobs.TransitionFacts | internal/domain/types.go:553-571 | what the transition relation allows: only a reservation starts a run, and a run ends in a terminal status |
| Reports.ReportsTaken | internal/store/store.go:363-415 | status by status, in every reachable state: an undisturbed report succeeds if and only if the job shows it already or has an attempt and is in one of the statuses listed for it; then job and attempt show it and nothing else changes, and otherwise nothing does |
| Reports.GoodRun | internal/domain/types.go:553-571 | a job that is ASSIGNED takes the reports PULLING_IMAGE, STARTING, RUNNING and SUCCEEDED one after the other |
| Reports.LostRaceIsRetried | internal/store/store.go:367-415 | an update that loses its race starts over from what the others have left |
| Reports.JobsByStatus | internal/store/store.go:429-477 | by named statuses: which jobs are rerun, stopped, put to deletion and given up, and what their rows show then |
| Reports.CreationIs | internal/store/store.go:255-259 | when a job is created, and that it is queued and last in order |
| Reports.ReservationIs | internal/store/store.go:335-361 | when a reservation succeeds and exactly what it writes; the attempt gets the number of attempts so far and one more |
| Reports.ReportsAreStored | internal/store/store.go:485-543 | when heartbeats and registrations are stored, and what is kept of the row |
| Reports.OperatorsDo | internal/store/store.go:631-720 | what draining, labelling and deleting a node do, and that a node with jobs on it is not deleted |
| Reports.ReportingKeepsAlive | internal/store/store.go:513-523 | after a heartbeat, marking stale nodes with limits up to its time leaves the node and its jobs alone |
| Reports.SilenceGivesUp | internal/store/store.go:722-752 | a node silent since before the limits goes offline, and the jobs running there are lost |
| JobStore.Store.CreateJob | internal/store/store.go:255-259 | inserts a queued job at the end of the creation order; repeated ids and invalid amounts are refused |
| JobStore.Store.ReserveJob | internal/store/store.go:335-361 | reserves only a queued job, writes job, attempt and assignment together, numbers the attempt one past the greatest |
| JobStore.Store.MaxAttemptNumber | internal/store/store.go:351-351 | the greatest attempt number of a job, 0 if it has none |
| JobStore.Store.CommitStatus | internal/store/store.go:388-411 | compare-and-swap of the job row, then its attempt row, with the token revoked on a terminal status |
| JobStore.Store.UpdateJobStatus | internal/store/store.go:363-415 | the retry loop performs what the loop specification says for any interference before and within each round |
| JobStore.Store.RerunJob | internal/store/store.go:429-443 | only a terminal job goes back to the queue, without node and attempt |
| JobStore.Store.RequestStop | internal/store/store.go:445-462 | reads the job and, whatever others did in between, writes it: a queued one is cancelled if it is still queued, a running or lost one becomes stopping together with the attempt that was read, others conflict |
| JobStore.Store.MarkDeleting | internal/store/store.go:464-477 | reads the job: active ones conflict, deleted ones are left alone, others become deleting whatever others did in between |
| JobStore.Store.MarkDeleted | internal/store/store.go:479-483 | the job becomes deleted and loses its spec |
| JobStore.Store.MarkStaleNodes | internal/store/store.go:722-752 | silent nodes go offline; exactly the jobs on nodes silent for longer are selected, and given up job by job and row by row, with what others do between the statements; undisturbed, it is the atomic operation of the runs |
| JobStore.Store.AcceptAssignment | internal/store/store.go:880-899 | only the node of the assignment can accept it; the attempt is set to starting |
| JobStore.Store.Heartbeat | internal/store/store.go:513-543 | a removed or unknown node is not found, a report that repeats a key is refused, otherwise it replaces the row, keeping DRAINING and an operator's labels |
| JobStore.Store.UpsertNode | internal/store/store.go:485-511 | registers a node or replaces its row, keeping whether it was removed and an operator's labels; a report that repeats a key is refused |
| JobStore.Store.DeleteNode | internal/store/store.go:684-720 | a node with active jobs is kept, otherwise it is marked removed |
| JobStore.Store.SetNodeStatus | internal/store/store.go:669-679 | sets the status of a node that is not removed |
| JobStore.Store.UpdateNodeMetadata | internal/store/store.go:631-646 | puts an operator's labels in place of the reported ones |
| JobStore.Store.AllocatedGPUUUIDs | internal/store/store.go:856-878 | exactly the GPUs named by assignment rows whose job is active, earlier rows included |
| JobStore.Store.JobByToken | internal/store/store.go:924-927 | finds a job if and only if some job's current attempt carries the token |
| Builds.StepKeepsInv | internal/store/build_assignments.go:14-232 | every transaction keeps the multi-table invariant: digests agree, rows agree with builds, event logs replay, no image dangles |
| Builds.NoDanglingImagesEver | internal/store/managed_artifacts.go:15-114 | in every reachable state a job that is not deleted and runs a managed image finds its build succeeded with that digest and the artifact stored |
| Builds.OutcomesAgreeEver | internal/store/builds.go:138-190 | event logs are walks along legal transitions ending in the current status; a closed assignment matches its build's terminal status |
| Builds.SuccessNeedsArtifact | internal/store/build_assignments.go:169-232 | a build succeeds only when the holder of its running, not cancelled assignment completes it with the digest of the stored artifact |
| Builds.TerminalIsFinal | internal/store/builds.go:138-190 | no step changes a terminal build's row or log, except deleting it |
| Builds.TerminalStaysForever | internal/store/builds.go:138-190 | a cancelled or failed build never succeeds later, whatever happens |
| Builds.StepMoves | internal/domain/types.go:573-583 | one step moves a build along one legal transition and appends exactly the new status to its log, or leaves both alone |
| Builds.ArtifactsAreImmutable | internal/store/managed_artifacts.go:15-42 | a stored artifact is never replaced |
| Builds.LeaseIsExclusive | internal/store/build_assignments.go:79-131 | from a claim or renewal until the lease ends, whatever others do, the builder keeps the assignment |
| Builds.HeldExcludesOthers | internal/store/build_assignments.go:86-97 | while a lease is unexpired no other builder is offered the assignment |
| Builds.ClaimOrRenewHolds | internal/store/build_assignments.go:90-131 | a claim or a renewal at a time gives the lease for its full length from then on |
| Builds.LostLeaseStaysLost | internal/store/build_assignments.go:120-184 | a builder that lost an assignment can neither renew nor complete it until it claims it again |
| Builds.WorkIsHandedOn | internal/store/build_assignments.go:80-96 | once the lease of the only open assignment has ended, the next builder that asks, whoever it is, holds it for the full lease |
| Builds.WorkIsNeverStuck | internal/store/build_assignments.go:80-96 | in every reachable state with work that is open and not to be cancelled, once all leases have ended whoever asks is handed some |
| Builds.CollectionLeaves | internal/store/managed_artifacts.go:83-114 | the artifacts left by collection are those referred to since the limit and those whose image an undeleted job runs |
| BuildOutcomes.GoodBuild | internal/store/builds.go:138-190 | in either mode, a build whose builder publishes the artifact and reports success succeeds with its digest, and a job with its image can be submitted |
| BuildOutcomes.CreateIs | internal/store/builds.go:16-33 | a build is created once, with its first event |
| BuildOutcomes.SavePlanIs | internal/store/builds.go:35-58 | a plan is saved once, while the build is analysed |
| BuildOutcomes.UpdateStatusIs | internal/store/builds.go:138-190 | by named statuses: when a status update succeeds, and exactly what it writes |
| BuildOutcomes.QueueIs | internal/store/build_assignments.go:14-79 | when a build is queued, by mode, and the assignment it gets |
| BuildOutcomes.RenewIs | internal/store/build_assignments.go:122-133 | renewing needs to be the builder of a running assignment, and changes only the lease |
| BuildOutcomes.CancellationIs | internal/store/build_assignments.go:135-167 | when cancelling succeeds, and what it does to the build and to pending and running work |
| BuildOutcomes.CompletesIff | internal/store/build_assignments.go:169-232 | exactly which reports about the end of a build's work are accepted |
| BuildOutcomes.CompleteLeaves | internal/store/build_assignments.go:169-232 | what an accepted report leaves: work to be cancelled ends as cancelled whatever is reported, and a build that is building takes the outcome |
| BuildOutcomes.SaveArtifactIs | internal/store/managed_artifacts.go:15-42 | when an artifact is stored, and what of it |
| BuildOutcomes.ValidArtifactIs | internal/domain/validate.go:103-117 | what makes an artifact fit to be stored, character by character, leaving aside media type and timestamps |
| BuildOutcomes.SubmitIs | internal/store/managed_artifacts.go:60-81 | exactly when a job with a managed image is created, and what it refers to then |
| BuildOutcomes.DeleteIs | internal/store/builds.go:192-232 | exactly when a build is deleted, and what goes with it |
| Builds.FailingKeepsAgreementIff | internal/store/builds.go:138-190 | failing a build keeps build and assignment in agreement if and only if the build is not being built |
| Builds.FailingUnderABuilderDisagrees | internal/store/builds.go:138-190 | what goes wrong otherwise: a failed build with a succeeded assignment |
| BuildStore.Store.CreateBuild | internal/store/builds.go:16-33 | performs the specified transaction: a new build in its first status with its first event |
| BuildStore.Store.SaveBuildPlan | internal/store/builds.go:35-58 | performs the specified transaction for plans of Railpack builds |
| BuildStore.Store.QueueBuild | internal/store/build_assignments.go:14-77 | performs the specified transaction: plan present if needed, one assignment per build, status building |
| BuildStore.Store.SelectNext | internal/store/build_assignments.go:86-97 | nothing if and only if every assignment is to be cancelled, closed, or running under another builder whose lease has not ended; otherwise the builder's own if it has one, and else the oldest of the rest |
| BuildStore.Store.NextBuildWork | internal/store/build_assignments.go:79-114 | claims nothing if and only if there is nothing to hand out in that sense, and otherwise what is to be handed out, for the full lease |
| BuildStore.Store.RenewBuildAssignment | internal/store/build_assignments.go:120-131 | renews only for the builder that holds the running assignment |
| BuildStore.Store.RequestBuildCancellation | internal/store/build_assignments.go:133-167 | cancels build and assignment together if the work has not started, otherwise asks the builder to stop |
| BuildStore.Store.CompleteBuildAssignment | internal/store/build_assignments.go:169-232 | performs the specified completion: holder, digest and cancellation checked, outcome recorded on both rows |
| BuildStore.Store.UpdateBuildStatus | internal/store/builds.go:138-190 | performs the specified status change and logs it, refusing illegal transitions |
| BuildStore.Store.SaveManagedArtifact | internal/store/managed_artifacts.go:15-42 | stores an artifact once; a repeated identical save succeeds without change |
| BuildStore.Store.SubmitJob | internal/store/managed_artifacts.go:60-81 | a job with a managed image is created only while the artifact is there, and pins it |
| BuildStore.Store.GarbageCollectManagedArtifacts | internal/store/managed_artifacts.go:83-114 | removes exactly the expired artifacts no undeleted job refers to, row by row |
| BuildStore.Store.DeleteBuild | internal/store/builds.go:192-232 | refused while a job refers to the artifact or work is open; otherwise removes the build and everything under it |
| ManagedReference.ReferenceRoundTrip | internal/domain/managed_artifact.go:12-25 | printing then parsing gives the parts back if and only if they are well formed |
| ManagedReference.ParseIsExact | internal/domain/managed_artifact.go:16-25 | whatever parses as managed is the printed form of what it parses to |
| BuildOutcomes.ImageIs | internal/domain/managed_artifact.go:12-25 | an image is a managed one if and only if it is the scheme, an id without slash and at sign, an at sign and sha256: with 64 lower-case hexadecimal digits; other images without the scheme are not managed |
| Redactor.SingleSecretChunkIndependence | internal/agent/redactor.go:25-59 | with one secret every way of cutting a stream gives the masking of the whole stream, if and only if the secret does not begin with a star or is all stars |
| Redactor.SingleSecretNeverReleased | internal/agent/redactor.go:25-59 | no stream and no chunking releases the secret, if and only if it neither begins nor ends with a star |
| Redactor.RedactionIsSafe | internal/agent/redactor.go:25-59 | for any star-free secrets and any chunking the output has the input's length, contains no secret, and differs only inside genuine occurrences |
| SecretSets.TwoSecretsChunkIndependence | internal/agent/redactor.go:25-59 | two star-free secrets, in the order masked: every way of cutting a stream releases the masking of the whole stream if and only if the second contains the first, or wherever a cut can complete the second inside or in front of the first it leaves the same mask |
| SecretSets.OrderedSecretsChunkIndependence | internal/agent/redactor.go:25-59 | any number of star-free secrets: chunk independence holds if no later secret ever ends before an overlapping earlier one |
| SecretSets.ChunkIndependentIff | internal/agent/redactor.go:25-59 | any number of star-free secrets: every way of cutting a stream releases the masking of the whole stream if and only if masking what is masked already, with more data, is masking all of it at once |
| SecretSets.RemasksIsEnough | internal/agent/redactor.go:25-40 | streaming masks like the whole whenever masking what is masked already, with more data, masks like the whole: holding back one byte less than the longest secret is enough |
| SecretSets.RemaskInOrder | internal/agent/redactor.go:42-59 | for such secrets masking what is masked already, together with more data, is masking all of it at once |
| SecretSets.MaskOver | internal/agent/redactor.go:42-59 | starring bytes outside every occurrence of the secrets does not disturb their masks |
| MaskOrder.TwoSecretsOrderIndependence | internal/agent/redactor.go:11-21 | two star-free secrets mask the same bytes of every stream in either order if and only if, where one contains the other, it is a row of copies of it, and, where one leads into the other, the other occurs at its beginning as well |
| MaskOrder.OrderMatters | internal/agent/redactor.go:42-59 | a pair whose order matters: of two overlapping secrets the one masked first wins |
| MaskOrder.AnyOrderMasksAlike | internal/agent/redactor.go:11-21 | any number of star-free secrets, no two of which depend on their order: every order masks the same bytes |
| Redactor.SeveralSecretsDependOnChunks | internal/agent/redactor.go:25-59 | an example of a pair that does depend on the chunking |
| Redactor.RedactsAsScan | internal/agent/redactor.go:25-59 | one secret, any chunking: the output is a left-to-right scan of the whole stream |
| Redactor.ScanMarks | internal/agent/redactor.go:42-59 | masking writes only stars, and only inside an occurrence |
| Redactor.ScanCleans | internal/agent/redactor.go:42-59 | a secret that neither begins nor ends with a star is gone after masking |
| Redactor.ScanResumes | internal/agent/redactor.go:25-40 | holding back one byte less than the longest secret is enough: masking can be resumed from there |
| Redactor.StarLedSecretDependsOnChunks | internal/agent/redactor.go:25-59 | a secret that begins with a star is masked differently when cut between two copies |
| Redactor.StarLedSecretLeaks | internal/agent/redactor.go:42-59 | a star-led secret can be released in full |
| Redactor.StarTailedSecretLeaks | internal/agent/redactor.go:42-59 | a secret that ends in stars can be released in full |
| Redactor.Index | internal/agent/redactor.go:47-50 | the first occurrence of a secret, or -1 |
| Redactor.StreamRedactor.constructor | internal/agent/redactor.go:11-24 | keeps the non-empty values and the longest length |
| Redactor.StreamRedactor.Mask | internal/agent/redactor.go:42-59 | overwrites in place, secret by secret, what the specification masks |
| Redactor.StreamRedactor.Push | internal/agent/redactor.go:25-40 | releases and holds back exactly what the specification says |
| Redactor.StreamRedactor.Flush | internal/agent/redactor.go:41-41 | releases the masked rest and holds nothing |
| Checkpoint.TransferIsFaithful | internal/filestore/filestore.go:821-952 | under any loss, delay, duplication or partial delivery staged files are prefixes of the source files, and a promoted generation holds exactly the source's files with the source's bytes |
| Checkpoint.ConfirmedIffNoEmptyFile | internal/filestore/filestore.go:892-952 | once the client has uploaded everything, confirmation succeeds if and only if no source file is empty |
| Checkpoint.GenerationHasNoEmptyFile | internal/agent/agent.go:823-829 | a directory with an empty file is never promoted: its empty files are never sent |
| Checkpoint.OffsetsIncrease | internal/agent/agent.go:858-862 | an accepted reply moves the client strictly forward within the file, never past its end |
| Checkpoint.TakeKeepsOk | internal/agent/agent.go:795-866 | each step of client, network and server keeps: staged bytes are prefixes, replies name durable offsets, promoted means equal to the source |
| Checkpoint.AppendRespectsLimit | internal/filestore/filestore.go:853-886 | from within the quota an append stays within it if and only if its read does not fail together with exactly the first byte beyond it; beyond the quota it changes no total |
| Checkpoint.OneByteBeyondLimit | internal/filestore/filestore.go:876-885 | the extra byte does occur, for every store with room left |
| Checkpoint.ConfirmConserves | internal/filestore/filestore.go:892-952 | promotion moves files without changing the bytes used, and confirming again changes nothing |
| Checkpoint.GenerationsAreImmutable | internal/filestore/filestore.go:889-903 | no append and no confirmation changes a promoted generation |
| Checkpoint.ConfirmIs | internal/filestore/filestore.go:892-952 | a generation is confirmed if and only if it has been already, or the files staged for it are those of the manifest with their sizes; then exactly they are promoted |
| Checkpoint.RequestCarries | internal/agent/agent.go:831-845 | a request carries the next mebibyte of the file, or what is left of it |
| CheckpointFiles.FileStore.DirectorySize | internal/filestore/filestore.go:1240-1259 | the sum of the sizes of all files, whatever order they are met in |
| CheckpointFiles.FileStore.AppendCheckpoint | internal/filestore/filestore.go:821-887 | creates the file, checks the offset, appends within the quota and truncates what exceeds it, as specified |
| CheckpointFiles.FileStore.MatchManifest | internal/filestore/filestore.go:911-946 | accepts if and only if every named file is staged with its size and nothing else is staged |
| CheckpointFiles.FileStore.ConfirmCheckpoint | internal/filestore/filestore.go:892-952 | an existing generation is confirmed again without change; otherwise a matching staging directory is moved as a whole |
| CheckpointFiles.UploadFile | internal/agent/agent.go:823-862 | the loop ends however the network behaves; success means the file is staged in full; without faults it succeeds if and only if nothing is missing or the rest fits the quota |
| CheckpointFiles.SendChunk | internal/agent/agent.go:839-857 | up to five attempts, taking an offset beyond the current one even from an error reply |
| CheckpointFiles.Synchronise | internal/agent/agent.go:757-866 | success means the promoted generation is the source; without faults, starting from nothing, it succeeds if and only if no file is empty and all of them fit the quota |
| LogTail.TailShowsWrites | internal/httpapi/log_stream.go:172-211 | end to end, from any line or in tail mode: what the tail sends is a run of consecutive non-empty writes of the agent, in the order in which it made them, beginning just behind those recorded before the first line that it sees whole |
| LogTail.CursorSeesLines | internal/httpapi/log_stream.go:134-173 | every id sent is the start of a line, so reconnecting with it is covered by that result |
| LogTail.TailModeWants | internal/httpapi/log_stream.go:134-173 | without cursor and offset the tail wants every event of a log of at most 256 KiB, and of a longer one those whose lines begin behind the first newline in its last 256 KiB |
| LogTail.CursorStartsThere | internal/httpapi/log_stream.go:139-173 | with a cursor, or else an offset, it begins there, or at the end if that is beyond it, and skips nothing |
| LogTail.LineNames | internal/httpapi/log_stream.go:192-200 | which lines name a frame; others are passed over |
| LogTail.EventsAppend | internal/httpapi/log_stream.go:183-196 | reading on: the events of a longer log are those of its beginning, then those of the unfinished line together with what was appended |
| LogTail.ReconnectYieldsTheRest | internal/httpapi/log_stream.go:134-173 | reconnecting with the id of any frame sent gives exactly the frames behind it, however the first connection began |
| LogTail.StopsOnlyForMissingFrames | internal/httpapi/log_stream.go:201-206 | the tail stops if and only if the next frame is empty or its stream has not arrived |
| LogTail.EmptyFrameStopsForGood | internal/httpapi/log_stream.go:134-211 | an event for no bytes: however the logs grow, neither the connection that meets it nor one that resumes at the id of an earlier event sends anything from it on |
| LogTail.EmptyWriteHides | internal/agent/agent.go:590-613 | were an empty frame written, nobody who follows the log from its beginning would get it or anything behind it |
| LogTail.ProducedNames | internal/agent/agent.go:590-620 | each record in a produced order log names the bytes of its write, and is empty exactly if the write was |
| LogTail.PayloadIff | internal/filestore/filestore.go:661-684 | a frame can be read if and only if it is not empty and its stream has arrived |
| LogTail.Tail.constructor | internal/httpapi/log_stream.go:134-173 | where a tail begins and whether it skips a partial line |
| LogTail.Tail.HandleLine | internal/httpapi/log_stream.go:192-210 | one line: the frame it names is sent, or the tail stops at it |
| LogTail.Tail.Split | internal/httpapi/log_stream.go:186-211 | handles all complete lines pending and keeps the unfinished one |
| LogTail.Tail.Poll | internal/httpapi/log_stream.go:175-211 | one read: everything complete that was read has been sent, or the tail stopped at the first frame it could not read |
| LogTail.Tail.Follow | internal/httpapi/log_stream.go:174-221 | the same after any number of reads of a growing log |
| LogTail.Writer.AppendOrdered | internal/agent/agent.go:590-613 | appends the data to its stream and then a record with its offsets and the next sequence number |
| LogTail.Writer.WriteAll | internal/agent/agent.go:590-613 | writing frame by frame produces the logs that the end-to-end result is about |
| Grid.CompactWidgets | internal/httpapi/dashboard_templates.go:605-633 | terminates for widgets of valid size; sorts them into reading order and puts each into the first free slot |
| Grid.PackedIsUnique | internal/httpapi/dashboard_templates.go:605-633 | first-fit in a given order determines the packing |
| Grid.PackedIsDisjoint | internal/httpapi/dashboard_templates.go:613-631 | packed widgets lie inside twelve columns and no two of them overlap |
| Grid.PackedInCoordinates | internal/httpapi/dashboard_templates.go:605-644 | in coordinates: packed widgets keep to the twelve columns and lie beside or below each other, and none could be moved up, or to the left in its row, without meeting one placed before |
| Grid.ReadsInRows | internal/httpapi/dashboard_templates.go:605-612 | the reading order is row by row, and from left to right in a row |
| Grid.PackedHeight | internal/httpapi/dashboard_templates.go:613-631 | the packing is no higher than the widgets stacked on each other |
| Grid.PackedIsValid | internal/httpapi/dashboards.go:523-528 | up to 64 packed widgets stay within the limits that validation sets for positions |
| Grid.AreaAvailable | internal/httpapi/dashboard_templates.go:635-644 | free if and only if no cell of the area is taken |
| Grid.FindSlot | internal/httpapi/dashboard_templates.go:613-631 | the unbounded search ends, at the first free slot in reading order |
| Sorting.SortIsStable | internal/httpapi/dashboard_templates.go:607-612 | elements that tie keep their order |
| Sorting.SortedIsUnique | internal/httpapi/dashboard_templates.go:368-373 | sorting forgets the input order as long as ties are equal elements |
| Grid.ReadingOrder | internal/httpapi/dashboard_templates.go:606-612 | sorting into reading order loses and adds nothing, and widgets at the same position keep their order |
| Hierarchy.ValidHierarchy | internal/httpapi/tables.go:271-304 | accepts if and only if the rows have unique non-empty ids, non-negative values and known parents, and every id reaches a root |
| Hierarchy.Search.Cyclic | internal/httpapi/tables.go:282-295 | the memoised search ends and reports a cycle if and only if the node reaches no root |
| Hierarchy.CycleMissesRoot | internal/httpapi/tables.go:282-295 | a node on a cycle of parent links never reaches a root |
| Hierarchy.ForestIff | internal/httpapi/tables.go:271-304 | rows are accepted if and only if there are some, each has an id of its own, a parent and a value that is not negative, every parent named is there, and nobody is their own ancestor |
| Hierarchy.RootsIffAcyclic | internal/httpapi/tables.go:279-304 | with all parents known, everybody reaches a root if and only if there is no cycle |
| Hierarchy.RootExists | internal/httpapi/tables.go:296-298 | the separate test for a root is implied when rows exist and each reaches a root |
| Hierarchy.ReadRows | internal/httpapi/tables.go:221-229 | None if and only if a row is malformed or repeats an id |
| Hierarchy.CountRoots | internal/httpapi/tables.go:272-279 | None if and only if some parent is unknown |
| Matrix.TotalIsConserved | internal/httpapi/rich_observations.go:617-662 | block means weighted by their counts add up to the sum of all values |
| Matrix.CellInOneBlock | internal/httpapi/rich_observations.go:635-655 | every cell lies in exactly one block |
| Matrix.MissingIffAllMissing | internal/httpapi/rich_observations.go:641-655 | a reduced cell is missing if and only if all cells of its block are |
| Matrix.ReducedIsSmall | internal/httpapi/rich_observations.go:622-636 | the reduced matrix has at least one and at most the target number of rows and columns |
| Matrix.ResolveResolution | internal/httpapi/rich_observations.go:617-662 | reduces exactly the heatmaps larger than the target, otherwise returns the matrix as it is |
| Matrix.AggregateLabels | internal/httpapi/rich_observations.go:664-678 | labels match the new dimension, each naming the first and last label of its block; lists of another length are dropped |
| Distribution.SummaryIsSound | internal/httpapi/rich_observations.go:425-462 | the five numbers are in order, the mean lies between the extremes, the whiskers do not cross, and the outliers are the first 128 values beyond the fences |
| Distribution.HistogramIsSound | internal/httpapi/rich_observations.go:463-488 | the histogram counts every value exactly once, in a bin whose bounds contain it |
| Distribution.QuantileMonotone | internal/httpapi/rich_observations.go:433-441 | interpolated quantiles grow with the fraction and stay between the extremes |
| Distribution.QuantileIs | internal/httpapi/rich_observations.go:433-441 | a quantile divides the step between two neighbouring values in proportion to where it falls |
| Distribution.FarValues | internal/httpapi/rich_observations.go:442-463 | the whiskers are the outermost values within one and a half quartile distances, and the outliers are exactly the others, the first 128 of them |
| Distribution.BinCountIs | internal/httpapi/rich_observations.go:464-473 | the number of bins: as asked for, or the square root of the count rounded up, from 5 to 64 |
| Distribution.BinsFollow | internal/httpapi/rich_observations.go:474-482 | the bins follow each other from the least to the greatest value with equal widths |
| Distribution.Summarise | internal/httpapi/rich_observations.go:425-462 | the loops compute the specified summary |
| Distribution.Histogram | internal/httpapi/rich_observations.go:463-488 | bins of equal width, counted in place |
| Distribution.BuildView | internal/httpapi/rich_observations.go:425-488 | the view of any non-empty sample is the summary and the histogram of its sorted values |
| Templates.ResolutionIgnoresCatalogOrder | internal/httpapi/dashboard_templates.go:357-449 | the whole resolution does not depend on the order of the catalogue when kinds and names are distinct |
| Templates.BestIsMaximal | internal/httpapi/dashboard_templates.go:497-520 | the candidates of a slot are exactly the eligible sources with the maximal optional-tag score |
| Templates.CandidatesHaveMostTags | internal/httpapi/dashboard_templates.go:497-520 | the same in tags: the sources of an allowed kind with all required tags that have the most of the optional ones |
| Templates.UnresolvedIs | internal/httpapi/dashboard_templates.go:521-534 | when a slot is incompatible and when it is missing |
| Templates.CatalogIsOrdered | internal/httpapi/dashboard_templates.go:365-373 | the catalogue is searched by kind and then by name |
| Templates.OverrideSelects | internal/httpapi/dashboard_templates.go:468-495 | an override selects what it names, with the role of the slot, by kind and then by name |
| Templates.ResolvedIff | internal/httpapi/dashboard_templates.go:521-534 | a slot is resolved if and only if it has candidates and their number is within its cardinality; then it selects all of them |
| Templates.FillSelects | internal/httpapi/dashboard_templates.go:389-397 | whatever resolves a slot selects at least one source and a number within its cardinality |
| Templates.SlotOrderIsIrrelevant | internal/httpapi/dashboard_templates.go:383-431 | listing the slots of a widget in another order gives the same status, and the same decision whether its overrides fit |
| Templates.StatusIgnoresOrder | internal/httpapi/dashboard_templates.go:404-431 | the status depends only on what became of the slots |
| Templates.StatusMeans | internal/httpapi/dashboard_templates.go:389-431 | in the fields of slots: a widget is unresolved if and only if some slot is ambiguous, or missing or incompatible and not allowed to be empty, without asking for omission; otherwise omitted if and only if a slot asks for that or there are no sources; and resolved if and only if all its slots are |
| Templates.StatusesMean | internal/httpapi/dashboard_templates.go:383-443 | every widget of a template has the status that means this, and exactly the resolved and partial ones are kept, with the sources of their slots |
| Templates.WorstIs | internal/httpapi/dashboard_templates.go:404-426 | folding the slot outcomes gives the worst of them |
| Templates.CompatibilityIsWorst | internal/httpapi/dashboard_templates.go:433-440 | incompatible if and only if some widget is unresolved, compatible if and only if all are resolved |
| Templates.ResolveSlot | internal/httpapi/dashboard_templates.go:497-535 | the single pass with a running best score gives the candidates and the status |
| Templates.ValidateOverride | internal/httpapi/dashboard_templates.go:468-495 | accepts if and only if the override names different candidates within the cardinality; the result is in order |
| Templates.IndexOverrides | internal/httpapi/dashboard_templates.go:374-381 | None if and only if an override is malformed or repeats a slot |
| Templates.OverridesAcceptedIff | internal/httpapi/dashboard_templates.go:374-447 | a template resolves if and only if every override belongs to a slot of it and names something, no two belong to the same one, and each names different candidates of its slot, as many as that takes |
| Templates.ResolveSlots | internal/httpapi/dashboard_templates.go:383-431 | the loop over the slots of a widget computes results, sources, the status that says what became of the slots, and whether the widget is omitted |
| Templates.ResolveTemplate | internal/httpapi/dashboard_templates.go:357-449 | the loop over the widgets gives the specified resolution or an override error, and packs exactly the kept widgets |

## Left out

- Jobs.StepKeepsInv: in a run, reports have no negative amounts and do not shrink a node, which is the assumption of the capacity results; `Ledger.ReportKeepsFitIff` states what a report must offer, and the store's own methods accept any report.
- Jobs.EveryStepIsAnEdge: in a run stopping, accepting a deletion and marking stale nodes are one atomic step each; `TwoStatements` says exactly when several statements keep to that, and what they do otherwise.
- StatusUpdates.AttemptShowsIff: likewise, so that a late write of LOST is not among its cases; `TwoStatements.LoseOneAgreesIff` has it.
- JobStore.Store.RequestStop: the writes of the job row and of its attempt row are one step.
- Selection.SelectNode: what it means in the fields of nodes is stated for nodes whose GPUs have different UUIDs, as the key of their table demands.
- Progress.QuietPassLeavesNothing: the ids and tokens drawn during the pass are taken to be new.
- JobStore.Store.CreateJob: of the validation of a job only the positive CPU and memory amounts are modelled, because they are what the capacity results need.
- CheckpointFiles.FileStore.AppendCheckpoint: appends to one file are taken one at a time; two requests handled at the same moment are not modelled.
- CheckpointFiles.FileStore.ConfirmCheckpoint: path cleaning is left out; paths are names that either are or are not equal.
- Templates.ResolveSlot: tags are taken as already normalised lists.
- Builds.StepKeepsInv: a status update is limited to the statuses its callers use, and failing a build to the time before its plan is saved.
- Grid.CompactWidgets: with more than twelve columns the search in the service would not end; validation excludes such sizes, and so does the precondition.
- Matrix.ResolveResolution: rows without columns are excluded, as by the validation of published matrices; the service would divide by zero on them.
- Distribution.Summarise: rounding, density curves and the truncated sample list.
- HTTP, authentication, the event-stream framing, the command line and the web client.
- SQL text, constraints beyond keys, and timestamps as text: tables are maps, times are integers, and each store method is one transaction unless it is said above that it is not.
- Machine integers: offsets, sizes and sums are unbounded, so wrap-around is not modelled.
- Encryption, hashing and random tokens: tokens and ids are fresh values that are checked for being unused.
- Columns that no modelled decision reads: messages, exit codes, desired status, queue reasons, CPU sets, workspace sizes, node names.
- The builder's log uploader, the agent's plain log synchronisation and the size-limited plain log append.
- Telemetry compaction, container and image handling, GPU discovery, field-by-field validators.
- Repeated packing of a packed dashboard, which is not claimed to change nothing.
