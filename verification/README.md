# A verified model of the DevOps toolkit backend

This project models the parts of the backend that carry state, concurrency or
parsing, and proves what they promise. Each source file that works by changing
things step by step is a class or a method with loops, proved against a function
on values; what is promised is then proved about that function, over every input,
every run or every interleaving.

| file | models |
|---|---|
| `PipelineModel`, `PipelineExecutor`, `PipelineFake` | the step events of one run, and the two executors that emit them through `recordStepEvent` |
| `PipelineSteps`, `PipelineRows`, `PipelineFinished` | step events folded into rows through the two process-wide caches, any number of executor runs interleaved act by act |
| `PipelineRuns`, `PipelineService` | the run row under one `executeRun` goroutine and any number of concurrent `Cancel` calls |
| `PipelineStrategy` | blue-green, canary and rolling plans, and what they gate |
| `PhysicalHosts`, `AlertDispatch` | monitor and maintenance state machine, audit trail, realtime events, alert suppression |
| `AsyncWriter`, `BufferedEmitter`, `MultisetSums` | the two bounded-queue worker pools as step systems, and their drain on close |
| `ProjectTree` | flat project list to tree |
| `Cidr` | addresses of a network by in-place increment |
| `GoStrings`, `PrometheusText`, `AlertDsl` | the two text parsers and their printers |
| `LogQuery`, `LocalLogs`, `LogService` | the cached local log backend and the service in front of it |
| `MetricsCache` | the bounded metrics cache |
| `Decimal`, `Integers`, `Options` | decimal numerals, small arithmetic, optional values |

Concurrent code is a datatype `State`, a function `Next` that performs one atomic
action if it is enabled and otherwise changes nothing, and a fold `After` over a
list of actions. Every list of actions is then a schedule, every interleaving is
one of them, and a theorem over all lists is a theorem over all interleavings.

`dafny verify dfyconfig.toml` checks everything.

## What turned out not to hold

The code was followed where it and its comments differ. Each item is proved.

- A terminal run status is not always final: `PipelineRuns.FinalExactly` says exactly
  when it is, `TerminalIsOverwritten` which action overwrites one, and
  `CancelCanBeLost` and `SucceededCanBeLost` give schedules.
- `AsyncInfluxWriter.Close` drains everything exactly if no `Enqueue` stands
  between its check and its send when `stopped` is set
  (`AsyncWriter.DrainGuaranteedIffNonePending`).
- An `Emit` between the two halves of `BufferedEmitter.Close` can be accepted and
  lost (`BufferedEmitter.OverlappingEmitCanBeLost`); delivery is guaranteed exactly
  once the channel is closed and either empty or still has a worker
  (`BufferedEmitter.DeliveryGuaranteedExactly`).
- `buildNode` does not return if root is its own ancestor, and returns in every
  other case (`ProjectTree.TerminatesExactly`, `SelfParent`).
- `CIDRRange` never ends on the whole IPv4 space, and on no other network
  (`Cidr.LoopEnds`); an IPv6 network that holds the IPv4-mapped addresses without being
  among them is cut off at the first of them, and a /31 or /32 yields no address
  although its comment says it is returned as it is (`Cidr.RangeIsExact`).
- A label value escaped as the Prometheus format says reads back exactly if it has
  no backslash and no newline (`PrometheusText.FormatRoundTrip`).
- `Degraded` tells the truth about truncation exactly if the limit in force is
  positive or at most 50 entries matched (`LogService.DegradedIffTruncated`).
- `itoa` of the least int64 is a bare minus sign (`LogService.Itoa`).
- A log query with an upper time bound only is always rejected
  (`LogService.RejectedForRange`).
- `Check` on a host in maintenance does not probe and leaves the failure counter;
  `ExitMaintenance` keeps the counter (`PhysicalHosts.StateClosedForm` accounts
  for both).

## Model

| member | source | states |
|---|---|---|
| `PipelineModel.RunsOnlyAfterSuccess` | internal/pipeline/executor.go:201-259 | in any run with distinct step names, a step gets its running event only after every earlier step has a succeeded event |
| `PipelineModel.NothingRunsAfterFailure` | internal/pipeline/executor.go:239-255 | after a failed or cancelled event a run emits nothing but skips |
| `PipelineModel.RunningPosition` | internal/pipeline/executor.go:206-231 | where a running event can stand, whose it is, and that the closing events of all earlier steps precede it |
| `PipelineExecutor.LocalExecute` | internal/pipeline/executor.go:201-259 | for every emitter, context and shell behaviour, the emitted events are those of a run, each by what the config and the command say: steps passed up to the first that does not, and the returned error is that step's |
| `PipelineExecutor.LocalStep` | internal/pipeline/executor.go:206-256 | one turn of the loop: the step passes exactly if the context is live, the running event is taken and the command succeeds; otherwise what is emitted and returned |
| `PipelineExecutor.EventSink.Emit` | internal/pipeline/service.go:508-513 | the emitter logs the call, records the event as far as the repository serves it, and answers as the repository does: on a consistent store recording adds no failure |
| `PipelineExecutor.EventSink.SkipFrom` | internal/pipeline/executor.go:246-251 | every remaining step is reported skipped, in order, whatever the emitter answers |
| `PipelineExecutor.Closing` | internal/pipeline/executor.go:223-255 | a step is reported succeeded exactly if it is a shell step whose command ran without error and with exit code 0, and cancelled only for a context error |
| `PipelineExecutor.ClosingReports` | internal/pipeline/executor.go:223-286 | by the config and the command's own answer: a shell step with a command that is not blank reports that answer, with its exit code and capped output; a blank or missing one, or another step type, fails with exit code -1 |
| `PipelineExecutor.LocalRunEvents` | internal/pipeline/executor.go:201-259 | a local run has the shape that all protocol theorems are about |
| `PipelineFake.Fake.Execute` | internal/pipeline/executor.go:78-148 | the second executor emits a prefix of the events of a run of the same shape, all of them unless the emitter fails; exactly when it succeeds, and when it counts as canceled |
| `PipelineFake.Fake.FailAt` | internal/pipeline/executor.go:113-132 | the failure, then skips in order, until the emitter refuses one |
| `PipelineFake.FakeRunsInOrder` | internal/pipeline/executor.go:78-148 | a step of the fake runs only after all earlier steps succeeded, wherever its emitter stopped it |
| `PipelineSteps.KeysInjective` | internal/pipeline/service.go:611-619 | run IDs hold no separator, so cache keys and order keys of different (run, step) pairs differ, whatever the step is called |
| `PipelineSteps.StepStore.PrimeStepOrder` | internal/pipeline/service.go:534-544 | the order cache after the loop |
| `PipelineSteps.StepStore.EnsureStepRun` | internal/pipeline/service.go:621-669 | the row is found in the cache or created once with the primed order, else the place in the pipeline; an unknown run, or a pipeline that is needed and gone, is an error and changes nothing |
| `PipelineSteps.StepStore.UpdateStepRunStatus` | internal/pipeline/repository.go:326-345 | the columns written, the finish time for a terminal status only; a missing row is reported and nothing is written |
| `PipelineSteps.StepStore.RecordStepEvent` | internal/pipeline/service.go:601-607 | ensure, then update: the whole new store, and when it fails |
| `PipelineSteps.IndexOf` | internal/pipeline/service.go:644-653 | the first step of that name, or -1 if there is none |
| `PipelineSteps.NewRowOrder` | internal/pipeline/service.go:630-653 | a new row has the order it was primed with under its literal cache key, else its place in the pipeline |
| `PipelineSteps.EnsureFails` | internal/pipeline/service.go:621-669 | exactly when no row can be made, and that nothing changes then |
| `PipelineRows.DoKeepsConsistent` | internal/pipeline/service.go:601-669 | cache and table stay inverse to each other under priming, ensuring and updating |
| `PipelineRows.OneRowPerStep` | internal/pipeline/service.go:609-669 | a (run, step) never has two rows |
| `PipelineRows.RunsDoNotInterfere` | internal/pipeline/service.go:534-669 | in any interleaving of the single acts of any runs, the lock released between ensure and update, the store shows of a run what its own acts alone produce |
| `PipelineRows.RowsFollowEvents` | internal/pipeline/service.go:534-669 | between any two acts: a step has a row exactly if it got an event or was just ensured; the row is unique, keeps the primed order and shows the last event and finish time |
| `PipelineRows.PendingExactly` | internal/pipeline/service.go:601-607 | a row reads pending exactly between the ensuring and the updating of its first event |
| `PipelineRows.RowsOfFinishedRun` | internal/pipeline/service.go:534-669 | after a whole run among others: which steps have rows, with their index as order and their last event; the run has no other rows |
| `PipelineRows.LastEventOfStep` | internal/pipeline/executor.go:201-259 | the last event of each step of a run: succeeded before the end, then failed and skips, or cancelled, or none |
| `PipelineRows.PrimedOrder` | internal/pipeline/service.go:534-544 | the primed order of a name is an index that carries it, and its last |
| `PipelineFinished.RecordingNeverFails` | internal/pipeline/service.go:601-669 | in no interleaving of executor runs does recordStepEvent fail by itself: every ensure finds or makes its row, every update finds it |
| `PipelineFinished.RowsAtAnyTime` | internal/pipeline/service.go:482-669 | at any moment of any interleaving the rows of a run are those of a prefix of its executor's events, and perhaps one pending row more |
| `PipelineFinished.FinishedRunReads` | internal/pipeline/executor.go:201-259 | the rows of a finished run read succeeded throughout, or succeeded, one failed and the rest skipped, or succeeded and one cancelled, as the executor's error says, each with its index as order |
| `PipelineFinished.DrivenEnding` | internal/pipeline/executor.go:201-259 | with an emitter that does not fail the executor ends in exactly those three ways |
| `PipelineFinished.ReplayIsScript` | internal/pipeline/service.go:499-515 | priming and executing performs exactly the acts the interleaving theorems are about |
| `PipelineRuns.Repository.CreateRun` | internal/pipeline/repository.go:142-147 | a new pending row |
| `PipelineRuns.Repository.UpdateRunStartedAt` | internal/pipeline/repository.go:281-293 | start time and running, unguarded by the old status; a missing row is reported |
| `PipelineRuns.Repository.UpdateRunStatus` | internal/pipeline/repository.go:258-276 | status, duration, message, and the finish time only for a terminal status |
| `PipelineRuns.Repository.UpdateRunFinished` | internal/pipeline/repository.go:298-313 | status, finish time, duration, message: last writer wins |
| `PipelineRuns.InvariantHolds` | internal/pipeline/service.go:420-527 | the invariant of Trigger, executeRun and any number of Cancel calls, in every interleaving of their repository calls, map accesses and cancel() |
| `PipelineRuns.TerminalAfterFinish` | internal/pipeline/service.go:500-527 | from the final write on, and in every quiescent state, the row is terminal: the verdict, or cancelled if a Cancel in flight at that write has written since |
| `PipelineRuns.VerdictStands` | internal/pipeline/service.go:482-527 | with no Cancel in flight at the final write, the status is exactly the executor's verdict, whatever happens afterwards |
| `PipelineRuns.FinalWrite` | internal/pipeline/service.go:515-527 | in every interleaving the final write is the row the executor's error calls for, field by field, with the time since the goroutine's start |
| `PipelineRuns.ProgressShown` | internal/pipeline/service.go:482-500 | in every interleaving, before that write the row reads pending, then running since the goroutine's start, or cancelled by a Cancel that has returned |
| `PipelineRuns.CancelOfFinishedRun` | internal/pipeline/service.go:675-690 | a Cancel that reads a terminal row changes neither row nor context, then or later |
| `PipelineRuns.CancelledNeedsCancel` | internal/pipeline/service.go:482-717 | a run never ends cancelled without a cancel signal or a late Cancel |
| `PipelineRuns.FinalExactly` | internal/pipeline/service.go:482-717 | a terminal status can never change again if and only if the final write is done and the row is cancelled or no Cancel is in flight, or the executor has returned Canceled |
| `PipelineRuns.TerminalIsOverwritten` | internal/pipeline/repository.go:258-313 | exactly which actions take a terminal row to another status |
| `PipelineRuns.CancelCanBeLost` | internal/pipeline/service.go:675-717 | a completed Cancel and a run that ends succeeded |
| `PipelineRuns.SucceededCanBeLost` | internal/pipeline/service.go:675-717 | a run shown succeeded that ends cancelled |
| `PipelineService.Service.Trigger` | internal/pipeline/service.go:420-471 | replies, and the row and registration it makes: the first two actions of the protocol |
| `PipelineService.Service.ExecuteRun` | internal/pipeline/service.go:482-527 | the run row from the step outcomes, the order cache primed, every event recorded in the step rows, the map entry gone; nothing at all if the row is missing |
| `PipelineService.Service.Cancel` | internal/pipeline/service.go:675-717 | the four protocol actions of Cancel in sequence, for any state of the goroutine, with all other rows untouched |
| `PipelineService.ExecutedAlone` | internal/pipeline/service.go:482-527 | the run row of executeRun is the one its five protocol actions leave |
| `PipelineService.RecordedIsScript` | internal/pipeline/service.go:482-527 | with a repository that serves every call, executeRun performs exactly the script of the interleaving theorems |
| `PipelineService.VerdictAgreesWithRows` | internal/pipeline/service.go:515-527 | the run succeeded exactly if all its step rows did; a cancelled run has a cancelled row, a failed one a failed or cancelled one |
| `PipelineService.ExecutedRowIs` | internal/pipeline/service.go:515-527 | that row field by field: status by the error, times, duration, and a message of at most 1024 characters for a failure only |
| `PipelineService.PlannedStepReports` | internal/pipeline/executor.go:223-275 | a planned step of any strategy always has a command, so its closing event is that command's answer |
| `PipelineStrategy.ValidateCanary` | internal/pipeline/strategy.go:133-143 | accepted exactly if there is a stage and the stages strictly ascend |
| `PipelineStrategy.CanaryPlan` | internal/pipeline/strategy.go:147-161 | one deployment, then one phase per stage, in order |
| `PipelineStrategy.RollingPlan` | internal/pipeline/strategy.go:187-209 | the plan for any instance count and surge, none for no instances; the loop ends |
| `PipelineStrategy.PlanBatches` | internal/pipeline/strategy.go:193-208 | the loop of the rolling planner against the batches defined by position |
| `PipelineStrategy.BatchesPartition` | internal/pipeline/strategy.go:187-209 | every instance 1..N is in exactly one batch |
| `PipelineStrategy.BatchShapes` | internal/pipeline/strategy.go:175-209 | batches are adjacent and non-empty, all but the last of size ceil(N*pct/100), ceil(N/size) of them and at most ceil(100/pct) |
| `PipelineStrategy.CountIsCeiling` | internal/pipeline/strategy.go:187-209 | the batch count is the ceiling of N/size |
| `PipelineStrategy.PlanForPipeline` | internal/pipeline/strategy.go:215-231 | which planner a strategy gets; an unknown one is an error |
| `PipelineStrategy.ResolveSteps` | internal/pipeline/service.go:564-594 | the planned phases as steps, then the user's steps |
| `PipelineStrategy.NoPlan` | internal/pipeline/service.go:564-570 | without a plan the user's steps alone |
| `PipelineStrategy.BlueGreenCommands` | internal/pipeline/service.go:582-594 | the four shell commands of a blue-green pipeline, by text: deploy and smoke-test the inactive environment, switch traffic to it, tear down the active one; then the user's steps |
| `PipelineStrategy.CanaryCommands` | internal/pipeline/service.go:582-594 | the shell commands of a canary pipeline, by text: deploy the candidate, then shift each stage's share of traffic to it; then the user's steps |
| `PipelineStrategy.RollingCommands` | internal/pipeline/service.go:582-594 | the shell commands of a rolling pipeline, by text: ranges of instances from 1 to N without gap or overlap, of the surge share rounded up, 20 percent by default; then the user's steps |
| `PipelineStrategy.CanaryNamesDistinct` | internal/pipeline/strategy.go:147-161 | an ascending canary plan has no two phases of one name |
| `PipelineStrategy.RollingNamesDistinct` | internal/pipeline/strategy.go:187-209 | nor has a rolling plan |
| `PipelineStrategy.BlueGreenNamesDistinct` | internal/pipeline/strategy.go:102-111 | nor has a blue-green plan |
| `PipelineStrategy.ResolvedNamesDistinct` | internal/pipeline/service.go:564-594 | the resolved steps have distinct names exactly if the user's have and none is that of a phase |
| `PipelineStrategy.FloatCeilAgrees` | internal/pipeline/strategy.go:188 | below 2^53 the float quotient rounds up to the integer ceiling |
| `PipelineStrategy.UserStepsAreGated` | internal/pipeline/service.go:564-575 | over any run of a pipeline, a user step starts only after every planned phase succeeded |
| `PipelineStrategy.TrafficAscends` | internal/pipeline/strategy.go:133-161 | of two stages, named by their phases, that start in a run of an accepted canary, the later to start has the larger traffic share |
| `PipelineStrategy.FailureStopsTheRollout` | internal/pipeline/executor.go:239-255 | if a phase fails or is cancelled, the run never starts anything but the phases up to it |
| `PhysicalHosts.HostTable.CheckHost` | internal/physicalhost/monitor.go:121-211 | the saved record, the published change and the reply of one Check, the maintenance and write-failure cases included |
| `PhysicalHosts.HostTable.EnterMaintenance` | internal/physicalhost/maintenance.go:86-139 | host fields, audit event and reply |
| `PhysicalHosts.HostTable.ExitMaintenance` | internal/physicalhost/maintenance.go:144-200 | host fields, the audit event with its duration, and reply |
| `PhysicalHosts.StateClosedForm` | internal/physicalhost/monitor.go:121-189 | the state after any operations, in closed form over the history and the configured threshold itself: offline from that many failures on, or from 3 where none is configured |
| `PhysicalHosts.CheckTimes` | internal/physicalhost/monitor.go:121-158 | an accepted check, in or out of a hold, records its time and the next one after the configured interval |
| `PhysicalHosts.HoldFields` | internal/physicalhost/maintenance.go:86-200 | what entering and leaving maintenance writes, and what it leaves alone |
| `PhysicalHosts.OtherHosts` | internal/physicalhost/monitor.go:121-211 | no operation touches another host; without the write, or without the host, nothing changes |
| `PhysicalHosts.CheckDuringHold` | internal/physicalhost/monitor.go:134-152 | a Check during a hold changes the check times and nothing else |
| `PhysicalHosts.AuditAccounts` | internal/physicalhost/maintenance.go:86-200 | enter and exit events alternate, one more enter exactly during a hold, every exit carries its window's length, and the durations sum to the time held |
| `PhysicalHosts.ChangesChain` | internal/physicalhost/monitor.go:164-226 | between maintenance actions the published changes lead from the old state to the new without gap or repeat |
| `PhysicalHosts.OnlyPermittedChanges` | internal/physicalhost/monitor.go:164-226 | over any run only four changes are ever published, never online to offline, and state is maintenance exactly while MaintenanceStartedAt is set |
| `AlertDispatch.AlertService.DispatchChannels` | internal/alerts/service.go:430-481 | one synthetic log dispatch, then the existing enabled listed channels in order, without external ones when suppressed; the stamped row |
| `AlertDispatch.ExternalOnlyOutsideHold` | internal/alerts/service.go:430-481 | after any interleaving with monitoring and maintenance, a firing for a physical host reaches an external channel only while its enters and exits balance |
| `AlertDispatch.LogRespectsHolds` | internal/alerts/service.go:430-481 | over any interleaving, every entry of the dispatch log that took a physical host's alert to an external channel was written at a moment with balanced enters and exits |
| `AlertDispatch.NothingElseIsWithheld` | internal/alerts/service.go:457-480 | every other enabled listed channel gets the alert |
| `AlertDispatch.StampedMeans` | internal/alerts/service.go:430-455 | an alert is suppressed and marked exactly if it is of a physical host on hold |
| `AlertDispatch.ReceiverOfOne` | internal/alerts/service.go:457-480 | one listed channel gets the alert once, if it exists, is enabled and, for a suppressed alert, is a log channel |
| `AlertDispatch.ReceiversConcat` | internal/alerts/service.go:457-480 | and a list gets it channel by channel, in order |
| `AlertDispatch.HostsEvolveAlone` | internal/physicalhost/maintenance.go:75-81 | firing alerts never touches a host |
| `AsyncWriter.ConservationHolds` | internal/physicalhost/async_writer.go:85-144 | in every interleaving: sent = buffered + held + flushed, the buffer within capacity, and every accepted Enqueue sent, dropped or pending |
| `AsyncWriter.NoDropWithinCapacity` | internal/physicalhost/async_writer.go:114-123 | over every schedule: the channel is first in, first out, and no sample is dropped as long as no more were accepted than the configured buffer holds |
| `AsyncWriter.DropsWhenFull` | internal/physicalhost/async_writer.go:118-122 | the drop counter moves only at a pending send that finds the buffer full, by one |
| `AsyncWriter.EnqueueFate` | internal/physicalhost/async_writer.go:114-123 | over every schedule: an Enqueue checked before stopped is accepted, stays pending until its send, and there joins the end of the buffer if there is room and is dropped if not |
| `AsyncWriter.NothingAcceptedAfterStop` | internal/physicalhost/async_writer.go:114-117 | once stopped is set nothing is accepted any more |
| `AsyncWriter.SizesStay` | internal/physicalhost/async_writer.go:48-83 | capacity and worker count are the configured ones, or 256 and 1, in every reachable state |
| `AsyncWriter.CloseDrains` | internal/physicalhost/async_writer.go:138-144 | if nothing was pending when stopped was set, then on return the buffer is empty and flushed + dropped = accepted |
| `AsyncWriter.DrainGuaranteedIffNonePending` | internal/physicalhost/async_writer.go:114-144 | a complete drain is guaranteed exactly if no Enqueue is pending at that moment |
| `AsyncWriter.WorkersCanFinish` | internal/physicalhost/async_writer.go:85-103 | after stop the workers can always run to their end |
| `AsyncWriter.WorkerProgress` | internal/physicalhost/async_writer.go:85-103 | every move of a worker after stop brings its end closer |
| `AsyncWriter.AsyncInfluxWriter.EnqueueCheck` | internal/physicalhost/async_writer.go:114-117 | the stopped check |
| `AsyncWriter.AsyncInfluxWriter.EnqueueSend` | internal/physicalhost/async_writer.go:118-123 | the non-blocking send, or the drop counter |
| `AsyncWriter.AsyncInfluxWriter.WorkerStep` | internal/physicalhost/async_writer.go:85-103 | one move of a worker, either way its select goes |
| `AsyncWriter.AsyncInfluxWriter.Close` | internal/physicalhost/async_writer.go:138-144 | the second call does nothing; the first ends every worker and, if none was pending, drains |
| `BufferedEmitter.DeliveredWasAccepted` | internal/audit/emitter.go:138-201 | in every interleaving: attempts = accepted + dropped, delivered is within accepted, and a prefix of it with one worker |
| `BufferedEmitter.NoDropWithinCapacity` | internal/audit/emitter.go:138-160 | over every interleaving: no event is dropped as long as there were no more Emits than the configured buffer holds |
| `BufferedEmitter.DropsWhenFull` | internal/audit/emitter.go:138-160 | the drop counter moves only at an Emit on an open channel that is full, by one |
| `BufferedEmitter.EmitFate` | internal/audit/emitter.go:138-160 | over every interleaving: an Emit on the open channel is accepted if there is room and dropped if not; on the closed one it panics and changes nothing else |
| `BufferedEmitter.CloseDeliversAll` | internal/audit/emitter.go:165-201 | if no Emit was accepted between the halves of Close, on return delivered = accepted, in order with one worker, despite the early way out of the drain loop |
| `BufferedEmitter.DeliveryGuaranteedExactly` | internal/audit/emitter.go:138-201 | for every capacity, worker count and reachable state: whatever follows, delivered = accepted on return, if and only if the channel is closed and is empty or still has a worker |
| `BufferedEmitter.GuaranteedFromClose` | internal/audit/emitter.go:165-174 | without an Emit accepted in between, exactly from the closing of the channel on |
| `BufferedEmitter.OverlappingEmitCanBeLost` | internal/audit/emitter.go:138-174 | an Emit between the halves of Close can be accepted and lost |
| `BufferedEmitter.InvariantHolds` | internal/audit/emitter.go:138-201 | the invariant of the step system, in every interleaving |
| `BufferedEmitter.WorkerProgress` | internal/audit/emitter.go:177-201 | once the channel is closed every move of a worker brings its end closer |
| `BufferedEmitter.Emitter.Emit` | internal/audit/emitter.go:138-160 | accepted, dropped, or a panic on the closed channel |
| `BufferedEmitter.Emitter.WorkerStep` | internal/audit/emitter.go:177-201 | one move of a worker |
| `BufferedEmitter.Emitter.Close` | internal/audit/emitter.go:165-174 | every worker ends; without overlap everything accepted is delivered |
| `ProjectTree.BuildTree` | internal/project/tree.go:31-59 | nil exactly if root is absent; otherwise a tree whose every child list is exactly the rows of that parent, sorted by name |
| `ProjectTree.TreeBuilder.BuildNode` | internal/project/tree.go:64-77 | the recursion ends and builds such a tree, sorting shared child lists in place |
| `ProjectTree.TreeBuilder.SortKids` | internal/project/tree.go:70-72 | one child list sorted in place, nothing lost from any list |
| `ProjectTree.TreeBuilder.constructor` | internal/project/tree.go:51-57 | the map from parent to child rows |
| `ProjectTree.TreeIsExact` | internal/project/tree.go:31-77 | flattened, the tree is root and exactly its descendants, each once |
| `ProjectTree.TerminatesExactly` | internal/project/tree.go:64-77 | the recursion ends if and only if root is not its own ancestor; cycles elsewhere do no harm |
| `ProjectTree.FinishesWithin` | internal/project/tree.go:64-77 | the call depth is at most the number of rows not yet on the stack |
| `ProjectTree.CycleNeverFinishes` | internal/project/tree.go:64-77 | on a cycle through root no depth is enough |
| `ProjectTree.SelfParent` | internal/project/tree.go:64-77 | one row that is its own parent: the recursion never ends |
| `ProjectTree.LessMeans` | internal/project/tree.go:70-72 | the order of names is that of a dictionary: by the first character that differs, a prefix first |
| `Cidr.IncIP` | internal/discovery/scanner.go:107-114 | the in-place loop against the carry on the byte sequence |
| `Cidr.IncAddsOne` | internal/discovery/scanner.go:104-114 | that carry adds 1 modulo 256^n, for every length n |
| `Cidr.BroadcastIP` | internal/discovery/scanner.go:119-126 | a fresh slice with every host bit set; the network is left alone |
| `Cidr.BlockExactly` | internal/discovery/scanner.go:91-126 | bitwise masks as arithmetic: a block of h host bits is exactly the 2^h addresses from its network address on, the broadcast address last |
| `Cidr.ContainsByBlock` | internal/discovery/scanner.go:91 | net.IPNet.Contains with its cut to four bytes: membership in the block, except that a network outside the IPv4-mapped addresses contains none of them |
| `Cidr.MappedExactly` | internal/discovery/scanner.go:91 | the IPv4-mapped addresses are the 2^32 from ::ffff:0:0 on |
| `Cidr.CIDRRange` | internal/discovery/scanner.go:83-102 | for every IPv4 and IPv6 network but the whole IPv4 space the loop ends with exactly the addresses of the range, given by the address's value and the prefix alone |
| `Cidr.RangeIsExact` | internal/discovery/scanner.go:83-102 | with h host bits and base = v - v mod 2^h, v the value of the given address: the 2^h - 2 addresses with values base+1, base+2, ...; none for h < 2; in an IPv6 block that reaches into the IPv4-mapped addresses, those below them; and these are the contained addresses other than network and broadcast |
| `Cidr.NetworkIs` | internal/discovery/scanner.go:91-92 | the network address has the value v - v mod 2^h, and its block holds the address it was made from |
| `Cidr.LastByteRange` | internal/discovery/scanner.go:83-102 | a /24 lists the addresses with the same first three bytes, .1 to .254, in order |
| `Cidr.LoopEnds` | internal/discovery/scanner.go:91 | the loop condition ever fails if and only if the network is not the whole IPv4 space |
| `Cidr.GuardExact` | internal/discovery/scanner.go:91 | it fails after exactly the 2^h addresses, also when the last one wraps to zero, or at the first mapped address of a cut block |
| `PrometheusText.ParseLabels` | internal/metrics/scraper.go:238-277 | the index loop ends on every input and computes the recursive reading of the label set |
| `PrometheusText.ValueRoundTrip` | internal/metrics/scraper.go:260-274 | a value with its quotes escaped reads back, whatever follows, if and only if it does not end in a backslash |
| `PrometheusText.FormatRoundTrip` | internal/metrics/scraper.go:233-277 | a value escaped as the format says reads back if and only if it holds no backslash and no newline |
| `PrometheusText.LabelsRoundTrip` | internal/metrics/scraper.go:238-277 | any list of labels with spaces, commas, braces, equals signs and quotes in its values reads back |
| `PrometheusText.SampleRoundTrip` | internal/metrics/scraper.go:192-277 | a printed sample parses to its name, labels and value |
| `PrometheusText.LineReads` | internal/metrics/scraper.go:192-277 | a line written out by text, with two labels, reads as its name, labels and value |
| `PrometheusText.CollectsAll` | internal/metrics/scraper.go:238-277 | with distinct keys the map holds every label printed and no other |
| `PrometheusText.AcceptedExactly` | internal/metrics/scraper.go:192-211 | which lines are samples: a space, a number after the last one, and a head that does not start with a brace |
| `AlertDsl.IndexOp` | internal/alerts/dsl.go:115-129 | the first operator between blanks, or -1 if there is none |
| `AlertDsl.ValidMetricName` | internal/alerts/dsl.go:140-155 | non-empty and nothing but letters, digits, underscores and dots |
| `AlertDsl.ParseDSL` | internal/alerts/dsl.go:58-109 | the result or the error of every text |
| `AlertDsl.AcceptedExactly` | internal/alerts/dsl.go:58-109 | what is accepted and as what, without a word about operator order |
| `AlertDsl.OneOperator` | internal/alerts/dsl.go:66-129 | an accepted text has exactly one operator between blanks |
| `AlertDsl.OrderIrrelevant` | internal/alerts/dsl.go:66-72 | trying the operators in any other order never changes a successful result |
| `AlertDsl.ConditionRoundTrip` | internal/alerts/dsl.go:32-48 | parsing a printed condition gives it back: every name, every operator, every finite float64 |
| `AlertDsl.IntegerRoundTrip` | internal/alerts/dsl.go:38-48 | integer thresholds up to 2^53 print as plain decimals and read back |
| `AlertDsl.ReprintIsStable` | internal/alerts/dsl.go:32-109 | printing an accepted text and parsing again changes nothing |
| `AlertDsl.OperatorsMean` | internal/alerts/dsl.go:58-175 | each operator as written gives a condition that holds of exactly the values above, below, at least, at most or equal to the threshold |
| `AlertDsl.BoundedMeans` | internal/alerts/dsl.go:115-135 | where an operator counts: its characters, between blanks or at the ends |
| `AlertDsl.NothingToRead` | internal/alerts/dsl.go:58-109 | which texts are rejected as empty, and which for want of an operator |
| `GoStrings.TrimIs` | internal/alerts/dsl.go:59 | trimming takes white space from both ends, all of it and nothing else |
| `LogQuery.FilterEntries` | internal/logs/local.go:296-315 | exactly the matching entries, in order |
| `LogQuery.MatchFilters` | internal/logs/local.go:320-328 | true exactly if every filter passes |
| `LogQuery.OperatorsMean` | internal/logs/local.go:346-364 | what each filter operator says of the field, and that any other never holds |
| `LogQuery.MatchesMeans` | internal/logs/local.go:296-344 | which entries match: time bounds, the text in any letter case anywhere in the message, and every filter on the field it names |
| `LogQuery.MatchingConcat` | internal/logs/local.go:296-315 | filtering goes entry by entry, in order |
| `LogQuery.SortStable` | internal/logs/local.go:96-101 | the in-place sort computes the stable sort |
| `LogQuery.StableSortedIsStable` | internal/logs/local.go:96-101 | ordered by time, and for every time the same entries in the same order |
| `LogQuery.StableSortUnique` | internal/logs/local.go:96-101 | there is no other such arrangement |
| `LocalLogs.Local.Append` | internal/logs/local.go:71-80 | the entry, stamped if it has no time, and the cache dropped |
| `LocalLogs.Local.Scan` | internal/logs/local.go:157-187 | cached snapshot or fresh scan plus all appended entries, in a slice of the caller's own; errors change nothing |
| `LocalLogs.Local.Query` | internal/logs/local.go:88-128 | the answer of the specification, with the cache uncorrupted by the sort |
| `LocalLogs.StepsMean` | internal/logs/local.go:71-187 | every case of an append and a query: stamping, answering from a scan less than five seconds old, scanning anew, failing without a change |
| `LocalLogs.AnswerExactly` | internal/logs/local.go:88-128 | the answer is the limit-prefix of the stable sort of the matching entries, oldest first only if asked so, and Total counts them all |
| `LocalLogs.HeldWasRead` | internal/logs/local.go:157-187 | over any run, what is cached was read from disk by some query with no append since |
| `LocalLogs.QuerySeesEverything` | internal/logs/local.go:71-187 | over any run, a query answers over a disk state less than five seconds old plus every entry appended so far |
| `LogService.Service.Query` | internal/logs/service.go:155-234 | rejected before the backend, or its answer for the clamped limit, degraded exactly if that limit is positive and exceeded |
| `LogService.DegradedIffTruncated` | internal/logs/service.go:212-222 | the flag equals truncation if and only if the limit is positive or at most 50 entries matched |
| `LogService.SilentTruncation` | internal/logs/service.go:214 | fifty-one matches without a limit: one is cut and the flag stays down |
| `LogService.RejectedForRange` | internal/logs/service.go:161-178 | which queries are turned away for their range, over all bounds, given or not |
| `LogService.RejectedForText` | internal/logs/service.go:179-193 | which are turned away for their length or for looking structured |
| `LogService.ServedAs` | internal/logs/service.go:158-206 | what the backend gets of any other: the last day by default, now for a missing bound, the limit clamped, the rest as it came |
| `LogService.StructuredMeans` | internal/logs/service.go:239-252 | a text looks structured exactly if it holds a field wildcard, or AND or OR in any case between spaces |
| `LogService.Itoa` | internal/logs/service.go:254-274 | the buffer index stays in range and the result is the decimal numeral, except for the least int64 |
| `Decimal.ShowRoundTrip` | internal/logs/service.go:254-274 | a decimal numeral denotes the number it was made from |
| `MetricsCache.Cache.StoreEntry` | internal/physicalhost/cache.go:121-134 | at capacity one arbitrary other entry goes, then the new one is in |
| `MetricsCache.Cache.GetOrCollect` | internal/physicalhost/cache.go:79-108 | fresh hit, collected, stale or unavailable, and what is stored in each case |
| `MetricsCache.Cache.Invalidate` | internal/physicalhost/cache.go:138-142 | only that host's entry goes |
| `MetricsCache.StoreMeans` | internal/physicalhost/cache.go:121-134 | one other entry goes only if the host is new and the cache full, and nothing else changes |
| `MetricsCache.CacheIsCurrent` | internal/physicalhost/cache.go:121-142 | over any interleaving of stores and invalidations: within bound, and an entry is the last one stored for that very host and not invalidated since |

## Left out

- UUIDs, row IDs and creation times: row IDs come from a counter, run IDs are any strings without the separators.
- Repository errors of the run row: every write is taken to succeed; a missing row is modelled in the repository class. Step-row calls and host writes may fail.
- PipelineService.Service.ExecuteRun: runs uninterrupted; interleavings with Cancel are in PipelineRuns, where the executor is one action with an arbitrary verdict, and interleavings of the step rows in PipelineFinished.
- PipelineFinished.FinishedRunReads: the repository serves every call, and the environment of each run is fixed beforehand though arbitrary.
- PipelineService.Service.Trigger: the audit record, the triggering user and the spawning itself, which is the next action of the protocol.
- PipelineRows.RowsOfFinishedRun: assumes distinct step names; without them PipelineRows.RowsFollowEvents still holds.
- PipelineStrategy.RollingPlan: uses the integer ceiling; by PipelineStrategy.FloatCeilAgrees that is the float one for fewer than 2^53 instance-percents, beyond which it is not modelled.
- PipelineStrategy.BatchShapes: the same.
- PipelineFake.Fake.Execute: waiting on Block and sleeping are answers of the context.
- PhysicalHosts.HostTable.CheckHost: probe, tenant lookup and the metrics sink are parameters or absent; each call is atomic; the default interval of one minute is 60 time units.
- The PUT path of a physical host, which can set State freely: with it the state invariants do not hold.
- AlertDispatch.AlertService.DispatchChannels: errors of the dispatcher, which the code only logs.
- AsyncWriter.AsyncInfluxWriter.Close: no Enqueue moves while the method waits; those interleavings are in the step system.
- AsyncWriter.WorkersCanFinish: fairness is not modelled; that a worker returns is proved as a measure that every move lowers.
- BufferedEmitter.Emitter.Close: no Emit moves while the method waits, which the step system allows; concurrent callers of Close beyond the first wait on sync.Once and are not separate actions; recovering a panic and the inner emitter are absent.
- ProjectTree.TreeBuilder.SortKids: sort.Slice is an insertion sort of the same contract; IDs are distinct, as a primary key makes them.
- Cidr.CIDRRange: net.ParseCIDR is given as its four or sixteen address bytes and prefix length, and addresses stay bytes instead of text.
- PrometheusText.SampleRoundTrip: strconv.ParseFloat is a parameter; splitting the body into lines, comments and type lines is absent.
- AlertDsl.ConditionRoundTrip: strconv is a pair of parameters with what it promises; NaN and the infinities are excluded, and a float beyond the int64 range is taken not to equal its conversion.
- Strings are sequences of characters, one per byte; white space of strings.TrimSpace and letter case are those of ASCII.
- LocalLogs.Local.Query: labels, free fields, the regex filter (always false in the code), parsing of log files and the double-checked lock; each call is atomic.
- LogService.Service.Query: the limits map and the other backends.
- MetricsCache.Cache.GetOrCollect: the collector answers at once; races are covered by the run theorem over stores and invalidations.
- HTTP handlers, configuration, tracing, GORM and SQL, Kubernetes, LDAP, JWT, SSH, InfluxDB, Elasticsearch and Loki clients: plumbing or libraries.
- Create, update and list operations, enum validity, pagination, health roll-up, alert acknowledge and resolve: no hard property.
