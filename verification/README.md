# Cluster readiness engine: a verified model

The NVIDIA Cluster Readiness Engine (NVCRE) certifies GPU clusters. Its controllers share one
pattern: a persisted status object, in-memory state that a restart loses, writes that may conflict or
get lost, and a cluster that moves between any two API calls. This project models the parts of those
controllers that are hardest to get right and proves what every run of them keeps.

Most modules are state machines. A *run* is a `Trace` of steps of the controller and of its
environment; `Run` gives the state after a trace, and the theorems hold for every trace. The versions
of a status object are kept as a sequence, and a reconcile may read any of them, not only the last
one. Where the source edits an object, a slice or a map in place, the model has a class or a loop
whose `ensures` ties it to a function, and the theorems are about that function.

| module | what it models |
|---|---|
| `StatusWrites` | `updateStatusWithRetry`: a conflict refetches and applies the callback again |
| `BudgetClock` | a Job's run-time budget, paused while its pods cannot be scheduled |
| `WorkloadProtocol` | creating, recording, adopting, observing and restarting a workload |
| `WorkloadConditions` | exactly when that protocol keeps to own workloads and to one restart per workload |
| `WorkloadVerdicts` | what each read decides about its Job: success, failure, restart or nothing |
| `RestartTargets` | which workload a restart deletes, and when the restart is written |
| `RejectionDeadline` | how long a refused create is retried |
| `FailureCause` | which container failure is reported, and the tail of its log |
| `Interruptions` | restart detection and the reschedule and resume times of a goodput measurement |
| `InterruptionTimes` | what the two times of each credited interruption measure |
| `InterruptionCharges` | when each restart is charged as one interruption |
| `StepAccounting` | training time summed over overlapping log windows |
| `TerminalCap` | the final log sample, cut off at the Job's terminal transition |
| `LogPager` | reading a finished container's log page by page |
| `BandwidthAggregate` | per-size bandwidth averages, running and final |
| `BandwidthVerdict` | from provisional samples to the results a Job is judged by |
| `CertificationSequence` | the sequence of categories of a Certification |
| `CertificationOutcome` | the reads of Workflows that the categories' results are decided from |
| `CertificationProgress` | that a Certification reaches every outcome of its Workflows |
| `WorkflowOwnership` | which Workflows a Certification records and deletes |
| `WorkflowDecisions` | what each step of that decides, and that the finalizer completes |
| `EnvToken` | the string hashed into a Workflow's name |
| `Parallelism` | node counts against minimum GPUs, TP, PP and EP, in 32-bit arithmetic |
| `ScopedCache` | the guard in front of a cache of labelled objects |
| `EventNote` | UTF-8-safe truncation of event notes |
| `Utf8` | valid UTF-8 as the encodings of Unicode characters |

`dafny verify dfyconfig.toml` checks the whole project.

## Where the code does less than one would expect

Each of these is a lemma that builds the run or the input, and beside it stands the exact condition
under which the property does hold.

- A Job's reference is a name. Once a stranger takes the name, the Job takes over the stranger's
  verdict and its restart deletes the stranger's workload (`VerdictMayBeAStrangers`,
  `RestartMayDeleteAStrangers`). Verdicts and deletes keep to own workloads if and only if each read a
  verdict is decided from and each holder that is deleted passes the owner check that the create path
  makes (`OwnThroughoutIff`); they do so in every run without strangers (`NoStrangersMeansOwn`).
- A Job may adopt a workload whose reference it has given up: one that is still terminating, or one
  whose delete was skipped because a cached read missed it. One failure then spends two restarts
  (`OneFailureMaySpendTwoRestarts`, `SkippedDeleteSpendsTwoRestarts`). References are for pairwise
  distinct workloads if and only if this never happens (`CleanThroughoutIff`), and then there are no
  more restarts than own workloads (`RestartsWithinWorkloads`).
- A restart may delete a healthy replacement, for the delete names no UID and the read it was decided
  on may be behind: after a committed restart (`RestartMayDeleteReplacement`), or without one and with
  every read in order (`FirstRestartMayDeleteReplacement`). Every delete hits the workload its restart
  was decided on if and only if, at each delete, the holder has the UID that read returned
  (`OnTargetThroughoutIff`); then nothing is deleted that was not seen failed or stalled
  (`OnTargetDeletesEnded`). It is so in every run in which nobody else takes the name and no observation
  shows a workload that has been replaced (`CurrentReadsHitTarget`).
- A restart whose write meets a conflict deletes the workload, leaves the reference, and leaves the text
  of the restart's condition behind (`ConflictStrandsRestart`). A restart is written if and only if the
  copy is the stored version and the condition does not name this restart yet (`RestartCommitsIff`), so
  from there on nothing is written however often the Job is reconciled (`StuckStays`), until the
  Workflow times the Job out.
- A create attempt decided from a stale version may fail a Job whose workload was accepted in the
  meantime (`StaleAttemptMayFailAcceptedJob`). The deadline it enforces is the stored one if and only
  if no create was accepted since the version it read (`DeadlineIsStoredIff`).
- A restarted controller that reads a status from before an interruption was credited credits it
  again (`StaleRecoveryCreditsTwice`; the condition is exact: `RecoveryIsExact`).
- An interruption that is found but kept in memory only, after a lost write or a failed log read, is
  credited and then found and credited again, so one restart is charged twice
  (`OneRestartCreditedTwice`, `LostRecordCreditsTwice`). The count covers the interruptions there are,
  throughout a run, if and only if each one that stayed in memory alone found room
  (`CoveredThroughoutIff`), and then there are no more credits than restarts (`ChargedOncePerRestart`).
- A capped window may have a first step and no last one; the parser keeps only the last 100 steps
  (pkg/goodput/parser.go) (`FirstWithoutLast`, an if and only if).
- A reconcile of a Certification that is one version behind may leave it terminally failed with a
  running category, a state that no later reconcile leaves (`StaleFailureStrands`); `WriteKeepsInvIff`
  says exactly when a write keeps the stored status in order. It may also take back a Succeeded
  condition (`StaleProgressUndoesPass`); `RunStaysPassedIff` says exactly when Succeeded stays.
- The holder of a Workflow name may be replaced before the name is recorded
  (`RecordedNameMayBeForeign`); the holder is ours if and only if it is still the Workflow that was
  made or read (`RecordedHolderIsOursIff`). A Workflow whose name was never recorded outlives the
  finalizer (`UnrecordedWorkflowSurvives`); a live Workflow outlives it if and only if its name is not
  on the list (`SurvivesIff`).
- The validator accepts every node count when a node has no GPUs, while the solver may find none
  (`ValidatorAcceptsWithoutGPUs`; exactly when: `ChecksAgreeIff`, `ChecksAgreeWithoutGPUs`).
- The suggestion for more nodes may not divide, because products wrap (`WrappedSuggestionIsWrong`); it
  is the documented one if and only if no count on the way to it is distorted by wrap-around
  (`SuggestionIsNearestIff`). On the way down products never wrap (`BelowNeverWraps`).
- The cache guard also refuses `>` and `<` on the required label, which would be complete
  (`ComparisonIsRefused`); without them it is exact (`GuardIsExact`).
- A bandwidth measurement without the Job-UID annotation may judge a Job by the log of an earlier Job
  of the same name (`UnannotatedMayJudgeAnother`). The results, once final, stay, and they were read for
  the instance they judge if and only if the Job was not replaced since (`JudgedInstanceIff`). Its wait
  for the final read may be cut short (`UnannotatedWaitMayEnd`), exactly if a running Job is measured in
  the meantime (`WaitHeldIff`).
- The comment of `ReadAll` (pkg/podlogs/pager.go:63-76) promises every line exactly once. A log whose
  clock steps back loses a line, and the read succeeds (`OutOfOrderLosesLine`). A read that succeeds has
  visited the whole log if and only if no page left behind a line of an earlier second than the next
  page starts from (`ReadIsWholeIff`). No page size does so if and only if the log is ordered by second;
  order within a second does not matter (`WithdrawsIff`, `StepBackLosesLine`). An ordered log may still
  be refused, for a stated reason (`OrderedReadsInFull`, `LongFirstLineUnread`).

## Model

| member | source | states |
|---|---|---|
| StatusWrites.Server.UpdateStatusWithRetry | pkg/controller/status.go:108-135 | a written version is the callback applied to the version stored right before it, or to the caller's copy if that was still current; other writers' versions are all kept; a lone writer always succeeds; failure means the attempts ran out or a call failed |
| BudgetClock.JobClock.ResumeFromSchedulingBlock | pkg/controller/job_controller.go:1211-1225 | the start moves forward by the pause, counted from the later of marker and start; the marker goes |
| BudgetClock.BudgetConserved | pkg/controller/job_controller.go:1211-1225 | after any chronological history, the budget charged is exactly the number of seconds since first seen running in which no marker was set |
| BudgetClock.TimeoutIsExact | pkg/controller/workflow_controller.go:1266-1290 | to the nanosecond, a Job times out if and only if its active time, or the episode it is in, exceeds the timeout |
| BudgetClock.StartupStallAnchor | pkg/controller/job_controller.go:1251-1268 | the anchor is the latest of the base time and the two Job times |
| BudgetClock.StartupBudgetIsActive | pkg/controller/job_controller.go:1251-1268 | every second the startup-stall check charges from that anchor on is an active second |
| BudgetClock.StartAfterFirst | pkg/controller/job_controller.go:1211-1225 | the stored start never precedes the second the workload was first seen running |
| WorkloadProtocol.ProtocolSafety | pkg/controller/job_controller.go:428-557 | in every interleaving: restart count monotone, at most the maximum and equal to the references given up; references recorded only for an owned workload; a name collision only with a stranger; success only from a seen finished workload; nothing after a terminal status |
| WorkloadProtocol.RunKeepsInv | pkg/controller/job_controller.go:740-775 | the invariant behind it holds between any two API calls of a reconcile |
| WorkloadProtocol.RestartsCountClearings | pkg/controller/job_controller.go:1426-1489 | clearing the reference and counting the restart commit together, so the count is the number of clearings |
| WorkloadProtocol.VerdictMayBeAStrangers | pkg/controller/job_controller.go:778-855 | a run in which the Job succeeds by a stranger's workload |
| WorkloadProtocol.RestartMayDeleteAStrangers | pkg/controller/job_controller.go:1429-1440 | a run in which a restart deletes a stranger's workload |
| WorkloadProtocol.OneFailureMaySpendTwoRestarts | pkg/controller/job_controller.go:500-531 | a run in which one workload fails once and two restarts are spent |
| WorkloadVerdicts.ObserveDecides | pkg/controller/job_controller.go:778-920 | in every run, the status stored after a read of the workload: Failed if and only if the workload has failed, or started and stalls, and no restart is left or allowed; Succeeded if and only if it has finished; a restart is decided if and only if it has ended and one is left and allowed; a missing one is confirmed first |
| WorkloadVerdicts.ConfirmDecides | pkg/controller/job_controller.go:740-775 | in every run, a missing workload fails the Job, or restarts it, if and only if a live read finds none either, by whether a restart is left and allowed |
| WorkloadVerdicts.HolderDecides | pkg/controller/job_controller.go:500-557 | in every run, a create that finds its name taken adopts the holder if and only if that is the Job's own, and fails the Job if and only if it is a stranger's that is not terminating |
| WorkloadVerdicts.CreateDecides | pkg/controller/job_controller.go:485-557 | in every run, a create makes and records a workload if and only if it is not refused and the name is free |
| WorkloadVerdicts.DeleteDecides | pkg/controller/job_controller.go:1426-1489 | in every run, what a restart deletes, and that it goes on to its write unless the delete fails |
| WorkloadVerdicts.ReconcileDecides | pkg/controller/job_controller.go:428-483 | a reconcile does nothing with a terminal version, looks at a recorded workload, and creates one otherwise |
| WorkloadVerdicts.TimeoutDecides | pkg/controller/workflow_controller.go:1266-1290 | the timeout of the Workflow fails a Job that has not ended and leaves one that has |
| WorkloadConditions.StepOwnIff | pkg/controller/job_controller.go:778-855 | a step keeps to own workloads if and only if the verdict it decides was read from one and the holder it deletes is one |
| WorkloadConditions.OwnThroughoutIff | pkg/controller/job_controller.go:778-855 | over every run: verdicts come from, and deletes hit, own workloads if and only if each such read and each such holder passes the owner check |
| WorkloadConditions.OwnVerdicts | pkg/controller/job_controller.go:778-855 | in such runs every stored success and failure was read from an own workload |
| WorkloadConditions.NoStrangersMeansOwn | pkg/controller/job_controller.go:428-557 | in every run in which nobody else takes the name, all workloads, verdicts and deletes are the Job's own |
| WorkloadConditions.StepCleanIff | pkg/controller/job_controller.go:485-527 | a step keeps recorded workloads distinct if and only if it adopts none that was given up |
| WorkloadConditions.CleanThroughoutIff | pkg/controller/job_controller.go:485-527 | over every run: references are for pairwise distinct workloads if and only if no create adopted a workload given up before |
| WorkloadConditions.ReadoptionRepeats | pkg/controller/job_controller.go:520-557 | such an adoption, once written, records the same workload twice |
| WorkloadConditions.RestartsWithinWorkloads | pkg/controller/job_controller.go:1426-1489 | without such adoptions, restarts plus a held reference are at most the own workloads ever made |
| WorkloadConditions.SkippedDeleteSpendsTwoRestarts | pkg/controller/job_controller.go:1429-1440 | a run in which a skipped delete lets a broken workload be adopted and spends a second restart |
| RestartTargets.StepTargetIff | pkg/controller/job_controller.go:1429-1440 | a step keeps every delete on its target if and only if a holder it deletes has the UID that the deciding read returned |
| RestartTargets.OnTargetThroughoutIff | pkg/controller/job_controller.go:1429-1440 | over every run: each delete hits the workload its restart was decided on if and only if at each delete the holder has that UID; a restart decided on a missing workload must find the name empty |
| RestartTargets.OnTargetDeletesEnded | pkg/controller/job_controller.go:778-855 | in such runs every deleted workload had been seen failed, or started and stalled |
| RestartTargets.CurrentReadsHitTarget | pkg/controller/job_controller.go:778-855 | every run in which nobody else takes the name and no observation shows a replaced workload is such a run |
| RestartTargets.RestartMayDeleteReplacement | pkg/controller/job_controller.go:1429-1440 | a run in which a restarted controller deletes a replacement that never failed |
| RestartTargets.FirstRestartMayDeleteReplacement | pkg/controller/job_controller.go:1429-1440 | the same without any committed restart and with every read in order |
| RestartTargets.RestartCommitsIff | pkg/controller/job_controller.go:1441-1478 | a restart's write clears the reference and counts, both or neither, if and only if the copy is the stored version and its condition does not name this restart yet |
| RestartTargets.StuckStays | pkg/controller/status.go:135-165 | a Job that has the text of a restart without its edits, and no workload, is never written again while reads are up to date, the checkpoint stays and nobody steps in |
| RestartTargets.ConflictStrandsRestart | pkg/controller/job_controller.go:1441-1478 | a run in which a restart one version behind leaves the Job there |
| RejectionDeadline.Classify | pkg/controller/job_controller.go:598-634 | which refusals count as rejected, denied or unconfirmed |
| RejectionDeadline.ClockIsFirstRejection | pkg/controller/job_controller.go:714-735 | in every version the clock is the first rejection since the last accepted create; the deadline fails a Job only when that time has passed; nothing follows a terminal version |
| RejectionDeadline.FailsExactlyAtDeadline | pkg/controller/job_controller.go:664-712 | an attempt, whichever version it read, fails the Job if and only if it was rejected and the first rejection, as of that version, is a deadline old |
| RejectionDeadline.DeadlineIsStoredIff | pkg/controller/job_controller.go:664-735 | the deadline a failing attempt enforced is the one the stored clock shows if and only if no create was accepted since the version it read |
| RejectionDeadline.OnlyRejectionsCount | pkg/controller/job_controller.go:664-712 | over every run: attempts that are denied or cannot be confirmed change nothing, however many there are |
| RejectionDeadline.RestartCreatesAgain | pkg/controller/job_controller.go:1441-1478 | in every run, a Job that restarts its workload attempts a create again, on the clock it had |
| RejectionDeadline.EndIsFinal | pkg/controller/job_controller.go:664-712 | a Job that has ended is never written again, whatever is attempted |
| RejectionDeadline.StaleAttemptMayFailAcceptedJob | pkg/controller/job_controller.go:537-552 | a run in which a stale attempt fails a Job with an accepted workload |
| FailureCause.StrictWeakOrder | pkg/controller/job_controller.go:1826-1838 | the order on terminations is irreflexive, transitive, and its ties are transitive |
| FailureCause.FailedContainerOf | pkg/controller/job_controller.go:1802-1838 | of all failed init and main containers of all pods: an out-of-memory one if there is one, of its kind the one that finished first, a recorded time before a missing one, and of equals the first listed; none if and only if none failed |
| FailureCause.EarliestIff | pkg/controller/job_controller.go:1826-1838 | the first minimum of the order is exactly that container |
| FailureCause.AllContainersAt | pkg/controller/job_controller.go:1802-1812 | every container of every pod is looked at once, pod after pod, init containers first |
| FailureCause.CauseIsUnique | pkg/controller/job_controller.go:1802-1820 | there is only one such answer |
| FailureCause.LauncherWinsTies | pkg/controller/job_controller.go:1617-1622 | a launcher listed first wins every tie |
| FailureCause.OrderIrrelevantWithoutTies | pkg/controller/job_controller.go:1802-1838 | without ties the order of pods and containers does not matter |
| FailureCause.ReadLogTail | pkg/controller/job_controller.go:1578-1596 | exactly the last min(max, total) bytes of everything read up to the first end or error, for any chunking |
| Interruptions.Tracker.CompleteInterruption | pkg/controller/goodputmeasurement_controller.go:1013-1048 | the credit added in place: both times clamped at zero, the pending event cleared |
| Interruptions.Tracker.MergeSampleWindow | pkg/controller/goodputmeasurement_controller.go:687-790 | the interruption part of a merge, statement by statement, is the function the runs use |
| InterruptionTimes.MergeTimes | pkg/controller/goodputmeasurement_controller.go:1019-1048 | the credit a merge adds: up to the application start, of the window or else of memory, is reschedule time and from there to the first step resume time; without a start all of it is reschedule time |
| InterruptionTimes.MergeStartups | pkg/controller/goodputmeasurement_controller.go:687-790 | besides a credit, a merge adds the time from the application start to the first step when training is seen to start, else that to the start of training if no resume time was added so far, else nothing |
| InterruptionTimes.FinalWrites | pkg/controller/goodputmeasurement_controller.go:855-1007 | the terminal write: the last window merged in if the log could be read, the start of training if it was unknown, one more interruption if the Job failed |
| InterruptionTimes.FailureIsCounted | pkg/controller/goodputmeasurement_controller.go:906-1007 | a run in which a Job fails while it trains and is charged one interruption beyond its restarts |
| InterruptionTimes.EveryCreditIsTimed | pkg/controller/goodputmeasurement_controller.go:1019-1048 | in every run, each credit of every version has those two times for an interruption that was found, a first step that was read and a start that was shown, if any |
| Interruptions.CountBounded | pkg/controller/goodputmeasurement_controller.go:479-520 | no stored interruption count exceeds the Job's restarts while in progress, nor by more than one once complete |
| Interruptions.RunKeepsCount | pkg/controller/goodputmeasurement_controller.go:1056-1098 | the invariant of the two detectors behind that bound, in every run |
| Interruptions.CompleteIsFinal | pkg/controller/goodputmeasurement_controller.go:1326-1370 | once complete, no later step changes what was measured |
| Interruptions.NextKeepsComplete | pkg/controller/goodputmeasurement_controller.go:1326-1370 | of a complete status only the Job controller's stall reset touches anything, and only the two start times |
| Interruptions.MergeSound | pkg/controller/goodputmeasurement_controller.go:690-770 | a merge keeps the sums equal to the credits and start-up times they are made of, and the credits distinct |
| Interruptions.MergeCredits | pkg/controller/goodputmeasurement_controller.go:732-757 | a merge credits the pending interruption at most, and clears it when it does |
| Interruptions.CreditedAtMostOnce | pkg/controller/goodputmeasurement_controller.go:1013-1048 | through lost writes, conflicts and restarts, every stored sum is made of non-negative credits of distinct interruptions and positive start-up times |
| Interruptions.RecoveryIsExact | pkg/controller/goodputmeasurement_controller.go:1140-1205 | recovering from a version is safe if and only if its pending interruption has not been credited in the stored one |
| Interruptions.StaleRecoveryCreditsTwice | pkg/controller/goodputmeasurement_controller.go:1140-1205 | a run in which a stale recovery credits one interruption twice |
| Interruptions.OneRestartCreditedTwice | pkg/controller/goodputmeasurement_controller.go:505-520 | a run without stale reads in which one restart is charged as two interruptions |
| InterruptionCharges.InMemoryOnlyIff | pkg/controller/goodputmeasurement_controller.go:479-520 | what a step is given decides whether an interruption stays in memory alone: found, its write lost, stale or not attempted, and nothing completing it |
| InterruptionCharges.StepCoveredIff | pkg/controller/goodputmeasurement_controller.go:479-520 | a step, terminal ones included, keeps the count at or above the interruptions there are if and only if one that stays in memory alone finds the count ahead of the stored ones |
| InterruptionCharges.CoveredThroughoutIff | pkg/controller/goodputmeasurement_controller.go:479-520 | the same as an if and only if over every run |
| InterruptionCharges.RunKeepsCharge | pkg/controller/goodputmeasurement_controller.go:1056-1098 | the invariant behind the next row, over every run in which each such one finds room |
| InterruptionCharges.ChargedOncePerRestart | pkg/controller/goodputmeasurement_controller.go:1013-1098 | in such runs no stored status has more credits than the Job has restarts |
| InterruptionCharges.LostRecordCreditsTwice | pkg/controller/goodputmeasurement_controller.go:479-492 | a run in which a lost write, with every log read succeeding, has one restart charged twice |
| StepAccounting.ComputeNonWarmupTimeDelta | pkg/controller/goodputmeasurement_controller.go:1483-1502 | the sum of each line's timing times the steps since the line before it, or the log interval without one; warm-up lines, untimed lines and lines at or below the watermark add nothing; lines that all take t add t for every iteration elapsed |
| StepAccounting.UniformRun | pkg/controller/goodputmeasurement_controller.go:811-851 | a run whose iterations all take t, read in windows that go on from each other, measures t for every iteration |
| StepAccounting.MergeIsAccounted | pkg/controller/goodputmeasurement_controller.go:840-851 | the exact law: the total over any windows is the true time of every line counted plus a boundary error per window that starts at a new line |
| StepAccounting.CountedOnce | pkg/controller/goodputmeasurement_controller.go:840-851 | no line is counted by two windows |
| StepAccounting.BoundaryErrorIsZero | pkg/controller/goodputmeasurement_controller.go:1483-1502 | a boundary loses nothing if and only if its line counts for nothing or follows at the log interval |
| StepAccounting.IncrementalEqualsBatch | pkg/controller/goodputmeasurement_controller.go:811-819 | windows that each go on from the last give the total of a single pass |
| StepAccounting.BatchOnlyIfContinues | pkg/controller/goodputmeasurement_controller.go:840-851 | for a window that leaves no gap, going on is also necessary |
| TerminalCap.Slice.DropLate | pkg/controller/goodputmeasurement_controller.go:389-396 | compaction in place keeps the entries not after the anchor, in order |
| TerminalCap.ParseResult.CapAtAnchor | pkg/controller/goodputmeasurement_controller.go:384-434 | the whole capped result, lists and pointers |
| TerminalCap.KeptSelects | pkg/controller/goodputmeasurement_controller.go:389-396 | the kept entries are exactly the original ones not after the anchor, by increasing position |
| TerminalCap.SelectionIsUnique | pkg/controller/goodputmeasurement_controller.go:389-396 | only one list has that property |
| TerminalCap.CapIsQuiet | pkg/controller/goodputmeasurement_controller.go:384-434 | a capped window carries nothing past the anchor, and one that carries nothing past it is not changed; a save and an application start after it are dropped, the last log line moves to it |
| TerminalCap.CapKeepsConsistent | pkg/controller/goodputmeasurement_controller.go:397-424 | first, last and last-checkpoint pointers stay the ends of their lists |
| TerminalCap.FirstWithoutLast | pkg/controller/goodputmeasurement_controller.go:397-408 | exactly when a capped long window has a first step and no last one |
| TerminalCap.KeptTwice | pkg/controller/goodputmeasurement_controller.go:384-434 | capping at two anchors is capping at the earlier one |
| TerminalCap.ProgressNeverFalls | pkg/controller/goodputmeasurement_controller.go:317-375 | for windows of any length, the frozen progress is the greater of the stored one and the last step up to the anchor, or in memory without one; it shows no step that status, memory or a kept entry has not shown |
| LogPager.ReadAll | pkg/podlogs/pager.go:77-158 | for any log, page size, page count and failures, the loop computes the read that the next rows are about |
| LogPager.ReadIsWholeIff | pkg/podlogs/pager.go:63-76 | every read of every log: while no page leaves a line behind, the visited lines are the beginning of the log, each once and in order; a line left behind is never visited; a read that succeeds has visited the whole log if and only if none was |
| LogPager.WithdrawsIff | pkg/podlogs/pager.go:63-76 | some page size, page count and failures leave a line behind if and only if the log is not ordered by second |
| LogPager.StepBackLosesLine | pkg/podlogs/pager.go:151-154 | if a line lies in an earlier second than a line before it, the page size that ends there loses it, whatever the page count and the failures |
| LogPager.OrderedReadsInFull | pkg/podlogs/pager.go:77-158 | an ordered log, at every page size: the visited lines are the beginning of the log, the whole log when the read succeeds; it gives up for good only for an unreadable line, a missing timestamp, one second that fills the largest page, or more lines and bytes than the pages are sure to gain |
| LogPager.EveryLineWithinReach | pkg/podlogs/pager.go:141-149 | an ordered log in which no second fills the largest page is read in full with as many pages as lines |
| LogPager.LongFirstLineUnread | pkg/podlogs/pager.go:141-149 | a first line longer than the largest page is never visited |
| LogPager.ReadPage | pkg/podlogs/pager.go:105-155 | one iteration: what is visited, what is remembered, where the next page starts |
| LogPager.FailureStops | pkg/podlogs/pager.go:111-117 | a request that fails ends the read with what was visited: for good if a line was too long, else to be retried |
| LogPager.NextLines | pkg/podlogs/fetcher.go:79-88 | as long as no line is left behind, the new lines of a page are the next stretch of the log, all of the rest if the page was not truncated, and up to the line that no longer fits if it was |
| LogPager.StepKeepsLost | pkg/podlogs/pager.go:105-155 | a line left behind stays so: no page brings it again |
| LogPager.PageGains | pkg/podlogs/pager.go:105-155 | a truncated page that brings anything new brings at least a page without what it repeats and the line it cuts |
| LogPager.EnoughPages | pkg/podlogs/pager.go:36-45 | if no second and no line takes more than a quarter of a page, the page count suffices for a log of half that many pages |
| LogPager.OutOfOrderLosesLine | pkg/podlogs/pager.go:151-154 | three lines, the clock stepping back before the last: the read succeeds with two |
| LogPager.ResumeKeepsSeen | pkg/podlogs/pager.go:151-154 | after resuming, the times kept are again exactly those of the visited lines that the next page repeats |
| LogPager.CountAtOrAfter | pkg/podlogs/pager.go:174-182 | counts the times at or after the bound |
| LogPager.DropBefore | pkg/podlogs/pager.go:184-192 | keeps the times at or after the bound, in order |
| BandwidthAggregate.Aggregate.Add | pkg/controller/bandwidthmeasurement_controller.go:826-839 | the object holds the per-size sums of all rows added, sizes in order of first appearance |
| BandwidthAggregate.MergeAggregate | pkg/controller/bandwidthmeasurement_controller.go:777-811 | every stored entry and every new entry of the merged list, and its order |
| BandwidthAggregate.AggregatePages | pkg/controller/bandwidthmeasurement_controller.go:842-844 | one aggregate over all rows, whatever the pages, each average rounded once |
| BandwidthAggregate.AggregateIsUnique | pkg/controller/bandwidthmeasurement_controller.go:842-844 | the rows alone decide the results |
| BandwidthAggregate.AggregateError | pkg/controller/bandwidthmeasurement_controller.go:842-844 | counts are exact and averages within 0.005 of the mean |
| BandwidthAggregate.MergeTracks | pkg/controller/bandwidthmeasurement_controller.go:764-811 | a merge keeps sizes distinct and in order, counts exact, and adds at most 0.005 to the error of a size it touches |
| BandwidthAggregate.MergeWindow | pkg/controller/bandwidthmeasurement_controller.go:764-773 | one more window merged into results that track the windows before it |
| BandwidthAggregate.MergeWindows | pkg/controller/bandwidthmeasurement_controller.go:767-773 | after any windows: Samples is the number of rows of the size, and both averages are within 0.005 per merge of the size |
| BandwidthAggregate.MergesAtMost | pkg/controller/bandwidthmeasurement_controller.go:767-773 | a size is merged at most once per window |
| BandwidthVerdict.ReadFinalResults | pkg/controller/bandwidthmeasurement_controller.go:549-599 | a successful final read is the aggregate of every row of the lines the pager visits, of the whole log if that is ordered by second; a failure that is not retried then has one of the pager's reasons with 64 pages |
| BandwidthVerdict.Measurement.FinalizeTerminal | pkg/controller/bandwidthmeasurement_controller.go:614-640 | the terminal callback: nothing on a complete measurement, otherwise results, reason and Measuring in one write |
| BandwidthVerdict.Measurement.MarkFinalReadPending | pkg/controller/bandwidthmeasurement_controller.go:676-691 | the start of the wait is set once |
| BandwidthVerdict.CompleteIsFinal | pkg/controller/bandwidthmeasurement_controller.go:614-660 | the first terminal write wins: no later step changes results or reason |
| BandwidthVerdict.RunKeepsReads | pkg/controller/bandwidthmeasurement_controller.go:436-471 | every version completed from the full log is backed by a recorded read of a finished pod |
| BandwidthVerdict.VerdictRestsOnFullLog | pkg/controller/job_threshold_helpers.go:63-114 | results that are judged are the aggregate of one finished pod's log as read, of all of it if ordered by second, read for the judged Job instance if the measurement names it |
| BandwidthVerdict.RowsAreParsed | pkg/controller/bandwidthmeasurement_controller.go:549-599 | the rows read are what the parsed lines yield, in the order of the lines, and nothing else |
| BandwidthVerdict.MaxBusBandwidth | pkg/controller/job_controller.go:1282-1291 | the peak over all sizes, 0 if none is positive |
| BandwidthVerdict.FailureDecides | pkg/controller/bandwidthmeasurement_controller.go:485-498 | in every run, the one read for a failed Job completes an open measurement for it with what was found, or the provisional results without a row, and does nothing to any other |
| BandwidthVerdict.MissingDecides | pkg/controller/bandwidthmeasurement_controller.go:500-546 | in every run, an open measurement completes without final results, keeping its provisional ones, if and only if another Job has its name, or its Job is gone and it shows that there was one |
| BandwidthVerdict.DeletedJobCompletes | pkg/controller/bandwidthmeasurement_controller.go:500-546 | so does an annotated one after its Job is deleted, in every run |
| BandwidthVerdict.NeverGivesUpEarly | pkg/controller/bandwidthmeasurement_controller.go:453-470 | no failure that may pass completes the measurement before the first failure plus the grace period |
| BandwidthVerdict.FailedReadCompletesLate | pkg/controller/bandwidthmeasurement_controller.go:453-470 | in every run, a failing read that may pass and completes the measurement comes no earlier than the first such failure plus the grace period |
| BandwidthVerdict.GivesUpExactlyAtDeadline | pkg/controller/bandwidthmeasurement_controller.go:453-470 | over every annotated run: once the wait is stored, and whatever happens in between, a failing read completes the measurement if and only if start plus grace has passed; otherwise the reconcile comes back in time |
| BandwidthVerdict.WaitIsFixed | pkg/controller/bandwidthmeasurement_controller.go:665-691 | the stored start of the wait stays until the measurement completes |
| BandwidthVerdict.UnannotatedMayJudgeAnother | pkg/controller/job_threshold_helpers.go:63-69 | a run in which a succeeded Job is judged by another instance's log |
| BandwidthVerdict.JudgedInstanceIff | pkg/controller/job_threshold_helpers.go:63-69 | once a read completes the measurement, its results stay whatever follows, and the instance they later judge is the one that log was read for if and only if the Job was not replaced since; without the annotation they do judge it |
| BandwidthVerdict.UnannotatedWaitMayEnd | pkg/controller/bandwidthmeasurement_controller.go:665-691 | a run in which the wait of a measurement without the annotation ends early |
| BandwidthVerdict.WaitHeldIff | pkg/controller/bandwidthmeasurement_controller.go:665-691 | with or without the annotation, the wait is kept until completion if and only if no running Job is measured in the meantime |
| CertificationSequence.Certification.InitCategories | pkg/controller/certification_controller.go:278-302 | all categories pending but the first, which runs |
| CertificationSequence.ActiveIndex | pkg/controller/certification_controller.go:314-321 | the first category that has not ended, or -1 |
| CertificationSequence.WriteKeepsInvIff | pkg/controller/certification_controller.go:1355-1410 | a write, decided from any version, keeps the stored status in order if and only if its guard holds of the stored status |
| CertificationSequence.DecisionMeetsGuard | pkg/controller/certification_controller.go:154-172 | a decision made from the stored status always meets its guard |
| CertificationSequence.RunKeepsInvIff | pkg/controller/certification_controller.go:311-512 | a run keeps every version in order if and only if each write met its guard |
| CertificationSequence.AdvancesIff | pkg/controller/certification_controller.go:311-480 | an advancing write takes one unit off 2 * pending + running if and only if the category is still where the decision saw it |
| CertificationSequence.SequenceIsSafe | pkg/controller/certification_controller.go:154-512 | with up-to-date reads: pending suffix, one running category, references, terminal states; starts and ends plus the work left are 2n plus the recoveries |
| CertificationSequence.PassedIsFinal | pkg/controller/certification_controller.go:490-512 | with up-to-date reads, Succeeded means every category succeeded, and nothing is written afterwards |
| CertificationSequence.RunStaysPassedIff | pkg/controller/certification_controller.go:154-512 | over every run, whichever versions reconciles read: a stored Succeeded status stays if and only if every later write was decided from a version with all categories succeeded |
| CertificationOutcome.RunRefines | pkg/controller/certification_controller.go:154-172 | every run with Workflows and reads of them is a run of the sequence, so the rows above hold of it |
| CertificationOutcome.EveryStatusWasRead | pkg/controller/certification_controller.go:410-486 | in every run, however late its reads: a succeeded category was read from a Workflow that showed Succeeded, a failed one from one that showed Failed or was gone by a cached and a live read |
| CertificationOutcome.PassedMeansEveryWorkflowDid | pkg/controller/certification_controller.go:490-512 | a version shows Succeeded only if each of the n categories was read from a Workflow that showed Succeeded |
| CertificationOutcome.StartDecides | pkg/controller/certification_controller.go:323-400 | in every run, a reconcile may start the first category that has not begun: its Workflow is there afterwards, also if the write is lost; with the write the category runs and refers to it, and nothing else changes |
| CertificationOutcome.WaitDecides | pkg/controller/certification_controller.go:222-232 | in every run, a reconcile that waits for nodes reports progress, and nothing else, if and only if a category is about to begin |
| CertificationOutcome.CheckSettlesIff | pkg/controller/certification_controller.go:410-486 | in every run, a check of the stored version ends its category as Succeeded if and only if the cached read shows success, as Failed if and only if it shows failure or both reads find no Workflow, and changes nothing else |
| CertificationOutcome.RecoverReopensIff | pkg/controller/certification_controller.go:1370-1410 | in every run, a stored terminal version is reopened, at its first such category, if and only if a failed category's Workflow is read as running |
| CertificationSequence.FinalizesIff | pkg/controller/certification_controller.go:490-512 | with all categories ended there is one write, Succeeded if and only if all succeeded and Failed if and only if one did not |
| CertificationProgress.EveryOutcomeIsReached | pkg/controller/certification_controller.go:154-512 | whatever the outcomes of the Workflows, there is a run with every read up to date that ends with each category's own outcome, Succeeded if and only if all succeeded |
| CertificationOutcome.FindRecoverable | pkg/controller/certification_controller.go:1370-1410 | the loop finds the least index of a failed category with a reference whose Workflow was read as running |
| CertificationSequence.StaleFailureStrands | pkg/controller/certification_controller.go:224-275 | a run one version behind ends terminal with a running category and no further write |
| CertificationSequence.StaleProgressUndoesPass | pkg/controller/certification_controller.go:480-486 | a run in which a restarted controller reads an old version and takes Succeeded back |
| WorkflowOwnership.OwnershipIsSafe | pkg/controller/certification_controller.go:590-628 | in every interleaving: only own Workflows are deleted, every recorded name was held by an own Workflow, only a foreign holder collides |
| WorkflowOwnership.RunKeepsInv | pkg/controller/certification_controller.go:1635-1667 | the invariant behind it holds between any two API calls |
| WorkflowOwnership.FinalizerClearsRecorded | pkg/controller/certification_controller.go:1625-1676 | once the finalizer is gone no live own Workflow holds a recorded name |
| WorkflowOwnership.RecordedHolderIsOursIff | pkg/controller/certification_controller.go:590-628 | in every run, when a name is about to be recorded its holder is ours if and only if it is the Workflow that was made or read |
| WorkflowOwnership.DeletesOnlyRecorded | pkg/controller/certification_controller.go:1635-1667 | in every run, only Workflows whose name was recorded are deleted |
| WorkflowOwnership.SurvivesIff | pkg/controller/certification_controller.go:1635-1667 | a live own Workflow outlives the finalizer's loop if and only if its name is not on the list |
| WorkflowDecisions.CreateDecides | pkg/controller/certification_controller.go:590-628 | in every run, a create makes a Workflow under a free name, and looks at the holder of a taken one |
| WorkflowDecisions.HolderDecides | pkg/controller/certification_controller.go:594-628 | in every run, the holder is adopted if and only if it is the Certification's own, and is a collision if and only if it is foreign and not terminating |
| WorkflowDecisions.ReadNextDecides | pkg/controller/certification_controller.go:1635-1656 | in every run, the finalizer decides to delete the holder of a recorded name if and only if it is its own |
| WorkflowDecisions.DeleteDecides | pkg/controller/certification_controller.go:1657-1664 | in every run, the delete takes effect if and only if the holder still has the UID that was read, and nothing else changes |
| WorkflowDecisions.ReleaseDecides | pkg/controller/certification_controller.go:1669-1674 | the finalizer is removed if and only if its loop is done and the version it read is still stored |
| WorkflowDecisions.FinalizerCompletes | pkg/controller/certification_controller.go:1625-1676 | from every run, an undisturbed finalizer ends with the Certification released and spares exactly the live own Workflows whose names were not recorded |
| WorkflowOwnership.RecordedNameMayBeForeign | pkg/controller/certification_controller.go:590-628 | a run in which the holder is replaced before its name is recorded |
| WorkflowOwnership.UnrecordedWorkflowSurvives | pkg/controller/certification_controller.go:1635-1667 | a run in which a Workflow whose name was not recorded outlives the finalizer |
| EnvToken.DecimalRoundTrip | pkg/controller/certification_controller.go:1572-1573 | a decimal length reads back as itself |
| EnvToken.EncodeParses | pkg/controller/certification_controller.go:1567-1573 | an encoded variable ends where it ends, whatever bytes follow |
| EnvToken.JoinParses | pkg/controller/certification_controller.go:1567-1576 | joined encodings can be taken apart in one way only |
| EnvToken.SortedIsUnique | pkg/controller/certification_controller.go:1575-1575 | a sorted list is determined by its members |
| EnvToken.PreImage | pkg/controller/certification_controller.go:1561-1576 | the hashed string joins a sorted permutation of the encodings |
| EnvToken.PreImageIsInjective | pkg/controller/certification_controller.go:1561-1577 | two environments hash the same string if and only if they are the same multiset of variables |
| Parallelism.ChecksAgreeIff | pkg/catalog/loader.go:469-489 | the solver's and the validator's check agree if and only if the node has GPUs, or the wrapped total meets the minimum and is a multiple of TP * PP * EP |
| Parallelism.ChecksAgreeWithoutGPUs | pkg/catalog/loader.go:822-826 | without GPUs they agree if and only if no minimum is set and TP * PP does not wrap to 0 |
| Parallelism.ValidatorAcceptsWithoutGPUs | pkg/catalog/loader.go:822-826 | an input on which they differ |
| Parallelism.ValidateDecides | pkg/catalog/loader.go:822-857 | the validator's verdict case by case: too few GPUs, a division by zero, TP * PP does not divide the wrapped total, or accepted |
| Parallelism.TwoStagesAreOne | pkg/catalog/loader.go:834-857 | without overflow, TP * PP and then DP mod EP is divisibility by TP * PP * EP |
| Parallelism.MaxValidNodes | pkg/catalog/loader.go:469-489 | the largest accepted count up to the available nodes; none fits, or a division by zero, otherwise |
| Parallelism.ResolveNodesPerJob | pkg/controller/certification_controller.go:1274-1297 | the chosen count is the largest up to the ceiling that the validator accepts; an error means there is none |
| Parallelism.MaxNodesBelow | pkg/catalog/loader.go:876-883 | the nearest dividing count at or below, 0 if there is none |
| Parallelism.MinNodesAbove | pkg/catalog/loader.go:886-893 | the nearest count above, within the search range, whose wrapped product divides; what a wrapped loop variable gives |
| Parallelism.BelowNeverWraps | pkg/catalog/loader.go:875-883 | on the way down no product wraps, so the count divides as documented |
| Parallelism.SuggestionIsNearestIff | pkg/catalog/loader.go:885-893 | the count above is the documented one if and only if no count on the way to it is distorted by wrap-around |
| Parallelism.WrappedSuggestionIsWrong | pkg/catalog/loader.go:885-893 | an input whose suggestion does not divide while a nearer count does |
| Parallelism.LargerSuggestionIsValid | pkg/catalog/loader.go:839-857 | a larger suggestion fails the validator only on EP, or exactly if its total wraps below the minimum |
| ScopedCache.Allows | pkg/controller/cache.go:239-266 | the search allows a query if and only if it demands a scoped index value or the label |
| ScopedCache.AllowedIsComplete | pkg/controller/cache.go:187-193 | whatever is allowed, the cached List equals the full List, in every store |
| ScopedCache.CompleteIff | pkg/controller/cache.go:40-50 | a cached List is complete if and only if the query selects labelled objects only |
| ScopedCache.AllowedSelectsLabelled | pkg/controller/indexes.go:56-68 | an allowed query selects labelled objects only, by label or by the job index |
| ScopedCache.GuardIsExact | pkg/controller/cache.go:239-266 | for queries without a comparison on the label that select anything, the guard is exact |
| ScopedCache.ComparisonIsRefused | pkg/controller/cache.go:257-262 | a comparison on the label is complete and refused |
| ScopedCache.ListOfJobIff | pkg/controller/indexes.go:56-68 | the cached List by Job returns exactly the objects of the namespace whose label names that Job |
| ScopedCache.ListIsLimited | pkg/controller/cache.go:187-193 | a limit cuts the matches short, and only if there are more |
| EventNote.FormatEventNote | pkg/controller/event_note.go:20-43 | the note is valid UTF-8 of at most 1024 bytes: the repaired text, or its whole characters up to the last boundary at or before the cutoff and the suffix |
| EventNote.WalkBack | pkg/controller/event_note.go:30-41 | the loop ends at the last character boundary, less than four bytes before the cutoff |
| EventNote.BoundaryIff | pkg/controller/event_note.go:33-40 | in valid text a prefix is valid if and only if it ends where a byte may start a character |
| EventNote.RepairedIsValid | pkg/controller/event_note.go:26-26 | replacing invalid runs gives valid text |
| EventNote.RepairKeepsValid | pkg/controller/event_note.go:26-26 | valid text is not changed |
| Utf8.ValidIff | pkg/controller/event_note.go:26-41 | a text is valid if and only if it is the UTF-8 encoding of some Unicode characters |

## Left out

- Assumptions of the models: the controller's clock does not run backwards; a measurement sees its Job
  in the order it changed; a live read is an atomic snapshot; one object reconciles on one worker at
  a time; a Job controller resets a measurement's stall inputs only after it has recorded a workload; a
  controller reads an older version of an object after a newer one only when it was restarted in between,
  which the runs that do so show as a step.
- The failure log that a restart clears in the same callback: with one to clear, the write of a Job that
  `Stuck` describes goes through.
- Bandwidths, step timings and averages are real numbers, not 64-bit floats, and the six-decimal
  formatting of goodput sums is not modelled. Two-decimal bandwidths are modelled by their rounding error.
- RejectionDeadline.DeadlineIsStoredIff: is for attempts each of which is later than the one before it.
- Interruptions.CreditedAtMostOnce: holds for runs in which a controller without memory recovers from a
  version whose pending interruption has not been credited; RecoveryIsExact shows the condition is needed.
- CertificationSequence.SequenceIsSafe: holds for reconciles that read the stored version;
  RunKeepsInvIff gives the exact condition for all others.
- CertificationSequence.PassedIsFinal: holds for reconciles that read the stored version; RunStaysPassedIff
  gives the exact condition for all others.
- BandwidthVerdict.WaitIsFixed: is for measurements that carry the Job-UID annotation, which the Job
  controller always sets; WaitHeldIff gives the exact condition for all others.
- LogPager.ReadIsWholeIff: is for logs whose timestamps lie past the first second of the zero time (year 1);
  the read-once path for a fetcher that cannot page is not modelled.
- LogPager.WithdrawsIff: says which logs lose lines at no page size; at one given page size ReadIsWholeIff
  says which reads do, for a log out of order may be read in full when no page ends in the wrong place.
- StepAccounting: windows are stretches of one run's stream; that the parser keeps at most 100 steps of a
  window and that a merged multi-worker window carries no log interval are not part of it.
- Goodput ratio, lost-work time, checkpoint-save time and warm-up carry-over of the goodput measurement.
- Stall detection thresholds, node-health checks, hardware-failure marking and threshold expressions.
- Transports and Prometheus gauges of a bandwidth measurement.
- Option merging, templates, overlays, platform and NIC detection of a Certification, and the hash and
  truncation of Workflow names.
- The Workflow controller's grouping and bisection, WorkloadRun, the command line and reports.
- Get and informers of the scoped cache, which are always refused.
- The reconcilers' maps of in-memory state, their locks and their sampling throttles; a run has one object.
- Kubernetes client plumbing, watches, RBAC, events and metrics: only their outcomes are modelled.
