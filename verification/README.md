# Verified model of the Slumlord controllers

Slumlord is a Kubernetes operator that puts workloads to sleep on a schedule, scales idle workloads down, repacks pods
and drains nodes. This project models the five reconcilers of `internal/controller` in Dafny and proves what they
guarantee when API calls fail, reconciles are cut short and retried, and several policies act at once.

`dafny verify dfyconfig.toml` checks everything.

## How the model is built

* The API server is a mutable store. Whether a call succeeds is either an input ("weather": which List, Get, Update and
  status write succeeded, per object) or an arbitrary choice; theorems hold for all of them.
* Code that updates objects or status in place is a class with methods and loops, proved against functions of the old
  state; the theorems about whole runs are lemmas about these functions.
* Time is an unbounded number of nanoseconds (idle detection: whole seconds); a time zone is a fixed whole-minute
  offset; "HH:MM" texts are minutes of the day, or unparsable; label selectors are predicates; quantities are integers.

| file | content |
|---|---|
| `SleepWindows.dfy`, `RequeueTiming.dfy` | sleep windows as sets of intervals, the minute prober, the requeue decision |
| `Workloads.dfy` | the 13 workload kinds: slept form, record of the original, restore |
| `SleepPasses.dfy`, `PassEffects.dfy`, `OperatorOrder.dfy` | sleep and wake passes under failure: crash consistency, round trip, what a pass achieves, operator ordering |
| `SleepController.dfy`, `ReconcileOutcomes.dfy`, `SleepHistories.dfy`, `OperatorHistories.dfy` | the reconciler and its verification; what one reconcile achieves; histories of many nights and outside edits |
| `PodPlacement.dfy`, `DisruptionBudgets.dfy`, `ConsolidationPlan.dfy`, `PlanProperties.dfy`, `ConsolidationWindow.dfy` | the bin packer |
| `AutoSchedulePolicies.dfy` | policy fan-out, convergence, overlap |
| `IdleDetection.dfy`, `IdleDetector.dfy`, `IdleRoundTrip.dfy` | idle streaks, scale-down, retried restore, and the way back to the originals |
| `NodeDrain.dfy` | drain candidates, limits and results |

## Results about the code

* A workload comes back from a night exactly if no failed status write lost its record and the record can express its
  original: counts within int32, and nodeSets of one name agreeing on their count.
* The reconcile that ends a night, by window or suspension, brings home exactly the workloads whose record was not lost,
  if its calls succeed and records can express the originals (`NightEndsHome`).
* Clearing the records of an awake schedule forgets exactly the recorded workloads that are still slept: those of a
  half-finished sleep pass, or of a wake whose Get failed (`ClearingForgets`). Over many nights this and failed status
  writes are the only losses (`OriginalsAccounted`, `NightsAndDays`).
* A record can claim that nothing was running: exactly if no running nodeSet is the last of its name (`RecordOfAwake`,
  `RecordsSoundExactly`).
* Verification reports a desync right after a complete wake exactly when the wake leaves some nodeSet at 0.
* A prober started on a whole minute samples the excluded boundary and is a minute late or misses the change
  (`WholeMinuteProbeIsLate`), at every whole minute and only there (`ExactOffWholeMinutesOnly`).
* An interval is unsafe exactly if it is zero or less, as then no reconcile follows at all (`NoIntervalNoReconcile`),
  or if it reaches into the eleventh following minute (`SkipsNothingExactly`); ten minutes is the bound that is safe at
  all instants (`TenMinutesIsTheBound`).
* A sleep pass skips recorded workloads, awake or not. So a night that begins while records are kept leaves exactly the
  recorded awake ones awake (`AllAsleepExactly`), and can put workloads to sleep under an active operator exactly if
  one of the skipped ones is an operator resource and some workload is left to put to sleep (`PassOrderedExactly`).
* An idle streak counts the persisted checks only: a busy check whose status write fails is forgotten
  (`UnsavedBusyCheckIsForgotten`, `ScaleDownExactly`).
* A maximal plan under a cap is exactly one the cap did not cut (`PlanIsMaximal`).
* A workload that does not exist still gets a positive disruption budget if the PDBs of its namespace that select the
  empty label set all allow disruptions (`MissingWorkloadBudget`).
* The template comparison of auto-schedule policies is exact except for empty label values
  (`SleepSpecEqualExactly`).
* Policies over shared namespaces converge once each has succeeded twice (`ConvergesInTwoRounds`); one success each is
  enough exactly if no policy has left a schedule where another one wants its own (`OneRoundExactly`). Suspended
  policies and those whose selector does not parse take no part, but their schedules stay in the way.
* After a completed deletion of an idle detector a workload is as it was before the first check exactly if it was never
  touched or its record was persisted (`IdleRoundTrip`); with succeeding status writes that is all of them.
* A deleted idle detector is held for as long as a workload it recorded no longer exists
  (`MissingWorkloadHoldsDeletion`); one attempt without failing calls completes exactly if all of them exist.
* The repository's README and the type definitions say that `matchNames` selects workloads by name. The sleep
  controller never reads it: a pass touches a workload whose name does not match exactly if types and labels select
  it (`NamesRespectedExactly`, `NameIsIgnored`).

## Model

| member | source | states |
|---|---|---|
| SleepWindows.ShouldBeSleepingAtWindow | internal/controller/sleepschedule_controller.go:305-361 | the window test is true iff some allowed calendar day's open interval, overnight ones ending the day after, contains the instant; unparsable times never sleep |
| SleepWindows.ShouldBeSleepingAt | internal/controller/sleepschedule_controller.go:295-302 | asleep iff any window covers the instant |
| SleepWindows.CoveringDay | internal/controller/sleepschedule_controller.go:331-346 | only today's interval, or after midnight yesterday's overnight one, can contain an instant |
| SleepWindows.WeeklyPeriodic | internal/controller/sleepschedule_controller.go:305-361 | every window repeats after seven days |
| SleepWindows.DailyPeriodic | internal/controller/sleepschedule_controller.go:331-361 | a window without day filter repeats every day |
| SleepWindows.CoveredByTimeOfDay | internal/controller/sleepschedule_controller.go:331-346 | without day filter an instant is inside iff its time of day lies strictly between start and end, for overnight windows strictly after the start or before the end |
| SleepWindows.FridayNight | internal/controller/sleepschedule_controller.go:313-361 | a Friday night window in a zone one hour east, instant by instant in UTC |
| SleepWindows.WeekdaysOfTheCalendar | internal/controller/sleepschedule_controller.go:313-346 | day 0 is a Thursday and weekdays follow each other |
| SleepWindows.WindowsAddUp | internal/controller/sleepschedule_controller.go:295-302 | windows add up in any number and order; without one nothing sleeps |
| ConsolidationWindow.IsInConsolidationWindow | internal/controller/binpacker_controller.go:229-280 | the bin packer's own copy decides the same set of instants; no schedule means always inside |
| RequeueTiming.StateOfMinute | internal/controller/sleepschedule_controller.go:326-361 | off the whole minute the desired state depends only on the minute |
| RequeueTiming.TimeUntilNextTransition | internal/controller/sleepschedule_controller.go:666-679 | the prober returns the minutes to its first differing probe, 0 if none of the 1440 differs |
| RequeueTiming.ProberFindsFirstChange | internal/controller/sleepschedule_controller.go:666-679 | from an off-minute instant the answer is n iff minute n is the first whose every instant differs, 0 iff no off-minute instant of the probed day does |
| RequeueTiming.ZeroMeansNoChangeInADay | internal/controller/sleepschedule_controller.go:664-679 | the answer is 0 iff the state is constant at all off-minute instants of the next 24 hours |
| RequeueTiming.UnfilteredChangeIsFound | internal/controller/sleepschedule_controller.go:664-679 | without day filters a schedule whose state ever changes yields 1 to 1439 minutes |
| RequeueTiming.WholeMinuteProbeIsLate | internal/controller/sleepschedule_controller.go:671-676 | from every whole minute a two-minute sleep right after the next one is reported a minute late, and a one-minute sleep not at all |
| RequeueTiming.ExactOffWholeMinutesOnly | internal/controller/sleepschedule_controller.go:664-679 | the prober reports the first change of every schedule iff the instant is off the whole minute |
| RequeueTiming.ComputeRequeueInterval | internal/controller/sleepschedule_controller.go:643-662 | 30 s while verifying or within ten minutes of a change, else the spec's, the default or the built-in interval |
| RequeueTiming.RequeueDelayMeaning | internal/controller/sleepschedule_controller.go:643-662 | off the whole minute the delay is 30 s iff an awake schedule with records is within ten minutes of its wake or the state differs at some later off-minute instant of the next ten minutes; otherwise the interval of the spec, a positive default, or five minutes |
| RequeueTiming.NoTransitionSkipped | internal/controller/sleepschedule_controller.go:130-137 | with an interval of at most ten minutes, a delay above 30 s means the state is constant until the next reconcile |
| RequeueTiming.SkipsNothingExactly | internal/controller/sleepschedule_controller.go:643-662 | from an off-minute instant every schedule with that interval is reconciled again before any transition is slept over iff the interval is positive and ends before the eleventh following minute begins |
| RequeueTiming.TenMinutesIsTheBound | internal/controller/sleepschedule_controller.go:643-662 | an interval is safe at every off-minute instant iff it is positive and at most ten minutes and one nanosecond |
| RequeueTiming.NoIntervalNoReconcile | internal/controller/sleepschedule_controller.go:654-656 | an interval of zero or less is returned as it is, so that no reconcile follows: a sleep in 20 minutes goes unnoticed |
| RequeueTiming.LongerIntervalSkipsTransitions | internal/controller/sleepschedule_controller.go:643-662 | from 11 minutes on, 13 for instance, an interval is safe at no instant |
| RequeueTiming.EveryTransitionIsNoticed | internal/controller/sleepschedule_controller.go:288-290 | over whole runs of reconciles every off-minute instant is either in the state last acted on or at most 30 s before the next reconcile |
| Workloads.RecordOfAwake | internal/controller/sleepschedule_controller.go:727-741 | the record written by a sleep pass is of an awake original iff some nodeSet that runs is the last of its name |
| Workloads.AwakeMakesADifference | internal/controller/sleepschedule_controller.go:727-852 | a workload counts as awake iff putting it to sleep makes a difference, from one replica on |
| Workloads.AbsentIsAsleep | internal/controller/sleepschedule_controller.go:727-852 | absent counts are asleep, absent suspensions awake |
| Workloads.SleptRunsNothing | internal/controller/sleepschedule_controller.go:727-852 | the slept form of each kind in plain terms |
| Workloads.DuplicateNamesHideTheOriginal | internal/controller/sleepschedule_controller.go:1418-1435 | two nodeSets of one name: the same two hide or show the original depending on their order |
| Workloads.SleepTakesEffect | internal/controller/sleepschedule_controller.go:727-745 | the slept form differs from any awake body and is not touched again |
| Workloads.RoundTrip | internal/controller/sleepschedule_controller.go:1383-1519 | for each of the 13 kinds, restoring a slept object gives the original iff the record can express it |
| Workloads.RestoredTwice | internal/controller/sleepschedule_controller.go:909-998 | waking an object twice is waking it once |
| Workloads.WakeTakesEffect | internal/controller/sleepschedule_controller.go:905-998 | after waking, the slept form is gone iff some name's last nodeSet had a count other than 0 |
| Workloads.EquivalentSleepAlike | internal/controller/sleepschedule_controller.go:727-852 | objects that differ only in absent fields are slept alike and leave the same record |
| Workloads.RestoredInPlace | internal/controller/sleepschedule_controller.go:909-998 | restoring an object that is already back keeps it equivalent to its original |
| Workloads.ResumedExplicitly | internal/controller/sleepschedule_controller.go:941-998 | what was suspended is resumed by an explicit false, even where the field was absent |
| Workloads.IncompleteRecord | internal/controller/sleepschedule_controller.go:909-998 | a record without its original leaves counts and jobs alone and lifts a suspension or hibernation |
| SleepPasses.CrashConsistency | internal/controller/sleepschedule_controller.go:681-901 | after every step of interrupted and retried sleep passes each record is the true original of a slept object, and the slept objects without record number exactly the failed status writes (one more while a status write is outstanding) |
| SleepPasses.NoStatusFailuresInPasses | internal/controller/sleepschedule_controller.go:736-743 | passes whose status writes succeed lose no record |
| SleepPasses.WakePassWaking | internal/controller/sleepschedule_controller.go:905-1028 | an unbroken wake pass with every Get answered has restored every record and keeps the record list |
| SleepPasses.WakeLeavesAlone | internal/controller/sleepschedule_controller.go:905-1028 | a wake pass leaves a workload alone that is not recorded or whose Get fails, and goes on |
| SleepPasses.RoundTripExactly | internal/controller/sleepschedule_controller.go:681-1028 | after any interrupted sleep and wake passes and one complete wake pass an object is back iff its record was not lost and can express it |
| SleepPasses.RoundTripUnderFailure | internal/controller/sleepschedule_controller.go:681-1028 | if the status writes succeeded and the originals fit their records, everything is back as it was |
| PassEffects.SleepPassExactly | internal/controller/sleepschedule_controller.go:681-901 | from any namespace and any records a pass puts nothing to sleep but selected workloads that are awake and unrecorded and, if it runs to its end, exactly these, each recorded |
| PassEffects.AwakeAfterPass | internal/controller/sleepschedule_controller.go:687-745 | after a completed pass a selected workload is awake iff it was, and a record of it was already kept |
| PassEffects.AllAsleepExactly | internal/controller/sleepschedule_controller.go:687-745 | everything selected is asleep after a completed pass iff no kept record was of an awake workload |
| PassEffects.AbortExactly | internal/controller/sleepschedule_controller.go:1046-1101 | a pass is cut short by its Lists iff some kind of it is selected and its List fails for another reason than a missing CRD |
| PassEffects.KindsInOrder | internal/controller/sleepschedule_controller.go:693-901 | the 13 kinds of a pass by name and in order |
| PassEffects.TypesSelect | internal/controller/sleepschedule_controller.go:1031-1043 | no types select every kind; type names select exactly the kinds they name |
| PassEffects.NamesRespectedExactly | internal/controller/sleepschedule_controller.go:681-901 | passes leave the workloads alone that matchNames does not match iff types and labels select none of them that is awake and unrecorded |
| PassEffects.NameIsIgnored | internal/controller/sleepschedule_controller.go:714-745 | a schedule whose matchNames is "api" puts the Deployment "web" to sleep |
| OperatorOrder.SleepPassOrdered | internal/controller/sleepschedule_controller.go:693-713 | from any state that skips no awake operator resource, in every state of a pass the operators are held or no workload has changed |
| OperatorOrder.PassOrderedExactly | internal/controller/sleepschedule_controller.go:693-745 | from any namespace and any records, all passes keep this order iff no awake operator resource is skipped for a kept record or there is no workload to put to sleep |
| OperatorOrder.WakePassesOrdered | internal/controller/sleepschedule_controller.go:905-1028 | in every step of interrupted wake passes the operators are held or every recorded workload is restored |
| OperatorOrder.OperatorOrdering | internal/controller/sleepschedule_controller.go:693-1023 | in every state between two writes of interrupted and retried sleep then wake passes, an active selected operator resource means no workload is still slept, save those whose record a failed status write lost |
| OperatorOrder.OperatorOrderingExactly | internal/controller/sleepschedule_controller.go:693-1023 | given an active operator resource, this ordering holds in all undisturbed nights and mornings of all selectors iff the restore of every workload shows |
| OperatorHistories.SkippedIfBack | internal/controller/sleepschedule_controller.go:687-691 | over any history a pass skips an awake operator resource iff the record of one that is already back is kept |
| OperatorHistories.OperatorsResumeLast | internal/controller/sleepschedule_controller.go:155-291 | over many nights and days, with interrupted passes, failing status writes and cleared records, in every state an active operator resource means the only workloads still slept are those nobody remembers, provided no pass skips an awake operator resource |
| SleepController.SleepNodeSets | internal/controller/sleepschedule_controller.go:1418-1448 | captures counts by name (the last of a name wins), tells whether one is positive, zeroes all |
| SleepController.RestoreNodeSets | internal/controller/sleepschedule_controller.go:1503-1512 | writes recorded counts back by name and leaves unrecorded nodeSets alone |
| SleepController.PlanSleep | internal/controller/sleepschedule_controller.go:727-852 | per kind: what counts as awake, the form written, the record kept |
| SleepController.PlanWake | internal/controller/sleepschedule_controller.go:909-998 | per kind: whether waking writes, and what |
| SleepController.SleepScheduleReconciler.SleepObject | internal/controller/sleepschedule_controller.go:722-745 | one object: the write, the record, the status write and the lookup entry happen exactly as in one step of the specification |
| SleepController.SleepScheduleReconciler.SleepObjects | internal/controller/sleepschedule_controller.go:722-746 | the object loop produces exactly the run of the specification, skipping recorded objects and stopping at the first failure |
| SleepController.SleepScheduleReconciler.SleepKind | internal/controller/sleepschedule_controller.go:1046-1101 | one kind: skipped if unmanaged or not installed, ended by a failing List |
| SleepController.SleepScheduleReconciler.SleepWorkloads | internal/controller/sleepschedule_controller.go:684-901 | the sleep pass over a mutable store is the specified pass, step by step |
| SleepController.SleepScheduleReconciler.WakeWorkloads | internal/controller/sleepschedule_controller.go:905-1028 | the two-pass wake over a mutable store is the specified pass |
| SleepController.IsDesynced | internal/controller/sleepschedule_controller.go:393-629 | the per-kind desync test of one recorded object |
| SleepController.SleepScheduleReconciler.FindDesync | internal/controller/sleepschedule_controller.go:376-629 | reports iff some listed, managed object is out of sync with its record; an error iff some List fails |
| SleepController.SleepScheduleReconciler.VerifyAndCorrectWorkloads | internal/controller/sleepschedule_controller.go:376-640 | wakes everything again iff something is reported |
| SleepController.SleepScheduleReconciler.Reconcile | internal/controller/sleepschedule_controller.go:155-291 | one reconcile: suspend, transitions, verification, clearing, status writes that may fail; no delay exactly on an error, a minute when suspended or without windows, else the requeue delay |
| SleepController.DesyncIsReported | internal/controller/sleepschedule_controller.go:376-640 | a listed, selected, recorded workload in slept form is always reported |
| SleepController.DesyncedExactly | internal/controller/sleepschedule_controller.go:376-640 | a workload recorded awake is out of sync iff it does not fully run, whatever count it runs with |
| SleepController.AbsentCounts | internal/controller/sleepschedule_controller.go:393-629 | an absent count of a custom resource is reported, absent replicas of a Deployment are not |
| SleepController.ReportNeedsAwakeRecord | internal/controller/sleepschedule_controller.go:393-629 | only records of awake originals lead to a report, except for hibernation |
| ReconcileOutcomes.NightEndsAwake | internal/controller/sleepschedule_controller.go:168-236 | outside every window, or suspended, a sleeping schedule whose Gets and Updates succeed has every recorded workload restored afterwards and the others as they were; with the final write it is awake, else still asleep |
| ReconcileOutcomes.NightEndsHome | internal/controller/sleepschedule_controller.go:168-236 | after any reconciles of many nights such a reconcile brings home exactly the workloads whose record was not lost |
| ReconcileOutcomes.NightBeginsAsleep | internal/controller/sleepschedule_controller.go:206-222 | a reconcile at the start of a window without failing calls puts exactly the selected, awake, unrecorded workloads to sleep; with the final write it is asleep |
| ReconcileOutcomes.TransitionsAreEarned | internal/controller/sleepschedule_controller.go:168-246 | the sleeping status changes only after a pass without error and a successful final write, and to what the windows and suspension ask for |
| ReconcileOutcomes.DesyncIsCorrected | internal/controller/sleepschedule_controller.go:240-250 | within ten minutes of the wake a desync has every recorded workload restored and no other touched; without one nothing changes |
| ReconcileOutcomes.VerificationNeedsLists | internal/controller/sleepschedule_controller.go:240-250 | a verification with a failing List is an error and touches nothing |
| ReconcileOutcomes.RecordsKeptForTenMinutes | internal/controller/sleepschedule_controller.go:252-258 | an awake schedule drops its records iff ten minutes have passed since the transition and the write succeeds |
| ReconcileOutcomes.NothingToDo | internal/controller/sleepschedule_controller.go:155-291 | suspended or without windows and awake, without windows and asleep, or asleep in a window: nothing changes |
| SleepController.ReportAfterWake | internal/controller/sleepschedule_controller.go:905-1028 | right after a wake without failing calls something is reported iff a listed, recorded Elasticsearch has a nodeSet left at 0 |
| SleepHistories.RecordsAlwaysUnique | internal/controller/sleepschedule_controller.go:687-745 | in every reachable state, whatever fails or is edited, at most one record per kind and name |
| SleepHistories.RecordsAlwaysSound | internal/controller/sleepschedule_controller.go:687-745 | in every reachable state, with failures and outside edits, records are of awake originals, provided that wherever a name has a running nodeSet its last one runs |
| SleepHistories.RecordsSoundExactly | internal/controller/sleepschedule_controller.go:687-745 | with any set of allowed edits that keep the objects and their nodeSet names: records are of awake originals in every state of every history iff each awake object, at the start and after each allowed edit, has a running nodeSet that is the last of its name |
| SleepHistories.DistinctNamesAdmit | internal/controller/sleepschedule_controller.go:1418-1435 | one nodeSet per name is enough for all of these conditions on names |
| SleepHistories.ClearingForgets | internal/controller/sleepschedule_controller.go:252-258 | clearing forgets exactly the recorded objects that are still slept, from any state; nothing is lost iff there are none |
| SleepHistories.ClearingAfterWake | internal/controller/sleepschedule_controller.go:905-1028 | after the wake passes of a morning clearing is harmless iff every record has been restored |
| SleepHistories.WakePassAccounted | internal/controller/sleepschedule_controller.go:905-1028 | on any day a wake pass loses nothing, and one that runs to its end with every Get answered leaves exactly the unremembered objects away |
| SleepHistories.OriginalsAccounted | internal/controller/sleepschedule_controller.go:155-291 | over any reconciles of many nights with any failing calls, the slept objects nobody remembers number exactly the failed status writes plus the still-slept ones dropped by clearing; all others are back or recorded |
| SleepHistories.NightsAndDays | internal/controller/sleepschedule_controller.go:155-291 | once no record is left, everything is back iff no status write failed and no clearing dropped a slept object |
| PodPlacement.ComputePodRequests | internal/controller/binpacker_controller.go:762-789 | the requests of a pod, whose meaning RequestsCoverContainers, SumOneMore and SumPermuted give |
| PodPlacement.RequestsCoverContainers | internal/controller/binpacker_controller.go:762-789 | each resource is at least both sums and equals one of them |
| PodPlacement.SumOneMore | internal/controller/binpacker_controller.go:762-789 | a container more adds exactly its requests, what is absent counts as 0 |
| PodPlacement.SumPermuted | internal/controller/binpacker_controller.go:762-789 | the order of containers does not matter |
| PodPlacement.FitsExactly | internal/controller/binpacker_controller.go:687-716 | a pod fits iff both of its sums fit beside the load, per resource, and the node admits it |
| PodPlacement.SelectorSatisfied | internal/controller/binpacker_controller.go:700-716 | a node admits a pod iff taints are tolerated and each selected label has its value, an empty one also if absent |
| PodPlacement.CoversByOperator | internal/controller/binpacker_controller.go:732-758 | what a toleration with a key covers, operator by operator |
| PodPlacement.WithoutTolerations | internal/controller/binpacker_controller.go:719-740 | a pod without tolerations is kept away by exactly the NoSchedule and NoExecute taints |
| PodPlacement.ToleratesEverything | internal/controller/binpacker_controller.go:719-740 | an Exists toleration without key tolerates every node |
| PodPlacement.PodToleratesTaint | internal/controller/binpacker_controller.go:732-758 | tolerated iff some toleration covers the taint |
| PodPlacement.ToleratesTaints | internal/controller/binpacker_controller.go:719-729 | every NoSchedule and NoExecute taint is covered |
| PodPlacement.CanFitOnNode | internal/controller/binpacker_controller.go:687-716 | fits iff requests stay within allocatable, labels match and taints are tolerated |
| DisruptionBudgets.WorkloadBudget | internal/controller/binpacker_controller.go:541-568 | the tightest PDB selecting the workload, or all but one of its ready replicas |
| DisruptionBudgets.BuildSafetyContext | internal/controller/binpacker_controller.go:469-572 | fails iff a List failed and some pod is resolvable; otherwise resolves exactly the resolvable pods and gives every workload met its budget |
| DisruptionBudgets.BudgetIsUnique | internal/controller/binpacker_controller.go:541-568 | the stated budget is determined |
| DisruptionBudgets.BudgetMeaning | internal/controller/binpacker_controller.go:522-568 | a budget is at most what each selecting PDB allows; where no PDB of the namespace has a readable selector it is all but one of the ready replicas |
| DisruptionBudgets.ResolvesByFirstController | internal/controller/binpacker_controller.go:81-111 | a pod belongs to the StatefulSet, or to the first Deployment of the ReplicaSet, that is its first owner of either kind |
| DisruptionBudgets.CheckEvictable | internal/controller/binpacker_controller.go:404-466 | decides evictability owner by owner |
| DisruptionBudgets.OrdinaryPodIsEvictable | internal/controller/binpacker_controller.go:404-466 | a Deployment's pod is evictable iff its namespace is not excluded and it is no mirror pod, uses no hostPath and is not terminating |
| DisruptionBudgets.MissingWorkloadBudget | internal/controller/binpacker_controller.go:522-568 | a missing workload has a positive budget iff PDBs of its namespace select the empty label set and all of them allow disruptions |
| DisruptionBudgets.EmptySelectorLendsBudget | internal/controller/binpacker_controller.go:555-564 | a concrete PDB that gives a missing workload a budget |
| ConsolidationPlan.FindTargetNode | internal/controller/binpacker_controller.go:672-684 | picks the first target that fits and books the requests on it, changing nothing else |
| ConsolidationPlan.PlanPod | internal/controller/binpacker_controller.go:640-663 | one pod: skipped if its budget is exhausted or it fits nowhere, else load, budget and plan move together |
| ConsolidationPlan.SelectTargets | internal/controller/binpacker_controller.go:620-632 | the targets are exactly the nodes that are not candidates |
| ConsolidationPlan.PlanCandidate | internal/controller/binpacker_controller.go:635-665 | one candidate's pods, with budget, cap and loads updated in place |
| ConsolidationPlan.MovesComeFromItems | internal/controller/binpacker_controller.go:634-665 | planned pods are considered pods |
| ConsolidationPlan.ItemsInOrder | internal/controller/binpacker_controller.go:634-640 | candidates in order, and within a candidate its pods in order |
| ConsolidationPlan.ItemsComeFromCandidates | internal/controller/binpacker_controller.go:634-663 | every considered pod is an evictable pod of the candidate named as its source |
| ConsolidationPlan.BuildConsolidationPlan | internal/controller/binpacker_controller.go:607-669 | the plan, loads and budgets are those of the first-fit simulation; every planned move is from a candidate to a non-candidate; candidates' own loads are untouched |
| PlanProperties.CapacityAndConservation | internal/controller/binpacker_controller.go:620-716 | final load = initial load + the sum of the planned requests, within allocatable if anything was received, and every target admits its pods |
| PlanProperties.ContainersFit | internal/controller/binpacker_controller.go:672-789 | the containers of all pods planned to a target, beside its load, stay within allocatable, for both resources |
| PlanProperties.NoPodTwice | internal/controller/binpacker_controller.go:634-665 | no pod is planned twice |
| PlanProperties.UncappedIsMaximal | internal/controller/binpacker_controller.go:634-668 | without a cap every pod left out has, in the final state, an exhausted budget or no target with room |
| PlanProperties.PlanAllLater | internal/controller/binpacker_controller.go:654-682 | loads only grow, budgets only fall, the plan is only extended |
| PlanProperties.PlanIsMaximal | internal/controller/binpacker_controller.go:634-668 | with a cap this holds iff the plan is the uncapped one (for the converse the pods considered are distinct) |
| PlanProperties.CapIsPrefix | internal/controller/binpacker_controller.go:615-638 | the plan with cap k is the first min(k, n) entries of the uncapped plan of length n |
| PlanProperties.PlannedPodsAreChecked | internal/controller/binpacker_controller.go:449-451 | every planned pod is resolved to its workload, none twice; none is a mirror pod, terminating, on a hostPath, owned by a DaemonSet or in an excluded namespace |
| PlanProperties.PlannedWithinBudget | internal/controller/binpacker_controller.go:640-656 | no workload loses more pods than its initial budget |
| PlanProperties.PlannedCounts | internal/controller/binpacker_controller.go:640-656 | the evictions counted for a workload are the number of its planned moves |
| PlanProperties.DisruptionSafety | internal/controller/binpacker_controller.go:469-656 | the number of evictions of a workload is no more than any selecting PDB allows; without one, a ready replica is left and a missing workload loses none |
| AutoSchedulePolicies.SleepSpecEqualExactly | internal/controller/autoschedulepolicy_controller.go:309-376 | the comparison is equality of the managed fields iff no empty label value is missing on the other side |
| AutoSchedulePolicies.EmptyLabelValueFools | internal/controller/autoschedulepolicy_controller.go:336-343 | two different specs that compare equal, in one direction only |
| AutoSchedulePolicies.ApiServer.OverlappingPolicies | internal/controller/autoschedulepolicy_controller.go:191-220 | the other live policies that select the namespace, suspended ones included |
| AutoSchedulePolicies.ApiServer.DeleteOwned | internal/controller/autoschedulepolicy_controller.go:222-251 | deletes only the policy's schedules and, if it succeeds, all but those to keep |
| AutoSchedulePolicies.ApiServer.ReconcileNamespace | internal/controller/autoschedulepolicy_controller.go:109-171 | one namespace: at most its generated schedule changes, and only to its goal |
| AutoSchedulePolicies.ApiServer.MatchedNamespaces | internal/controller/autoschedulepolicy_controller.go:92-102 | exactly the selected namespaces; an unparsable selector fails unless there is no namespace |
| AutoSchedulePolicies.ApiServer.ReconcileNamespaces | internal/controller/autoschedulepolicy_controller.go:104-171 | the namespaces done so far are at their goal and the counts and lists describe them |
| AutoSchedulePolicies.ApiServer.Reconcile | internal/controller/autoschedulepolicy_controller.go:49-178 | success reaches the goal at every key, failure moves some keys to it; suspension touches nothing, and neither does a policy whose selector does not parse, which fails; deletion removes exactly the policy's own schedules; every write changes its object |
| AutoSchedulePolicies.Convergence | internal/controller/autoschedulepolicy_controller.go:104-178 | owned schedules are exactly at the generated name of namespaces selected alone, with a declared profile and no foreign object; suspension, windows, types, names and labels are those of the profile |
| AutoSchedulePolicies.WrittenFromProfile | internal/controller/autoschedulepolicy_controller.go:133-171 | every schedule a reconcile writes has the suspension, selector and windows of the namespace's profile and nothing else |
| AutoSchedulePolicies.DefaultPolicy | internal/controller/autoschedulepolicy_controller.go:283-299 | a policy without settings selects by the label slumlord.io/sleep-profile and generates auto-sleep |
| AutoSchedulePolicies.OwnNames | internal/controller/autoschedulepolicy_controller.go:283-299 | a profile label and a name of its own replace the defaults |
| AutoSchedulePolicies.SelectorDecides | internal/controller/autoschedulepolicy_controller.go:283-299 | a namespace selector decides by itself |
| AutoSchedulePolicies.EligibleExactly | internal/controller/autoschedulepolicy_controller.go:109-131 | a namespace gets a schedule iff it is selected, its label names a declared profile and every other policy that selects it is being deleted |
| AutoSchedulePolicies.StatusAddsUp | internal/controller/autoschedulepolicy_controller.go:104-177 | matched = generated + conflicts + missing |
| AutoSchedulePolicies.StatusDescribesStore | internal/controller/autoschedulepolicy_controller.go:104-178 | each selected namespace is listed as a conflict or a missing profile for exactly its reason; the others are those with an owned schedule |
| AutoSchedulePolicies.GoalIsStable | internal/controller/autoschedulepolicy_controller.go:152-169 | the goal of the goal is the goal |
| AutoSchedulePolicies.SecondReconcileIsQuiet | internal/controller/autoschedulepolicy_controller.go:161-173 | after a success a further reconcile writes no schedule |
| AutoSchedulePolicies.ForeignSchedulesUntouched | internal/controller/autoschedulepolicy_controller.go:153-160 | no reconcile, successful or not, changes a schedule its policy does not own |
| AutoSchedulePolicies.TurnFailsClosed | internal/controller/autoschedulepolicy_controller.go:113-121 | no policy's turn creates a schedule of q in a namespace q shares; a success of q removes them |
| AutoSchedulePolicies.OnceGoneStaysGone | internal/controller/autoschedulepolicy_controller.go:109-237 | once a policy has succeeded in a namespace it shares, with suspended policies too, none of its schedules is there ever after |
| AutoSchedulePolicies.OverlapFailsClosed | internal/controller/autoschedulepolicy_controller.go:109-237 | in any interleaving, once every active policy selecting a shared namespace has succeeded, no schedule of any of them is there, then or later |
| AutoSchedulePolicies.TurnTidies | internal/controller/autoschedulepolicy_controller.go:113-131 | a turn of any policy keeps the schedules of q where q wants them, a success of q puts them there |
| AutoSchedulePolicies.TurnSettles | internal/controller/autoschedulepolicy_controller.go:133-171 | once a policy has nothing left to delete, its turns leave q with nothing to do if q had nothing to do |
| AutoSchedulePolicies.ConvergesInTwoRounds | internal/controller/autoschedulepolicy_controller.go:49-178 | in any interleaving with failing attempts, once every active policy has succeeded and then succeeded again, all schedules are exactly the wanted ones, as their profiles say, and no turn changes the store again |
| AutoSchedulePolicies.TurnSettlesWithoutLeftover | internal/controller/autoschedulepolicy_controller.go:133-171 | where no active policy has left a schedule another one wants to replace, turns keep settled policies settled |
| AutoSchedulePolicies.OneRoundConverges | internal/controller/autoschedulepolicy_controller.go:49-178 | from such a store one success of every active policy converges, and nothing changes any more |
| AutoSchedulePolicies.OneRoundExactly | internal/controller/autoschedulepolicy_controller.go:49-178 | every interleaving with one success each converges iff the store has no such leftover |
| AutoSchedulePolicies.OneRoundIsNotEnough | internal/controller/autoschedulepolicy_controller.go:152-173 | a concrete leftover: every policy has succeeded once and a wanted schedule is missing |
| IdleDetector.Detector.DetectIdleWorkloads | internal/controller/idledetector_controller.go:206-333 | the idle list is the found workloads with their carried-over times; an error iff a List fails |
| IdleRoundTrip.FoundExactly | internal/controller/idledetector_controller.go:206-333 | found iff listed, selected by type and name, idle and not down already |
| IdleRoundTrip.FailedListChangesNothing | internal/controller/idledetector_controller.go:138-145 | a check with a failing List changes nothing |
| IdleDetector.Detector.ScaleDownWorkload | internal/controller/idledetector_controller.go:641-731 | one scale-down or suspend and its record; a failed call changes nothing |
| IdleRoundTrip.CanScaleIsAwake | internal/controller/idledetector_controller.go:645-731 | there is something to scale iff a sleep schedule would call the workload awake |
| IdleRoundTrip.RecordHoldsOriginal | internal/controller/idledetector_controller.go:645-731 | the record stands for the original: what it restores is equivalent to the workload scaled down |
| IdleRoundTrip.ScaledDownIsDown | internal/controller/idledetector_controller.go:590-731 | what a check scales down ends at 0 replicas or suspended |
| IdleDetector.Detector.ScaleDownIdleWorkloads | internal/controller/idledetector_controller.go:590-638 | the pass is the specified one, status persisted after each scale-down |
| IdleDetector.Detector.Reconcile | internal/controller/idledetector_controller.go:138-178 | one check in scale mode: detect, scale down, persist |
| IdleDetector.Detector.RestoreScaledWorkloads | internal/controller/idledetector_controller.go:736-818 | writes originals back and keeps the failed records in order |
| IdleDetector.Detector.RestoreResizedWorkloads | internal/controller/idledetector_controller.go:1094-1115 | keeps exactly the resized records whose restore failed |
| IdleDetector.Detector.ReconcileDeletion | internal/controller/idledetector_controller.go:76-100 | the deletion branch with its progress writes and finalizer |
| IdleRoundTrip.LivedSoundly | internal/controller/idledetector_controller.go:66-178 | after any checks, whatever failed, each workload is as it was or down, and each persisted record is of the true original |
| IdleRoundTrip.IdleRoundTrip | internal/controller/idledetector_controller.go:66-178 | after any checks and any deletion attempts that end without the finalizer, a workload is equivalent to what it was before the first check iff it was never touched or its record was persisted |
| IdleRoundTrip.NothingLost | internal/controller/idledetector_controller.go:138-178 | if the status writes succeed, every workload is untouched or recorded |
| IdleRoundTrip.FinalizerNeedsItsWrite | internal/controller/idledetector_controller.go:76-100 | an attempt whose finalizer write fails leaves the finalizer |
| IdleRoundTrip.UnsupportedIsKept | internal/controller/idledetector_controller.go:736-818 | a record of a kind that is never scaled is kept without a failure of its own |
| IdleRoundTrip.IncompleteIsDropped | internal/controller/idledetector_controller.go:736-818 | a record without its original is dropped, with nothing written |
| IdleDetection.IdleSinceIsStreakStart | internal/controller/idledetector_controller.go:230-248 | a workload is listed iff the last check found it idle, since the check at which its unbroken run began |
| IdleDetection.IdleListFollowsHistory | internal/controller/idledetector_controller.go:138-178 | whatever fails, the persisted idle list is that of the checks that were persisted, by the final or any other status write |
| IdleDetection.HistoryIsComplete | internal/controller/idledetector_controller.go:138-178 | if the status writes succeed these are all completed checks |
| IdleDetection.ScaleDownNeedsStreak | internal/controller/idledetector_controller.go:590-638 | whatever fails, a scale-down at T implies an unbroken run of idle findings over the persisted checks that began at or before T - idleDuration |
| IdleDetection.ScaleDownExactly | internal/controller/idledetector_controller.go:590-638 | whatever failed before, a check without failing calls scales a found workload down iff this streak is long enough, it is not scaled and has something to scale |
| IdleDetection.UnsavedBusyCheckIsForgotten | internal/controller/idledetector_controller.go:143-174 | a busy check whose status write fails is forgotten: idle at 0, busy at 10, scaled down at 20 for 20 idle seconds |
| IdleDetection.ScaledRecordsAlwaysSound | internal/controller/idledetector_controller.go:602-731 | one record per kind and name, with an awake original, whatever fails |
| IdleDetection.RestoreAllKeepsFailures | internal/controller/idledetector_controller.go:736-818 | a restore pass lets go exactly the records it wrote back, keeps the rest in order, and fails iff any is kept |
| IdleDetection.RestoreAllWritesBack | internal/controller/idledetector_controller.go:736-818 | a pass leaves the originals of the records it lets go and every other workload as it was |
| IdleDetection.RestoreLosesNothing | internal/controller/idledetector_controller.go:76-100 | over failing and retried deletions records leave only once written back, the rest keep their order, and the finalizer goes only when none remains |
| IdleDetection.MissingWorkloadHoldsDeletion | internal/controller/idledetector_controller.go:747-753 | a recorded workload that no longer exists holds the finalizer forever |
| IdleDetection.QuietAttemptCompletes | internal/controller/idledetector_controller.go:76-100 | an attempt without failing calls completes iff every recorded workload exists |
| NodeDrain.FindDrainCandidates | internal/controller/nodedrainpolicy_controller.go:513-534 | exactly the nodes below the CPU or the memory threshold, in order |
| NodeDrain.SortByUtilization | internal/controller/nodedrainpolicy_controller.go:180-184 | a permutation with the lowest utilization first |
| NodeDrain.CountReady | internal/controller/nodedrainpolicy_controller.go:196-202 | the evaluated nodes whose Ready condition is True |
| NodeDrain.ReadyExactly | internal/controller/nodedrainpolicy_controller.go:649-656 | ready iff the first condition of type Ready is True |
| NodeDrain.ReadyOutsideCounts | internal/controller/nodedrainpolicy_controller.go:196-202 | the ready nodes left alone, counted as a number of nodes |
| NodeDrain.MaxDrainable | internal/controller/nodedrainpolicy_controller.go:186-210 | the ready nodes to spare, at most maxNodes, never negative |
| NodeDrain.PrefixIsSelection | internal/controller/nodedrainpolicy_controller.go:180-215 | cutting the sorted candidates selects the least utilized ones, all of them if there are few |
| NodeDrain.SelectNodes | internal/controller/nodedrainpolicy_controller.go:176-215 | the selection of a run: bounded by maxNodes and by the ready nodes to spare |
| NodeDrain.SelectionIsAsLargeAsAllowed | internal/controller/nodedrainpolicy_controller.go:176-215 | a selection leaves a candidate out only at one of its limits, and then none less utilized than the selected |
| NodeDrain.EnoughReadyNodesRemain | internal/controller/nodedrainpolicy_controller.go:186-215 | at least min(ready, minReady) of the evaluated ready nodes stay untouched |
| NodeDrain.Cluster.Drain | internal/controller/nodedrainpolicy_controller.go:224-318 | drained only if cordoned and emptied, deleted only if moreover asked for and the deletion succeeded; a timed-out drain that is uncordoned leaves the node as it was, a dry run leaves everything |
| NodeDrain.Cluster.Conclude | internal/controller/nodedrainpolicy_controller.go:292-318 | a result is counted and, if the node was drained, the status persisted unless that write fails |
| NodeDrain.ResultReports | internal/controller/nodedrainpolicy_controller.go:224-275 | what a result reports about its node and how many of its pods were evicted |
| NodeDrain.ActionsCount | internal/controller/nodedrainpolicy_controller.go:292-318 | the counters are numbers of results |
| NodeDrain.Cluster.DrainSelected | internal/controller/nodedrainpolicy_controller.go:224-304 | the selected nodes one by one: results, effects, counters and persisted progress; nothing else touched |
| NodeDrain.Cluster.DrainRun | internal/controller/nodedrainpolicy_controller.go:155-323 | results of exactly the selected nodes, nothing else touched, at most maxNodes, enough ready nodes left; every drained, deleted, failed or cordoned node has earned it; counters are numbers of results, and the persisted status is the final one or the last one whose write succeeded |
| NodeDrain.UncountedNodes | internal/controller/nodedrainpolicy_controller.go:312-336 | when the final write fails, the persisted total lacks exactly the nodes drained after the last successful progress write |

## Left out

- Time zone database, daylight saving jumps and the parsing of clock times: windows start from minutes and a fixed offset.
- Counts stored as floating-point numbers in unstructured objects: all counts are integers.
- An object without a `spec` is treated as one whose managed field is absent; the two differ only in that verification does not report a replica-based resource without a `spec`.
- Malformed nodeSet entries and unreadable nodeSet records: the JSON text of a record is modelled as the map it encodes.
- Informer staleness, update conflicts other than as failing writes, watches, events, metrics, conditions and log text.
- The display of scheduled days, and the choice among and sorting of the bin packer's candidates: the planner is proved for any candidates in any order.
- Node utilization percentages and the metrics arithmetic behind "idle": both are inputs.
- In-place pod resize, except that a deletion waits for every resized record to be restored.
- Sorting of the namespaces and policies named in a policy's status; status lists are in namespace order of the listing, overlaps are sets.
- AutoSchedulePolicies.OverlapFailsClosed: inputs are fixed and policies undeleted during an interleaving, as label or policy edits start a new one; so too for the convergence theorems.
- OperatorOrder.OperatorOrdering: speaks of the first night and its mornings, as does OperatorOrderingExactly; later nights are the subject of OperatorHistories.OperatorsResumeLast and, pass by pass, of OperatorOrder.PassOrderedExactly.
- Cron expressions of drain policies, and the wait of a drain, which is one outcome per node.
