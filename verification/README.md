# TimeTerra: a verified model of its in-process state

TimeTerra is a Kubernetes operator that runs actions on managed resources on a cron schedule. Three parts of
it keep state that has to stay right over whole runs, and this project models those three and proves what
they guarantee. `dafny verify dfyconfig.toml` checks all of it.

**Vertical scaling.** An execution resizes a database cluster in phases that survive restarts: readers first,
then a failover, then the old writer. `Aurora` turns raw cloud replies into a writer, its readers and an
availability verdict. `ScaleProtocol` is one pass as a function of the stored status and the environment's
answers; `ScaleController` is the handler and the controller as objects that update their state in place,
each method proved against that function. `ScaleRuns` builds runs out of passes with arbitrary answers,
refused writes, crashes at any point and deletions by others, and proves the invariant. `ScaleSafety`,
`ScaleProgress`, `ScaleReplay`, `ScaleEnding`, `ScaleBound` and `ScaleCompletion` draw the conclusions,
`ScaleNotices` says whom the notifications reach, and `ScaleDriver` takes the controller object itself through
any run. `ScalePass` tells each pass by the raw answers it gets: its calls, its outcome, its time-out and its
notification. Every history holds the raw replies, so the conclusions reach from the cloud's answers to the
notification.

**The cron registry.** `CronService` is the schedule service: a nested map, the cron entries and a gauge, with
loops over maps in arbitrary order. It is proved to refine the flat registry of `CronRegistry`.
`ResourcePass` and `SchedulePass` are the two reconcilers that share it, `Conditions` the status conditions
both write, and `RegistryRuns` any sequence of their passes. `ResourceOutcome` tells by the raw specs what a
resource pass comes to. `ResourceStatus` is what a pass tells about the registry, `StatusRuns` what the conditions
in the store tell over runs with lost writes, job reports and restarts, and `StatusWitnesses` runs in which they
are wrong. `RegistryRace` takes the passes apart into their locked calls and interleaves them. `RegistryDriver`
takes the service object through any run. `PeriodGate` is what a job does when it fires.

**Notifications.** `NotificationIndex` is the recipient index and the policy controller that feeds it.
`NotificationQueue` and `NotificationDelivery` are the service as a concurrent system: senders, workers,
policy changes and shutdown as interleaved atomic steps. `NotificationGap` is a policy pass among
them, `NotificationShutdown` the way to the end, and `NotificationDriver` ties the object to the concurrent
system and takes it through any policy changes.

Passes over Go maps are modelled with an arbitrary choice of the next key, so every statement about such a
pass holds for every iteration order.

## Where the code and its promises part

Each item names the member that exhibits it and, where a condition decides it, the one that states the exact
condition.

- A cluster that lists its writer as a follower too has it resized with the readers, before any failover
  (`ScaleSafety.WriterModifiedEarly`). The pass over the readers resizes the recorded writer if and only if it
  is recorded as a reader (`ScaleSafety.WriterModifiedEarlyIff`); no other pass resizes it too early
  (`ScaleSafety.WriterModifiedLast`), and with distinct listings none does
  (`ScaleSafety.WriterFreeWhenDistinct`).
- A status is never written by a pass that finishes, so a refused delete call replays it and notifies again
  (`ScaleEnding.NotifiedTwice`), and so does a crash between notification and delete call
  (`ScaleEnding.NotifiedAfterCrash`). There is one notification if and only if neither happened
  (`ScaleEnding.NoticesCounted`).
- The notification of an execution carries the action's name as its schedule
  (internal/controller/actionexecution_controller.go:161), so the recipients of the schedule that launched it
  do not hear of it (`ScaleNotices.NoticeMissesSchedule`), unless schedule and action have the same name
  (`ScaleNotices.NoticeReachesIff`).
- A cluster reply with two members flagged as writer loses one of them (`Aurora.TwoWritersLoseOne`); a
  description accounts for every listed instance if and only if the reply is unambiguous
  (`Aurora.DescribePartitions`).
- Adding a key that is already there leaves an entry that no key reaches and counts the key twice
  (`CronRegistry.AddedTwice`); adding keeps the registry sound if and only if the key is absent
  (`CronRegistry.AddKeepsInvIff`). A resource pass that nothing interrupts adds absent keys only
  (`RegistryRuns.PassEdits`). One whose id a refresh replaces between its snapshot and its look takes its own
  entry for dead and adds the key again (`RegistryRace.EntryLost`); the registry stays sound if and only if
  that does not happen (`RegistryRace.SoundIffCalm`).
- A schedule pass stops at the first live action that the schedule dropped, so which of the others are
  refreshed depends on the order of a Go map; a refresh is certain if and only if no live action was dropped
  (`RegistryRuns.RefreshSureIff`).
- The conditions of a resource do not always call active exactly the scheduled actions. They are wrong when the
  write of the pass that schedules an action is lost (`StatusWitnesses.LostAddition`) or that of the pass that
  drops one (`StatusWitnesses.LostRemoval`), when an action is dropped while no operator runs
  (`StatusWitnesses.DroppedInTheGap`), and when a job fails (`StatusWitnesses.FailedJob`); later passes do not
  repair it (`StatusRuns.WrongStays`). The exact conditions are `ResourceStatus.LostPassIff`,
  `ResourceStatus.RestartIff` and `ResourceStatus.JobReportIff`, and for any run `StatusRuns.TrueIffAccurate`
  (at its end) and `StatusRuns.RunTruthful` (all along).
- A job that fires inside a period is skipped when its minute began before the period
  (`PeriodGate.MissedInside`), and only then (`PeriodGate.InsideCovered`). The firing closure does not look at
  whether a period is valid: one that ends before it starts still matches the minutes its ends name
  (`PeriodGate.CoversWhen`).
- A policy that lists a schedule twice counts its recipient twice for good
  (`NotificationIndex.ListedTwice`); a gauge value is right if and only if no pass ever did that
  (`NotificationIndex.GaugeExactIff`).
- A policy pass removes its recipient before it adds it again, and a notification that is picked up in between
  never reaches it (`NotificationGap.LostInPass`); it misses the recipient if and only if its snapshot falls
  between the two (`NotificationGap.MissedIff`).

## Model

| member | source | states |
|---|---|---|
| `Aurora.Chosen` | internal/action/aurora_scale.go:46-55 | The chosen cluster is one of the reply, and has the identifier whenever any does |
| `Aurora.FindCluster` | internal/action/aurora_scale.go:46-55 | The search loop returns the first cluster with the identifier, or the first of the reply |
| `Aurora.SplitMembers` | internal/action/aurora_scale.go:57-69 | The loop over the members gives the last flagged writer and, in order, every named member not flagged |
| `Aurora.SplitInstances` | internal/action/aurora_scale.go:88-100 | The second fallback gives the matching instances in order, split into head and tail after leading empty names are dropped |
| `Aurora.DescribeCluster` | internal/action/aurora_scale.go:35-109 | The two loops and two fallbacks together compute the specification that `DescribesIff` characterises, failures included |
| `Aurora.Describe` | internal/action/aurora_scale.go:104-108 | A successful description never has an empty writer |
| `Aurora.DescribesIff` | internal/action/aurora_scale.go:35-109 | Over the raw reply, a description gives a writer and readers if and only if the reply reports them: the last member flagged as writer and the members not flagged in list order, or the only member, or without members the first named matching instance and the matches after it; anything else fails |
| `Aurora.FlaggedMemberWrites` | internal/action/aurora_scale.go:57-69 | When a named member is flagged as writer and no later named one is, it is the writer; an identifier is among the readers if and only if a named member without the flag has it, and the readers stand in list order |
| `Aurora.DescribePartitions` | internal/action/aurora_scale.go:57-108 | Writer and readers are, as a multiset, exactly the listed instances if and only if at most one member is flagged (or, without members, the first match is not an empty name) |
| `Aurora.DescribeSeparates` | internal/action/aurora_scale.go:57-108 | With distinct identifiers and an unambiguous reply: the writer is no reader, readers do not repeat, and nothing listed is lost |
| `Aurora.TwoWritersLoseOne` | internal/action/aurora_scale.go:60-69 | With two flagged members the first is reported neither as writer nor as reader |
| `Aurora.WriterListedAsReader` | internal/action/aurora_scale.go:60-69 | One identifier listed as writer and as follower is reported in both roles |
| `Aurora.Check` | internal/action/aurora_scale.go:120-140 | All available if and only if each instance's own reply says available at the class; an error if and only if a reply fails after only good ones |
| `Aurora.VerdictTells` | internal/action/aurora_scale.go:120-140 | Over the raw replies: all available exactly when each reply names an instance whose status is "available" and whose class is the requested one; not ready or failed by the first reply that is not |
| `Aurora.CheckInstancesAvailable` | internal/action/aurora_scale.go:120-140 | The early-return loop computes that verdict |
| `ScaleProtocol.ModifyCalls` | internal/action/generic_scale.go:83-89 | The modify calls name the readers in order, at the requested class, with their own answers; all but the last were accepted, and readers are left out only behind a refusal |
| `ScaleProtocol.CompleteCalls` | internal/action/generic_scale.go:83-89 | When every answer is positive no reader is left out |
| `ScaleController.GenericScaleHandler.ModifyReaders` | internal/action/generic_scale.go:83-89 | The loop makes exactly these calls, stopping at the first refusal, and succeeds exactly when all answers are positive |
| `ScaleController.GenericScaleHandler.RecoverWriter` | internal/action/generic_scale.go:121-129 | Rediscovery describes the cluster only when no writer is on record, and changes only the writer |
| `ScaleController.GenericScaleHandler.Initialize` | internal/action/generic_scale.go:54-77 | Calls, status, result and requeue of the first phase |
| `ScaleController.GenericScaleHandler.ScaleReplicas` | internal/action/generic_scale.go:79-91 | The same for resizing the readers |
| `ScaleController.GenericScaleHandler.AwaitReplicas` | internal/action/generic_scale.go:93-109 | The same for waiting for the readers |
| `ScaleController.GenericScaleHandler.FailOver` | internal/action/generic_scale.go:111-119 | The same for the failover |
| `ScaleController.GenericScaleHandler.AwaitFailover` | internal/action/generic_scale.go:121-143 | The same for waiting for another writer, with its rediscovery branch |
| `ScaleController.GenericScaleHandler.ScaleWriter` | internal/action/generic_scale.go:145-166 | The same for resizing the old writer, with its rediscovery branch |
| `ScaleController.GenericScaleHandler.AwaitOldWriter` | internal/action/generic_scale.go:168-190 | The same for waiting for the old writer, with its rediscovery branch |
| `ScaleController.GenericScaleHandler.Execute` | internal/action/generic_scale.go:29-197 | The handler in place does what the protocol function says, for every stored phase, unknown ones included, and every parameter error; what that is, `ScalePass.LastCallDecides`, `RediscoveryFinds`, `RediscoveryFails` and `OtherStatuses` tell |
| `ScaleController.ActionExecutionReconciler.FinalizeAndDelete` | internal/controller/actionexecution_controller.go:121-167 | One notification, then one delete call; the object changes only by the delete call's answer |
| `ScaleController.ActionExecutionReconciler.WriteBack` | internal/controller/actionexecution_controller.go:130-136 | One status write; the object changes only by its answer, and a refused write leaves it |
| `ScaleController.ActionExecutionReconciler.Handle` | internal/controller/actionexecution_controller.go:101-115 | The handler on its own copy of the object returns what the protocol function says |
| `ScaleController.ActionExecutionReconciler.Conclude` | internal/controller/actionexecution_controller.go:121-138 | A finished pass notifies and deletes and never writes the status; any other writes it and nothing else |
| `ScaleController.ActionExecutionReconciler.Reconcile` | internal/controller/actionexecution_controller.go:63-139 | One pass in place is one step of the protocol: fetch, timeout, handler, then finalize or write back; what that is, `ScalePass.TimesOutIff`, `PassCloses` and `PassesIdle` tell |
| `ScaleDriver.CrashIn` | internal/controller/actionexecution_controller.go:63-139 | A process that dies inside a pass leaves the stored object as it was and the calls it had made |
| `ScaleDriver.Drive` | internal/controller/actionexecution_controller.go:63-139 | The controller object driven through any steps reaches the world of that run, backed by its history and well ended |
| `ScaleRuns.ExecuteKeeps` | internal/action/generic_scale.go:53-197 | Every phase keeps the invariant that ties the status it leaves to the evidence in the history |
| `ScaleRuns.RunGood` | internal/controller/actionexecution_controller.go:63-139 | In every run the stored status is backed by its history: modifies, availability reports, failover and new writer, in that order |
| `ScaleSafety.Added` | internal/controller/actionexecution_controller.go:63-139 | A step only appends to the history, and appends only what its pass over a live object does |
| `ScaleSafety.WriterModifiedLast` | internal/action/generic_scale.go:79-166 | In every run a step that modifies the recorded writer finds, unless no readers are on record, in order: every reader modified, all reported available at the class, a failover, another writer; this holds exactly for steps other than the one over the readers, and fails only if the record names the writer as a reader |
| `ScaleSafety.WriterModifiedEarlyIff` | internal/action/generic_scale.go:79-91 | A pass that resizes all readers comes before any failover and resizes the recorded writer if and only if it is recorded as a reader |
| `ScaleSafety.WriterFreeWhenDistinct` | internal/action/generic_scale.go:79-166 | When every description lists distinct instances with at most one writer, the writer is never modified before its time |
| `ScaleSafety.WriterModifiedEarly` | internal/action/generic_scale.go:54-91 | A run that records one instance in both roles and resizes it before any failover |
| `ScaleSafety.SuccessorServes` | internal/action/generic_scale.go:93-166 | With fixed membership, when the old writer is modified the latest reported writer is a recorded reader already reported available at the class |
| `ScaleSafety.SuccessPhase` | internal/action/generic_scale.go:168-187 | Success is announced only from the last waiting phase, on a positive check of the recorded writer |
| `ScaleSafety.DoneWell` | internal/action/generic_scale.go:183-186 | The handler finishes without an error only from the last waiting phase on a positive check of the recorded writer |
| `ScaleSafety.SuccessMeansScaled` | internal/controller/actionexecution_controller.go:121-149 | A success notification implies that every recorded reader and the writer was reported available at the requested class in this run |
| `ScalePass.LastCallDecides` | internal/action/generic_scale.go:29-190 | In every run a prepared pass makes the calls of its stored phase and its last answer decides: it fails exactly on a refusal, moves on to the next phase exactly when it got what it waits for, and is repeated at once, after 30 or after 60 seconds accordingly; an unprepared pass calls nothing |
| `ScalePass.RediscoveryFinds` | internal/action/generic_scale.go:121-180 | From any status: with no writer on record a pass that finds one goes on as if it had been on record, after one more call |
| `ScalePass.RediscoveryFails` | internal/action/generic_scale.go:121-180 | While none is found the resize of the writer fails, and the two waits go on without a name |
| `ScalePass.OtherStatuses` | internal/action/generic_scale.go:79-196 | What a pass does over a status with no readers to resize, a finished one and an unknown phase |
| `ScalePass.RefusedModifyStops` | internal/action/generic_scale.go:83-89 | In every run, after a refused modify the step makes no further cluster call; it crashes or writes the status back as it was, and a live object keeps its status |
| `ScalePass.ReadersCalledInOrder` | internal/action/generic_scale.go:79-91 | In every run a step over the readers modifies them down the list at the execution's class, each but the last accepted, and leaves readers out only behind a refusal or a crash |
| `ScalePass.TimesOutIff` | internal/controller/actionexecution_controller.go:80-95 | In every run a fetched pass over a live execution announces a time-out if and only if the execution is older than the operator's limit, or than 1,800,000,000,000 ns when the limit is not positive, and then does nothing but notify and delete |
| `ScalePass.PassCloses` | internal/controller/actionexecution_controller.go:80-138 | In every run such a pass calls the cluster exactly when it is prepared and in time, and asks one thing of the store, last: the deletion, right after the notification, or the status; the object is what the answer makes of it |
| `ScalePass.PassesIdle` | internal/controller/actionexecution_controller.go:65-119 | A pass that cannot read the object, or is in time over an unknown kind of action, changes nothing |
| `ScalePass.NoticeTells` | internal/controller/actionexecution_controller.go:141-167 | The five fields of every notification of every run: its names, time-out exactly when late, error exactly when in time but not prepared, and the phase that goes with each |
| `ScaleProgress.StatusForward` | internal/controller/actionexecution_controller.go:121-136 | Between any two points of a run the stored phase does not move back, the recorded writer and readers do not change, and the phase is never completed, timed out or unknown |
| `ScaleProgress.NoRecoveryBranch` | internal/action/generic_scale.go:121-196 | In no run is the writer rediscovered or an unknown phase met; a pass ends with an error exactly on its set-up or parameters |
| `ScaleProgress.FailoversBounded` | internal/action/generic_scale.go:111-119 | In every run failovers are at most one more than refused status writes and crashes, and none is unpaid before the failover is stored |
| `ScaleProgress.FailoversOfSuccess` | internal/action/generic_scale.go:71-119 | A successful run has no failover without readers; with readers at least one and at most one more than its losses, so exactly one without losses |
| `ScaleReplay.RequestedIs` | internal/action/generic_scale.go:83-89 | With one class in the history, the requested-class map is that class at exactly the instances modified successfully |
| `ScaleReplay.RequestsOnTarget` | internal/action/generic_scale.go:79-166 | In every run each requested class is the execution's own, and only for recorded instances |
| `ScaleReplay.WorkedPassModifies` | internal/action/generic_scale.go:79-166 | After a pass that worked, every instance its phase may modify has been modified successfully |
| `ScaleReplay.ReplayHarmless` | internal/controller/actionexecution_controller.go:130-136 | A pass that did its work but was not stored, by a refused write or delete or by a crash after its last cluster call, leaves the object as it was, and its replay leaves every requested class as it was |
| `ScaleEnding.RunEnds` | internal/controller/actionexecution_controller.go:121-128 | In every run notifications and delete calls pair up except where a crash intervenes, at most one delete call is not refused, and it comes last |
| `ScaleEnding.DeletedStaysSilent` | internal/controller/actionexecution_controller.go:66-95 | After a delete call that was not refused nothing more happens, whatever steps follow |
| `ScaleEnding.NoticesCounted` | internal/controller/actionexecution_controller.go:121-128 | A deleted execution notified once, once more for each refused delete call and once more for each crash between notification and delete call; exactly once if and only if there was neither |
| `ScaleEnding.RunNotices` | internal/controller/actionexecution_controller.go:121-128 | In every run notifications are as many as delete calls plus crashes between notification and delete call |
| `ScaleEnding.NotifiedTwice` | internal/controller/actionexecution_controller.go:121-128 | A run that notifies twice: the first delete call is refused, the second taken |
| `ScaleEnding.NotifiedAfterCrash` | internal/controller/actionexecution_controller.go:121-128 | A run that notifies twice: the process dies after the first notification |
| `ScaleBound.Pacing` | internal/action/generic_scale.go:77-190 | Each undisturbed pass raises the phase or moves its due time by half a minute |
| `ScaleBound.RunBounded` | internal/controller/actionexecution_controller.go:80-95 | Before the pass that finalizes, an undisturbed run takes at most six raising passes and at most timeout/30s + 1 waiting ones |
| `ScaleCompletion.CompletesInSeven` | internal/action/generic_scale.go:53-197 | From every state any run reaches, seven passes that meet no obstacle complete the execution, and its last events are the success notification and the delete call |
| `ScaleCompletion.NoDeadEnd` | internal/controller/actionexecution_controller.go:63-139 | In every run, while the execution exists and its time is not up, some continuation completes it with success |
| `ScaleNotices.NoticesNameAction` | internal/controller/actionexecution_controller.go:160-166 | In every run every notification carries the action's name as its schedule |
| `ScaleNotices.NoticeReachesIff` | internal/controller/awsrdsauroracluster_controller.go:139-154 | For an execution launched by a cron entry, its notifications reach the recipients of that entry's schedule under every index if and only if schedule and action have the same name |
| `ScaleNotices.NoticeMissesSchedule` | internal/controller/actionexecution_controller.go:160-166 | A recipient registered for the launching schedule that no notification of the execution reaches |
| `CronRegistry.AddKeepsInvIff` | internal/cron/schedule_service.go:61-81 | Adding keeps keys, live entries and gauge in agreement if and only if the key is absent |
| `CronRegistry.AddedTwice` | internal/cron/schedule_service.go:76-78 | A key added twice: two live entries, one key, gauge two |
| `CronRegistry.RemoveKeepsInv` | internal/cron/schedule_service.go:89-103 | Removing a present key keeps the bijection, the jobs and the gauge counts |
| `CronRegistry.RefreshKeepsInv` | internal/cron/schedule_service.go:177-207 | Replacing an entry under a key keeps them too |
| `CronRegistry.OpsEdit` | internal/controller/resource_controller.go:109-278 | Removals and fresh additions in any order amount to one edit: removed keys gone, added keys at new ids, every other key with its id and entry |
| `CronRegistry.OpsRefresh` | internal/controller/schedule_controller.go:164-190 | Refreshes of distinct keys in any order amount to one: those keys at new ids and texts, every other key unchanged |
| `CronService.PutRefines` | internal/cron/schedule_service.go:70-76 | Storing in the nested map, creating inner maps, is storing in the flat one |
| `CronService.DropRefines` | internal/cron/schedule_service.go:100 | Deleting from the nested map is deleting from the flat one |
| `CronService.ScheduleService.Add` | internal/cron/schedule_service.go:61-81 | Succeeds exactly on a valid text, under a fresh id; on failure nothing changes |
| `CronService.ScheduleService.Remove` | internal/cron/schedule_service.go:83-103 | Removes the key, its entry and one from the gauge; an absent key changes nothing |
| `CronService.ScheduleService.GetActions` | internal/cron/schedule_service.go:105-122 | The copy holds exactly the schedule's keys with their ids |
| `CronService.ScheduleService.GetActionsOfResource` | internal/cron/schedule_service.go:124-139 | The result holds exactly the resource's actions under the schedule with their ids |
| `CronService.ScheduleService.RemoveActionsOfResourceFromNonCurrentSchedule` | internal/cron/schedule_service.go:141-157 | Removes exactly the resource's keys under other schedules, in any order, and returns their actions |
| `CronService.ScheduleService.RemoveResource` | internal/cron/schedule_service.go:159-170 | Removes exactly the resource's keys, in any order |
| `CronService.ScheduleService.UpdateCronSpec` | internal/cron/schedule_service.go:177-207 | Replaces the entry exactly when key and entry are there and the text is valid; otherwise changes nothing |
| `ResourcePass.DropUndefined` | internal/controller/resource_controller.go:117-130 | Removes exactly the keys whose action the spec does not name, with their conditions, and returns exactly the named actions that are scheduled |
| `ResourcePass.AddMissing` | internal/controller/resource_controller.go:132-286 | Removes inactive actions and adds exactly the missing ones the schedule defines, or stops at one whose text is invalid; what stands under every condition type afterwards |
| `ResourcePass.HandleAction` | internal/controller/resource_controller.go:132-268 | One round of the loop over the spec: removes, skips, adds, or fails exactly on an invalid text that has to be added |
| `ResourcePass.AddAction` | internal/controller/resource_controller.go:145-268 | An action that has to be added is added exactly when its text is valid |
| `ResourcePass.Forget` | internal/controller/resource_controller.go:109-115 | The conditions of exactly the actions removed with other schedules go |
| `ResourcePass.DisableResource` | internal/controller/resource_controller.go:306-318 | Removes exactly the resource's keys and the conditions whose type starts like an action's |
| `ResourcePass.ReconcileResource` | internal/controller/resource_controller.go:63-287 | A pass applies exactly the operations its outcome allows (disabled, schedule missing, failed or done), leaves exactly the conditions that go with it, and keeps condition types unique |
| `RegistryRuns.PassEdits` | internal/controller/resource_controller.go:109-160 | A pass adds only keys that are absent and touches only its own resource's keys; it clears other schedules even when it fails |
| `RegistryRuns.DoneEdit` | internal/controller/resource_controller.go:109-278 | A pass without errors is exactly: unsupported keys gone, wanted keys added at the schedule's texts, all else unchanged down to ids |
| `RegistryRuns.DoneSchedules` | internal/controller/resource_controller.go:109-278 | After it an action is scheduled if and only if the spec has it active and it was scheduled already or the schedule defines it |
| `RegistryRuns.FailsIff` | internal/controller/resource_controller.go:257-268 | A pass fails if and only if it must add an action whose text is invalid |
| `RegistryRuns.PassTwice` | internal/controller/resource_controller.go:109-278 | A second pass with the same inputs ends well and changes nothing, not even an id |
| `RegistryRuns.OtherResourcesKept` | internal/controller/resource_controller.go:82-278 | No pass changes another resource's keys, ids or entries |
| `RegistryRuns.ResourceGone` | internal/controller/resource_controller.go:306-318 | After a disable or delete pass the resource has no key and every other key is unchanged |
| `RegistryRuns.RunKeeps` | internal/cron/schedule_service.go:61-207 | After any sequence of passes: keys and live entries in bijection, each entry with its key's job, each gauge value its key count, no resource under two schedules |
| `RegistryRuns.AfterSchedule` | internal/controller/schedule_controller.go:164-190 | After a settled schedule's pass each of its live entries has the schedule's text and the same job; the rest is unchanged |
| `RegistryRuns.AfterRefreshes` | internal/controller/schedule_controller.go:165-190 | After a pass that met the live actions but some, exactly the entries of those it met are at the schedule's text, with the same job |
| `RegistryRuns.RefreshSureIff` | internal/controller/schedule_controller.go:165-179 | Over all orders of the loop, an entry is sure to be at the schedule's text if and only if no live action was dropped or it had that text before |
| `RegistryRuns.RefreshesTell` | internal/controller/schedule_controller.go:85-190 | Over the raw spec: an inverted period or an invalid text refreshes nothing; without them and without a dropped live action every live entry of the schedule gets the spec's text; no other entry changes |
| `RegistryRuns.AfterResource` | internal/controller/resource_controller.go:109-278 | What runs under every key after a pass without errors, in terms of the registry before |
| `RegistryRuns.PassesCommute` | internal/controller/schedule_controller.go:164-190 | A schedule pass and a resource pass commute up to ids, and leave every live entry of the schedule at the text it gives the action |
| `ResourceOutcome.ResultIs` | internal/controller/resource_controller.go:82-286 | The outcome of a pass by the raw specs: disabled, schedule missing, or failed exactly when some active action that is not scheduled yet has an invalid text |
| `ResourceOutcome.KeysAfter` | internal/controller/resource_controller.go:82-278 | After any pass, however it ends, a key of its resource is kept with its id and entry, or new with its own job at the schedule's text, or gone; which are certainly gone or kept in each case |
| `ResourceOutcome.StatusTells` | internal/controller/resource_controller.go:82-286 | The conditions after each outcome with their types, values and reasons written out: per action "Disabled", "MissingAction", "Active" or "Error", cleared when outdated, kept otherwise |
| `ResourceStatus.TruthfulKept` | internal/controller/resource_controller.go:82-286 | Every pass whose write is taken, however it ends, keeps truthful conditions truthful |
| `ResourceStatus.TrueIffSpoken` | internal/controller/resource_controller.go:82-286 | For any conditions and any outcome: after a pass whose write is taken an action's condition is true if and only if it was before or the pass speaks of the action |
| `ResourceStatus.ConditionsSettle` | internal/controller/resource_controller.go:109-286 | A second pass with the same inputs leaves every condition as it is |
| `ResourceStatus.LostStatusStays` | internal/controller/resource_controller.go:145-158 | Whatever the conditions were, a repeated pass leaves the condition of every action scheduled by then as it was |
| `ResourceStatus.LostPassIff` | internal/controller/resource_controller.go:109-286 | After a lost pass and its repetition, a condition that was true is true if and only if the lost pass neither scheduled the action for the first time nor dropped it as no longer named |
| `ResourceStatus.RestartIff` | internal/controller/resource_controller.go:109-286 | After the first pass of a new operator over any conditions, an action's condition is true if and only if the spec names the action or it was not called active |
| `ResourceStatus.JobReportIff` | internal/controller/awsrdsauroracluster_controller.go:252-277 | A job's report leaves its action's condition true if and only if it reports success of a scheduled action or failure of one no longer scheduled, and touches no other; success reads "Active", failure "Failed" |
| `StatusRuns.TrueIffAccurate` | internal/controller/resource_controller.go:82-296 | After any run of passes with writes taken or lost, job reports and restarts, from any conditions, a condition is true if and only if the run's steps make it so |
| `StatusRuns.RunTruthful` | internal/controller/resource_controller.go:82-296 | A condition is true after every step of a run if and only if it did not call the action active at the start and no lost write, job or restart misleads |
| `StatusRuns.WrongStays` | internal/controller/resource_controller.go:145-158 | A condition that is wrong about a scheduled action stays wrong through any number of passes that end well, until a job reports |
| `StatusWitnesses.LostAddition` | internal/controller/resource_controller.go:289-296 | The lost write of a pass that schedules an action, and a second pass: scheduled, not called active |
| `StatusWitnesses.LostRemoval` | internal/controller/resource_controller.go:289-296 | The lost write of a pass that drops an action, and a second pass: called active, not scheduled |
| `StatusWitnesses.DroppedInTheGap` | internal/controller/resource_controller.go:117-130 | A new operator and an action dropped before it started: called active, not scheduled |
| `StatusWitnesses.FailedJob` | internal/controller/awsrdsauroracluster_controller.go:252-262 | A failed job and a further pass: scheduled, not called active |
| `RegistryDriver.Drive` | internal/controller/resource_controller.go:63-287 | The service object and the store driven through any requests go through a run: registry sound, no resource under two schedules, conditions true exactly when the run's steps make them so |
| `RegistryRace.LookKeeps` | internal/controller/resource_controller.go:118-130 | A look at an id, whatever happened since the snapshot, keeps the registry sound and what the pass relies on |
| `RegistryRace.SwapKeeps` | internal/cron/schedule_service.go:190-205 | A refresh keeps what every pass under way relies on, except that the replaced id is dead to a pass that has not looked yet |
| `RegistryRace.AddsPresentIff` | internal/controller/resource_controller.go:118-160 | When a pass adds a key, the key is there if and only if a refresh replaced its id between snapshot and look |
| `RegistryRace.HandleKeeps` | internal/controller/resource_controller.go:132-268 | A round of the loop over the spec breaks the registry if and only if it adds such a key |
| `RegistryRace.LookTells` | internal/controller/resource_controller.go:118-130 | A look takes the key away exactly when the spec does not name the action and no refresh replaced its id, and takes the action for scheduled exactly when the spec names it and none did |
| `RegistryRace.HandleTells` | internal/controller/resource_controller.go:132-268 | A round over an action whose id no refresh replaced: inactive, its key is gone; present, it stays; absent, it is added at the schedule's text, or ends the pass when that text is invalid (`AddsPresentIff` tells of a replaced id) |
| `RegistryRace.SoundIffCalm` | internal/controller/resource_controller.go:109-278 | For every interleaving of resource passes, refreshes and deletions: keys, entries and gauge agree after every step if and only if no such addition happens |
| `RegistryRace.OneScheduleAlways` | internal/cron/schedule_service.go:141-157 | In every interleaving, calm or not, no resource is ever under two schedules |
| `RegistryRace.EntryLost` | internal/controller/resource_controller.go:118-160 | A run of two passes and a refresh that ends with two live entries, one key and gauge two |
| `Conditions.SetLookup` | internal/controller/resource_controller.go:298-300 | Setting a condition changes what is found under its own type only |
| `Conditions.SetUnique` | internal/controller/resource_controller.go:298-300 | Setting a condition keeps types unique |
| `Conditions.FilterLookup` | internal/controller/schedule_controller.go:218-230 | Rebuilding the list by type keeps or drops each type as a whole, whatever the list |
| `SchedulePass.AllPeriodsValid` | internal/controller/schedule_controller.go:66-84 | The loop finds exactly whether every period starts no later than it ends |
| `SchedulePass.ReportActions` | internal/controller/schedule_controller.go:117-149 | Every action of the spec gets its condition, other types stay, and the flag is set exactly when some text is invalid |
| `SchedulePass.ActionTells` | internal/controller/schedule_controller.go:117-149 | Over valid periods an action's condition is true exactly when its text is valid and it is active; the reason is "InvalidCronExpression", "NotActive" or "Active" accordingly; an action outside the spec has none |
| `SchedulePass.StatusTells` | internal/controller/schedule_controller.go:65-208 | The conditions after a pass by the raw spec: the first obstacle decides the Ready condition and its reason, each action has its own, every other type stays |
| `SchedulePass.RemoveMissingActions` | internal/controller/schedule_controller.go:210-231 | Prunes exactly the action conditions whose action is not in the spec |
| `SchedulePass.RefreshAction` | internal/controller/schedule_controller.go:166-189 | Refreshes each resource of one action exactly once |
| `SchedulePass.RefreshEntries` | internal/controller/schedule_controller.go:164-190 | Reports a missing action if and only if a live entry uses one, in any order; otherwise refreshes every live entry of the schedule |
| `SchedulePass.ReconcileActions` | internal/controller/schedule_controller.go:113-208 | Over valid periods: conditions, Ready reason and refreshes of the second half of a pass |
| `SchedulePass.ReconcileSchedule` | internal/controller/schedule_controller.go:65-208 | The condition found under every type afterwards, told by the raw spec as well, the Ready reason whatever the iteration order, unique types, and the refreshes made |
| `PeriodGate.SomeApplies` | internal/controller/resource_controller.go:192-211 | The loop with its flag and breaks finds exactly whether some period takes in the time and lists the action or lists none |
| `PeriodGate.Fire` | internal/controller/resource_controller.go:160-247 | The job runs if and only if schedule and action are enabled, some active period concerns the action unless there are none, and no inactive one does |
| `PeriodGate.RunsIff` | internal/controller/resource_controller.go:175-244 | The same over the raw periods and the minute written out: within its ends, and its list of actions empty or naming the action |
| `PeriodGate.OtherActionsIgnored` | internal/controller/resource_controller.go:191-244 | A period limited to other actions makes no difference anywhere in either list, except that as the only active one it keeps the action from running |
| `PeriodGate.OnlyOthersActive` | internal/controller/resource_controller.go:191-217 | A schedule whose active periods all list other actions skips the action |
| `PeriodGate.InactiveSkips` | internal/controller/resource_controller.go:218-244 | An inactive period around the minute that lists the action, or none, skips it |
| `PeriodGate.CoversWhen` | internal/controller/resource_controller.go:190-195 | Any period matches a wall time if and only if it lies from the first whole minute of the span to the end of the last minute reached, for whole-minute ends start <= t < end + 60s; an inverted one matches the minutes its ends name |
| `PeriodGate.InsideCovered` | internal/controller/resource_controller.go:190-195 | A firing inside a period matches it if and only if its minute began inside the period |
| `PeriodGate.MissedInside` | internal/controller/resource_controller.go:190-195 | A period from :30 on does not match a firing at :45 |
| `PeriodGate.InactiveWins` | internal/controller/resource_controller.go:218-244 | Adding an inactive period turns a run into a skip exactly while it applies, and never a skip into a run |
| `PeriodGate.ActiveWidens` | internal/controller/resource_controller.go:191-217 | Adding an active period to a schedule that has some never turns a run into a skip |
| `NotificationIndex.NotificationService.Send` | notification/service.go:79-93 | The body is queued, or dropped when the service is stopped or 256 bodies wait |
| `NotificationIndex.NotificationService.Deliver` | notification/service.go:105-123 | Every recipient of the schedule is notified exactly once in some order, whichever of them fail |
| `NotificationIndex.NotificationService.RemoveRecipient` | notification/service.go:44-61 | The id is gone under every schedule, nothing else changes, and each gauge value loses what was removed |
| `NotificationIndex.NotificationService.AddRecipientToSchedule` | notification/service.go:63-77 | One recipient set and one gauge value raised, all others unchanged |
| `NotificationIndex.NotificationService.Register` | internal/controller/notificationpolicy_controller.go:176-178 | The recipient stands under every listed schedule; each gauge value rises by the number of times its schedule is listed |
| `NotificationIndex.NotificationService.Reconcile` | internal/controller/notificationpolicy_controller.go:90-187 | A pass replaces exactly what the policy registers; its reason by the raw policy: disabled, unsupported without the configuration of its own kind, active otherwise |
| `NotificationIndex.LatestDecides` | internal/controller/notificationpolicy_controller.go:52-187 | After any sequence of passes and deletions an id is registered under a schedule exactly as its latest policy says |
| `NotificationIndex.RegisteredIff` | internal/controller/notificationpolicy_controller.go:52-187 | After any sequence of changes a recipient is registered under a schedule if and only if the last change about its policy was a pass over an active policy that lists the schedule and carries this configuration for its own kind |
| `NotificationIndex.GaugeDrift` | notification/service.go:58-76 | Each gauge value is the number of its recipients plus every repetition any pass has ever listed |
| `NotificationIndex.GaugeExactIff` | notification/service.go:58-76 | A gauge value is the number of its recipients if and only if no pass listed its schedule twice |
| `NotificationIndex.RaisesTwiceIff` | internal/controller/notificationpolicy_controller.go:176-178 | A change raises a gauge value more than once exactly when its policy registers a recipient of the kind and lists the schedule more than once |
| `NotificationIndex.ListedTwice` | internal/controller/notificationpolicy_controller.go:176-178 | A policy that lists a schedule twice: one recipient, gauge two |
| `NotificationQueue.SendAlone` | notification/service.go:79-93 | The interleaved send, uninterrupted, is the service's send |
| `NotificationQueue.RunConserves` | notification/service.go:79-157 | In every interleaving: no send on a closed channel, at most 256 queued, first in first out, sends = accepted + dropped, accepted = queued + in flight + finished |
| `NotificationQueue.DropsWhenFull` | notification/service.go:79-93 | The second half of a send always finds the service open, and drops its body if and only if 256 bodies wait |
| `NotificationDelivery.RunDelivers` | notification/service.go:95-126 | In every interleaving each body was offered once to each recipient of its snapshot, except those its worker still has left |
| `NotificationDelivery.ShutdownDrains` | notification/service.go:128-157 | When the service has returned nothing is queued or in flight, and every accepted body was offered exactly once to each recipient of its snapshot and to no one else |
| `NotificationDelivery.SnapshotWasCurrent` | notification/service.go:105-112 | A body's snapshot is what its schedule's recipients were at some moment of the run |
| `NotificationShutdown.WorkRunsOut` | notification/service.go:98-124 | However the workers of a closed service take turns, the steps they take are exactly those they had left less those they still have |
| `NotificationShutdown.ThenReturns` | notification/service.go:149-156 | When no worker's step does anything more, all have stopped and the service returns |
| `NotificationShutdown.ShutdownReturns` | notification/service.go:141-156 | From every closed state of every run, at most the steps left bring the service to its return |
| `NotificationDriver.AddAlone` | notification/service.go:63-77 | The locked step of the concurrent system changes the index as the service's addition does |
| `NotificationDriver.RemoveAlone` | notification/service.go:44-61 | The locked step changes the index as the service's removal does |
| `NotificationDriver.PassAlone` | internal/controller/notificationpolicy_controller.go:90-187 | The locked calls of a policy pass, uninterrupted, leave exactly what the policy offers under its name |
| `NotificationDriver.Drive` | internal/controller/notificationpolicy_controller.go:52-187 | The service object driven through any policy passes and deletions goes through a run of the index and ends with what each latest policy says |
| `NotificationGap.ChangeDecides` | notification/service.go:44-77 | A step changes a registration only by adding or removing it under the write lock |
| `NotificationGap.MissedIff` | internal/controller/notificationpolicy_controller.go:92-178 | In every run, a snapshot around a pass over an active policy misses the policy's recipient if and only if it falls between the removal and the addition |
| `NotificationGap.MissedForGood` | notification/service.go:105-123 | A recipient that a body's snapshot misses is never offered that body, however the run goes on |
| `NotificationGap.LostInPass` | internal/controller/notificationpolicy_controller.go:92-178 | A run whose recipient is registered before and after a pass and never gets the accepted body |

## Left out

- ScaleBound.RunBounded: covers executions with a creation time and without errors, because one that lacks a creation time never times out.
- NotificationDelivery.ShutdownDrains: needs at least one worker, because a service without workers drains nothing; the operator starts one.
- RegistryRuns.RunKeeps: takes each pass as one step with respect to the registry, because the statement fails when passes interleave; RegistryRace.SoundIffCalm gives the exact condition for interleaved passes.
- RegistryRace.SoundIffCalm: takes an addition as one step, because the instant between the cron library's insertion and the map update, in which an entry has no key yet, is visible to no other call of the service.
- RegistryRuns.PassesCommute: ids differ between the two orders, so it compares keys, texts, jobs and gauge values only.
- The DocumentDB cluster manager (internal/action/docdb_scale.go) repeats the Aurora algorithm over another SDK.
- Cloud calls, credentials and secrets appear only as arbitrary answers; an instance's class and availability are what the answers say.
- JSON encoding of the readers and the parameters: the readers are held as a sequence and the parameters as a decoded class or a decoding failure.
- The API server is a store whose writes may be refused: a read returns the last write that was taken, a refused write was not taken, the spec is fixed and one execution works on a cluster. Stale caches and resource versions are not modelled.
- Events, logs and latency histograms.
- Messages, transition times and observed generations of conditions, and the condition that the finalization of an execution writes to the target under a type of its own.
- Cron parsing and timing: validity is an arbitrary predicate on the text, the same for checking, adding and refreshing.
- The bodies of the jobs in the Kubernetes and AWS controllers, but for the condition they report: list-and-update loops over foreign calls.
- The Slack, MS Teams and API senders, and starting the notification service twice.
- Feature gates, job names, flags, generated code, CRDs, RBAC and packaging.
