# Homebench: verified model of the benchmark harness

Homebench drives a fleet of clients through a plan of filesystem phases. A controller starts a run, sends commands,
watches for lost clients, and charts what the clients report; each client creates, deletes and writes files at a paced
rate and keeps a ledger of them. This project models the five stateful cores and how they connect, and proves what
they keep.

| files | core |
|---|---|
| `MetricsSpec.dfy`, `Metrics.dfy`, `RunMetrics.dfy` | the controller's per-second history and open buckets, against a log of samples, and the store with its histograms |
| `LatencySpec.dfy`, `Latency.dfy`, `LatencyFlow.dfy`, `LatencyFleet.dfy`, `Fleet.dfy` | histograms updated in place, percentiles, and the way of every observation to the controller, on values and on the objects |
| `Phases.dfy`, `Toggles.dfy`, `Schedule.dfy`, `PhaseSteps.dfy` | the phase plan, its toggles, the executor that must follow it, and which commands each phase stands for |
| `Orchestration.dfy`, `Orchestrator.dfy`, `RunMachine.dfy`, `RunSafety.dfy`, `RunTheorems.dfy`, `RunConditions.dfy`, `RunDriver.dfy` | the run: locked regions, all their interleavings, what holds of every run, when one falls short, and the objects driven as the machine |
| `Registry.dfy` | the client registry and the barrier that waits for idle participants |
| `Paths.dfy`, `Ledger.dfy`, `Worker.dfy`, `Bandwidth.dfy` | the client's files: paths, ledger, paced create and delete loops, aligned writes |
| `UiThrottle.dfy`, `ReportInterval.dfy` | the throttle of browser updates, and the report interval |
| `Basics.dfy` | options, lists, and facts about sets |

How it is modelled. Methods that update fields in place are methods of classes here; each is proved against a function
or a specification of the old and new state. Protocols are step functions whose atomic steps are the regions the code
runs under a mutex, in any interleaving, at clock readings that never run backwards. Clock readings, file operations
and everything else outside the code are parameters, or sequences of turns that say what each loop iteration meets.
Rates and times are reals. A change of the client registry and its callback into the orchestrator are one step.

What the code does differently from its comments, or from what one would expect, with the exact condition where there
is one:

- Freeze is said to seal the open buckets; buckets of seconds still to come stay behind, and only they (`Freeze`,
  `FreezeLeavesFutureBucket`).
- A sample for a second the history has skipped breaks the order of the history; order survives exactly when the
  window fits (`Apply`, `LateSampleBreaksOrder`).
- Merging histograms of different scales can lose counts; `MergeConsistentIff` says exactly when, `MixedScalesLose` that
  it does.
- A refused phase toggle has already overwritten the old disabled list (`SetPhaseEnabled`); `RefusalHarmlessIff` says
  when that changes nothing, `RefusalExample` shows that it can.
- A run whose preparation on the controller fails is reported as completed (`FailedPreparationCompletes`); of the runs
  nobody interrupts, exactly those miss steps (`CompletedShortIff`).
- A Stop that unwinds slowly can end the recording of the next run, and order its participants to stop.
  `RecordedIffQuiet` and `NoStopOrderIffSent` say for which starts that cannot happen, `LateFreezeSilencesNextRun` and
  `LateOrderReachesNextRun` that it can.
- A wait that times out is success to its caller, and after 3.5 seconds idle statuses are believed even if nobody was
  seen running (`WaitClientsIdle`).
- Removing, NextExistingPath looks at about half of the list; `NextExisting` says exactly how far, and
  `RemovingMissesOne` misses the one file there is. Only together with the walk over the disk is it complete
  (`NextVictim`).
- Clearing the ledger can give two files the same index exactly when an index is under way (`ClearSafeIff`).
- A browser update can stay pending with nobody on the way to push it, until the next request; `RequestStrandsIff`
  says when.
- The percentile read-out accepts counts of any length. A higher percentile can read a lower bucket exactly when counts
  beyond the edges are followed by a missing remainder (`ReadsBackwardsIff`); no histogram handed out is like that
  (`HandedOutReadsForwards`).

## Model

| member | source | states |
|---|---|---|
| RunMetrics.SampleStore.Begin | internal/controller/metrics.go:76-84 | A new run starts recording with series, totals and histograms empty, in order, and with histograms nothing handed out before refers to. |
| RunMetrics.SampleStore.Apply | internal/controller/metrics.go:110-159 | While recording, a sample is credited to the series and its histograms are merged into the store's, operation by operation; otherwise nothing changes. |
| RunMetrics.SampleStore.Latencies | internal/controller/metrics.go:285-289 | The histograms handed out are a copy that shares nothing with the store. |
| RunMetrics.SampleStore.ApplyBeside | internal/controller/metrics.go:110-159 | A copy handed out before is changed by no later sample and stays apart from the store. |
| Metrics.MetricsStore.CreditSecond | internal/controller/metrics.go:163-197 | Exactly the given second of every series grows by the slice, field by field; the early-exit backward search patches the flushed point whenever the second is in an ascending history, and otherwise opens a bucket. |
| Metrics.MetricsStore.FlushClosed | internal/controller/metrics.go:222-250 | The closed buckets move to the end of the history oldest first, each once; no second's value changes. |
| Metrics.MetricsStore.EnsureSecondsThrough | internal/controller/metrics.go:201-219 | Opened are exactly the missing seconds after the last point through now, none older than 120 seconds, and with no history now alone; no value changes. |
| Metrics.MetricsStore.Trim | internal/controller/metrics.go:252-261 | Exactly the leading expired points go; with them, every second keeps its value. |
| Metrics.MetricsStore.CreditWindow | internal/controller/metrics.go:132-152 | Each second of the window, and no other, receives the slice; buckets appear exactly for the seconds the history lacks. |
| Metrics.MetricsStore.Apply | internal/controller/metrics.go:118-154 | The series keep agreeing second by second with the log of accepted samples, and the totals with it; a sample while not recording changes nothing; which seconds are then open and which in the history is exact; history order survives if and only if the window fits. |
| Metrics.MetricsStore.Tick | internal/controller/metrics.go:52-74 | The ticker keeps order, flushes every past second and opens the current one, with an empty history too; without a long stall the timeline has no hole. |
| Metrics.MetricsStore.Freeze | internal/controller/metrics.go:87-92 | Recording ends, order and sums are kept, exactly the buckets of future seconds stay open, and the others are appended oldest first. |
| Metrics.MetricsStore.History | internal/controller/metrics.go:263-283 | The chart is the history plus the current open second with its own sums, writes counting the creates, and strictly increasing when the store is in order. |
| Metrics.ChartEqualsTotals | internal/controller/metrics.go:110-261 | Each of the six run totals is the sum of its own count over all samples; summed over all seconds, trimmed, flushed and open values give back the totals of creates, deletes and bytes. |
| Metrics.OrderAfterApply | internal/controller/metrics.go:110-197 | After crediting, flushing and trimming the history is ordered exactly when every covered second up to the last point is already in it or the old history has expired. |
| Metrics.LateSampleBreaksOrder | internal/controller/metrics.go:87-197 | A store whose history, from Begin, three samples and a Freeze leave out of order. |
| Metrics.FreezeLeavesFutureBucket | internal/controller/metrics.go:86-92 | A store that, from Begin, is left with an open bucket by Freeze. |
| MetricsSpec.Conservation | internal/controller/metrics.go:110-261 | Any store that agrees with its log second by second charts, over a range holding all windows, exactly the raw sum of every series. |
| MetricsSpec.CreditConservation | internal/controller/metrics.go:118-152 | Spreading one sample over its window loses nothing. |
| MetricsSpec.RawSumIs | internal/controller/metrics.go:118-152 | The raw sum behind each series is that of its own field of the samples, writes with creates. |
| LatencySpec.ObserveIsAppend | internal/protocol/latency.go:90-105 | Observing a sample into the histogram of some samples gives the histogram of those and that sample itself, or zero if it is negative. |
| LatencySpec.MergeIsConcat | internal/protocol/latency.go:113-136 | Merging two histograms of one scale is the histogram of both collections. |
| LatencySpec.HistOfPermutation | internal/protocol/latency.go:90-136 | The order of the samples does not matter. |
| LatencySpec.HistOfConsistent | internal/protocol/latency.go:90-105 | The bucket counts of observed samples add up to the total. |
| LatencySpec.MergeConsistentIff | internal/protocol/latency.go:113-136 | The counts of a merge add up to its total if and only if the scales agree, or the side whose scale changes is empty, or nothing sits in the two buckets that are cut off. |
| LatencySpec.PercentileIsOrderStatistic | web/app.js:866-880 | The first bucket whose running count reaches the target holds the ceil(pct n / 100)-th smallest sample, for any increasing edges. |
| LatencySpec.PercentsMonotone | web/app.js:866-880 | Two read-outs of one histogram at percentages in order give buckets in that order. |
| LatencySpec.ReadOutMonotone | web/app.js:866-880 | On counts no longer than their edges and the overflow, whatever the total, a higher target never reads a lower bucket, the fall-through to overflow included. |
| LatencySpec.ReadsBackwardsIff | web/app.js:866-880 | On any counts, edges and total, some higher percentile reads a lower bucket than a lower one if and only if something is counted beyond the edges and the counts fall short of the total. |
| LatencySpec.ShapedReadsForwards | web/app.js:866-880 | So counts that are not too long, and counts that reach their total, are never read backwards. |
| LatencySpec.HandedOutReadsForwards | internal/protocol/latency.go:139-149 | Nor is any histogram the store hands out, read with the edges of its scale or more of them. |
| Latency.LongCountsReadBackwards | web/app.js:866-880 | Three counts over one edge, short of their total of two, on which the read-out puts the 100th percentile below the 50th. |
| LatencySpec.MixedScalesLose | internal/protocol/latency.go:113-136 | Any samples on the short scale, merged with any on the long one, lose counts against the total. |
| Latency.LatencyHistogram.ObserveUs | internal/protocol/latency.go:90-105 | The in-place update of the count array is the observation of the specification; the array is the old one or a new one. |
| Latency.LatencyHistogram.Merge | internal/protocol/latency.go:113-136 | The in-place merge is the merge of the specification, scale change and reallocation included, and leaves the other histogram alone. |
| Latency.LatencyHistogram.Clone | internal/protocol/latency.go:139-149 | A copy with a new array of its own: the same numbers, the counts cut or filled up with zeros to the scale. |
| Latency.LatencySet.constructor | internal/protocol/latency.go:163-175 | Eight empty histograms, creates and deletes on the short scale and the others on the long one, no two sharing an array. |
| Latency.LatencySet.Merge | internal/protocol/latency.go:177-186 | Every operation is merged with its own counterpart, into its own array or a new one, and the other set is unchanged. |
| Latency.LatencySet.MergeBeside | internal/protocol/latency.go:177-199 | A clone stays apart from the set and keeps its values while the set goes on merging. |
| Latency.LatencySet.Clone | internal/protocol/latency.go:188-199 | A deep copy sharing nothing. |
| Latency.Stats.Observe | internal/client/worker.go:38-108 | One sample reaches the histogram of its operation and no other. |
| Latency.Stats.SnapshotAndReset | internal/client/worker.go:110-127 | Everything collected is handed over, the counters and histograms restart from zero, and the snapshot shares no histogram and no array with what is live. |
| Latency.Stats.ObserveFailure | internal/client/worker.go:68-108 | One failure reaches the histogram of its operation and no other. |
| Latency.Stats.ObserveBeside | internal/client/worker.go:38-127 | No later observation, sample or failure, changes a snapshot. |
| Latency.HistogramPercentile | web/app.js:866-880 | None exactly without samples or edges; otherwise the first bucket at which a hundred times the running count reaches pct times the total, or overflow when no bucket within the edges does. |
| Latency.PercentileOfSamples | web/app.js:866-880 | On samples that were observed, at least pct percent of them are at most the edge read out, unless it overflows, fewer than pct percent lie in lower buckets, and the order statistic of that percentage lies in the bucket. |
| LatencyFlow.NothingLost | internal/client/worker.go:110-127 | Over any interleaving of observations, reports, deliveries, losses and new runs, merged, discarded, pending and live histograms together are the histogram of all observations. |
| LatencyFleet.ViewRun | internal/client/worker.go:38-127 | In any run over all clients and all operations together, the histograms of each operation are those of its own run of observations, reports, deliveries, losses and new runs, from an initial state. |
| LatencyFleet.NothingLost | internal/client/worker.go:38-127 | In any such run, of every operation, merging all there is gives the histogram of all samples and failures the clients collected of it. |
| LatencyFleet.RunShowsAll | internal/controller/metrics.go:76-159 | If the run began first, no report was lost, everything is delivered and no client holds anything back, the store shows for every operation the histogram of exactly the samples the clients took of it. |
| Fleets.Fleet.Perform | internal/controller/metrics.go:110-159 | The objects of a fleet, which share no histogram and no array, take any one event as the run on values does. |
| Fleets.Drive | internal/controller/metrics.go:76-159 | Statistics, reports and store, driven through any possible events, hold for every operation what its flow holds; with what was thrown away they add up to all observations. |
| LatencyFlow.DeliveredIsExact | internal/controller/metrics.go:154-156 | Once everything is delivered, what the controller shows is the histogram of what the clients observed. |
| LatencyFlow.NothingDiscarded | internal/controller/metrics.go:76-159 | When no report is lost and a run begins, if at all, before anything else, nothing is discarded. |
| Phases.NormalizeDisabledPhases | internal/protocol/protocol.go:168-191 | The loops with their set of phases seen compute the normalized list. |
| Phases.NormalizedMembers | internal/protocol/protocol.go:168-191 | Normalization leaves, each once, exactly the plan's members of the disabled groups. |
| Phases.NormalizedIff | internal/protocol/protocol.go:136-191 | A phase ends up disabled if and only if the plan has it and it was listed, or is a software phase and some software phase was listed, or is one of create and delete and either was. |
| Phases.NormalizedIsNormal | internal/protocol/protocol.go:168-191 | The result is free of repeats, within the plan, and all-or-nothing per toggle group. |
| Phases.NormalizeIdempotent | internal/protocol/protocol.go:168-191 | Normalizing twice gives the same list in the same order. |
| Phases.PlanFacts | internal/protocol/protocol.go:384-408 | Every plan is free of repeats, contains toggle groups as a whole, and ends in the same three phases. |
| Phases.PlanContents | internal/protocol/protocol.go:384-408 | Which phases a plan has, by the strings that configure them: software by package and command, git and untar by their address, the other seven always. |
| Phases.ActiveIff | internal/protocol/protocol.go:194-203 | A phase of the plan is active unless it, or one it is toggled with, is listed as disabled. |
| Phases.ActiveInOrder | internal/protocol/protocol.go:384-408 | The active phases stand in the fixed order of all twelve. |
| Phases.SelectedIffActive | internal/protocol/protocol.go:148-203 | The executor's question whether a phase runs and the planner's list agree on all phases if and only if the disabled list is closed under toggle groups, hence on every normalized configuration. |
| Toggles.PhaseToggles.SetPhaseEnabled | internal/controller/orchestrator.go:140-190 | Refused while running or outside the plan. On success the three software phases change together, create and delete change together, any other phase changes alone, and nothing else changes; refused for leaving nothing enabled, the old list's cells already hold the start of the plan; a normal list stays normal in every case. |
| Toggles.PhaseToggles.RebuildInPlace | internal/controller/orchestrator.go:171-177 | Appending to the truncated slice writes through to the old list's cells. |
| Toggles.RefusalHarmlessIff | internal/controller/orchestrator.go:171-181 | A refused toggle leaves the enabled phases as they were if and only if none was enabled or it was final delete that it tried to switch off. |
| Toggles.RefusalExample | internal/controller/orchestrator.go:171-181 | A refused toggle that changes which phases are enabled. |
| Toggles.DisableThenEnable | internal/controller/orchestrator.go:140-190 | Switching an enabled group off and on restores the disabled set, with something enabled throughout. |
| Schedule.Executor.Run | internal/controller/orchestrator.go:529-670 | For a closed disabled list the branches carry out exactly the schedule of the planner's list, whatever fails: all of it when nothing fails, otherwise a prefix ending in the step that failed. The shared software trees are removed right after the software phases, waiting for it exactly when git or untar will use their place, and once more after those. |
| Schedule.Executor.RunRamp2 | internal/controller/orchestrator.go:864-873 | A ramp is the ladder 10, 20, ..., 100 percent of both rates, cut off after the first step that fails. |
| Schedule.ScriptIsPlanned | internal/protocol/protocol.go:158-203 | The planner's schedule is the one selected phase by phase. |
| PhaseSteps.StepsOfPhase | internal/controller/orchestrator.go:529-670 | The steps of each active phase in a schedule: 10, 20, ..., 100 percent for the paced ones, with one more full command after delete and after final delete, one command for the others, with the controller's preparation of unpack, git and untar; inactive phases have none. |
| PhaseSteps.CommandAsks | internal/controller/orchestrator.go:522-670 | What every command of a schedule asks: its rates times the number of clients are its percentage of the configured ones, and file size and duration are those of its phase. |
| PhaseSteps.ForcedIsLast | internal/controller/orchestrator.go:661-669 | The one forced wipe is the last command of an active final delete, and no other command is forced. |
| PhaseSteps.PreparedDirectly | internal/controller/orchestrator.go:529-600 | Every preparation stands directly before its command, that of unpacking directly before the cold start. |
| PhaseSteps.CleanupsOfRun | internal/controller/orchestrator.go:566-605 | Which removals of the shared software trees a run makes, and which of them waits, by what is configured and active. |
| Orchestration.UpdateKeepsSelection | internal/controller/participants.go:19-95 | The selection stays within the registered clients and automatic selection means all of them, through every mode; comparing sizes is comparing sets. |
| Orchestration.TrimSpaceIs | internal/controller/participants.go:19-95 | Trimming takes all spaces off both ends and nothing else. |
| Orchestrators.Orchestrator.SetConfig | internal/controller/orchestrator.go:97-137 | Accepts exactly acceptable settings while idle, fills in the defaults, disables exactly the plan's listed phases with those toggled along, and moves every registered client to the prefix chosen for it; otherwise nothing changes. |
| Orchestrators.Orchestrator.Start | internal/controller/orchestrator.go:383-420 | Refuses for the first obstacle it meets, without effect; otherwise freezes each connected selected client once, in some order, opens the run, and starts its clock and the report interval for as many clients. |
| Orchestrators.Orchestrator.Stop | internal/controller/orchestrator.go:437-460 | Unless idle or already failing, takes the cancel function, ends the open span now, leaves all others alone, shows the stop and halts the clock at the time gone by. |
| Orchestrators.Orchestrator.OnClientRemoved | internal/controller/orchestrator.go:263-302 | Deselects the client, and fails the run exactly when it is a participant of a run not failing yet, under its host name or the start of its id, with the open span ended now. |
| Orchestrators.Orchestrator.OnClientRegistered | internal/controller/orchestrator.go:249-259 | After the registry took a client in, the selection is still within the registered clients, and all of them while newcomers join by themselves. |
| Orchestrators.Orchestrator.SetPhase | internal/controller/orchestrator.go:477-498 | When the phase changes or is the first, one span opens now, the one before, if open, ends now, and all others stay; otherwise no span changes. Spans stay ordered and disjoint in time. |
| Orchestrators.Orchestrator.Finish | internal/controller/orchestrator.go:502-520 | Nothing of the run is left, the open span ends now and every other stays, and the run reads as lost exactly when a loss was noted. |
| Orchestrators.Orchestrator.UpdateParticipants | internal/controller/participants.go:19-95 | While idle, by mode: all known clients, none, the first n of the list, those listed added and removed, or exactly those listed; newcomers join by themselves exactly when everybody is then selected, and never after none or first n. Nothing happens while running. |
| Orchestrators.Orchestrator.ReplaceSelection | internal/controller/orchestrator.go:317-342 | The selection becomes the listed known clients, trimmed, empty ids dropped. |
| Registries.Registry.Statuses | internal/controller/registry.go:143-153 | One snapshot of the listed clients that are connected. |
| Registries.Registry.Prune | internal/controller/registry.go:190-205 | Removes exactly the clients last seen more than the time to live ago, reports each once, and leaves the others alone. |
| Registries.Registry.IDsSorted | internal/controller/registry.go:166-179 | All ids, by host name, and by id where host names agree. |
| Registries.StringLessIff | internal/controller/registry.go:166-179 | One string comes before another if and only if, where they first differ, it ends or has the smaller character. |
| Registries.FirstNPrecede | internal/controller/participants.go:46-63 | The clients selected as the first n come before all others in that order. |
| Barrier.WaitClientsIdle | internal/controller/orchestrator.go:793-852 | The exact poll at which the wait ends and why: success needs every frozen participant present and idle in one snapshot before the deadline, and somebody seen running before or 3.5 seconds gone, and every earlier poll lacked one of these; a missing participant always blocks it. |
| RunSafety.LifecycleStep | internal/controller/orchestrator.go:97-520 | Every step keeps: one run at most, participants fixed, nonempty and consistent, configuration frozen; nothing left of a run when idle; recording only during a run. |
| RunSafety.SpansStep | internal/controller/orchestrator.go:477-520 | Every step keeps the spans disjoint and ordered in time, with only the last one open. |
| RunSafety.InterruptibleStep | internal/controller/orchestrator.go:287-310 | Every step keeps: the cancel function is held exactly while nobody has interrupted the run, whoever takes it has called it or still will, and a stopped phase has no open span. |
| RunSafety.AnnouncedStep | internal/controller/orchestrator.go:403-427 | Every step keeps: until its first step, and unless stopped, a run shows the phase that step will have. |
| RunSafety.TracedStep | internal/controller/orchestrator.go:477-498 | Every step, late ones after a Stop included, extends the collapsed spans exactly as the script goes on. |
| RunSafety.DeliveredStep | internal/controller/orchestrator.go:354-359 | The commands sent are those of the steps taken, each to exactly the frozen participants. |
| RunSafety.JudgedStep | internal/controller/orchestrator.go:500-543 | Every step keeps the verdict truthful. |
| RunSafety.SelectionStep | internal/controller/orchestrator.go:249-342 | Every step keeps selected within registered, and equal to it under automatic selection. |
| RunTheorems.RunInv | internal/controller/orchestrator.go:97-543 | All of this holds in every reachable state. |
| RunTheorems.RunSpans | internal/controller/orchestrator.go:477-520 | After any run of the machine the spans are disjoint and in order. |
| RunTheorems.SpansTouch | internal/controller/orchestrator.go:477-520 | In every run of the machine, a span that another follows ends exactly where that one begins, unless it ended at an interruption. |
| RunTheorems.InterruptionCancels | internal/controller/orchestrator.go:287-310 | Once everybody who interrupted a run is done, the run is cancelled. |
| RunTheorems.RunFollowsPlan | internal/controller/orchestrator.go:529-670 | At any moment of any run, the spans without adjacent repeats are a prefix of the frozen plan, and the commands sent a prefix of its schedule. |
| RunTheorems.CompleteRun | internal/controller/orchestrator.go:529-670 | A run nobody interrupted, with its preparations done, ends with one span per phase of the plan and the whole schedule sent to all participants. |
| RunTheorems.CollapseFlatten | internal/protocol/protocol.go:194-203 | The phases of a schedule, repeats removed, are the plan it was made from. |
| RunTheorems.VerdictOfRun | internal/controller/orchestrator.go:500-543 | A run ends as failed if and only if a participant's removal was processed during it, naming the first; stopped runs were interrupted; completed runs took every step unless a preparation failed. |
| RunTheorems.LostIffRemoved | internal/controller/orchestrator.go:263-302 | At any moment a run counts a loss exactly when some event of it removed one of its participants. |
| RunTheorems.FrozenDuringRun | internal/controller/orchestrator.go:97-140 | Between any two moments of one run the configuration, participants and script are the same. |
| RunDriver.Controller.Perform | internal/controller/orchestrator.go:97-543 | Registry, orchestrator, toggles, run goroutine and unlocked tails, as objects, take any one call as the state machine takes its event: participants chosen from the registry's own sorted list, settings and toggles that are refused without an event, each step of the goroutine and of a Stop that unwinds. |
| RunDriver.Drive | internal/controller/orchestrator.go:97-543 | Driven through any calls in any order, the objects hold the state of a run of the machine made up of exactly the events of those calls, so all that is shown of the machine holds of them. |
| RunConditions.CompletedShortIff | internal/controller/orchestrator.go:529-670 | A run nobody interrupted is reported as completed in any case, and lacks steps if and only if a preparation failed. |
| RunConditions.FailedPreparationCompletes | internal/controller/orchestrator.go:529-570 | A run that fails to unpack its package and is reported as completed. |
| RunConditions.RecordedIffQuiet | internal/controller/orchestrator.go:424-469 | A run about to start is recorded in every continuation in which nobody interrupts it if and only if no Stop or lost participant is still being dealt with. |
| RunConditions.NoStopOrderIffSent | internal/controller/orchestrator.go:354-359 | No continuation tells the participants of such a run to stop if and only if every earlier Stop has sent its order. |
| RunConditions.LateOrderReachesNextRun | internal/controller/orchestrator.go:354-359 | From every start with an active phase, a second run nobody interrupted whose participants receive the stop order of the first. |
| RunConditions.LateFreezeSilencesNextRun | internal/controller/orchestrator.go:460-469 | A run nobody interrupted whose recording is ended by the Stop of the run before. |
| RunConditions.BranchesTakeTheSteps | internal/controller/orchestrator.go:529-670 | For every run that is over, the branch program, given the same successes, takes exactly the steps the machine took. |
| Paths.IndexReadBack | internal/client/paths.go:12-23 | The index can be read back from a path, past the padding widths too. |
| Paths.PathParts | internal/client/paths.go:12-23 | A path is the host directory, the ten-thousands in four digits, the hundreds in two and the index in eight, each longer only where the number is. |
| Paths.PathsInjective | internal/client/paths.go:12-23 | Two files share a path if and only if they have the same root and index. |
| Paths.SameLeafIff | internal/client/paths.go:12-23 | Two files share a directory if and only if their indices agree but for the last two digits. |
| Paths.LeafHoldsHundred | internal/client/paths.go:12-23 | A directory holds at most a hundred files. |
| Ledgers.FileLedger.NextExisting | internal/client/worker.go:216-252 | Keeping: fails if and only if no listed file exists, leaves the list alone, and puts the cursor behind the file found, with none existing in between, round the end of the list. Removing: fails if and only if none within reach of the cursor exists; what goes are the entries from the cursor to the file found, or half of the list, rounded up, if that many follow. |
| Ledgers.RemovingMissesOne | internal/client/worker.go:216-252 | A ledger of two files, one of them there, of which the removing search finds none. |
| Ledgers.UniqueAlways | internal/client/worker.go:142-168 | With any number of goroutines taking and recording indices in any order, no index is recorded twice, as long as the ledger is only cleared while none is under way. |
| Ledgers.ClearSafeIff | internal/client/worker.go:142-211 | A clear is safe, whatever follows until the next one, if and only if nobody holds an index. |
| Ledgers.ClearInFlight | internal/client/worker.go:204-211 | Five operations after which two files have the same index. |
| Workers.Worker.NextVictim | internal/client/worker.go:376-412 | In both modes ledger and disk together find nothing if and only if no file is left. |
| Workers.Worker.RunDelete | internal/client/worker.go:351-399 | Each deletion removes one of the files there were, so the directory is empty exactly after as many deletions; turn by turn a file goes exactly when the turn is in the window, below target and not cancelled, the removal succeeds and a file is left; the loop ran dry exactly if one was due with none left; pace and window are kept; without a rate it sleeps. |
| Workers.Worker.RunCreate | internal/client/worker.go:305-349 | Turn by turn a file is recorded exactly when the turn is in the window, below target and not cancelled, and the file is written completely, under an index above all earlier ones; every new file lies under an index taken; list, counters and bytes agree; pace and window are kept; without a rate it sleeps. |
| Workers.PacedTurn | internal/client/worker.go:326-334 | Waiting keeps the pace, and so does one more operation begun below target. |
| Workers.FleetPaced | internal/controller/orchestrator.go:522-527 | On a rung of a ramp n clients at their shares stay together below the global rate by less than n operations over. |
| Bandwidth.FleetWrites | internal/controller/orchestrator.go:522-527 | On a rung of a ramp n writers at their shares together move less than the global rate and n buffers over. |
| Bandwidth.FileSize | internal/client/worker.go:554-570 | The file size is positive and aligned, 64 MiB unless asked for, and the largest aligned size not above a requested one of at least a block. |
| Bandwidth.Writer.WriteChunk | internal/client/worker.go:706-776 | One write appends one chunk, at the file's index and offset, of the rest of the file or one buffer, with as many bytes as were written of it and an error exactly if the write failed or fell short; the log stays orderly, the dead branches are dead, and a file is recorded exactly when it is whole. |
| Bandwidth.Writer.Run | internal/client/worker.go:553-776 | Step by step the log grows by exactly the chunk of that step's write, when the step is in the window, behind the pace, 20 ms before the end and has or opens a file; the first step with a reason to stop ends the loop. Whatever others take and record on the same ledger, the files it recorded are once each those all of whose bytes were written without error, the counters are their number and the sum of all bytes, and the pace is kept to within a buffer; without a rate it sleeps. |
| Bandwidth.LoggedExact | internal/client/worker.go:740-776 | A write makes its file whole exactly when it fills it without error. |
| Bandwidth.WriteFileDirect | internal/client/worker.go:837-866 | Terminates; each write is the next chunk with what was written of it, and only the last may fail; without errors exactly the size rounded down to the alignment is written, all of an aligned size. |
| UiThrottle.Throttle.Drive | internal/controller/server.go:544-594 | Driven through any requests and flusher segments, the object keeps one flusher at most, which its flag tells, pushes half a second apart, and shows every request once idle. |
| UiThrottle.ThrottleSafe | internal/controller/server.go:544-594 | Over every interleaving: at most one flusher, which the flag tells; pushes at least half a second apart; with neither flag set the last snapshot is newer than the last request; a flusher never finds nothing to do. |
| UiThrottle.NextRequestFlushes | internal/controller/server.go:544-556 | A stranded request is pushed with the first one half a second after the last push. |
| UiThrottle.RequestStrandsIff | internal/controller/server.go:544-556 | In any run, after a request an update is pending with nobody to push it if and only if no flusher was at work and the last push was less than half a second ago. |
| UiThrottle.Stranded | internal/controller/server.go:544-556 | A run that ends with an update stranded. |
| ReportInterval.MetricsIntervalForClients | internal/protocol/protocol.go:215-232 | The interval is a whole number of seconds: a hundredth of the fleet, rounded, kept within one to sixty. |
| ReportInterval.ReportRate | internal/protocol/protocol.go:215-232 | Up to six thousand clients report fewer than 150 times a second together, and from a hundred on the interval is within half a second of ideal. |
| ReportInterval.MoreClientsReportLess | internal/protocol/protocol.go:215-232 | The interval never shrinks as the fleet grows. |
| ReportInterval.Agent.Follow | internal/client/agent.go:262-272 | The agent's clamp changes nothing the controller announces, and the store derives exactly that many windows. |

## Left out

- Schedule.Executor.Run: its removals of the shared software trees are not steps of `RunMachine`; they send nothing, change nothing there, and cannot fail.
- Orchestrators.Orchestrator.Start: broadcasts nothing; the run machine carries what follows the locked part.
- Orchestrators.Orchestrator.UpdateParticipants: takes the sorted list of ids as a parameter; `RunDriver` passes what `Registries.Registry.IDsSorted` produces.
- RunTheorems.VerdictOfRun: says nothing about which of Stop and the last step wins when both happen, because the code leaves it to the schedule.
- Latency.LatencySet.Merge: the eight histograms are a map from operations, not eight named fields.
- ReportInterval.MetricsIntervalForClients: exact arithmetic; a rounding error of a nanosecond in the code does not reach the whole seconds.
- Workers.Worker.RunDelete: files created by others meanwhile are not modelled.
- Orchestrators.Orchestrator.SetConfig: which prefix a host name hashes to is a parameter, and the configuration file is not written.
- That every participant receives a stop order, and that no command follows Stop: neither holds, the list may be cleared or the command be on its way.
- Samples dropped by a full queue: `LatencyFlow` counts them as discarded, `Metrics` starts where a sample is taken from the queue.
- Bandwidth.Writer.Run: the read side of the loop, with its seeding of a first file, is not modelled, except as one of the others who use the ledger meanwhile.
- Random I/O, software start-up, clone and untar phases: driven by the same pacing, their file effects belong to the operating system.
- The forced wipe and the final cleanup of a client: one call to remove a directory tree.
- Network, HTTP, JSON, configuration files, logging and rendering: effects of libraries, no state of their own.
- Rounding of floating-point rates, bytes and percentages: reals are used throughout.
- Counter widths: 64-bit counters are taken as unbounded.
- Labels and connection times: constant or cosmetic.
