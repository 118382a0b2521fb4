# StatusGate backend: verified model

StatusGate watches services and VPN tunnels and publishes their state. This project models the parts of
its backend that are algorithms or state machines, and proves what they keep over all inputs and all runs.
`dafny verify dfyconfig.toml` checks everything.

| file | models |
|---|---|
| `Base.dfy` | optional values, minimum, maximum and sum, two-decimal rounding, finite sets, the stable library sort |
| `SpeedTestMemory.dfy` | rows, extractors, display choice and running statistics of `speed_test_memory.py` |
| `NetworkEnrich.dfy` | the writers of `network_enrich.py` on a mutable `network` |
| `CheckLog.dfy` | a component's check log, the history scan and one `run_check` |
| `SpeedTestSchedule.dfy`, `SpeedTestMeasured.dfy` | `should_run_speed_test`, and the theorems about whole runs of a log, also told from the measurements alone |
| `SpeedTestStagger.dfy`, `SpeedTestFleet.dfy`, `SpeedTestStarvation.dfy` | the staggered pick, bounded waiting, and runs that attain the bound |
| `SpeedTestSlot.dfy` | the process-wide live-test slot |
| `DueChecks.dfy` | one `run_due_checks` pass over the VPN components |
| `Matcher.dfy`, `MatcherProofs.dfy` | the DataGate matching and its guarantees |
| `DataGateImport.dfy` | what an import makes of the matched components, and the unique index over links |
| `MatcherRerun.dfy`, `MatcherRetry.dfy` | matching again after an import, also one that succeeded only in part |
| `Uptime.dfy`, `DayDowntime.dfy`, `DayStatus.dfy` | downtime of a period, per-day downtime stitched over a range, day status |
| `VpnWorker.dfy`, `VpnAvailability.dfy`, `VpnSupervisor.dfy` | the persistent session loop, its events and waits told from the probes, and the supervisor's dictionaries |
| `HostWan.dfy`, `HostWanProofs.dfy` | the host WAN baseline store shared by a writer and a reader process |
| `RefreshTokens.dfy` | refresh-token issue, rotation and revocation |
| `Slugs.dfy`, `SlugWords.dfy` | slug normalisation and the search for a free slug |

Units and conventions. Mbps and percentages are integer hundredths, rounded to nearest with ties to even, so
floating point appears as exact arithmetic. Scheduling times are integer seconds, downtime times integer
microseconds, the monotonic clock of the slot is a real number. Dictionaries that the source mutates are class
fields; foreign calls (probes, measurements, the file system, the database, thread waits) are inputs of the step
that makes them. Randomly generated ids and tokens are fresh; hashes are compared as values.

## What is proved

**Speed-test memory.** Each row carries the last success and the statistics forward. Over every run from an empty log,
in any mix of live successes, live failures, slot and stagger deferrals, failed probes and wiped rows, what the next
cycle is handed equals two plain folds over what happened (`CheckLogRuns.HandedMemory`). The sample count is the
number of live successes exactly when each of them reported a speed (`CheckLogRuns.StatisticsOfRun`); every successful
measurement of `speed_measure.py` does, so the branch of the writer that drops the statistics on a success without
`mbps` is never reached (`CheckLogRuns.SampleCountOfRun`). The history scan's limit of 50 rows never matters in such
runs. When the next cycle is due is characterised completely (`CheckLogRuns.DueExactly`); successive live attempts
without a wiped row between them keep their distance, also after a rate limit. All of this is also proved from the
measurements alone, naming no row: which bytes, speed and time the next cycle is handed, when it is due, the hour after
a measurement that failed with a rate limit, and what a postponed cycle displays (`MeasuredRuns.HandedAsMeasured`,
`MeasuredRuns.DueAsMeasured`, `MeasuredRuns.MeasurementsKeepDistance`, `MeasuredRuns.DisplayAsMeasured`). After a wiped
row that memory is gone and the component is due at once, although the comment in `should_run_speed_test` speaks of the
last real attempt (`CheckLogRuns.WipedRowForgetsBackoff`).

**Picking and the slot.** With one pick per cycle and n components, a component that is due in at least n + W + F
cycles has been picked in one of them, where W counts the wiped rows of the others and F the cycles whose pick did not
measure live (`SpeedTestFleet.NobodyStarves`). The bound is exact: for all n from two on, W, F and intervals there is a
run in which a component is due one time fewer and never picked (`SpeedTestStarvation.BoundIsAttained`). A wiped row
moves a component to the head of the order, so two components that time out in turns keep a third one, due in every
cycle, waiting for good (`SpeedTestStarvation.WipedRowsStarve`), and so does a picked component whose probe keeps
failing (`SpeedTestStarvation.FailingPickStarves`). In these runs cycles are a minute apart, so that the slot grants
every live test. A window of length W holds at most floor(W/60)+1 live tests, whatever the clock readings are. One
scheduler pass is described exactly: which component may measure, whether it does, and the check every polled component
gets; a check that raises ends the pass before its commit, and nothing of it is stored
(`DueChecks.HealthCheckRunner.RunDueChecks`).

**Matching.** One-to-one, no blocking pair, maximal, independent of list order without ties; no component is taken from
a server outside the given ones. These are stated by links, batch and pairs alone. A default import also
replaces the names and configurations of the components it links (app/schemas/datagate.py:85-86,
app/services/datagate/import_service.py:323-330), which the next match scores. So matching again repeats the result
exactly when the link dictionary leads from each matched server back to its component and that one is still admissible
with what the import wrote (`MatcherRerun.FixedPointExactly`); with distinct links only the second condition is left.
The same holds of the whole import, whatever fetches failed and whatever components were created for new servers: the
next match finds the same pairs and the created ones, with every row written as already linked, exactly when each row
written is still admissible for its server (`MatcherRetry.RetryRepeatsExactly`). Ties included, the candidates left over
are tried in the same order as before.

The unique index over links (alembic/versions/020_datagate_integration.py:46-52) is checked at every updated row. An
import never violates it exactly when each row that holds a server given to another one is relinked itself, and is
updated earlier (`DataGateImport.ImportStorableExactly`); the table in the end satisfies it exactly when no component
left alone keeps such a server. The two differ: two servers and two components are enough for an import whose final
table is fine and whose success depends on the order in which its rows are updated
(`DataGateImport.HandoverNeedsOrder`). A component no longer admissible for its linked server can keep that link while
the server is matched elsewhere; no order lets such an import through (`DataGateImport.StaleLinkCannotBeStored`).

**Downtime and status.** The scan counts the seconds spent in an outage, loses less than a second per outage by
truncation otherwise. Over consecutive days the per-day downtimes never exceed one pass over the whole range, and add
up to it exactly when no day without checks, of which at least a second is over, begins in an outage
(`DayDowntime.DaysAddUp`): such a day counts nothing, and the day after it starts without the outage. The status of
pooled counts is never worse than the merged status of the members; its thresholds are exact on the counts
(`DayStatus.StatusExactly`).

**Worker and supervisor.** Sessions are stopped once and in order in every run, whatever raises, provided that
stopping them and writing results and events succeed; each stopped session logs its disconnect. The connect event
first loads a context and probes the new tunnel (app/services/vpn_session_supervisor.py:447-463). When that raises,
the session is stopped and a disconnect is logged that no connect precedes: the log agrees with the sessions exactly
when this happened to no started session (`VpnWorker.LoopHead`, `VpnWorker.LostConnectBreaksLog`). The same exception
before a disconnect event does no harm. Over every run the last availability event is a loss exactly when the newest
outcome noted was degraded (`VpnAvailability.LossIsDegraded`), and for every turn, whatever raises, it is exact whether
the loop goes on, what is held afterwards, and how long the worker waits (`VpnAvailability.TurnEnds`). The
network-namespace permission error is raised only by the session start
(`ensure_netns`), when no session is held. The supervisor never has two unstopped workers of one component, and a
second sync with the same input is idle. A sync looks at keys and snapshots only: a desired component has a running
worker after it exactly when the sync started one or the registered one had not ended, so a worker whose thread left its
loop is not replaced while its snapshot stays (`VpnSupervisor.RunningAfterSync`).

**Host WAN store.** However writer runs, failed writes, reads and restarts of both processes interleave, a reader
holds the writer's last persisted state, and so does a restarted writer; the bounded history answers like the full
log, with the exact condition when. When a run stores a measurement is exact, and stored measurements are an interval
apart in every run (`HostWanProofs.RunStoresExactly`, `HostWanProofs.MeasurementsAreSpaced`).

**Tokens.** Chains of replaced tokens are acyclic, stay within one account, neither fork nor merge, and hold at most
one unrevoked token; a revoked token is never accepted again; rotation conserves the number of unrevoked tokens. In
every continuation a token handed out at t is accepted at `now` exactly when now < t + lifetime, nobody rotated or
revoked it before that, and its account has not lost all tokens (`RefreshTokens.AcceptedUntil`).

**Slugs.** The search needs at most m+1 candidates when the digits fit, and ends at all exactly when one of finitely
many slugs is free: a taken slug of full length makes it run forever. The comment in `_preferred_new_slug` promises
that distinct servers never collide, which does not hold for long names. For one name, two servers get the same slug
exactly when the digits of their ids agree after being cut to the 97 characters left beside the name
(`Slugs.SameNameCollidesExactly`). Ids up to n never collide, whatever the names of at most L characters, exactly when
L + 3 and the digits of n fit in 100 characters (`Slugs.NamesSeparateServersExactly`). A collision is worse than two
equal slugs, because the preferred slug then goes through the search: an import of two new servers with free slugs
returns exactly when the slugs differ, or have 99 characters and one free variant (`Slugs.SecondSearchEndsExactly`).

## Model

| member | source | states |
|---|---|---|
| `SpeedTestMemory.FoldIsSound` | app/services/speed_test_memory.py:195-212 | every record reachable by updates has exact minimum and maximum, 0 < min <= avg <= max, the sample count, and is never rejected by normalisation |
| `SpeedTestMemory.AverageDrift` | app/services/speed_test_memory.py:325-346 | after n samples the rounded running average satisfies 4·abs(n·avg − sum) <= n(n+1) − 2 |
| `SpeedTestMemory.DriftBoundIsAttained` | app/services/speed_test_memory.py:339-345 | two samples attain the drift bound if and only if their sum is odd; otherwise their average does not drift |
| `SpeedTestMemory.UpdateIsSound` | app/services/speed_test_memory.py:325-346 | whatever record was stored before, an update leaves a positive, ordered one that encloses the new sample |
| `SpeedTestMemory.OldRowIsRead` | app/services/speed_test_memory.py:46-240 | a row stored before the memory keys existed counts as success, attempt and statistics, dated by its check if need be |
| `SpeedTestMemory.MarkedRowIsNoAttempt` | app/services/speed_test_memory.py:77-101 | a row marked as displayed again is never taken for an attempt |
| `NetworkEnrich.Network.RecordLive` | app/services/network_enrich.py:203-250 | the family after a live attempt; the other direction's keys are untouched |
| `NetworkEnrich.Network.ApplyCached` | app/services/network_enrich.py:299-367 | the family after a postponed cycle; the other direction's keys are untouched |
| `NetworkEnrich.Network.Enrich` | app/services/network_enrich.py:102-200 | live exactly when scheduled and granted by the slot; what both directions hold in every branch |
| `NetworkEnrich.DisplayNeverClaims` | app/services/network_enrich.py:299-367 | for any stored memory, a displayed success has data, and an empty one becomes a failure that keeps its error |
| `NetworkEnrich.NothingToDisplay` | app/services/network_enrich.py:299-367 | the row displayed when nothing is remembered |
| `NetworkEnrich.DisplayIsDated` | app/services/network_enrich.py:299-367 | a displayed row is dated whenever the last success is |
| `NetworkEnrich.LivePreviousIsAttempt` | app/services/network_enrich.py:299-367 | a live previous row is kept as the last attempt when none was carried |
| `CheckLog.ComponentMonitor.LatestWithMeaningfulSpeedTest` | app/services/monitoring_service.py:120-144 | the bounded backward scan of the log finds the newest usable success among the filtered rows |
| `CheckLog.ScanFindsNewest` | app/services/monitoring_service.py:120-144 | on a log in the order of its times the scan finds the newest usable check, if there is one among the newest `limit` that claim a success |
| `CheckLog.HistoryIsRead` | app/services/monitoring_service.py:120-144 | without a success on the latest row, one is handed on if and only if a usable one is among the newest 50 that claim it |
| `CheckLog.LatestIsNewest` | app/services/monitoring_service.py:253-256 | on such a log the last check is the newest |
| `CheckLog.EnrichFresh` | app/services/network_enrich.py:102-200 | enriching a fresh `network` leaves the download details of the matching cycle |
| `CheckLog.ComponentMonitor.RunCheck` | app/services/monitoring_service.py:246-305 | one cycle appends exactly the check determined by the memory handed over by the log |
| `CheckLogRuns.RunIsChronological` | app/services/monitoring_service.py:302-305 | cycles stamped one after the other leave a log in the order of its times |
| `CheckLogRuns.WriterAgrees` | app/services/network_enrich.py:203-367 | a row written from the right memory yields the right success, statistics and attempt when read back |
| `CheckLogRuns.MemoryMatchesHistory` | app/services/speed_test_memory.py:266-293 | over every run the carried memory and the history scan agree with folds over what happened |
| `CheckLogRuns.HandedMemory` | app/services/monitoring_service.py:253-281 | the next cycle is handed the newest live success and the statistics folded over the live successes |
| `CheckLogRuns.StatisticsOfRun` | app/services/speed_test_memory.py:325-346 | over every run the sample count is the number of live successes if and only if each reported a speed; minimum and maximum are exact and enclose the average |
| `CheckLogRuns.SampleCountOfRun` | app/services/speed_measure.py:84-91 | with measurements that report a speed whenever they succeed, the sample count is the number of live successes |
| `CheckLogRuns.SpeedsCountSuccesses` | app/services/network_enrich.py:225-232 | a success without a speed is the only thing that makes the statistics forget samples |
| `CheckLogRuns.HandedAttempt` | app/services/speed_test_memory.py:77-101 | the attempt seen by the scheduler is the newest live attempt since the last wiped row |
| `CheckLogRuns.StampExactly` | app/services/speed_test_config.py:239-245 | the stamp used for ordering, in terms of what happened |
| `CheckLogRuns.DueExactly` | app/services/speed_test_config.py:163-214 | for every run, interval and time: when a live test is due, in terms of what happened |
| `CheckLogRuns.LiveAttemptsKeepDistance` | app/services/speed_test_config.py:152-214 | successive live attempts without a wiped row between are at least the interval apart, at least max(interval, 3600) after a rate limit |
| `CheckLogRuns.WipedRowForgetsBackoff` | app/services/speed_test_config.py:178-180 | a wiped row makes the component due at once |
| `MeasuredRuns.HandedAsMeasured` | app/services/network_enrich.py:216-250 | over every run the next cycle is handed bytes, speed and time of the newest measurement with data, the newest attempt, and statistics with the exact number and range of the measured speeds |
| `MeasuredRuns.DueAsMeasured` | app/services/speed_test_config.py:152-214 | over every run, interval and time: due or not, from the newest measurements, their errors and times |
| `MeasuredRuns.MeasurementsKeepDistance` | app/services/speed_test_config.py:152-160 | successive attempts are the interval apart, at least an hour after a measurement that failed with a rate limit |
| `MeasuredRuns.DisplayAsMeasured` | app/services/speed_test_memory.py:356-378 | over every run, the row a postponed cycle displays: its data, time, reason, and whether it is stale or throttled |
| `SpeedTestSchedule.EmptySuccessRetries` | app/services/speed_test_config.py:194-200 | a live success without data keeps no test away |
| `SpeedTestSchedule.UndatedFailureWaits` | app/services/speed_test_config.py:206-214 | a live row without a time counts from the time of its check |
| `SpeedTestSlot.Slot.TryAcquire` | app/services/speed_test_config.py:84-92 | grants are at least 60 seconds apart; a refusal changes nothing |
| `SpeedTestSlot.WindowBound` | app/services/speed_test_config.py:84-92 | a window of length W holds at most floor(W/60)+1 grants |
| `SpeedTestStagger.PickStaggered` | app/services/speed_test_config.py:224-247 | min(limit, due) components are picked and none left out precedes a picked one |
| `SpeedTestStagger.PickIsOldestFirst` | app/services/speed_test_config.py:239-247 | never measured ones come first, then the oldest attempts, then the smaller keys |
| `SpeedTestStagger.StampAfterCycle` | app/services/speed_test_config.py:241-244 | how one more cycle of a component moves its ordering stamp |
| `SpeedTestStagger.OvertakenAtMost` | app/services/speed_test_config.py:224-247 | a component not picked is overtaken at most once by each component ahead of it and once more for each wiped row of another one |
| `SpeedTestStagger.BoundedWaiting` | app/services/speed_test_config.py:224-247 | a component due in n + W + F rounds has been picked, W wiped rows of others and F rounds whose pick did not measure |
| `SpeedTestFleet.NobodyStarves` | app/services/speed_test_config.py:224-247 | the same on the check logs of a whole fleet, with postponed, wiped and missing checks of any component |
| `SpeedTestFleet.StaysDueIsPicked` | app/services/speed_test_config.py:217-247 | without wiped rows of others and with every pick measuring live, a component that stays due is picked within n cycles |
| `SpeedTestStarvation.BoundIsAttained` | app/services/speed_test_config.py:224-247 | the bound cannot be lowered: for all n >= 2, W, F and intervals, a run the slot grants in which a component due n + W + F - 1 times is never picked |
| `SpeedTestStarvation.WipedRowsStarve` | app/services/speed_test_config.py:239-246 | two components timing out in turns keep a third, due in every cycle, from being picked in runs of any length whose live tests the slot grants |
| `SpeedTestStarvation.FailingPickStarves` | app/services/vpn_check_service.py:198-222 | a picked component whose probe keeps failing keeps another, due in every cycle, from being picked in runs of any length |
| `DueChecks.HealthCheckRunner.RunCheck` | app/services/monitoring_service.py:285-305 | a live test needs schedule, permission, working probe and slot; the component's log grows by the resulting check, an error row when the measurement raises after taking the slot |
| `DueChecks.HealthCheckRunner.PickAllowed` | app/services/monitoring_service.py:315-317 | the pick of at most one among the components that want a test |
| `DueChecks.HealthCheckRunner.RunDueChecks` | app/services/monitoring_service.py:307-321 | one component at most may measure, the first in the order of the pick among those polled that want a test; it takes the slot if and only if its probe works and the last test is a minute old; every polled component gets exactly the check its visit determines, no other log changes; a check that raises, of a VPN or an HTTP component, leaves nothing stored |
| `Matcher.MatchServers` | app/services/datagate/matcher.py:154-242 | the three loops compute the matching function whose guarantees follow |
| `MatcherProofs.LinkPhaseExactly` | app/services/datagate/matcher.py:163-185 | the link phase keeps exactly the links whose component is still admissible |
| `MatcherProofs.MatchIsOneToOne` | app/services/datagate/matcher.py:154-242 | nothing is matched twice; every pair has equal types, no crossed OpenVPN protocols and a similarity of at least 40, takes no component from a server outside the batch, and carries its points and mark |
| `MatcherProofs.LinksAreKept` | app/services/datagate/matcher.py:163-185 | with distinct links, a linked pair is kept as such if and only if it may be paired |
| `MatcherProofs.NoBlockingPair` | app/services/datagate/matcher.py:187-238 | a server and a component free to be matched, by links, batch and kept pairs, are matched or blocked by a pair preferred in the order links, endpoint pairs of 70, others by points |
| `MatcherProofs.MatchIsMaximal` | app/services/datagate/matcher.py:187-241 | no server without a pair may be paired with a component that is left, by links, batch and pairs |
| `MatcherProofs.LeftoversExactly` | app/services/datagate/matcher.py:240-242 | the new servers and the unmatched components are those without a pair |
| `DataGateImport.ImportMatched` | app/services/datagate/import_service.py:307-361 | the pairs whose configuration was fetched set link and protocol of their component, the others leave it; updated plus errors is the number of pairs |
| `DataGateImport.ImportStorableExactly` | alembic/versions/020_datagate_integration.py:46-52 | whatever fetches fail and in whatever order the rows are updated: no update violates the unique index if and only if each holder of a server given to another row is relinked itself, and earlier; the final table satisfies it if and only if no component left alone keeps such a server |
| `DataGateImport.StorableExactly` | alembic/versions/020_datagate_integration.py:46-52 | the first of these for any table and any one-to-one pairs |
| `DataGateImport.HandoverNeedsOrder` | app/services/datagate/matcher.py:163-173 | an import whose final table satisfies the index is stored in one order of its two rows and violates the index in the other |
| `DataGateImport.StaleLinkCannotBeStored` | app/services/datagate/matcher.py:171-173 | an inadmissible component that keeps its link while the server goes elsewhere: no order of the updates lets the import through |
| `MatcherRerun.FixedPointExactly` | app/services/datagate/matcher.py:163-185 | whatever the import wrote into the matched components, matching again repeats the result, all already linked, if and only if the link dictionary leads back from every matched server and each component is still admissible |
| `MatcherRerun.DistinctLinksGiveFixedPoint` | app/services/datagate/import_service.py:322-330 | with distinct links afterwards, if and only if each component is still admissible |
| `MatcherRerun.UnchangedTextsFixedPoint` | app/services/datagate/import_service.py:315-330 | an import that leaves names and configurations alone: if and only if the links lead back |
| `MatcherRerun.RefreshedTextsDecide` | app/services/datagate/import_service.py:322-330 | for one server and one component the import is repeated if and only if what it wrote still scores enough |
| `MatcherRerun.StaleLinkBreaksFixedPoint` | app/services/datagate/matcher.py:163-173 | the table that a stale link would leave is no fixed point |
| `MatcherRetry.RetryRepeatsExactly` | app/services/datagate/import_service.py:280-420 | whatever fetches failed and components were created, the next match repeats all pairs and adds the created ones, written and earlier linked ones as already linked, if and only if every written row is still admissible |
| `MatcherRetry.RetryOrder` | app/services/datagate/matcher.py:187-238 | the next match tries exactly what is left of the candidates, in the same order |
| `MatcherRetry.WrittenStaysExactly` | app/services/datagate/matcher.py:165-185 | a written row is matched again as already linked if and only if it is still admissible, whatever became of the others |
| `MatcherRetry.ImportLeavesRetry` | app/services/datagate/import_service.py:307-420 | the table of an import - matched rows relinked, created rows added - is one these theorems speak of |
| `MatcherRetry.StoredImportIsFixedPoint` | app/services/datagate/import_service.py:322-330 | an import stored row by row without failures and new servers is a fixed point if and only if each matched component is still admissible |
| `MatcherRerun.MatchIgnoresOrder` | app/services/datagate/matcher.py:199-242 | without ties the order of both lists changes neither pairs nor new servers nor unmatched components |
| `Uptime.ComputeDowntimeSeconds` | app/services/uptime_stats.py:51-84 | the scan loop computes the downtime function |
| `Uptime.ScanMeasuresDowntime` | app/services/uptime_stats.py:63-84 | the outages found cover exactly the moments at which the latest check is an outage |
| `Uptime.DowntimeCountsSeconds` | app/services/uptime_stats.py:51-84 | on whole-second timestamps in any order the result is the number of seconds in an outage up to the period's end or now |
| `Uptime.DowntimeWithinTruncation` | app/services/uptime_stats.py:77-82 | on any timestamps the result is below the true downtime by less than a second for each outage |
| `DayDowntime.DayDowntimes` | app/services/public_status_service.py:452-468 | per key, the downtime seeded by the end of the previous day |
| `DayDowntime.SeedIsPreviousDay` | app/services/public_status_service.py:929-942 | the seed of a day is the latest outcome of the day before, none after a day without checks, and the outcome before the range on its first day |
| `DayDowntime.DaysAddUp` | app/services/uptime_stats.py:51-84 | per-day downtimes of consecutive days, with or without checks, sum to at most one pass over the range, and to exactly that if and only if no day without checks begins in an outage |
| `DayDowntime.RangeTotal` | app/services/public_status_service.py:412-468 | the same for the map computed per component and day |
| `DayDowntime.GapForgetsOutage` | app/services/public_status_service.py:936-942 | an example: across a day without checks the outage is forgotten by the next day |
| `Rounding.RoundDivMonotone` | app/services/uptime_stats.py:98 | rounded quotients keep their order |
| `Rounding.RoundDivExactly` | app/services/uptime_stats.py:98 | the rounded quotient is the nearest one, ties to even, and nothing else is |
| `DayStatus.SumStats` | app/services/public_status_service.py:915-926 | the loops pool the counts of all members and days with data |
| `DayStatus.ProjectDayStatuses` | app/services/public_status_service.py:958-969 | every day gets the merged status of its members |
| `DayStatus.PoolIsSum` | app/services/public_status_service.py:915-926 | each pooled number is the plain sum of that number over the members and days with checks |
| `DayStatus.StatusExactly` | app/services/uptime_stats.py:94-131 | the status by the counts: no data, or exact bounds on the share of up and degraded checks, with the rounding to two decimals |
| `DayStatus.MergedIsWorst` | app/services/public_status_service.py:972-975 | the merged status is the worst member's status |
| `DayStatus.StatusMonotone` | app/services/uptime_stats.py:116-131 | a larger available share never has a worse status |
| `DayStatus.PooledNeverWorse` | app/services/public_status_service.py:905-969 | pooled counts over members and days are never worse than the merged status of some pooled day |
| `DayStatus.PooledDayNeverWorse` | app/services/public_status_service.py:905-926 | for one day, pooled is never worse than worst of members |
| `VpnWorker.PersistentWorker.MaybeRecordProbeTransition` | app/services/vpn_session_supervisor.py:352-384 | availability events on changes only; nothing is noted when recording raises |
| `VpnWorker.PersistentWorker.TakeTurn` | app/services/vpn_session_supervisor.py:96-194 | one loop iteration with all its exception paths |
| `VpnWorker.PersistentWorker.Run` | app/services/vpn_session_supervisor.py:83-207 | the loop and its cleanup compute the run function |
| `VpnWorker.StepInOrder` | app/services/vpn_session_supervisor.py:101-194 | every turn keeps sessions and samplers in order, whatever raises |
| `VpnWorker.StepKeeps` | app/services/vpn_session_supervisor.py:101-194 | a turn keeps log and worker in agreement if and only if it starts no session whose connect event is lost |
| `VpnWorker.LogCounts` | app/services/vpn_session_supervisor.py:83-207 | in a well-formed log connects minus disconnects, and losses minus recoveries, are 0 or 1 |
| `VpnWorker.TurnIsLogged` | app/services/vpn_session_supervisor.py:102-126 | a turn starts a session, and logs a connect, a failed connect or a reconnect, exactly when it reaches the start with that outcome and, for the connect, the lifecycle probe does not raise |
| `VpnWorker.LoopHead` | app/services/vpn_session_supervisor.py:96-99 | at every loop head each stopped session has logged its disconnect, sessions are stopped once and in order, a sampler lives only with the held session; connects logged and connects lost add up to the sessions started, and the log is well formed if and only if none was lost |
| `VpnWorker.LostConnectBreaksLog` | app/services/vpn_session_supervisor.py:126-190 | a lifecycle probe raising at the first connect leaves a log of one disconnect |
| `VpnWorker.Exit` | app/services/vpn_session_supervisor.py:195-207 | at exit each started session was stopped exactly once, every disconnect is logged if and only if no held session lost its row, and the log is well formed if and only if no connect was lost |
| `VpnWorker.BackoffShape` | app/services/vpn_session_supervisor.py:117-120 | retry delays double from 5 and stay at 60 |
| `VpnAvailability.LossIsDegraded` | app/services/vpn_session_supervisor.py:352-384 | over every run the last availability event is a loss if and only if the newest outcome noted was degraded |
| `VpnAvailability.ChangeIsLogged` | app/services/vpn_session_supervisor.py:352-384 | a turn logs a loss if and only if it probes degraded after anything else, a recovery if and only if up after degraded, unless writing raises |
| `VpnAvailability.TurnEnds` | app/services/vpn_session_supervisor.py:96-194 | for every turn: whether the loop goes on, whether a session is held, the failures in a row, and the seconds waited |
| `VpnAvailability.SamplerEnds` | app/services/vpn_session_supervisor.py:126-150 | after every turn a sampler runs if and only if a session is held and its sampler started with it |
| `VpnSupervisor.Supervisor.StartWorker` | app/services/vpn_session_supervisor.py:521-528 | a new worker with its own unset stop event enters all three dictionaries |
| `VpnSupervisor.Supervisor.StopWorker` | app/services/vpn_session_supervisor.py:530-538 | the worker leaves all three dictionaries with its stop event set, no other event changes |
| `VpnSupervisor.Supervisor.Sync` | app/services/vpn_session_supervisor.py:496-514 | exactly the outdated and missing workers are started, exactly the removed and outdated ones stopped; a worker that ended by itself is not replaced |
| `VpnSupervisor.Supervisor.SyncTwice` | app/services/vpn_session_supervisor.py:496-514 | two syncs with one input do what one does |
| `VpnSupervisor.Supervisor.NoTwoUnstopped` | app/services/vpn_session_supervisor.py:521-538 | no component has two unstopped workers |
| `VpnSupervisor.RunningAfterSync` | app/services/vpn_session_supervisor.py:506-514 | after a sync a desired component has a running worker if and only if it was started by this sync or its registered worker had not ended |
| `VpnSupervisor.SyncIsExact` | app/services/vpn_session_supervisor.py:506-514 | which components have a worker after a sync, with which snapshot, and which of them were started anew, also for rows that cannot be read |
| `HostWan.DictRoundTrip` | app/services/host_wan_speed.py:75-103 | a baseline survives conversion to a dictionary and back |
| `HostWan.BaselineStore.HydrateFromDisk` | app/services/host_wan_speed.py:129-174 | the file is read exactly when its version differs from the one seen; broken files change nothing |
| `HostWan.BaselineStore.WriteDisk` | app/services/host_wan_speed.py:110-126 | the whole state is written, or nothing |
| `HostWan.BaselineStore.StoreBaseline` | app/services/host_wan_speed.py:235-245 | the new latest baseline, the bounded history, the cleared skip reason |
| `HostWan.BaselineStore.BaselineAtOrBefore` | app/services/host_wan_speed.py:222-232 | the last retained baseline at or before a time |
| `HostWan.BaselineStore.RunIfDue` | app/services/host_wan_speed.py:281-366 | memory, file and slot after a run, in every branch |
| `HostWanProofs.PersistRoundTrip` | app/services/host_wan_speed.py:110-174 | what one process writes another reads back unchanged |
| `HostWanProofs.BrokenLatestFallsBack` | app/services/host_wan_speed.py:129-174 | a file without a readable latest baseline shows the last one of its history |
| `HostWanProofs.LastBeforeIsNearest` | app/services/host_wan_speed.py:222-232 | under a non-decreasing clock the last entry at or before a time is the nearest one |
| `HostWanProofs.BoundedHistoryAgrees` | app/services/host_wan_speed.py:222-245 | the bounded history answers like the full log if and only if nothing was dropped, or the time is not before the oldest retained entry, or before all entries |
| `HostWanProofs.ReaderSeesLastPersisted` | app/services/host_wan_speed.py:129-232 | in every interleaving, with restarts of both, a reader answers with the writer's last persisted state, and a writer restarting resumes from it |
| `HostWanProofs.NothingUnpersisted` | app/services/host_wan_speed.py:235-245 | while writes succeed the persisted state is the writer's state, across restarts |
| `HostWanProofs.SuccessStays` | app/services/host_wan_speed.py:360-366 | once the latest baseline is a success it stays one until the writer restarts, and once a success is persisted it stays across restarts |
| `HostWanProofs.RunStoresExactly` | app/services/host_wan_speed.py:248-366 | after any run, whether one more run stores a measurement and which, by the last stored baseline, the interval and what was measured; and the pending reason |
| `HostWanProofs.MeasurementsAreSpaced` | app/services/host_wan_speed.py:248-256 | in every run, with restarts, stored measurements are an interval apart, and only the first entry can be a skip mark |
| `RefreshTokens.FindIsActive` | app/services/refresh_token_service.py:27-34 | a token is refused exactly when no row with its hash is unrevoked and unexpired |
| `RefreshTokens.TokenService.IssuePair` | app/services/refresh_token_service.py:60-66 | the table after issuing |
| `RefreshTokens.TokenService.RotateToken` | app/services/refresh_token_service.py:68-79 | the table after rotating, and the error for an invalid token |
| `RefreshTokens.TokenService.RevokeToken` | app/services/refresh_token_service.py:81-85 | the table after revoking |
| `RefreshTokens.TokenService.RevokeAllOf` | app/services/refresh_token_service.py:41-49 | the table after revoking all tokens of an account |
| `RefreshTokens.RunKeeps` | app/services/refresh_token_service.py:60-89 | in every run ids, hashes and replacements stay unique and replacements are newer rows of the same account |
| `RefreshTokens.ChainsOfEveryRun` | app/services/refresh_token_service.py:68-79 | chains are acyclic, stay in one account, do not fork or merge, and have at most one unrevoked token |
| `RefreshTokens.NeverAcceptedAgain` | app/services/refresh_token_service.py:27-39 | a token once rotated or revoked is refused in every continuation |
| `RefreshTokens.TokensConserved` | app/services/refresh_token_service.py:60-89 | how each operation changes the number of unrevoked tokens of an account |
| `RefreshTokens.AcceptedExactly` | app/services/refresh_token_service.py:27-34 | over every run a token is accepted if and only if the operations handed it out, did not take it back, and its time is not over |
| `RefreshTokens.AcceptedUntil` | app/services/refresh_token_service.py:27-89 | in every continuation, a token handed out at t is accepted at now if and only if now < t + lifetime and no rotation, revocation or revocation of all came in between |
| `RefreshTokens.RotationLinks` | app/services/refresh_token_service.py:68-79 | an accepted rotation adds one row and marks the old one with its time and successor |
| `RefreshTokens.RevocationMarks` | app/services/refresh_token_service.py:81-85 | an accepted revocation marks one row with its time, any other changes nothing |
| `Slugs.SlugifyShape` | app/services/datagate/import_service.py:37-39 | slugs are non-empty, at most 100 long, words joined by single dashes unless cut, and stay unchanged |
| `SlugWords.SlugifyJoins` | app/services/datagate/import_service.py:37-39 | the slug of any lower-case text is its words joined by single dashes, cut to 100 characters, or "service" |
| `Slugs.DigitsStandForNumber` | app/services/datagate/import_service.py:49 | the digits appended are the decimal digits of the number |
| `Slugs.SomeCandidateIsFree` | app/services/datagate/import_service.py:256-279 | with room for the digits of m+1, one of the first m+1 candidates is free |
| `Slugs.SearchEndsExactly` | app/services/datagate/import_service.py:264-279 | the search ends if and only if one of finitely many slugs is free |
| `Slugs.FullLengthSlugHasNoVariant` | app/services/datagate/import_service.py:278 | for a slug of 100 characters it ends if and only if the slug itself is free |
| `Slugs.SlugAllocator.UniqueSlug` | app/services/datagate/import_service.py:256-279 | the first free candidate is returned and reserved, within m+1 candidates when there is room |
| `Slugs.DistinctServersDistinctSlugs` | app/services/datagate/import_service.py:42-49 | different server ids give different slugs while the id is not cut off |
| `Slugs.SameNameCollidesExactly` | app/services/datagate/import_service.py:42-49 | two ids give the same slug behind one name if and only if their digits agree once cut to what the name leaves of 97 characters |
| `Slugs.NameSeparatesIdsExactly` | app/services/datagate/import_service.py:42-49 | ids up to n stay apart behind one name if and only if the name leaves room for all digits of n |
| `Slugs.NamesSeparateServersExactly` | app/services/datagate/import_service.py:42-49 | ids up to n stay apart over all names of at most L characters if and only if L + 3 plus the digits of n fit in 100 |
| `Slugs.SecondSearchEndsExactly` | app/services/datagate/import_service.py:256-279 | for any two new servers whose slugs are free, the second search ends if and only if their slugs differ, or have 99 characters and a free variant |
| `Slugs.SameNameReturnsExactly` | app/services/datagate/import_service.py:376 | for one name of at most 98 characters, if and only if the kept digits of the two ids differ |
| `Slugs.LongNamesCollide` | app/services/datagate/import_service.py:42-49 | names of 97 or more characters give every server id the same slug |

## Left out

- CheckLogRuns.HandedMemory: covers the download direction; lifecycle probes of the persistent worker drop the upload fields, so upload memory over whole runs is not claimed.
- CheckLogRuns.LiveAttemptsKeepDistance: says nothing across a wiped row, where the code keeps no attempt.
- CheckLog.ComponentMonitor.LatestWithMeaningfulSpeedTest: reads rows in the order they were appended, where the source orders by `checked_at`; the two agree while the checks of a component are stamped one after the other.
- CheckLog.ComponentMonitor.RunCheck: takes the last appended row as the latest, under the same assumption, and covers the download direction.
- SpeedTestFleet.NobodyStarves: assumes that live attempts are stamped later than all attempts before, and that only picked components measure; checks started by hand may measure without a pick.
- DueChecks.HealthCheckRunner.RunDueChecks: leaves out the host WAN run before the loop, which is `HostWan.BaselineStore.RunIfDue`, and of the HTTP components, whose checks carry no speed test, everything but whether one raises.
- DayDowntime.DaysAddUp: assumes distinct timestamps in whole seconds that are not after now.
- Uptime.DowntimeCountsSeconds: assumes distinct timestamps, because the order of equal ones depends on the input order.
- DataGateImport.ImportMatched: the new names and configurations appear as the protocols and scores they lead to, which are arbitrary; connection modes and URLs are field copies.
- MatcherRetry.RetryRepeatsExactly: takes the components created for new servers as given, each with a free id and link; their insertion behind savepoints is not modelled, nor which error a rejected flush turns into.
- VpnWorker.StepKeeps: assumes that writing results and events and stopping sessions and samplers succeed; loading the context and probing before an event may raise.
- HostWanProofs.ReaderSeesLastPersisted: assumes one writer at a time, and that every replacement of the file has a new modification time.
- Slugs.SlugAllocator.UniqueSlug: requires the exact condition under which the loop ends, since otherwise it runs forever.
- Slugs.SlugifyShape: takes text already in lower case; Unicode case folding is not modelled.
- Name and endpoint comparison inside `score_pair`: any similarity that does not read the link, behind the type and protocol gate.
- Purging of check history: the log only grows.
- Thread interleaving inside lock-protected steps, and readers that look at the file between its status and its content.
- Subprocesses, network namespaces, HTTP, SQL, authentication, routes, schemas and log messages.
- Public timeline, incident, catalog and account operations, which are lookups and field copies.
