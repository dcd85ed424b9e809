# Nautobot Maps: alerts, availability and their protocols

A model of the Python backend of Nautobot Maps (`nautobot_maps/`) and proofs about it. The
backend reads devices from Nautobot, LibreNMS and wireless controllers, decides how bad each
site is, keeps incidents, announces changes, and reports availability afterwards. Most of what
it promises is about whole runs: no push is lost, the report and its export add up, a board is
never older than the syncs before it, the log says what the board saw.

Each module follows one part of the source and takes its form: tables that are updated in place
are classes with fields, loops are loops, and protocols between concurrent actors are state
machines whose steps are the transactions. A method is proved against a function or a meaning,
and lemmas prove what is promised of that function.

| file | what it models |
|---|---|
| `Numbers.dfy`, `Wrappers.dfy`, `Levels.dfy` | small shared definitions |
| `Intervals.dfy` | union, difference, clipping and measure of half-open intervals |
| `Availability.dfy` | the report's downtime and the per-incident export, which order maintenance differently |
| `LevelLog.dfy`, `CriticalBasis.dfy` | the level log, its replay into time at Critical, and the downtime on that basis |
| `Maintenance.dfy` | maintenance windows, live and in the report, and how long a board may be stored |
| `Severity.dfy` | a site's level from its devices |
| `Stacks.dfy`, `RollUp.dfy`, `WirelessIndex.dfy` | stacks as one device, devices by site, access points by serial and name |
| `Flapping.dfy` | flap detection with hysteresis over lazily written rows |
| `Lifecycle.dfy` | incidents: opening, refreshing, resolving, acknowledging, and the key migration |
| `Notify.dfy`, `Sender.dfy`, `SenderRuns.dfy` | queueing alarms and recoveries, and the retrying outbox with concurrent senders |
| `BoardCache.dfy` | the stored board raced by syncs, requests, rebuilds and lock time limits |
| `Observations.dfy` | LibreNMS answers ordered by observation numbers |
| `PushHandshake.dfy`, `PushTable.dfy`, `MarkerHandshake.dfy` | request, rebuild, acknowledge: by push number and by time |
| `PushedBoard.dfy` | whether the stored board contains the acknowledged pushes |
| `InventorySync.dfy` | full and incremental Nautobot syncs and their watermark |

`dafny verify dfyconfig.toml` checks everything.

## What turned out not to hold

Some statements one would like to make are false of the code. Each has a lemma that shows it,
and a lemma that says exactly when the code does meet it, or what does hold.

- The downtime of a report, in seconds, is not the sum of that of its export's rows, even without
  overlap: each figure is cut to whole seconds on its own (`ShownSecondsCanDiffer`,
  `ShownSecondsAddUp`). In exact time they add up (`ExportAddsUp`).
- A stored board whose builder could not read the snapshot version has no label, and such a board
  counts as current for everyone, however old; and a request that cannot read the version is served
  any stored board (`StaleAnswerIsReachable`, `LabelledBoardIsServedStale`). These are exactly the
  stale answers (`StaleAnswerExactly`, `RequestIsServedStaleExactly`).
- A push can be acknowledged and not be in the stored board: a build that went on without the lock
  may be overtaken by another and one of the two stores what it read before the push
  (`AcknowledgedPushIsMissing`, `UpToDateExactly`). While every build waits for the lock the stored
  board contains every acknowledged push (`LockedBuildsStayUpToDate`).
- A change stored with a time that is not later than those already read or acknowledged is
  forgotten (`UnsafeMarkerCanBeLost`); with later ones nothing is (`SafeRunsLoseNothing`).
- The stored state of a device is not always kept while the device lasts: a row's time is that of
  its last write, which an unchanged state skips, so one build that does not see the device drops
  the row of an outage of over a week, and the next finds one that has just begun
  (`LongOutageIsForgotten`). What is stored is right exactly as long as no build drops a row that
  says something (`StoredIsTrueExactly`), and a loss shows (`LossShowsInRun`).
- An incident that began after the time a build would end it at is not resolved by it
  (`LaterIncidentStaysOpen`), as when two builds commit in the other order than their times. A
  write leaves open exactly the down and the frozen unless there is one (`OpenAreDownOrFrozenExactly`).
- The level shown can get better when one more device goes down, unless access points alone count
  as Low (`ShownLevelIsMonotoneExactly`). The recorded level cannot (`RecordedLevelIsMonotone`).
- An alarm followed by maintenance and then OK queues no recovery (`AlarmIsLeftByMaintenance`,
  `AlarmIsLastExactly`).
- A recovery can be queued twice for one alarm: when the first was delivered and deleted while the
  alarm was still to be sent, and the site gets better again below the minimum
  (`RecoveryCanRepeat`, `RecoveryRepeatsExactly`). While the newest row in the table agrees with the
  last message queued it is not (`RecoveriesDoNotRepeat`).
- An alarm queued under another minimum is not ended once its message has been deleted
  (`DeletedAlarmIsLeft`), and that is the only way a site that is fine is left with one
  (`AlarmIsLeftExactly`).
- An object stamped below the watermark is missed by every incremental sync (`EarlyStampIsMissed`,
  `MissedUntilFullSync`, `IncrementalExactly`).

## Model

| member | source | states |
|---|---|---|
| Intervals.ComputeUnion | nautobot_maps/availability.py:139-146 | the merge loop gives the sorted, non-empty, strictly separated list of the same instants |
| Intervals.UnionIsNormalForm | nautobot_maps/availability.py:139-146 | two lists cover the same instants exactly when they merge to the same list, and a list is left as it is exactly when it is canonical |
| Intervals.CanonicalUnique | nautobot_maps/availability.py:139-146 | a set of instants has one canonical list |
| Intervals.ComputeSubtract | nautobot_maps/availability.py:149-166 | the nested loops over pieces and holes give exact set difference, in canonical form, for any two lists |
| Intervals.SubtractMeaning | nautobot_maps/availability.py:149-166 | the same of the specification, by instants |
| Intervals.ClipMeaning | nautobot_maps/availability.py:169-170 | clipping is exact intersection with the period |
| Intervals.ClipCanonical | nautobot_maps/availability.py:169-170 | and keeps the canonical form |
| Intervals.SecondsCountInstants | nautobot_maps/availability.py:173-174 | the measure counts every covered instant once, cut to whole seconds |
| Intervals.SecondsMonotone | nautobot_maps/availability.py:173-174 | covering more never measures less |
| Availability.ReadMaintenance | nautobot_maps/availability.py:180-197 | the dictionaries hold, per site and per device, the windows of the period cut at their early end |
| Availability.WindowsMeaning | nautobot_maps/availability.py:180-197 | a moment of the period is in them exactly when some window of the device or its site covers it |
| Availability.ReadIncidents | nautobot_maps/availability.py:216-233 | per site and device the down times of its incidents, and how many there are |
| Availability.CountsReported | nautobot_maps/availability.py:216-233 | the incidents counted are those of the site, not of access points, that began before the period's end, were not over by its start, and lasted |
| Availability.SiteDowntime | nautobot_maps/availability.py:356-362 | cutting each device's windows, clipping, then cutting the site's leaves exactly the moments some device was down outside both |
| Availability.AnyDown | nautobot_maps/availability.py:305-362 | a site's reported downtime is, as a set, exactly the time some incident of it was open outside maintenance |
| Availability.IncidentStream | nautobot_maps/availability.py:506-554 | the export gives one row per incident in the period, with its time cut by the merged windows, although it merges each device's windows once |
| Availability.ExportOneMore | nautobot_maps/availability.py:506-554 | each of those, in order, gives one row of the export, and no other incident does |
| Availability.RowMeaning | nautobot_maps/availability.py:506-554 | a row shows the seconds its incident was down in the period and those that count, and whether maintenance covers none, all or a part |
| Availability.CountedTimeMeaning | nautobot_maps/availability.py:506-554 | the time a row counts is the incident's time in the period outside maintenance |
| Availability.ExportAddsUp | nautobot_maps/availability.py:356-362 | the union of the incidents' counted time is the site's downtime; their sum is never less, and equal exactly when no two count the same instant |
| Availability.ExportShows | nautobot_maps/availability.py:506-554 | the seconds a site's rows show are its incidents' counted sets, each cut to whole seconds |
| Availability.ShownSecondsAddUp | nautobot_maps/availability.py:447-461 | when the seconds shown agree without overlap, exactly, and by how much they can differ in any case |
| Availability.ShownSecondsCanDiffer | nautobot_maps/availability.py:173-174 | two half-second incidents: the report shows one second, the export none |
| Availability.DowntimeMonotone | nautobot_maps/availability.py:356-362 | another window never raises a site's downtime, another incident never lowers it |
| LevelLog.LevelTables.RecordLevel | nautobot_maps/alerts.py:1667-1706 | one site's observation: first seen only stores, a change is logged and stored, no other site is touched |
| LevelLog.LevelTables.RecordSiteLevelChanges | nautobot_maps/alerts.py:1639-1709 | one build does that for every site it observed, in any order |
| LevelLog.LogReplaysTrace | nautobot_maps/alerts.py:1667-1706 | for any builds in time order the log is a chain from the first level to the last, and replaying it gives the observed level at every moment |
| LevelLog.ReadCritical | nautobot_maps/availability.py:236-299 | the loop over the changes in the period, started from the last before it or the first after it, gives the intervals at Critical |
| LevelLog.WalkMeaning | nautobot_maps/availability.py:280-299 | the intervals cover exactly the moments the replayed level is Critical |
| LevelLog.CriticalIsReplayed | nautobot_maps/availability.py:236-299 | reading only those few changes finds what replaying the whole log from first seen on would, also when the retention has deleted any changes before the period |
| LevelLog.ReadCriticalGivesTrace | nautobot_maps/availability.py:236-299 | so for any run of builds it yields exactly the instants since first seen at which the recorded level was Critical |
| CriticalBasis.CriticalDowntime | nautobot_maps/availability.py:363-367 | the replayed time at Critical, clipped, without the site's windows, in canonical form |
| CriticalBasis.CriticalDowntimeIsWhatWasSeen | nautobot_maps/availability.py:363-367 | on that basis the downtime is exactly the time the builds saw the site at Critical since first seen, outside its windows |
| Maintenance.WindowTable.Create | nautobot_maps/maintenance.py:284-345 | a plan is refused, and nothing stored, exactly when it names no site, mixes devices with several sites, has no end, has ended already, is empty or lasts over 14 days; and the refusal says which; else the planned windows are added |
| Maintenance.PlanAdds | nautobot_maps/maintenance.py:312-345 | an accepted plan keeps every window and adds one per named device at the one site, else one per site as a whole, from the given start or now to the given end or so many minutes later |
| Maintenance.PlanCovers | nautobot_maps/maintenance.py:326 | so a device comes into maintenance by a plan exactly when it or its whole site is named, while it lasts |
| Maintenance.WindowTable.EndMany | nautobot_maps/maintenance.py:348-369 | exactly the wanted windows that are active or upcoming get this end, and it counts them |
| Maintenance.EndsExactly | nautobot_maps/maintenance.py:348-369 | ending marks the wanted windows that have neither ended nor passed, and no others |
| Maintenance.WindowTable.ReadActive | nautobot_maps/maintenance.py:56-81 | a site or device is in the answer exactly when a window of it is active, with one that ends last |
| Maintenance.RunsKeepWindows | nautobot_maps/maintenance.py:333-338 | every window ever stored lasts, for at most 14 days, and an early end is before its planned one |
| Maintenance.EndStays | nautobot_maps/maintenance.py:348-369 | over any run windows are never removed or moved and an early end, once set, never changes |
| Maintenance.EndingAgainChangesNothing | nautobot_maps/maintenance.py:348-369 | ending the same windows again later changes nothing |
| Maintenance.ReportSeesWhatTheBoardSaw | nautobot_maps/availability.py:180-197 | from its planning on, the report counts a moment as in a window exactly when the live read at that moment had it active |
| Maintenance.BoardAndReportAgree | nautobot_maps/maintenance.py:56-81 | so, of the windows planned by then, a device is in maintenance on the board exactly when the report leaves that moment out |
| Maintenance.StateExactly | nautobot_maps/maintenance.py:253-266 | when a window is shown as active, upcoming or cancelled, and that a cancelled one covers no moment |
| Maintenance.HistoryIsWhatTheReportLeavesOut | nautobot_maps/maintenance.py:203-208 | how long the history says a window ran is the number of instants the report leaves out for it |
| Maintenance.NothingChangesUntilNext | nautobot_maps/maintenance.py:67-74 | with nothing planned or ended the same windows are active until the next change, and at it some window starts or stops being active |
| Maintenance.CachedUntilNextChange | nautobot_maps/maintenance.py:84-91 | a board stored before the next change expires at most a second after it, not before it without need, and never stays for good |
| Severity.DeviceLevel | nautobot_maps/alerts.py:368-396 | when a device's own level is Critical, exactly; Nautobot's field wins, and a tier never lowers a wired device |
| Severity.WorstOfDown | nautobot_maps/alerts.py:500-518 | the loop's running worst, count and names are the worst own level of the down devices, their number, and those of that level in order |
| Severity.ComputeWiredLevel | nautobot_maps/alerts.py:500-542 | the worse of the share level and the worst own level, with whom to blame |
| Severity.ComputeAlertLevel | nautobot_maps/alerts.py:411-497 | the level shown; only access points down exactly when something is down and nothing that counts; the recorded level is then OK |
| Severity.RecordedLevelExactly | nautobot_maps/alerts.py:411-542 | the recorded level is at least so bad exactly when some down device makes it so or the share of wired devices down does, by the percentages |
| Severity.ShownLevelExactly | nautobot_maps/alerts.py:486-497 | with nothing recorded and something down the shown level is that of access points, else the recorded one |
| Severity.NamesExactly | nautobot_maps/alerts.py:500-518 | the names are of the down devices that make the site exactly so bad |
| Severity.RecordedLevelIsMonotone | nautobot_maps/alerts.py:2250-2256 | more devices down never makes the recorded level better |
| Severity.ShownLevelIsMonotoneExactly | nautobot_maps/alerts.py:486-497 | the level shown has that property exactly when WIRELESS_AP_LEVEL is Low |
| Severity.OrderDoesNotMatter | nautobot_maps/alerts.py:411-542 | both levels depend on the devices, not on their order |
| Severity.PlainAccessPointsDoNotCount | nautobot_maps/alerts.py:429-434 | access points without a level of their own, however many and wherever listed, do not change the recorded level of a site with other devices |
| Stacks.Ordered | nautobot_maps/alerts.py:114-117 | the stable sort gives the members in the order of the key, ties in the list's order |
| Stacks.StackGroups | nautobot_maps/alerts.py:100-120 | exactly one group for every chassis of two or more members |
| Stacks.MergeStacks | nautobot_maps/alerts.py:123-133 | the list without the other members, in order, each lead with what makes its stack down |
| Stacks.Kept | nautobot_maps/alerts.py:133 | the places that stay are ascending and exactly those not merged into a lead |
| Stacks.MergedAt | nautobot_maps/alerts.py:123-133 | each device of the result stands for a place that stays, and keeps its chassis |
| Stacks.LeadIsMaster | nautobot_maps/alerts.py:111-119 | the lead is a master if there is one, then the one with the lowest position, then the first listed |
| Stacks.LeadComesFirst | nautobot_maps/alerts.py:114-119 | the lead precedes every other member, and all others are merged |
| Stacks.DownExactly | nautobot_maps/alerts.py:55-56 | the statuses that mean down |
| Stacks.LeadIsDownExactly | nautobot_maps/alerts.py:118-132 | the lead is down afterwards exactly when some member was |
| Stacks.LeadTakesOver | nautobot_maps/alerts.py:97-133 | the lead takes over what is known of the first member that is down, and keeps the rest of its own |
| Stacks.MergingAgainChangesNothing | nautobot_maps/alerts.py:123-133 | no stack is left, so merging is idempotent |
| RollUp.LocationChain | nautobot_maps/inventory.py:720-727 | the loop ends on any parents, cycles included, with the chain |
| RollUp.ChainIsAllAncestors | nautobot_maps/inventory.py:720-727 | the chain is the location and its ancestors in order, each once, and none is missing |
| RollUp.RollUpToSiteLocations | nautobot_maps/alerts.py:1556-1615 | the rows, each once, and per row the devices of the locations it owns in order with their path |
| RollUp.RowsExactly | nautobot_maps/alerts.py:1579-1597 | there is a row exactly for each site that is not excluded and for each location that keeps its own |
| RollUp.PathNamesTheWay | nautobot_maps/alerts.py:1609-1614 | a device's path names the locations between it and its site, from the site down |
| RollUp.OwnerIsNearestSite | nautobot_maps/alerts.py:1586-1606 | a location's row is the nearest site at or above it, else the location itself when there is none |
| RollUp.DroppedExactly | nautobot_maps/alerts.py:1588-1612 | its devices are left out exactly when it is unknown, or the row or a location between is excluded |
| RollUp.RowHoldsGiven | nautobot_maps/alerts.py:1598-1614 | a row's devices are those given for the locations that go to it, in that order and each as often |
| RollUp.RowHoldsExactly | nautobot_maps/alerts.py:1598-1614 | and it holds exactly those, each with the names of the locations between it and its nearest site, from the site down, or none without a site |
| RollUp.NothingExcludedNothingDropped | nautobot_maps/alerts.py:1556-1615 | with nothing excluded every device of a known location has a row |
| RollUp.DevicesAreConserved | nautobot_maps/alerts.py:1556-1615 | the rows together hold exactly the devices given for the locations that have a row, each as often as given |
| WirelessIndex.ReadIndex | nautobot_maps/wireless.py:278-334 | per serial and per name the index holds the best row, and no name that several access points carry; per serial the newest onboarding row |
| WirelessIndex.BestMeaning | nautobot_maps/wireless.py:308-322 | the best row of a key is one no other row of that key outranks |
| WirelessIndex.NameIsFoundExactly | nautobot_maps/wireless.py:323-331 | a name is in the index exactly when rows carry it and they are all of one access point |
| WirelessIndex.Attach | nautobot_maps/wireless.py:404-419 | every device gets its access point, else its onboarding, else nothing, also by the early return for an empty index |
| WirelessIndex.AttachedExactly | nautobot_maps/wireless.py:404-419 | from the rows: the newest with the device's serial, else, for an access point, the newest of those with its name if all are of one, else nothing |
| WirelessIndex.OnboardingExactly | nautobot_maps/wireless.py:404-419 | without an access point, the newest onboarding row of its serial |
| WirelessIndex.RestrictedIndexAgrees | nautobot_maps/wireless.py:299-305 | the index of a few devices' rows says of each of them what the full one does |
| Flapping.NextDeviceState | nautobot_maps/alerts.py:1111-1145 | the new row from the stored one: its changes, since when, and when it began flapping |
| Flapping.RecentMeaning | nautobot_maps/alerts.py:1106-1108 | what is kept of the changes are exactly those of the last 30 minutes, in order and each as often |
| Flapping.HistoryGrows | nautobot_maps/alerts.py:1118-1128 | each change of state adds one transition at the time the new state began |
| Flapping.OutageBegan | nautobot_maps/alerts.py:1066-1096 | a device has been down since the earliest time any build of its outage was told |
| Flapping.CameUpAgain | nautobot_maps/alerts.py:1192-1208 | it came up at Nautobot's edit when Nautobot had it down and the edit lies after that and not after now, else at the build |
| Flapping.RecentTwice | nautobot_maps/alerts.py:1106-1108 | forgetting old changes early loses nothing later |
| Flapping.StoredIsTrueExactly | nautobot_maps/alerts.py:1148-1189 | over any builds in time order, some of which may not see the device, each written at or after the time it observed: after every one what is stored stands for the device's whole history, exactly if no build that does not see it drops an expired row that is down, flapping or recently changed |
| Flapping.RowsAreExact | nautobot_maps/alerts.py:1111-1169 | then dropping steady rows, trimming changes and skipping unchanged writes never alters a result: each row is what the whole history gives: there is none for a device that is up, not flapping and without a transition of the last 30 minutes, else its changes are exactly those transitions |
| Flapping.SweptInTimeLosesNothing | nautobot_maps/repositories/board.py:621-627 | it holds while no build without the device comes later than the retention after the row's last write |
| Flapping.LossShows | nautobot_maps/alerts.py:1111-1145 | and when it does not hold there is something to see that a later build gets wrong |
| Flapping.LossShowsInRun | nautobot_maps/alerts.py:1111-1189 | so after the first build of a run that loses a row there is a next build whose row is not what the whole history gives |
| Flapping.LongOutageIsForgotten | nautobot_maps/alerts.py:1166-1189 | a run of three builds: a device goes down, over a week later one build misses it and its row is dropped, and the next finds an outage that has just begun |
| Flapping.FlappingExactly | nautobot_maps/alerts.py:1124-1135 | with nothing lost, flapping exactly when some build so far that saw the device had at least FLAP_CHANGES changes in its window and every such build since at least one |
| Flapping.FlappingBegan | nautobot_maps/alerts.py:1129-1133 | and it has been flapping since the first of those |
| Flapping.RowAfterWrite | nautobot_maps/alerts.py:1148-1189 | a device's row after a build's write: dropped, kept with its old time when it says the same, or new; unseen, dropped when written over a week ago |
| Flapping.DeviceStates.WriteDeviceStates | nautobot_maps/alerts.py:1172-1189 | the table after a build's upserts and deletes, row by row |
| Flapping.TableFollowsRun | nautobot_maps/alerts.py:1172-1189 | per device, seen by the build or not, the table then holds what a step of its run says |
| Flapping.SkippedExactlyWhenNothingChanges | nautobot_maps/alerts.py:1158-1169 | the write is skipped exactly when it would leave the table as it is, for rows worked out at any earlier times |
| Lifecycle.AlertTables.UpsertLifecycle | nautobot_maps/alerts.py:1226-1341 | one build's write for a site, through its loops over devices and over open incidents, as a function of the tables |
| Lifecycle.AlertTables.ResolveRecovered | nautobot_maps/alerts.py:969-1012 | the site's open incidents that are neither down nor frozen are resolved at when the device came up, else now |
| Lifecycle.AlertTables.Acknowledge | nautobot_maps/alerts.py:1018-1063 | each wanted device's open incident is flagged or cleared, with an event only where that changes it; an empty list means every open incident of the site, and a device without one leaves all as it was |
| Lifecycle.AcknowledgeAll | nautobot_maps/alerts.py:1018-1063 | with no devices given, every open incident of the site ends flagged or cleared |
| Lifecycle.AlertTables.MigrateOpenAlertKeys | nautobot_maps/db.py:942-975 | the loop with the kept set re-keys the first open incident of each device and closes the others |
| Lifecycle.DownIncidentAfterWrite | nautobot_maps/repositories/board.py:448-492 | the incident of a device found down began at the earliest that its row before and the build's down entries say, has the build's level and reason, and stays acknowledged if it was; a new one is not |
| Lifecycle.OtherIncidentAfterWrite | nautobot_maps/repositories/board.py:509-525 | every other incident ends when its device came up, if not before it began, else at the build's time, or stays as it is |
| Lifecycle.WriteTells | nautobot_maps/alerts.py:1226-1341 | a write tells of each incident that it opened, that its level or reason changed, or that it ended, at most one of these, and nothing else |
| Lifecycle.IncidentsStay | nautobot_maps/repositories/board.py:475 | over any run incidents are never removed, the start of one never moves later, and an ended one never changes |
| Lifecycle.OpenAfterWrite | nautobot_maps/alerts.py:1226-1341 | after any write the site's open incidents are exactly its down devices, the frozen ones already open, and those that began after the write would end them; other sites' are untouched |
| Lifecycle.OpenAreDownOrFrozenExactly | nautobot_maps/repositories/board.py:509-525 | they are exactly the down and the frozen if and only if no open incident of the site that is neither began after the time it would end at |
| Lifecycle.LaterIncidentStaysOpen | nautobot_maps/alerts.py:969-1012 | two builds that commit in the other order: the earlier one leaves open the incident of a device it finds up |
| Lifecycle.WriteKeepsOneOpenEach | nautobot_maps/alerts.py:1226-1341 | a write never leaves two open incidents for a site and device, whatever the times |
| Lifecycle.SkippedWriteChangesNothing | nautobot_maps/alerts.py:2040-2047 | with nothing down or open at the site, skipping the write equals making it |
| Lifecycle.WriteKeepsTold | nautobot_maps/alerts.py:1226-1341 | every incident's events stay: opened, updates with strictly alternating acknowledgements, at most one end |
| Lifecycle.AcknowledgeKeepsTold | nautobot_maps/alerts.py:1018-1063 | acknowledging keeps that order and changes nothing but flags |
| Lifecycle.OnlyWantedChange | nautobot_maps/alerts.py:1018-1063 | only open incidents of wanted devices are flagged or cleared |
| Lifecycle.AckIsAllOrNothing | nautobot_maps/alerts.py:1032-1036 | a wanted device without an open incident leaves everything as it was |
| Lifecycle.MigratedExactly | nautobot_maps/db.py:942-975 | of a device's open incidents the one that began first stays open under the new key, the others are closed, ended ones stay as they were |
| Lifecycle.MigrationLeavesOneOpenEach | nautobot_maps/db.py:942-975 | from any incidents it leaves one open per site and device, for those that had one |
| Lifecycle.RunsKeepIncidentsSound | nautobot_maps/db.py:383-385 | over any run of writes and acknowledgements, at any times, there is one open incident per site and device, and the events are in order |
| Lifecycle.TimelyRunsEndAll | nautobot_maps/alerts.py:1226-1341 | with times that do not go back, every write of the run leaves open exactly the down and the frozen |
| Notify.Outbox.EnqueueChange | nautobot_maps/notify.py:156-194 | which rows a change adds, one per channel, from the site's last queued row |
| Notify.KindExactly | nautobot_maps/notify.py:71-94 | when a change queues an alarm, and when a recovery, by its levels, the minimum and the last message |
| Notify.OneRowPerChannel | nautobot_maps/notify.py:156-194 | what is queued: a row for each channel, in their order, still to be sent |
| Notify.Outbox.DeleteOld | nautobot_maps/notify.py:443-446 | the rows that are over and older than 30 days are deleted, the others stay in order |
| Notify.UnprunedOneMore | nautobot_maps/notify.py:443-446 | of each row, exactly when it is deleted |
| Notify.AlarmIsLastExactly | nautobot_maps/alerts.py:1681-1704 | with a minimum that stays and messages deleted at any time, the last message queued for a site is an alarm exactly when it is at or above the minimum, or went into maintenance from there with nothing to say since, or nothing found to end |
| Notify.AlarmIsLastInAlarm | nautobot_maps/notify.py:71-85 | without maintenance: exactly while the site is in alarm |
| Notify.RecoversWithoutAlarmExactly | nautobot_maps/notify.py:174-185 | with a minimum that stays and messages deleted at any time, a recovery is queued without an alarm before it exactly when the site gets better below the minimum, not by or after unended maintenance, and the newest row left is an alarm |
| Notify.RecoveryRepeatsExactly | nautobot_maps/notify.py:174-185 | without maintenance: when a recovery repeats, exactly |
| Notify.RecoveriesDoNotRepeat | nautobot_maps/notify.py:174-185 | none does while the newest row in the table agrees with the last message queued |
| Notify.RecoveryCanRepeat | nautobot_maps/notify.py:443-446 | a run in which one does: OK, Medium, Low; the recovery is sent and deleted before the alarm is; OK |
| Notify.AlarmIsLeftExactly | nautobot_maps/notify.py:174-182 | however the minimum changes and whenever messages are deleted, a site at rank 0 without maintenance is left with an alarm as its last message exactly when that alarm was deleted before the drop to rank 0, which came from below the minimum |
| Notify.NoAlarmIsLeft | nautobot_maps/notify.py:88-94 | so it is not while no such alarm is deleted |
| Notify.DeletedAlarmIsLeft | nautobot_maps/notify.py:443-446 | for any site and channel, a run in which one is: OK, Medium at minimum Medium, a month, OK at minimum Critical |
| Notify.AlarmIsLeftByMaintenance | nautobot_maps/notify.py:71-85 | OK, Critical, maintenance, OK: the alarm stays the last message |
| Sender.Split | nautobot_maps/notify.py:468-473 | batches that give the due rows in order: singles up to the threshold, above it summaries of 25 |
| Sender.OutboxTable.SendChannel | nautobot_maps/notify.py:454-506 | one pass: its batches partition the due rows no other sender holds, and the table after it |
| Sender.PassMeaning | nautobot_maps/notify.py:480-505 | every due row ends with what became of its own batch, sent or one more attempt; no other row changes |
| Sender.DeliveryMeaning | nautobot_maps/notify.py:480-505 | taken: sent; else due again after 1, 2, 5, 10, 15, then 30 minutes, and given up at the tenth attempt |
| Sender.SentIsCounted | nautobot_maps/notify.py:480-506 | the count returned is the number of rows that became sent |
| Sender.BatchIsNew | nautobot_maps/notify.py:468-473 | no row is in two batches |
| SenderRuns.PassIsRun | nautobot_maps/notify.py:454-506 | a pass is a claim, its deliveries and a commit of the state machine |
| SenderRuns.StepKeepsInv | nautobot_maps/notify.py:456-462 | no two senders ever hold the same row, and every row's attempts are its failed deliveries, each at least its delay after the one before |
| SenderRuns.OverStaysOver | nautobot_maps/notify.py:456-462 | over any run a sent or failed row never changes and is never claimed again |
| SenderRuns.RunsAreSound | nautobot_maps/notify.py:45-47 | whatever crashes: sent only if the receiver took it, given up only after ten failed deliveries, the tenth at least 153 minutes after the first |
| BoardCache.StepKeepsInv | nautobot_maps/alerts.py:2502-2557 | a stored board's data is never older than its label, whatever step any actor takes |
| BoardCache.ServedBoardsAreFresh | nautobot_maps/alerts.py:2496-2557 | under any interleaving a served board is at least as new as every sync committed before its call read the version, if the call built it or both versions are known |
| BoardCache.RebuildsAreFresh | nautobot_maps/alerts.py:2525-2557 | a rebuild always builds its own board, with every sync committed before it began |
| BoardCache.ReadableRunsServeFresh | nautobot_maps/inventory.py:1028-1061 | with every snapshot read succeeding that holds of every answer |
| BoardCache.OneLockedBuild | nautobot_maps/alerts.py:2466-2488 | two builds at once only when one went on without the lock |
| BoardCache.UnlabelledBoardIsServedStale | nautobot_maps/alerts.py:2496-2499 | a board without a label that a sync overtook is served to a call that knows the version |
| BoardCache.StaleAnswerIsReachable | nautobot_maps/alerts.py:2496-2499 | and such a run exists |
| BoardCache.LabelledBoardIsServedStale | nautobot_maps/alerts.py:2496-2499 | and one in which a labelled board is served stale to a call that cannot read the version |
| BoardCache.StaleAnswerExactly | nautobot_maps/alerts.py:2502-2557 | in every reachable state a step gives a stale answer exactly when it serves a stored board older than the syncs its call must see, with no label or to a call without a version |
| BoardCache.RequestIsServedStaleExactly | nautobot_maps/alerts.py:2517-2531 | a request is answered with a stale board exactly when one is stored that is older than the data there is, and it has no label or the request cannot read the version |
| Observations.StatusTable.WriteDevices | nautobot_maps/inventory.py:1406-1451 | the upsert loop: each row only yields to a higher number |
| Observations.StatusTable.CommitSync | nautobot_maps/inventory.py:1726-1742 | a sync's transaction, refused when an empty list would drop a filled cache |
| Observations.StatusTable.PushRefresh | nautobot_maps/inventory.py:1478-1499 | a push replaces an existing row with a lower number by its answer, its observation number and its push number, else nothing |
| Observations.StatusTable.PendingPushes | nautobot_maps/inventory.py:1512-1515 | the push numbers the rows carry |
| Observations.StatusTable.AckPushes | nautobot_maps/inventory.py:1518-1524 | clears exactly the given push numbers |
| Observations.SyncLeavesListAndNewer | nautobot_maps/inventory.py:1726-1742 | after a sync the rows are exactly its list plus those that already held its number or a higher one, with their answers |
| Observations.CommittedSyncRows | nautobot_maps/inventory.py:1726-1742 | in the protocol: its list plus strictly newer rows |
| Observations.RowsHoldHighest | nautobot_maps/inventory.py:1406-1451 | from any table found, for one sync at a time and any number of pushes, each row holds the answer with the highest number brought for it |
| Observations.NumbersNeverGoDown | nautobot_maps/inventory.py:1406-1451 | while a row exists its number never goes down, and the same number means the same answer |
| Observations.PushKeepsRows | nautobot_maps/inventory.py:1478-1499 | a push never creates or revives a row, and touches one at most |
| PushHandshake.StepKeepsInv | nautobot_maps/inventory.py:1512-1524 | each step keeps every push marked, taken in by a build that began after it, or gone with its row |
| PushHandshake.NoPushIsLost | nautobot_maps/scheduler.py:219-250 | so in every reachable state, also when a process dies before it acknowledges |
| PushTable.RefreshMarks | nautobot_maps/inventory.py:1478-1499 | a stored refresh marks the table's row as a push of the handshake does, one that is not stored changes nothing |
| PushTable.SyncMarks | nautobot_maps/inventory.py:1726-1742 | a sync keeps the marks of the rows that stay, and new rows have none: its deletes and inserts in the handshake |
| PushTable.AckClearsMarks | nautobot_maps/inventory.py:1518-1524 | acknowledging clears the table's marks as the handshake does |
| PushTable.NoStoredPushIsLost | nautobot_maps/inventory.py:1478-1524 | so over any run of refreshes, syncs and rebuild steps on the table, a stored push's row carries its mark or a later one, or a completed build began after it, or a sync deleted the row |
| PushHandshake.RebuildAfterPush | nautobot_maps/scheduler.py:219-250 | the loop over pushes, webhook alerts and changes goes again only while something arrived, at most five times, and ends earlier only with nothing pending |
| PushHandshake.RoundLeavesArrivals | nautobot_maps/scheduler.py:235-245 | with new numbers and later times, a round leaves pending exactly what arrived in it |
| PushHandshake.RoundIsRun | nautobot_maps/scheduler.py:235-245 | a round with pushes and syncs during its build is a run of the steps, and clears exactly the marks read before it |
| PushedBoard.UpToDateExactly | nautobot_maps/alerts.py:2533-2557 | the stored board contains every acknowledged push all through a run exactly when no build is stored that began to read before a push since acknowledged, and no push is acknowledged that a board stored meanwhile lacks |
| PushedBoard.LockedBuildsStayUpToDate | nautobot_maps/alerts.py:2466-2488 | neither happens, under any interleaving and with crashes, while no build goes on without the lock |
| PushedBoard.AcknowledgedPushIsMissing | nautobot_maps/scheduler.py:219-250 | a run in which a rebuild goes on without the lock and acknowledges its push, and the build it overtook stores a board without it |
| MarkerHandshake.SafeRunsLoseNothing | nautobot_maps/scheduler.py:146-191 | with each stored time later than those rebuilt or being rebuilt, a change is pending or taken in |
| MarkerHandshake.RebuildClears | nautobot_maps/scheduler.py:146-191 | a rebuild with no request meanwhile leaves nothing pending |
| MarkerHandshake.UnsafeMarkerCanBeLost | nautobot_maps/scheduler.py:159-191 | for any other time there is a continuation that loses the change |
| MarkerHandshake.IncreasingTimesLoseNothing | nautobot_maps/webhooks.py:200-212 | strictly increasing times in commit order are enough |
| InventorySync.MaxLastUpdated | nautobot_maps/timeutil.py:29-37 | the running latest of the times that can be read |
| InventorySync.InventoryTables.SyncNautobot | nautobot_maps/inventory.py:1562-1646 | one sync: what is fetched, written or refused, and the new watermark, which a forced sync forgets first |
| InventorySync.RefusedExactly | nautobot_maps/inventory.py:1562-1646 | a sync is refused exactly when it asks for everything, gets nothing and something is cached; the rows then stay |
| InventorySync.WatermarkExactly | nautobot_maps/timeutil.py:40-55 | the watermark after a sync: just after the latest time fetched, if later than before, and after a full one at least its start |
| InventorySync.IncrementalExactly | nautobot_maps/inventory.py:1562-1646 | an incremental sync makes the cache equal to upstream exactly when all it does not hold is stamped at or after the watermark and it holds nothing gone |
| InventorySync.StampBelowWatermarkIsMissed | nautobot_maps/timeutil.py:40-44 | an object changed below the watermark stays stale, also for the next incremental sync |
| InventorySync.MissedUntilFullSync | nautobot_maps/timeutil.py:40-44 | and for however many, until everything is fetched or the object changes again |
| InventorySync.EarlyStampIsMissed | nautobot_maps/timeutil.py:40-55 | which happens to a change stamped before a full sync's start that came after it |
| InventorySync.SyncsEqualFull | nautobot_maps/inventory.py:1562-1702 | with increasing times any mix of syncs, changes and failures, also of forced syncs, leaves the cached rows equal to upstream after each sync |

## Left out

- Availability.IncidentStream: a row's names, paths and times are left out, and its figures are seconds, of which the export shows rounded minutes.
- Availability.ExportShows: sums the seconds behind a row's rounded minutes.
- Availability.ShownSecondsAddUp: compares seconds, of which the export shows rounded minutes; with overlap it gives bounds only.
- Maintenance.HistoryIsWhatTheReportLeavesOut: exact time, of which the history shows rounded minutes.
- Maintenance.WindowTable.Create: texts and the limits on how many sites and devices are not checked; ids are given once each.
- Severity.WorstOfDown: the sources listed beside the names are left out, they only word the reason.
- RollUp.RollUpToSiteLocations: the names of a row's ancestors are left out.
- Flapping.StoredIsTrueExactly: builds come in the order of their times.
- Lifecycle.AlertTables.UpsertLifecycle: transactions are atomic steps, so the branch for an incident opened meanwhile by another build has no place.
- Notify.AlarmIsLastExactly: silent changes by an edit, a tenant filter or a device's maintenance are excluded, because they suppress messages by intent.
- SenderRuns.RunsAreSound: the 153 minutes are between deliveries whose failure was saved; one rolled back by a crash leaves no time behind.
- PushHandshake.RebuildAfterPush: what arrives during each build is given as a whole; the order of its steps is that of the state machines.
- PushedBoard.LockedBuildsStayUpToDate: a build always stores its board; one without rows before the first sync is not stored, which leaves the older one.
- Times are exact integers of microseconds (seconds in the outbox); floating-point rounding of differences in seconds is not modelled.
- The report's rows beyond the downtime of a site: outage counts, longest outage, averages and percentages.
- SQL text and its order of rows: a query with an order gives a list in that order, and a sort is an insertion sort with the same result.
- Fingerprints and keys made by hashing are told apart as their contents are; ids are given stripped, keys normalized and times readable.
- FLAP_CHANGES at 0, which turns flap detection off: no row is ever flapping then.
- Pruning of alert events; that of the level log and of the outbox is modelled.
- Two snapshot versions are equal exactly when the same syncs were committed: each sync has its own completion time. A board is built from both sources; one that is not configured never changes.
- Objects deleted upstream between syncs: a full sync drops them, an incremental one does not see it.
- Builds without a database, settings parsing, wording of reasons and messages, CSV and JSON.
- HTTP clients, paging, routes, the map, coordinates, sign-in and tokens, the user interface.
