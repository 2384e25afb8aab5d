# Verified models of the security dashboard's engines

A Dafny model of the parts of the repository that keep state or build an index, with proofs of what
each promises over every input, every run or every interleaving. `dafny verify dfyconfig.toml` checks
the whole project.

| file | what it models |
|---|---|
| `Prelude`, `Sorting`, `JsMaps`, `Text`, `Versions` | shared vocabulary: first occurrence per key, stable sort, a JavaScript `Map` with its insertion order, string splitting and ordering, zero-padded version tuples |
| `Vulnerabilities` | CVE entries and the merge of several sources |
| `SofaIndex`, `SofaCorrect` | the Apple per-version index, its refresh and nearest-older lookup, against a scan of the release history |
| `AndroidIndex`, `PatchFilter` | the Android per-major-version index, and patch-level filtering of Android and Apple rows |
| `InstalledApps`, `Rotation` | the two-slot app inventory and the oldest-first refresher |
| `ReportedApps` | the fleet-wide apps overview |
| `CaseAutoRun` | auto-run rules and their sliding hourly cap |
| `TokenBucket`, `AppliveryClient` | the outbound token bucket and the retrying client |
| `RateLimiter` | the inbound fixed-window limiter |
| `WorkerPool` | workers sharing one cursor across await points |
| `Cases`, `CaseStore`, `CaseRuns`, `CaseHistory` | the case lifecycle, SLA epochs and breach reports |
| `OsUpdates` | the Windows update catalog |
| `AuditCsv` | the audit-log CSV export, read back per section 2 of RFC 4180 |
| `IdleTimer` | the idle-session guard of one browser tab |

State that the source updates in place is a class whose methods are proved against functions of the old
state; the properties of whole runs are lemmas about those functions. What the small functions
underneath compute (parsing, ranking, counting, rates, due times) is fixed by laws that do not mention
them, written with plain numbers. Clocks, replies of remote
services, listing orders of the database and the order in which awaited calls settle are inputs, left
arbitrary except where a lemma says otherwise.

## What the proofs found

Where the code does not do what its own comments or its callers expect, the model follows the code and
the exact condition is proved.

- The auto-run hourly cap is counted on a history cut to 200 entries, so a rule's cap holds on every run
  exactly when it is at most 200 or the rule is disabled (`CapWorksIffHistorySuffices`).
- The comment at `backend/src/modules/catalogs/vulnSources.ts:77-79` says the source passed last wins
  ties; the code keeps the first entry that has a score (`BestIsFirst`, `LaterEntryWins`). Of two
  sources scoring one CVE 5.0 and 9.8, passed in that order, the 5.0 stays (`LastSourceLosesTie`).
- The schema comment at `backend/prisma/schema.prisma:598-599` says assigning or investigating acknowledges a case; an
  update that also reopens the case discards the acknowledgement (`TakeUpAcknowledges`), so a closed
  case sent back to investigating stays unacknowledged (`ReopenedIntoInvestigating`).
- The refresher's wait is bounded exactly when fewer devices are stuck than a tick may fetch
  (`WaitBoundedIff`). With as many, everybody fetched after them waits for ever
  (`StuckDevicesStarve`), unless refreshed by hand. Devices on platforms without an applications
  endpoint are stuck from the start: they keep the oldest stamp there is.
- The idle guard does not keep the configured timeout across a cold reload. Until the settings load it
  checks against the 60-minute default, so a timeout is never cut short by more than five seconds
  exactly when it is at most the default (`NeverEarlyIffWithinDefault`); the settings allow eight hours
  (`backend/src/modules/analytics/dashboardState.controller.ts:62-68`), and then a reload 61 minutes
  after the last activity signs the user out 419 minutes early (`ReloadCutsEightHours`). The reload
  decides as the configured timeout would except for a user idle for at least the smaller of the two
  and less than the larger (`ReloadUsesDefault`).
- The idle guard needs a stored timestamp: without one its own minute checks keep extending the session
  (`IdleEndsIffStored`).
- The fixed window admits at most 2 * limit - 1 requests in any minute, and that is reached
  (`MinuteBound`, `MinuteBoundIsTight`).
- The Apple index answers by version only where release dates and versions agree within the track; on
  tracks whose releases each fix something of their own this is also necessary
  (`ScanNeedsOrdersAgree`). With version 1 released after version 2, a device on version 2 is told of
  the CVE that version 1 fixes (`LateOldReleaseMisleads`). Where releases read as one version, the row
  lists besides the scan what the later ones of the tie fix (`LookupWithTies`): with versions "1" and
  "1.0", a device on "1" is told of what "1.0" fixes (`TiedReleaseIsListed`).
- Filtering a row by the patch level gives the direct scan at that level exactly when no CVE fixed up to
  the level is fixed again after it (`AppleDeviceIsPlainScan`): each entry names its earliest fix only.
  With versions 2 and 3 fixing one CVE, a device indexed under version 1 and patched to 2 is not told
  of it (`FixedTwiceIsHidden`).

Three boundaries that no caller reaches are also settled: a worker pool with a limit below one resolves
at once with every result missing (`NoWorkersNoResults`; every caller passes a positive constant), a
rate limit of zero or less still admits one request per window (`MinuteBound`; the limits are 10, 120
and 300), and two platforms could share an overview key exactly when one, followed by a colon, starts the other followed
by a colon (`CollidesIffColonPrefix`; no platform name has one). A waiter on the token bucket is served
exactly when the bucket holds enough already, or it refills and its capacity is large enough
(`WaiterServed`, `WaiterStarves`).

## Model

| member | source | states |
|---|---|---|
| `Sorting.SortByStable` | backend/src/modules/catalogs/sofaService.ts:173-175 | the sort keeps, for every key, the same elements in the same order |
| `Versions.CmpTuples` | backend/src/modules/catalogs/sofaService.ts:158-165 | the loop computes the zero-padded comparison |
| `Versions.CmpMeans` | backend/src/modules/catalogs/sofaService.ts:158-165 | the sign is decided by the first position where the padded tuples differ |
| `Versions.CmpTransitive` | backend/src/modules/catalogs/vulnSources.ts:144-151 | the comparison is a transitive order, strict if one step is |
| `Versions.CmpFlips` | backend/src/modules/catalogs/vulnSources.ts:144-151 | swapping the arguments negates the result |
| `Versions.ParseInvertsDecimal` | backend/src/modules/catalogs/vulnSources.ts:137-142 | the component parser inverts decimal printing, whatever non-digit follows |
| `Versions.VersionReads` | backend/src/modules/catalogs/vulnSources.ts:137-142 | a version's tuple is exactly the numbers it is written with, in order, for any of the three separators |
| `Versions.FirstDifferenceDecides` | backend/src/modules/catalogs/vulnSources.ts:144-151 | versions are ordered by the first number in which they differ |
| `Versions.MissingIsZero` | backend/src/modules/catalogs/vulnSources.ts:144-151 | missing components count as zeros |
| `Text.LessMeans` | backend/src/modules/catalogs/vulnSources.ts:207-209 | text order, used on dates, is decided by the first differing character; a proper prefix comes first |
| `Vulnerabilities.MergeRawVulnResults` | backend/src/modules/catalogs/vulnSources.ts:81-98 | the loops produce each non-empty id of the mapped sources once, in first-seen order, with its best entry |
| `Vulnerabilities.BestIsFirst` | backend/src/modules/catalogs/vulnSources.ts:90-94 | the entry kept for an id is the first one with a score, or the first one when none has a score |
| `Vulnerabilities.IdsInFirstSeenOrder` | backend/src/modules/catalogs/vulnSources.ts:82-97 | the ids listed are those of the entries that first name one, in input order, and no other |
| `Vulnerabilities.MergeAssociative` | backend/src/modules/catalogs/vulnSources.ts:81-98 | any group of sources may be merged first and passed as one, with the same list in the same order |
| `Vulnerabilities.MergeIdempotent` | backend/src/modules/catalogs/vulnSources.ts:81-98 | merging a merge, or passing the sources twice, changes nothing |
| `Vulnerabilities.MergedIsFaithful` | backend/src/modules/catalogs/vulnSources.ts:81-98 | a merged list has the ids and the best entries of the list it came from |
| `Vulnerabilities.LaterEntryWins` | backend/src/modules/catalogs/vulnSources.ts:71-95 | on a collision the later entry wins exactly when it alone has a score |
| `Vulnerabilities.LastSourceLosesTie` | backend/src/modules/catalogs/vulnSources.ts:77-94 | two sources score one CVE: the one passed last does not win |
| `Vulnerabilities.IdsIgnoreCase` | backend/src/modules/catalogs/vulnSources.ts:89-90 | two entries are one CVE exactly when their ids, under either name, differ at most in case |
| `Text.UpperIsUpper` | backend/src/modules/catalogs/vulnSources.ts:89 | an upper-cased id differs in case only and has no small letter |
| `Vulnerabilities.MergeListsExactly` | backend/src/modules/catalogs/vulnSources.ts:81-98 | the merge lists an id exactly when some mapped source does |
| `Vulnerabilities.SeverityReads` | backend/src/modules/catalogs/osvAndroidService.ts:120-127 | feed severities are read in any case, blanks trimmed, Moderate as medium |
| `SofaIndex.CollectLater` | backend/src/modules/catalogs/sofaService.ts:178-201 | the nested loops give the first fix of every CVE that a later release fixes |
| `SofaIndex.FirstPerVersion` | backend/src/modules/catalogs/sofaService.ts:169-172 | one release per version, the first listed |
| `SofaIndex.ChronologicalFacts` | backend/src/modules/catalogs/sofaService.ts:169-175 | the releases indexed have distinct non-empty versions, dates, come from the feed, and are in date order |
| `SofaIndex.FirstDatedIsIndexed` | backend/src/modules/catalogs/sofaService.ts:169-175 | no dated release is missing: the first listed for a version is indexed if it has a date |
| `SofaIndex.LatestIsIndexed` | backend/src/modules/catalogs/sofaService.ts:168-172 | a dated latest release is indexed |
| `SofaIndex.HistoryIsIndexed` | backend/src/modules/catalogs/sofaService.ts:168-172 | so is each dated release of the history that first carries its version |
| `SofaIndex.FixesMeans` | backend/src/modules/catalogs/sofaService.ts:182-198 | a release fixes exactly the CVEs it lists, by upper-cased id |
| `SofaIndex.EntrySays` | backend/src/modules/catalogs/sofaService.ts:184-197 | an entry's id, fix, severity and exploited flag come from its own release |
| `SofaIndex.SofaCache.Refresh` | backend/src/modules/catalogs/sofaService.ts:230-259 | whatever was cached, a refresh leaves exactly the index of the two feeds |
| `SofaIndex.SofaCache.GetSofaCacheRow` | backend/src/modules/catalogs/sofaService.ts:297-323 | exact row, else a newest row of the platform that is not newer, else none |
| `SofaCorrect.OutstandingTelescopes` | backend/src/modules/catalogs/sofaService.ts:177-201 | outstanding sets telescope, shrink as versions advance, and list no id twice |
| `SofaCorrect.FixedInIsEarliest` | backend/src/modules/catalogs/sofaService.ts:184-197 | `fixed_in` names the earliest later release that fixes the CVE |
| `SofaCorrect.IndexRowOrigin` | backend/src/modules/catalogs/sofaService.ts:233-250 | every cached row is a release of a track of its platform, with that release's list |
| `SofaCorrect.IndexRowPresent` | backend/src/modules/catalogs/sofaService.ts:233-250 | every indexed release has a row |
| `SofaCorrect.LookupIsScan` | backend/src/modules/catalogs/sofaService.ts:297-323 | for ordered, non-interleaving tracks, the row a device finds lists exactly the CVEs fixed by later releases of its own track |
| `SofaCorrect.ScanMeans` | backend/src/modules/catalogs/sofaService.ts:178-201 | the scan is the upper-cased ids listed by releases whose version is above the device's |
| `SofaCorrect.LookupWithTies` | backend/src/modules/catalogs/sofaService.ts:297-323 | where releases read as the same version, the row lists the scan plus what later releases of the tie fix |
| `SofaCorrect.TiedReleaseIsListed` | backend/src/modules/catalogs/sofaService.ts:158-203 | a concrete tied track: the row lists a CVE that no version newer than the device fixes |
| `SofaCorrect.ScanNeedsOrdersAgree` | backend/src/modules/catalogs/sofaService.ts:168-203 | on tracks whose releases each fix something of their own, rows are version scans exactly when date and version order agree |
| `SofaCorrect.LateOldReleaseMisleads` | backend/src/modules/catalogs/sofaService.ts:168-203 | a concrete track where they disagree: the row lists a CVE that no newer version fixes |
| `SofaCorrect.DatesRespectVersions` | backend/src/modules/catalogs/sofaService.ts:173-175 | pairwise agreement of dates and versions gives the order the lookup needs |
| `AndroidIndex.IndexByMajorVersion` | backend/src/modules/catalogs/osvAndroidService.ts:140-172 | the loops keep, per major version and CVE, the entry the replacement rule selects |
| `AndroidIndex.CveOfIsFirst` | backend/src/modules/catalogs/osvAndroidService.ts:143-144 | a bulletin is about its first CVE-shaped alias, upper-cased |
| `AndroidIndex.RecordsAreNotes` | backend/src/modules/catalogs/osvAndroidService.ts:140-172 | what is indexed is exactly what the affected entries of the bulletins say, patch level and severity included |
| `AndroidIndex.OsvAndroidCache.Refresh` | backend/src/modules/catalogs/osvAndroidService.ts:208-235 | a refresh leaves exactly one row per indexed major version |
| `AndroidIndex.OsvAndroidCache.GetOsvAndroidCacheRow` | backend/src/modules/catalogs/osvAndroidService.ts:286-294 | exact key, else the key of the version's major part |
| `PatchFilter.KeptIsLatest` | backend/src/modules/catalogs/osvAndroidService.ts:161-167 | the kept entry comes from a record and carries the latest patch level of all records of its pair |
| `PatchFilter.AndroidFilterIsScan` | backend/src/modules/catalogs/vulnSources.ts:201-217 | the filtered Android row lists a CVE exactly when some record fixes it after the device's level or none is dated |
| `PatchFilter.RecordsScanIsDumpScan` | backend/src/modules/catalogs/osvAndroidService.ts:140-172 | the scan, on the bulletins: reported with a patch level after the device's, or reported and never with one |
| `PatchFilter.LeadingVersionIsLongest` | backend/src/modules/catalogs/vulnSources.ts:154-160 | a patch level is read as its longest leading run of dotted numbers |
| `PatchFilter.MinorVersionFindsMajor` | backend/src/modules/catalogs/osvAndroidService.ts:286-294 | a device with a minor version finds the row of its major version, or nothing |
| `PatchFilter.AndroidDeviceIsScan` | backend/src/modules/catalogs/osvAndroidService.ts:140-172 | refresh, lookup by the version a device reports and patch filter together are the naive scan of the dump |
| `PatchFilter.AndroidMinorIsScan` | backend/src/modules/catalogs/osvAndroidService.ts:286-294 | a device reporting a minor version is shown the scan for its major version |
| `PatchFilter.AppleFilterRemovesFixed` | backend/src/modules/catalogs/vulnSources.ts:201-217 | filtering an older release's row removes exactly the CVEs fixed up to the device's version |
| `PatchFilter.AppleDeviceIsScan` | backend/src/modules/catalogs/vulnSources.ts:201-217 | lookup and patch filter together leave what releases newer than the patch level fix, less what was fixed in between |
| `PatchFilter.AppleDeviceIsPlainScan` | backend/src/modules/catalogs/vulnSources.ts:201-217 | that is the direct scan at the patch level exactly when no CVE is fixed on both sides of it |
| `PatchFilter.FixedTwiceIsHidden` | backend/src/modules/catalogs/sofaService.ts:178-201 | a concrete device from which the filter hides a CVE that a newer release fixes again |
| `InstalledApps.SlotsAreIndependent` | backend/src/modules/appLists/installedApps.service.ts:95-135 | supporting fact: writing one slot of one device leaves the other slot and every other device unchanged, also across older row shapes |
| `InstalledApps.StampAfterFetch` | backend/src/modules/appLists/installedApps.service.ts:300-330 | supporting fact: a failure keeps the timestamp, a first failure sets it once, a success moves it |
| `InstalledApps.HourStaysNearBudget` | backend/src/modules/appLists/installedApps.service.ts:363-366 | 120 per-tick budgets are within 60 of the clamped hourly budget |
| `InstalledApps.BudgetIsClamped` | backend/src/modules/appLists/installedApps.service.ts:363-366 | the configured whole number kept between 200 and 4000, 2000 by default |
| `InstalledApps.FetchKeepsApps` | backend/src/modules/appLists/installedApps.service.ts:279-320 | a success stores what was read, a failure keeps the apps and notes the error |
| `InstalledApps.OlderRowsRead` | backend/src/modules/appLists/installedApps.service.ts:95-107 | rows of the older flat shape read as the one slot of their source |
| `Rotation.Refresher.Tick` | backend/src/modules/appLists/installedAppsJobs.ts:68-95 | one tick filters, ranks and fetches as specified, spending at most the per-tick budget |
| `Rotation.Refresher.Hour` | backend/src/modules/appLists/installedAppsJobs.ts:69-70 | 120 ticks, each with its own targets, reports, manual refreshes and replies, spend at most the clamped budget plus 60 |
| `Rotation.Refresher.RefreshNow` | backend/src/modules/appLists/installedApps.service.ts:353-357 | supporting fact: an administrator's refresh of a device stores its fetch and leaves the budget alone |
| `Rotation.Refresher.ReportApps` | backend/src/modules/appLists/installedApps.service.ts:120-135 | supporting fact: a self-report writes its own slot and spends nothing |
| `Rotation.FetchAllStamps` | backend/src/modules/appLists/installedApps.service.ts:337-351 | each batch member's row depends on its own fetch alone |
| `Rotation.PassedOverGainsGround` | backend/src/modules/appLists/installedAppsJobs.ts:87-92 | a tick that passes a device over shortens the queue ahead of it by the budget less the stuck devices |
| `Rotation.RotationBound` | backend/src/modules/appLists/installedAppsJobs.ts:69-95 | every healthy candidate is fetched within ceil(healthy / (budget - stuck)) consecutive ticks, whatever is reported or refreshed by hand between them |
| `Rotation.CandidateExactly` | backend/src/modules/appLists/installedAppsJobs.ts:81-86 | a target is a candidate exactly when its agent's last report is missing or more than 150 minutes old |
| `Rotation.FreshIsPassedOver` | backend/src/modules/appLists/installedAppsJobs.ts:81-86 | until then no tick fetches it |
| `Rotation.SilentDeviceIsServed` | backend/src/modules/appLists/installedAppsJobs.ts:69-95 | the rotation bound for every healthy device in scope whose agent has gone silent, candidacy derived |
| `Rotation.StuckDevicesStarve` | backend/src/modules/appLists/installedAppsJobs.ts:87-92 | as many devices as the budget that start older and cannot be fetched keep another device waiting on every run that lists them |
| `Rotation.WaitBoundedIff` | backend/src/modules/appLists/installedAppsJobs.ts:69-95 | the wait is bounded over all stores and runs exactly when fewer devices are stuck than the budget |
| `ReportedApps.GetReportedAppsOverview` | backend/src/modules/appLists/installedApps.service.ts:537-614 | the loops build one summary per key, count its devices, and order the overview |
| `ReportedApps.CountsAreCardinalities` | backend/src/modules/appLists/installedApps.service.ts:621-625 | the three counts are the numbers of devices reporting the app, with a pending update, and enforced by policy |
| `ReportedApps.DataIsCounted` | backend/src/modules/appLists/installedApps.service.ts:544-548 | `devicesWithData` is the number of devices with something in either slot |
| `ReportedApps.OverviewIsOrdered` | backend/src/modules/appLists/installedApps.service.ts:617-626 | every app once, those on most devices first and then by name; devices by name |
| `ReportedApps.LastRefreshIsNewest` | backend/src/modules/appLists/installedApps.service.ts:557-559 | the newest timestamp of any slot |
| `ReportedApps.OneRowPerSeer` | backend/src/modules/appLists/installedApps.service.ts:571-613 | each app has exactly one row per device that reports it, built from all that device's contributions |
| `ReportedApps.RowSays` | backend/src/modules/appLists/installedApps.service.ts:588-613 | a row has the version and sync time of the first of its freshest contributions, and each flag exactly when one of them does |
| `ReportedApps.ContributionsAre` | backend/src/modules/appLists/installedApps.service.ts:556-569 | a device contributes exactly the apps of its timestamped slots |
| `ReportedApps.ContributionsInOrder` | backend/src/modules/appLists/installedApps.service.ts:556-569 | the agent's report first, so it wins ties |
| `ReportedApps.SameAppIff` | backend/src/modules/appLists/installedApps.service.ts:561 | contributions are one app exactly when platform and identifier agree |
| `ReportedApps.SummaryIsOfItsApp` | backend/src/modules/appLists/installedApps.service.ts:571-577 | a summary's platform and identifier are those of all its contributions |
| `ReportedApps.VersionsShownIffTheyDiffer` | backend/src/modules/appLists/installedApps.service.ts:591-595 | versions per source are shown exactly when two contributions disagree |
| `ReportedApps.SeersMembers` | backend/src/modules/appLists/installedApps.service.ts:556-569 | the devices with a row are exactly those with a timestamped contribution to the app |
| `ReportedApps.SeersDistinct` | backend/src/modules/appLists/installedApps.service.ts:523-535 | no device has two rows for one app |
| `ReportedApps.PrimaryIsFreshest` | backend/src/modules/appLists/installedApps.service.ts:588-589 | the headline comes from the first among the freshest contributions |
| `ReportedApps.UnionsOfContributions` | backend/src/modules/appLists/installedApps.service.ts:578-583 | versions and sources are exactly the unions over all contributions |
| `ReportedApps.ShownName` | backend/src/modules/appLists/installedApps.service.ts:578-579 | the name shown is the first given, over all devices, that is neither empty nor the identifier |
| `ReportedApps.BySourceIsLast` | backend/src/modules/appLists/installedApps.service.ts:591-595 | a diverging version is, for each source, the last non-empty one it reports |
| `ReportedApps.ServerErrorIsFirst` | backend/src/modules/appLists/installedApps.service.ts:590-606 | the error shown is that of the first server-fetch contribution |
| `ReportedApps.DetailIsFirst` | backend/src/modules/appLists/installedApps.service.ts:607-611 | each Windows-only detail is the first non-empty one reported |
| `ReportedApps.NothingLostOrRepeated` | backend/src/modules/appLists/installedApps.service.ts:556-569 | grouping neither loses nor repeats a contribution |
| `ReportedApps.CollidesIffColonPrefix` | backend/src/modules/appLists/installedApps.service.ts:561 | two platforms can share a key exactly when one followed by a colon starts the other followed by a colon |
| `CaseAutoRun.RuleStore.TryCaseAutorun` | backend/src/modules/cases/caseAutoRun.service.ts:104-159 | the first matching rule fires or nothing does; only its history changes |
| `CaseAutoRun.SeveritiesAscend` | backend/src/modules/cases/caseAutoRun.service.ts:109-114 | how severities rank, and what unknown ones count as |
| `CaseAutoRun.OneSharedTechniqueSuffices` | backend/src/modules/cases/caseAutoRun.service.ts:110-116 | one shared technique is enough, none asked for is too |
| `CaseAutoRun.FiresExactly` | backend/src/modules/cases/caseAutoRun.service.ts:105-149 | a rule fires exactly under these conditions, counted over the last 3,600,000 ms against its cap or 10 |
| `CaseAutoRun.RuleStore.UpdateRule` | backend/src/modules/cases/caseAutoRun.service.ts:55-68 | an edit keeps the rule's firing history |
| `CaseAutoRun.EditKeepsHistory` | backend/src/modules/cases/caseAutoRun.service.ts:55-75 | only the edited rule changes, and never its id or history |
| `CaseAutoRun.FiringStaysFaithful` | backend/src/modules/cases/caseAutoRun.service.ts:122-149 | with a cap of at most 200, cutting the history loses nothing a later count needs |
| `CaseAutoRun.HourlyCap` | backend/src/modules/cases/caseAutoRun.service.ts:122-149 | on every run, no closed hour holds more firings of a rule than the largest cap it had, up to 200 |
| `CaseAutoRun.CapWorksIffHistorySuffices` | backend/src/modules/cases/caseAutoRun.service.ts:128-149 | a rule's cap holds on every run exactly when it is at most 200 or the rule is disabled |
| `TokenBuckets.TokenBucket.Consume` | backend/src/utils/tokenBucket.ts:19-26 | refills, then takes the tokens exactly if they are there |
| `TokenBuckets.TokenBucket.WaitForToken` | backend/src/utils/tokenBucket.ts:29-33 | polls until the first grant |
| `TokenBuckets.TokensStayInRange` | backend/src/utils/tokenBucket.ts:35-40 | tokens stay between zero and the capacity |
| `TokenBuckets.WindowBound` | backend/src/utils/tokenBucket.ts:19-40 | in any stretch of any run, attempts are at most burst plus rate times length |
| `TokenBuckets.RatePromise` | backend/src/utils/tokenBucket.ts:19-40 | 1000 times the attempts of any stretch of milliseconds are at most 1000 times the burst plus rate times length |
| `TokenBuckets.GrantedExactly` | backend/src/utils/tokenBucket.ts:19-40 | a request is granted exactly when capacity and supply reach it, and leaves the rest |
| `TokenBuckets.FirstToken` | backend/src/utils/tokenBucket.ts:35-40 | an empty bucket grants its first token exactly when rate times elapsed milliseconds reaches 1000 |
| `TokenBuckets.WaiterServed` | backend/src/utils/tokenBucket.ts:29-33 | a lone waiter is served within finitely many polls when the bucket can hold enough |
| `TokenBuckets.WaiterStarves` | backend/src/utils/tokenBucket.ts:29-33 | otherwise no schedule of polls serves it |
| `AppliveryClients.AppliveryClient.Request` | backend/src/services/appliveryClient.ts:57-69 | at most retries + 1 attempts, one token each even if it throws; a 429 comes back only when the retries are spent |
| `AppliveryClients.HourlyRate` | backend/src/services/appliveryClient.ts:38-40 | attempts of any stretch stay within the configured burst and hourly rate |
| `RateLimiters.Limiter.Handle` | backend/src/middleware/rateLimiter.middleware.ts:23-41 | one client's window decides, other clients are untouched |
| `RateLimiters.Limiter.HandleAll` | backend/src/middleware/rateLimiter.middleware.ts:20-42 | each client is served as if alone, and within the minute bound from its first request |
| `RateLimiters.MinuteBound` | backend/src/middleware/rateLimiter.middleware.ts:28-40 | any half-open minute admits at most twice the limit less one |
| `RateLimiters.MinuteBoundIsTight` | backend/src/middleware/rateLimiter.middleware.ts:28-40 | that many can be admitted |
| `RateLimiters.RefusalIsHonest` | backend/src/middleware/rateLimiter.middleware.ts:33-37 | a refusal follows a full window, announces 1 to 60 seconds, and waiting that long suffices |
| `RateLimiters.CountIsAdmissions` | backend/src/middleware/rateLimiter.middleware.ts:28-40 | a window counts its admissions |
| `WorkerPool.MapWithConcurrency` | backend/src/modules/catalogs/binaryIntegrityService.ts:95-106 | under any scheduling, and for any limit, it rejects exactly if some call throws, else returns every item's own result; without a worker it does nothing |
| `WorkerPool.StepKeepsInv` | backend/src/modules/catalogs/binaryIntegrityService.ts:98-103 | every settling call keeps each claimed item accounted for and brings the pool closer to done |
| `WorkerPool.RunIsSafe` | backend/src/modules/appLists/installedApps.service.ts:337-351 | in every interleaving at most `limit` calls are in flight and each item is handed over at most once, in order |
| `WorkerPool.Completion` | backend/src/modules/catalogs/binaryIntegrityService.ts:104-105 | once nothing is in flight and nothing failed, every item was called once and every result is in place |
| `WorkerPool.NoWorkersNoResults` | backend/src/modules/catalogs/binaryIntegrityService.ts:98 | the results arrive exactly when the limit allows a worker or there is nothing to do |
| `Cases.ReviseCase` | backend/src/modules/cases/cases.service.ts:300-358 | the field-by-field code computes the declared row and notice |
| `Cases.UpdateSetsWhatItNames` | backend/src/modules/cases/cases.service.ts:300-358 | an accepted update sets what it names and keeps the rest |
| `Cases.RejectedExactly` | backend/src/modules/cases/cases.service.ts:309-336 | rejected exactly for an unknown status or a new unknown severity |
| `Cases.AcknowledgedExactly` | backend/src/modules/cases/cases.service.ts:317-355 | when an update acknowledges, keeps or discards |
| `Cases.NoticesCrossings` | backend/src/modules/cases/cases.service.ts:337-358 | closed and reopened are announced exactly when the status crosses |
| `Cases.TakeUpAcknowledges` | backend/src/modules/cases/cases.service.ts:317-355 | supporting fact: assigning or investigating leaves the case acknowledged exactly when the update does not reopen it |
| `Cases.ReopenedIntoInvestigating` | backend/src/modules/cases/cases.service.ts:342-353 | supporting fact: a closed case sent to investigating is unacknowledged and stays so |
| `Cases.Backfilled` | backend/src/modules/cases/cases.service.ts:76-82 | stored thresholds win, missing severities get their defaults |
| `Cases.DefaultMinutes` | backend/src/modules/cases/cases.service.ts:38-43 | the default minutes of the four severities |
| `Cases.DueTimes` | backend/src/modules/cases/cases.service.ts:53-74 | due times and breaches in milliseconds from the start of the clock |
| `Cases.FirstViolationRow` | backend/src/modules/cases/cases.service.ts:604-617 | the row a first violation inserts belongs to policy and device and takes its fields from the policy |
| `Cases.RecurrenceRow` | backend/src/modules/cases/cases.service.ts:587-599 | the row a recurring violation leaves |
| `CaseStores.CaseStore.CreateCase` | backend/src/modules/cases/cases.service.ts:250-267 | a known severity opens an unacknowledged case, others are rejected |
| `CaseStores.CaseStore.UpdateCase` | backend/src/modules/cases/cases.service.ts:300-366 | status code, notice and new table of an update |
| `CaseStores.CaseStore.BulkUpdateCases` | backend/src/modules/cases/cases.service.ts:490-507 | each id is updated or reported, and a failing id stops no other |
| `CaseStores.CaseStore.UpsertCaseForViolation` | backend/src/modules/cases/cases.service.ts:567-622 | links to an open case, else reopens the latest closed one, else opens a new one |
| `CaseHistory.ViolationHasItsCase` | backend/src/modules/cases/cases.service.ts:574-627 | the violation ends up on an open case of its policy and device, an old one whenever there is one |
| `CaseHistory.OneCaseForThePair` | backend/src/modules/cases/cases.service.ts:567-627 | over every run, all violations of one policy on one device are owned by one and the same case of that pair |
| `CaseHistory.LaterViolationAddsNoCase` | backend/src/modules/cases/cases.service.ts:574-600 | once a violation was raised for a pair, no later one adds a case |
| `CaseHistory.ResolvesOrTouches` | backend/src/modules/cases/cases.service.ts:635-643 | a recovery or finished ticket resolves the case, or only touches it |
| `CaseStores.CaseStore.MarkCaseRecovered` | backend/src/modules/cases/cases.service.ts:625-643 | acts on an open case holding the violation, if there is one |
| `CaseStores.CaseStore.SyncCaseTicketStatus` | backend/src/modules/cases/cases.service.ts:452-488 | resolves an open case exactly when its ticket is newly done and its integration opts in |
| `CaseStores.CaseStore.RunTicketStatusSyncTick` | backend/src/modules/cases/caseJobs.ts:48-73 | the background sync over the open cases |
| `CaseStores.CaseStore.RunCaseSlaMonitorTick` | backend/src/modules/cases/caseJobs.ts:85-117 | one enabled pass stamps and reports new breaches |
| `CaseRuns.StepKeeps` | backend/src/modules/cases/cases.service.ts:250-666 | every operation keeps the invariant |
| `CaseRuns.ReachableIsGood` | backend/src/modules/cases/cases.service.ts:567-643 | on every run: closed exactly when stamped closed, one case per policy and device, one owner per violation, one report per stamp |
| `CaseRuns.RecoveryHitsItsOwnCase` | backend/src/modules/cases/cases.service.ts:625-634 | recovery acts on exactly the case the violation was attached to, while that is open |
| `CaseRuns.IncidentLookupIsUnique` | backend/src/modules/cases/cases.service.ts:574-586 | the database's listing order cannot matter |
| `CaseHistory.RunContinues` | backend/src/modules/cases/cases.service.ts:342-355 | along any run an acknowledgement or breach stamp survives until the case's next SLA epoch |
| `CaseHistory.MonitorLeavesNoBreachUnstamped` | backend/src/modules/cases/caseJobs.ts:85-117 | after an enabled pass no open case is breached and unstamped, and stamps appear only on breaches |
| `CaseHistory.MonitorCountsMinutes` | backend/src/modules/cases/caseJobs.ts:85-117 | a pass stamps a breach exactly when the minutes of the case's severity have passed on its clock |
| `CaseHistory.ReachableCase` | backend/src/modules/cases/caseJobs.ts:92-115 | at most one report of each kind per epoch, stamped exactly when reported |
| `OsUpdates.MonthWindow` | backend/src/modules/catalogs/osUpdateCatalog.ts:328-338 | fifteen consecutive months, newest first |
| `OsUpdates.WindowDistinct` | backend/src/modules/catalogs/osUpdateCatalog.ts:328-338 | the months are distinct and start with the current one |
| `OsUpdates.RollupKbEntries` | backend/src/modules/catalogs/osUpdateCatalog.ts:288-310 | one entry per KB and build, folded from its rows |
| `OsUpdates.GroupSummary` | backend/src/modules/catalogs/osUpdateCatalog.ts:300-305 | an entry carries the first known revision and a severity no row outranks |
| `OsUpdates.GroupSeverity` | backend/src/modules/catalogs/osUpdateCatalog.ts:304-305 | the severity shown is that of the first row that none outranks |
| `OsUpdates.SeveritiesRank` | backend/src/modules/catalogs/osUpdateCatalog.ts:69 | how severities rank, in any case of letters |
| `OsUpdates.RollupCovers` | backend/src/modules/catalogs/osUpdateCatalog.ts:288-306 | one entry exists for every update and build some row names, and for no other |
| `OsUpdates.RollupSays` | backend/src/modules/catalogs/osUpdateCatalog.ts:288-306 | an entry's CVEs, exploited flag and known revision are those of its rows |
| `OsUpdates.RollupNewestBuildFirst` | backend/src/modules/catalogs/osUpdateCatalog.ts:307-308 | a roll-up lists the newest builds first |
| `OsUpdates.GroupCves` | backend/src/modules/catalogs/osUpdateCatalog.ts:301 | an entry lists exactly the CVEs its rows name |
| `OsUpdates.GroupExploited` | backend/src/modules/catalogs/osUpdateCatalog.ts:302 | exploited exactly when a row is |
| `OsUpdates.RefreshOsUpdateCatalog` | backend/src/modules/catalogs/osUpdateCatalog.ts:313-395 | the loops compute the incremental merge over the window |
| `OsUpdates.RefetchedExactly` | backend/src/modules/catalogs/osUpdateCatalog.ts:341-352 | fetched again are the two newest months and those never fetched, all for an older catalog |
| `OsUpdates.MonthsRemembered` | backend/src/modules/catalogs/osUpdateCatalog.ts:341-352 | what is remembered as fetched afterwards |
| `OsUpdates.FilledOnlyWhereMissing` | backend/src/modules/catalogs/osUpdateCatalog.ts:360-383 | a revision is filled in only where none was known |
| `OsUpdates.RunsKeepGood` | backend/src/modules/catalogs/osUpdateCatalog.ts:340-360 | over every sequence of refreshes, month, KB and build stay unique and each month is recorded once |
| `OsUpdates.UntouchedMonthsKept` | backend/src/modules/catalogs/osUpdateCatalog.ts:354-383 | a month not refetched keeps its entries up to filled-in revisions |
| `OsUpdates.RefetchedMonthsReplaced` | backend/src/modules/catalogs/osUpdateCatalog.ts:354-383 | a refetched month holds exactly its new roll-up |
| `OsUpdates.PendingShrinks` | backend/src/modules/catalogs/osUpdateCatalog.ts:398-403 | a newer revision has no additional pending update, and none exactly at the latest known fix |
| `OsUpdates.UpToDate` | backend/src/modules/catalogs/osUpdateCatalog.ts:155-162 | a recognised device is up to date exactly when its revision reached every known fix |
| `OsUpdates.WindowsBuildReads` | backend/src/modules/catalogs/osUpdateCatalog.ts:155-162 | build and revision are read off the numbers of the version text |
| `OsUpdates.PendingNewestFirst` | backend/src/modules/catalogs/osUpdateCatalog.ts:402 | pending updates are listed newest fix first |
| `AuditCsv.ExportAuditLogsCsv` | backend/src/modules/auditLogs/auditLogs.service.ts:117-133 | refuses exactly the oversized unbounded export, else writes header and entries |
| `AuditCsv.FieldRoundTrip` | backend/src/modules/auditLogs/auditLogs.service.ts:110-114 | an escaped field reads back as itself |
| `AuditCsv.ExportRoundTrip` | backend/src/modules/auditLogs/auditLogs.service.ts:124-132 | reading the export back gives exactly the header and values written, for all strings |
| `AuditCsv.ColumnsMatch` | backend/src/modules/auditLogs/auditLogs.service.ts:110-133 | each value read back stands in the column of its header |
| `IdleTimer.SessionGuard.CheckIdleElapsed` | frontend/src/composables/useSessionGuards.ts:118-126 | signs out or re-arms from the stored timestamp |
| `IdleTimer.SessionGuard.HandleActivityEvent` | frontend/src/composables/useSessionGuards.ts:135-139 | throttled write, full re-arm |
| `IdleTimer.SessionGuard.ResetIdleTimer` | frontend/src/composables/useSessionGuards.ts:128-133 | forced write, full re-arm with the new timeout |
| `IdleTimer.SessionGuard.Remount` | frontend/src/composables/useSessionGuards.ts:159-181 | a cold reload checks the stored timestamp against the default timeout |
| `IdleTimer.StepStaysInStep` | frontend/src/composables/useSessionGuards.ts:92-139 | every event keeps stored time and deadline within five seconds of the truth, measured by the timeout in effect; a resume signs out exactly when that has elapsed since the stored activity |
| `IdleTimer.NeverEarlyInEffect` | frontend/src/composables/useSessionGuards.ts:92-139 | over every run with a stored timestamp, no sign-out is more than five seconds before the timeout in effect |
| `IdleTimer.NeverEarly` | frontend/src/composables/useSessionGuards.ts:92-139 | nor before the configured timeout, if the page load has read it or it is at most the default |
| `IdleTimer.NeverEarlyIffWithinDefault` | frontend/src/composables/useSessionGuards.ts:92-95 | a configured timeout is kept on every run exactly when it is at most the default |
| `IdleTimer.ReloadCutsEightHours` | frontend/src/composables/useSessionGuards.ts:92-119 | under an eight-hour timeout a reload after 61 idle minutes signs out 419 minutes early |
| `IdleTimer.IdleEndsIffStored` | frontend/src/composables/useSessionGuards.ts:97-126 | idle checks end the session exactly when a timestamp was stored |
| `IdleTimer.ReloadUsesDefault` | frontend/src/composables/useSessionGuards.ts:159-193 | a cold reload decides as the configured timeout would except between it and the default, and otherwise leads to a full new session |

## Left out

- Interleavings inside one database operation: each case operation, rule evaluation and refresh is one atomic step, though the code reads and writes without a transaction.
- Several workspaces: every store is that of one workspace; rows of others never mix because every query filters by workspace.
- HTTP fetching, regex scraping and parsing of feeds: the models start from parsed records; a release date that does not parse is not modelled.
- Unicode: upper- and lower-casing cover ASCII letters, blanks are space, tab, line feed and carriage return, and strings are ordered by code point.
- Floating point: token arithmetic is over real numbers.
- Threat-intel enrichment, notes, timeline and audit messages, workflow launches and ticket references of a case: they touch no lifecycle field and appear only as an update of `updatedAt`.
- Which tickets a sync finds newly resolved, and the per-integration setting: inputs of the step.
- `ReportedApps.GetReportedAppsOverview`: names are collated by any integer ranking given as an input; versions and sources are sets, which the source shows sorted.
- `Rotation.Refresher.Tick`: the flush of buffered self-reports and the policy scoping of target devices are inputs; the batch is fetched in list order, which `Rotation.FetchAllStamps` shows is the same as any order.
- The key `kb:buildMajor` of the roll-up and the month code are modelled as pairs; the number after the last colon makes the text unambiguous.
- `lastError`, fetch statistics and cache timestamps of the catalogs: status text only.
- Batch lookups (`getSofaCacheRows`, `getOsvAndroidCacheRows`): the single lookup mapped over the keys.
- `fetchAllPages`, other browser tabs, the token refresh of the session guard, the widget engine, PKI and access control.
