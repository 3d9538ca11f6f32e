# Red Lycoris: a verified model of the stateful core

Red Lycoris collects security findings from scanners, lets people triage them and keeps
an audit log. This project models in Dafny the parts of its Go backend that carry the
guarantees: the triage engine and its event log, the findings query compiler with its
keyset pages and facets, the audit export and live stream, the user list, scan ingest, the
Redis enrichment worker group, the sync scheduler, the metrics vectors, access tokens, the
token debounce map, the audit feed and the load-test report. `dafny verify dfyconfig.toml`
checks all of it.

## How the model is cut

- A table is a sequence or a map of rows; a SQL statement, an atomic memory access or a
  section under a lock is one step. Code that changes state step by step is a class or a
  method with loops, proved against a specification function; claims over all runs are
  lemmas about the functions.
- Concurrent code is a state machine. A run is any sequence of events; an event that is
  not possible leaves the state alone, so the lemmas quantify over every interleaving,
  crash and failure.
- Time is microseconds, the grain of a Postgres `timestamptz`; a UUID is its 128-bit
  number. Random bytes, clocks, generated ids, database faults and the other writers of a
  table are parameters.
- `ILIKE`, full-text search and the KEV, BDU, EPSS and CVSS catalogues are the
  uninterpreted `World` of `Sql.dfy`. SQL comparisons are three-valued there.

| file | models |
|---|---|
| `Paging.dfy` | SELECT with keyset condition, order and limit; draining pages of a changing table |
| `Sql.dfy`, `FindingsQuery.dfy` | the conditions `buildBaseWhere` emits, with numbered placeholders, and their meaning |
| `FindingsRepo.dfy`, `Facets.dfy`, `FindingsExport.dfy` | `List`, `Facets` and the export loop |
| `AuditLog.dfy`, `AuditStream.dfy`, `AuditFeed.dfy` | audit pages, export, live stream, feed grouping |
| `UuidText.dfy`, `UserList.dfy` | UUIDs compared as text; `ListV2` and its cursor |
| `Strings.dfy`, `Triage.dfy` | triage actions, their transaction, the event log and its replay |
| `BulkTriage.dfy`, `GroupTriage.dfy` | concurrent bulk triage; the group handlers |
| `EnrichmentStream.dfy`, `PendingDrain.dfy` | the consumer group protocol; the recovery loop |
| `Scheduler.dfy` | mutual exclusion of syncs |
| `Sorting.dfy`, `Labels.dfy`, `Histogram.dfy`, `ScrapeRace.dfy` | label keys; the histogram, alone and under concurrency |
| `ScanIngest.dfy` | scan upload with fingerprint deduplication |
| `BaseCodes.dfy`, `Pat.dfy` | base 32 and base 64; token generation and parsing |
| `Debounce.dfy` | `TouchLastUsed` |
| `LoadReport.dfy` | percentiles and collector totals |

## Where the code keeps less than one would expect

Each of these is a lemma; where a condition decides, it is stated in both directions.

- A filter with a kind outside int16 selects nothing at all, whatever the other kinds
  (`FindingsQuery.CompiledMeansFilter`).
- The findings cursor compares `(first_seen, id)` whatever the sort column, so it agrees
  with the order exactly when sorting by `first_seen`; sorted by severity a finding that
  is counted can be on no page (`FindingsExport.CursorFollowsOrder`,
  `FindingsExport.SeveritySortLosesFinding`).
- The user cursor keeps milliseconds of timestamps that have microseconds, so it passes
  over users exactly when the cursor user's timestamp is not a whole number of
  milliseconds, and a finished walk lacks someone exactly if a matching user lies between
  a cursor user's truncated timestamp and the real one. An unknown sort string gets no
  cursor condition, and its pages never advance (`UserList.CursorIsExact`,
  `UserList.StaticWalk`, `UserList.UnknownSortEnds`).
- `ChangeStatus` leaves the closure columns of a closed finding in place; the status
  handler can do so through a race, and always does when a closed finding is confirmed
  (`Triage.ChangeStatusLeavesClosure`, `Triage.ReopenRace`).
- When a scan upload fails, no failed scan is recorded: its row was rolled back before
  `Fail` runs (`ScanIngest.Store.CreateScan`).
- A message whose enrichment fails is tried again only after a worker of that consumer
  name restarts; in the recovery loop ten messages that always fail starve all later ones
  (`EnrichmentStream.RetriedOnlyAfterRestart`, `PendingDrain.EventuallyAcked`).
- In a metric with two or more labels, a label set shares its entry with a different one
  exactly if one of its values holds byte 0xff; with fewer labels never
  (`Labels.SharedExactly`).
- `TouchLastUsed` reads the clock before it takes the lock, so a call can hold an older
  reading than the call before it. The eviction goes unnoticed exactly if readings fall
  back by no more than a debounce and one tick (`Debounce.ExactSlack`); the comment there
  promises one touch a minute without a condition.
- The error key of the load report joins its parts without quoting. Two endpoints can share
  a summary exactly if one is the other followed by a bar and more text
  (`LoadReport.SharedExactly`). The endpoints that the scenarios record have no bar, so
  their summaries keep endpoint, error and status apart whatever the error text
  (`LoadReport.PlainEndpointsKeepApart`).

## Model

| member | source | states |
|---|---|---|
| `FindingsQuery.CompiledMeansFilter` | backend/internal/storage/findings_repo.go:354-507 | for every filter, dropped axis, start index, row and catalogue, all emitted conditions are TRUE, reading `$k` as argument `k - start`, iff the row satisfies the filter without that axis and no listed kind is outside int16 |
| `FindingsQuery.BuildBaseWhere` | backend/internal/storage/findings_repo.go:354-507 | the step-by-step compiler yields the specified conditions and arguments, and its returned index is the start plus the number of arguments |
| `FindingsRepo.StatementMeans` | backend/internal/storage/findings_repo.go:536-576 | with the cursor condition and the limit argument appended, a row passes iff it passed before and lies beyond the cursor |
| `FindingsRepo.CompileList` | backend/internal/storage/findings_repo.go:533-576 | the page statement is filter, cursor and limit with the limit bound to its own placeholder; the count statement is the page statement cut back to the filter |
| `FindingsRepo.List` | backend/internal/storage/findings_repo.go:517-606 | the page is the matching rows beyond the cursor in order up to the limit, the total counts the matching rows, as another statement sees them, whatever the cursor, and a next cursor is given iff the page is full |
| `Facets.FacetIsTotal` | backend/internal/storage/findings_repo.go:658-750 | for every filter, axis and value, the rows that pass without the axis and fall in the value's bucket are as many as `List` reports with the axis set to that value |
| `Facets.GroupFacet` | backend/internal/storage/findings_repo.go:676-750 | a grouped facet (severity, status, kind, source) lists a value iff `List` would find something for it, with the total `List` would report |
| `Facets.FlagFacet` | backend/internal/storage/findings_repo.go:833-865 | the KEV, CVE, fix and BDU counts equal the total of `List` with that flag set |
| `Facets.AttributeFacet` | backend/internal/storage/findings_repo.go:777-831 | the ecosystem, IaC provider and secret kind counts equal the total of `List` with the attribute set to the value and the kind set to the attribute's kind, or zero if the filter leaves no room for that kind |
| `FindingsExport.CollectFindings` | backend/internal/api/export_html.go:148-167 | over any sequence of table states between the pages, an export sorted by first_seen returns keys in order and none twice, and when the loop ends it holds every key the filter selected at every read; from findings at rest the loop ends and returns exactly the filtered ones in order |
| `FindingsExport.StaticExport` | backend/internal/api/export_html.go:148-167 | what the loop has read from findings at rest is, once done, the whole filtered set in order, and it is done at the latest when the pages could hold the table |
| `FindingsExport.NoFindingTwice` | backend/internal/storage/findings_repo.go:189-193 | since the upsert never changes first_seen, no finding is exported twice however often its other columns change |
| `FindingsExport.CursorFollowsOrder` | backend/internal/storage/findings_repo.go:536-550 | the cursor condition selects what follows in the ORDER BY, for all pairs of findings, iff the sort column is first_seen |
| `FindingsExport.SeveritySortLosesFinding` | backend/internal/storage/findings_repo.go:536-576 | sorted by severity, a counted finding is on neither of the two pages |
| `AuditLog.List` | backend/internal/storage/audit_log_repo.go:273-358 | the page is the first of all matching records beyond the cursor, newest first, up to the limit, and a cursor at its last record is given iff there are more |
| `AuditLog.Export` | backend/internal/api/admin_audit.go:259-337 | from the cursor of the request, over any sequence of log states, the export writes records newest first and none twice, and when it ends it has written every record beyond that cursor that matched at every read; from a log at rest it ends with exactly those |
| `AuditLog.StaticExport` | backend/internal/api/admin_audit.go:259-337 | what the loop has read from a log at rest is, once done, the matching log, newest first, and it is done at the latest when the pages could hold the log |
| `AuditStream.Connection.constructor` | backend/internal/api/admin_audit.go:217-229 | a connection starts after the event named by Last-Event-ID if it still exists, otherwise three seconds ago |
| `AuditStream.Connection.Tick` | backend/internal/api/admin_audit.go:234-254 | a tick sends exactly the next hundred matching records and moves the position to the last of them |
| `AuditStream.SentIncreases` | backend/internal/api/admin_audit.go:234-254 | over any run of polls, inserts and deletes the keys sent strictly increase, so nothing is sent twice |
| `AuditStream.SentIffLandedAhead` | backend/internal/storage/audit_log_repo.go:518-535 | once a poll comes back short, a record inserted during the connection and kept has been sent iff it landed beyond the stream's position at that time |
| `AuditStream.PollComesShort` | backend/internal/api/admin_audit.go:234-254 | once the log rests, a poll comes back short within as many polls as it holds hundreds of records and one more |
| `AuditStream.Resume` | backend/internal/api/admin_audit.go:217-229 | disconnecting and resuming after the last key sent continues the same stream, without gap or repeat |
| `AuditStream.LastEventFindsPosition` | backend/internal/api/admin_audit.go:219-229 | the id of the last record sent finds the stream's position again while that record exists |
| `AuditFeed.GroupAuditFeed` | backend/internal/api/admin_audit.go:339-372 | the loops emit the specified feed with the specified number of comparisons |
| `AuditFeed.FeedIsFaithful` | backend/internal/api/admin_audit.go:339-372 | the feed cuts the records in order into groups of at least three that all go with their first and cannot be extended, and singles that do not go with both of their next two |
| `AuditFeed.FaithfulIsUnique` | backend/internal/api/admin_audit.go:339-372 | no other list of items does that |
| `AuditFeed.FaithfulFlattens` | backend/internal/api/admin_audit.go:339-372 | flattening the feed gives the records back in order |
| `AuditFeed.ComparisonsAreFew` | backend/internal/api/admin_audit.go:345-352 | at most two comparisons are made for each record |
| `UuidText.TextOrder` | backend/internal/storage/admin_users_query.go:154-188 | comparing the texts of two UUIDs, as the cursor conditions do, is comparing the UUIDs |
| `UserList.ListV2` | backend/internal/storage/admin_users_query.go:58-270 | the page is the first of all matching users beyond the cursor in order up to the limit, hasMore and a cursor at its last user are given iff there are more, and the total ignores the cursor |
| `UserList.CursorMeans` | backend/internal/storage/admin_users_query.go:153-188 | a cursor admits exactly what follows its user in the ORDER BY once the user's timestamps are cut to milliseconds, in the dated and the NULL section |
| `UserList.CursorIsSound` | backend/internal/storage/admin_users_query.go:153-188 | nothing is admitted that does not follow the cursor user |
| `UserList.CursorIsExact` | backend/internal/storage/admin_users_query.go:153-188 | everything that follows is admitted iff the cursor user's timestamp is whole milliseconds, or NULL, or the sort is by email |
| `UserList.WalkReadsOnce` | backend/internal/storage/admin_users_query.go:190-270 | whatever changes between pages, following the cursors returns users in order and no place twice |
| `UserList.WalkSkipsNothing` | backend/internal/storage/admin_users_query.go:190-270 | if no cursor followed passes over a matching user, a finished walk holds every user that matched in the same place at every page |
| `UserList.WholeIsGapless` | backend/internal/storage/admin_users_query.go:153-188 | cursors of users with whole-millisecond timestamps pass over nobody |
| `UserList.WalkEnds` | backend/internal/storage/admin_users_query.go:58-270 | with no writers the walk ends, at the latest when the pages could hold the table |
| `UserList.GaplessWalk` | backend/internal/storage/admin_users_query.go:58-270 | with no writers and no cursor that passes over somebody the walk is the matching users once each in order, as many as the total |
| `UserList.StaticWalk` | backend/internal/storage/admin_users_query.go:58-270 | with no writers a finished walk lists every matching user iff no cursor it followed passed over one |
| `UserList.UnknownSortEnds` | backend/internal/storage/admin_users_query.go:151-188 | with an unknown sort string every page is the first page, so a walk ends iff the first page shows all matching users |
| `Triage.TriageAction.ApplyTo` | backend/internal/domain/triage_action.go:28-141 | each action changes the loaded finding as specified and remembers what its event needs, or fails with the specified error and changes nothing |
| `Triage.TriageAction.BuildEvent` | backend/internal/domain/triage_action.go:37-150 | the event carries what the finding was before the action |
| `Triage.FindingsRepo.ApplyTriageAction` | backend/internal/storage/findings_repo.go:1181-1231 | the transaction commits row and event together, or at any failure leaves both tables as they were |
| `Triage.LogDeterminesFinding` | backend/internal/domain/triage_action.go:28-150 | over every history, replaying a finding's new events from its first state gives its status, assignee, closure reason, note and closer, and each event records the replayed state just before it |
| `Triage.ClosureDataIsCoherent` | backend/internal/domain/triage_action.go:28-150 | over every history the four closure columns stay all set or all empty |
| `Triage.ClosedFindingsHaveReasons` | backend/internal/domain/triage_action.go:28-150 | over every history a finding that was not closed without a reason at first has a reason whenever it is closed |
| `Triage.ChangeStatusLeavesClosure` | backend/internal/domain/triage_action.go:28-35 | a status change keeps closure data exactly on closed findings iff the finding was not closed |
| `Triage.OtherActionsKeepExact` | backend/internal/domain/triage_action.go:58-141 | every other action keeps closure data exactly on closed findings |
| `Triage.UpdateReachesStatus` | backend/internal/api/triage.go:73-101 | without a race the status request succeeds iff the status is known and a risk is accepted only with a note, and then brings the finding to the requested status |
| `Triage.ReopenRace` | backend/internal/api/triage.go:74-85 | a reopen request that read the row before a close committed leaves the finding open with closure data |
| `BulkTriage.EverySchedule` | backend/internal/storage/findings_repo.go:1239-1272 | in every reachable state the database is the finished calls applied one by one, each with the outcome it has in that order, repeated ids included |
| `BulkTriage.ScheduleIndependence` | backend/internal/storage/findings_repo.go:1239-1272 | for distinct ids every schedule ends with the rows and event logs of the left-to-right fold, and each call reports what it does to the first state |
| `BulkTriage.FailureTouchesNothing` | backend/internal/storage/findings_repo.go:1181-1231 | a call that fails leaves its finding and that finding's log untouched in every schedule |
| `BulkTriage.EveryScheduleReports` | backend/internal/storage/findings_repo.go:1259-1267 | succeeded and failed list exactly the recorded calls, none twice and none in both |
| `BulkTriage.EveryScheduleLaunches` | backend/internal/storage/findings_repo.go:1250-1255 | at most ten calls run at once and they start in order |
| `BulkTriage.NoDeadlock` | backend/internal/storage/findings_repo.go:1250-1269 | until all calls are recorded some call can move |
| `BulkTriage.EveryMoveAdvances` | backend/internal/storage/findings_repo.go:1250-1269 | every move uses up one of at most five steps a call, so a run ends |
| `GroupTriage.SplitByTriagerAccess` | backend/internal/api/triage.go:448-492 | the allowed ids, in order, are those the user may triage and the forbidden ones are the rest; an error iff a role lookup breaks |
| `GroupTriage.HandleGroupBulk` | backend/internal/api/triage.go:570-595 | succeeded and failed partition the group's ids: forbidden ones are refused, others reported as their call turned out, and the tables are those of the allowed calls in sequence |
| `EnrichmentStream.NoMessageIsLost` | backend/internal/enrichment/worker.go:24-177 | in every reachable state of publishers, workers, failures, crashes and restarts each message is undelivered, pending at one consumer or acknowledged, and acknowledged only if malformed or enriched |
| `EnrichmentStream.StaysAtConsumer` | backend/internal/enrichment/worker.go:81-177 | a pending message stays at its consumer until it is acknowledged |
| `EnrichmentStream.RetriedOnlyAfterRestart` | backend/internal/enrichment/worker.go:81-119 | a pending message that no worker holds is not read again until a worker of its consumer starts |
| `PendingDrain.Consumer.ProcessBatch` | backend/internal/enrichment/worker.go:139-141 | a batch attempts each of its messages once, removes those acknowledged and keeps the others in front |
| `PendingDrain.Consumer.ProcessPending` | backend/internal/enrichment/worker.go:122-143 | with finitely many failures the loop ends with the list empty, within as many rounds as entries plus failures, unless a read breaks |
| `PendingDrain.EventuallyAcked` | backend/internal/enrichment/worker.go:122-143 | a pending message is eventually acknowledged iff it does not fail forever and fewer than ten that do are ahead of it |
| `PendingDrain.EventuallyEmpty` | backend/internal/enrichment/worker.go:122-143 | the list becomes empty iff no message fails forever |
| `Scheduler.Requested` | backend/internal/enrichment/scheduler.go:113-147 | a manual or full sync of a known source runs under the name it was asked for; an unknown name is an error |
| `Scheduler.SchedulerState.Claim` | backend/internal/enrichment/scheduler.go:153-170 | the first locked section marks the name with its start time, or refuses and changes nothing |
| `Scheduler.SchedulerState.Release` | backend/internal/enrichment/scheduler.go:172-177 | the deferred section removes the name from both maps |
| `Scheduler.SchedulerState.RunIfNotRunning` | backend/internal/enrichment/scheduler.go:149-209 | a run on its own returns the outcome, a panic as an error, and leaves both maps as they were |
| `Scheduler.MutualExclusion` | backend/internal/enrichment/scheduler.go:149-209 | in every interleaving at most one run of a name is active and both maps hold exactly the active names, with their start times |
| `Scheduler.RefusedIffActive` | backend/internal/enrichment/scheduler.go:149-170 | a call is refused iff a run of its name, incremental or full, is active when it enters |
| `Scheduler.QuietIsUnmarked` | backend/internal/enrichment/scheduler.go:149-209 | when no run is active both maps are empty |
| `Labels.DecodeInvertsKey` | backend/internal/observability/metrics.go:54-70 | decoding a label key gives the values back iff none contains byte 0xff |
| `Labels.KeysSeparateCleanLabels` | backend/internal/observability/metrics.go:54-63 | label sets without that byte share an entry iff their values agree |
| `Labels.SharedExactly` | backend/internal/observability/metrics.go:54-63 | a label set shares its entry with a different one iff the vector has at least two names and one of the values holds byte 0xff |
| `Histogram.CumulativeCounts` | backend/internal/observability/metrics.go:256-263 | accumulating the buckets gives at each bound the number of values not above it, and in the end all of them |
| `Histogram.HistogramVec.Observe` | backend/internal/observability/metrics.go:239-264 | an observation is added to its label set's entry and to no other |
| `Histogram.HistogramVec.Render` | backend/internal/observability/metrics.go:293-325 | each rendered bound shows the number of observed values not above it, and +Inf equals the count |
| `ScrapeRace.NoUpdateIsLost` | backend/internal/observability/metrics.go:239-274 | in every interleaving each entry holds exactly the work done on it: count, buckets and the sum of the added values in some order |
| `ScrapeRace.KeyHasOneEntry` | backend/internal/observability/metrics.go:240-252 | double-checked creation gives each key one entry: two finished observers share it iff their keys agree |
| `ScrapeRace.QuietIsExact` | backend/internal/observability/metrics.go:239-325 | once all observers are done each bound renders the number of values not above it, +Inf equals the count, and the sum is that of the values in some order |
| `ScrapeRace.EveryScrapeIsConsistent` | backend/internal/observability/metrics.go:254-325 | a scrape racing with any observers shows a nondecreasing series, a +Inf bucket no greater than the count, and at least what was finished when it began |
| `ScanIngest.Store.CreateScan` | backend/internal/api/scans.go:133-210 | an upload fails iff the scan id is taken, the report does not parse, an upsert is refused or a statement it gets to breaks; a success has its whole effect, a failure leaves findings, links and scans as they were |
| `ScanIngest.CountsAgree` | backend/internal/api/scans.go:158-202 | imported plus updated is the number of findings, the table grows by imported, and the total of times_seen by updated plus what was inserted |
| `ScanIngest.TotalGrowsByReport` | backend/internal/storage/findings_repo.go:189-193 | when the report sets no times_seen above one, the total grows by the number of findings |
| `ScanIngest.OldRowsKeep` | backend/internal/storage/findings_repo.go:168-227 | a row that was there keeps its id, first_seen, triage and all else but last_seen, times_seen and the secret fingerprint, which follow from its occurrences in the report |
| `ScanIngest.LinksMatch` | backend/internal/storage/scans_repo.go:72-76 | the scan has one link for each distinct fingerprint of the report, those marked new are the imported ones, and the links of other scans stay |
| `ScanIngest.PublishedAreStored` | backend/internal/api/scans.go:188-210 | each id published for enrichment is the stored finding with that entry's fingerprint |
| `BaseCodes.RoundTrip32` | backend/internal/auth/api_tokens.go:25-28 | five bytes encode to eight characters of the alphabet and decode back |
| `BaseCodes.RoundTrip64` | backend/internal/auth/api_tokens.go:30-34 | every byte string decodes back from its unpadded base 64 text of the stated length |
| `BaseCodes.DecodersAccept` | backend/internal/auth/api_tokens.go:57-62 | which strings the two decoders accept, line breaks apart |
| `Pat.RoundTrip` | backend/internal/auth/api_tokens.go:20-65 | for all seeds the generated token parses to its prefix of 8 and secret of 43 characters, which decode to the seeds |
| `Pat.SplitInFour` | backend/internal/auth/api_tokens.go:45-51 | underscores after the third never shift the split |
| `Pat.ParseAccepts` | backend/internal/auth/api_tokens.go:40-65 | ParsePAT returns a prefix and a secret iff the trimmed token has that shape and both are valid |
| `Pat.TokensAreDistinct` | backend/internal/auth/api_tokens.go:20-38 | different seeds give different tokens |
| `Debounce.TokenTouches.TouchLastUsed` | backend/internal/storage/api_tokens_repo.go:88-104 | the locked section skips or touches by the remembered time and evicts exactly the entries older than twice the debounce |
| `Debounce.EvictionIsInvisible` | backend/internal/storage/api_tokens_repo.go:83-104 | for every call sequence whose clock readings never fall back by more than a debounce and a tick, the evicting map decides as one that never evicts |
| `Debounce.ExactSlack` | backend/internal/storage/api_tokens_repo.go:83-104 | that holds for all call sequences iff readings fall back by no more than a debounce and a tick |
| `Debounce.TouchesAreSpaced` | backend/internal/storage/api_tokens_repo.go:83-104 | under the same condition any two touches of a token are at least a debounce apart |
| `LoadReport.PercentileOf` | backend/internal/loadtest/report.go:112-127 | for 1 to 100 and a nonempty list the result is the nearest-rank percentile; the input is unchanged |
| `LoadReport.PercentileIsNearestRank` | backend/internal/loadtest/report.go:112-127 | for 1 to 100 the result is the only number with at least p percent of the values at most it and fewer than p percent below it |
| `LoadReport.PercentileMonotone` | backend/internal/loadtest/report.go:112-127 | a higher percentile is no smaller |
| `LoadReport.Collector.Record` | backend/internal/loadtest/report.go:79-110 | one call is added to its endpoint's aggregate and, if it failed, to the summary of its key |
| `LoadReport.EndpointsAgree` | backend/internal/loadtest/report.go:79-97 | after any run each endpoint's aggregate is that of its calls |
| `LoadReport.EndpointTotals` | backend/internal/loadtest/report.go:88-97 | each endpoint's count is its successes plus errors and the number of its durations |
| `LoadReport.SummariesAgree` | backend/internal/loadtest/report.go:99-109 | each error summary has the number of calls that failed with its key |
| `LoadReport.SummariesCountErrors` | backend/internal/loadtest/report.go:99-109 | together the summaries count every error once |
| `LoadReport.ErrorsAddUp` | backend/internal/loadtest/report.go:88-109 | the endpoints' error counts add up to all errors |
| `LoadReport.KeySeparatesErrors` | backend/internal/loadtest/report.go:99 | within an endpoint two errors have the same key iff error and status agree, whatever the error text |
| `LoadReport.SharedExactly` | backend/internal/loadtest/report.go:99 | failed calls of two different endpoints can have the same key iff one endpoint is the other followed by a bar and more text |
| `LoadReport.PlainEndpointsKeepApart` | backend/internal/loadtest/report.go:99 | for endpoints without a bar two errors share a summary iff endpoint, error and status agree |
| `Triage.CloserIsLogged` | backend/internal/domain/triage_action.go:58-85 | the log names the closer iff the action closes on behalf of the acting user |
| `GroupTriage.PermittedMeans` | backend/internal/api/triage.go:481-490 | a finding that exists is judged by the user's role in its own project; one that is gone is refused unless the user is an admin |
| `Scheduler.LeavingFrees` | backend/internal/enrichment/scheduler.go:172-184 | after success, error or panic the call reports the outcome and the name is free |
| `Debounce.TouchEvicts` | backend/internal/storage/api_tokens_repo.go:97-103 | after a touch no entry is older than twice the debounce |

## Left out

- The facet by project, which joins the projects and shows the twenty largest counts.
- The groups query, saved views, `ListIDsByGroup` and the non-group bulk permission check: no state of their own.
- The audit filter's conditions: a filter is a predicate on records there; the findings compiler is the one modelled condition by condition.
- `ListV2` sorted by name: its cursor does not mention the email tie-break. Users have one role, and emails compare by code point after case folding.
- UserList.WalkReadsOnce: says only that no place in the order repeats; a user whose last login changes between two pages is in two places and can be shown twice.
- JSON and cursor encodings, which are assumed to decode to what was encoded; a cursor that does not decode is an error.
- Text in tokens outside ASCII, where Go's lengths count bytes and upper-casing can change them.
- Wrap-around of the 64-bit metric counters, and rounding: the float addition of a histogram's sum is an arbitrary function.
- Scrape output text, label escaping, and the read lock that keeps new entries out during a scrape; the model allows them, so it has more runs than the code. `CounterVec` and `GaugeVec` use the same entry protocol.
- Postgres isolation beyond row locks, a commit whose acknowledgement is lost, and deletes of findings during a bulk run.
- PendingDrain.Consumer.ProcessPending: requires that no message fails forever, for otherwise the loop does not end; `EventuallyAcked` and `EventuallyEmpty` cover that case.
- Scheduler run timeouts, the sync status table, and the syncs themselves: a sync succeeds, fails or panics.
- The enrichment of a finding, scanner parsers, fingerprint hashing, argon2 and SHA-256: abstract steps, inputs or left to the caller.
- HTTP routing, sessions, configuration, command-line tools, the front end and the seeder.
