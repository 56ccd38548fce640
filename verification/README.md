# Verified models of Hosthalla

Hosthalla is an inventory and monitoring server with an agent. This project models, in
Dafny, the parts of it whose correctness is not visible in any one function, and proves
what they are for:

- the live dashboard: store mutations, publishers, a cache and bounded queues that merge
  when full, in every interleaving (`DashboardUpdates`, `DashboardPipeline`,
  `DashboardProgress`, `DashboardSignalRace`, `DashboardSignalLoss`, `DashboardHandlers`),
  and the event bus in front of it (`EventBus`);
- the agent: one metrics collection at a time behind a cache (`MetricsCache`), the
  supervisor that joins its instances (`AgentRuntime`), and the directory of
  configuration files that decides the cache's time to live (`AgentConfigDir`);
- metric snapshots: the transaction that inserts one and keeps the newest 500
  (`SnapshotStore`), and the two batch loaders (`SnapshotQueries`);
- hosts: tags and filtering by count (`HostTags`), management methods and their encrypted
  secrets (`SecretCipher`, `HostService`), on SQLite and on PostgreSQL, whose columns have
  a length (`Columns`), export and import (`HostExport`, `HostImport`, `HostImportLaws`,
  `HostImportWrites`, `HostImportOutcome`, `HostRoundTrip`), and the hosts page (`HostsPage`);
- the command line (`CliResolve`) and the scaling of byte counts (`ByteFormat`).

`Identifiers`, `Text`, `Ordering` and `StableSort` hold what several of these share.

## How it is built

A concurrent protocol is a state with `Enabled` and `Apply` for each of its steps; a lock
region of the code is one step. `Run` folds a list of steps, and a theorem about `Run`,
or about every `Reachable` state, holds for every interleaving of any number of parties. Code that changes fields in place
is a class; its methods are proved equal to the functions that the protocols and the
theorems are about. Loops are loops, each proved against such a function.

A database table is a map or a sequence with the constraints of the schema. Where the two
databases differ, in the lengths that text columns keep and in the addresses, the schema
is a parameter (`HostService.SQLITE`, `HostService.POSTGRES`, or any that is `Sound`), and
the theorems hold for each. The result of a query is any sequence that answers it in the stated order. The cipher, the JSON codec,
and the parsers of UUIDs and durations are function values, and the laws the code relies
on (`Lawful`) are preconditions of the theorems that need them.

## What was found

- `signalClient` is not lossless when others act between its three selects.
  `DashboardSignalRace.LossExactly` says when an update is lost; `DashboardSignalLoss` has
  runs in which it is.
- The service accepts a host with a blank name, and the import refuses one. And a server
  on SQLite holds texts that a PostgreSQL column does not keep. So what one server exports
  another imports whole exactly when no host's name is blank and everything fits its
  database (`HostRoundTrip.ExportThenImport`; `BlankNameIsRefused` has an input).
- An import is not atomic, and on PostgreSQL what passes its first phase can fail in the
  second, because nothing before the database looks at lengths: a host's name has at most
  255 characters, its description 512, a tag 64, and the texts of a management method 255.
  What comes before the first text that does not fit stays written
  (`HostImportOutcome.ImportExactly`, `ImportChangesExactly`). If it is in a method, the
  host is left without that method and those after it, and importing again skips the host
  (`LostMethodsStayLost`; `PartialImport` has a username of 256 characters). If it is in
  the host itself or a tag, the payload fails for good, and the hosts after it never come
  (`BlockedForGood`; `BlockingTag` has a tag of 65 characters). On SQLite an accepted
  payload is imported whole (`SQLiteKeepsEverything`). The theorems also cover a nonce
  that cannot be drawn, for which the code has a branch; Go's `crypto/rand` has not
  returned an error since Go 1.24.
- An address with a zone loses it in a PostgreSQL `inet` column, so that importing it a
  second time fails as a duplicate and is not skipped
  (`HostImportOutcome.ImportAgainChangesNothing`).
- The loader of the agent's configuration files tells endpoints apart by scheme, `://` and
  host written together. It can take endpoints with different schemes for one exactly
  when one scheme goes on after the other with that mark
  (`AgentConfigDir.SchemesCollideExactly`; `DifferentEndpointsCollide` has an input).
- The count in the tag filter is right only for a list without repetitions
  (`HostTags.CountFilterExactly`); the service always passes such a list.
- A resubmitted snapshot never replaces the first one for its time, not even after that
  one was pruned: it is then too old to be kept (`SnapshotStore.RetainedIsFirstSubmitted`).

## Model

| member | source | states |
|---|---|---|
| DashboardUpdates.DashboardHostRowUpdate | internal/web/handlers/dashboard.go:382-397 | nil identifiers are dropped, and without any other the whole host list is asked for |
| DashboardUpdates.DashboardHostMetricUpdate | internal/web/handlers/dashboard.go:399-414 | the same for metric cells |
| DashboardUpdates.MergeDashboardUpdates | internal/web/handlers/dashboard.go:460-479 | the four copying loops compute the union of bits and identifiers |
| DashboardUpdates.AbsorbsMeans | internal/web/handlers/dashboard.go:460-479 | an update absorbs another exactly when it has every section bit and identifier of it |
| DashboardUpdates.MergeIsLeastUpperBound | internal/web/handlers/dashboard.go:460-479 | a merge is the least update that absorbs both |
| DashboardUpdates.MergeIsCommutativeAndAssociative | internal/web/handlers/dashboard.go:460-479 | the order in which a full queue merges does not matter |
| DashboardUpdates.AbsorbsIsAPartialOrder | internal/web/handlers/dashboard.go:460-479 | absorbing is a partial order with the empty update at the bottom |
| DashboardUpdates.RenderLiveUpdate | internal/web/handlers/dashboard.go:481-540 | the payload holds exactly the selected fragments, each once, in payload order |
| DashboardUpdates.RenderingMeetsDemand | internal/web/handlers/dashboard.go:481-540 | the fragments sent refresh exactly the regions the update asks for |
| DashboardUpdates.RenderingIsAHomomorphism | internal/web/handlers/dashboard.go:460-540 | a merged update is well formed and refreshes exactly what its parts would |
| DashboardUpdates.FragmentsAreDisjoint | internal/web/handlers/dashboard.go:487-536 | no region of the page is sent twice in one payload |
| DashboardUpdates.FallbackExactly | internal/web/handlers/dashboard.go:530-538 | when the empty-body fallback is sent: if and only if |
| DashboardUpdates.EventUpdatesAreWellFormed | internal/web/handlers/dashboard.go:354-380 | an event asks for nothing or for a well-formed update, so it never gets the fallback |
| DashboardUpdates.EventAsksExactly | internal/web/handlers/dashboard.go:354-414 | event by event, the regions asked for are exactly those the event changes: time, overview, list, a row or its metrics, or nothing |
| DashboardUpdates.AbsorbedDemand | internal/web/handlers/dashboard.go:460-540 | an absorbing update asks for everything the absorbed one asks for |
| DashboardPipeline.EveryRenderingIsFresh | internal/web/handlers/dashboard.go:192-220 | in every interleaving each of the four reads behind a rendering happened at or after the mutation of every event in it, and the data is younger than the cache's lifetime |
| DashboardPipeline.EverySignalledEventIsShown | internal/web/handlers/dashboard.go:436-485 | with atomic signalling nothing signalled is lost: it is on its way, or every region it changes was shown from data that saw it; queues stay within 8 |
| DashboardPipeline.EveryRenderingIsExact | internal/web/handlers/dashboard.go:460-485 | merging adds nothing: every payload refreshes exactly the regions that the events merged into it change |
| DashboardPipeline.DeliveredIsSignalled | internal/web/handlers/dashboard.go:436-485 | region by region, the union of what is queued, in hand and delivered is the union of everything signalled |
| DashboardPipeline.FanOutReachesEveryClient | internal/web/handlers/dashboard.go:436-442 | when a fan-out ends, every registered client has been signalled |
| DashboardPipeline.PublishedEventsAreHandled | internal/web/handlers/dashboard.go:338-352 | an event published in a run is in a handler's hands or has been handled |
| DashboardPipeline.EveryHandledEventReachesEveryClient | internal/web/handlers/dashboard.go:338-352 | once its handler has returned, every connected client has the event on its way or was shown it, or came later and has the full update with data as new |
| DashboardPipeline.NothingIsInvented | internal/web/handlers/dashboard.go:436-485 | no cause is queued, in hand or shown that was not signalled |
| DashboardPipeline.FanOutNeverBlocks | internal/web/handlers/dashboard.go:436-458 | a publisher can always signal the next client or finish |
| DashboardPipeline.RunKeepsInv | internal/web/handlers/dashboard.go:192-458 | the invariant of the cache, the publishers and every client survives every run: no cache survives an invalidation, even one that races with a collection |
| DashboardProgress.ClientsAreNeverStuck | internal/web/handlers/dashboard.go:154-220 | while a cause is on its way to an open client or page, that one can take a step, or the holder of the write lock can |
| DashboardProgress.PublishersAreNeverStuck | internal/web/handlers/dashboard.go:338-352 | a publisher can always go on, or the holder of the write lock can |
| DashboardProgress.ClientsCatchUp | internal/web/handlers/dashboard.go:162-190 | in every run a client takes at most nine steps for each update sent to it, and when it has none left it was shown every cause it was ever sent |
| DashboardProgress.CollectionsAreApart | internal/web/handlers/dashboard.go:192-220 | what the second test under the lock is for: two collections with no invalidation and no failed read between them begin at least the cache's lifetime apart |
| DashboardHandlers.DashboardHandler.DashboardData | internal/web/handlers/dashboard.go:192-220 | double-checked locking: the old data while fresh, otherwise one collection, cached for 30 seconds from its start; an error caches nothing |
| DashboardHandlers.DashboardHandler.SignalClient | internal/web/handlers/dashboard.go:444-458 | the three selects, uninterrupted, are the atomic signal |
| DashboardHandlers.DashboardHandler.QueueLiveUpdate | internal/web/handlers/dashboard.go:436-442 | every registered client is signalled, once, and nobody else |
| DashboardHandlers.DashboardHandler.HandleEvent | internal/web/handlers/dashboard.go:338-352 | the events that change nothing on the page are skipped; any other empties the cache, and the newest update of every client asks for all that the event changes |
| DashboardHandlers.DashboardHandler.OpenConnection | internal/web/handlers/dashboard.go:162-170 | a new client is registered with the full update queued, and no other queue changes |
| DashboardHandlers.HitIsTheProtocol | internal/web/handlers/dashboard.go:192-206 | on a hit the protocol's steps do what the method does |
| DashboardHandlers.MissIsTheProtocol | internal/web/handlers/dashboard.go:198-220 | on a miss they do too |
| DashboardHandlers.CollectDashboardData | internal/web/handlers/dashboard.go:222-336 | the counting loop computes the rows' statuses and the summary |
| DashboardHandlers.StatusExactly | internal/web/handlers/dashboard.go:260-310 | which of the four statuses a host has: reporting up to two minutes after its metric, then stale; without one, waiting or without an agent |
| DashboardHandlers.SummaryAgreesWithRows | internal/web/handlers/dashboard.go:222-336 | every host is counted once, under the status of its row, and every host with an agent or system information and every management method once |
| DashboardHandlers.LatestIsTheNewest | internal/web/handlers/dashboard.go:222-336 | the time on the card is that of the newest metric of any host |
| DashboardSignalRace.EventsAreConserved | internal/web/handlers/dashboard.go:444-458 | select by select, with any number of publishers: each event is exactly once queued, in hand, delivered or lost; the queue never exceeds 8 |
| DashboardSignalRace.LossExactly | internal/web/handlers/dashboard.go:449-456 | an update is lost exactly in the two inner default arms, and those are reached only after others acted on the channel between the selects |
| DashboardSignalLoss.LossByDraining | internal/web/handlers/dashboard.go:449-456 | a run in which the client empties the channel and the update is lost |
| DashboardSignalLoss.LossByRefilling | internal/web/handlers/dashboard.go:451-454 | a run in which a second publisher takes the freed slot and the merged update is lost |
| DashboardSignalRace.DeliveredIsExact | internal/web/handlers/dashboard.go:444-479 | however the selects interleave, what the client receives refreshes exactly what the events merged into it ask for, all of them signalled |
| DashboardSignalRace.SignallingIsBounded | internal/web/handlers/dashboard.go:444-458 | inside a call, and only there, its next select can be taken at once; a call takes at most three, whatever the other parties do, and is then over |
| DashboardSignalRace.UninterruptedIsAtomic | internal/web/handlers/dashboard.go:444-458 | without interference the selects are the atomic signal, the merged update included, and lose nothing |
| EventBus.InMemoryEventBus.Subscribe | internal/events/in_memory.go:45-58 | the handler is appended to its event type's list; nil arguments are refused |
| EventBus.InMemoryEventBus.Publish | internal/events/in_memory.go:20-43 | the handlers there at the start are called in order up to the first failure; later subscribers wait for the next event |
| EventBus.CallsExactly | internal/events/in_memory.go:37-41 | a handler is called exactly when none before it fails |
| EventBus.AfterAppends | internal/events/in_memory.go:29-41 | publishing takes no handler away and changes no order: a type's list grows by what the called handlers subscribe, in turn |
| MetricsCache.SingleFlight | internal/agent/service.go:56-101 | running holds exactly when some caller collects, and never two do |
| MetricsCache.NoWaiterIsStranded | internal/agent/service.go:64-101 | a waiter can wake, or the owner of its very channel is still collecting and can publish, panic or not |
| MetricsCache.PublishingFreesTheWaiters | internal/agent/service.go:80-97 | publishing closes an open channel and wakes all who wait |
| MetricsCache.ChannelsAreClosedOnce | internal/agent/service.go:75-97 | each channel is closed exactly once, when its collection finishes |
| MetricsCache.CollectionsAreSpaced | internal/agent/service.go:56-101 | a collection starts at least the time to live after the one before it finished |
| MetricsCache.RateIsBounded | internal/agent/service.go:56-101 | a window of length T sees at most T / ttl + 1 collections start |
| MetricsCache.ResultsAreFresh | internal/agent/service.go:56-101 | a hit is younger than the time to live and a waiter's result is of the collection it waited for or a later one; both get what the collector returned, error and all, or an error after a panic; an owner ends exactly as its own collector did |
| MetricsCache.OutcomesAreTheCollectors | internal/agent/service.go:80-97 | the outcome of each collection is what the collector did in some step of the run, called by its owner |
| MetricsCache.CachedMetricsCollector.Begin | internal/agent/service.go:56-77 | the first lock region: hit, join or own |
| MetricsCache.CachedMetricsCollector.Complete | internal/agent/service.go:80-97 | the owner's last region: the outcome is cached, a panic as an error, and the channel it made is closed |
| MetricsCache.CachedMetricsCollector.GetMetrics | internal/agent/service.go:56-101 | alone, a call returns the fresh result or makes exactly one collection |
| AgentRuntime.ResultsAreConserved | internal/agent/runtime.go:32-78 | remaining plus received is always N, one result per instance even after a panic, no send blocks |
| AgentRuntime.ResultsTellTheEnding | internal/agent/runtime.go:67-78 | a result carries an error exactly when its instance did not return cleanly, and a stack exactly when it panicked |
| AgentRuntime.ReturnsOnlyWhenAllFinished | internal/agent/runtime.go:32-65 | Run returns only when every instance has finished and was received |
| AgentRuntime.NilExactlyWhenCancelled | internal/agent/runtime.go:61-64 | in every run that has returned, it returned nil exactly when the context was cancelled before the step at which it left its loop |
| AgentRuntime.RunsAreBounded | internal/agent/runtime.go:32-78 | every run ends within 3N + 3 steps |
| AgentRuntime.NeverStuck | internal/agent/runtime.go:32-78 | until it returns, something other than the context can move |
| AgentRuntime.Collect | internal/agent/runtime.go:42-64 | the loop consumes every result, in order, whenever it notices the cancellation |
| AgentConfigDir.LoadConfigsFromDir | internal/agent/file_config.go:62-114 | the two loops compute the loading that the lemmas below describe |
| AgentConfigDir.LoadExactly | internal/agent/file_config.go:62-114 | the files are the regular ones ending in .yaml or .yml; loading succeeds if and only if there is one, all load and no two share endpoint and agent, and then each configuration says what its file says, in the order of the names; otherwise each file that does not load is named, and each later duplicate with the earliest of its target |
| AgentConfigDir.ConfigFileExactly | internal/agent/file_config.go:116-119 | the last extension is one of the two exactly when the name ends so |
| AgentConfigDir.FileLoadsExactly | internal/agent/file_config.go:180-237 | a file loads if and only if nothing is wrong with it, and then says the same, trimmed, with intervals of 2 and 4 seconds and version 1 where none is given |
| AgentConfigDir.TargetsExactly | internal/agent/file_config.go:121-123 | two configurations share a target if and only if agent, scheme and host agree, whatever case and space, when no scheme holds the mark :// |
| AgentConfigDir.SchemesCollideExactly | internal/agent/file_config.go:121-123 | endpoints with different schemes can be taken for one if and only if one scheme goes on after the other with the mark |
| AgentConfigDir.DifferentEndpointsCollide | internal/agent/file_config.go:121-123 | an input with that mark in a scheme for which two endpoints are taken for one |
| AgentConfigDir.SortedByName | internal/agent/file_config.go:73 | files are taken in the order of their names |
| AgentConfigDir.KeyIsInjective | internal/agent/file_config.go:101-108 | the duplicate key identifies endpoint and agent |
| AgentConfigDir.LoadedIsWellFormed | internal/agent/file_config.go:180-237 | whatever loads has its required fields and positive intervals |
| AgentConfigDir.SaveThenLoad | internal/agent/file_config.go:162-237 | a saved configuration loads as it was if and only if it is well formed |
| AgentConfigDir.MinimumMetricsInterval | internal/commands/agent_runtime.go:218-226 | the result is an interval of some worker and at most every worker's |
| AgentConfigDir.CachedResultsAreYoung | internal/commands/agent_runtime.go:180 | for every directory that loads, the time to live is positive and a cached answer is younger than every worker's own interval |
| SnapshotStore.AcceptedMetricsRoundTrip | internal/host/sqlite/host_metric_snapshot.go:98-106 | a metric is accepted exactly when its counters are below 2^63, and then read back as it was |
| SnapshotStore.CreateTimestamps | internal/host/sqlite/host_metric_snapshot.go:83-123 | one call leaves a host with the newest 500 of what it had and the submitted time, and other hosts alone |
| SnapshotStore.CreateIsAtomic | internal/host/postgres/host_metric_snapshot.go:290-355 | a failed call changes nothing; a successful one stores exactly what was submitted and changes no other retained row |
| SnapshotStore.CreateFailsExactly | internal/host/sqlite/host_metric_snapshot.go:83-123 | when a call fails: unknown host, duplicate time, unacceptable metric, or older than 500 others |
| SnapshotStore.CreateKeepsValid | migrations/sqlite/20260803121000_baseline.up.sql:136-156 | the schema's constraints and the limit of 500 survive every call |
| SnapshotStore.RetentionIsOfflineTop | internal/host/sqlite/host_metric_snapshot.go:83-123 | after any calls the times kept are exactly the 500 latest ever validly submitted, or all of them if they are fewer |
| SnapshotStore.RetainedIsFirstSubmitted | internal/host/postgres/host_metric_snapshot.go:290-355 | each snapshot kept holds, in order, the metrics of the first valid submission for its time |
| SnapshotStore.SnapshotRepository.CreateHostMetricSnapshot | internal/host/sqlite/host_metric_snapshot.go:83-123 | the transaction, with its loop, computes the call that the lemmas describe |
| SnapshotQueries.LoadMetrics | internal/host/sqlite/host_metric_snapshot.go:152-190 | in place, every record's metrics grow by exactly its own rows, unless some row is unreadable |
| SnapshotQueries.ListRecentSQLite | internal/host/sqlite/host_metric_snapshot.go:31-56 | each host's list holds its records in order, each with its own metrics |
| SnapshotQueries.ListRecentPostgres | internal/host/postgres/host_metric_snapshot.go:63-181 | the (host, index) position map gives the same |
| SnapshotQueries.ListHostMetricsBySnapshotID | internal/host/postgres/host_metric_snapshot.go:375-434 | the simple form decodes all rows or fails on an unreadable one |
| SnapshotQueries.BatchRefinesSingleQueries | internal/host/postgres/host_metric_snapshot.go:63-181 | a batch holds for each snapshot exactly its own query's rows, in order |
| SnapshotQueries.LoadedIsStored | internal/host/sqlite/host_metric_snapshot.go:152-190 | what a loader attaches is what was stored, and stored rows are always readable |
| SnapshotQueries.RankIsIndex | internal/host/sqlite/host_metric_snapshot.go:31-44 | a record's rank in its partition is its index in the host's listing |
| SnapshotQueries.RecentIsPrefix | internal/host/sqlite/host_metric_snapshot.go:20-56 | a limited listing is a prefix of the full one |
| SnapshotQueries.RecentIsFirstOfAll | internal/host/postgres/host_metric_snapshot.go:25-181 | end to end, the list for a host is the first k of its full listing with the same metrics |
| SnapshotQueries.RankedAreLatest | internal/host/sqlite/host_metric_snapshot.go:58-70 | the query by rank finds the newest record of each requested host, once |
| SnapshotQueries.DistinctOnAreLatest | internal/host/postgres/host_metric_snapshot.go:183-195 | so does the query by distinct hosts |
| SnapshotQueries.ListLatestSQLite | internal/host/sqlite/host_metric_snapshot.go:58-81 | each host's entry is its record with its own metrics |
| SnapshotQueries.ListLatestPostgres | internal/host/postgres/host_metric_snapshot.go:183-288 | reading, extending and writing back one snapshot per host gives the same |
| SnapshotQueries.LatestIsHead | internal/host/postgres/host_metric_snapshot.go:183-288 | end to end, a requested host is listed if and only if it has a snapshot, with the head of its full listing and its metrics |
| SnapshotQueries.QueriesHaveAnswers | internal/host/sqlite/host_metric_snapshot.go:20-70 | each of the queries that the other theorems assume answered has an answer, whatever the tables hold |
| HostTags.NormalizeTagsLoop | internal/host/service.go:684-699 | the loop with its seen set computes the normalised list |
| HostTags.NormalizeTagsIsTagSet | internal/host/service.go:684-699 | the list holds each distinct nonblank tag exactly once |
| HostTags.NormalizeTagsIsIdempotent | internal/host/service.go:684-699 | normalising again changes nothing |
| HostTags.NormalizedNamesAreChecked | migrations/postgres/20260624130100_add_host_tags.up.sql:1-8 | a normalised tag meets the checks of the tag table, and is kept as it is if and only if it fits the column |
| HostTags.MeetsChecksExactly | migrations/sqlite/20260803121000_baseline.up.sql:60-67 | the checks let a name through if and only if it is not empty, has no blank at an end and no capital |
| HostTags.HostRepository.SyncHostTags | internal/host/sqlite/host.go:204-222 | exactly the given tags are left on the host, other hosts keep theirs, no tag is renamed; a refused name changes nothing |
| HostTags.ServiceTagsSyncExactly | internal/host/service.go:109-121 | what the service passes on is stored if and only if every tag fits the column, and then exactly the tags asked for are left |
| HostTags.CountFilterExactly | internal/host/sqlite/host.go:46-66 | count(distinct) = len finds the hosts with every tag if and only if the list has no repetition |
| HostTags.FilterFindsExactlyTheTagged | internal/host/service.go:78-87 | through the service the filter is exact for every list |
| Columns.TrimmedIsNotCut | migrations/postgres/20260622133249_add_basic_hosts.up.sql:3-30 | a `varchar` column keeps a trimmed text as it is or refuses it, and never cuts it |
| SecretCipher.DecryptUndoesEncrypt | internal/host/secret_cipher.go:38-62 | the nonce-prefix framing is undone exactly |
| SecretCipher.KeyPairRoundTrip | internal/host/service.go:439-452 | a key pair survives encoding and encryption |
| SecretCipher.EncryptBuffered | internal/host/secret_cipher.go:38-49 | the buffer holds the nonce and then the ciphertext |
| HostService.Service.CreateHost | internal/host/service.go:109-121 | the host is stored with normalised tags, or nothing changes and the error says why |
| HostService.InsertHostExactly | internal/host/postgres/host.go:66-92 | a host is stored if and only if it has an address, its texts and tags fit their columns and the address is new; it is then as given, with its tags normalised |
| HostService.InputIsNotCut | internal/host/postgres/host_management_method.go:92-107 | a method is stored with its texts as they are, if and only if they fit |
| HostService.PostgresKeeps | migrations/postgres/20260622133249_add_basic_hosts.up.sql:3-30 | column by column, how long a text PostgreSQL keeps |
| HostService.CreateFailsExactly | internal/host/service.go:369-472 | creating a method succeeds if and only if nothing is wrong, and otherwise reports the first thing that is, in the order of the checks |
| HostService.SecretIsReadExactly | internal/host/service.go:191-225 | when reading a secret fails, and with which error |
| HostService.Service.ListHosts | internal/host/service.go:78-87 | exactly the hosts that carry every requested tag, newest first |
| HostService.Service.CreateSSHPasswordManagementMethod | internal/host/service.go:369-406 | the checks in order, the stored row, or no change |
| HostService.Service.CreateSSHKeyManagementMethod | internal/host/service.go:417-472 | the same for key pairs |
| HostService.Service.GetHostManagementMethodSecret | internal/host/service.go:191-225 | the secret of the host's own method, or the error |
| HostService.Service.UpdateHostManagementMethod | internal/host/service.go:484-557 | the row is replaced with the new fields and the merged secret, or nothing changes |
| HostService.CreatedSecret | internal/host/service.go:369-472 | a new method has the fields supplied, trimmed and with port 22 if none is given, and its secret decrypts to what was supplied |
| HostService.UpdatedSecretMerges | internal/host/service.go:504-542 | after an update each component is what was supplied if not blank, and otherwise what it was |
| HostService.UpdateTouchesOneMethod | internal/host/service.go:484-557 | an update changes one row: its identity stays, name, username, port and description become those supplied, and its secret is merged |
| HostService.UpdateSucceedsExactly | internal/host/service.go:484-557 | when an update succeeds, if and only if, the lengths of the columns included |
| HostService.DoAllIsValid | internal/host/service.go:109-557 | after any run of calls every secret decrypts and every field is trimmed |
| HostService.SecretIsLastSupplied | internal/host/service.go:484-557 | over any run each component is the last nonblank value supplied for it |
| HostService.FieldsAreLastSupplied | internal/host/service.go:544-550 | over any run a method's name, username, port and description are those of the last successful call about it |
| HostService.IdentityNeverChanges | internal/host/service.go:484-557 | over any run a method keeps its host and type |
| HostService.WrongHostIsRefused | internal/host/service.go:197-200 | a call with the wrong host is refused |
| HostService.SelectFindsTagged | internal/host/sqlite/host.go:46-86 | the query by count lists exactly the tagged hosts |
| HostImport.ExportHosts | internal/web/handlers/hosts.go:951-1016 | the loops export every host with its readable methods and warn of each other |
| HostExport.ExportExactly | internal/web/handlers/hosts.go:951-1016 | of any store, readable or not: one item for each host, newest first, with its name, description, address and sorted tags, and the methods and warnings of the next two rows |
| HostExport.MethodsAreExported | internal/web/handlers/hosts.go:973-1001 | a host's item has exactly its rows whose secret can be read, in order, each with its fields and that secret; the others are warned of, and together they are all its rows |
| HostExport.WarningsExactly | internal/web/handlers/hosts.go:976-987 | over all hosts, every row whose secret cannot be read is warned of exactly once, with its host |
| HostImport.ValidateImportedManagementMethods | internal/web/handlers/hosts.go:1157-1179 | the first method refused, if any |
| HostImport.ImportHosts | internal/web/handlers/hosts.go:1018-1108 | both phases, with their loops and counters, compute the import that the lemmas describe |
| HostImportLaws.ScreeningExactly | internal/web/handlers/hosts.go:1038-1080 | phase one accepts if and only if every item is named and addressed and every first item with a new address has importable methods; it keeps exactly those, in order |
| HostImportLaws.RefusedExactly | internal/web/handlers/hosts.go:1038-1080 | a refused payload is refused for its first unacceptable item, and the reply names it and its first method that cannot be imported |
| HostImportLaws.NothingIsLeftOut | internal/web/handlers/hosts.go:974-990 | a well-formed store is exported without warnings |
| HostImportWrites.ImportMethodExactly | internal/web/handlers/hosts.go:1181-1212 | a method that phase one let through fails exactly when it does not fit its columns or no nonce is drawn; none of the service's own checks can fail |
| HostImportWrites.CleanedExactly | internal/web/handlers/hosts.go:1142-1155 | what is stored of an imported method: trimmed texts, the name of its type and port 22 where none is given, and only the secret of its type |
| HostImportWrites.ImportAllExactly | internal/web/handlers/hosts.go:1082-1097 | phase two fails exactly at the first host or method, in the order of writing, that the database does not keep or for which no nonce is drawn; what comes before is stored and nothing after it; existing hosts stay as they were |
| HostImportWrites.NoFailureExactly | internal/web/handlers/hosts.go:1082-1097 | it does not fail if and only if no candidate does, given the addresses taken before it |
| HostImportWrites.NoFailureAtExactly | internal/web/handlers/hosts.go:1181-1212 | a candidate does not fail if and only if its host is kept and so is each of its methods |
| HostImportWrites.StopsExactly | internal/web/handlers/hosts.go:1082-1097 | where a failed import stops: all candidates before k whole, candidate k with its methods before j or not at all, none after |
| HostImportOutcome.ImportExactly | internal/web/handlers/hosts.go:1018-1108 | the whole import: a refused payload writes nothing, a failed one what came before the first thing not kept; imported + skipped = received, the first item with each new address wins |
| HostImportOutcome.ImportChangesExactly | internal/web/handlers/hosts.go:1018-1108 | the store changes if and only if the payload is accepted and its first item with a new address can be stored as a host, whatever comes of the rest |
| HostImportOutcome.BlockedForGood | internal/web/handlers/hosts.go:1053-1065 | a host that the database does not keep fails its payload again and again, without a change |
| HostImportOutcome.LostMethodsStayLost | internal/web/handlers/hosts.go:1053-1060 | after a failure at a method, importing the payload again skips the host, whose other methods never come |
| HostImportOutcome.SQLiteKeepsEverything | migrations/sqlite/20260803121000_baseline.up.sql:39-88 | on SQLite, with nonces, a payload is imported if and only if phase one accepts it |
| HostImportOutcome.PartialImport | migrations/postgres/20260622133249_add_basic_hosts.up.sql:21-32 | on PostgreSQL a username of 256 characters leaves a host without its method for good |
| HostImportOutcome.BlockingTag | migrations/postgres/20260624130100_add_host_tags.up.sql:1-8 | on PostgreSQL a tag of 65 characters fails its payload for good, with the host before it imported |
| HostImportOutcome.ImportAddsContents | internal/web/handlers/hosts.go:1082-1097 | what the store says after an accepted payload is what it said before and what the candidates say, cleaned, up to the first that is not kept |
| HostImportOutcome.ImportAgainChangesNothing | internal/web/handlers/hosts.go:1038-1065 | importing a payload again changes nothing, and imports 0 if and only if the database keeps its new addresses as they are |
| HostRoundTrip.CleanedRow | internal/web/handlers/hosts.go:1142-1155 | trimming, the default name and the default port leave a stored method alone |
| HostRoundTrip.ExportThenImport | internal/web/handlers/hosts.go:951-1108 | export and import into an empty store, under any key and on either database, brings back every host and method up to identifiers and order, if and only if no host's name is blank and everything fits |
| HostRoundTrip.BlankNameIsRefused | internal/web/handlers/hosts.go:894-910 | a store with a blank name is one call away, and its export is refused |
| HostRoundTrip.MovedTwice | internal/web/handlers/hosts.go:951-1108 | moved to a server that can keep it and back, the export is the same |
| HostsPage.FilterHostsForHostsPage | internal/web/handlers/hosts.go:310-342 | the loop keeps the hosts that meet every active filter |
| HostsPage.SortHostsForHostsPage | internal/web/handlers/hosts.go:344-387 | in place, the stable sort of what was there |
| HostsPage.ComparatorIsStrictWeak | internal/web/handlers/hosts.go:353-386 | for every key and direction the comparator is a strict weak order |
| HostsPage.PageExactly | internal/web/handlers/hosts.go:310-387 | the page is the one stable sorted arrangement of exactly the hosts that meet the filters |
| HostsPage.PageIsOrdered | internal/web/handlers/hosts.go:339-390 | by the hosts' own data, for each of the eight keys and both directions: of two places the earlier has the smaller value, or the earlier name, or the earlier place in the list |
| HostsPage.KeptExactly | internal/web/handlers/hosts.go:310-337 | the kept hosts are those at the places of the list that meet the filters, each once and in order |
| HostsPage.MeetsExactly | internal/web/handlers/hosts.go:318-335 | a host is kept if and only if it has a wanted status, answers to a wanted filter and the search is found |
| HostsPage.StatusExactly | internal/web/handlers/hosts.go:449-463 | which of the five statuses a host has, by thresholds, age and what could report |
| HostsPage.FiltersExactly | internal/web/handlers/hosts.go:417-429 | which management filters a host answers to |
| HostsPage.SearchExactly | internal/web/handlers/hosts.go:431-447 | a search finds a host if one of its fields contains it, whatever the case; and without a blank only then |
| StableSort.SortIsStable | internal/web/handlers/hosts.go:353 | the sort is ascending, stable and a permutation |
| StableSort.StableSortIsUnique | internal/web/handlers/hosts.go:353 | no other arrangement is |
| CliResolve.Walk | internal/cli/resolve.go:64-87 | the loop computes the walk that the lemmas describe |
| CliResolve.WalkSplits | internal/cli/resolve.go:64-87 | every argument list splits into a path of child names and an untouched rest, or is stuck at an unknown name |
| CliResolve.SplitDecides | internal/cli/resolve.go:64-87 | and the split decides the walk |
| CliResolve.HasHelpFlag | internal/cli/resolve.go:89-96 | whether a help flag occurs |
| CliResolve.ResolveCommand | internal/cli/resolve.go:14-62 | the branches compute the resolution that the lemmas describe |
| CliResolve.HelpFormsAgree | internal/cli/resolve.go:14-62 | for every valid path the ways of asking for help name the same command |
| CliResolve.HelpTakesOnlyPaths | internal/cli/resolve.go:22-38 | help accepts a topic if and only if it is a valid path |
| CliResolve.RunsExactly | internal/cli/resolve.go:40-62 | a command runs if and only if a path leads to it and the rest, which it gets, asks for no help |
| CliResolve.SplitResolves | internal/cli/resolve.go:40-62 | what every command line without a leading help comes to: an error with the right usage, help of the right command, or running it |
| CliResolve.HelpResolves | internal/cli/resolve.go:14-38 | and what an empty one and one with a leading help come to |
| ByteFormat.FormatBytes | ui/pages/hosts_page/model/host_metrics.go:58-72 | for every uint64 the loop ends without overflow at the scale that fits, whose suffix exists |
| ByteFormat.ScaleIsUnique | ui/pages/hosts_page/model/host_metrics.go:64-71 | no other scale fits |
| Text.TrimDropsOnlySpaces | internal/host/service.go:686 | trimming takes nothing but spaces, from the ends only |
| Text.BlankMeansAllSpace | internal/host/service.go:687-689 | a text is blank exactly when it is all space |
| Text.NormalizedIsIdempotent | internal/host/service.go:686 | trimming and lower-casing twice is doing it once |
| Text.LowerExactly | internal/host/service.go:686 | lower-casing turns each capital into its small letter and changes nothing else |
| Text.SpacesAre | internal/host/service.go:686 | which characters are trimmed |
| Text.BeforeIsLexicographic | internal/web/handlers/hosts.go:353-386 | texts compare by their first difference |

## Left out

- Lower-casing outside ASCII, and texts that are not valid UTF-8.
- Identifiers: a UUID is a number, and new ones are taken from a counter, where the code draws them at random.
- Timestamps are numbers in the order of the database column; hosts and methods are listed in order of creation, so two created at the same instant are not modelled.
- The AEAD, JSON, YAML, UUID and duration libraries beyond the laws in `Lawful`; the SQL drivers beyond the constraints, column types and orders the statements use, and their failures for any other reason.
- What a PostgreSQL column changes or refuses, apart from the zone of an address in `inet` and, in `varchar(n)`, the length and the character zero.
- HTTP routing, form parsing, websockets, templates and styles; of rendering only the selection of fragments.
- DashboardPipeline.EverySignalledEventIsShown: a client whose rendering failed is closed and not promised anything, because the code drops its connection.
- Signalling in DashboardPipeline is one step; DashboardSignalRace has the selects one by one, where losing is possible.
- SnapshotQueries.ListRecentSQLite: no rows are passed for no records, since the code makes no query then; likewise in ListLatestSQLite.
- SnapshotQueries.ListLatestPostgres: it is given one record per host, which the query is proved to return.
- Updating and deleting hosts, deleting methods, and assigning a monitoring agent: reading and writing back a host is not atomic in the code and nothing is promised of it.
- Publishing events after a host or method was written, and logging.
- HostService.IdentityNeverChanges: a run is any sequence of calls that create hosts and create or update methods.
- CliResolve.Walk: commands form a tree, so being the root is being at depth zero; nil children, which match no name, are left out.
- AgentConfigDir.LoadConfigsFromDir: the names in a directory are distinct; the errors of reading the directory itself are not modelled, and a path is the file's name.
- Two imports at once, and changes to the store during one.
- HostImport.ExportHosts: a warning names its host and method, without the text that formats them.
- The decoding of the two payload shapes an import accepts, and a payload without a hosts array.
- HostsPage.ComparatorIsStrictWeak: metrics are real numbers, so NaN, for which the comparator is no order, does not occur.
- The parsing of the page's query string.
- `runtime.Goexit` inside a collector or an instance.
- EventBus.InMemoryEventBus.Publish: a handler that publishes again from within, and several publishers at once.
- Display formatting: percentages, relative times, sparklines, and the decimal quotient that `formatBytes` prints.
- Tokens, sessions, users, profiles, passwords, logging, SSH, ping, and the agent's HTTP client.
