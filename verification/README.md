# Transit API: protocols, pipelines and stores

A Dafny model of the stateful parts of a NestJS transit API, with proofs about every run of them.
Verify it with `dafny verify dfyconfig.toml`.

The database and Redis are in-memory maps and sequences. One database or Redis call is one atomic step; which
calls fail, and which take effect but lose their reply, is a parameter, and so are generated identifiers and the
clock. A class has the fields the service updates and methods that update them in the same order; each method is
proved equal to a function of the old state. The theorems are lemmas about those functions, mostly over arbitrary
sequences of steps. For each main operation a second module or section says in figures what it answers and stores
(`RefreshAnswers`, `LineFeeds`, `DailySums`, `AuditRows`, `ArchiveContents`, `CacheAnswers`, `AlertRules` and the like), without
the functions that compute it.

## What is modelled

- `RefreshRotation`, `RefreshAnswers`, `RefreshExpiry`: session rows rotated in place, with a 30 s replay marker and a
  long-lived reuse marker per rotated token. `Redis` is a keyspace whose entries expire.
- `HistoryAggregate`, `HistoryLedger`, `SnapshotRow`, `SampleEffects`, `FeedReadings`, `LineFeeds`, `Percentile`, `Totals`: one
  five-minute sample of the realtime feeds, aggregated per mode and line, what each feed item adds, and the books it must
  balance.
- `DailyRollup`, `RollupRuns`, `DailySums`, `BackfillRange`: the daily rows written twice over, by chunked upserts of each sample and by a
  rebuild from the stored snapshots, all of them or those of a range.
- `CancellationDedup`, `FiringOutcomes`, `DayCounts`, `OverlappingSamples`: counting a cancelled trip once per day across samples, behind a lock
  that is never released but expires.
- `AuditPagination`, `AuditFilters`, `AuditQueue`, `AuditRows`, `AuditRedaction`, `RedactedKeys`, `RedactionRules`, `AuditText`,
  `JsonValues`: the audit store's keyset pages, its best-effort queue with replay, the rows it stores, and what it keeps of an
  arbitrary value.
- `CanonicalJson`, `AuditArchive`, `ArchiveContents`, `ArchiveOrder`, `ArchiveChain`, `ArchiveBreaks`, `ArchiveVerification`,
  `ArchivePurge`, `ArchivePlatform`: the sealed day archives and what they hold, their chain of manifest checksums, their
  verification, and the SQL purge of archived events.
- `SingleFlight`, `CacheAnswers`, `RedisLock`: the two cache protocols, as steps of any number of callers or processes.
- `RateLimiter`: the slot queue and the retry loop of the outgoing client.
- `GtfsIngest`, `IngestRules`, `StreamCounts`: reducing, batching and upserting timetable files, and the per-feed replace in one transaction.
- `ScheduledTrips`: how many trips the timetable schedules per mode and line on a day.
- `LineAlerts`, `AlertRules`: the commute scan, the alert table and the pushes.
- `StopTimeMerge`, `TripMatcher`: the static timetable merged into live updates, and the layered trip matcher.
- `Basics`, `Sorting`, `Wrappers`: shared helpers.

## Where a promise fails, and exactly when

- A rotation moves the row on before its cache writes. A retry within 30 s then gets the same pair exactly when the first of
  them, the grace marker, went through (`RetrySucceedsIff`); without it the token is refused for ever
  (`RetryAfterLostGraceMarker`).
- A daily row is the sum of all its snapshots exactly when the last rebuild that read any of them read all stored by then
  (`RowExactIff`, `BackfillAgreesIff`): a rebuild that cuts through a day, or comes after pruning, leaves a partial sum that
  later samples do not repair. A from/to range cuts through days because its bounds are fixed at +10:00
  (`RangeMissesIff`, `RangeDamagesIff`).
- Over a whole day, whatever fails, the day's sum of cancellations, and likewise of skips, equals the number of stored ids
  exactly when no stored sample listed an unseen trip twice or lost the write of a list it had ids for
  (`SumMatchesListIff`); it equals the number of distinct trips counted exactly when none was recounted
  (`SumIsDistinctIff`). A sample that outlives the 240 s lock can overlap others; the same then holds with each sample
  judged by the list it read (`OverlapsCountIff`, `OverlapCountsRightIff`).
- A high-risk audit event without an acceptable reason is queued, refused by the replay job as well, and then holds up
  everything behind it (`RefusedEventIsQueued`, `RefusedHeadBlocks`, `QueueDrainsIff`). A replayed row lacks the columns
  that its request would have filled in (`ReplayedRowIff`), and may be refused where its request accepted it
  (`RefusedOnlyInReplayIff`).
- The lock excludes a second process exactly while its holder is within its own lifetime (`EntryDespiteHolderIff`),
  and one late release hurts others that are punctual (`OverrunHurtsPunctual`).
- Seals are final and links sound in every state of a run exactly when no call takes a seal back: its update takes effect
  unacknowledged and the failure mark then lands (`InvariantIff`). After such a call the next archive is linked to one that
  is not verified (`NextLinkBroken`, `LinkSoundIff`), and a later call writes the checksum over (`SealReplacedIff`).
- The purge keeps every event online or in stored archive data as long as no call takes a seal back, no event is recorded
  into a window already sealed and nothing outside touches sealed data (`NothingLost`). One that can take all that is due
  loses an event exactly when the event is due and in no stored archive (`PurgeLosesIff`, `LateEventLostIff`). Between a
  seal taken back and the next verification a late event counts as in time, and can be lost (`RecordedAfterTakenBackIff`).
- The reported row count of a streamed file is off by the statements still unanswered at its end and by keys in several
  batches (`ReportedCountIff`); it is right whatever the timing exactly when no key spans batches and the last batch
  is partial (`AlwaysRightIff`): a file of 500 stop times may be reported as none (`OneBatchReportsNothing`). A refused
  statement that nobody waits for undoes the ingest and lets it report success (`RefusalMissedIff`, `ProcessZip`).
- A scan that a throwing upsert or push ends leaves the alerts of later lines wrong exactly as `ScanRightIff` says.
- The canonical form decides meaning exactly when the key comparison tells different keys apart (`SameFormIff`,
  `TiedKeysKeepTheirOrder`); `localeCompare` is used for it.
- The merge carries every live update exactly when no two name the same static stop (`LosslessIff`).
- A day's scheduled count is the number of trips that run exactly when no counted service is both on by the weekly calendar
  and listed as added (`CountIsExactIff`).
- A property under a sensitive key shows its value exactly when the cut of the key at 100 characters takes the sensitive
  word away (`SensitiveKeyShowsIff`).

Three lesser facts follow from one definition each and are stated for reference: a refresh token's expiry is honoured shifted
by the process's offset from UTC (`ExpiryExactIff`); `getOrSet` frees a key exactly when its factory did not throw
synchronously (`FreedIffNoSyncThrow`; that it stays stuck over every run is `SyncThrowSticks`); an exact id beats every
other match (`ExactIdWins`).

## Model

| member | source | states |
|---|---|---|
| `RefreshRotation.SupabaseAuthService.ExchangeSupabaseToken` | src/auth/supabase-auth.service.ts:243-310 | a session lifetime outside 300 to 86400 s is refused and nothing changes; otherwise one new session row, and no other, appears with both expiries counted from now |
| `RefreshRotation.SupabaseAuthService.RefreshSession` | src/auth/supabase-auth.service.ts:312-449 | the rows, both markers and the answer after the step-by-step updates are those of the specification, for every point at which a cache write may fail |
| `RefreshRotation.StepKeepsInv` | src/auth/supabase-auth.service.ts:312-449 | every exchange, refresh, deletion and tick keeps: live refresh tokens unique, rotated tokens not live, and a marker in the cache for exactly the rotations that wrote one, with that rotation's reply, owner and deadline |
| `RefreshRotation.RunKeepsDeadTokensDead` | src/auth/supabase-auth.service.ts:403-416 | over any run a refresh token that was issued and stopped being live is never live again, and what was recorded of a rotation never changes |
| `RefreshRotation.RefreshKeepsRowIds` | src/auth/supabase-auth.service.ts:346-362 | a refresh keeps the set of session row ids unless it detects reuse, and then removes exactly that user's rows; every other row is untouched |
| `RefreshExpiry.ExpiryExactIff` | src/auth/supabase-auth.service.ts:367-381 | a stored refresh expiry is honoured shifted by the process offset from UTC: the verdict is that of the stored time exactly unless the clock lies between the stored and the shifted moment |
| `RefreshRotation.ReplayOfRotatedToken` | src/auth/supabase-auth.service.ts:324-362 | presenting a rotated token has exactly three outcomes, chosen by the two recorded deadlines: the recorded reply with no change, revocation of that user's sessions only, or a plain refusal |
| `RefreshRotation.ReplayAfterAnyRun` | src/auth/supabase-auth.service.ts:312-449 | after a successful refresh and any run, replaying the old token returns the identical pair for 30 s and changes nothing; then, within the refresh lifetime, it leaves that user and nobody else without sessions; later it is just refused |
| `RefreshRotation.RetryAfterLostGraceMarker` | src/auth/supabase-auth.service.ts:407-436 | if the first cache write after the row update fails, the old token is refused in every later state, within the grace window and after it |
| `RefreshRotation.RetrySucceedsIff` | src/auth/supabase-auth.service.ts:407-436 | after a rotation, whether it answered or failed at a cache write, and any run, presenting the old token again within 30 s returns the pair of that rotation exactly when the first cache write went through; nothing changes either way |
| `RefreshAnswers.LiveTokenAnswers` | src/auth/supabase-auth.service.ts:364-449 | a refresh with a live token: refused with nothing changed when its refresh time is missing or past; otherwise the row is rotated in place to the new pair and both new expiries, and the caller gets that pair, the session expiry and the role exactly when no cache write fails and the lifetime is positive |
| `RefreshAnswers.LiveTokenMarks` | src/auth/supabase-auth.service.ts:403-436 | the two markers it leaves for the old token: which are written, with what, and until when (30 s and the refresh lifetime), and no other marker |
| `RefreshAnswers.UnknownTokenRefused` | src/auth/supabase-auth.service.ts:324-362 | a token that is neither live nor marked is refused and nothing changes |
| `RefreshAnswers.ExchangeAnswers` | src/auth/supabase-auth.service.ts:243-310 | when an exchange is refused, and every field of the one row it adds otherwise |
| `Percentile.NearestRank` | src/history/percentile.util.ts:1-6 | up to 100 the result is a member of the list, and the smallest number that at least max(1, ceil(p n / 100)) of the values do not exceed |
| `Percentile.Monotone` | src/history/percentile.util.ts:1-6 | a larger percentage never gives a smaller result |
| `HistoryAggregate.AggregateHistorySample` | src/history/history-aggregate.util.ts:138-293 | the loops that mutate accumulators, maps and id lists compute the recursive specification of a sample, and the feed is stale exactly when some update has a timestamp and the epoch and every timestamp are more than ten minutes old |
| `HistoryAggregate.CountTrip` | src/history/history-aggregate.util.ts:179-207 | the branches that change one accumulator and append to the two id lists compute what the specification says of one trip update |
| `SampleEffects.TripTouchesItsLine` | src/history/history-aggregate.util.ts:146-155 | one trip update changes exactly the entry of its mode and line, created with the scheduled count if it is not there: one more tracked trip, the cancellation, skip or delay it stands for, and nothing else of another line |
| `HistoryAggregate.AffectedLines` | src/history/history-aggregate.util.ts:242-262 | the nested loops over entities, trips, stops and routes compute the specified list of lines |
| `SampleEffects.AlertLinesExact` | src/history/history-aggregate.util.ts:242-262 | an alert is counted once for each line that some route reached by some informed entity (by itself, by its trip's last route in the feed, by the timetable, by its stop) resolves to and for no other line; when no route is reached, for NETWORK alone |
| `SampleEffects.LiveRouteIff` | src/history/history-aggregate.util.ts:209-215 | the feed's route of a trip is the one its last update with a route gave |
| `FeedReadings.TripAdds` | src/history/history-aggregate.util.ts:117-207 | what one trip update adds, in figures: its line, its delay (its own, else the last stop's departure, else arrival, else 0), early below 0, late above 300 s, peak from 7 to 9 and 16 to 18 o'clock, cancellations and skips counted once |
| `FeedReadings.VehicleAdds` | src/history/history-aggregate.util.ts:209-234 | the line a vehicle counts for (its route, else its trip's last route in the feed, else the timetable's), its occupancy score from 0 to 4 and whether it is crowded |
| `FeedReadings.CountsIff` | src/history/disruption.util.ts:20-35 | an alert counts exactly when it is a warning or severe and has no periods or is within one of them, bounds included |
| `FeedReadings.AlertAdds` | src/history/history-aggregate.util.ts:262-281 | an alert adds to each of its lines one disruption, one under its effect, and five minutes times the effect's weight, rounded half up |
| `FeedReadings.SampleSays` | src/history/history-aggregate.util.ts:138-293 | the sizes, the hour and the staleness a sample reports: stale exactly when its updates have times and none is at most ten minutes old |
| `LineFeeds.LineIsItsFeed` | src/history/history-aggregate.util.ts:138-293 | every line's entry in any sample is the account of its own part of the feeds: the sums over exactly the trip updates, vehicles and counting alerts that resolve to it, with its delays in feed order, and it is listed exactly when there are any |
| `LineFeeds.EventsExact` | src/history/history-aggregate.util.ts:264-281 | the disruption events are exactly those of the counting alerts, one for each line of an alert |
| `HistoryAggregate.NewestTimestamp` | src/history/history-aggregate.util.ts:162-170 | whether any update has a timestamp, and the largest of them (0 if none is positive) |
| `HistoryLedger.SampleLedger` | src/history/history-aggregate.util.ts:138-293 | over all lines of any sample, tracked trips add up to the trip updates, cancelled and skipped to the newly listed ids, vehicles to the vehicles, disruptions to the disruption events; and each line's peak and off-peak parts, delay totals, worst delay and effect counts agree with its own lists |
| `HistoryLedger.TripsLedger` | src/history/history-aggregate.util.ts:179-207 | the part of the ledger that the trip updates alone make, for every prefix of the feed |
| `HistoryLedger.AlertsLedger` | src/history/history-aggregate.util.ts:236-281 | every disruption event is counted once on one line, and effect counts add up to disruptions |
| `SnapshotRow.PercentilesOrdered` | src/history/history-aggregate.util.ts:314-316 | every stored row has p50 <= p90 <= maximum delay, and no negative maximum |
| `SnapshotRow.RowDrift` | src/history/history-aggregate.util.ts:300-313 | the weight a row adds to the day's delay sum is within half its active trips of the true sum of non-negative delays, and exactly 0 when no trip is active |
| `SnapshotRow.DriftBound` | src/history/history-sampler.service.ts:293 | over any number of samples the stored delay sum differs from the true one by at most half the total of active trips |
| `SnapshotRow.RowsDistinct` | src/history/history-aggregate.util.ts:295-303 | when neither modes nor lines contain a bar, no two rows of a sample share mode and line |
| `DailySums.StoredAs` | src/history/history-aggregate.util.ts:295-333 | column by column what a line's accumulator is stored as: counts unchanged, means rounded half up, the 50th and 90th percentile by rank, and the daily-only figures |
| `DailyRollup.HistoryStore.Persist` | src/history/history-sampler.service.ts:231-362 | a sample commits exactly when no chunk of fifty holds a (day, mode, line) twice; then its snapshots are stored, the daily rows are as if upserted one at a time and snapshots older than thirty days are gone; otherwise nothing changes |
| `DailyRollup.UnprunedExact` | src/history/history-sampler.service.ts:351-355 | pruning keeps exactly the stored snapshots of the last thirty days, so never the sample being stored |
| `DailyRollup.HistoryStore.BackfillFromSnapshots` | src/history/history-backfill.service.ts:61-164 | grouping by a joined key and splitting it again overwrites one row per bucket with that bucket's sums |
| `DailyRollup.RunMatches` | src/history/history-sampler.service.ts:276-349 | after any run of persisted samples each daily row holds the sum (or maximum) over exactly its own snapshots, and there is a row for a key exactly when a snapshot has it |
| `DailyRollup.TotalPermuted` | src/history/history-backfill.service.ts:63-107 | the sums do not depend on the order in which the snapshots are read |
| `DailyRollup.BackfillWrites` | src/history/history-backfill.service.ts:109-164 | the rebuild leaves each mentioned key with the sum of the selected snapshots and every other row as it was |
| `DailyRollup.BackfillAgreesIff` | src/history/history-backfill.service.ts:21-164 | the rebuild leaves a day's rolled-up columns as the incremental upserts made them exactly when none of that key's snapshots was missed (pruned or cut off) or none was selected |
| `RollupRuns.RowExactIff` | src/history/history-backfill.service.ts:21-164 | over any run of samples, prunings and rebuilds a key has a row exactly when a snapshot of it was ever stored, and the row is the sum of all of them exactly when the last rebuild that read any of them read all stored by then |
| `RollupRuns.StoreIsPersist` | src/history/history-sampler.service.ts:231-362 | a sample of such a run does to the snapshot table and the daily rows what the transaction does |
| `RollupRuns.RangeDamagesIff` | src/history/history-backfill.service.ts:25-35 | which rows a from/to rebuild damages: those with snapshots on both sides of a cut, which in daylight saving time falls after the first hour of the first day and in the first hour after the last day, and in standard time in the last second of the last day |
| `BackfillRange.RangeMissesIff` | src/history/history-backfill.service.ts:25-35 | exactly which instants of the named local days a range misses and which others it takes in: in standard time the last second of the last day is missed; in daylight saving time the first hour of the first day is missed and the hour after the last day, but its last second, is taken in |
| `BackfillRange.RangeSays` | src/history/history-backfill.service.ts:25-35 | the two bounds of a range in milliseconds, and what a local day is |
| `DailyRollup.BackfillAddsNoRow` | src/history/history-backfill.service.ts:109-164 | the rebuild creates no row the samples had not created |
| `DailyRollup.AggregatedRowsQualify` | src/history/history-aggregate.util.ts:295-333 | the rows of every aggregated sample meet the non-negativity the agreement needs, and its bar-free keys given bar-free modes and days |
| `DailySums.EveryColumn` | src/history/history-sampler.service.ts:271-349 | over any run of samples, prunings and rebuilds, every column of every daily row: peak figures and counts by effect are the sums over all samples stored and survive rebuilds; every other column is the sum (for the longest delay and the timetable size the maximum) over the snapshots of the last rebuild that read one of the key and all samples since, occupancy and disruption minutes of a rebuild being estimated from the snapshots |
| `CancellationDedup.HistorySamplerService.Sample` | src/history/history-sampler.service.ts:71-229 | one firing: the lock, the two seen lists, the store and the outcome are those of the specification, with a failure possible at the transaction and at either list write |
| `CancellationDedup.FireKeepsDayInv` | src/history/history-sampler.service.ts:114-176 | each firing keeps the stored list equal to the set of trips counted and the day's sum equal to its size |
| `CancellationDedup.WholeDayCounts` | src/history/history-sampler.service.ts:114-176 | over any run of firings that do not overlap, in one day of up to 25 hours, the cancelled (and skipped) counts of the day's rows add up to the number of distinct trips counted, and the stored list is that set |
| `DayCounts.SumMatchesListIff` | src/history/history-sampler.service.ts:114-176 | for cancellations and for skips, over any run of firings in a day, whatever fails: the day's sum never falls below the number of stored ids, and equals it exactly when no stored sample listed an unseen trip twice or lost the write of a list it had ids for (the skipped list also by the failing write before it) |
| `DayCounts.SumIsDistinctIff` | src/history/history-sampler.service.ts:114-176 | for both, over any run of firings in a day, whatever fails: the day's sum is never below the number of distinct trips counted, and equals it exactly when no stored sample listed an unseen trip twice, or one counted before but missing from the list |
| `DayCounts.ExcessMoves` | src/history/history-sampler.service.ts:114-176 | one committed sample never lets the list catch up with the sum, and keeps the distance exactly under that sample's own condition |
| `DayCounts.OverlapCountsRightIff` | src/history/history-sampler.service.ts:74-81 | two samples that both read the list before either wrote it add the distinct unseen trips exactly when neither feed lists one twice and no unseen cancelled trip is in both |
| `OverlappingSamples.OverlapsCountIff` | src/history/history-sampler.service.ts:71-176 | over any interleaving of the reads, commits and list writes of any number of samples in a day, whatever is lost: the day's sum is never below the number of distinct trips counted, and equals it exactly when each committed sample listed no trip twice and none counted by then but absent from the list it had read |
| `OverlappingSamples.FiringIsFourSteps` | src/history/history-sampler.service.ts:71-176 | the four steps of one undisturbed sample leave the rows and lists that one firing leaves |
| `CancellationDedup.AdmittedApart` | src/history/history-sampler.service.ts:74-81 | two samples that get past the never-released lock start more than 240 s apart, over any run of any number of replicas |
| `FiringOutcomes.FiringSays` | src/history/history-sampler.service.ts:74-176 | one firing in figures: nothing while the lock is readable; otherwise the lock is taken for 240 s and the answer is decided by the feed's staleness, its lines, the transaction and the two list writes |
| `FiringOutcomes.StoredSays` | src/history/history-sampler.service.ts:131-155 | after a stored sample the rows are upserted, and each list is what was read, every id once, and the new ids, for 26 hours, unless its write is lost |
| `FiringOutcomes.UnstoredSays` | src/history/history-sampler.service.ts:114-137 | any other firing leaves rows and lists as they were |
| `AuditPagination.PageSplits` | src/audit/audit.service.ts:124-145 | each matching row beyond a cursor is either on the page or beyond the page's own next cursor, never both; with no next cursor all are on the page |
| `AuditPagination.SelectedIsSuffix` | src/audit/audit.service.ts:303-314 | the rows selected for the cursor of the k-th row are the descending listing without its first k rows |
| `AuditPagination.WalkIsComplete` | src/audit/audit.service.ts:124-145 | following the cursors over a fixed table returns every matching row once, in descending order of time and sequence, in max(1, ceil(n / limit)) pages |
| `AuditPagination.AppendsLoseNothing` | src/audit/audit.service.ts:124-145 | with rows appended between pages, a finished walk returns every row present throughout exactly once |
| `AuditPagination.CollectedBeyond` | src/audit/audit.service.ts:303-314 | a walk over changing tables never returns a row twice, nor one that does not match or is not beyond the starting cursor |
| `AuditPagination.NextCursorRefusedIff` | src/audit/audit.service.ts:368-400 | a cursor the service issued is refused exactly when its sequence number is beyond the safe integers |
| `AuditFilters.WalkReturns` | src/audit/audit.service.ts:276-317 | an event is on some page of a walk exactly when it is in the table, not before from, not after to, and equal to every filter that is given and not empty; the pages together are newest first |
| `AuditFilters.PagesFull` | src/audit/audit.service.ts:124-145 | every page but the last has the requested number of rows, fifty by default |
| `AuditFilters.AcceptedIff` | src/audit/audit.service.ts:319-366 | a query is accepted exactly when its dates are readable, in order and at most ninety days apart, its limit from 1 to 200, its four enumerated filters known values and no filter longer than 1000 characters |
| `AuditFilters.ComplaintOrder` | src/audit/audit.service.ts:319-400 | which complaint a refused query gets, the cursor being looked at last |
| `AuditText.BoundedIdempotent` | src/audit/audit.redaction.ts:10-12 | bounding a text again, with the same or a larger limit, changes nothing |
| `AuditQueue.AuditService.RecordEvent` | src/audit/audit.service.ts:203-274 | an event is stored, with what it does not say of itself filled in from the request and the clock, unless its reason is refused or the database fails; a second insert of an id leaves the table as it is |
| `AuditQueue.AuditService.RecordBestEffort` | src/audit/audit.service.ts:72-93 | a failed insert goes to the queue, and a failed enqueue is reported as a gap, for every combination of failures and lost replies |
| `AuditQueue.AuditService.RetryQueued` | src/audit/audit.service.ts:95-122 | the replay loop stops at the first entry that is not both recorded and acknowledged and reports how many it completed |
| `AuditQueue.ReplayKeeps` | src/audit/audit.service.ts:95-122 | the entries completed are a prefix of those read, an entry leaves the queue only if it was read and its row exists, and nothing else leaves |
| `AuditQueue.NothingLost` | src/audit/audit.service.ts:72-122 | over any run of failures, lost replies and retries there is at most one row per event id, rows are never changed, and every best-effort event is in the table, in the queue, or was reported as a gap |
| `AuditQueue.HealthyReplay` | src/audit/audit.service.ts:95-122 | with everything healthy a retry completes and removes exactly the entries before the first one whose reason the job refuses |
| `AuditQueue.QueueDrainsIff` | src/audit/audit.service.ts:211-215 | a healthy retry of the whole queue empties it exactly when no queued event is refused |
| `AuditQueue.RefusedHeadBlocks` | src/audit/audit.service.ts:112-119 | once a refused event heads the queue it stays there in every later state and no retry completes anything |
| `AuditQueue.RefusedEventIsQueued` | src/audit/audit.service.ts:211-215 | a high-risk event without an acceptable reason is queued although the database is healthy, and the replay job refuses it too |
| `AuditQueue.ReplayedRowIff` | src/audit/audit.service.ts:95-122 | column by column, when the row a replay stores is the one its request would have stored; as a whole exactly when there was no request and the event carries its time or the clock stood still |
| `AuditQueue.RefusedOnlyInReplayIff` | src/audit/audit.service.ts:207-215 | the replay refuses an event its request accepted exactly when it is high-risk, has no reason, and only the request made it a system event |
| `AuditRows.SanitizeSays` | src/audit/audit.redaction.ts:10-12 | stored text is the text without white space at its ends and without control characters, cut to the limit |
| `AuditRows.ReasonRule` | src/audit/audit.service.ts:207-215 | an event is refused exactly when its operation is one of the thirteen listed, it is not the system's own without a reason, and the tidied reason has fewer than ten characters; and which reason is stored otherwise |
| `AuditRows.RecordSays` | src/audit/audit.service.ts:203-274 | a delivery adds exactly one row, and only for a new id, an accepted event and a write that is done: id, action and payload of the event, its time or the clock, the actor of the event, the request or the system, source and correlation with their fallbacks, the request's details and the reason |
| `AuditRows.BestEffortSays` | src/audit/audit.service.ts:72-93 | what a delivery not known to be done leaves in the queue and among the gaps |
| `AuditRows.ReplayStops` | src/audit/audit.service.ts:95-122 | a replay completes entries up to the first that is refused or meets a fault; exactly those leave the queue, and that first one if only the answer to its acknowledgement was lost |
| `AuditRedaction.RedactAuditValue` | src/audit/audit.redaction.ts:14-41 | mapping arrays and filling objects property by property (a repeated key keeps its place and takes the later value) computes the recursive specification |
| `AuditRedaction.LaterValueWins` | src/audit/audit.redaction.ts:28-37 | of several properties whose bounded keys collide the object keeps the last one's value, and only that |
| `AuditRedaction.RedactIsClean` | src/audit/audit.redaction.ts:14-41 | for every input tree the outcome is within the limits: nesting of 7, 100 items, 100 properties with distinct keys of 100 characters, texts of 2000 printable characters, and the mark under every sensitive key |
| `AuditRedaction.FixedIffClean` | src/audit/audit.redaction.ts:14-41 | redaction leaves a value as it is exactly when the value is already within all those limits |
| `AuditRedaction.RedactIdempotent` | src/audit/audit.redaction.ts:14-41 | redacting twice is redacting once, at every depth |
| `AuditRedaction.SecretsDoNotShow` | src/audit/audit.redaction.ts:32-36 | two values that differ only beneath sensitive keys have the same redaction |
| `RedactedKeys.HiddenIff` | src/audit/audit.redaction.ts:32-36 | above the depth limit a property's value is hidden exactly when its bounded key is sensitive |
| `RedactedKeys.SensitiveSurvives` | src/audit/audit.redaction.ts:10-12 | a sensitive key stays sensitive when its control characters are stripped, so only cutting it at 100 characters can undo that |
| `RedactedKeys.SensitiveKeyShowsIff` | src/audit/audit.redaction.ts:32-36 | a key sensitive as written shows its value exactly when the cut at 100 characters takes the word away, which needs a longer key |
| `RedactionRules.SensitiveIff` | src/audit/audit.redaction.ts:4-5 | the sensitive keys: those with one of nine words, or api and key, or private and key, next to each other or one character apart, in capitals or not |
| `RedactionRules.ValueSays` | src/audit/audit.redaction.ts:14-27 | what each kind of value becomes: cut off below seven levels, text shortened to 2000 printable characters, lists to 100 items, dates as text, nothing for the undefined |
| `RedactionRules.ObjectSays` | src/audit/audit.redaction.ts:28-39 | an object keeps its first hundred properties; of colliding keys the first gives the place and the last the value |
| `RedactionRules.EntriesSay` | src/audit/audit.redaction.ts:32-37 | each property becomes its key, shortened to 100 printable characters, with the mark under a sensitive key and its redacted value under any other |
| `CanonicalJson.MeaningKept` | src/audit/audit.archive.util.ts:3-14 | canonicalization keeps what every property and element means |
| `CanonicalJson.SameFormIff` | src/audit/audit.archive.util.ts:3-14 | two values have the same canonical form exactly when they mean the same whatever order their properties are listed in, given a key order that tells keys apart |
| `CanonicalJson.CanonicalizeIdempotent` | src/audit/audit.archive.util.ts:3-14 | canonicalizing twice is canonicalizing once |
| `CanonicalJson.TiedKeysKeepTheirOrder` | src/audit/audit.archive.util.ts:8-10 | if the comparison ties two different keys, two listings of the same object have different canonical forms |
| `CanonicalJson.CanonicalOrdered` | src/audit/audit.archive.util.ts:3-14 | in a canonical form every object, at any depth, lists its keys in order |
| `AuditArchive.AuditArchiveService.SealWindow` | src/audit/audit.archive.service.ts:145-239 | reading, writing both objects, reading them back and updating the row, with a refusal or a lost acknowledgement possible at each call, leaves the state of the specification |
| `AuditArchive.AuditArchiveService.ArchiveWindow` | src/audit/audit.archive.service.ts:118-285 | a verified window is returned as it is; otherwise the row is found or inserted, sealed, or marked failed |
| `AuditArchive.AuditArchiveService.RetryFailedArchives` | src/audit/audit.archive.service.ts:84-116 | the three oldest failed windows are retried in order up to the first that throws |
| `AuditArchive.AuditArchiveService.Verify` | src/audit/audit.archive.service.ts:288-324 | the verdict and the errors of a verification, and that only a valid one touches the row |
| `AuditArchive.AuditArchiveService.PurgeExpiredOnlineEvents` | drizzle/0017_massive_hitman.sql:114-146 | the purge removes the oldest events before the cutoff that lie in a verified window still under retention, at most 10000 of them |
| `AuditArchive.LatestBefore` | src/audit/audit.archive.service.ts:167-173 | the row linked to is one with the latest window end before the given one, or there is none |
| `ArchiveChain.SealMatchesIff` | src/audit/audit.archive.service.ts:145-285 | one attempt on an unsealed row leaves seal and status in step exactly unless its final update takes effect unacknowledged and the failure mark then lands |
| `ArchiveChain.StepKeepsIff` | src/audit/audit.archive.service.ts:84-324 | one step of the service keeps the invariant (verified exactly when sealed, every link sound) exactly when no call in it takes a seal back |
| `ArchiveChain.InvariantIff` | src/audit/audit.archive.service.ts:84-324 | the invariant holds in every state of a run exactly when no call of the run takes a seal back |
| `ArchiveChain.SealsAreFinal` | src/audit/audit.archive.service.ts:118-324 | over every run that takes no seal back, lost acknowledgements included, a sealed row keeps its checksums, link, signature and status for ever |
| `ArchiveChain.ChainHolds` | src/audit/audit.archive.service.ts:167-187 | in every such run a non-null previous checksum is the manifest checksum of a verified archive with an earlier window end, in that state and in all later ones |
| `ArchiveChain.LinkMissingIff` | src/audit/audit.archive.service.ts:167-187 | a new seal has no link exactly when no row ends earlier or the latest such row is not verified at that moment |
| `ArchiveBreaks.RunSane` | src/audit/audit.archive.service.ts:84-324 | over every run, whatever fails or loses its acknowledgement, rows stay apart and every seal was computed for its own row |
| `ArchiveBreaks.LinkSoundIff` | src/audit/audit.archive.service.ts:167-187 | in every such state the checksum the next seal would be linked to belongs to a verified earlier archive exactly when the latest earlier row is verified |
| `ArchiveBreaks.NextLinkBroken` | src/audit/audit.archive.service.ts:167-187 | after a call that takes a seal back, the next window is linked to an archive that is not verified, and no verified earlier archive has that checksum |
| `ArchiveBreaks.SealReplacedIff` | src/audit/audit.archive.service.ts:118-285 | in every such state a later call for a sealed row's window replaces its manifest checksum exactly when the row is not verified and the attempt gets through with its update taking effect |
| `ArchiveBreaks.LostAckRewritesSeal` | src/audit/audit.archive.service.ts:219-285 | a seal whose write took effect but reported failure is marked failed, and the next attempt that gets through writes a different manifest checksum over it |
| `ArchivePurge.SealDescribesWindow` | src/audit/audit.archive.service.ts:151-186 | a seal's row count is the number of events in its window, and its first and last sequence are those of events of the window, none of which lies outside them |
| `ArchiveVerification.ValidIff` | src/audit/audit.archive.service.ts:288-324 | a verification says yes exactly when both stored objects are byte for byte what was sealed and both are still locked, given a collision-free checksum |
| `ArchiveVerification.ArchivedThenVerifies` | src/audit/audit.archive.service.ts:118-324 | from the call that archives a window on, whatever the service does next, its verification says yes exactly until the retention ends, as long as nothing outside replaces its two objects |
| `ArchiveVerification.UnsignedSame` | src/audit/audit.archive.util.ts:24-41 | the signature is computed over the same text before the manifest is written and after it is read back with the signature taken out |
| `ArchiveContents.Prepares` | src/audit/audit.archive.service.ts:145-217 | what an archiving computes: the window's events, each as often as it is online, by sequence; one line of canonical text for each; the row's columns; and the manifest with exactly its eleven entries (identity, window, sequences, count, checksum, link, end of retention, creation) and the signature of their canonical text |
| `ArchiveContents.ArchivingRow` | src/audit/audit.archive.service.ts:145-261 | the answer of one archiving and the row it leaves, for every combination of troubles: sealed and verified exactly when it gets through while the seven years run, otherwise failed with one more attempt |
| `ArchiveContents.ArchivingObjects` | src/audit/audit.archive.service.ts:189-203 | which of the two objects it stores, what they hold, and that they are locked for seven years after the window |
| `ArchiveContents.CallSays` | src/audit/audit.archive.service.ts:118-143 | which row a call archives: the window's own unless that is verified, else a new one under the paths of its day and id |
| `ArchiveOrder.RetryTakes` | src/audit/audit.archive.service.ts:92-101 | a retry takes at most three failed rows, by the start of their windows, and leaves out none that starts before one of them |
| `ArchiveOrder.RetryStops` | src/audit/audit.archive.service.ts:102-112 | it archives them one after the other and stops early only after one that failed |
| `ArchiveOrder.CheckSays` | src/audit/audit.archive.service.ts:296-314 | what a check answers, in this order: a missing object, an unreadable manifest, a changed body, a missing or wrong signature, a lock that ran out |
| `ArchiveOrder.VerifySays` | src/audit/audit.archive.service.ts:288-324 | a verification answers for the row with that id and marks it verified now exactly when the check says yes |
| `ArchivePurge.NothingLost` | drizzle/0017_massive_hitman.sql:114-146 | over any run that takes no seal back, records no event into a window already sealed and leaves the data of sealed archives alone, every event that was ever online is still online, or its line is in the stored and unpacked data of an archive whose checksum matches |
| `ArchivePurge.LateEventGoesIff` | drizzle/0017_massive_hitman.sql:124-142 | an event just recorded is gone after a purge that can take all that is due exactly when it is old enough and some verified window around it is under retention, whether or not that archive holds it |
| `ArchivePurge.PurgeLosesIff` | drizzle/0017_massive_hitman.sql:124-142 | a purge that can take all that is due loses an online event, out of the table and in no stored archive, exactly when it is due and its line is in no stored archive |
| `ArchivePurge.LateEventLostIff` | drizzle/0017_massive_hitman.sql:124-142 | an event recorded while no stored archive has its line is lost by such a purge exactly when it is old enough and some verified window around it is under retention |
| `ArchivePurge.RecordCoversIff` | drizzle/0017_massive_hitman.sql:124-142 | recording an event keeps every sealed window covered by its stored archive exactly when the archive of each sealed window around the event already has its line |
| `ArchivePurge.DeletionLosesIff` | drizzle/0017_massive_hitman.sql:114-146 | deleting the data object of one archive leaves an event in the archives exactly when another archive holds it |
| `ArchivePurge.TakenBackVerifies` | src/audit/audit.archive.service.ts:288-324 | an archive whose seal was written unacknowledged and then marked failed verifies as valid until its retention ends |
| `ArchivePurge.RecordedAfterTakenBackIff` | drizzle/0017_massive_hitman.sql:124-142 | an event recorded into the window of such an archive, verified afterwards, is lost by the purge exactly when the verification succeeds and the event is due under retention |
| `ArchiveOrder.PurgeTakes` | drizzle/0017_massive_hitman.sql:124-142 | a purge takes exactly the oldest ten thousand, or all, of the events before the cutoff that a verified archive within its seven years covers; the others keep their order |
| `ArchivePlatform.AssumptionsMet` | src/audit/audit.archive.util.ts:3-41 | one choice of hashing, signing, packing, printing, parsing and key order meets all that the archive theorems assume, and they start from the empty archive |
| `SingleFlight.CacheService.ContinueGetOrSet` | src/cache/cache.service.ts:121-138 | the stretch between the cache read and the return: hit, join of the fetch in flight, or start of a new one, with the removal of a synchronous throw running before the map is set |
| `SingleFlight.CacheService.GetOrSet` | src/cache/cache.service.ts:116-121 | a new caller of a key is listed as waiting for its cache read, and nothing else changes |
| `SingleFlight.CacheService.ReadCached` | src/cache/cache.service.ts:121-122 | the cache read turns a waiting caller into a hit with the stored value, a miss (also for a stored null), or its own failure, and changes nothing shared |
| `SingleFlight.CacheService.FactorySettles` | src/cache/cache.service.ts:128-134 | a factory that rejects settles its fetch and frees the key; one that resolves goes on to the cache write with the key still held |
| `SingleFlight.CacheService.WriteSettles` | src/cache/cache.service.ts:130-134 | the cache write settles the fetch with its value, or with the write's failure, and frees the key either way |
| `SingleFlight.RunKeeps` | src/cache/cache.service.ts:116-138 | every interleaving keeps the map exact: it names a key exactly while a fetch of it is pending or a synchronous throw is stuck there |
| `SingleFlight.AtMostOneFetch` | src/cache/cache.service.ts:116-138 | in every interleaving of any number of callers at most one fetch per key is under way |
| `SingleFlight.JoinersShareOutcome` | src/cache/cache.service.ts:124-137 | whoever joined a fetch and has returned was given that fetch's own value or rejection |
| `SingleFlight.SettlingFreesKey` | src/cache/cache.service.ts:127-135 | when a fetch settles, with a value or a rejection, its key is free and the next miss starts a new fetch |
| `SingleFlight.SyncThrowSticks` | src/cache/cache.service.ts:127-137 | a factory that throws synchronously leaves its rejection in the map for ever: no fetch of the key starts again and every later miss joins it |
| `SingleFlight.FreedIffNoSyncThrow` | src/cache/cache.service.ts:127-137 | a key is freed by the end of its fetch exactly when the factory did not throw synchronously |
| `CacheAnswers.AnswersExplained` | src/cache/cache.service.ts:116-138 | over every run from the empty state each returned answer is one of four: the value the cache held for the caller's key when it read; its own read's failure; the value that a fetch of its key resolved with and then stored; the failure of that fetch's factory or write |
| `CacheAnswers.CacheHoldsIff` | src/cache/cache.service.ts:130-134 | in every state the cache holds a value under a key exactly when the last thing that happened to the key was the write of that value |
| `CacheAnswers.ReadThenReturns` | src/cache/cache.service.ts:121-122 | a call is answered at once with a value exactly when the cache holds that value and it is not a stored null |
| `CacheAnswers.ReadFailureReturns` | src/cache/cache.service.ts:121-122 | a call whose read fails is answered with that failure at once, and nothing else changes |
| `CacheAnswers.NothingHeldWaits` | src/cache/cache.service.ts:121-138 | a call that finds nothing, or a stored null, waits for the fetch of its key under way, and starts one exactly when there is none |
| `CacheAnswers.MissFetches` | src/cache/cache.service.ts:124-138 | an undisturbed miss gives the caller its factory's value, caches it and frees the key |
| `CacheAnswers.MissJoins` | src/cache/cache.service.ts:124-125 | a miss during a fetch of the key starts nothing and gets that fetch's result once it settles |
| `RedisLock.LockStore.AcquireLock` | src/cache/cache.service.ts:140-144 | the lock is taken exactly when the key is free or expired and the lifetime is positive; otherwise nothing changes |
| `RedisLock.LockStore.ReleaseLock` | src/cache/cache.service.ts:146-148 | the key is gone, whoever owned it, and no other key is touched |
| `RedisLock.MutualExclusion` | src/cache/cache.service.ts:140-148 | if every holder leaves within its own lock's lifetime, no two processes are ever inside for one key, whatever lifetimes they use |
| `RedisLock.ReleaseDeletesOwnLock` | src/audit/audit.archive.service.ts:63-116 | under the same condition the unowned DEL deletes the releaser's own live lock and no other key |
| `RedisLock.EntryDespiteHolderIff` | src/cache/cache.service.ts:140-144 | a second process gets in while another is inside exactly when that holder has overrun its lifetime |
| `RedisLock.OverrunHurtsPunctual` | src/cache/cache.service.ts:140-148 | one overrunning holder's late release lets two punctual processes in together |
| `RateLimiter.SlotQueue.AcquireSlot` | src/transport/tfnsw-http.client.ts:248-259 | the grant time and the queue state after any sequence of calls, lags and overlong sleeps |
| `RateLimiter.GrantsSpaced` | src/transport/tfnsw-http.client.ts:248-259 | slots are granted in call order, never before the call and each at least 250 ms after the one before |
| `RateLimiter.AtMostFourPerSecond` | src/transport/tfnsw-http.client.ts:28-29 | every half-open window of 1000 ms holds at most four grants, however the calls arrive |
| `RateLimiter.NoNeedlessWait` | src/transport/tfnsw-http.client.ts:251-254 | without lag a slot comes as soon as the interval allows |
| `RateLimiter.GrantRule` | src/transport/tfnsw-http.client.ts:248-259 | when a slot is granted: its turn comes with the call or the grant before, whichever is later, and it waits until 250 ms after that grant and no longer; lag and an overlong sleep come on top |
| `RateLimiter.RequestWithRetry` | src/transport/tfnsw-http.client.ts:161-246 | the number of requests, the verdict and the time slept are decided by the first decisive answer |
| `RateLimiter.RetryBounds` | src/transport/tfnsw-http.client.ts:286-290 | for any answers a call makes at most 8 requests and sleeps at most 184992 ms |
| `RateLimiter.AnswerRule` | src/transport/tfnsw-http.client.ts:196-246 | what each answer leads to: a 2xx succeeds; 429, 503, 504, a 403 that speaks of rate limits and a network failure other than 503 are tried again; a 401 or 403 that speaks of quotas, another 401 or 403, and any other status end the call |
| `RateLimiter.CallEnds` | src/transport/tfnsw-http.client.ts:161-246 | a call ends with the first of eight answers that is not tried again, if there is one |
| `RateLimiter.BackoffTable` | src/transport/tfnsw-http.client.ts:286-290 | the waits: one second, doubled each time up to a minute, plus the jitter |
| `GtfsIngest.DedupeByKey` | src/gtfs-static/gtfs-ingest.util.ts:5-16 | one row per non-empty key, the last one, in the order the keys first occur |
| `GtfsIngest.DedupedBatchRefines` | src/gtfs-static/gtfs-static.service.ts:710-763 | inserting the reduced batch leaves the table as inserting the batch row by row does, and no statement holds a key twice |
| `GtfsIngest.BatchingRefines` | src/gtfs-static/gtfs-static.service.ts:391-444 | any split of a file into batches leaves the table as if its rows were upserted one at a time in file order |
| `StreamCounts.ReportedCountIff` | src/gtfs-static/gtfs-static.service.ts:710-763 | the count reported for a streamed file falls short of its distinct keys by the rows of statements still unanswered and exceeds them by keys that batches repeat; it is right exactly when the two are equal |
| `StreamCounts.AlwaysRightIff` | src/gtfs-static/gtfs-static.service.ts:412-437 | the count is right however the answers are timed exactly when no key is in two batches and the last, partial batch sends a statement (or no row has a key) |
| `StreamCounts.AwaitedIff` | src/gtfs-static/gtfs-static.service.ts:428-437 | with keys in every row, the end of the file waits for its statements exactly when the number of records is no multiple of 500 |
| `StreamCounts.OneBatchReportsNothing` | src/gtfs-static/gtfs-static.service.ts:412-437 | 500 records with 500 keys are reported as 0 rows while their one statement is unanswered, and as 500 once it is answered |
| `StreamCounts.RefusalMissedIff` | src/gtfs-static/gtfs-static.service.ts:412-437 | a refused statement goes unreported exactly when the end of the file does not wait and comes before its answer |
| `GtfsIngest.GtfsStaticService.IngestStreamed` | src/gtfs-static/gtfs-static.service.ts:391-444 | buffering, sending each full batch without waiting and waiting only for the last partial one: the result for any timing of the answers and any refused statement, which batches leave the transaction, and the row-by-row table when none is refused |
| `GtfsIngest.GtfsStaticService.IngestWhole` | src/gtfs-static/gtfs-static.service.ts:446-708 | reducing a whole file to one row per key and inserting it in slices reaches the row-by-row table, changes no other table and counts the distinct keys |
| `GtfsIngest.GtfsStaticService.DeleteFeed` | src/gtfs-static/gtfs-static.service.ts:348-356 | in every table exactly the rows of the feed are gone |
| `GtfsIngest.GtfsStaticService.ProcessZip` | src/gtfs-static/gtfs-static.service.ts:301-368 | on an error the database is as it was but for the stop times sent after a refusal was known; on success each table is the old one without the feed's rows and with the file's rows upserted, unless a refused statement nobody waited for has undone the transaction |
| `GtfsIngest.ReplacedExactly` | src/gtfs-static/gtfs-static.service.ts:343-368 | after a replace the feed owns exactly the last row per key of its file; another feed's row survives unless the file has its key |
| `GtfsIngest.ReplaceIsIdempotent` | src/gtfs-static/gtfs-static.service.ts:343-368 | ingesting the same feed again leaves the same rows |
| `IngestRules.DedupeSays` | src/gtfs-static/gtfs-ingest.util.ts:5-16 | reducing keeps for each non-empty key its last line and orders them by where the keys first stand |
| `IngestRules.ReplacedSays` | src/gtfs-static/gtfs-static.service.ts:343-368 | after a replace a key of the file holds its last line under the feed's name, and any other key what it held before unless that was the feed's own |
| `IngestRules.BatchesSay` | src/gtfs-static/gtfs-static.service.ts:391-444 | a streamed file goes out in batches of five hundred lines, the last one smaller |
| `IngestRules.OutcomeSays` | src/gtfs-static/gtfs-static.service.ts:301-368 | the answer of an ingest: no routes file, stops without an id, no route with an id, a refusal that was met, or the distinct keys of the batches that count |
| `IngestRules.StraysSay` | src/gtfs-static/gtfs-static.service.ts:391-444 | what is written although the transaction is undone: the batches started after a refusal that was met became known, and nothing else |
| `ScheduledTrips.GetScheduledTripCountsByLine` | src/gtfs-static/gtfs-static.service.ts:917-1009 | a cached answer is returned unchanged; otherwise each mode and line is given the trips of its regular services that were not removed plus those of its added services, only keys that have any are listed, and the answer is cached |
| `ScheduledTrips.CountScheduledTrips` | src/gtfs-static/gtfs-static.service.ts:939-1002 | the two counting loops give each mode and line exactly those two shares |
| `ScheduledTrips.CountIsExactIff` | src/gtfs-static/gtfs-static.service.ts:939-1002 | the count is never below the number of trips that run on the day, and equals it exactly when no trip of the key belongs to a service that is both on by the calendar and listed as added |
| `ScheduledTrips.SharesSay` | src/gtfs-static/gtfs-static.service.ts:939-1002 | the two shares are the numbers of trips with a mode and a route of that line whose service the calendar has on the date and weekday and no exception removes, and of those an exception adds |
| `LineAlerts.LineHealthAlertsService.Upsert` | src/history/line-health-alerts.service.ts:37-95 | the table after opening or refreshing a line's alert |
| `LineAlerts.LineHealthAlertsService.Resolve` | src/history/line-health-alerts.service.ts:101-145 | the table after the clean-up, with either of its two updates failing |
| `LineAlerts.LineHealthAlertsService.ResolveLine` | src/history/line-health-alerts.service.ts:148-166 | closes the line's open alerts and reports whether there was one |
| `LineAlerts.LineHealthAlertsService.ActiveByLine` | src/history/line-health-alerts.service.ts:169-187 | maps exactly the lines with an open and unexpired alert, each to such an alert of its own |
| `LineAlerts.CommuteAlertService.Evaluate` | src/push/commute-alert.service.ts:43-108 | the alert table, the cooldown map and the pushes after a whole scan, also when an upsert or a push throws and ends it, or an update of the clean-up fails |
| `LineAlerts.AtMostOneOpen` | src/history/line-health-alerts.service.ts:37-166 | over any run of scans, administrator upserts and resolutions each line has at most one open alert, and a resolved alert never changes |
| `LineAlerts.ScanDecidesRailLines` | src/push/commute-alert.service.ts:67-107 | right after any scan a rail line has an open alert exactly when a snapshot whose alert was written degraded it, or it had one and the clean-up was not reached or its first update failed |
| `LineAlerts.ScanRightIff` | src/push/commute-alert.service.ts:67-107 | whatever throws or fails, for which lines the alert is then right: a degraded line unless the scan ended before writing it and none was open, another unless it had an open alert and the clean-up was not reached or failed |
| `LineAlerts.ScanLeavesOtherLines` | src/history/line-health-alerts.service.ts:130-141 | a scan touches another line's alert only to close it once expired, and only if its clean-up worked |
| `LineAlerts.PushesSpaced` | src/push/commute-alert.service.ts:97-104 | over any run on a forward clock, failing scans included, pushes for one line are started at least 45 minutes apart and none in quiet hours |
| `LineAlerts.PushedIff` | src/push/commute-alert.service.ts:97-104 | a scan starts a push for a line exactly when it is not quiet hours, a snapshot it got done with degraded the line and its cooldown was over; the cooldown starts anew exactly then |
| `AlertRules.AlertIff` | src/push/commute-alert.service.ts:67-107 | after a scan in which nothing fails a rail line has an open alert exactly when some snapshot of it has at least 5 tracked trips and 30 % late, or a disruption and more than 15 % late, or 3 cancellations |
| `AlertRules.AlertSays` | src/push/commute-alert.service.ts:79-95 | its severity, title and times are those of the line's last such snapshot: cancellations first, then the disruption, then delays |
| `AlertRules.PushRule` | src/push/commute-alert.service.ts:97-104 | a push is started exactly for a line in trouble, from five in the morning to ten at night, 45 minutes after the line's last one |
| `AlertRules.UpsertMeans` | src/history/line-health-alerts.service.ts:37-95 | opening an alert refreshes an open one of the line in place and otherwise adds one row; no other row changes |
| `AlertRules.ResolveMeans` | src/history/line-health-alerts.service.ts:148-166 | an administrator's resolution closes the line's open alerts and nothing else |
| `StopTimeMerge.MergeShape` | src/realtime/realtime.service.ts:487-549 | the merged list starts with one entry per static stop in strictly increasing sequence, followed by exactly the live updates no static stop accounts for, as often as they were sent |
| `StopTimeMerge.LiveUpdateKept` | src/realtime/realtime.service.ts:511-537 | a live update is in the output with its live fields intact unless a later one for the same static stop displaces it |
| `StopTimeMerge.LosslessIff` | src/realtime/realtime.service.ts:503-541 | the merged list never has more entries made from live updates than updates were sent, and as many exactly when no two of them name the same static stop |
| `StopTimeMerge.MergeSays` | src/realtime/realtime.service.ts:487-549 | the merge entry by entry: the live updates alone without a readable timetable; otherwise for every static stop, in sequence order, its last live update with the timetable's stopping pattern or the timetable's own times, and then the updates of no static stop in feed order |
| `TripMatcher.FindRealtimeMatch` | src/realtime/realtime.service.ts:560-667 | the early-stopping scan returns the first item of the best tier of the whole list, and nothing exactly when no item has a tier |
| `TripMatcher.ExactIdWins` | src/realtime/realtime.service.ts:603-610 | an exact id is never lost to a looser match, wherever in the feed it appears |
| `TripMatcher.MoreItems` | src/realtime/realtime.service.ts:661-667 | more feed items replace a match only by a strictly better tier |
| `TripMatcher.SimilarIff` | src/realtime/realtime.service.ts:608-622 | with one reference id, an item without the exact id is a second-tier match exactly when its normalised id has at least six characters and one of the two normalised ids begins with the other |
| `TripMatcher.ShortReferenceIsSimilar` | src/realtime/realtime.service.ts:608-622 | the six characters are asked of the item's normalised id alone: every item whose id continues a reference id, however short, is in the first two tiers |
| `TripMatcher.TierSays` | src/realtime/realtime.service.ts:602-660 | the four tiers: the id itself; an alike id; the same line with the same date and a start within 180 s, or none on both sides; the same line with the first stop due within 120 s of an instant the start may mean |

## Left out

- HTTP controllers, GraphQL, guards, DTOs, wiring, metrics and logging: plumbing without a deep property. JWT
  verification and the creation of users are foreign code; an exchange starts from a resolved user.
- Interleavings inside one `refreshSession`, one `upsertActive` or one `archiveWindow`: the code has no
  compare-and-set there, so each call is one step (its partial failures are modelled). Failing database reads in
  `refreshSession` are not modelled; they change nothing.
- `flush` and eviction in Redis, which erase markers, locks and seen lists.
- ZIP, CSV and BOM handling: ingest starts from a sequence of records. The remaining columns of a row are one text.
- GtfsIngest.GtfsStaticService.IngestStreamed: takes the statements of one connection to run and be answered in the order
  sent, the commit after them, and what is sent after a refusal is known to be accepted on the pool. When the
  file is parsed in one turn nothing is sent that late.
- GtfsIngest.GtfsStaticService.ProcessZip: leaves out refused statements of the smaller files, which are awaited, so a refusal
  is an error and a rollback; and concurrent ingests, which would share the service's connection field.
- Days and hours in Sydney are inputs; time-zone conversion through `Intl` is not part of this model, and neither is
  the line badge table, which is a function parameter.
- DailyRollup.BackfillAgreesIff: speaks of the columns that both writers compute alike; `EveryColumn` says what the others hold.
- Percentile.NearestRank: uses exact rational arithmetic where the code multiplies and rounds in floating point; so does
  the rounded average in `SnapshotRow`.
- ScheduledTrips.GetScheduledTripCountsByLine: compares dates as numbers where the query compares eight-digit texts.
- CancellationDedup.WholeDayCounts: a firing is one step; `OverlapsCountIff` covers samples that overlap.
- OverlappingSamples.OverlapsCountIff: speaks of one day, in which the lists do not expire.
- RollupRuns.RangeDamagesIff: takes all snapshots of the day at one offset, so not the two days a year on which it changes.
- DailyRollup.HistoryStore.Persist: leaves out the disruption event rows of the same transaction and the refresh of the materialised view.
- AuditPagination.WalkIsComplete: takes cursors as (time, sequence) pairs; their JSON text in base64url (section 5 of
  RFC 4648) is not modelled, and timestamps are whole milliseconds.
- AuditQueue.NothingLost: leaves out the trimming of the stream at about 100000 entries and entries whose text does not parse.
- AuditQueue.AuditService.RecordEvent: an actor is its type and id; role, impersonator and the columns stored as given are one text.
- AuditRedaction.RedactAuditValue: a JavaScript object lists integer-like keys first and treats `__proto__` specially; here
  properties keep the order they are assigned in. An invalid date, which throws, does not occur.
- AuditRows.SanitizeSays: counts characters where JavaScript counts UTF-16 code units; the two differ beyond the basic plane. So
  do all limits on the length of a text.
- AuditArchive.LatestBefore: takes the first of several rows with the same window end; the query leaves that choice open.
  Archive windows are UTC days, so none has the same end.
- ArchiveVerification.ArchivedThenVerifies: SHA-256, HMAC, gzip, JSON printing and parsing and the hex decoder are function parameters; what
  a lemma needs of them (no collisions, parsing undoes printing) is in its `requires`, and can be met (`AssumptionsMet`). The clock
  stands still inside one call.
- ArchivePurge.NothingLost: the twelve months before the current time are a cutoff parameter.
- StopTimeMerge.MergeShape: starts from the up to 1000 static stops the lookup returned; their distinct sequences rest on the row id
  built from trip and sequence.
- TripMatcher.FindRealtimeMatch: upper-cases ASCII letters only, and reads clock texts and start epochs through function parameters.
- LineAlerts.CommuteAlertService.Evaluate: at most one thing goes wrong in a scan, a push counts from its start, and alert texts
  are not modelled.
- `getHeadwayGroups`, the sticky fallback, offset pagination, request-log pagination, exports, `changedFields` and the sampler's metrics: they would
  add easy members, or rest on floating point or on an order the code does not fix.
