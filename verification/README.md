# PowerBlockade, modelled and verified in Dafny

PowerBlockade is a DNS filtering stack: nodes answer and filter queries, ship their query events to a
primary, and the primary keeps statistics, compiles blocklists into RPZ zones and pre-warms the
resolvers' caches. This project models the parts that keep state over unbounded runs or must agree
with something simpler, and proves what they promise.

| modules | what they model |
|---|---|
| `EventBuffer`, `Ingest`, `Pipeline`, `Forwarder` | the store-and-forward path from a node's accepted events to the primary's table |
| `Rollups`, `RollupProofs`, `RollupRuns`, `Dashboard`, `LatencyLoss` | hourly and daily rollups, and the dashboard that reads them instead of scanning raw events |
| `Pacing`, `Precache`, `Burst` | rate gates, per-pair TTL cache and worker pool of the cache warming |
| `Text`, `Rpz`, `ListLines`, `Resolver`, `Compiler` | lists, zones, the resolver and the Go loader that read the zones, and the verdict on a query |
| `Processor` | the dnstap frame processor and its reload of the zone files |
| `Audit`, `MetricsQueue`, `History`, `Schedule`, `NodeLifecycle` | the smaller state machines |

Files that change things in place are modelled by classes and loops and tied to specification
functions; the properties of whole runs are lemmas about those functions. Concurrency and faults are
steps: an interleaving of threads or a lost message is one more sequence of steps, and every theorem
about runs is over all sequences. Clocks, random draws, network and disk outcomes are parameters.
`dafny verify dfyconfig.toml` checks the whole project.

Where the code does not meet what its comments or its own purpose suggest, the model follows the code
and the project states when the expected property holds:

- A posted event without an id is stored again by every retry (`Ingest.RetryIsIdempotentIff`). The
  processor always sets one, and event sequence numbers restart when the buffer is empty at reopen,
  so ids are what uniqueness rests on. The unique constraint on (node, sequence) in the table's model
  is dropped by a migration and plays no part.
- Dropping prober events can change the blocked flag of other events, because a dropped probe no
  longer triggers the reload of the zone files. It is invisible, for every history of readable and
  unreadable files, exactly when each non-prober event finds the same reloads behind it in both
  modes (`Processor.DropIsInvisibleIff`).
- The rate ceiling of the burst holds for reserved slots. The per-name gate that follows adds a full
  interval to every repeated name, so sends can bunch up. They keep the ceiling for all clocks and
  jitter exactly for certain orders of names (`Pacing.RateCeilingReachesSendsIff`): after a repeat
  only repeats follow, and a repeat that may still be held back by an earlier repeat of its name is
  not followed by a name last asked for before that one. Asking A and AAAA of two names in turn
  already breaks it. That is for threads that wake at their slots; if they may wake late, hardly any
  order keeps it (`Pacing.LateThreadsKeepCeilingIff`).
- A zone reloads as it was written exactly when every name in it is lower case, without white space,
  and not empty, "@" or begun with "$" or ";" (`Rpz.ZoneReloadsIff`). Manual entries with a blank
  inside are stored and block a different name (`Compiler.BlankInEntryBlocksAnotherName`,
  `Compiler.ManualStorableIff`); `Compiler.VerdictIsPolicyIff` says for which databases every
  verdict is still the policy's.
- The two zone compilers differ after a failed fetch, in either zone (`Compiler.CompilersAgreeIff`,
  `Compiler.FailedFetchSplitsCompilers`).
- Null latencies can lift the dashboard's average above the true mean, exactly when some hourly group
  mixes null and non-null ones (`Dashboard.AverageAtMostMeanIff`); the lower bound always holds.
  Latencies recorded as 0 (under a millisecond, or not measured) are stored as null and are not
  counted as cache hits (`LatencyLoss.HitsFallShort`).
- The two-hour buckets of the 7-day chart lose every other hour (`History.TwoHourBucketsDropOddHours`).
- The metrics queue delivers at least once. Delivery is exactly once in runs without a lost
  acknowledgement or a death before the delete (`MetricsQueue.FaultFreeRunsDeliverOnce`), and those
  two faults are exactly what leaves an inserted sample queued (`MetricsQueue.PushLeavesSentIff`).
  Queued ids are newer than shipped ones unless a stored row is damaged
  (`MetricsQueue.EveryRunIsOrdered`, `MetricsQueue.OrderSurvivesIff`).
- A node that was gone too long is quarantined only if a periodic tick noticed its absence
  (`NodeLifecycle.ReturnIsQuarantinedIff`), and registering, ingesting or pushing metrics clears a
  quarantine, which lasts exactly until then (`NodeLifecycle.StaysIff`).

## Model

| member | source | states |
|---|---|---|
| Pipeline.EveryRunIsSafe | dnstap-processor/cmd/dnstap-processor/main.go:393-452 | in every run of accept, flush, peek, send, (late or repeated) commit, ack, delete, prune, crash and posts of other nodes, from any table with unique ids, each event ever buffered is in the buffer, at the primary or pruned; the primary holds no id twice, and besides the others' rows only rows of buffered events |
| Pipeline.StepKeeps | dnstap-processor/internal/buffer/buffer.go:107-173 | every single step keeps the invariant, including that the pending delete can only remove entries of the acknowledged request |
| Pipeline.CommitKeeps | admin-ui/app/routers/node_sync.py:389-436 | committing any request that was ever sent, at any time and any number of times, keeps the invariant |
| EventBuffer.Buffer.Open | dnstap-processor/internal/buffer/buffer.go:41-80 | reopening keeps the buffer invariant and resumes from the last key, 0 when empty |
| EventBuffer.Buffer.PutBatch | dnstap-processor/internal/buffer/buffer.go:107-127 | a committed batch appends consecutively numbered entries that carry their own key; a failed one leaves the bucket and may only advance the counter |
| EventBuffer.Buffer.Peek | dnstap-processor/internal/buffer/buffer.go:129-152 | returns the first `limit` decodable events in key order |
| EventBuffer.Buffer.Delete | dnstap-processor/internal/buffer/buffer.go:154-173 | a committed delete leaves exactly the keys above the bound, a failed one everything |
| EventBuffer.Buffer.Prune | dnstap-processor/internal/buffer/buffer.go:187-237 | removes exactly the undecodable values and the events stamped before the cutoff, or nothing |
| EventBuffer.PrunedMember | dnstap-processor/internal/buffer/buffer.go:187-237 | an entry survives a prune exactly when it decodes and is not stamped before the cutoff; events with an unreadable time stay |
| EventBuffer.DeleteRemovesExactlyPeeked | dnstap-processor/cmd/dnstap-processor/main.go:410-447 | with any puts between peek and delete, deleting up to the last peeked sequence number removes exactly the peeked events among the decodable ones and no newer entry |
| EventBuffer.Drains | dnstap-processor/cmd/dnstap-processor/main.go:410-452 | after t acknowledged ticks with limit L exactly max(0, n - L t) of n decodable events remain: undecodable values never block the queue |
| Forwarder.Loop.FlushToBuffer | dnstap-processor/cmd/dnstap-processor/main.go:393-408 | the batch is emptied, counted as buffered when it was written and as dropped when it was not, and conservation holds |
| Forwarder.Loop.ForwardFromBuffer | dnstap-processor/cmd/dnstap-processor/main.go:410-452 | nothing is deleted without a 2xx answer; initial + buffered = pending + shipped + pruned for events, and undecodable values are only removed |
| Forwarder.Loop.PruneTick | dnstap-processor/cmd/dnstap-processor/main.go:456-459 | the events counted as pruned are those stamped before the cutoff, every undecodable value goes, and initial + buffered = pending + shipped + pruned still holds |
| Forwarder.ForwardIsARun | dnstap-processor/cmd/dnstap-processor/main.go:410-452 | each forward tick, whatever happens to its request, is a run of the step system with the same buffer, counter, batch and table |
| Forwarder.LoopIsARun | dnstap-processor/cmd/dnstap-processor/main.go:393-459 | every sequence of accepts, flushes, forwards, prunes, restarts, late commits and other nodes' posts is a run of the step system that buffers, prunes and sends the same events |
| Forwarder.EveryLoopRunIsSafe | dnstap-processor/cmd/dnstap-processor/main.go:393-459 | whatever the loop does, each event its flushes wrote is in the file, at the primary or among those its prunes found expired, and where an id tells its event it is at the primary column by column; the primary holds no id twice, and each row is another's or that of such an event |
| Ingest.Primary.Ingest | admin-ui/app/routers/node_sync.py:358-444 | the table afterwards is the old one with the not yet known rows appended, and the answer counts them |
| Ingest.NewRowHolds | admin-ui/app/routers/node_sync.py:402-418 | the row of a new id has the event's sequence number, time, client, type, rcode, flags, a reason and a latency that are null exactly when empty and zero, and the name in stored form, and is the only row with that id |
| Ingest.StoredAsIsUnique | admin-ui/app/routers/node_sync.py:411 | the stored name is the posted one in lower case without outer white space and final dots, and the posted one itself if in that form |
| Pipeline.AtPrimaryIsStored | admin-ui/app/routers/node_sync.py:389-427 | in any run where an id tells its event, an event known to the primary is stored there column by column |
| Ingest.InsertAllUnique | admin-ui/app/routers/node_sync.py:422-427 | no id is ever stored twice, whatever is posted |
| Ingest.InsertAllContents | admin-ui/app/routers/node_sync.py:389-427 | every posted event is known to the primary afterwards |
| Ingest.InsertAllOrigin | admin-ui/app/routers/node_sync.py:422-427 | every new row is the row of a posted event |
| Ingest.RetryIsIdempotentIff | admin-ui/app/routers/node_sync.py:422-436 | repeating a request has no effect exactly when each of its events has an id |
| Rollups.RollupStore.ComputeHourlyRollup | admin-ui/app/services/rollups.py:31-101 | upserts the aggregate of every group of the hour and keeps one row per key |
| Rollups.RollupStore.ComputeDailyRollup | admin-ui/app/services/rollups.py:104-167 | upserts the sum of the day's hourly rows per group and keeps one row per key |
| Rollups.RollupStore.RunRollupJob | admin-ui/app/services/rollups.py:170-185 | rolls up the hour that ended and, before 02:00, the day that ended |
| Rollups.RollupStore.BackfillHourlyRollups | admin-ui/app/services/rollups.py:366-374 | rolls up the last hours, clamped to 1..720, keeping one row per key |
| RollupRuns.BackfilledLookup | admin-ui/app/services/rollups.py:366-374 | each group of the last n hours has the aggregate of its raw events, and every other key keeps its row |
| RollupRuns.BackfillCompletes | admin-ui/app/services/rollups.py:366-374 | from any table the runs can leave, the hours backfilled are complete afterwards |
| RollupRuns.JobRollsDay | admin-ui/app/services/rollups.py:170-185 | a job before 02:00 gives the day that ended its row for every client and node with an hourly one |
| Rollups.UpsertAllLookup | admin-ui/app/services/rollups.py:63-98 | after any upsert keys stay unique (null client and node included), listed keys have their new row and all others their old one |
| RollupProofs.Partition | admin-ui/app/services/rollups.py:34-60 | summing raw events group by group over the rows equals summing event by event: each event is counted by its own row and by no other |
| RollupProofs.RowsVersusRaw | admin-ui/app/services/rollups.py:313-331 | over whole hours the rows never over-count, and their total equals the raw total exactly when every group has an up-to-date row, in which case all five counters agree |
| RollupProofs.CounterIsNumber | admin-ui/app/services/rollups.py:34-60 | a counter is the number of non-internal events of the range that are blocked, NXDOMAIN (3), SERVFAIL (2) or under 5 ms |
| RollupProofs.DailyAverageBetween | admin-ui/app/services/rollups.py:104-167 | the daily average lies between the least and the greatest hourly average |
| RollupProofs.DailyNamesBetween | admin-ui/app/services/rollups.py:104-167 | over complete hours the daily number of names lies between the true one and the total |
| RollupRuns.EveryRunKeepsTableOk | admin-ui/app/services/rollups.py:31-185 | in every run of arrivals, jobs and backfills each hourly row is the exact aggregate of the events that had arrived when it was computed, one row per key |
| RollupRuns.RerunChangesNothing | admin-ui/app/services/rollups.py:62-167 | re-running an hour or a day leaves the table identical |
| RollupRuns.EveryEndedDayIsExact | admin-ui/app/services/rollups.py:170-185 | with one job in every hour and no event after its hour's job, from the job past midnight on every daily row counts the whole day's raw events |
| Dashboard.DashboardVersusRaw | admin-ui/app/services/rollups.py:273-363 | for every window no counter exceeds the raw scan of [start, now); from two hours up the total agrees exactly when the full hours are complete, and then all counters do |
| Dashboard.PunctualDashboardIsExact | admin-ui/app/services/rollups.py:170-363 | end to end: with one job in every hour and no event after its hour's job, every window over those hours shows exactly the raw counts |
| Dashboard.BackfilledDashboardIsExact | admin-ui/app/services/rollups.py:273-374 | after a backfill every window within the hours backfilled shows exactly the raw counts |
| Dashboard.ShortWindowIsRaw | admin-ui/app/services/rollups.py:281-289 | for an hour or less the average is the true mean rounded down and names are counted once |
| Dashboard.EdgeDeltaIsRest | admin-ui/app/services/rollups.py:313-363 | the edge total is what the rows do not account for |
| Dashboard.AverageWithinTwo | admin-ui/app/services/rollups.py:231-244 | with complete hours the truncated average is more than the true mean minus 2, whatever is null, and at most the true mean when no group of the full hours mixes null and non-null latencies |
| Dashboard.AverageAtMostMeanIff | admin-ui/app/services/rollups.py:320-323 | for a given pattern of nulls the average is at most the mean for all latency values exactly when no (hour, client, node) group of the full hours is mixed |
| Dashboard.NullLatencyBreaksAverage | admin-ui/app/services/rollups.py:320-323 | a window with complete hours and one null latency whose average exceeds the bound |
| Dashboard.UniqueDomainsBounds | admin-ui/app/services/rollups.py:188-228 | unique_domains lies between the true number of distinct names and the total |
| Dashboard.StatsService.GetDashboardStats | admin-ui/app/services/rollups.py:273-363 | every answer is that of a computation less than 60 seconds old; its counters never exceed that computation's raw window and equal it when the hours were complete then |
| Dashboard.ViewTwice | admin-ui/app/services/rollups.py:269-300 | a second view in the same hours and within the cache time repeats the first answer, whatever happened to the database |
| LatencyLoss.HitsFallShort | dnstap-processor/internal/buffer/buffer.go:19-31 | over any history the cache-hit count is the number of events recorded under 5 ms less the number recorded as 0, which stands for under 1 ms or unmeasured |
| LatencyLoss.TimedFallShort | admin-ui/app/services/rollups.py:42-49 | the number of events with a latency falls short of the total by the number recorded as 0 |
| LatencyLoss.CountersFromEvents | admin-ui/app/services/rollups.py:34-60 | the dashboard's total, blocked, NXDOMAIN and SERVFAIL counts are numbers of posted events |
| LatencyLoss.LatencySumUnaffected | admin-ui/app/services/rollups.py:188-224 | over any history the latencies summed by the queries are the recorded ones |
| Pacing.QPSPacer.Wait | admin-ui/app/services/boot_burst.py:132-141 | each call reserves the next slot of the slot sequence and never returns a delay that ends before it |
| Pacing.MakeQPSPacer | admin-ui/app/services/boot_burst.py:114-130 | a non-positive rate is refused |
| Pacing.SlotIs | admin-ui/app/services/boot_burst.py:132-141 | no slot is later than needed: it is the clock, or one stretched interval after the slot before |
| Pacing.SlotsSpaced | admin-ui/app/services/boot_burst.py:104-141 | for all clock readings and draws, slots m and k are at least (m-k)/qps apart |
| Pacing.WindowHoldsAtMost | admin-ui/app/services/boot_burst.py:104-141 | a window of length L holds at most L*qps+1 slots |
| Pacing.QnamePacer.Wait | admin-ui/app/services/boot_burst.py:164-172 | reserves the time for a name and remembers it |
| Pacing.SameNameSpaced | admin-ui/app/services/boot_burst.py:144-172 | reservations for one name are at least the minimum interval apart, whatever the clock |
| Pacing.UndelayedIff | admin-ui/app/services/boot_burst.py:361-362 | sends leave at their reserved slots exactly when no name repeats |
| Pacing.RateCeilingReachesSendsIff | admin-ui/app/services/boot_burst.py:360-363 | for all clock readings and jitter draws the sends keep the ceiling in every window, exactly when no repeat is followed by a new name, nor a tight repeat by a name last asked for before its own previous ask |
| Pacing.ShortIntervalsSmoothIff | admin-ui/app/services/boot_burst.py:360-363 | when the minimum interval is at most one slot, that is: no name is asked for the first time after some name was repeated |
| Pacing.CeilingBreaks | admin-ui/app/services/boot_burst.py:361-362 | for any other order some clock readings, without jitter, make the sends exceed the ceiling |
| Pacing.LateThreadsKeepCeilingIff | admin-ui/app/services/boot_burst.py:132-172 | when threads may reach the name gate any time after their slots, the sends keep the ceiling in every run exactly when there is at most one query, or all ask for one name whose interval is at least a slot |
| Pacing.RateCeilingFailsForSends | admin-ui/app/services/boot_burst.py:361-362 | with a repeated name two sends leave at one instant |
| Burst.EveryBurst | admin-ui/app/services/boot_burst.py:325-391 | over every interleaving: in_flight and max_concurrency stay within the workers, queries_sent is the number of sends, a TTL is recorded for exactly the pairs that succeeded, the number of steps is bounded, and a stuck run has finished every pair with 1..max_retries+1 attempts, none after a success |
| Burst.StepKeeps | admin-ui/app/services/boot_burst.py:355-380 | each atomic section of a worker keeps the invariant |
| Burst.DoneIsFinal | admin-ui/app/services/boot_burst.py:374-376 | a finished pair is never touched again |
| Burst.NeverStuck | admin-ui/app/services/boot_burst.py:382-385 | while a pair is unfinished some step is possible |
| Burst.Workers | admin-ui/app/services/boot_burst.py:383 | the smaller of the setting and the number of pairs, and at least one |
| Burst.Dedup | admin-ui/app/services/boot_burst.py:345 | the work list has no duplicates, the same pairs, and first-occurrence order |
| Burst.WarmOne | admin-ui/app/services/boot_burst.py:355-380 | the retry loop stops at the first success or after max_retries+1 attempts |
| Burst.FinishedIsDetermined | admin-ui/app/services/boot_burst.py:355-380 | the outcomes of a pair's sends alone fix its attempts, so pool and loop agree |
| Burst.Summarise | admin-ui/app/services/boot_burst.py:300-391 | succeeded is the number of pairs with a success, failed the rest; completed exactly when no pair failed, failed exactly when all did |
| Precache.CacheIsMinimum | admin-ui/app/services/precache.py:257-271 | after any history a pair's TTL is the least ever observed and its time the latest |
| Precache.SkippedIsFresh | admin-ui/app/services/precache.py:307-337 | a skipped pair has more than max(20% of its least TTL, 30 s) left of every TTL it was answered with |
| Precache.SkippedIffFresh | admin-ui/app/services/precache.py:307-337 | a pair is skipped exactly when more than 30 s and more than 20% are left of its least TTL since its latest warm |
| Precache.SkippedIffWithin | admin-ui/app/services/precache.py:326-327 | with the fixed interval a pair is skipped exactly until it has passed |
| Precache.PairTtlCache.GetPairsNeedingRefresh | admin-ui/app/services/precache.py:307-337 | the result are the pairs at strictly increasing ranks, those that need a refresh and no other |
| Precache.PairTtlCache.WarmingPass | admin-ui/app/services/precache.py:355-374 | warms the best ranked due pairs: one is left out only when the limit is reached and then ranks behind all warmed; records exactly the successes |
| Precache.MinResponseTtl | admin-ui/app/services/precache.py:191-210 | the least answer TTL, or the least negative TTL of section 5 of RFC 2308 when there is no answer, or none |
| Rpz.LoadFile | dnstap-processor/cmd/dnstap-processor/main.go:144-172 | loads exactly the names its lines contribute, each of them lower case, without white space and readable |
| Rpz.Render | admin-ui/app/services/rpz.py:64-89 | writes the header and one rule per domain, in code-point order |
| Rpz.OrderIsUnique | admin-ui/app/services/rpz.py:73-88 | so the text depends only on the set and the serial number |
| Rpz.ZoneSerial | admin-ui/app/services/rpz.py:64-72 | the zone's SOA carries the time of rendering as its serial number |
| Resolver.RenderedAnswers | admin-ui/app/services/rpz.py:73-88 | read as a policy zone, a rendered zone answers exactly the names it was rendered for, with NXDOMAIN for the target of the block zone and a pass for that of the allow zone |
| Rpz.LoadOfRendered | admin-ui/app/services/rpz.py:64-89 | for any strings at all, what Go loads from a zone Python rendered is the first word of each line of each entry, less one trailing dot and lower-cased, comments, directives and the apex excepted; for storable names that is the set rendered less the unreadable names |
| Rpz.ZoneReloadsIff | admin-ui/app/services/rpz.py:64-89 | the loaded set is the rendered set exactly when every name is storable and loadable |
| Rpz.ParseBlocklistLines | admin-ui/app/services/rpz.py:34-57 | collects exactly what each line contributes, in hosts or domains format |
| ListLines.HostsLineNames | admin-ui/app/services/rpz.py:44-51 | a hosts line contributes the name its second word writes, whatever follows |
| ListLines.ShortHostsLine | admin-ui/app/services/rpz.py:44-51 | a hosts line of one word or none contributes nothing |
| ListLines.DomainsLine | admin-ui/app/services/rpz.py:11-31 | a domains line contributes the name it writes, with bars, stars, final dots, white space or a comment around it |
| ListLines.UrlLine | admin-ui/app/services/rpz.py:18-19 | a URL contributes nothing |
| ListLines.BangLine | admin-ui/app/services/rpz.py:40-41 | a line that begins with an exclamation mark contributes nothing |
| Rpz.ParsedIsClean | admin-ui/app/services/rpz.py:11-57 | every domain parsed from printable text is lower case, has no white space, comment sign, slash, leading star or dot, or trailing dot |
| Compiler.RegenerateRpz | admin-ui/app/services/scheduler.py:133-162 | computes the policy: manual and enabled lists of each kind, the allowed ones subtracted |
| Compiler.UpdateBlocklistsJob | admin-ui/app/services/scheduler.py:78-131 | each due list whose fetch succeeded ends with exactly the domains its lines contribute, the others keep theirs, due lists are stamped even when their fetch failed, the zones are written again exactly when a list was updated, from the resulting database, and printable texts keep the rows storable |
| Compiler.DueAgainIff | admin-ui/app/services/scheduler.py:82-100 | after an attempt a list is due again exactly when its interval has passed |
| Compiler.FlaggedIffPolicy | dnstap-processor/cmd/dnstap-processor/main.go:182-187 | after regenerate, render and reload, a query is flagged exactly when a blocked entry and no allowed entry has its name as the first word of a line; for storable databases, exactly when the policy blocks the name and the loader can read it |
| Compiler.VerdictIsPolicyIff | dnstap-processor/cmd/dnstap-processor/main.go:144-187 | for any database, every query is judged as the policy says exactly when no blocked name has a blank and no unstorable entry has a line beginning with a name the policy treats differently |
| Compiler.ManualStorableIff | admin-ui/app/routers/blocklists.py:302-306 | a manual entry is storable exactly when its input has no white space between its ends |
| Compiler.StorableParts | admin-ui/app/services/scheduler.py:133-148 | parsed list rows and manual inputs without inner white space make the database storable |
| Compiler.RegenerateAndReload | dnstap-processor/cmd/dnstap-processor/main.go:137-187 | the composed programs: the resolver answers NXDOMAIN for exactly the effectively blocked names and passes exactly the allowed ones, and the exact condition for every flag to be the policy's |
| Compiler.ZonesObeyPolicy | admin-ui/app/services/scheduler.py:149-162 | for storable databases the two zones tell a resolver to do what the policy says and nothing else |
| Compiler.FlagMatchesAnswer | dnstap-processor/cmd/dnstap-processor/main.go:174-187 | but for "@" and names with a semicolon, the processor flags exactly what the resolver blocks |
| Compiler.BlankInEntryBlocksAnotherName | admin-ui/app/routers/blocklists.py:302-306 | a stored entry of two words makes the loader block the first word |
| Compiler.BlocklistsApply | admin-ui/app/routers/blocklists.py:336-388 | the sets written and the rows left, with any subset of fetches failing |
| Compiler.ApplyMatchesRegenerate | admin-ui/app/routers/blocklists.py:336-388 | when every fetch succeeds both compilers give the same blocked and allowed sets |
| Compiler.CompilersAgreeIff | admin-ui/app/routers/blocklists.py:346-374 | both zones agree exactly when no failed allow list kept a domain nothing else allows, and no failed block list kept one that is neither allowed nor blocked by anything else |
| Compiler.FailedFetchSplitsCompilers | admin-ui/app/routers/blocklists.py:346-374 | one failed list with a stored domain, block or allow, makes them differ |
| Processor.ResponseProcessor.Process | dnstap-processor/cmd/dnstap-processor/event.go:52-110 | records the latency before the ship decision, and ships exactly the decodable frames that are not dropped |
| Processor.ShippedInOrder | dnstap-processor/cmd/dnstap-processor/event.go:52-110 | the shipped events are the frames that ship, in order, each with its client, question, time and latency in whole milliseconds |
| Processor.ObservedInOrder | dnstap-processor/cmd/dnstap-processor/event.go:85-100 | the samples are those of the measured frames, in order, each in the series of its sender |
| Processor.LatencyIff | dnstap-processor/cmd/dnstap-processor/latency.go:19-35 | a latency is measured exactly when both times are present and the response is later, and is the time between |
| Processor.DatedBy | dnstap-processor/cmd/dnstap-processor/event.go:52-110 | an event is dated by its response, else its query, else its arrival |
| Processor.ReadsInTime | dnstap-processor/cmd/dnstap-processor/main.go:137-142 | a shipped event finds zone files read less than a second before |
| Processor.ReadsApart | dnstap-processor/cmd/dnstap-processor/main.go:137-142 | two reads are at least a second apart |
| Processor.DropKeepsObservations | dnstap-processor/cmd/dnstap-processor/event.go:85-100 | dropping leaves the samples of both series identical for every frame sequence |
| Processor.DropKeepsNonProberEvents | dnstap-processor/cmd/dnstap-processor/event.go:52-110 | up to the blocked flag, what is shipped with the drop on is the non-prober subsequence of what is shipped with it off |
| Processor.DropIsInvisibleIff | dnstap-processor/cmd/dnstap-processor/main.go:137-187 | the flag agrees too, for every history of the zone files, unreadable ones included, exactly when each non-prober event finds the same list of reloads behind it in both modes |
| Processor.UnchangedZonesHideDrop | dnstap-processor/cmd/dnstap-processor/main.go:137-187 | while the zones do not change the shipped sequences agree in full |
| Processor.DropCanChangeFlag | dnstap-processor/cmd/dnstap-processor/main.go:137-142 | for any gap, a probe that long before a client's query tells the modes apart under some history of the files |
| Audit.EveryRunReplays | admin-ui/app/routers/audit.py:78-261 | after any run of adds, toggles, deletes and rollbacks, replaying the log from nothing gives the zone table, and domains are unique |
| Audit.RollbackOfDelete | admin-ui/app/routers/audit.py:140-163 | rolling back a delete restores every column under an unused id, unless a live zone has the domain |
| Audit.RollbackUndoes | admin-ui/app/routers/audit.py:97-261 | a rollback right after its operation undoes it, a deletion up to the id |
| Audit.ToggleFlips | admin-ui/app/routers/forward_zones.py:93-118 | a toggle flips the flag and nothing else, and a second one restores it |
| Audit.AddStores | admin-ui/app/routers/forward_zones.py:52-90 | a new zone has its domain in stored form, its servers trimmed, and no description when the text is blank |
| Audit.NodeDeletionBreaksReplayIff | admin-ui/app/models/forward_zone.py:23-25 | after a cascading node deletion the log describes the table exactly when the node had no zone |
| Audit.ZoneAdmin.Add | admin-ui/app/routers/forward_zones.py:52-90 | inserts the normalized zone with its record, or refuses a taken domain |
| Audit.ZoneAdmin.Toggle | admin-ui/app/routers/forward_zones.py:93-118 | flips the zone and records both versions |
| Audit.ZoneAdmin.Delete | admin-ui/app/routers/forward_zones.py:121-144 | removes the zone and records it |
| Audit.ZoneAdmin.RollbackChange | admin-ui/app/routers/audit.py:78-261 | dispatches on the recorded action and keeps replay and uniqueness |
| MetricsQueue.EveryRunKeeps | sync-agent/agent.py:399-419 | in every run, with rows damaged at any time, a sample leaves the queue only accepted or aged, and every queued sample that parses is newer than everything removed after acceptance |
| MetricsQueue.EveryRunIsOrdered | sync-agent/agent.py:399-419 | in every run from the empty queue without damage, every queued id is greater than every id removed after acceptance |
| MetricsQueue.OrderSurvivesIff | sync-agent/buffer.py:40-54 | with damaged rows the order survives every push of a given limit exactly when, among the rows within the limit, none that parses lies behind a damaged one |
| MetricsQueue.PushLeavesSentIff | sync-agent/agent.py:403-419 | a push leaves an inserted sample queued exactly when an acknowledgement was lost or the agent died before the delete |
| MetricsQueue.FaultFreeRunsDeliverOnce | sync-agent/agent.py:399-419 | in every run without those faults no sample is inserted twice, and each is queued, aged or inserted |
| MetricsQueue.DuplicateIff | sync-agent/agent.py:403-419 | some push of a given limit inserts a sample again exactly when one of the rows it would post was inserted before |
| MetricsQueue.MetricsBuffer.PushPending | sync-agent/agent.py:403-419 | deletes exactly the items accepted before the first failure |
| MetricsQueue.MetricsBuffer.Peek | sync-agent/buffer.py:40-54 | the parsable rows among the first `limit` |
| MetricsQueue.RetryDuplicates | sync-agent/agent.py:406-419 | a retry after a lost acknowledgement inserts the sample twice |
| MetricsQueue.CorruptedRowStaysBehind | sync-agent/buffer.py:47-54 | a run from the empty queue in which a damaged row stays queued below a shipped id |
| MetricsQueue.NothingToSendIff | sync-agent/buffer.py:40-54 | the push finds nothing exactly when no row within its limit parses |
| History.GenerateBuckets | admin-ui/app/routers/analytics.py:504-509 | the grid from the rounded start up to now, with no gap |
| History.FillSeries | admin-ui/app/routers/analytics.py:540-556 | each series has at each bucket the count of that bucket, and sums to the counts of the generated buckets |
| History.SeriesAddUp | admin-ui/app/routers/analytics.py:504-556 | for sizes 1, 5, 15 and 60 every event of the window is plotted exactly once, so each series sums to its filtered count |
| History.ShortWindowsAddUp | admin-ui/app/routers/analytics.py:461-484 | the bucket sizes chosen for windows of 1 to 72 hours all add up |
| History.FilteredIsNumber | admin-ui/app/routers/analytics.py:513-538 | a filtered count is the number of events of the window that the series is about |
| History.BucketHoldsEvent | admin-ui/app/routers/analytics.py:504-538 | an event is plotted in the bucket that holds its time |
| History.ChartResolution | admin-ui/app/routers/analytics.py:461-484 | each window of the page gets 48 to 96 buckets |
| History.TwoHourBucketsDropOddHours | admin-ui/app/routers/analytics.py:473-484 | for size 120 the total is complete exactly when no event lies an odd number of hours after the first bucket |
| History.EventAfterOneHourIsLost | admin-ui/app/routers/analytics.py:504-556 | in any such window an event one hour after its start is counted and not plotted |
| Schedule.CircularRule | admin-ui/app/services/blocklist_scheduler.py:42-60 | for valid times the test is (now-start) mod 1440 < (end-start) mod 1440 |
| Schedule.ActivePerDay | admin-ui/app/services/blocklist_scheduler.py:42-60 | a schedule is active (end-start) mod 1440 minutes a day |
| Schedule.ActivePerWeek | admin-ui/app/services/blocklist_scheduler.py:63-98 | a scheduled list is active that long on each listed day, on all when none is listed, and never on another |
| Schedule.Scheduler.RunScheduleCheck | admin-ui/app/services/blocklist_scheduler.py:113-138 | every scheduled list ends at its computed activity, nothing else changes, and the two numbers returned are those of the lists switched on and off |
| Schedule.CheckIsIdempotent | admin-ui/app/services/blocklist_scheduler.py:101-138 | a second check at the same time changes nothing |
| NodeLifecycle.NodeStateTransitions | admin-ui/app/services/scheduler.py:195-220 | after a tick no active node is past the stale limit and no stale node past the offline limit, and the numbers returned are those of the nodes moved |
| NodeLifecycle.QuarantineIsSticky | admin-ui/app/routers/node_sync.py:151-181 | no run of heartbeats and ticks leaves error or quarantine |
| NodeLifecycle.LastSeenIs | admin-ui/app/routers/node_sync.py:151-156 | after any run a node was last seen at its latest heartbeat or contact |
| NodeLifecycle.HeartbeatStatus | admin-ui/app/routers/node_sync.py:157-181 | a heartbeat keeps error and quarantine and otherwise makes a node active unless it was gone too long |
| NodeLifecycle.StaysIff | admin-ui/app/routers/node_sync.py:136-181 | over any run, registrations, ingests and metrics included, error or quarantine lasts exactly when there is none of those three |
| NodeLifecycle.QuarantineEntry | admin-ui/app/routers/node_sync.py:158-181 | after any run a node is in quarantine exactly when some heartbeat found it stale or offline after a gap over the limit and no other contact followed |
| NodeLifecycle.ReturnIsQuarantinedIff | admin-ui/app/routers/node_sync.py:151-181 | a silent node is quarantined on return exactly when the gap exceeds the limit and a tick saw it past the stale limit |

## Left out

- The sequence counter is unbounded: wrap-around of the 64-bit counter after 2^64 puts is not modelled.
- EventBuffer.Buffer.Open: takes a bucket that earlier runs of the buffer wrote; foreign files whose keys disagree with their values are outside the model.
- Ingest.NewRowHolds: the time is kept as posted; a time that the primary cannot read, which it replaces by its own clock, is not modelled.
- Resolver.RenderedAnswers: escapes, quotes and parentheses of the master file format are not modelled; names with them are outside what lists contribute.
- Marshalling an event never fails in the source's type and is not a separate outcome; bbolt's own cursor behaviour while deleting is taken as documented order.
- Pacing.RateCeilingReachesSendsIff: is about threads that reach the name gate at their slots, in slot order; late threads are the subject of Pacing.LateThreadsKeepCeilingIff.
- Retention deletes rows of the event table, and deleting a client or node rewrites or cascades rows; the rollup results are about runs without them.
- Percentages, queries per second and time saved on the dashboard are floating-point presentation of the counts.
- The readiness probe, the boot orchestration and its status record, and advisory locking between processes.
- Burst.EveryBurst: a send that raises is not modelled, since the send function in use catches every exception; back-off and pacing times are in `Pacing`, not in the interleaving.
- Splitting the configured list of prober addresses.
- The protobuf receiver's goroutines, which build events concurrently with the main loop and drop them under backpressure.
- Blocklist rollbacks in the audit log, which follow the same pattern as forward zones.
- Pages, login, CSRF, Grafana proxy, backups, migrations, node packages, PTR lookup, client groups, version checks and configuration loading.
- Letters are folded and white space recognised in ASCII only.
