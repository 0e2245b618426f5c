# DoH-AutoProxy: a verified model of its stateful core

The files here model the parts of the proxy whose behaviour depends on state, order or
interleaving, and prove what they are relied on for. Sequential code is imperative Dafny (classes
and loops proved against specification functions); concurrent code is a step machine with any
number of callers, whose theorems speak about every reachable state.

| file | models |
|---|---|
| `QueryLogger.dfy`, over `QueryLogSpec.dfy`, `LogFile.dfy`, `LogReader.dfy` | `internal/querylog/querylog.go`: the ring with its counters, the QPS window, the size-bounded file, the backward reader, paging |
| `WriterQueue.dfy` | the bounded write queue of the same file: AddLog calls, the writer goroutine and Close, interleaved |
| `Bootstrap.dfy`, `BootstrapRetry.dfy` | `internal/resolver/bootstrap.go`: the single-flight cache with stale fallback, and the server rotation |
| `ConnPool.dfy` | `internal/client/tcp.go` and `dot.go`: the ten-slot connection pool with retry and a concurrent Close (one protocol, written twice in the repository) |
| `Race.dfy` | `internal/client/resolver.go`: RaceResolve |
| `Names.dfy`, `Router.dfy`, `Route.dfy` | `internal/router/router.go`: the name chain, the first-match policy, the dual path, the service-binding rewrite, Route |
| `Words.dfy`, `ConfigText.dfy` | `internal/config/config.go`: the text of hosts.txt and rule.txt |
| `ServiceManager.dfy` | `internal/manager/manager.go`: start, stop, reload with rollback |
| `Options.dfy`, `Sequences.dfy`, `Sets.dfy`, `Runs.dfy`, `Text.dfy`, `Dns.dfy` | shared vocabulary |

## Main results

* **Query log.** In any run of AddLog and Clear the ring read oldest to newest is the last
  `maxHistory` entries since the last Clear, both counters are exactly the tallies of those
  entries, IDs are strictly increasing, and upkeep of the QPS window costs at most one copied
  element and one index advance a call. The file never exceeds its limit when records fit the
  slack between limit and target. While records are at most 1024 bytes it holds exactly the newest
  records, whole and in order, its cached count is their number, and a logger started on it
  restores exactly them. For every content, chunk size, offset and limit the backward reader shows
  a page of the decoded, filtered lines in reverse.
* **Writer queue.** FIFO conservation, nothing appended twice, no entry of a call past its check
  lost on the way, an overflow entry appended by its own call; everything sent before the stop
  signal is appended when Close returns; the file is those appends in their order, pruned as they
  go.
* **Bootstrap.** At most one resolve a host, a delete removes only its own flight, all callers of
  a flight get one answer whoever is cancelled, every address returned has a provenance and an age
  bound, and nobody waits for a flight or falls back while the entry it loaded is unexpired.
* **Connection pool.** A pooled connection has no request or response outstanding, so a reply
  answers its own request; slots and connections are conserved; no double close; over every run a
  call that fails gave up waiting, could not dial, failed to read or failed to write twice.
* **Race and route.** The class of a race result does not depend on arrival order; the dual path
  answers NOERROR exactly when some upstream of either group did, and delivers the domestic answer
  exactly when the first address of the overseas one lies in CN; Route changes a response code in
  one case only, and the TTLs of a negative answer but never those of OPT records; and for every
  query it is stated, on the upstream results alone, when NOERROR reaches the client and when the
  order of arrival can change the answer.
* **Config text.** Loading undoes saving exactly for well-formed maps, and every loaded map is
  well-formed; the saved bytes do not depend on map iteration order.
* **Service manager.** After one start and any reloads and stops, failing or not, what runs is
  exactly what the manager's fields hold, and the service is wholly down, or built with exactly
  the servers that are wanted and can be built from the configuration of the last reload that
  returned no error.

## What the code does not guarantee

Properties one might expect and the code does not have. Each comes with the exact condition under
which the code does meet it and an input or a reachable state that shows it fails:

* For an HTTPS or SVCB query that the rewrite applies to, which of an NXDOMAIN and another negative
  message arrives first decides between NOERROR and an error code (`Route.OrderFreeIff`,
  `OrderCanMatter`): the race keeps the first negative message, and only NXDOMAIN is rewritten.
* The QPS scan misses queries when a stale time was recorded after a fresh one, and when the clock
  is behind a recorded time that made the window drop them (`QueryLog.QueryLogger.CurrentQPS`,
  `ClockSteppedBack`, `ClockBehindRecords`). Entries without a time are stamped under the lock, so
  both need callers that supply times, or a clock that steps back.
* A log view with a negative offset stops its file scan too early
  (`QueryLog.QueryLogger.GetLogs`, `NegativeOffset`). The web handler, the only caller, clamps
  offsets to 0 (`internal/web/server.go:489-492`).
* Pruning can tear a record longer than the 1024-byte probe (`LogFile.CutOnLineStartIff`,
  `LongRecordIsTorn`).
* An AddLog call that passed the closed check can queue its entry after the writer has gone
  (`WriterQueue.LateSendIsLost`; exactly which entries are lost: `FlushedIffSentBeforeExit`).
* A cached bootstrap entry can vanish before it expires (`Bootstrap.CanVanishIff`,
  `FreshEntryCanVanish`).
* The server rotation skips a server when its 64-bit counter wraps inside a loop, unless the
  number of servers divides 2^64 (`BootstrapRetry.AllTriedIff`, `WrapSkipsServer`).
* A connection can be open in the pool after Close has returned (`ConnPool.OpenAfterCloseIff`,
  `OpenAfterClose`).
* routeInternal trims a trailing dot and matchNames trims again, so names ending in two dots get
  another chain (`Names.ChainOfChainIff`, `TrimmedTwice`). A name read from the wire ends in two
  dots only when the first of them is escaped; escapes are otherwise not modelled.
* Pattern rules with upper-case letters are read back lower-cased
  (`ConfigText.LoadSaveIff`, `PatternCaseIsLost`).
* A second start on a running service leaks its router (`Service.ServiceManager.Start`); the program
  starts the manager once (`cmd/doh-autoproxy/main.go:30`).
* A reload that stops persisting deletes the old log file even when it is rolled back
  (`Service.ServiceManager.Reload`, `RolledBackWithoutLog`).

## Model

| member | source | states |
|---|---|---|
| QueryLog.QueryLogger.Empty | internal/querylog/querylog.go:79-104 | a new logger satisfies the whole invariant; sizes that are not positive default to 5000 entries and 1 MB; a disabled logger does not persist |
| QueryLog.QueryLogger.NewQueryLogger | internal/querylog/querylog.go:79-112 | the restored lifetime is the decodable lines of the file, and the cached line count is exact exactly when the file is missing or newline-terminated |
| QueryLog.QueryLogger.RestoreStatsFromFile | internal/querylog/querylog.go:148-170 | totals count exactly the decodable lines in order, the line count grows by all lines, and the next ID is one above the greatest restored one |
| QueryLog.TokensOfReturns | internal/querylog/querylog.go:158-167 | lines that end in a carriage return restore like others |
| QueryLog.TokensIff | internal/querylog/querylog.go:158-160 | a line scanner counts the newlines of a file exactly when the file is newline-terminated, else one more |
| QueryLog.QueryLogger.UpdateTotals | internal/querylog/querylog.go:245-252 | one more query, one more CN query when the tag names CN, one more Overseas query when it names only Overseas; the totals stay the counts over the whole lifetime |
| QueryLog.QueryLogger.AddLog | internal/querylog/querylog.go:178-209 | a disabled or closed logger changes nothing; otherwise a copy with the next ID, and the clock's time when it had none, joins history, the total it counts towards grows by one, it goes to the queue or the file when persisted, and every invariant is kept |
| QueryLog.QueryLogger.Record | internal/querylog/querylog.go:183-204 | the locked part: ring, counters, window, totals and IDs move together to the extended history |
| QueryLog.QueryLogger.LogAt | internal/querylog/querylog.go:254-257 | logical index i is the i-th of the last maxHistory entries, wherever the ring starts |
| QueryLog.QueryLogger.AddToMemory | internal/querylog/querylog.go:259-279 | the ring holds the last maxHistory entries of the extended history and both counters are exactly their tallies |
| QueryLog.QueryLogger.DecrementTopCounters | internal/querylog/querylog.go:281-297 | both counter maps lose one occurrence, and a key whose count reaches zero |
| QueryLog.QueryLogger.RecordRecentLog | internal/querylog/querylog.go:299-317 | for any timestamps the window has dropped exactly what had to be dropped, still answers for everything recorded, its head is fresh, and the cost accounting holds |
| QueryLog.QueryLogger.Compact | internal/querylog/querylog.go:309-316 | compaction, done or not, keeps the live part, and afterwards more than half of the buffer is live |
| QueryLog.QueryLogger.AdvanceStart | internal/querylog/querylog.go:304-307 | the start index stops at the first time that is not stale |
| QueryLog.QueryLogger.CurrentQPS | internal/querylog/querylog.go:642-657 | for every clock: the rate is that of the scan of the times not dropped, and exact, a tenth of the queries of the last 10 seconds, exactly when no stale time was recorded after a fresh one and nothing dropped is fresh; with a clock not behind the records only the first condition is left, and times in order meet it |
| QueryLog.QueryLogger.CountRecent | internal/querylog/querylog.go:648-654 | the scan counts the longest fresh end of the live part |
| QueryLog.QueryLogger.Clear | internal/querylog/querylog.go:659-669 | ring, counters and window forget; totals, IDs and file stay; the invariant holds |
| QueryLog.QueryLogger.PruneLogFile | internal/querylog/querylog.go:372-442 | the file becomes its pruned suffix and the result is its number of newlines |
| QueryLog.QueryLogger.AppendToFile | internal/querylog/querylog.go:319-359 | file and cached count move as AppendRecord, whose whole runs are bounded and exact |
| QueryLog.QueryLogger.EnqueueFileWrite | internal/querylog/querylog.go:218-229 | an entry goes to the back of the queue, or to the file when the queue is full, or nowhere once closed |
| QueryLog.QueryLogger.QueueSize | internal/querylog/querylog.go:114-125 | the queue holds as many entries as the ring, but at least 64 and at most 1024 |
| QueryLog.QueryLogger.Close | internal/querylog/querylog.go:231-243 | the first Close appends the whole queue in order; later ones do nothing |
| QueryLog.QueryLogger.GetLogs | internal/querylog/querylog.go:444-505 | every path returns a page of the newest-first list (filtered under search) and its length, or the cached count for an unsearched file view; the early stop of that view shows the full page exactly for offsets that are not negative, or with nothing left unread |
| QueryLog.WalkPages | internal/querylog/querylog.go:444-505 | asking for page after page up to the total glues to the whole view, of the ring across its wrap point and of the file, searched and unsearched |
| QueryLog.SearchedView | internal/querylog/querylog.go:603-614 | a searched view, of ring or file, is the entries of the unsearched one that show the text, in any case of letters, in one of seven fields |
| QueryLog.NegativeOffset | internal/querylog/querylog.go:457-463 | a file of two entries whose page at offset -1 misses the older one |
| QueryLog.QueryLogger.ReadLogsFromFileBackwards | internal/querylog/querylog.go:507-587 | the page of the visited part of the file's matching entries, newest first |
| QueryLog.QueryLogger.PageOfRing | internal/querylog/querylog.go:474-485 | the page of the reversed ring contents, across the wrap point, and the ring's length |
| QueryLog.QueryLogger.SearchRing | internal/querylog/querylog.go:487-504 | the page of the matching ring entries, newest first, and how many match |
| QueryLog.Replay | internal/querylog/querylog.go:178-317 | over any run of AddLog and Clear: the view is the last maxHistory entries since the last Clear, newest first; totals count the whole run; copies and advances are at most the number of calls |
| QueryLog.LogAndClose | internal/querylog/querylog.go:178-243 | a logger on a file of entries, any AddLog calls, then Close: the file is the earlier entries followed by appends of exactly the logged ones, pruned as they go |
| QueryLog.RestartAfterRun | internal/querylog/querylog.go:79-170 | then the view is the newest of the earlier and the logged entries with an exact count, and a new logger on the file restores exactly those, as totals and with a next ID above all of theirs |
| Sequences.PagesCover | internal/querylog/querylog.go:474-485 | consecutive pages of any positive size glue back to the whole list: none lost, none repeated |
| QueryLogSpec.RingOverwrite | internal/querylog/querylog.go:275-277 | overwriting the oldest slot and advancing drops the front of the reading and appends at its back |
| QueryLogSpec.RingIndex | internal/querylog/querylog.go:255-257 | the modular index reads the unrolled ring |
| QueryLogSpec.RingAppend | internal/querylog/querylog.go:263-266 | below capacity the ring grows to the last entries of the longer history |
| QueryLogSpec.RingEvict | internal/querylog/querylog.go:273-278 | at capacity the evicted entry is the oldest of the window and the ring becomes the shifted window |
| QueryLogSpec.IncrementAddsOne | internal/querylog/querylog.go:260-261 | incrementing a counter map is adding one occurrence to the tally |
| QueryLogSpec.DecrementRemovesOne | internal/querylog/querylog.go:286-296 | decrementing with deletion at zero is removing one occurrence from the tally |
| QueryLogSpec.CountsAfterShift | internal/querylog/querylog.go:259-297 | counting in the new and out the evicted entry gives the tally of the shifted window, also when both share a key |
| QueryLogSpec.KeysCount | internal/querylog/querylog.go:259-261 | the tallies are the numbers of entries with that client address and with that domain |
| QueryLogSpec.CountSinceIs | internal/querylog/querylog.go:642-657 | the window count is the number of times not before the cutoff |
| QueryLogSpec.ScanCountsAllIff | internal/querylog/querylog.go:647-654 | the backward scan counts all fresh times exactly when no stale time was recorded after a fresh one; so always for non-decreasing times |
| QueryLog.ClockSteppedBack | internal/querylog/querylog.go:642-657 | a logger whose entries step back by ten seconds: one of two queries is inside the window and the rate is zero |
| QueryLog.ClockBehindRecords | internal/querylog/querylog.go:299-317 | a logger asked with a clock behind its newest entry: both queries, recorded in order, are inside the window and the rate is that of one |
| QueryLogSpec.ScanStopsAt | internal/querylog/querylog.go:649-652 | dropping a front that ends in a stale time does not change the scan |
| QueryLogSpec.WindowPush | internal/querylog/querylog.go:300 | the window relation survives a new time, in any order |
| QueryLogSpec.WindowAdvance | internal/querylog/querylog.go:304-307 | it survives dropping a time stale for the newest one |
| QueryLogSpec.WindowCompact | internal/querylog/querylog.go:310-316 | it survives the in-place compaction |
| QueryLogSpec.WindowScan | internal/querylog/querylog.go:642-657 | scanning the live part equals scanning everything ever recorded |
| QueryLogSpec.DropsAdvance | internal/querylog/querylog.go:302-307 | moving the start to the first time that is not stale drops exactly what the new time makes stale |
| QueryLogSpec.DroppedStale | internal/querylog/querylog.go:302-307 | whatever was dropped is stale for the greatest recorded time |
| QueryLogSpec.DroppedCountsAllIff | internal/querylog/querylog.go:642-657 | for every dropped prefix and every cutoff: the scan of the rest counts everything exactly when no stale time follows a fresh one and nothing dropped is fresh |
| QueryLogSpec.WindowCountsAllIff | internal/querylog/querylog.go:642-657 | the same of the live part of the window, for every clock; a clock not behind the records finds nothing dropped fresh |
| QueryLogSpec.CostCompacted | internal/querylog/querylog.go:309-316 | a compaction is paid for by the elements it drops |
| QueryLogSpec.CostBefore | internal/querylog/querylog.go:299-317 | total copies and total advances are at most the number of calls |
| QueryLogSpec.TotalsAdd | internal/querylog/querylog.go:245-252 | one update keeps the totals equal to the counts over the lifetime |
| QueryLogSpec.TotalsCount | internal/querylog/querylog.go:245-252 | the totals are the number of entries whose tag names CN, and of those that name Overseas but not CN |
| QueryLogSpec.RegionIs | internal/querylog/querylog.go:247-251 | CN takes precedence: GeoIP(CN/Fallback-Overseas) counts as CN |
| QueryLogSpec.IdsAdd | internal/querylog/querylog.go:189-190 | IDs stay strictly increasing and below the next one |
| QueryLogSpec.IdsRestore | internal/querylog/querylog.go:165-167 | a restored entry keeps every ID below the next one |
| QueryLogSpec.MatchesIff | internal/querylog/querylog.go:603-614 | an entry matches exactly when client, ECS, domain, type, upstream, answer or status contains the text, whatever the case |
| LogFile.LinesOfEncode | internal/querylog/querylog.go:323-327 | a file of records followed by newlines has exactly those lines |
| LogFile.EncodeLines | internal/querylog/querylog.go:323-327 | a newline-terminated file is the encoding of its lines |
| LogFile.CutOnLineStartIff | internal/querylog/querylog.go:391-422 | pruning tears no line exactly when a newline is in the probed window or directly before it |
| LogFile.ShortLinesCutOnLineStart | internal/querylog/querylog.go:412-422 | so it tears none when every line is at most 1024 bytes |
| LogFile.PrunedIs | internal/querylog/querylog.go:372-442 | what is kept: the bytes behind the first newline of the 1024 probed ones, or exactly the target when they hold none |
| LogFile.CutKeepsLines | internal/querylog/querylog.go:424-439 | a cut at a line start keeps a suffix of the lines and the terminating newline |
| LogFile.PrunedKeepsWholeLines | internal/querylog/querylog.go:372-442 | the pruned file is the encoding of a suffix of its lines |
| LogFile.LongRecordIsTorn | internal/querylog/querylog.go:412-422 | appending 980 records of 1069 bytes to a missing 1 MB log leaves a file that starts with the last 1049 bytes of a record |
| LogFile.FileBoundIff | internal/querylog/querylog.go:327-358 | an append keeps every starting file within the limit exactly when the record fits the slack between limit and target |
| LogFile.RunStaysWithinLimit | internal/querylog/querylog.go:319-359 | after any run of such appends from any starting file the file is within the limit |
| LogFile.CountExactStep | internal/querylog/querylog.go:338-358 | an append, with or without pruning, keeps the cached count equal to the newline count |
| LogFile.CountStaysExact | internal/querylog/querylog.go:319-359 | so does any run of appends |
| LogFile.AppendKeepsNewest | internal/querylog/querylog.go:319-359 | an append to a file of whole records keeps a suffix of them and adds the new one; all of them when they fit |
| LogFile.RunKeepsNewestRecords | internal/querylog/querylog.go:319-442 | after any run of appends to a file of whole records, or to a missing one, the file is exactly the newest of all records, the last included, with an exact count, and nothing is lost while everything fits |
| LogReader.BehindStep | internal/querylog/querylog.go:561-573 | one more byte to the left extends the open line or closes it into the result |
| LogReader.BehindWhole | internal/querylog/querylog.go:576-580 | closing the open line at the start of the file completes the list |
| LogReader.ParseReverseLine | internal/querylog/querylog.go:589-601 | decodes the line in reading order |
| LogReader.ProcessLine | internal/querylog/querylog.go:532-544 | a line extends the matching list by its entry, the page follows, and the scan stops exactly at the stop count |
| LogReader.ReadByte | internal/querylog/querylog.go:561-573 | one byte keeps the reader's state in step with the text read so far |
| LogReader.ReadChunk | internal/querylog/querylog.go:546-574 | so does a chunk, wherever its borders cut lines |
| LogReader.ReadFirstLine | internal/querylog/querylog.go:576-586 | the first line is delivered although no newline precedes it; page and total follow |
| LogReader.ReadBackwards | internal/querylog/querylog.go:507-587 | for all contents, chunk sizes, offsets and limits: the page of the visited matching entries, newest first, and the total |
| LogReader.EarlyStopShowsFullPageIff | internal/querylog/querylog.go:457-463 | stopping after offset plus limit matches shows the full scan's page exactly for offsets that are not negative, or when nothing was left |
| LogReader.NewestFirstOfEncoded | internal/querylog/querylog.go:507-601 | reading a file of encoded entries gives those entries, filtered, newest first |
| LogReader.AppendedEntriesReadBack | internal/querylog/querylog.go:319-587 | end to end: after any appends to a file of entries, or to a missing one, the reader shows exactly the newest entries still in the file, newest first, and the cached count is their number |
| WriterQueue.FifoStep | internal/querylog/querylog.go:127-143 | every step keeps accepted = written, in hand, queued, in this order |
| WriterQueue.OwnedStep | internal/querylog/querylog.go:218-229 | every step keeps each entry in one place |
| WriterQueue.InterleavedStep | internal/querylog/querylog.go:218-229 | every step keeps the appends an interleaving of the writer's and the direct ones |
| WriterQueue.ClosingStep | internal/querylog/querylog.go:231-243 | every step keeps the relation between Close, the writer's exit and what was written |
| WriterQueue.RunKeepsInv | internal/querylog/querylog.go:114-146 | every run keeps all of these |
| WriterQueue.QueueConservation | internal/querylog/querylog.go:114-146 | in every reachable state: FIFO conservation, nothing appended twice, and the appends are exactly those of the writer and the entry of every finished direct append |
| WriterQueue.NothingLost | internal/querylog/querylog.go:218-229 | in every reachable state the entry of a call past its check is on its way, queued, in the writer's hand or among the appends, and a call is dropped only once Close was called |
| WriterQueue.CheckIff | internal/querylog/querylog.go:219-221 | the closed check lets a call pass exactly until Close sets the flag |
| WriterQueue.ClosedRefuses | internal/querylog/querylog.go:219-221 | a call that has not passed its check when Close sets the flag never appends, in any continuation |
| WriterQueue.OfferIff | internal/querylog/querylog.go:223-228 | a call past its check queues its entry at the back when there is room; when the queue is full it can append at once and the queue is untouched |
| WriterQueue.OverflowAppended | internal/querylog/querylog.go:223-228 | from every reachable state with a full queue, the call's own two steps append its entry behind everything appended so far |
| WriterQueue.WriterTakesFront | internal/querylog/querylog.go:127-133 | from every reachable state with an idle writer, its two steps append the front of the queue |
| WriterQueue.DrainFinishes | internal/querylog/querylog.go:134-142 | after the stop signal the writer's own steps append the whole queue in order and end with its exit, and Close can return |
| WriterQueue.NobodyStuck | internal/querylog/querylog.go:114-243 | in every state a call, a writer with something to do and Close have a step to take, but for a Close that waits for the writer |
| WriterQueue.CloseFlushes | internal/querylog/querylog.go:231-243 | when Close has returned, all entries sent before stopWriter was closed were appended, in order |
| WriterQueue.ExitIsFinal | internal/querylog/querylog.go:134-142 | after the writer's exit nothing more is written by it |
| WriterQueue.FlushedIffSentBeforeExit | internal/querylog/querylog.go:218-243 | an accepted entry is ever appended exactly when it was accepted before the writer's exit |
| WriterQueue.LateSendIsLost | internal/querylog/querylog.go:218-243 | a reachable state where Close has returned and an accepted entry was not appended |
| WriterQueue.DiskIsAppends | internal/querylog/querylog.go:114-146 | in every reachable state the file is the appends so far, applied in their order, with their pruning, to the file the logger started with |
| WriterQueue.DiskAfterClose | internal/querylog/querylog.go:231-243 | when Close has returned, with records of at most 1024 bytes, the file is exactly the newest of the earlier and the appended records with an exact count, and while all fit it holds every entry sent before stopWriter was closed |
| Bootstrap.PendingStep | internal/resolver/bootstrap.go:135-164 | every step keeps pending equal to the flights that have not deleted their entry |
| Bootstrap.CacheSoundStep | internal/resolver/bootstrap.go:157-163 | every step keeps cached addresses resolved for their host, with their expiry fixed by the store |
| Bootstrap.StepGrows | internal/resolver/bootstrap.go:104-172 | no step takes back time, answers, flights or the result of a finished flight |
| Bootstrap.RunKeepsInv | internal/resolver/bootstrap.go:104-172 | every run keeps the whole invariant |
| Bootstrap.ReachableInv | internal/resolver/bootstrap.go:104-172 | every reachable state satisfies it |
| Bootstrap.SingleFlight | internal/resolver/bootstrap.go:135-164 | at most one resolve a host is running, and pending names it |
| Bootstrap.DeleteRemovesOwnFlight | internal/resolver/bootstrap.go:153-155 | the deferred delete removes the deleting flight's own entry and nothing else |
| Bootstrap.SameAnswer | internal/resolver/bootstrap.go:135-172 | all callers that took the answer of one flight took the same one, also at different times of one run |
| Bootstrap.ReturnedAddress | internal/resolver/bootstrap.go:104-131 | where an address came from and how old it may be: resolved for that host; from the cache it is a cached entry's address within its TTL, as fallback within TTL plus grace, else the flight's answer |
| Bootstrap.ReachablePastCheck | internal/resolver/bootstrap.go:108-131 | in every reachable state nobody waits for a flight, fails or falls back while the entry it loaded is unexpired |
| Bootstrap.CacheHit | internal/resolver/bootstrap.go:108-116 | from every reachable state, a new caller of a host with an unexpired entry returns its address by its own steps; nothing else changes, no flight starts |
| Bootstrap.CacheMiss | internal/resolver/bootstrap.go:108-116 | from every reachable state, a new caller of a host without entry or flight starts one; when it resolves, the address is cached for cacheTTL from then on and returned, and the host is free for the next flight |
| Bootstrap.FlightsAreTraced | internal/resolver/bootstrap.go:135-172 | over every run, each flight ended with the answer of its own resolve, a successful one was stored before its callers woke, and every recorded answer was resolved by a flight of its host |
| Bootstrap.WokenAfterClose | internal/resolver/bootstrap.go:153-171 | over every run nobody is woken before the flight closed its done channel, after its store |
| Bootstrap.StoreCaches | internal/resolver/bootstrap.go:157-163 | storing puts the resolved address in the cache for the host and touches no other host |
| Bootstrap.FlightSucceeds | internal/resolver/bootstrap.go:135-172 | from every reachable state, a running flight whose resolve gives an address can store it and wake its callers with it |
| Bootstrap.CallerNeverStuck | internal/resolver/bootstrap.go:104-172 | in every reachable state a caller that has not returned has a step to take, or waits for a flight that has one |
| Bootstrap.FlightEnds | internal/resolver/bootstrap.go:151-166 | each step of a flight brings it nearer to its end, five at most, and no other step touches it |
| Bootstrap.ReturnedErrorReason | internal/resolver/bootstrap.go:119-128 | an error means the flight failed with it or the context ended, and no usable entry was seen |
| Bootstrap.CancelledWith | internal/resolver/bootstrap.go:117-128 | over every run, a caller that failed because its context ended returns the error of its context |
| Bootstrap.LostIff | internal/resolver/bootstrap.go:126 | only the delete of a failed caller of the host removes a cached entry |
| Bootstrap.NoNewThreat | internal/resolver/bootstrap.go:104-131 | while an entry is in place and unexpired no step makes a caller a threat to it |
| Bootstrap.CanVanishIff | internal/resolver/bootstrap.go:104-172 | an unexpired entry can be removed by some continuation that leaves it in place until then, exactly when some caller of its host is past its load, has not returned, and loaded nothing or an entry whose grace ends before this one expires |
| Bootstrap.FreshEntryCanVanish | internal/resolver/bootstrap.go:126 | a reachable state where that happens |
| BootstrapRetry.Bootstrapper.LookupWithRetry | internal/resolver/bootstrap.go:174-220 | servers are asked in rotation up to the first attempt that gives an address, which is the answer; with none, the last failure; the counter wraps at 2^64 |
| BootstrapRetry.PlainRotation | internal/resolver/bootstrap.go:187-191 | outside a wrap attempt i asks server (start + i) mod n |
| BootstrapRetry.WrapSkipsServer | internal/resolver/bootstrap.go:187-191 | a wrap inside the loop skips a server when n does not divide 2^64 |
| BootstrapRetry.AllTriedIff | internal/resolver/bootstrap.go:186-191 | one loop asks every server exactly when the counter does not wrap inside it or n divides 2^64 |
| ConnPool.CoreStep | internal/client/tcp.go:68-133 | every step keeps each connection in one place and its traffic balanced |
| ConnPool.SlotsStep | internal/client/tcp.go:59-92 | every step keeps unfilled, pooled, in-flight and drained slots at ten in all |
| ConnPool.RunKeepsInv | internal/client/tcp.go:59-187 | every run keeps both |
| ConnPool.ReachableInv | internal/client/dot.go:62-206 | every reachable state satisfies them |
| ConnPool.ReplyIsOwn | internal/client/tcp.go:68-133 | a reply that is returned answers the call's own request under its own ID, whatever was reused, retried, failed or mismatched before |
| ConnPool.WhyCallsEnd | internal/client/tcp.go:68-133 | over every run: a call ends with an error only after it gave up waiting for a slot, could not dial, failed to read, read a foreign ID, or failed to write twice; and it ends with a reply exactly when it read one |
| ConnPool.AtMostTwoWriteFailures | internal/client/tcp.go:103-118 | over every run no call fails to write more than twice: there is one retry |
| ConnPool.RetriesOnce | internal/client/tcp.go:103-118 | after a failed write the call can dial again exactly when it was its first |
| ConnPool.TakesPooled | internal/client/tcp.go:68-101 | a call that takes a slot takes the connection pooled in it, and writes on it without dialling |
| ConnPool.DiallingSucceeds | internal/client/tcp.go:94-133 | from every reachable state of an open client, a call that has to dial, also one that retries, can dial, get its own reply and put the new connection back |
| ConnPool.WritingSucceeds | internal/client/tcp.go:103-133 | and a call with a connection can get its own reply on it and put it back |
| ConnPool.WhyClosed | internal/client/tcp.go:68-187 | an open client closes a connection only for a failed write, a failed read or a foreign ID of the call that holds it |
| ConnPool.CallNeverStuck | internal/client/tcp.go:68-133 | in every reachable state a call that has not finished has a step to take, or the pool is still being filled; nothing the server, the other calls or Close do blocks it for good |
| ConnPool.CallEnds | internal/client/tcp.go:68-133 | and each of its steps brings it nearer to its end: eight at most |
| ConnPool.CloseNeverStuck | internal/client/tcp.go:167-187 | a Close that has not returned has a step to take |
| ConnPool.CloseDrains | internal/client/tcp.go:167-187 | from every reachable state, a draining Close can go on by its own steps until every connection that was pooled is closed, and touches no connection of a call |
| ConnPool.NonePooledAtReturn | internal/client/tcp.go:173-186 | when it returns no connection is pooled |
| ConnPool.PooledIsQuiet | internal/client/dot.go:71-136 | a pooled connection has no request unanswered and no response unread |
| ConnPool.PoolHasRoom | internal/client/tcp.go:85-91 | while a call holds a slot the pool is not full |
| ConnPool.SlotConservation | internal/client/tcp.go:59-92 | once filled, pooled plus in flight plus drained is ten, and the put-back's default branch is never enabled |
| ConnPool.OnePlace | internal/client/tcp.go:68-187 | an open connection is in exactly one pool slot, one running call or one Close's hand; a closed one in none |
| ConnPool.NotClosedTwice | internal/client/tcp.go:80-187 | a step closes only an open connection, and closed stays closed |
| ConnPool.AtMostTenOpen | internal/client/tcp.go:59-66 | at most ten connections are open |
| ConnPool.SealedStep | internal/client/tcp.go:80-92 | closed, no pooled connection and no call on its way back with one: kept by every step |
| ConnPool.OpenAfterCloseIff | internal/client/tcp.go:80-187 | after the pool of a closed client was drained, some continuation pools an open connection exactly when some call is past its closed check with one |
| ConnPool.OpenAfterClose | internal/client/tcp.go:80-92 | a reachable state where Close has returned and an open connection sits in the pool |
| Race.RaceResolve | internal/client/resolver.go:16-83 | the first NOERROR before any exit; else, unless the context ended, the first message; else an error; never neither |
| Race.FirstNoErrorWins | internal/client/resolver.go:58-60 | a race is decided by its first NOERROR, whatever would follow |
| Race.GivesUpWith | internal/client/resolver.go:42-82 | without one: the end of the context gives its reason; the timer, or the last result, gives the first message so far, or else an error |
| Race.RaceWithoutExit | internal/client/resolver.go:42-82 | without timer or context exit the class depends only on which results there are, and the message is the first NOERROR one, else the first one |
| Race.RaceOrderIndependent | internal/client/resolver.go:42-82 | every arrival order of the same results gives the same class |
| Race.SendNeverBlocks | internal/client/resolver.go:24-32 | in every run of senders and collector, however early it returned, a client that has not sent finds room in the channel |
| Names.MatchNames | internal/router/router.go:287-315 | computes the chain, and its duplicate check never fires |
| Names.MatchListIs | internal/router/router.go:287-315 | the chain is exactly the label suffixes reached through underscore labels, ending at the first other label or the last one |
| Names.ServiceNameIff | internal/router/router.go:297-311 | there is more than the name itself exactly when it starts with an underscore and has a dot; a name whose first label has no underscore is its whole chain |
| Names.ChainOfChainIff | internal/router/router.go:287-315 | every name of the chain has the rest of the chain as its own, exactly for names that do not end in two dots |
| Names.TrimmedTwice | internal/router/router.go:379-380 | the second trim changes the chain exactly for names that end in two dots |
| Names.ChainNameCanonical | internal/router/router.go:302-311 | names of the chain are already lower-cased and trimmed |
| Router.LookupRule | internal/router/router.go:317-324 | the rule of the first name in the chain that has one |
| Router.FirstRuleIs | internal/router/router.go:317-324 | what that means: no earlier name has a rule |
| Router.LookupRegexRule | internal/router/router.go:326-335 | the first pattern of the first matching name |
| Router.FirstRegexIs | internal/router/router.go:326-335 | names come before patterns: unmatched names in front can be dropped |
| Router.FirstPatternIs | internal/router/router.go:328-331 | the first matching pattern, in the order the router holds them, decides |
| Router.LookupGeoSite | internal/router/router.go:337-344 | "cn" exactly when some name of the chain is in the database |
| Router.HostOverrideIff | internal/router/router.go:346-376 | answers exactly queries of the address's own type, 1 for IPv4 and 28 for IPv6, or ANY, with one record of that type, TTL 60 and that address, under the request's id, flags and question |
| Router.FirstMatch | internal/router/router.go:393-425 | which stage decides and for whom: the first name with an effective rule, else the first effective pattern match, else the database, else the dual path; each exactly when |
| Router.GroupIs | internal/router/router.go:393-415 | targets cn and overseas in any mix of case name the groups; every other target is no decision |
| Router.HostsFirst | internal/router/router.go:382-391 | hosts decide first, exactly for address queries of the address's family or ANY, or to report an address that does not parse |
| Router.SilentPrefix | internal/router/router.go:393-425 | names the configuration says nothing about can be dropped from the front of a chain |
| Router.PolicyInherited | internal/router/router.go:283-315 | a service name is routed as the first name of its chain the configuration speaks about |
| Router.FindAddress | internal/router/router.go:469-479 | the first address record of the answer, if any |
| Router.Choose | internal/router/router.go:467-516 | the nested decision refines the preference rule whose meaning ChoiceIs and TagIs state |
| Router.ChoiceIs | internal/router/router.go:467-516 | of two NOERROR answers the domestic one is taken exactly when the first address record of the overseas one is a CN address; without an address, or with another one, the overseas answer; of one NOERROR that one; of none the overseas message, else the domestic one, else an error |
| Router.TagIs | internal/router/router.go:467-516 | the tag for each of these cases |
| Router.DualPath | internal/router/router.go:427-516 | the dual path for both arrival orders; the incomplete-result branch is unreachable; an ended context wins over a missing result |
| Router.RouteInternal | internal/router/router.go:378-517 | refines the first-match policy: hosts, rules, patterns, database, dual path; unknown targets fall through; always a response or an error, never both |
| Route.DualSuccessIff | internal/router/router.go:427-516 | without exit: NOERROR exactly when some upstream of either group answered NOERROR, an error exactly when none sent a message |
| Route.DualAnswer | internal/router/router.go:122-206 | what the client gets for a query no stage decides, from the arrivals alone: the first NOERROR of the domestic race when the first NOERROR of the overseas race points into CN, else the overseas one; when one race has none, the other's; and the tag that is logged |
| Route.AbandonedAnswer | internal/router/router.go:443-464 | a query of the dual path whose context ends before both races do is an error with the reason of its context |
| Route.GroupAnswer | internal/router/router.go:393-425 | for a query a stage decides: the first NOERROR of the group it names, unchanged, under that stage's tag |
| Route.HostsAnswer | internal/router/router.go:382-391 | for a query the hosts file answers: that address and no upstream; an address that does not parse is an error |
| Route.DualOrderIndependent | internal/router/router.go:427-516 | any other order inside the races and between them gives the same class |
| Route.DualDetermined | internal/router/router.go:427-516 | the arrivals fix the answer and its tag, up to the text of an error |
| Route.RoutedDetermined | internal/router/router.go:378-517 | the arrivals fix response and tag; only error texts are left open |
| Route.SynthesizeNoData | internal/router/router.go:248-261 | an empty NOERROR answer with the request's question and exactly the OPT records of the response |
| Route.NormalizeServiceBinding | internal/router/router.go:263-281 | rewrites exactly an NXDOMAIN for an HTTPS or SVCB query with underscore labels whose stripped origin resolves |
| Route.CheckRequestIs | internal/router/router.go:232-246 | the existence query asks for the A record of the origin, fully qualified, with the request's id and flags and the last of its OPT records |
| Route.ClearTtl | internal/router/router.go:187-203 | clears every TTL but those of OPT records when told to keep them |
| Route.Route | internal/router/router.go:122-206 | delivers the policy's answer through the rewrite and the TTL rule, whose meaning CodeChangesIff and NegativeTtl state; never neither response nor error; no question is an error |
| Route.CodeChangesIff | internal/router/router.go:122-206 | the code changes exactly for an NXDOMAIN of an HTTPS or SVCB query with underscore labels whose origin resolves NOERROR; then to NOERROR with empty sections, the request's question, exactly the OPT records that came, as often, and the Compat-NODATA tag |
| Route.NegativeTtl | internal/router/router.go:187-203 | record by record: a delivered NXDOMAIN has every TTL zero, but the OPT records of its additional section stay as they came, TTL field included; nothing is added, dropped or moved, and other messages are unchanged |
| Route.CheckAsksAlike | internal/router/router.go:263-281 | the existence check asks the same upstreams as the query itself when the names in between have no policy |
| Route.RoutedIs | internal/router/router.go:378-517 | for every policy, without timer or context exit: NOERROR exactly when some upstream asked gave it, an error exactly when none sent a message, else the first message of the deciding group |
| Route.ResolvesIff | internal/router/router.go:273-278 | the existence check succeeds exactly when some upstream its policy asks answers it NOERROR |
| Route.EndToEnd | internal/router/router.go:122-206 | for every query and policy: the client gets NOERROR exactly when some upstream asked gave it, or the query is a service binding with underscore labels whose origin resolves and the deciding group's first message is NXDOMAIN; an error exactly when no upstream asked sent a message |
| Route.OrderFreeIff | internal/router/router.go:122-206 | every order of arrival delivers the same class of answer, except exactly when nothing succeeded, the rewrite applies and the deciding group holds an NXDOMAIN and another negative message |
| Route.OrderCanMatter | internal/router/router.go:263-281 | two upstreams and two orders of one NXDOMAIN and one SERVFAIL: NOERROR or SERVFAIL reaches the client |
| Words.FieldsOfTrimmed | internal/config/config.go:331-335 | trimming keeps the fields, and a trimmed line starts with its first field |
| Words.FieldsOfPair | internal/config/config.go:308-320 | two words printed with a blank between them are read as those two |
| Words.AnySpaceSeparates | internal/config/config.go:331-335 | blank, tab, newline, vertical tab, form feed and carriage return separate two words, and may end a line |
| Words.StringLEIs | internal/config/config.go:291-296 | the sort order: the first difference decides, and a prefix comes first |
| Words.AscendingUnique | internal/config/config.go:291-296 | a key set has one sorted enumeration |
| Words.SortStrings | internal/config/config.go:292-296 | sorts the keys from any iteration order |
| ConfigText.LoadHosts | internal/config/config.go:322-344 | the line loop computes Load: comments, blanks and one-word lines skipped, many names a line, the last assignment wins |
| ConfigText.AddNames | internal/config/config.go:335-341 | the inner loop assigns the address to every lower-cased name of the line |
| ConfigText.LoadRules | internal/config/config.go:346-367 | the same for rules, name and target lower-cased, further words ignored |
| ConfigText.HostsLineAssigns | internal/config/config.go:335-341 | a hosts line gives its address to every name on it and to no other |
| ConfigText.RuleLine | internal/config/config.go:359-364 | a rule line assigns its second word to its first, both lower-cased |
| ConfigText.TabsAndReturns | internal/config/config.go:331-364 | a line written with a tab and ended by a carriage return assigns as one with a blank does |
| ConfigText.LoadConcat | internal/config/config.go:329-342 | lines act in order |
| ConfigText.CommentIgnored | internal/config/config.go:331-336 | a comment, blank or one-word line may stand anywhere without effect |
| ConfigText.MarshalPairs | internal/config/config.go:291-306 | for every iteration order of the map the same bytes |
| ConfigText.LoadedGood | internal/config/config.go:322-367 | whatever the text, only well-formed pairs are loaded |
| ConfigText.PrintedLine | internal/config/config.go:308-320 | a printed pair is one line and is read back as that pair |
| ConfigText.LoadPrint | internal/config/config.go:291-367 | reading printed pairs writes exactly those over the starting map |
| ConfigText.LoadSaveIff | internal/config/config.go:291-367 | load undoes save exactly for well-formed maps |
| ConfigText.LoadSaveLoad | internal/config/config.go:291-367 | for every text, load after save after load is load |
| ConfigText.NormalForm | internal/config/config.go:291-367 | saving and loading a saved load again changes no byte |
| ConfigText.SaveInjective | internal/config/config.go:291-320 | well-formed maps with the same file are equal |
| ConfigText.PatternCaseIsLost | internal/config/config.go:346-367 | a pattern rule with an upper-case letter does not survive a save and a load |
| Service.ServiceManager.constructor | internal/manager/manager.go:41-46 | a new manager is down, holds its configuration and satisfies the invariant |
| Service.ServiceManager.StopInternal | internal/manager/manager.go:380-435 | every field is stopped and cleared even when a stop fails; the first failure is reported |
| Service.StoppedAllIs | internal/manager/manager.go:380-435 | then nothing created is running, and nothing was stopped a second time |
| Service.FirstOfIff | internal/manager/manager.go:383-434 | an error is returned exactly when the stop of some held component failed, and of several it is the first in the order ACME, DNS, DoT, DoQ, DoH, router, logger |
| Service.ServiceManager.LoadDatabases | internal/manager/manager.go:303-309 | databases that are kept need no loading; afterwards they are those of the configuration's paths |
| Service.ServiceManager.CreateCore | internal/manager/manager.go:311-322 | a logger and a router of the configuration, the router over that logger and the databases; an open logger is closed first |
| Service.ServiceManager.StartInternal | internal/manager/manager.go:300-378 | fails only when the databases do not load, and then creates nothing; from a service that is down it builds the logger, the router and exactly the servers that are wanted and can be built, and everything that runs is held by a field |
| Service.ServiceManager.LaunchServer | internal/manager/manager.go:356-361 | one listener branch: unchanged when not wanted, empty when it cannot be built, else new and built from the configuration and the router |
| Service.ServiceManager.StartServers | internal/manager/manager.go:332-375 | exactly the servers the configuration asks for and the outside lets be built, all held by their fields |
| Service.ServiceManager.Start | internal/manager/manager.go:48-56 | brings the whole service up, with exactly the wanted servers that can be built, or changes nothing; nothing leaks exactly when the service was down before |
| Service.RouterLeaks | internal/manager/manager.go:320-322 | a start on top of a running service leaves its router running and unreachable |
| Service.ServiceManager.Stop | internal/manager/manager.go:58-70 | everything ever created is stopped and the service is down, whatever fails |
| Service.ServiceManager.Reload | internal/manager/manager.go:97-150 | ends on the new configuration with exactly the servers it wants that can be built, or with an error on the old one, rebuilt likewise exactly when the rollback loads; it needs no loading when both database paths are the same; everything created before is stopped; the log file of the configured name, query.log without one, goes exactly when persistence is switched off |
| Service.ServiceManager.ReloadCurrent | internal/manager/manager.go:154-169 | rebuilds the whole service under the same configuration with freshly loaded databases, or ends down |
| Service.Perform | internal/manager/manager.go:58-169 | each operation moves the observable status as the three-field machine says, and a reload returns no error exactly when that machine accepts it |
| Service.ConfigOfLastAccepted | internal/manager/manager.go:129-146 | the configuration in force is that of the last reload that returned no error |
| Service.ConfigOfNoneAccepted | internal/manager/manager.go:129-146 | and the initial one while none has |
| Service.Lifetime | internal/manager/manager.go:48-169 | one start and any reloads and stops, failing or not: what runs is exactly what the fields hold; the service is wholly down or has exactly the wanted and buildable servers of the configuration of the last reload that returned no error |
| Service.RunningWhenUp | internal/manager/manager.go:300-378 | what up means for what runs: one component of each kind the configuration wants and the outside allows, all of that configuration; the router uses the databases of its two paths and the running logger, and every listener asks the running router |
| Service.RolledBackWithoutLog | internal/manager/manager.go:118-146 | a reload that is rolled back to a persisting configuration, whose log file is gone |

## Left out

- Sockets, TLS, QUIC, HTTP, dialling and deadlines: dial, write, read, timers and ended contexts are steps or parameters that may come out either way.
- JSON and YAML: a log record is encoded and decoded by functions of a `Codec`; results that need it ask that decoding undoes encoding. config.yaml is not part of this model.
- File-system errors, short reads, atomic rename and the scanner's 64 KB line limit: a file is a byte sequence that changes in one step. A marshal error, which drops the entry, does not occur.
- The databases, regular expressions and address parsing are function parameters; pattern rules come as a sequence, in the map order the router happened to build it with.
- `float64(limit) * 0.8` is the exact integer `limit * 8 / 10`; counters and IDs are unbounded integers; QPS is a real number.
- Lower-casing and white space cover ASCII; escaped dots in names are not modelled. dns.SplitDomainName is stated for names without them.
- QueryLog.LogAndClose: the writer is idle until Close, so entries that found the queue full are appended first; every interleaving with the writer is in WriterQueue.
- Log entries are values: that AddLog stores the caller's pointer, and the per-record answer payload, are not part of the model. A nil logger receiver, which every method ignores, is not either.
- Messages are values: Route clears TTLs in the message the race returned; that an upstream still shares it is not modelled. Of the DNS header the model keeps id, code and two flags, and an existence query copies the OPT record instead of rebuilding it from its size and DO flag.
- The log entry Route writes, its formatting and ECS extraction.
- The read of the unsynchronised pool field in Close is one atomic step.
- Literal addresses return from LookupIP at once and are not part of its step machine.
- Servers, routers and loggers of the service manager are values with an identity, and its server fields are one record; a component counts as stopped once its stop was called, also when that reports an error.
- The certificate manager is kept as the configuration it was made from, without promises about it; downloads, the daily update loop and the web interface are not modelled.
- Nothing is claimed to stay down after Stop: a database update that passed its check can still restart the service.
- `splitListenValue` and `normalizeListenConfig`, address clean-up without state.
