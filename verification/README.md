# Lyrics daemon: verified model

A Dafny model of the parts of the daemon that are hard to get right: the durable work queue, the
provider resilience stack around the lyric lookups, and six smaller algorithms. `dafny verify
dfyconfig.toml` checks the whole project.

- **Queue** (`Queue`, `QueueLaws`, `QueueHistory`, `QueueAgreement`, `QueueLibraries`,
  `QueueColumns`, `QueueStore`).
  Three tables (work rows, scan results, links) and seventeen operations, one atomic step each. `Queue`
  says what each step does, `QueueStore` is the store itself as a class whose methods are proved to take
  those steps, `QueueColumns` spells out what each writes, and the others prove what holds of every row,
  every run and every library.
- **Resilience** (`Outcome`, `Backoff`, `Breaker`, `Lane`, `Pacer`, `Dispatch`, `Race`, `RaceLaws`,
  `Precedence`).
  Error classes and song quality, the geometric delay, the circuit breaker, one lane around its
  breaker, the request pacer under any interleaving of callers, ordered dispatch, and the parallel
  race as a select loop over an arbitrary schedule of results, window and cancellation; `Precedence` says
  which song and which error both answer with, from the content of the outcomes alone.
- **Algorithms**: `Similarity` (Jaro-Winkler over match arrays), `Lrc` and `LrcGrammar` (timestamp
  printer and parser), `Provenance`, `ProvenanceLaws` and `ProvenanceFields` (header tag injection),
  `LoginLimiter` (bounded per-address limiter with 64-bit shifts), `Watcher` (debounce timers), `Roots`
  (overlapping library roots).
  `Text` holds the string functions the printers and parsers share, `ScanLaws` what writing lines and
  scanning them back does, `Prelude` what every module uses.

A queue's configuration (providers generation, claim order, backoff settings) may change between any
two steps of a run. Clock readings are integers in nanoseconds; the queue stores whole seconds, as RFC
3339 text without a fraction does, and section 5.1 of RFC 3339 is why comparing such texts compares
instants. Durations are signed 64-bit. Provider answers, clock readings, iteration orders of Go maps and
the firing order of select branches are parameters, so every statement holds for all of them.

Where code and comments disagree the model follows the code:

- `TripRenewal` reports the current trip count; the comment on `TripResult.Trips` says zero
  (internal/circuit/breaker.go:35-36, 147-155).
- `SetInstrumentalResult` stamps a row in any status; its comment says only processing rows
  (internal/queue/queue.go:1124-1139).
- `RetireMiss` is described as irreversible (internal/queue/queue.go:551-553); `RecheckRetired` reverses it.
- `InjectProvenance` is described as preserving lyric lines verbatim (internal/lyrics/parser.go:105-106); it
  does exactly under the condition of `ProvenanceLaws.LyricsAreKept`.
- The hard-cap eviction is described as dropping the oldest unlocked entry
  (internal/web/ratelimit.go:144-147); it does exactly under the condition of
  `LoginLimiter.OldestIsEvictedIff`. The empty address it speaks of takes a RemoteAddr with an empty host
  (internal/web/auth.go:211-220).
- `Complete` is described as guaranteeing that the row and its scan results agree
  (internal/queue/queue.go:349-353); they do at its commit, and afterwards exactly as
  `QueueAgreement.AgreementSurvivesIff` says.

## Model

| member | source | states |
|---|---|---|
| QueueLaws.StepKeepsInv | internal/queue/queue.go:174-602 | Every queue operation, from any state that meets it, keeps the invariant: ids below the counter, links only between live rows, one row per (artist, title) key, completed_at set iff done, pending without an error, done with no error or the miss sentinel, failed with at least one attempt, deferred at the miss priority or at webhook level, and never an empty path list |
| QueueLaws.ReachableInv | internal/queue/queue.go:174-602 | That invariant in every state any callers reach, in any order, from an empty store, under changing configuration, scan results being written and deleted in between |
| QueueLaws.RowAppears | internal/queue/queue.go:195-297 | Only Enqueue creates a row: one, under an unused id, for a key no row holds, with the insert defaults |
| QueueLaws.IdsAreNotReused | internal/queue/queue.go:195-297 | An id once handed out and deleted never comes back, over any run |
| QueueLaws.RowsAreStable | internal/queue/queue.go:211-261 | Between any two moments of a row's life, the configuration changing in between as it may, its key, creation time, providers_version and detect_instrumental are the same and its miss_count has not fallen |
| QueueLaws.RowsKeepTheirBirth | internal/queue/queue.go:153-159 | A row's providers_version is the one configured when it was inserted, whatever generations came since and however often it was enqueued again; its detect_instrumental and key are those of that first Enqueue |
| QueueHistory.AttemptsCountFails | internal/queue/queue.go:438-485 | attempts is the number of Fails that found the row claimed since its insertion or last manual Retry, read off the whole history |
| QueueHistory.SentinelIsExact | internal/queue/queue.go:541-602 | A done row carries the miss sentinel iff its last terminal step was RetireMiss, whatever errors were recorded and however often it was closed and revived before |
| QueueHistory.WaitingIsKept | internal/queue/queue.go:234-250 | No operation brings a waiting row's due time forward except a webhook-priority Enqueue of its key, a Retry of it or a RecheckDeferred that covers it |
| QueueHistory.StaysWaiting | internal/queue/queue.go:234-250 | The same over any stretch of a run |
| QueueHistory.FailedRowsRest | internal/queue/queue.go:303-485 | After the n-th failure at t a row is not claimed before t plus the geometric delay of n by the settings in force at the failure, less under a second of timestamp truncation, however many scan-priority Enqueues of its key arrive |
| QueueHistory.DeferredRowsRest | internal/queue/queue.go:503-536 | The same for a deferral and its retryAfter |
| QueueHistory.UnsunkRowsFloat | internal/queue/queue.go:234-238 | With enqueue priorities at scan level or above, a row below scan level is at the miss priority and was deferred or revived since insertion |
| QueueHistory.FreshWorkGoesFirst | internal/queue/queue.go:303-347 | A row at the miss priority is claimed only when every due row has itself been deferred or revived and sits at that priority too |
| QueueAgreement.ClosingClosesScans | internal/queue/queue.go:349-393 | When Complete or RetireMiss commits, every scan result linked to the row is done |
| QueueAgreement.AgreementSurvivesIff | internal/queue/queue.go:349-353 | That agreement is no invariant: over every operation, a row done and agreeing before and still done after agrees after iff the operation is none of these: an Enqueue of its key with a scan result not done, a RecheckRetired or ResetInstrumental reviving a row that shares one of its scan results, a scan rewriting one of them as not done |
| QueueAgreement.AgreesSinceClosing | internal/queue/queue.go:349-393 | Over runs a closed row agrees with its scan results as long as it stays done and no such operation comes |
| QueueAgreement.LateLinkBreaksAgreement | internal/queue/queue.go:239-292 | Enqueue onto a done row leaves it done and links the new scan result, and the agreement survives iff that scan result was already done |
| QueueAgreement.SharedScanParts | internal/queue/queue.go:755-782 | A reachable run without a late link: rechecking one retired row puts a scan result back to pending that a completed row shares |
| QueueHistory.ClaimIsExclusive | internal/queue/queue.go:332-602 | A processing row leaves processing iff the operation is an outcome (Complete, Release, Fail, Defer, RetireMiss) that names it, and is not handed out a second time |
| QueueHistory.ClaimStandsIff | internal/queue/queue.go:332-602 | A claim stands at a later moment iff no outcome naming the row came in between; operations carry no caller, so a late outcome otherwise hits whatever claim stands then |
| QueueHistory.SomeLegalPick | internal/queue/queue.go:303-329 | The claim query always has a legal answer, randomised or not |
| QueueLibraries.RetiredIsGivenUp | internal/queue/queue.go:538-541 | In every reachable state the sentinel text selects exactly the done rows whose last closing step was RetireMiss |
| QueueLibraries.RevivalIsExact | internal/queue/queue.go:697-787 | In every run RecheckRetired revives a row iff it is done, its last closing step was RetireMiss and it is in scope, and leaves every other row as it was |
| QueueLibraries.RevivedScansAreExact | internal/queue/queue.go:755-782 | A scan result goes back to pending iff it was done, belongs to the library when scoped, and is linked to such a row; no other changes |
| QueueLibraries.SecondRecheckIsIdle | internal/queue/queue.go:697-802 | An immediate second call finds no row and changes nothing |
| QueueLibraries.RecheckUndoesRetirement | internal/queue/queue.go:659-787 | Retire a claimed row and recheck: it waits at the miss priority with its counters kept and its linked scan results are pending again |
| QueueLibraries.FilterIsSubsequence | internal/queue/queue.go:1514-1519 | The filtered path list is a subsequence of the old one |
| QueueLibraries.FilterKeeps | internal/queue/queue.go:1514-1519 | A path survives the filter iff it was there and its key is in the keep set |
| QueueLibraries.KeyIsInjective | internal/queue/queue.go:1609-1611 | outputPathKey tells paths with NUL-free directories apart |
| QueueLibraries.KeyIsUniqueIff | internal/queue/queue.go:1609-1611 | A path shares its key with no other path iff neither its directory nor its file name holds a NUL |
| QueueLibraries.ReachedRowsKeepOtherLibraries | internal/queue/queue.go:1429-1572 | A row that is pending, failed or deferred and has a linked scan result in the cancelled library survives iff one of its paths is also written for another library; it then keeps exactly those paths, in order and as often as before, never an empty list, and nothing else about it changes |
| QueueLibraries.OthersAreUntouched | internal/queue/queue.go:1429-1435 | Rows being processed or done, rows with no scan result in the library, and all scan results are unchanged |
| QueueLibraries.LinksGoWithTheirRows | internal/queue/queue.go:1429-1439 | The links that go are exactly those of deleted rows; no surviving row, trimmed or not, loses one |
| QueueLibraries.ReachedRowsSurviveByKey | internal/queue/queue.go:1502-1611 | For any names, NUL bytes or not: such a row survives iff one of its paths has the key of a scan result of another library linked to it, and keeps exactly those paths |
| QueueLibraries.CountersAreEffects | internal/queue/queue.go:1502-1572 | The rows counted as deleted are the rows that are gone afterwards, and those counted as updated the surviving rows whose path list is another |
| QueueLibraries.CancelAddsNoRow | internal/queue/queue.go:1465-1572 | A cancellation creates no row |
| QueueLibraries.SecondCancelIsIdle | internal/queue/queue.go:1465-1572 | A second cancellation is the identity, so it deletes and updates no row |
| QueueStore.DBQueue.constructor | internal/queue/queue.go:136-145 | A new queue over an empty database meets the invariant |
| QueueStore.DBQueue.Enqueue | internal/queue/queue.go:174-297 | One transaction: insert, or refresh the one conflicting row by the CASE rules of the upsert, then link; a dangling scan result id rolls everything back; returns the row of the key |
| QueueStore.DBQueue.Dequeue | internal/queue/queue.go:299-347 | Claims a due row that no other due row precedes (priority, then age and id unless randomised), or reports none iff none is due |
| QueueStore.DBQueue.Complete | internal/queue/queue.go:354-393 | Closes the claimed row and all its scan results, or reports sql.ErrNoRows iff the row is not claimed |
| QueueStore.DBQueue.Release | internal/queue/queue.go:400-413 | Back to pending with attempts and due time untouched; no rows iff not claimed |
| QueueStore.DBQueue.Cleanup | internal/queue/queue.go:418-435 | Deletes the retryable row of a key with its links, and reports how many: at most one |
| QueueStore.DBQueue.Fail | internal/queue/queue.go:438-485 | Counts the attempt and schedules it by the doubling loop; no rows iff not claimed |
| QueueStore.DBQueue.Defer | internal/queue/queue.go:503-536 | Counts a miss, sinks the row and schedules it; no rows iff not claimed |
| QueueStore.DBQueue.RetireMiss | internal/queue/queue.go:559-602 | Closes the row with the sentinel and all its scan results with it; no rows iff not claimed |
| QueueStore.DBQueue.RecheckDeferred | internal/queue/queue.go:631-647 | Re-arms exactly the deferred rows in scope and reports how many |
| QueueStore.DBQueue.CountRecheckDeferred | internal/queue/queue.go:651-662 | Counting row by row by the WHERE clause, and changing nothing, gives the number RecheckDeferred reports on the same state |
| QueueStore.DBQueue.WriteBack | internal/queue/queue.go:764-782 | The row-by-row writeback loop flips what a single statement over all revived rows would, in any order |
| QueueStore.DBQueue.RecheckRetired | internal/queue/queue.go:697-787 | Revives the retired rows in scope, reports how many, and leaves none behind |
| QueueStore.DBQueue.CountRecheckRetired | internal/queue/queue.go:791-802 | Counting row by row by the WHERE clause, and changing nothing, gives the number RecheckRetired reports on the same state |
| QueueStore.DBQueue.Retry | internal/queue/queue.go:865-921 | Reopens a failed row with its counters reset, and tells a missing row from one that is not failed |
| QueueStore.DBQueue.ClearDone | internal/queue/queue.go:925-937 | Deletes the done rows with their links, reports how many, leaves none |
| QueueStore.DBQueue.CountDone | internal/queue/queue.go:942-950 | Counting row by row by the WHERE clause, and changing nothing, gives the number ClearDone reports on the same state |
| QueueStore.DBQueue.ResetInstrumental | internal/queue/queue.go:1363-1417 | Revives a confirmed instrumental row and its scan results; reports 1 iff it was one and done, else changes nothing |
| QueueStore.DBQueue.SetInstrumentalResult | internal/queue/queue.go:1127-1149 | Stamps the detector's verdict whatever the row's status (the comment says only processing rows; the statement has no such guard) |
| QueueStore.DBQueue.FilterPaths | internal/queue/queue.go:1514-1519 | The path loop computes the filter |
| QueueStore.DBQueue.CancelOne | internal/queue/queue.go:1502-1569 | One turn of the candidate loop: delete, trim or leave, counted alike by the real and the dry run |
| QueueStore.DBQueue.CancelByLibrary | internal/queue/queue.go:1429-1572 | The candidate loop, with its re-queried keep sets and status guards, reports the number of rows that go and of surviving rows whose paths change; the dry run reports the same two numbers and changes nothing |
| QueueColumns.EnqueueRefreshes | internal/queue/queue.go:211-261 | On a conflict, column by column: identity, history and status stay; a processing or done row keeps its description, paths and due time, any other takes those of the inputs; a failed or deferred row is re-armed by a webhook only; a webhook sets the priority, a scan leaves that of a deferred row and otherwise the higher one stands; the first scan result stays; a pending row loses its error and a row not done its completion |
| QueueColumns.RefreshFrame | internal/queue/queue.go:195-297 | A conflicting Enqueue changes no other row, no scan result and no id, and adds its own link only |
| QueueColumns.EnqueueInserts | internal/queue/queue.go:174-210 | Without a conflict exactly one row appears, under the next id, every column spelled out, with the default path when the inputs carry none |
| QueueColumns.PickIsForemost | internal/queue/queue.go:303-329 | A claim is legal iff the row is due and of the highest priority among the due, and, unless randomised, the oldest of those and of equally old ones the smallest id; none is legal iff nothing is due |
| QueueColumns.CleanupDeletes | internal/queue/queue.go:418-435 | Deletes exactly the pending, failed and deferred rows of the key with their links, changing nothing else |
| QueueColumns.ClearDoneDeletes | internal/queue/queue.go:925-937 | Deletes exactly the done rows with their links, changing nothing else |
| QueueColumns.RecheckDeferredRearms | internal/queue/queue.go:631-647 | Makes exactly the deferred rows in scope due now, and no other column of any row changes |
| QueueColumns.RecheckRetiredRevives | internal/queue/queue.go:697-787 | Exactly the done rows in scope with the sentinel text come back deferred, at the miss priority, due now, without error and completion, identity and counters kept |
| QueueColumns.ResetInstrumentalRevives | internal/queue/queue.go:1363-1417 | Exactly the named row, if done and confirmed instrumental, comes back like that and loses its verdict |
| QueueColumns.OutcomeColumns | internal/queue/queue.go:354-602 | Complete, Release, Defer and RetireMiss write these columns of a row being processed, Retry these of a failed row, and no others of any row |
| QueueColumns.FailureColumns | internal/queue/queue.go:438-485 | Fail counts the attempt and sets the due time min(base * 2^(n-1), cap) ahead, zero for a non-positive base or cap; SetInstrumentalResult writes its one column |
| QueueColumns.OutcomeFrame | internal/queue/queue.go:354-602 | No outcome adds or deletes a row or a link, and only a closing one touches scan results |
| QueueColumns.ClosingScans | internal/queue/queue.go:354-393 | Complete and RetireMiss make exactly the scan results linked to the row they close done |
| QueueColumns.ReopeningScans | internal/queue/queue.go:865-921 | Retry puts exactly the linked scan results being processed back to pending, ResetInstrumental exactly the linked ones that are done |
| Pacer.RequestPacer.constructor | internal/musixmatch/client.go:122-131 | A pacer starts at level 0 with no successes counted |
| Pacer.RequestPacer.Reserve | internal/musixmatch/client.go:176-203 | The locked part of pace claims the later of now and the last slot plus minInterval * 2^level, and makes it the last slot; reached only with pacing on |
| Pacer.RequestPacer.Rollback | internal/musixmatch/client.go:211-224 | A cancelled wait hands its slot back only if no later caller has moved on |
| Pacer.RequestPacer.OnThrottle | internal/musixmatch/client.go:237-244 | Raises the level to its cap and resets the success count |
| Pacer.RequestPacer.OnSuccess | internal/musixmatch/client.go:250-260 | Lowers the level by one every fifth success, never below zero |
| Pacer.StepKeepsInv | internal/musixmatch/client.go:176-260 | Reservations, wake-ups, cancellations with rollback and level changes, the very steps the pacer's methods take, all keep live slots disjoint and behind the latest reservation |
| Pacer.ReachableInv | internal/musixmatch/client.go:176-260 | So they are in every interleaving of any number of callers |
| Pacer.SlotsAreSpaced | internal/musixmatch/client.go:165-228 | Of two calls that were not cancelled, one's slot is at or before the value the other reserved from, hence at least minInterval away |
| Pacer.SpacedCount | internal/musixmatch/client.go:165-228 | Slots at least minInterval apart in a span number at most one more than the span holds intervals |
| Pacer.RateIsBounded | internal/musixmatch/client.go:165-228 | By time T at most 1 + (T - t0) / minInterval requests have been let through, in every interleaving |
| Pacer.ThrottlesRaiseTheLevel | internal/musixmatch/client.go:237-244 | Over any stretch of a run without a success the level rises by the throttles in it, up to three |
| Pacer.SuccessesLowerTheLevel | internal/musixmatch/client.go:250-260 | Over any stretch without a throttle the level falls by one for every fifth success, down to zero, counting those standing at its start |
| Pacer.ThrottledCallersWait | internal/musixmatch/client.go:187-200 | After k throttles with no success since, a slot lies at least minInterval * 2^min(k, 3) after the value it was reserved from |
| Pacer.FiveSuccessesHalve | internal/musixmatch/client.go:250-260 | Five successes with no throttle between them halve the interval in force unless it is the base interval; fewer than five after a throttle leave it |
| Pacer.CancelledSlotIsReused | internal/musixmatch/client.go:211-224 | A caller cancelled before anyone reserved after it leaves no trace: the next one reserves from the value it had reserved from |
| Pacer.LaterSlotStands | internal/musixmatch/client.go:211-224 | A caller cancelled after a later live reservation moves nothing |
| Outcome.TransportIff | internal/orchestrator/errors.go:48-64 | An error ranks as a transport failure iff it wraps none of the sentinels tested for, so another package's throttle or miss does; wrapping changes no class |
| Precedence.ClassByChain | internal/orchestrator/errors.go:48-64 | The class of an error, sentinel by sentinel: the lane's own before a throttle, a renewal counting as one, a throttle before a miss |
| Precedence.SuitableByContent | internal/orchestrator/suitability.go:54-65 | A song is suitable iff it has synced lines or a lyrics body and an enabled guard accepts it |
| Precedence.BestIsByContent | internal/orchestrator/suitability.go:28-39 | The best available song is the first with synced lines, without any the first with a lyrics body, without any the first marked instrumental, without any the first |
| Precedence.TopIsByClass | internal/orchestrator/errors.go:70-85 | The error that ranks highest is the first throttle, without any the first transport failure, and a benign miss only if every consulted lane missed |
| Precedence.OrderedByContent | internal/orchestrator/orchestrator.go:117-230 | Ordered dispatch under a live parent, with no ranking of numbers in the statement: the first suitable song, else the best by content, else the error by class, else the unavailable sentinel |
| Precedence.RaceErrorByClass | internal/orchestrator/parallel.go:68-143 | A race that ends in an error under a live parent has heard every lane and no song, and the error is chosen by class from the outcomes as they arrived |
| Precedence.RaceErrorClass | internal/orchestrator/parallel.go:68-143 | Its class is that of the lane outcomes in any order: throttle if there is one, else transport if there is one, else a miss |
| Dispatch.DispatchResult.constructor | internal/orchestrator/orchestrator.go:183-191 | The zero accumulator stands for no replies |
| Dispatch.AccumulatedIsSummary | internal/orchestrator/orchestrator.go:183-205 | Accumulating replies one by one ends with the chosen song and error of the whole list, however long |
| Dispatch.DispatchResult.Retain | internal/orchestrator/orchestrator.go:194-198 | Takes one more song into the accumulator of the replies seen |
| Dispatch.DispatchResult.RankErr | internal/orchestrator/orchestrator.go:201-205 | Takes one more error into the accumulator of the replies seen |
| Dispatch.DispatchResult.Resolve | internal/orchestrator/orchestrator.go:214-230 | From the accumulator alone, the best song of all replies, else their top error, else the parent's error or the unavailable sentinel, with the attribution attached |
| Dispatch.RunningBest | internal/orchestrator/orchestrator.go:194-198 | The running choice is the earliest song of the highest quality among all replies, if there is one |
| Dispatch.RunningTop | internal/orchestrator/orchestrator.go:201-205 | The running choice is the earliest error of the highest precedence among the consulted lanes, if there is one |
| Dispatch.NamesCount | internal/orchestrator/orchestrator.go:218-230 | Some lane was consulted iff some reply is a song or a ranked error, so the last branch of resolve needs no lanes at all |
| Dispatch.DispatchResult.Observe | internal/orchestrator/orchestrator.go:129-152 | What one reply does: skipped, recorded, or returned as the winner with the lanes consulted so far as its attribution |
| Dispatch.TryLanes | internal/orchestrator/orchestrator.go:124-153 | The lane loop stops at the first suitable song, calling no later lane, or before the first lane it finds the parent cancelled at |
| Dispatch.FindOrdered | internal/orchestrator/orchestrator.go:117-163 | Ordered dispatch answers as its declarative specification says: first suitable song in lane order, else earliest best song, else earliest top error, else the sentinel; or the parent's error |
| Dispatch.OrderedUnique | internal/orchestrator/orchestrator.go:117-163 | That specification allows one answer |
| Dispatch.OrderedUnavailableIff | internal/orchestrator/orchestrator.go:117-163 | Under a live parent ErrLaneUnavailable is returned iff every lane was open |
| Dispatch.WinnerIsTheOnlyHit | internal/orchestrator/orchestrator.go:165-178 | With distinct, non-empty names the lane that served the song is the only hit of its attribution |
| Dispatch.NoWinnerNoHit | internal/orchestrator/orchestrator.go:165-178 | Without a winner every consulted lane is a miss |
| Dispatch.OrderedHits | internal/orchestrator/orchestrator.go:117-163 | The attribution lists exactly the consulted lanes, with exactly one hit iff a song is returned |
| Race.HeldIsFirst | internal/orchestrator/parallel.go:103-107 | The song held is the first suitable one to arrive, and there is one iff any has arrived |
| Race.Collector.constructor | internal/orchestrator/parallel.go:50-66 | Nothing held, every lane pending |
| Race.Collector.Take | internal/orchestrator/parallel.go:75-118 | One result: cancelled losers dropped, open lanes skipped, a suitable synced song returned at once, the rest held or retained |
| Race.Collector.Hold | internal/orchestrator/parallel.go:86-110 | A suitable song: synced wins with the lanes consulted so far; the first unsynced one is held and arms the window while lanes are pending |
| Race.Collector.FallBack | internal/orchestrator/parallel.go:111-117 | An unsuitable song or an error goes into the shared accumulator |
| Race.Collector.Finish | internal/orchestrator/parallel.go:119-133 | After the last lane: the parent's error, else the held song, else what ordered mode would resolve to |
| Race.Collector.Turn | internal/orchestrator/parallel.go:68-143 | One turn of the select over results, window and cancellation, from any state of the loop |
| Race.FindParallel | internal/orchestrator/parallel.go:33-144 | For every legal schedule of results, timer and cancellation the loop returns at the first committing turn with that turn's answer |
| RaceLaws.RaceEnds | internal/orchestrator/parallel.go:68-143 | Whatever fires when, the call returns within one turn per lane |
| RaceLaws.SuitableIsNeverLost | internal/orchestrator/parallel.go:80-143 | Once a suitable result has been received the call returns a suitable lane's song, or the parent's error if the parent was cancelled; nothing else |
| RaceLaws.HeldComesFromALane | internal/orchestrator/parallel.go:103-107 | The song committed later is one a lane delivered, with that lane's name on it |
| RaceLaws.WindowCommitsTheHeldSong | internal/orchestrator/parallel.go:134-142 | The window branch commits only the held suitable song, or nothing under a cancelled parent |
| RaceLaws.GotNamesDistinct | internal/orchestrator/parallel.go:41-48 | Each lane reports once, so distinct lane names stay distinct in the attribution |
| RaceLaws.RaceHits | internal/orchestrator/parallel.go:86-143 | Exactly one hit iff a song is returned, in parallel mode too |
| RaceLaws.WorthIsUnique | internal/orchestrator/suitability.go:28-65 | A set of lane outcomes is worth exactly one class of answer |
| RaceLaws.AllReported | internal/orchestrator/parallel.go:68-120 | When no lane is pending and none was cancelled, the replies received are the lanes' outcomes, reordered |
| RaceLaws.RaceIsWorth | internal/orchestrator/parallel.go:68-143 | With a live parent and no window expiry the answer's class is a function of the outcomes as a set |
| RaceLaws.OrderDoesNotMatter | internal/orchestrator/parallel.go:68-143 | Two arrival orders of the same outcomes give the same class of answer: same quality, same error class |
| RaceLaws.RaceIsNoWorseThanOrdered | internal/orchestrator/parallel.go:68-143 | Unless the window decides, on the same outcomes the race finds a song iff ordered dispatch does, never of lower quality, and otherwise fails with the same error class |
| RaceLaws.WindowAgainstOrdered | internal/orchestrator/parallel.go:134-142 | When the window decides, both modes return a song, and the race's is at least as good as ordered dispatch's or unsynced, whichever is less |
| RaceLaws.NoSenderBlocks | internal/orchestrator/parallel.go:41-48 | In every interleaving of lane goroutines with the collector's turns, a lane that has not sent yet can send, also when the collector takes nothing more |
| RaceLaws.ReceivesAreLegal | internal/orchestrator/parallel.go:41-76 | The turns of any such interleaving are a schedule as the race assumes them: each receive names a lane, and no lane is received twice |
| Breaker.CircuitBreaker.constructor | internal/circuit/breaker.go:62-70 | Closed, no trips |
| Breaker.CircuitBreaker.SetBackoff | internal/circuit/breaker.go:83-93 | Only positive values replace the settings |
| Breaker.SettingsGovernTheNextTrip | internal/circuit/breaker.go:83-93 | Positive settings are those of the next window from where the ramp stands, one that is not positive leaves what was in force, positive settings stay positive, and no standing window is touched |
| Breaker.CircuitBreaker.Allow | internal/circuit/breaker.go:106-121 | Open until the window ends, half-open afterwards, closed otherwise |
| Breaker.CircuitBreaker.Trip | internal/circuit/breaker.go:134-142 | Advances the ramp and opens for its geometric window |
| Breaker.CircuitBreaker.TripRenewal | internal/circuit/breaker.go:147-155 | Opens for the full window without advancing the ramp; reports the current trip count (the comment says zero) |
| Breaker.CircuitBreaker.RecordSuccess | internal/circuit/breaker.go:159-168 | Resets the ramp, remembers the success, reports a recovery iff it was probing |
| Breaker.CircuitBreaker.RecordBenignMiss | internal/circuit/breaker.go:172-180 | Resets the ramp without remembering a success |
| Breaker.BreakerInvariant | internal/circuit/breaker.go:106-180 | In every run the trip count is the trips since the last reset, probing means openUntil is zero, and everProviderSuccess means a success was recorded |
| Breaker.OpenHolds | internal/circuit/breaker.go:106-121 | Until its window ends an open breaker refuses every caller; recorded successes and misses do not close it early |
| Breaker.TripShortensIff | internal/circuit/breaker.go:134-142 | openUntil is not monotone: over any run a trip brings the standing deadline forward iff the window it opens is shorter than what is left of the one standing |
| Breaker.ShorteningHasACause | internal/circuit/breaker.go:134-180 | With a clock that never runs back, that takes a renewal, a success, a benign miss or a change of settings since the last trip; trips and gate checks alone never do it |
| Breaker.EveryCauseShortens | internal/circuit/breaker.go:83-180 | Each of those four causes does it |
| Breaker.RenewalShortensIff | internal/circuit/breaker.go:147-155 | A renewal brings the deadline forward iff the full window is shorter than what is left |
| Breaker.RenewalShorteningHasACause | internal/circuit/breaker.go:83-155 | That takes a change of settings since the deadline was set, or a negative window |
| Breaker.RenewalCanShorten | internal/circuit/breaker.go:83-155 | And it does happen: a renewal, smaller settings, a second renewal |
| Breaker.GateIsExact | internal/circuit/breaker.go:106-180 | After any steps under a clock that never runs back a caller is refused iff the window of the last trip or renewal has not ended; past it the breaker is closed iff a success or miss came after a gate check that found the window elapsed, and half-open, letting everyone through, otherwise |
| Breaker.HalfOpenAdmitsAll | internal/circuit/breaker.go:106-121 | Half-open is not exclusive: once the window has ended, and while only gate checks happen, every caller is let through as a probe |
| Lane.ProviderLane.constructor | internal/orchestrator/lane.go:37-39 | A lane over its breaker and pacer |
| Lane.ProviderLane.FindLyrics | internal/orchestrator/lane.go:61-86 | The provider is called iff the breaker is not open; a refusal changes nothing; otherwise breaker and pacer move as the outcome demands and the error's class survives |
| Lane.ProviderLane.Classify | internal/orchestrator/lane.go:105-160 | Renewal before throttle before miss; the pacer is told of a 401 only once the token has worked; the sentinels survive wrapping |
| Lane.RampCountsThrottles | internal/orchestrator/lane.go:61-160 | Over any interleaving, as long as no provider error wraps the lane's own sentinel together with a throttle or a miss, the trip count is the number of outcomes ClassifyOutcome ranks AuthRateLimit, renewals aside, since the last success or benign miss |
| Lane.ForgedMiscounts | internal/orchestrator/lane.go:105-160 | Each such error breaks that count after a single throttle |
| Lane.RenewalHoldsFullCap | internal/orchestrator/lane.go:105-115 | After any run a renewal shuts the lane for exactly the full cap and leaves the ramp and the memory of a success alone |
| Lane.PacerSlowsIff | internal/orchestrator/lane.go:135-143 | After any run an error slows the pacer iff it is no renewal and is a rate limit, a truncation, or a 401 after some earlier success |
| Lane.ClassificationsAgreeIff | internal/orchestrator/errors.go:48-64 | The lane's and the orchestrator's classification agree on an error unless it wraps the lane's own sentinel together with one that moves the breaker, and then they do not |
| Lane.ThrottledState | internal/orchestrator/lane.go:61-160 | After k sequential throttles the breaker has tripped k times and stays open for the k-th window |
| Lane.ThrottledCallsBackOff | internal/orchestrator/lane.go:61-160 | From a fresh breaker, provider call n+1 starts no earlier than the sum of the first n windows min(base * 2^(i-1), cap) after call 1 |
| Backoff.Geometric | internal/backoff/backoff.go:44-62 | The doubling loop computes min(base * 2^(n-1), max), zero for a non-positive base or cap, without leaving 64 bits |
| Backoff.DelayMonotone | internal/backoff/backoff.go:26-62 | More attempts never wait less |
| Similarity.MarksAgree | internal/normalize/normalize.go:66-85 | Both match arrays hold equally many marks after any number of turns, the count being the number of matches |
| Similarity.FindPartner | internal/normalize/normalize.go:69-83 | The inner loop finds the first free equal rune inside the window, or none |
| Similarity.MatchOne | internal/normalize/normalize.go:66-84 | One turn marks rune i and its first free partner, or neither |
| Similarity.MatchRunes | internal/normalize/normalize.go:62-85 | The matching loops fill the two arrays and count the matches |
| Similarity.NextMark | internal/normalize/normalize.go:93-96 | The scan for the next mark of the second array stays in bounds |
| Similarity.CountTranspositions | internal/normalize/normalize.go:89-102 | The loop counts the positions at which the two matched sequences differ: at most the number of matches |
| Similarity.CommonPrefix | internal/normalize/normalize.go:105-111 | The length of the common prefix, at most four |
| Similarity.Score | internal/normalize/normalize.go:47-114 | The imperative algorithm returns the Jaro-Winkler score of its specification |
| Similarity.ScoreFormula | internal/normalize/normalize.go:86-113 | With a match the score is the Jaro mean over match share of both strings and share of matched runes in order, half a match off for each position at which the matched runes differ, and each rune of common prefix up to four takes a tenth off what is missing to one |
| Similarity.MismatchesCount | internal/normalize/normalize.go:89-102 | Transpositions number the positions at which the two matched sequences differ |
| Similarity.MatchedScore | internal/normalize/normalize.go:86-113 | With a match between different sequences the score is a Jaro value strictly between 0 and 1 plus its prefix bonus |
| Similarity.ScoreRange | internal/normalize/normalize.go:47-114 | The score lies in [0,1] and is 1 iff the rune sequences are equal |
| Similarity.ScoreZeroIff | internal/normalize/normalize.go:47-114 | The score is 0 iff no two equal runes stand at the same place or less than half the longer length, rounded down, apart |
| LoginLimiter.LongShiftIsRefused | internal/web/ratelimit.go:176-189 | A shift that has outgrown the cap, wrapped or not, never lands in (0, max] |
| LoginLimiter.FormulasAgree | internal/web/ratelimit.go:176-189 | With the default constants backoffFor(n) is Geometric(n-1) is min(base * 2^(n-2), max) for every n from 2 on, 64-bit wrap-around included |
| LoginLimiter.FormulasAgreeIff | internal/web/ratelimit.go:176-189 | For any settings the guarded shift and the doubling loop agree on every count from two on iff no shift below 62 that has outgrown the cap wraps to something inside it and 62 doublings reach the cap (or, with a non-positive base or cap, the cap is zero) |
| LoginLimiter.Limiter.constructor | internal/web/ratelimit.go:60-71 | An empty map |
| LoginLimiter.Limiter.Allow | internal/web/ratelimit.go:76-90 | Refuses with the remaining time iff locked; forgets an expired lock |
| LoginLimiter.Limiter.Fail | internal/web/ratelimit.go:100-125 | Counts the failure and locks at the limit; a full map makes room without dropping an active lock, stays within maxEntries, and, with no entry under the empty address, refuses a new one only when every entry is an active lock |
| LoginLimiter.Limiter.MakeRoom | internal/web/ratelimit.go:104-114 | What is left after the two evictions: no active lock gone, no idle entry kept, and, with no entry under the empty address, a map still full holds active locks only |
| LoginLimiter.Limiter.EvictIdle | internal/web/ratelimit.go:130-142 | Removes exactly the idle entries without an active lock |
| LoginLimiter.Limiter.EvictOldest | internal/web/ratelimit.go:148-164 | Removes the victim of the scan, for any iteration order of the map, and shrinks the map if it can |
| LoginLimiter.OldestIsEvictedIff | internal/web/ratelimit.go:148-164 | Under every iteration order a least recently seen unlocked entry goes, iff no unlocked entry filed under the empty address was seen before all other unlocked ones |
| LoginLimiter.EmptyAddressShields | internal/web/ratelimit.go:148-164 | Such an entry, visited last, leaves the map full |
| LoginLimiter.Limiter.Success | internal/web/ratelimit.go:167-171 | Forgets the address |
| LoginLimiter.Bounded | internal/web/ratelimit.go:76-171 | In every run the map never exceeds maxEntries |
| LoginLimiter.LockHolds | internal/web/ratelimit.go:76-171 | An address locked until L is refused by every allow before L, with at least the remaining time, whatever other addresses do and whatever is evicted, unless success is called for it |
| LoginLimiter.RefusedOnlyByLocks | internal/web/ratelimit.go:104-114 | Over runs in which no failure is filed under the empty address, a failure goes unrecorded only when the map is full of active locks, and then waits the maximum |
| LoginLimiter.LimitLocks | internal/web/ratelimit.go:118-123 | The failure that reaches the limit locks for the whole period |
| LoginLimiter.FailCounts | internal/web/ratelimit.go:115-125 | A recorded failure is one more than before, the first waits for nothing and, by the default settings, each later one twice as long as the one before up to the cap; short of the limit no lock appears or moves, and no other entry changes |
| LoginLimiter.FailuresAddUp | internal/web/ratelimit.go:100-125 | Over any stretch of a run in which its entry is kept, the count of an address grows by exactly its failures |
| LoginLimiter.LocksAreEarned | internal/web/ratelimit.go:76-125 | In every run an address is refused only after at least maxFailures failures since its last success |
| Watcher.Dispatcher.constructor | internal/watcher/watcher.go:133-145 | No timers, nothing in flight |
| Watcher.Dispatcher.OnEvent | internal/watcher/watcher.go:150-175 | A known path gets its new library and a re-armed timer, a new one its own timer |
| Watcher.Dispatcher.OnExpiry | internal/watcher/watcher.go:164-170 | A timer's callback puts its path in flight |
| Watcher.Dispatcher.OnFired | internal/watcher/watcher.go:176-186 | A delivery scans and forgets a pending path and ignores any other |
| Watcher.AlwaysCovered | internal/watcher/watcher.go:133-187 | In every run each pending path has an armed timer or a callback in flight, also when Stop came too late |
| Watcher.NothingIsLost | internal/watcher/watcher.go:128-187 | At quiescence every accepted event was followed by a scan of its directory |
| Watcher.ScanUsesLatestLibrary | internal/watcher/watcher.go:151-153 | A scan runs for the library of the latest event on its path |
| Watcher.ScansNeverOutnumberEvents | internal/watcher/watcher.go:128-187 | Scans never outnumber accepted events, stale callbacks included |
| Watcher.StaleCallbackIsHarmless | internal/watcher/watcher.go:154-180 | A concrete run with a stale callback: the event is served early and the orphan is ignored |
| Roots.WithinIffPrefix | internal/pathutil/pathutil.go:18-27 | On clean absolute paths containment is the component prefix order |
| Roots.DedupeRoots | internal/watcher/watcher.go:233-258 | The loops keep, in order, the libraries nothing shadows |
| Roots.KeptAreApart | internal/watcher/watcher.go:227-258 | Two kept roots are neither nested nor equal |
| Roots.RootsPartition | internal/watcher/watcher.go:227-258 | Every configured library lies under exactly one kept root |
| Roots.EventTarget | internal/watcher/watcher.go:195-225 | Picks the deepest library containing the path and a directory inside it, or reports that none does |
| Roots.DepthByLength | internal/watcher/watcher.go:199-203 | Among the libraries containing one path, the longer path string is the deeper directory |
| Lrc.WriteLine | internal/lyrics/writer.go:308-322 | One formatted line appended to the buffer |
| Lrc.WriteSyncedLRC | internal/lyrics/writer.go:295-325 | The loop prints every line and, in bilingual mode with translations, each line's translation after it |
| Lrc.ParseLRC | internal/petitlyrics/client.go:504-527 | The loop returns the recognised lines that have a text, in order, and reports whether there was any |
| Lrc.MatchedTimesAreInRange | internal/petitlyrics/client.go:531-545 | Parsed minutes, seconds and hundredths fit two digits |
| Lrc.LineReturnsIff | internal/lyrics/writer.go:295-325 | A printed line comes back with its trimmed text and its time iff every field of the time is between 0 and 99 |
| Lrc.LongSongsLoseLines | internal/petitlyrics/client.go:48-50 | A line at minute 100 is not recognised |
| LrcGrammar.RecognisedIff | internal/petitlyrics/client.go:48-50 | A line is recognised iff it is a bracket, one or two digits, a colon, two digits, optionally a point or colon and one to three digits, and a bracket; its numbers are read in base ten and its text is the rest, trimmed |
| LrcGrammar.HundredthsOfFraction | internal/petitlyrics/client.go:531-545 | One to three digits of fraction give the hundredths they spell, rounded down |
| Lrc.RoundTrip | internal/petitlyrics/client.go:504-545 | Parsing printed lines gives the same times and trimmed texts back, in order, blank ones shown as a note |
| Lrc.MonolingualRoundTrip | internal/lyrics/writer.go:295-325 | Parsing what WriteSyncedLRC returns without interleaving gives every original back, unchanged if its text is trimmed and not empty |
| Lrc.TrimmedRoundTrip | internal/petitlyrics/client.go:504-545 | On trimmed, non-empty printed lines the round trip is the identity |
| Lrc.Interleaving | internal/lyrics/writer.go:295-325 | Every original and every translation has a position in the output known from the counts |
| Lrc.BilingualRoundTrip | internal/lyrics/writer.go:295-325 | Parsing what WriteSyncedLRC returns in bilingual mode gives n + min(n, m) lines for n originals and m translations, the originals and translations recoverable by position |
| Lrc.InterleavedReport | internal/lyrics/writer.go:295-325 | So are the translations, under the time of their original |
| Provenance.ParseLRCHeader | internal/lyrics/parser.go:36-68 | The loop splits the lines into the header entries and the lyric lines |
| Provenance.HeaderLengthIs | internal/lyrics/parser.go:51-66 | The header ends at the first line that is neither blank nor a tag |
| Provenance.CollectKeys | internal/lyrics/parser.go:116-123 | The set of lower-cased keys present |
| Provenance.Choose | internal/lyrics/parser.go:139-157 | Non-empty candidates whose key is missing are added in order, those present are skipped and counted |
| Provenance.Insert | internal/lyrics/parser.go:162-195 | New tags go before the first blank header line, or after the header |
| Provenance.WriteAll | internal/lyrics/parser.go:212-229 | Lines joined by the file's own line ending, with a final one iff the file had it |
| Provenance.InjectProvenance | internal/lyrics/parser.go:110-258 | The whole rewrite and its two counts |
| ProvenanceFields.TagIff | internal/lyrics/parser.go:72-92 | A line is a tag with this key and value iff, trimmed, it is the bracketed pair with a colon between them and the key is not empty, has no colon and does not start with a digit |
| ProvenanceFields.SanitizeDistributes | internal/lyrics/parser.go:95-100 | The sanitised value of a text is that of its pieces in order |
| ProvenanceFields.SanitizeOne | internal/lyrics/parser.go:95-100 | A single character is dropped iff it is a closing bracket, a carriage return or a newline |
| ProvenanceFields.FieldsAreWritten | internal/lyrics/parser.go:125-157 | In the re-parsed output each of source, fetched, isrc and mbid whose field sanitises to something and whose key the old header lacked is on exactly one header line, with that value; otherwise the number of its header lines is what it was |
| ProvenanceFields.OtherKeysKeepTheirTags | internal/lyrics/parser.go:125-157 | No other key gains or loses a header line |
| ScanLaws.ScanWritten | internal/lyrics/parser.go:46-50 | Any newline-free lines, written with either ending and with or without a final one, scan back as themselves less one carriage return before each bare newline or at the very end, and less an empty unterminated last line |
| ScanLaws.ScannedUnchangedIff | internal/lyrics/parser.go:212-229 | They scan back to themselves iff none ends in a carriage return before a bare newline and an unterminated last line is neither empty nor ends in one |
| ProvenanceLaws.RawTagParses | internal/lyrics/parser.go:72-92 | A written tag parses back to its key and sanitised value |
| ProvenanceLaws.Rewritten | internal/lyrics/parser.go:110-258 | Whatever the file ends in, the rewritten file re-parses to the old lines with the new tags spliced in before the first blank header line, the last old line less a stray carriage return or missing if it was only that |
| ProvenanceLaws.HeaderGrows | internal/lyrics/parser.go:162-195 | The re-parsed header is the old one, in order, with the new tags in one block before its first blank line, iff nothing is injected, the ending is safe or the last line is a lyric line |
| ProvenanceLaws.HeaderLengthGrowsIff | internal/lyrics/parser.go:162-229 | The header is longer by exactly the injected tags iff nothing is injected or the file is not all header ending in a bare carriage return |
| ProvenanceLaws.RewriteScansBack | internal/lyrics/parser.go:110-258 | The rewritten file re-parses to the old lines with the new tags spliced in, iff the file does not end in a stray carriage return that the rewrite would drop |
| ProvenanceLaws.StrayReturnIsLost | internal/lyrics/parser.go:197-229 | A concrete file of that kind: any injection into it alters its lyric line |
| ProvenanceLaws.LyricsAreKept | internal/lyrics/parser.go:102-258 | Re-parsing gives the same lyric lines in order iff nothing is injected, the ending is safe or there is no lyric line |
| ProvenanceLaws.InjectedCount | internal/lyrics/parser.go:110-258 | The reported count is the number of lines added, and zero means the file is unchanged |
| ProvenanceLaws.PlainFilesAreSafe | internal/lyrics/parser.go:110-258 | A file that does not end in a carriage return is safe |
| ProvenanceLaws.KeysArePresent | internal/lyrics/parser.go:139-157 | After a run every non-empty candidate's key is in the header, for every file |
| ProvenanceLaws.SecondRunIsIdle | internal/lyrics/parser.go:102-258 | A second run with the same tags injects nothing and skips every non-empty candidate, for every file |

## Left out

- SQL text, the driver, JSON encoding of `output_paths` and its decoding errors, migrations and failed commits: a transaction is one atomic step that succeeds or rolls back. Column defaults not visible in the statements are taken to be zero, empty or NULL, `created_at` the clock of the insert.
- QueueStore.DBQueue.CancelByLibrary: the status guards on the two writes are kept, but nothing can move a row between the selection and the write, because the call is one atomic step here.
- QueueStore.DBQueue.Enqueue: `NormalizeKey` is not modelled; the normalised key pair is an input.
- Telemetry, `outcome_type`, `provider_lane`, `lane_attempts`, `updated_at`, `List` and the metric counters: columns no other operation reads.
- `InputsQueue`: a slice with push and pop.
- Pacer.RequestPacer.Reserve: the interval is an unbounded integer; overflow of `minInterval` times eight is not modelled. With pacing off, `pace` returns before the lock and nothing is reserved.
- `MissCooldown`: a range check around `Geometric`.
- The upgrade window's length and all other real time in the race: the window may elapse at any turn once armed.
- Race.FindParallel: the parent context is read once per turn, so a cancellation between the last check and `resolve` is not told apart from one after it. As in the code, the synced commit does not recheck the parent.
- Dispatch.FindOrdered: with no lanes at all and a cancelled parent the model returns the parent's error; the constructor of the orchestrator rejects an empty lane list.
- `QualityOf` ranks synced above instrumental while the writer prefers instrumental; nothing here says they agree.
- Similarity.Score: scores are real numbers, not floating point, and strings are sequences of runes.
- Roots.WithinIffPrefix: paths are clean absolute ones given as component lists; relative and empty paths, `filepath.Clean` itself and symbolic links (`ResolveWithinRoot`) are not modelled.
- File operations around the two lyric writers (temporary files, rename, sync, extension and link checks), the unsynced and instrumental writers, and bufio.Scanner's line length limit.
- Provenance.CollectKeys: lower-casing is that of letters whose lower case is ASCII; other letters compare as they are.
- Invalid UTF-8, regular expressions as such (the one timestamp pattern is written out), log messages.
- `internal/worker`, `internal/webauth`, HTTP clients, scraping, the detector, configuration, caches, secrets and rendering.
