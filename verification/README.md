# Verification of the Axeno relay's stores

The relay keeps its state in transactional tables (envelopes, file chunks and their metadata, mailbox
records, invite bundles) and beside them in fast memory: counters, caches, an index and dirty sets. This
project models both sides and proves that the fast side agrees with the tables, in every run, and for
three protocols in every interleaving of any number of threads.

There are two kinds of model.

* **Classes, one call at a time.** `QueueStore`, `FileStore`, `BundleStore`, `SendRates` and `Cached` have
  the source's fields and loops. Each method is proved against a function on a simple abstract state
  (queues of envelopes, transfers with their chunks, hosted bundles), and the promises of the source are
  proved about that state.
* **Transition systems, one atomic step at a time.** `FileProtocol` (claim, reserve, commit, release,
  mirror, delete), `WriteBack` (mutate, mark, and one flusher) and `Mailboxes` (Hello, send, retire, idle
  collection). A cache-entry operation or a successful compare-exchange is one step; write transactions
  hold a lock; a state is what the threads share plus where each thread stands. `Run` takes any sequence
  of actions, so a theorem about `Run` holds at every moment of every interleaving.

| file | content |
|---|---|
| `Tables.dfy` | bytes, options, saturating and wrapping subtraction, sums over a table |
| `Keys.dfy` | identifiers, table keys, lexicographic ranges |
| `ProofOfWork.dfy`, `RateWindow.dfy` | leading-zero test, send-rate window |
| `QueueSpec.dfy`, `QueueTable.dfy`, `QueueStore.dfy`, `QueueHistory.dfy` | the offline queue: meaning, rows, store, whole runs |
| `FileSpec.dfy`, `FileStore.dfy`, `FileRoundTrip.dfy` | file transfers one call at a time, upload and download |
| `FileProtocol.dfy`, `FileTracking.dfy`, `FileRuns.dfy` | file transfers under concurrency: the ledgers, what the cache says of the disk, the runs where it errs |
| `FileAlone.dfy` | the same protocol serving one request after another, and that it then does what the specification says |
| `WriteBack.dfy` | dirty-set write-back |
| `Mailboxes.dfy`, `MailboxRuns.dfy` | mailbox slots, leases and idle collection; what a run of requests itself tells of them |
| `Bundles.dfy` | invite bundles |

## Where the code and its comments part

Five promises made in the source's comments hold only under a condition. The code is modelled as it is; each
case has a lemma with a run that shows the gap, and theorems for every run that say when the promise holds.

* The file-metadata cache is said to stay in step with the table after the open scan (`src/file_store.rs:114-116`).
  A mirror step that comes after a delete re-inserts the deleted transfer into the cache
  (`FileRuns.DeletedTransferReturns`); the entry stays until a restart and its id is not stored again
  (`FileProtocol.StrayForever`). Once all requests are answered, cache and disk name the same transfers if and
  only if no mirror found its entry gone (`FileProtocol.CacheMatchesUnlessLate`).
* Mirroring by chunk count is said to leave in the cache the fullest state that reached the disk
  (`src/file_store.rs:343-348`). Shape and creation time always fit (`FileTracking.ShapeReachesCache`). The counts in
  an entry are the greatest chunk count mirrored into it and the bytes last mirrored with it; once all requests
  are answered they are the disk's if and only if no greater count was mirrored and the last mirror with the disk's
  chunk count had the disk's byte count (`FileTracking.CountsReachCache`). The chunk count is right unless a mirror
  outlives a delete of its transfer (`FileTracking.ReceivedReachesCache`), which happens
  (`FileRuns.RecreatedCountRunsAhead`); the byte count is right if besides no upload changes a chunk's length
  (`FileTracking.BytesReachCache`, `FileTracking.BytesExactlyWhenMirrored`), and goes stale when one does (`FileRuns.CachedBytesGoStale`).
* Every chunk of a transfer is said to agree on its shape, so that a second uploader cannot reshape it
  (`src/file_store.rs:209-210`). The check reads the cache, the write another row: after a claim is given back, a chunk
  can be committed whose index its transfer does not have (`FileRuns.ChunkBeyondShape`). In every run the stored
  indices of a transfer are below its chunk count if and only if no chunk beyond its row was committed since it was
  last deleted (`FileTracking.IndicesBelowUnlessBeyond`). None is as long as no chunk goes into a row of another shape
  than its upload declared (`FileTracking.ChunkIndicesBelow`), for one when all uploads of the transfer declare the
  same chunk count (`FileTracking.SameShapeIndicesBelow`).
* A flush is said never to lose the latest value (`src/state.rs:188-192`). Keys leave the dirty set before the commit.
  In every run, failed commits or not, once all is quiet a key's latest value is in the table if and only if the last
  batch with that key was committed, or had read just what the table holds (`WriteBack.LatestInTable`). A failed
  commit leaves its keys to themselves until they change again (`WriteBack.FailedFlushForgets`).
* Idle collection looks again before it removes a mailbox, so that one whose owner has come back keeps its queue
  (`src/state.rs:296-303`). That second look is sound (`MailboxRuns.CollectedExactlyWhen`,
  `Mailboxes.CollectedWithoutMail`), but the purge that follows runs outside the entry lock. It finds the queue empty
  unless a Hello has registered the mailbox anew after the removal, or a send that had stalled for 29 days has
  brought mail after the look (`Mailboxes.PurgeSparesUnlessBack`); in the first case it can
  take the owner's new mail (`Mailboxes.PurgeCanTakeNewMail`).

## Model

| member | source | states |
|---|---|---|
| Keys.ValidIdsAreColonFree | src/util.rs:50-58 | no identifier the relay accepts contains the key separator |
| Keys.RangeIsPrefix | src/file_store.rs:127-134 | in key order, the half-open range from `id:` to `id;` is exactly the strings starting with `id:`, for every string |
| Keys.RangeSelectsOwnKeys | src/queue_store.rs:76-79 | a range scan for one identifier meets a key if and only if the key belongs to that identifier |
| Keys.SplitJoined | src/queue_store.rs:333-340 | splitting at the first separator inverts joining |
| Keys.KeyForParses | src/queue_store.rs:72-74 | the mailbox and the envelope id are read back from a queue key |
| Keys.KeyForInjective | src/queue_store.rs:72-74 | two queue keys are equal exactly for the same mailbox and id |
| Keys.DecimalDenotes | src/file_store.rs:127-129 | the decimal text of a chunk index denotes that index |
| Keys.ChunkKeyInjective | src/file_store.rs:127-129 | two chunk keys are equal exactly for the same transfer and index |
| ProofOfWork.PowHashOk | src/util.rs:66-78 | the byte loop accepts exactly the hashes whose big-endian value is below 2^(8n-d), for any difficulty |
| ProofOfWork.DigestOk | src/util.rs:66-78 | for a 32-byte digest and difficulty 22 the bound is 2^234 |
| RateWindow.SendRates.AllowDestSend | src/state.rs:235-248 | one check: the answer and the new entry of that destination, all others unchanged |
| RateWindow.RateBound | src/state.rs:235-248 | any closed interval of n minutes admits at most (n+1)*120 of any nondecreasing trace of sends |
| RateWindow.RefusedOnlyWhenFull | src/state.rs:235-248 | a refused send means 120 sends were admitted within the last minute |
| QueueSpec.Evicted | src/queue_store.rs:172-185 | the number evicted makes the new envelope fit and no shorter oldest-first prefix does |
| QueueSpec.EvictsOnlyForRoom | src/queue_store.rs:165-185 | an enqueue keeps everything when 500 envelopes and 8 MiB are not passed; otherwise it drops the fewest of the oldest, any fewer of which would leave more than 500 envelopes or 8 MiB |
| QueueSpec.EnqueueKeepsCaps | src/queue_store.rs:149-209 | after an enqueue every mailbox is within 500 envelopes and 8 MiB, and the new envelope is there |
| QueueSpec.RemovalsKeepCaps | src/queue_store.rs:234-329 | ack, purge and sweep keep the caps |
| QueueSpec.LeftBehind | src/queue_store.rs:234-319 | an acknowledgement leaves exactly the envelopes not named, a purge none, and a sweep exactly those queued at most 14 days ago |
| QueueSpec.SweepRemovesPrefix | src/queue_store.rs:292-319 | with a clock that does not go back, the TTL sweep removes an oldest-first prefix of each queue |
| QueueTable.PartMatchesQueue | src/queue_store.rs:133-147 | counting and weighing a mailbox's key range gives its queue's length and bytes |
| QueueTable.RemoveKeys | src/queue_store.rs:187-195 | deleting any set of rows leaves the table of the surviving envelopes, order kept |
| QueueTable.AppendRow | src/queue_store.rs:155-193 | a row with the largest sequence number joins the end of its mailbox's queue and no other |
| QueueTable.SortedRowsAreQueue | src/queue_store.rs:145 | the rows of a mailbox, sorted by sequence number, are its queue in enqueue order |
| QueueTable.TotalMatchesQueues | src/queue_store.rs:101-119 | weighing all rows gives the bytes of all queues |
| QueueStore.ScanTotals | src/queue_store.rs:101-119 | the open scan finds the exact byte total, a bound on all sequence numbers and an exact index |
| QueueStore.ReadMailbox | src/queue_store.rs:133-147 | reading a mailbox yields its queue |
| QueueStore.ChooseEvictions | src/queue_store.rs:171-184 | the eviction loop picks exactly the prefix of `Evicted` and its byte count, without underflow |
| QueueStore.EvictionsFor | src/queue_store.rs:164-185 | deciding by the index entry alone picks the evictions a full read would |
| QueueStore.SettleIndex | src/queue_store.rs:255-261 | the saturating updates after a removal never saturate, and the index stays exact |
| QueueStore.IndexTells | src/queue_store.rs:164-166 | the index entry is what a full read would find, so the fast path decides as the slow one |
| QueueStore.EnqueueResult | src/queue_store.rs:197-207 | total and index after an enqueue are the sums over the new table |
| QueueStore.AckResult | src/queue_store.rs:255-262 | total, index and returned count after an ack are exact |
| QueueStore.PurgeResult | src/queue_store.rs:285-287 | total and index after a purge are exact |
| QueueStore.SweepResult | src/queue_store.rs:321-328 | total and index after a sweep of all mailboxes are exact |
| QueueStore.QueueStore.constructor | src/queue_store.rs:85-119 | opening on any durable table, as after a crash, yields a consistent store with the same queues |
| QueueStore.QueueStore.Flush | src/queue_store.rs:213-224 | returns exactly the mailbox's queue, oldest first |
| QueueStore.QueueStore.IsEmpty | src/queue_store.rs:226-231 | true exactly when the queue is empty |
| QueueStore.QueueStore.Enqueue | src/queue_store.rs:152-209 | evicts the minimal prefix, appends, and keeps total, index and sequence counter consistent |
| QueueStore.QueueStore.QueueUnlessFull | src/ws.rs:277-292 | guarded sends never take the total past the disk cap or where it was |
| QueueStore.QueueStore.Ack | src/queue_store.rs:234-263 | removes exactly the named envelopes of that mailbox and returns how many |
| QueueStore.QueueStore.PurgeMailbox | src/queue_store.rs:266-288 | empties exactly that mailbox |
| QueueStore.QueueStore.SweepExpired | src/queue_store.rs:292-329 | removes exactly the envelopes past the TTL, everywhere |
| QueueHistory.RecordConserves | src/queue_store.rs:152-329 | one operation keeps every sent envelope either waiting in its own queue in order or fated, once and for good |
| QueueHistory.RunConserves | src/queue_store.rs:152-329 | the same for any run, from any such history |
| QueueHistory.FlushedUntilFate | src/queue_store.rs:211-329 | in every run an envelope is in its mailbox's flush exactly until ack, eviction, sweep or purge takes it |
| QueueHistory.EnvelopesConserved | src/queue_store.rs:152-329 | in every run, enqueued = present + acked + evicted + expired + purged |
| QueueHistory.RunKeepsCaps | src/queue_store.rs:165-185 | in every run of frames up to 512 KiB every mailbox stays within its caps |
| QueueHistory.RunWithinDiskCap | src/ws.rs:277-292 | in every run in which mail comes by guarded sends, the stored total stays within the disk cap or where it started |
| QueueHistory.OthersUntouched | src/queue_store.rs:152-288 | no operation on one mailbox changes another |
| QueueHistory.Perform | src/queue_store.rs:85-329 | each call on a consistent store does to the queues what the operation says |
| QueueHistory.Drive | src/queue_store.rs:85-329 | any sequence of calls, plain and guarded, with restarts in between refines the abstract run; every flush returned the abstract queue and the byte counter is the queues' total |
| FileSpec.ReplaceBytes | src/file_store.rs:289-314 | replacing a chunk trades old bytes for new; the subtraction does not underflow; re-upload does not count twice |
| FileSpec.StoreShape | src/file_store.rs:186-252 | an accepted chunk is added to its transfer or to a fresh one with the given shape; a rejected one changes nothing |
| FileSpec.WriteKeepsBounds | src/file_store.rs:297-310 | stored <= declared <= permitted and the global byte cap survive a write |
| FileSpec.StoreKeepsBounds | src/file_store.rs:186-252 | every upload keeps all transfers well formed, both caps, and all other transfers |
| FileSpec.ReuploadIsIdempotent | src/file_store.rs:182-185 | sending an accepted chunk again changes nothing and answers the same |
| FileSpec.AcceptedExactlyWhen | src/file_store.rs:186-319 | an upload is accepted if and only if its shape is possible and that of its transfer, only chunk 0 begins a transfer below the limit, the chunks then held fit the declared bytes, the total stays under the cap or does not grow, and the database obliges |
| FileSpec.RefusedAndWhy | src/file_store.rs:195-314 | a refused upload changes nothing, and exactly which reason it is given |
| FileSpec.ReplyTellsProgress | src/file_store.rs:316-363 | the reply counts the chunks the transfer now holds and repeats the declared number; the chunk just stored is fetched with its bytes, whether or not others are missing |
| FileSpec.FetchExactly | src/file_store.rs:366-378 | a fetch succeeds exactly for stored chunks, of complete and incomplete transfers; otherwise a bad index and an absent chunk are told apart |
| FileSpec.CountTellsComplete | src/file_store.rs:434-436 | pigeonhole: the chunk count reaches the declared number exactly when no index is missing |
| FileSpec.SweepLeaves | src/file_store.rs:420-438 | a complete transfer survives a sweep exactly while it is no older than the file lifetime, one with a chunk missing exactly while it is no older than an hour or the file lifetime, whichever is shorter |
| FileStore.ChunkLookup | src/file_store.rs:289-296 | a chunk key is in the table exactly when that transfer has that chunk, with its bytes |
| FileStore.DeleteMatches | src/file_store.rs:399-406 | deleting the key range removes exactly that transfer's chunks |
| FileStore.MetaTotals | src/file_store.rs:158-175 | the metadata rows weigh and count what the transfers do |
| FileStore.ScanMeta | src/file_store.rs:158-175 | the open scan rebuilds cache, byte total and count exactly |
| FileStore.PlanWrite | src/file_store.rs:289-319 | the planned row, the bytes to reserve and the bytes to release, or the exact rejection |
| FileStore.CommitResult | src/file_store.rs:316-361 | after commit and mirror, tables, cache and counters agree on the transfer with the new chunk |
| FileStore.FindExpired | src/file_store.rs:421-438 | the cache-driven filter finds exactly the transfers past their completeness-dependent lifetime |
| FileStore.ReopenedIsDurable | src/file_store.rs:139-175 | a restart keeps every transfer and both totals and takes the durable creation times |
| FileStore.FileStore.constructor | src/file_store.rs:139-175 | opening on durable tables yields a consistent store |
| FileStore.FileStore.StoreChunk | src/file_store.rs:186-252 | result and new state of every upload, rejections, failed begins and failed commits included; an accepted one is told the chunks now held and the declared number |
| FileStore.FileStore.CreateTransfer | src/file_store.rs:223-250 | a creation that fails leaves no claim, slot or bytes behind |
| FileStore.FileStore.WriteChunk | src/file_store.rs:257-363 | the durable half: refused at the begin, committed, or fully rolled back |
| FileStore.FileStore.FetchChunk | src/file_store.rs:366-378 | returns the stored bytes and shape, or the exact error |
| FileStore.FileStore.DeleteTransfer | src/file_store.rs:382-415 | removes exactly that transfer and gives back exactly its bytes and slot, or fails and changes nothing |
| FileStore.FileStore.SweepExpired | src/file_store.rs:420-446 | removes exactly the expired transfers and returns their number: those past the file lifetime, or with a chunk missing past the shorter one; a failing delete ends it with only expired ones gone |
| FileRoundTrip.UploadsHold | src/file_store.rs:186-252 | after any uploads in any order with repeats and rejections, the transfer holds exactly the accepted chunks |
| FileRoundTrip.CompleteIffAllStored | src/file_store.rs:312-314 | the chunk count reaches the declared number exactly when every index is stored |
| FileRoundTrip.ReplyTellsCompletion | src/file_store.rs:312-363 | after any uploads, the reply to the last accepted one reads received == total exactly when every chunk of the file can be fetched |
| FileRoundTrip.RoundTrip | src/file_store.rs:366-415 | once complete, fetching all chunks yields the file, and deleting restores the store without it |
| FileRoundTrip.AllAccepted | src/file_store.rs:186-252 | with room and chunk 0 first, no order and no repeats make an upload fail |
| FileRoundTrip.FileSurvives | src/file_store.rs:186-378 | send each chunk at least once, and the file comes back byte for byte |
| FileProtocol.InvKept | src/file_store.rs:186-497 | every step of every thread keeps lock, ownership, rows, memory of the tables and both ledgers |
| FileProtocol.PrepareRemembers | src/file_store.rs:280-319 | what a transaction has computed before its commit is true of the tables it read |
| FileProtocol.CommitStep | src/file_store.rs:316-335 | a commit moves bytes and slots between the tables and the thread's hands, losing none |
| FileProtocol.BytesAccounted | src/file_store.rs:267-335 | always reserved = committed + reserved by open writes + freed but unreleased; the cap binds the disk; no release saturates |
| FileProtocol.SlotsAccounted | src/file_store.rs:234-250 | always count = transfers on disk + slots of creations + unreleased deletes, within the limit, without wrap-around |
| FileProtocol.IdsExclusive | src/file_store.rs:207-251 | of creation claim, on disk and deleted-but-cached at most one holds per id, by one thread, and the cache has the id; a creation meets no committed row or chunk |
| FileProtocol.RowsTrue | src/file_store.rs:289-319 | in every committed state each row is the sum and count of its chunks, stored <= declared <= permitted, and no replacement underflows |
| FileProtocol.StrayStep | src/file_store.rs:349-361 | a cache entry for nobody arises exactly at a mirror that finds its entry gone, and is never cleared |
| FileProtocol.CacheMatchesUnlessLate | src/file_store.rs:114-116 | when all is answered the cache is the disk plus the late mirrors, so they agree if and only if there was none |
| FileProtocol.StrayForever | src/file_store.rs:213-232 | after a late mirror the id stays cached and is not stored again, whatever follows |
| FileAlone.PreparesAsSpecified | src/file_store.rs:280-319 | the write transaction accepts exactly what the specification accepts and plans the row and the bytes of the transfer with the new chunk |
| FileAlone.AloneStoresAsSpecified | src/file_store.rs:186-363 | one upload through the protocol, nobody else at work, does to the transfers what the specification says, at each point where the database may refuse, and leaves cache and counters exact |
| FileAlone.AloneDeletesAsSpecified | src/file_store.rs:382-415 | so does one delete |
| FileAlone.ServedAsSpecified | src/file_store.rs:186-415 | from a settled store, as an open leaves it, any sequence of uploads and deletes served one after another refines the same sequence of specified operations |
| FileAlone.SettledExactlyWhen | src/file_store.rs:114-116 | after any concurrent run, once all is answered, the store is back in such a state if and only if no mirror came late and every cache entry is as far as its transfer |
| FileRuns.DeletedTransferReturns | src/file_store.rs:349-361 | a run of one upload and one delete that ends with a late mirror |
| FileTracking.ShapeReachesCache | src/file_store.rs:337-356 | in every run a transfer on disk has its shape in the cache, created no later |
| FileTracking.CacheIsGreatestWritten | src/file_store.rs:349-361 | in every run an entry holds the greatest chunk count written into it and the bytes last written with that |
| FileTracking.CountsReachCache | src/file_store.rs:343-361 | when all is answered the cached chunk count is the disk's exactly if no greater one was mirrored, and the byte count exactly if the last mirror with the disk's chunk count carried it |
| FileTracking.ReceivedReachesCache | src/file_store.rs:343-361 | unless a mirror outlives a delete of its transfer, the cached chunk count never exceeds the disk's and is equal when all is answered |
| FileTracking.BytesExactlyWhenMirrored | src/file_store.rs:357-360 | then the cached byte count is the disk's exactly if the last mirror carrying the disk's chunk count carried the disk's byte count |
| FileTracking.UndeletedHasNone | src/file_store.rs:382-415 | for a transfer nobody asks to delete there is no such mirror |
| FileTracking.BytesReachCache | src/file_store.rs:357-360 | if besides no upload changes a chunk's length, the cached byte count is the disk's when all is answered |
| FileTracking.IndicesBelowUnlessBeyond | src/file_store.rs:209-222 | in every run stored indices are below the chunk count exactly if no chunk beyond its row was committed since the last delete |
| FileTracking.ChunkIndicesBelow | src/file_store.rs:280-318 | they are as long as no chunk is committed into a row of another shape, whatever is deleted or given back |
| FileTracking.SameShapeIndicesBelow | src/file_store.rs:195-222 | in particular when every upload of the transfer declares the same chunk count |
| FileRuns.CachedBytesGoStale | src/file_store.rs:357-360 | a run of two uploads that leaves a stale cached byte count |
| FileRuns.RecreatedCountRunsAhead | src/file_store.rs:349-361 | a run with a delete and a second creation that leaves a cached chunk count ahead of the disk |
| FileRuns.ChunkBeyondShape | src/file_store.rs:213-251 | a run without deletes in which a claim is given back and a chunk lands beyond the new transfer's shape |
| WriteBack.Cached.Change | src/state.rs:173-182 | mutate, then mark |
| WriteBack.Cached.Drain | src/state.rs:193-200 | each key is unmarked, then read; the batch makes the table equal to the map |
| WriteBack.Cached.Flush | src/state.rs:193-212 | with nothing else running, one flush makes table and map equal and leaves nothing dirty |
| WriteBack.WriteBatch | src/meta_store.rs:92-129 | the transaction's loop applies the entries in order: upsert or delete |
| WriteBack.ApplyElsewhere | src/meta_store.rs:92-129 | a batch changes only the keys it names |
| WriteBack.SettledKept | src/state.rs:184-212 | every step, failed commits included, keeps: the map has what was last read of a key, or the key is dirty, owed a mark, or about to be read |
| WriteBack.AlwaysSettled | src/state.rs:184-212 | the same at every moment of every interleaving |
| WriteBack.LatestInTable | src/state.rs:188-201 | when all is quiet a key's latest value is in the table exactly if its last batch was committed or had read what the table holds |
| WriteBack.NothingLost | src/state.rs:188-192 | so without failed commits table and map agree: exactly, or up to activity times refreshed without a mark |
| WriteBack.MapHasLastChange | src/state.rs:173-182 | in every run the map has for each key what the last change of it said, be that a record or a deletion |
| WriteBack.LastChangeInTable | src/state.rs:188-192 | without failed commits, once all is quiet the table has for each key what the last change of it said |
| WriteBack.FailedFlushForgets | src/state.rs:193-201 | whenever a commit fails, a key of its batch not changed since stays as it is in the table, whatever follows, until a handler changes it |
| WriteBack.FailedFlushHappens | src/state.rs:193-201 | a run after which all is quiet and the table is behind |
| Mailboxes.DayFloor | src/util.rs:17-20 | the recorded activity time is at most a day before the clock |
| Mailboxes.SlotInvKept | src/state.rs:216-229 | every step keeps the slot ledger and the exclusivity of entries being registered |
| Mailboxes.SlotsAccounted | src/ws.rs:130-144 | always count = registered + reserved + removed but uncounted, within 50 000 or the initial count; the plain subtraction never wraps |
| Mailboxes.LeaseInvKept | src/ws.rs:126-142 | every step keeps each lease within a day of the last Hello or authorised send |
| Mailboxes.MailInvKept | src/state.rs:280-320 | every step keeps what sweeps have seen of a queue, what authorised sends rely on, and the mail balance |
| Mailboxes.OnlyIdleCollected | src/state.rs:304-310 | in every interleaving a collected mailbox had no Hello and no authorised send for 29 days before the sweep's clock, and has no socket |
| Mailboxes.CollectedWithoutMail | src/state.rs:286-310 | queued at the removal is what arrived since the sweep's look less what is gone since, and nothing unless a stalled send came after the look |
| Mailboxes.StalledSendIsCollected | src/ws.rs:236-292 | a run that shows why: a send stalled past the lease queues mail just before the removal |
| Mailboxes.PurgeSparesUnlessBack | src/state.rs:304-318 | unless a stalled send came after the look, the purge discards exactly what arrived since the removal less what is gone since, and nothing unless a Hello registered the mailbox in between |
| Mailboxes.PurgeCanTakeNewMail | src/state.rs:304-318 | a run in which that is mail of the mailbox registered anew |
| MailboxRuns.LeaseIsLastContact | src/ws.rs:124-142 | in every run the lease of a registered mailbox is the day of its last contact, an accepted Hello or authorised send or its registration, read off the actions alone; without any, the lease it started with |
| MailboxRuns.CollectedExactlyWhen | src/state.rs:298-310 | a sweep that comes to a mailbox of its list removes it if and only if it is registered, not being registered, offline, and more than 30 days lie between the day of its last contact and the sweep's clock |
| MailboxRuns.ListedExactlyWhen | src/state.rs:280-295 | a sweep takes up a mailbox exactly when more than 30 days lie between the day of its last contact and the sweep's clock, and lists it exactly when it finds the queue empty and nobody connected |
| MailboxRuns.NoContactBeforeCollection | src/state.rs:304-310 | so a collected mailbox had no contact for 29 days before the sweep's clock |
| MailboxRuns.SendersAreAuthorised | src/ws.rs:236-253 | in every run whoever is about to queue mail was authorised by a contact, no later than the last one |
| MailboxRuns.RecordIsRun | src/ws.rs:236-292 | the arrivals, late arrivals and registrations that the collection theorems count are those of the run |
| MailboxRuns.HelloRegistersExactlyWhen | src/ws.rs:115-145 | a Hello registers or renews exactly when it is accepted and the mailbox is known or one of 50 000 slots is free; otherwise nothing changes |
| MailboxRuns.RetireForgets | src/ws.rs:457-465 | a retired mailbox is gone with its mail and its slot, all others untouched |
| Bundles.Clamp | src/ws.rs:343-345 | the expiry is between one minute and 30 days from now, and as asked when it can be |
| Bundles.LiveStays | src/ws.rs:314-333 | in every run a bundle that has not expired is unchanged |
| Bundles.UploadIsFetched | src/ws.rs:301-366 | after an accepted upload every fetch before the announced expiry returns it, whatever happens in between |
| Bundles.FetchIsGenuine | src/ws.rs:354-366 | a fetch returns nothing expired and nothing but an accepted upload of that id that had its proof of work |
| Bundles.PruningIsInvisible | src/state.rs:250-256 | when the scan runs makes no difference to a fetch |
| Bundles.PruneLeaves | src/state.rs:257-276 | a scan half a minute after the last one, or the first one, leaves exactly the unexpired bundles; any other leaves all |
| Bundles.AcceptedExactlyWhen | src/ws.rs:301-342 | an upload is accepted if and only if it has its proof of work, a valid id and at most 16 KiB, and the very bundle is live already or none is and there is room among 50 000 bundles and 64 MiB after the scan |
| Bundles.AcceptedIsHosted | src/ws.rs:320-353 | it is told the expiry of the live bundle, or the one it asked for brought between a minute and 30 days from now, and is hosted with that beside all others |
| Bundles.RefusedAndWhy | src/ws.rs:301-342 | a refused upload changes no bundle but for the scan, and exactly which reason it is given; without proof of work it does not get to the scan |
| Bundles.UploadWithinCaps | src/ws.rs:334-350 | count and byte caps survive uploads, also in place of an expired bundle |
| Bundles.BundleStore.Prune | src/state.rs:257-276 | removes exactly the expired, at most once an interval, total exact, every removal marked |
| Bundles.BundleStore.Put | src/ws.rs:301-353 | reply and new state of every upload, total exact, every change marked |
| Bundles.BundleStore.Fetch | src/ws.rs:354-366 | answer of every fetch |

## Left out

- Numbers are unbounded: 64-bit overflow of totals, sequence numbers and clocks is not modelled, except that
  the plain subtractions of counters wrap and are shown not to.
- Read errors, undeserialisable rows and failed queue transactions. Failed begins and commits of uploads and
  failed deletes are modelled in the file store, failed commits in the write-back.
- Legacy envelopes without a sequence number, which order as 0.
- An envelope id stands for its canonical text; ids are assumed fresh, as random UUIDs are.
- Queue operations running at the same time: the source keeps the index and the caps only approximate then
  (src/queue_store.rs:63-68), so exactness is stated one call at a time.
- FileProtocol.InvKept: which thread gets the write lock is left open; a failed write may give up the lock
  before it gives back its bytes, which allows more interleavings than the code.
- FileTracking.ReceivedReachesCache: a mirror that outlives a delete may be harmless, when the entry it reaches is
  about to be dropped or has a greater count; the exact condition is that of `FileTracking.CountsReachCache`.
- FileTracking.BytesReachCache: asks for one length per chunk index over all creations of the transfer in the run.
- WriteBack.LatestInTable: one flusher is assumed, as in src/main.rs:171-183; activity times refreshed on
  paths without a mark (src/ws.rs:245-253, src/state.rs:141) may be behind in the table.
- Mailboxes.OnlyIdleCollected: assumes a clock that does not go back and one run without restart (leases written
  back late may be older on disk).
- Mailboxes.CollectedWithoutMail: a send stalls when 29 days pass between its authorisation and its enqueue; that such a
  send after the look does leave mail behind is shown by a run, `Mailboxes.StalledSendIsCollected`.
- Token hashes, delivery allowlists and proof-of-work verdicts are yes-or-no inputs of the steps; SHA-256,
  nonce parsing and its time window are not modelled.
- The `online` map is changed freely by the environment: its stale-socket cleanup is not atomic in the source.
- The removal of rate entries on retire and on collection, after which a destination's window starts afresh.
- Bundles across restarts, and uploads running at the same time, where the caps are checked before the insert.
- WebSocket framing, JSON, base64, the writer task, certificates, encryption at rest, Tor, configuration,
  migration and update checks: input, output and library behaviour.
