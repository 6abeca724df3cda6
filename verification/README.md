# Verified model of a single-writer ledger engine

A Dafny model of a double-entry ledger engine: a lock-free request queue, a bounded deduplication
cache, transaction validation, a write-ahead log with checksummed records, in-memory balances with
published copies, snapshots, and crash recovery. The parts are modelled separately and composed into
an end-to-end crash-safety theorem: run the event loop without short writes, cut the log at any byte
that was not yet synced, recover, and the result is exactly the state after some number of logged
transactions that includes every acknowledged one.

`dafny verify dfyconfig.toml` checks the whole project.

## How it is organised

| file | content |
|---|---|
| `Types`, `Bits`, `Bytes`, `Sums` | domain types, masking by powers of two, little-endian integers, order-independent sums |
| `Crc32` | the bit-serial CRC register, the table-driven program, burst detection |
| `WalCodec`, `Framing`, `WalFormat`, `WalReader`, `WalWriter` | payload codec, greedy reading of any record format, the record format, the reader and writer objects |
| `Ledger`, `Validation`, `Headroom` | applying transactions, the two validation passes, when 64-bit arithmetic suffices |
| `Lru`, `IdempotencyCache` | recency lists over histories, the three intrusive lists in one node array |
| `RingBuffer`, `RingHistory` | the bounded queue as interleaved atomic steps; what becomes of every push |
| `Snapshot`, `Recovery`, `RecoveryProperties` | snapshot files, recovery, what recovery guarantees on bytes |
| `Engine`, `EngineRuns`, `LedgerEngine` | one request, whole runs, the engine object |
| `CrashSafety`, `FlushRuns`, `RecoveryHeadroom` | end to end: runs, crashes and recovery; with explicit flushes; without overflow |

Objects of the source that update their fields are classes (`BinaryWalReader`, `BinaryWalWriter`,
`LedgerState`, `IdempotencyCache`, `LedgerEngine`). Each of their methods is proved against a
function of the old state, and the theorems are about those functions. What clocks, file calls and
the thread scheduler do is an input: `WalWriter.Io` is the outcome of one append, `Recovery.CutOutcome`
of cutting the log, `SnapshotFile.Io` of writing a snapshot, `order` an iteration order of the
account map, and a run of the queue is any sequence of enabled steps. Balances are unbounded integers;
the methods also report (`fits`) whether every value they computed was a 64-bit value. Within a budget
on the amounts moved, `EngineRuns.NothingOverflows` proves that it was for the event loop and
`RecoveryHeadroom.CrashRecoveryFits` for recovery.

## Where the code does less than its comments

Each of these is a theorem with the exact condition, or a counterexample with the widest condition
under which the property holds.

- Replay skips records whose id is not above every earlier one (`src/recovery.cpp:39`), while ids are
  handed out before a request is queued. `Recovery.ReplayMeaning` says exactly which records are
  applied, `Recovery.NothingSkippedIff` when that is all of them, `Recovery.OutOfOrderLosesRecord`
  is the loss, and `CrashSafety.AnyOrderRecovers` is what a whole run recovers to without any
  assumption on ids.
- A record whose fsync failed stays in the log although its transaction was reported as failed:
  `EngineRuns.LogAgreesIff` is the exact condition, `CrashSafety.FailedButRecovered` a transaction
  reported as failed that recovery brings back.
- A short write is not cleaned up and later appends go behind it. `CrashSafety.TearLosesLater` says of
  every such run that recovery returns the records before the first tear and discards everything
  later, acknowledged or not, exactly if the bytes at the tear do not pass for a record by a checksum
  coincidence. Up to 11 torn bytes that coincidence is impossible, and in the last four bytes
  `WalFormat.TrailerTear` decides it. `CrashSafety.AcknowledgedLost` is an acknowledged transaction
  that is lost. `EngineRuns.OffsetTruthfulIff` shows that the writer's own length is wrong exactly
  from the first tear on.
- The demo writes its snapshot from the published state with the writer's current length
  (`src/main.cpp:100-106`). Recovery from it loses what was committed since the last publication:
  `CrashSafety.PublishedSnapshot`, `CrashSafety.PublishedIsWorkingIff`, and for any offset ahead of its
  state `RecoveryProperties.AheadLoses`.
- `src/recovery.cpp:20-21` promises a full replay when there is no snapshot. There are no accounts to
  replay onto, and recovery succeeds with nothing: `RecoveryProperties.NoSnapshotRecoversNothing`.
- `include/ledger/recovery.hpp:19-21` promises the length the log should have. If the snapshot offset
  lies beyond the end of the log the reported length is that offset, the log keeps its own length,
  and records appended afterwards are not read back: `RecoveryProperties.AppendableIff`.
- `include/ledger/ledger_state.hpp:50` says the trial balance holds if and only if every transaction
  was balanced. `Ledger.TrialPassesIff` is the exact condition and `Ledger.OppositeErrorsPass` a
  passing run of two unbalanced transactions.
- A key is used up by any request that carries it, also one that was refused or could not be logged:
  `EngineRuns.DuplicateIff`.
- A successful `write_snapshot` does not promise that the new file survives a crash, because a failed
  sync of the directory is not reported: `SnapshotFile.SurvivesIff`.
- The queue needs at least two cells: `RingBuffer.OrderNeedsTwoCells`.

## Model

| member | source | states |
|---|---|---|
| `Crc32.MakeTable` | src/crc32.cpp:9-19 | entry i of the table is i after eight free-running register shifts |
| `Crc32.TableByte` | src/crc32.cpp:28-29 | one table look-up and an 8-bit shift equal feeding the eight message bits of a byte into the bit-serial register |
| `Crc32.Compute` | src/crc32.cpp:25-32 | for messages of any length the table-driven program returns the checksum of the bit-serial register |
| `Crc32.CheckValue` | src/crc32.cpp:9-32 | the checksum of "123456789" is 0xCBF43926, the published check value of CRC-32 |
| `Crc32.BurstDetected` | src/crc32.cpp:25-32 | two messages of equal length that differ only within four consecutive bytes have different checksums |
| `Crc32.SealedIsResidue` | src/crc32.cpp:25-32 | data followed by its stored checksum is exactly what leaves the register on one fixed value |
| `Crc32.BurstBreaksSeal` | src/wal_reader.cpp:61-67 | damage within four consecutive bytes, in data, stored checksum or across both, never passes the checksum comparison |
| `Bits.Masked` | include/ledger/ring_buffer.hpp:47 | and-ing with a power of two minus one is the remainder, so masked indices wrap correctly |
| `WalCodec.EncodeTransactionPayload` | src/wal_codec.cpp:22-43 | the buffer holds the payload layout, at most 289 bytes, so the too-large error cannot occur |
| `WalCodec.DecodeTransactionPayload` | src/wal_codec.cpp:45-82 | the decoding loop returns what the payload layout says or the corrupt-record error |
| `WalCodec.PayloadRoundTrip` | src/wal_codec.cpp:22-82 | decoding an encoded transaction gives back its key and legs under the given id and time |
| `WalCodec.PayloadCanonical` | src/wal_codec.cpp:45-82 | every accepted byte string is the encoding of what it decodes to |
| `WalCodec.PayloadLayout` | src/wal_codec.cpp:30-39 | the byte position of every field; direction byte 0 is a debit and 1 a credit |
| `Bytes.TwosComplement` | src/wal_codec.cpp:8-12 | negative amounts and times are stored in two's complement |
| `WalFormat.ParseWritten` | src/wal_reader.cpp:34-81 | a written record is read back whole whatever follows it |
| `WalFormat.ParseTorn` | src/wal_reader.cpp:34-59 | a strict prefix of a record reads as end of log or truncated, before any checksum is looked at |
| `WalFormat.ParseLocal` | src/wal_reader.cpp:34-81 | whether a record is accepted depends on its own bytes only |
| `WalFormat.RecordLayout` | include/ledger/wal_format.hpp:9-38 | the byte position and value of every header field, payload and checksum |
| `WalFormat.ParseAccepts` | src/wal_reader.cpp:34-74 | which bytes are accepted as a record, end of log or truncated, on the bytes themselves |
| `WalFormat.TornTail` | src/wal_reader.cpp:34-81 | a log followed by any strict prefix of one more record is read as exactly the log, and the last valid offset is the end of the log |
| `WalFormat.DamageNoticed` | src/wal_reader.cpp:45-67 | a record damaged within four consecutive bytes outside its size field is reported corrupt |
| `WalFormat.DamageEndsScan` | src/wal_reader.cpp:26-82 | reading stops at the start of a damaged record with everything before it intact |
| `WalFormat.ScanTakesItsBytes` | src/wal_reader.cpp:76-77 | the last valid offset is the total size of the encodings of the records read |
| `WalFormat.TearHidesLater` | src/wal_writer.cpp:70-71 | after a short write of any length, whatever is written behind it, the scan ends at the tear with everything before it exactly if the bytes there do not carry a matching checksum and a decodable payload by coincidence; up to 11 bytes they never do |
| `WalFormat.TrailerTear` | src/wal_writer.cpp:66-71 | a tear within the checksum with records behind it always ends the scan there; the torn record itself is read exactly if its missing bytes are the start of the next record |
| `WalReader.CheckRecord` | src/wal_reader.cpp:61-74 | checksum and decoding decide a complete record |
| `WalReader.BinaryWalReader.Seek` | include/ledger/wal_reader.hpp:43 | cursor and last valid offset move together |
| `WalReader.BinaryWalReader.ReadNext` | src/wal_reader.cpp:26-82 | returns the outcome for the bytes at the cursor and moves past a good record only |
| `WalWriter.BinaryWalWriter.Open` | src/wal_writer.cpp:26-43 | the offset is the file length and nothing is dirty; a failed open leaves the writer closed |
| `WalWriter.BinaryWalWriter.BuildRecord` | src/wal_writer.cpp:51-68 | header, payload and checksum with the time of the append |
| `WalWriter.BinaryWalWriter.Append` | src/wal_writer.cpp:45-80 | new file bytes, offset, dirty flag, synced length and result for every outcome of write and fsync, through `Engine.AppendMeaning` and `FlushRuns.DurableExactly` |
| `WalWriter.BinaryWalWriter.Flush` | src/wal_writer.cpp:82-89 | syncs exactly if dirty |
| `Engine.AppendMeaning` | src/wal_writer.cpp:45-80 | success exactly if the whole record is in the file and its fsync, if every write is synced, succeeded; the synced length moves by that fsync only, the dirty flag is set by a complete record and cleared by it only |
| `Ledger.LedgerState.AddAccount` | src/ledger_state.cpp:5-7 | adds unless the id is taken |
| `Ledger.LedgerState.Apply` | src/ledger_state.cpp:19-29 | legs in order, stopping half way at a missing account, and the last applied id; what that means is `Ledger.BalanceAfterLegs`, `Ledger.MissingAccountStops` and `Ledger.LastIdIsLargest` |
| `Ledger.BalanceAfterLegs` | include/ledger/types.hpp:50-68 | on the type codes: accounts of type 0 and 4 end at balance plus debits minus credits on them, all others at balance minus debits plus credits |
| `Ledger.BalanceAfterRun` | src/ledger_state.cpp:19-29 | the same over any run of transactions |
| `Ledger.MissingAccountStops` | src/ledger_state.cpp:20-23 | the legs before a missing account are applied, the rest and the id are not |
| `Ledger.LastIdIsLargest` | src/ledger_state.cpp:26-27 | the last applied id is the largest seen, in whatever order ids come |
| `Ledger.ApplyLegsChart` | src/ledger_state.cpp:19-29 | applying changes balances only, and completes exactly if all accounts exist |
| `Ledger.ApplyLegsSum` | src/ledger_state.cpp:19-29 | any sum over any choice of accounts moves by exactly the debits minus credits of the legs on them |
| `Ledger.ReplayDrift` | src/ledger_state.cpp:19-45 | a run moves the imbalance by the debits minus credits of its transactions |
| `Ledger.ReplayConserves` | include/ledger/ledger_state.hpp:47-51 | balanced transactions never change debit-normal total minus credit-normal total |
| `Ledger.TrialIsImbalance` | src/ledger_state.cpp:31-45 | the trial balance passes exactly at imbalance zero, in any account order |
| `Ledger.TrialByType` | src/ledger_state.cpp:31-45 | the trial balance compares what accounts of type 0 and 4 hold with what all others hold |
| `Ledger.TrialPassesIff` | include/ledger/ledger_state.hpp:47-51 | after any run it passes exactly if opening imbalance and drift cancel |
| `Ledger.OppositeErrorsPass` | include/ledger/ledger_state.hpp:50 | two unbalanced transactions can pass the trial balance |
| `Ledger.ValidateTrialBalance` | src/ledger_state.cpp:31-45 | the summing loop decides the imbalance |
| `Validation.CheckedAdd` | src/validation.cpp:10-15 | succeeds exactly if the sum is a 64-bit value |
| `Validation.ValidateTransactionShape` | src/validation.cpp:19-39 | the loop returns the first fault in leg order |
| `Validation.ShapeMeaning` | src/validation.cpp:19-39 | accepted exactly with at least two legs, positive amounts and equal totals within 64 bits; what each error means |
| `Validation.ShapeFaults` | src/validation.cpp:19-39 | a zero amount is reported exactly if it comes before any overflow of a total, an overflow exactly if it comes before any zero amount |
| `Validation.AddPending` | src/validation.cpp:58-68 | the inner loop merges into the entry of the same account or appends one |
| `Validation.FinalBalance` | src/validation.cpp:52-74 | the balance the legs leave is the old one plus the merged delta |
| `Validation.VerdictByType` | src/validation.cpp:52-82 | on amounts and type codes: not found exactly if an account is missing, insufficient funds exactly if all exist and one of type 0 or 4 would end below minus its limit |
| `Validation.PendingDecides` | src/validation.cpp:71-82 | checking every pending account once is checking the balances the legs would leave |
| `Validation.ValidateTransactionAgainstState` | src/validation.cpp:41-85 | the check by prediction gives the verdict of applying the legs one by one, with the same errors |
| `Validation.AcceptedKeepsFloor` | src/validation.cpp:41-85 | an accepted transaction keeps every debit-normal account at or above minus its limit |
| `Validation.TransferVerdict` | src/validation.cpp:71-82 | a two-leg transfer is accepted exactly if the balances it leaves on its debit-normal accounts are within their limits |
| `Headroom.PartOfRun` | src/ledger_state.cpp:19-45 | after any run the sum over any choice of accounts is within the opening exposure plus the amount moved |
| `Headroom.NextNeverOverflows` | src/validation.cpp:52-82 | within the budget, checking and applying the next transaction computes 64-bit values only |
| `Headroom.ApplyNeverOverflows` | src/ledger_state.cpp:19-29 | within the budget, applying the next transaction computes 64-bit values only |
| `Headroom.TrialNeverOverflows` | src/ledger_state.cpp:32-41 | within the budget, no running total of the trial balance overflows in any account order |
| `Lru.CachedIsRecent` | src/idempotency_cache.cpp:59-90 | the cached keys are the first `capacity` of all keys by recency |
| `Lru.StackDistance` | include/ledger/idempotency_cache.hpp:20-24 | a key is cached exactly if presented before with fewer than `capacity` distinct other keys since |
| `Lru.NewTwiceFarApart` | include/ledger/idempotency_cache.hpp:20-24 | a key taken as new twice has at least `capacity` distinct other keys in between |
| `IdempotencyCache.IdempotencyCache.constructor` | src/idempotency_cache.cpp:8-21 | an empty consistent cache of max(capacity, 1) nodes |
| `IdempotencyCache.InBucketRange` | src/idempotency_cache.cpp:23-25 | the masked hash is the hash modulo the bucket count |
| `IdempotencyCache.IdempotencyCache.UnlinkLru` | src/idempotency_cache.cpp:27-33 | the three node updates and the two ends |
| `IdempotencyCache.UnlinkCorrect` | src/idempotency_cache.cpp:27-33 | unlinking leaves the doubly linked list of the other nodes and nothing else changed |
| `IdempotencyCache.IdempotencyCache.PushFrontLru` | src/idempotency_cache.cpp:35-42 | the node updates and the two ends |
| `IdempotencyCache.PushCorrect` | src/idempotency_cache.cpp:35-42 | the list with the node in front, nothing else changed |
| `IdempotencyCache.IdempotencyCache.RemoveFromBucket` | src/idempotency_cache.cpp:44-57 | the walk ends at the node and takes it out of its chain |
| `IdempotencyCache.IdempotencyCache.Find` | src/idempotency_cache.cpp:60-63 | walking one chain finds a key exactly if it is cached anywhere |
| `IdempotencyCache.RefreshConsistent` | src/idempotency_cache.cpp:64-66 | a hit keeps all lists consistent and moves the key to the front |
| `IdempotencyCache.TakenConsistent` | src/idempotency_cache.cpp:71-75 | taking a free node keeps all lists consistent |
| `IdempotencyCache.EvictedConsistent` | src/idempotency_cache.cpp:76-81 | evicting keeps all lists consistent and drops exactly the least recent key |
| `IdempotencyCache.PlacedConsistent` | src/idempotency_cache.cpp:83-87 | placing a key keeps all lists consistent and puts it in front |
| `IdempotencyCache.IdempotencyCache.CheckAndInsert` | src/idempotency_cache.cpp:59-90 | duplicate exactly if cached; the new contents are move-to-front cut at capacity; every list stays consistent |
| `RingBuffer.InitInv` | include/ledger/ring_buffer.hpp:30-36 | the constructor establishes the invariant |
| `RingBuffer.StepKeepsInv` | include/ledger/ring_buffer.hpp:43-80 | every atomic step of every producer and the consumer keeps the invariant over cell sequence numbers |
| `RingBuffer.RunsAreSafe` | include/ledger/ring_buffer.hpp:43-80 | in every interleaving the popped items are a prefix of the claimed items in ticket order, tickets have one owner and at most `capacity` are outstanding |
| `RingBuffer.WritesAreExclusive` | include/ledger/ring_buffer.hpp:62-63 | no cell is written while unread, being read, or owned by another producer |
| `RingBuffer.ReadsAreExclusive` | include/ledger/ring_buffer.hpp:76 | no cell is read while a producer owns it |
| `RingBuffer.FullIsTruthful` | include/ledger/ring_buffer.hpp:48-56 | when full is reported, exactly `capacity` claimed tickets are not given back, even with a stale position |
| `RingBuffer.EmptyIsTruthful` | include/ledger/ring_buffer.hpp:70-74 | empty is reported exactly if all claimed items were handed out or the next one is still being written |
| `RingBuffer.DrainedMeansAll` | include/ledger/ring_buffer.hpp:70-80 | with no push in progress, empty means every pushed item was handed out |
| `RingBuffer.CapacityOneOverwrites` | include/ledger/ring_buffer.hpp:43-80 | with one cell a run loses the first item |
| `RingBuffer.OrderNeedsTwoCells` | include/ledger/ring_buffer.hpp:17-18 | among powers of two, order is kept in every run exactly from capacity two on |
| `RingHistory.EveryPushAccounted` | include/ledger/ring_buffer.hpp:43-65 | in every run every ticket holds the argument of the call that won it, tickets of one producer are in the order of its calls, and every call has one ticket or was refused, never both, unless it is still going on |
| `RingHistory.HandedOutWasPresented` | include/ledger/ring_buffer.hpp:43-80 | the consumer is handed what the winning calls presented, each producer's items in the order presented |
| `RingHistory.FreshLoadDecides` | include/ledger/ring_buffer.hpp:48-58 | at the current position full is seen exactly if `capacity` tickets are outstanding, and otherwise an undisturbed exchange wins |
| `RingHistory.SoloPush` | include/ledger/ring_buffer.hpp:43-65 | a call that runs alone is refused after two steps or has its ticket after three |
| `Snapshot.BuildSnapshot` | src/snapshot.cpp:46-69 | the filled buffer and trailer are the snapshot layout |
| `Snapshot.LoadSnapshot` | src/snapshot.cpp:94-139 | missing, corrupt or loaded, as the layout says |
| `Snapshot.SnapshotLayout` | src/snapshot.cpp:17-23 | the byte position of every header and account field and of the checksum |
| `Snapshot.LoadAccepts` | src/snapshot.cpp:99-120 | which bytes are accepted as a snapshot |
| `Snapshot.FirstRecordCounts` | src/snapshot.cpp:126-136 | of several records with one id the first one counts |
| `Snapshot.SnapshotRoundTrip` | src/snapshot.cpp:46-138 | loading written bytes returns the same accounts, last id and offset for every account order and padding |
| `Snapshot.DamageNoticed` | src/snapshot.cpp:119-120 | damage within four consecutive bytes outside the account count is reported corrupt |
| `SnapshotFile.OldOrNew` | src/snapshot.cpp:39-84 | whichever call fails and wherever a crash comes, the path holds the old file or the complete new one |
| `SnapshotFile.WriteSnapshot` | src/snapshot.cpp:39-84 | the calls in order, out at the first that fails: disk after each call and result |
| `SnapshotFile.SuccessReplaces` | src/snapshot.cpp:39-84 | success is reported exactly if every call but the directory sync succeeds, and then the path holds the complete new file; after a failure, or a crash during it, the old one |
| `SnapshotFile.SurvivesIff` | src/snapshot.cpp:25-35 | the new file survives every later crash exactly if the write succeeded and the directory was synced |
| `SnapshotFile.WrittenIsLoaded` | src/snapshot.cpp:39-138 | after a successful write the loader returns the new state |
| `SnapshotFile.CrashNeverCorrupts` | include/ledger/snapshot.hpp:33-36 | after a crash the loader returns the old or the new state |
| `Recovery.ReplayLog` | src/recovery.cpp:33-58 | the read loop returns the filtered replay of the scanned records, the last valid offset, whether the end was clean and whether every balance was a 64-bit value |
| `Recovery.Recover` | src/recovery.cpp:8-63 | result and remaining log for every snapshot, log and outcome of cutting it, and whether all arithmetic stayed within 64 bits; what they are is `RecoveryProperties.RecoverBalanced` and `RecoveryProperties.RecoverErrors` |
| `Recovery.ReplayMeaning` | src/recovery.cpp:38-43 | replay applies exactly the records whose id exceeds the snapshot's and every earlier one |
| `Recovery.NothingSkippedIff` | src/recovery.cpp:39 | no record is skipped exactly if every id is larger than the one before it |
| `Recovery.IncreasingReplaysAll` | src/recovery.cpp:35-43 | with increasing ids filtered replay is full replay |
| `Recovery.OutOfOrderLosesRecord` | src/recovery.cpp:39 | of two records logged in the wrong id order the second is lost |
| `Recovery.CheckpointReplay` | src/recovery.cpp:12-14 | a state that holds k records may be replayed from any record up to k |
| `Recovery.AheadReplay` | src/recovery.cpp:12-14 | a state that holds k records replayed from a later record j misses exactly those in between |
| `RecoveryProperties.RecoverIdempotent` | src/recovery.cpp:8-63 | for any bytes a second recovery returns the same result and leaves the same log |
| `RecoveryProperties.RecoverBalanced` | src/recovery.cpp:29-60 | for all bytes: success exactly if nothing failed before and the replayed books balance, a mismatch exactly if they do not; no unbalanced state is returned |
| `RecoveryProperties.RecoverErrors` | src/recovery.cpp:12-58 | every other error exactly, the reported length, and that the log changes only by being cut at the last good record |
| `RecoveryProperties.UnbalancedSnapshotRefused` | src/recovery.cpp:29-60 | a snapshot out of balance is refused with an empty log and without one |
| `RecoveryProperties.AppendedIsRead` | src/recovery.cpp:50-56 | with the offset inside the log, appended records are read after the surviving ones and the reported length is the file length |
| `RecoveryProperties.AppendedIsLost` | src/recovery.cpp:33-48 | with the offset beyond the log, they are not, and the reported length is wrong |
| `RecoveryProperties.AppendableIff` | include/ledger/recovery.hpp:19-21 | a recovered log can be appended to exactly if the snapshot offset lies within it |
| `RecoveryProperties.RecoverCheckpoint` | src/recovery.cpp:8-63 | a log that ends in anything that is not a record recovers from a checkpoint to all its records, cut at the last boundary |
| `RecoveryProperties.CheckpointsAgree` | src/recovery.cpp:12-43 | any two checkpoints of a run recover the same state, length and log |
| `RecoveryProperties.AheadLoses` | src/main.cpp:100-106 | a snapshot whose offset is ahead of its state loses exactly the records in between |
| `RecoveryProperties.NoSnapshotRecoversNothing` | src/recovery.cpp:20-21 | without a snapshot every logged transaction is dropped and recovery succeeds with no accounts |
| `RecoveryProperties.RecoverTear` | src/recovery.cpp:35-58 | with a tear and anything behind it, recovery returns the records before the tear and cuts there, exactly if the bytes at the tear do not pass for a record |
| `RecoveryProperties.BalancedRecovers` | src/recovery.cpp:60 | recovery of balanced transactions on a balanced snapshot never reports a mismatch |
| `Engine.RefusalChangesNothing` | src/engine.cpp:41-65 | a refused request leaves log, balances and published state; a failed append leaves balances and published state |
| `Engine.AdmitExactly` | src/engine.cpp:41-58 | admission and each of the seven refusals exactly, on keys, amounts and type codes, with their precedence |
| `EngineRuns.WorkingIsReplay` | src/engine.cpp:38-77 | in every run the working state is the acknowledged transactions applied in order |
| `EngineRuns.ContentIsLog` | src/engine.cpp:60-65 | without short writes the file is exactly the completely logged transactions |
| `EngineRuns.ContentIsPieces` | src/wal_writer.cpp:70-71 | in every run the file is its opening bytes and the complete and torn records in order |
| `EngineRuns.LogAgreesIff` | src/wal_writer.cpp:76-88 | log and state agree exactly if no completely written record was followed by a failing fsync |
| `EngineRuns.OkLogs` | src/wal_writer.cpp:70-88 | success exactly if the record is complete and its sync did not fail; a failed sync exactly if the record is complete, every write is synced and fsync fails |
| `EngineRuns.CompletedOnce` | src/engine.cpp:38-77 | every request is completed exactly once, in order, with its result |
| `EngineRuns.PublishedLags` | src/engine.cpp:71-74 | readers see the initial state or the state after some commits and lag by fewer than max(n, 1) |
| `EngineRuns.PublishesEveryNth` | src/engine.cpp:71-74 | commits since the last publication are the commits of the run modulo max(n, 1) |
| `EngineRuns.LoggedSound` | src/engine.cpp:48-58 | everything logged or acknowledged has an accepted shape and existing accounts |
| `EngineRuns.FloorsHold` | src/engine.cpp:53-58 | no run takes a debit-normal account below its floor |
| `EngineRuns.BooksStayBalanced` | src/engine.cpp:34-80 | from balanced books every working and published state passes the trial balance |
| `EngineRuns.NothingOverflows` | src/engine.cpp:34-80 | if opening exposure plus all presented debit totals fit, nothing computed in any run overflows |
| `EngineRuns.DuplicateIff` | src/engine.cpp:41-46 | refused as duplicate exactly by stack distance, whatever became of the earlier request |
| `EngineRuns.CommitsOfOneKeyFarApart` | src/engine.cpp:43-46 | two commits of one key have at least `capacity` distinct other keys presented between them |
| `EngineRuns.OffsetTruthfulIff` | include/ledger/wal_writer.hpp:41-43 | the reported log size is the file length exactly as long as no write was short |
| `LedgerEngine.LedgerEngine.constructor` | src/engine.cpp:18-19 | an empty cache, the given accounts, nothing published and no log open |
| `LedgerEngine.LedgerEngine.Open` | src/engine.cpp:21-23 | opens the log or reports the failure and stays closed |
| `LedgerEngine.LedgerEngine.Check` | src/engine.cpp:41-58 | deduplicate, shape, state, in this order; only the cache changes |
| `LedgerEngine.LedgerEngine.CommitLogged` | src/engine.cpp:67-74 | apply, count, publish every n commits |
| `LedgerEngine.LedgerEngine.ProcessOne` | src/engine.cpp:38-77 | one request takes the engine to the next state of the model; without an open log an admitted request is completed with the open error |
| `LedgerEngine.LedgerEngine.ProcessPending` | src/engine.cpp:34-80 | the loop over min(max items, available) requests is that run of the model, with the log open or not |
| `LedgerEngine.OpenRun` | src/engine.cpp:34-80 | with the log open that run is the one of the theorems |
| `LedgerEngine.ClosedRun` | src/wal_writer.cpp:46 | without an open log no request succeeds and neither log nor balances change |
| `LedgerEngine.BudgetFits` | src/engine.cpp:34-80 | within the budget every request of the loop reports no overflow |
| `CrashSafety.RecoverCut` | src/recovery.cpp:33-60 | a log cut at any byte after what the snapshot covers recovers to the records that survived whole |
| `CrashSafety.AcknowledgedIsDurable` | src/wal_writer.cpp:73-80 | with a sync on every write every record up to the last acknowledged one is synced |
| `CrashSafety.AcknowledgedIsLogged` | src/engine.cpp:60-76 | every acknowledged transaction is among the records logged by then |
| `CrashSafety.CrashBetweenRequests` | src/engine.cpp:34-80 | any run, any cut at or after the synced length, any checkpoint of acknowledged records of earlier runs or this one: recovery returns the state after a prefix of the logged transactions with every acknowledged one in it |
| `CrashSafety.CrashDuringAppend` | src/wal_writer.cpp:45-80 | the same with any number of bytes of one more record in the file; it is recovered only if complete |
| `CrashSafety.CrashInAnyMode` | include/ledger/wal_format.hpp:40-43 | in either sync mode, any cut behind what the snapshot covers recovers to the records that fit, at least those known to be kept |
| `CrashSafety.NoFailureNoLoss` | src/recovery.cpp:8-63 | without append failures recovery returns the working state and keeps the log |
| `CrashSafety.AnyOrderRecovers` | src/recovery.cpp:35-43 | with no assumption on ids, a whole run recovers to the logged transactions that were new highs |
| `CrashSafety.WorkingIsCheckpoint` | include/ledger/wal_writer.hpp:41-43 | as long as no sync has failed, working state and reported log size are a checkpoint of acknowledged records for the rest of the run |
| `CrashSafety.PublishedSnapshot` | src/main.cpp:100-106 | recovery from a snapshot of the published state with the reported log size returns the published state |
| `CrashSafety.PublishedIsWorkingIff` | src/main.cpp:100-106 | with increasing ids that is the working state exactly if the last commit has just been published |
| `CrashSafety.TearLosesLater` | src/wal_writer.cpp:70-71 | every run with a short write, either mode, any cut behind the torn bytes: recovery returns exactly the records before the first tear, acknowledged later ones or not, if and only if the bytes at the tear do not pass for a record |
| `CrashSafety.FailedButRecovered` | src/wal_writer.cpp:76-88 | a transaction reported as failed and not applied is in the recovered state |
| `CrashSafety.AcknowledgedLost` | src/wal_writer.cpp:70-71 | a short write followed by a successful append: the acknowledged transaction is lost and the log emptied |
| `CrashSafety.DemoLoss` | src/main.cpp:60-68 | the demo's first two transfers are such a case |
| `FlushRuns.ActsAlike` | src/wal_writer.cpp:82-89 | flushes change nothing but what is known to be durable |
| `FlushRuns.FlagStaysHonest` | src/wal_writer.cpp:73-88 | in every run, with flushes, short writes and failed syncs anywhere, a clear dirty flag means every complete record is on stable storage |
| `FlushRuns.FlushIsTruthful` | include/ledger/wal_writer.hpp:37-39 | a successful flush, also one with nothing to do, leaves every complete record on stable storage |
| `FlushRuns.DurableExactly` | src/wal_writer.cpp:73-88 | in every run the synced length is the file length at the last fsync that succeeded, and the flag is set exactly if a complete record was written since |
| `FlushRuns.FlushFailsIff` | src/wal_writer.cpp:82-88 | a flush fails exactly if there is such a record and fsync fails |
| `FlushRuns.BatchNeverSyncs` | src/wal_writer.cpp:76-79 | in batch mode nothing becomes durable without a flush |
| `FlushRuns.FlushedIsRecovered` | include/ledger/wal_writer.hpp:31-35 | in either mode a crash at any time after a successful flush loses nothing logged before it |
| `RecoveryHeadroom.CheckpointFits` | src/recovery.cpp:38-43 | replay from a checkpoint applies nothing twice and stays within 64 bits in the budget of the whole log |
| `RecoveryHeadroom.RecoverWithinBudget` | src/recovery.cpp:38-60 | so do replay and trial balance of recovery, on bytes, in any account order |
| `RecoveryHeadroom.TearRecoveryFits` | src/recovery.cpp:38-60 | the same for a log with a tear and anything behind it, unless the bytes at the tear pass for a record |
| `RecoveryHeadroom.CrashRecoveryFits` | src/recovery.cpp:8-63 | after any run without short writes, records with failed syncs included, and any cut, recovery overflows nowhere if opening exposure, earlier records and everything presented fit into 64 bits |
| `CrashSafety.FirstTransaction` | src/engine.cpp:34-80 | an admitted first transaction whose append succeeds is acknowledged, logged, and meets every condition of the crash theorems |
| `CrashSafety.DemoTransfer` | src/main.cpp:47-68 | the demo's accounts and first transfer are such a case |
| `CrashSafety.DemoBalances` | src/main.cpp:47-68 | the demo's first transfer leaves cash and revenue at minus ten each |

## Left out

- The queue is modelled on values, as a system of steps over all interleavings, not as an object updated in place: its subject is concurrency. Weak memory orderings, 64-bit wrap-around of positions and progress under contention are not captured; progress of a call that runs alone is.
- The engine takes the requests in the order the queue hands them out; `submit` and `allocate_transaction_id` only push and count.
- POSIX errors beyond short writes, failed calls and failed syncs; reads are taken to return everything up to the end of the file and rename to be atomic.
- Restoring the deduplication cache or the id counter after a restart, which the engine does not do.
- `write_snapshot_async`, the demo driver, benchmarks, build files and the text tables of error and type names.
- The quality of the key hash: any function into the natural numbers takes its place.
- Checksum guarantees when the size field of a record or the account count of a snapshot is itself damaged; the extent of the data moves and nothing follows.
- CrashSafety.CrashBetweenRequests: does not cover runs with a short write, where the property is false; `CrashSafety.TearLosesLater` says exactly what remains of those.
- RecoveryHeadroom.CrashRecoveryFits: does not cover runs with a short write; `RecoveryHeadroom.TearRecoveryFits` does on bytes, unless the bytes at the tear pass for a record by coincidence, which can carry any amounts.
- Two's complement results of an overflow, which the source leaves undefined; the theorems say when none occurs.
