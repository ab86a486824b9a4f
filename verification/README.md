# Verified models of a Bitcoin node's core data structures

This project models the closed, stateful parts of a Bitcoin node written in C++ and proves properties of
them in Dafny. `dafny verify dfyconfig.toml` checks everything.

| files | part of the node |
|---|---|
| `AddrTypes`, `AddrInvariant`, `AddrTables`, `AddrOps`, `AddrRuns`, `AddrEffects` | the address manager as one value, its invariant, its operations and their runs |
| `AddrManImpl`, `AddrCheck` | the address manager as an object with bucket arrays, and its own consistency check |
| `AddrFile`, `AddrFileLoops`, `AddrReload`, `AddrRoundTrip`, `AddrRestored` | its file format and the round trip |
| `Coins`, `CoinStack`, `CoinsViewCache` | the stack of coin caches over a database |
| `CheckQueue`, `CheckQueueRuns` | the master/worker verification queue as a transition system, and its runs |
| `HeadersSync`, `HeadersHistory`, `HeadersRuns`, `HeadersSyncImpl` | the two-phase headers download |
| `Bech32`, `Bech32Codec` | Bech32 and Bech32m (sections "Bech32" and "Checksum" of BIP 173, "Bech32m" of BIP 350) |
| `Radix`, `Base58` | Base58 |
| `Arith256`, `ArithShift`, `ArithDivide`, `ArithCompact` | 256-bit arithmetic on limbs, compact targets, block proofs |
| `Chain` | the block tree with skip pointers, and the active chain |
| `Cuckoo` | the cuckoo cache |
| `Collections` | small notions shared by the others |
| `CompactBlocks`, `CompactRebuild`, `DifferenceFormat`, `CompactExchange` | compact blocks (sections "HeaderAndShortIDs" and "Short transaction IDs" of BIP 152) |

Where the source updates objects or arrays in place, so does the model: a class or a method on an array,
proved equal to a step on values, about which the invariants and whole-run theorems are stated. Hash
functions, randomness, the clock, proof of work and the difficulty rule are parameters; no property
assumes more of them than its statement says.

The address manager invariant has a limbo set, because `MakeTried` counts an entry out of the new table
before it counts it into the tried one. The coin layers are related to the view of the layer below, not to
its entries, so the relation survives fetches, uncaching and flushes further down. The check queue has
one step per critical section, with every thread's position and both wait sets in the state; that `Wait` returns
is proved of endless runs in which no thread that could go on is passed over for ever.

## Findings

- `CheckAddrman` compares network counts by their number and by the counters present, so a missing counter
  can hide behind a leftover one (`AddrCheck.CounterGap`). `AddrCheck.PassingCounters` is
  the exact condition. No run of the operations leads to such a state (`AddrRuns.EveryRunIsConsistent`), nor does
  loading a file (`AddrReload.AcceptedIsConsistent`).
- `Good_` with a time that is not positive can leave times the check rejects: `AddrEffects.GoodAtZero` does so with
  the first address of a new manager, `AddrRuns.GoodTimes` is the exact condition.
- In `ResolveCollisions_` the branch for a collision that no longer exists cannot be reached
  (`AddrRuns.CollisionStands`).
- A layer can only fetch unspent coins, so the FRESH flag set by `FetchCoin` for spent ones is never set, and
  the documented state "spent, FRESH, not DIRTY" does not occur (`Coins.LegalStates`).
- `SpendCoin` returns true for an entry that is spent already, though its comment says such a call does nothing
  (`CoinStack.SpendKeeps`).
- Flushing a layer without a best block of its own nulls that of the layer below (`CoinStack.FlushBestBlock`).
- The comment in `insert` of the cuckoo cache says the first swap is at the first location; the code takes the
  second, which is the first exactly if the two coincide (`Cuckoo.FirstSwap`, `Cuckoo.FirstSwapExample`).
- The comment on `ValidateAndStoreHeadersCommitments` says it finalizes on failure; its caller does
  (`HeadersSync.FinalExactly`).

## Model

| member | source | states |
|---|---|---|
| `AddrTables.CreateKeeps` | hobbyhash-clean/src/src/addrman.cpp:418-432 | Creating an entry for an unknown address keeps the six tables in agreement, also in the middle of an operation. |
| `AddrTables.SwapKeeps` | hobbyhash-clean/src/src/addrman.cpp:434-456 | Exchanging two positions of `vRandom` keeps the tables in agreement and changes entries only in their recorded position. |
| `AddrTables.DeleteKeeps` | hobbyhash-clean/src/src/addrman.cpp:458-473 | Deleting an unreferenced new entry keeps the tables in agreement; every other entry survives up to its position in `vRandom`. |
| `AddrTables.ClearNewKeeps` | hobbyhash-clean/src/src/addrman.cpp:475-491 | Emptying a new slot keeps the tables in agreement; the entry goes exactly when this was its only reference. |
| `AddrTables.RemoveNewKeeps` | hobbyhash-clean/src/src/addrman.cpp:497-507 | Taking an entry out of all its new buckets keeps the tables in agreement, with reference count zero. |
| `AddrTables.UncountNewKeeps` | hobbyhash-clean/src/src/addrman.cpp:508-511 | Uncounting the entry puts it in limbo: in `mapInfo`, counted nowhere, with exact counters for all others. |
| `AddrTables.UncountTriedKeeps` | hobbyhash-clean/src/src/addrman.cpp:519-528 | Removing the old occupant of a tried slot puts it in limbo with exact counters for all others. |
| `AddrTables.PlaceTriedKeeps` | hobbyhash-clean/src/src/addrman.cpp:544-549 | Placing a limbo entry in its free tried slot ends the limbo and restores the full agreement. |
| `AddrOps.EvictKeeps` | hobbyhash-clean/src/src/addrman.cpp:517-543 | Moving the old occupant back to the new table keeps agreement while another entry is in limbo, and no entry is left without a reference. |
| `AddrOps.MakeTriedKeeps` | hobbyhash-clean/src/src/addrman.cpp:493-550 | `MakeTried` starts and ends in agreement although it passes through states that are not; the entry ends up in its tried slot, tried slots never empty. |
| `AddrOps.InsertKeeps` | hobbyhash-clean/src/src/addrman.cpp:601-625 | The bucket part of `AddSingle` keeps agreement whether it takes a free slot, displaces an entry or drops the new one. |
| `AddrOps.AddSingleKeeps` | hobbyhash-clean/src/src/addrman.cpp:552-626 | `AddSingle` keeps the invariant on every path: unroutable, known, refused, referenced once more, or new. |
| `AddrRuns.GoodKeeps` | hobbyhash-clean/src/src/addrman.cpp:628-681 | `Good_` with test-before-evict keeps the invariant and never empties a tried slot, whether it moves the entry or records a collision. |
| `AddrRuns.GoodTimes` | hobbyhash-clean/src/src/addrman.cpp:628-681 | Exactly when `Good_` keeps recorded times checkable: the time is positive, or the address is unknown, or the time is zero and the entry stays in the new table. |
| `AddrRuns.TouchKeeps` | hobbyhash-clean/src/src/addrman.cpp:695-713 | Updating statistics (`Attempt_`, and likewise `Connected_` and `SetServices_`) keeps the invariant and all tables. |
| `AddrRuns.CollisionStands` | hobbyhash-clean/src/src/addrman.cpp:905-966 | A live entry of `m_tried_collisions` is a new entry whose tried slot is held by another entry, so the no-longer-a-collision branch is never taken. |
| `AddrRuns.ResolveOneKeeps` | hobbyhash-clean/src/src/addrman.cpp:905-966 | Resolving one collision keeps the invariant, never empties a tried slot, and removes at most that id from the set. |
| `AddrRuns.EvictingKeeps` | hobbyhash-clean/src/src/addrman.cpp:928-953 | Evicting the old occupant (`Good_` without test) keeps the invariant and drops the id from the set. |
| `AddrRuns.ResolveKeeps` | hobbyhash-clean/src/src/addrman.cpp:905-966 | The whole of `ResolveCollisions_` keeps the invariant. |
| `AddrRuns.GetAddrSamples` | hobbyhash-clean/src/src/addrman.cpp:808-844 | `GetAddr_` returns the wanted entries among the positions it drew, all different, and leaves `vRandom` a permutation with its index intact. |
| `AddrRuns.StepKeeps` | hobbyhash-clean/src/src/addrman.cpp:552-994 | Every operation keeps the invariant and never empties a tried slot; sane times stay sane when the caller's are. |
| `AddrRuns.RunKeeps` | hobbyhash-clean/src/src/addrman.cpp:552-994 | So does every sequence of operations. |
| `AddrRuns.EveryRunIsConsistent` | hobbyhash-clean/src/src/addrman.cpp:418-994 | From an empty address manager every run with sane times ends in the full invariant. |
| `AddrEffects.EvictMoves` | hobbyhash-clean/src/src/addrman.cpp:517-543 | The occupant of a tried slot goes back to the new slot its address and source lead to, with one reference; at most the entry found there is lost, and only with its last reference. |
| `AddrEffects.MakeTriedMoves` | hobbyhash-clean/src/src/addrman.cpp:493-550 | The exact new contents of both tables after a move to tried, and which entry, if any, is displaced for it. |
| `AddrEffects.InsertMeans` | hobbyhash-clean/src/src/addrman.cpp:601-625 | Success is one more reference from the chosen slot; failure changes no slot; which entries can disappear. |
| `AddrEffects.AddSingleMeans` | hobbyhash-clean/src/src/addrman.cpp:552-626 | True means the slot chosen by address and source now holds the address and did not before; false means no slot changed; the address is known afterwards exactly if it was or was added. |
| `AddrEffects.GoodMeans` | hobbyhash-clean/src/src/addrman.cpp:628-681 | When `Good_` returns true, what it records in the entry, and when it records a collision instead of moving. |
| `AddrEffects.GoodAtZero` | hobbyhash-clean/src/src/addrman.cpp:628-681 | The first address of a new manager, called good at time zero, ends up with a time the check rejects. |
| `AddrManImpl.AddrMan.SwapRandom` | hobbyhash-clean/src/src/addrman.cpp:434-456 | The in-place exchange equals the specified one. |
| `AddrManImpl.AddrMan.Create` | hobbyhash-clean/src/src/addrman.cpp:418-432 | Creates the entry in all three indexes at once. |
| `AddrManImpl.AddrMan.Delete` | hobbyhash-clean/src/src/addrman.cpp:458-473 | Deletes as specified; the internal assertions hold. |
| `AddrManImpl.AddrMan.ClearNew` | hobbyhash-clean/src/src/addrman.cpp:475-491 | Empties the slot as specified, on the bucket array. |
| `AddrManImpl.AddrMan.RemoveFromNew` | hobbyhash-clean/src/src/addrman.cpp:497-507 | The walk over buckets from the entry's own one, stopping at reference count zero, removes exactly the entry's slots. |
| `AddrManImpl.AddrMan.Evict` | hobbyhash-clean/src/src/addrman.cpp:517-543 | Returns the old occupant to the new table as specified. |
| `AddrManImpl.AddrMan.MakeTried` | hobbyhash-clean/src/src/addrman.cpp:493-550 | The whole move, in place, equals the specified move. |
| `AddrManImpl.AddrMan.Insert` | hobbyhash-clean/src/src/addrman.cpp:601-625 | The bucket part of `AddSingle`, in place. |
| `AddrManImpl.AddrMan.AddSingle` | hobbyhash-clean/src/src/addrman.cpp:552-626 | In place, equals the specified step, and returns whether a reference was added. |
| `AddrManImpl.AddrMan.Add` | hobbyhash-clean/src/src/addrman.cpp:683-693 | Adds a list of addresses in turn; the result is true exactly if at least one of the additions returned true. |
| `AddrManImpl.AddrMan.Good` | hobbyhash-clean/src/src/addrman.cpp:628-681 | In place, equals the specified step. |
| `AddrManImpl.AddrMan.Attempt` | hobbyhash-clean/src/src/addrman.cpp:695-713 | In place, equals the specified step. |
| `AddrManImpl.AddrMan.Connected` | hobbyhash-clean/src/src/addrman.cpp:870-887 | In place, equals the specified step. |
| `AddrManImpl.AddrMan.SetServices` | hobbyhash-clean/src/src/addrman.cpp:889-903 | In place, equals the specified step. |
| `AddrManImpl.AddrMan.ResolveCollisions` | hobbyhash-clean/src/src/addrman.cpp:905-966 | In place, in ascending order of ids, equals the specified step. |
| `AddrManImpl.AddrMan.SelectTriedCollision` | hobbyhash-clean/src/src/addrman.cpp:968-994 | Returns the occupant of the tried slot of a picked collision; never looks at an empty slot. |
| `AddrManImpl.AddrMan.GetAddr` | hobbyhash-clean/src/src/addrman.cpp:808-844 | In place, equals the specified sampling. |
| `AddrManImpl.AddrMan.constructor` | hobbyhash-clean/src/src/addrman.cpp:111-127 | A fresh manager models the empty state. |
| `AddrCheck.CheckAddrman` | hobbyhash-clean/src/src/addrman.cpp:1056-1159 | The four scans return zero exactly when the declarative reading of the checks holds, for any contents whatsoever. |
| `AddrCheck.ConsistentPasses` | hobbyhash-clean/src/src/addrman.cpp:1056-1159 | The invariant implies that the check passes. |
| `AddrCheck.PassingMeans` | hobbyhash-clean/src/src/addrman.cpp:1056-1159 | What a passing check guarantees of `vRandom`, tried slots, new slots, reference counts and times. |
| `AddrCheck.PassingCounters` | hobbyhash-clean/src/src/addrman.cpp:1147-1156 | A passing check guarantees exact counters if and only if every network present has a counter. |
| `AddrCheck.CounterGap` | hobbyhash-clean/src/src/addrman.cpp:1147-1156 | A state that passes with a wrong counter: a missing network hides behind a leftover one. |
| `AddrCheck.EveryRunPassesCheck` | hobbyhash-clean/src/src/addrman.cpp:418-1159 | From empty, `CheckAddrman` returns zero after every run of operations. |
| `AddrReload.LoadsConsistent` | hobbyhash-clean/src/src/addrman.cpp:233-401 | A file that names no address twice, with sane times, is never refused by the final check, whatever buckets it lists and whether or not they can be restored. |
| `AddrReload.AcceptedIsConsistent` | hobbyhash-clean/src/src/addrman.cpp:233-401 | Any file whatever: if it is loaded without an error, repeated addresses and bad times included, the whole invariant holds. |
| `AddrReload.ReadTriedKeeps` | hobbyhash-clean/src/src/addrman.cpp:295-315 | Reading one tried entry, or losing it to a taken slot or an invalid address, keeps the tables in agreement. |
| `AddrReload.PlaceAllKeeps` | hobbyhash-clean/src/src/addrman.cpp:350-378 | Placing bucket entries, restored or re-bucketed, keeps the tables in agreement. |
| `AddrReload.PruneKeeps` | hobbyhash-clean/src/src/addrman.cpp:380-390 | Pruning leaves every new entry referenced and the tables in agreement. |
| `AddrFileLoops.WriteEntries` | hobbyhash-clean/src/src/addrman.cpp:193-212 | The loop lists the entries of one kind in traversal order and numbers each by its place in the list. |
| `AddrFileLoops.Write` | hobbyhash-clean/src/src/addrman.cpp:135-230 | The writing loops produce the specified file. |
| `AddrFileLoops.PlaceEntries` | hobbyhash-clean/src/src/addrman.cpp:350-378 | The loop over bucket entries places them as specified. |
| `AddrFileLoops.PruneEntries` | hobbyhash-clean/src/src/addrman.cpp:380-390 | The loop deletes exactly the entries that found no place. |
| `AddrFileLoops.Load` | hobbyhash-clean/src/src/addrman.cpp:233-390 | The reading loops build the specified tables, for any file. |
| `AddrRestored.RoundTrip` | hobbyhash-clean/src/src/addrman.cpp:135-401 | `Unserialize` of `Serialize` succeeds and restores every entry, new slot, tried slot and counter up to one-to-one renumbering, for any traversal order of `mapInfo`. |
| `AddrRestored.SizesFit` | hobbyhash-clean/src/src/addrman.cpp:195-212 | The lists written never exceed the limits the reader enforces. |
| `AddrRoundTrip.FiltersSplit` | hobbyhash-clean/src/src/addrman.cpp:195-212 | The lists written have exactly `nNew` and `nTried` entries, so the writer's assertions hold. |
| `AddrRoundTrip.PlacesBack` | hobbyhash-clean/src/src/addrman.cpp:350-378 | Entries go back to exactly the slots they had, with room for each reference. |
| `Coins.FetchedKeeps` | hobbyhash-clean/src/src/coins.cpp:43-58 | Caching a coin of the base changes no view and keeps the layer invariant. |
| `Coins.AddKeeps` | hobbyhash-clean/src/src/coins.cpp:69-107 | Adding a coin to a layer keeps the invariant and shows exactly that coin. |
| `Coins.AddExact` | hobbyhash-clean/src/src/coins.cpp:69-107 | `AddCoin` succeeds with the invariant intact if and only if overwriting is allowed, the script is unspendable, or the outpoint is absent from the view. |
| `Coins.SpentKeeps` | hobbyhash-clean/src/src/coins.cpp:128-148 | Spending keeps the invariant and removes exactly that coin from the view. |
| `Coins.UncachedKeeps` | hobbyhash-clean/src/src/coins.cpp:283-296 | `Uncache` changes no view. |
| `Coins.MergeKeeps` | hobbyhash-clean/src/src/coins.cpp:181-251 | Merging one flushed entry never hits the FRESH-misapplied error, keeps the invariant and shows the child's coin. |
| `Coins.BatchKeeps` | hobbyhash-clean/src/src/coins.cpp:181-251 | A whole `BatchWrite` shows the child's view and keeps the invariant, with the memory count exact. |
| `Coins.SyncedKeeps` | hobbyhash-clean/src/src/coins.cpp:266-281 | What `Sync` leaves behind is consistent with the updated base and shows the same view. |
| `Coins.LegalStates` | hobbyhash-clean/src/src/coins.h:89-128 | Which flag combinations occur in a reachable layer: four of the five documented ones. |
| `CoinStack.GetCoinKeeps` | hobbyhash-clean/src/src/coins.cpp:43-67 | Reading through any number of layers returns the shown coin and changes no level's view. |
| `CoinStack.SpendKeeps` | hobbyhash-clean/src/src/coins.cpp:128-148 | Spending at the top changes the top view only; it reports true exactly if the coin is shown or an entry for it exists. |
| `CoinStack.WriteBatchKeeps` | hobbyhash-clean/src/src/txdb.cpp:91-150 | Writing a batch to a database or a layer makes it show the child's view. |
| `CoinStack.FlushKeeps` | hobbyhash-clean/src/src/coins.cpp:253-281 | `Flush` and `Sync` leave the top view as it is and make the base view equal to it. |
| `CoinStack.FetchAtKeeps` | hobbyhash-clean/src/src/coins.cpp:43-58 | A fetch at any depth changes no view. |
| `CoinStack.UncacheAtKeeps` | hobbyhash-clean/src/src/coins.cpp:283-296 | Nor does an uncache at any depth. |
| `CoinStack.FlushAtKeeps` | hobbyhash-clean/src/src/coins.cpp:253-281 | A flush or sync at any depth changes only the view below it. |
| `CoinStack.StepRefines` | hobbyhash-clean/src/src/coins.cpp:43-296 | Each operation on a stack of any height acts on the views as on flat maps and keeps the stack invariant. |
| `CoinStack.RunRefines` | hobbyhash-clean/src/src/coins.cpp:43-296 | So does every run of operations: the top shows what one flat map would hold. |
| `CoinStack.FlushBestBlock` | hobbyhash-clean/src/src/coins.cpp:171-179 | Exactly when a flush preserves the best block: the layer has one, or the two levels below agree. |
| `CoinsViewCache.CoinsCache.FetchCoin` | hobbyhash-clean/src/src/coins.cpp:43-58 | Equals the specified fetch, recursively through the base. |
| `CoinsViewCache.CoinsCache.GetCoin` | hobbyhash-clean/src/src/coins.cpp:60-67 | Returns the shown coin. |
| `CoinsViewCache.CoinsCache.HaveCoin` | hobbyhash-clean/src/src/coins.cpp:161-164 | True exactly for shown coins. |
| `CoinsViewCache.CoinsCache.AddCoin` | hobbyhash-clean/src/src/coins.cpp:69-107 | Equals the specified addition, or refuses. |
| `CoinsViewCache.CoinsCache.SpendCoin` | hobbyhash-clean/src/src/coins.cpp:128-148 | Equals the specified spend and moves out the shown coin. |
| `CoinsViewCache.CoinsCache.Uncache` | hobbyhash-clean/src/src/coins.cpp:283-296 | Equals the specified uncache. |
| `CoinsViewCache.CoinsCache.BatchWrite` | hobbyhash-clean/src/src/coins.cpp:181-251 | The merge loop equals the specified batch. |
| `CoinsViewCache.CoinsCache.Flush` | hobbyhash-clean/src/src/coins.cpp:253-264 | Equals the specified flush. |
| `CoinsViewCache.CoinsCache.Sync` | hobbyhash-clean/src/src/coins.cpp:266-281 | Equals the specified sync. |
| `CoinsViewCache.CoinsCache.SanityCheck` | hobbyhash-clean/src/src/coins.cpp:324-339 | Passes exactly if flags are legal and the memory count is the sum over entries. |
| `CoinsViewCache.CoinsViewDB.BatchWrite` | hobbyhash-clean/src/src/txdb.cpp:91-150 | The write loop leaves the database showing the child's dirty coins over its own. |
| `CoinsViewCache.AddCoins` | hobbyhash-clean/src/src/coins.cpp:117-126 | All spendable outputs of a transaction are shown, and nothing else changes at any level. |
| `CoinsViewCache.LayersAreSane` | hobbyhash-clean/src/src/coins.cpp:324-339 | Every layer of a consistent stack passes the sanity check. |
| `CheckQueue.BatchOf` | hobbyhash-clean/src/src/checkqueue.h:105-113 | A batch has at least one check and at most the whole queue. |
| `CheckQueue.CleanUpKeeps` | hobbyhash-clean/src/src/checkqueue.h:75-86 | Accounting for a finished batch keeps the invariant; the master is woken when nothing is left. |
| `CheckQueue.ReturnKeeps` | hobbyhash-clean/src/src/checkqueue.h:88-96 | The master's return resets the round and keeps the invariant. |
| `CheckQueue.StepKeeps` | hobbyhash-clean/src/src/checkqueue.h:66-173 | Every step of any thread keeps the invariant: `nTodo` is queue plus batches, counters are exact, every check of the round is queued, in flight or done. |
| `CheckQueue.RunKeeps` | hobbyhash-clean/src/src/checkqueue.h:66-173 | The invariant holds after every interleaving, and so after every prefix of it. |
| `CheckQueue.WaitVerdict` | hobbyhash-clean/src/src/checkqueue.h:88-96 | `Wait` returns the conjunction of exactly the checks of its round, and starts the next with a clean flag and no batch outstanding. |
| `CheckQueue.SleepingMaster` | hobbyhash-clean/src/src/checkqueue.h:73-102 | A master asleep and not notified means an empty queue and a worker with a batch. |
| `CheckQueue.NeverStuck` | hobbyhash-clean/src/src/checkqueue.h:66-123 | While the master waits some thread can do work, or the master can return. |
| `CheckQueue.WorkShrinks` | hobbyhash-clean/src/src/checkqueue.h:66-123 | No step but adding increases the work left, and every productive step decreases it. |
| `CheckQueue.ProductiveBound` | hobbyhash-clean/src/src/checkqueue.h:66-123 | Without additions, the productive steps of a run and the work left at its end are together at most the work at its start. |
| `CheckQueue.MutexReleased` | hobbyhash-clean/src/src/checkqueue.h:73-118 | If between two steps no thread holds the mutex, none does after the next step. |
| `CheckQueueRuns.RunFromInitial` | hobbyhash-clean/src/src/checkqueue.h:66-173 | After every run from the construction of the queue the invariant holds, nobody has the mutex, and the round consists of the checks added since the last return. |
| `CheckQueueRuns.EveryVerdict` | hobbyhash-clean/src/src/checkqueue.h:88-96 | In every run, for any batch size and number of workers, each return of `Wait` says whether all checks added since the previous return are good, and none is left queued or in a batch. |
| `CheckQueueRuns.StepOutcome` | hobbyhash-clean/src/src/checkqueue.h:66-123 | While the master waits, a step of any thread returns from `Wait`, gets work done, or leaves a given useful thread useful. |
| `CheckQueueRuns.WaitReturns` | hobbyhash-clean/src/src/checkqueue.h:66-143 | In every fair endless run a master in `Wait` returns, with the verdict on the checks added since its previous return; with any number of workers, also none, whichever worker a notification reaches and however often threads wake up unasked for. |
| `CheckQueueRuns.CanReturn` | hobbyhash-clean/src/src/checkqueue.h:66-143 | From every such state some schedule returns within as many steps as there is work left, and one. |
| `HeadersSync.FinalExactly` | hobbyhash-clean/src/src/headerssync.cpp:69-138 | After a non-empty call on a live sync the state is final exactly if not (success and request_more). |
| `HeadersHistory.BitsCount` | hobbyhash-clean/src/src/headerssync.cpp:196-207 | How many commitments a range of heights holds. |
| `HeadersHistory.PresyncOneKeeps` | hobbyhash-clean/src/src/headerssync.cpp:178-214 | The k-th commitment stored is that of the k-th committed header received; work, height and last header are those of the headers received. |
| `HeadersHistory.RedownloadOneKeeps` | hobbyhash-clean/src/src/headerssync.cpp:216-279 | An accepted header extends a linked chain from the start, and the k-th commitment checked is the k-th stored. |
| `HeadersHistory.PopOneKeeps` | hobbyhash-clean/src/src/headerssync.h:34-52 | A header taken from the buffer is the one received, with its previous hash rebuilt. |
| `HeadersHistory.PopAllKeeps` | hobbyhash-clean/src/src/headerssync.cpp:281-295 | So are all headers released; without the work reached, 14441 stay behind. |
| `HeadersRuns.RedownloadCall` | hobbyhash-clean/src/src/headerssync.cpp:99-138 | Each call that releases headers releases the next ones received, each under 14441 later headers with 23 matched commitments or with the work reached. |
| `HeadersRuns.EveryRunIsSound` | hobbyhash-clean/src/src/headerssync.cpp:69-295 | The same for every call of every run from the start. |
| `HeadersRuns.HonestCall` | hobbyhash-clean/src/src/headerssync.cpp:99-138 | A message that carries on the chain seen before is accepted; until the work is reached it must be full and the sync goes on, and the message that reaches the work, full or not, ends it with everything released. |
| `HeadersRuns.PresyncAccepts` | hobbyhash-clean/src/src/headerssync.cpp:80-98 | In the first phase a message of such a chain is accepted, and the one that reaches the work, full or not, starts the second phase. |
| `HeadersRuns.HonestPeer` | hobbyhash-clean/src/src/headerssync.cpp:69-295 | A peer that serves one linked, permitted chain twice, each time in messages of any size, full ones until the one that reaches the work, passes both phases, and exactly the headers of the second download are released; the chain must only stay within the limit on commitments. |
| `HeadersSyncImpl.HeadersSyncState.Finalize` | hobbyhash-clean/src/src/headerssync.cpp:52-64 | Clears what the source clears, and no more. |
| `HeadersSyncImpl.HeadersSyncState.ValidateAndProcessSingleHeader` | hobbyhash-clean/src/src/headerssync.cpp:178-214 | Equals the specified step, with what is left behind on failure. |
| `HeadersSyncImpl.HeadersSyncState.ValidateAndStoreHeadersCommitments` | hobbyhash-clean/src/src/headerssync.cpp:140-176 | Equals the specified batch and phase change. |
| `HeadersSyncImpl.HeadersSyncState.ValidateAndStoreRedownloadedHeader` | hobbyhash-clean/src/src/headerssync.cpp:216-279 | Equals the specified step, with what is left behind on failure. |
| `HeadersSyncImpl.HeadersSyncState.PopHeadersReadyForAcceptance` | hobbyhash-clean/src/src/headerssync.cpp:281-295 | Equals the specified release. |
| `HeadersSyncImpl.HeadersSyncState.ProcessNextHeaders` | hobbyhash-clean/src/src/headerssync.cpp:69-138 | Equals the specified call. |
| `Bech32.PolyMod` | hobbyhash-clean/src/src/bech32.cpp:130-216 | The loop computes the fold of the checksum step. |
| `Bech32.StepXor` | hobbyhash-clean/src/src/bech32.cpp:177-213 | The checksum step is linear over exclusive or. |
| `Bech32.FoldXor` | hobbyhash-clean/src/src/bech32.cpp:177-215 | So is the whole checksum. |
| `Bech32.FoldZeros` | hobbyhash-clean/src/src/bech32.cpp:177-215 | Multiplying a non-zero residue by powers of x never gives zero. |
| `Bech32.BurstDetected` | hobbyhash-clean/src/src/bech32.cpp:130-216 | Changing symbols within at most six consecutive positions changes the checksum, for inputs of any length. |
| `Bech32Codec.ExpandHRP` | hobbyhash-clean/src/src/bech32.cpp:312-324 | High bits, a zero, low bits. |
| `Bech32Codec.VerifyChecksum` | hobbyhash-clean/src/src/bech32.cpp:327-338 | Returns the encoding whose constant the checksum equals, if any. |
| `Bech32Codec.CreateChecksum` | hobbyhash-clean/src/src/bech32.cpp:341-352 | Computes the six symbols specified. |
| `Bech32Codec.ChecksumVerifies` | hobbyhash-clean/src/src/bech32.cpp:327-352 | Six symbols verify under an encoding if and only if they are the checksum created for it. |
| `Bech32Codec.CheckCharacters` | hobbyhash-clean/src/src/bech32.cpp:287-309 | No error exactly if all characters are printable and not of both cases. |
| `Bech32Codec.Encode` | hobbyhash-clean/src/src/bech32.cpp:357-370 | Builds the specified string. |
| `Bech32Codec.Decode` | hobbyhash-clean/src/src/bech32.cpp:373-397 | Computes the specified decoding, invalid inputs included. |
| `Bech32Codec.RoundTrip` | hobbyhash-clean/src/src/bech32.cpp:357-397 | Decoding an encoding returns encoding, prefix and values if and only if the prefix is legal and the length at most 90. |
| `Bech32Codec.Canonical` | hobbyhash-clean/src/src/bech32.cpp:357-397 | Encoding what was decoded returns the string in lower case. |
| `Bech32Codec.BurstRejected` | hobbyhash-clean/src/src/bech32.cpp:327-338 | A verified string with such a burst no longer verifies under the same encoding. |
| `Base58.MulAdd` | hobbyhash-clean/src/src/base58.cpp:104-111 | The digit loop multiplies and adds in place; the final carry is zero and the length exact. |
| `Base58.EncodeSize` | hobbyhash-clean/src/src/base58.cpp:96-98 | 138/100 digits per byte and one more always suffice. |
| `Base58.DecodeSize` | hobbyhash-clean/src/src/base58.cpp:51-53 | 733/1000 bytes per digit and one more always suffice. |
| `Base58.Encode` | hobbyhash-clean/src/src/base58.cpp:87-125 | Computes a '1' per leading zero and the shortest base-58 digits. |
| `Base58.Decode` | hobbyhash-clean/src/src/base58.cpp:38-85 | Computes the specified decoding: spaces, bad characters and the length limit included. |
| `Base58.EncodeDecode` | hobbyhash-clean/src/src/base58.cpp:38-125 | Decoding an encoding returns the bytes if and only if they are within the limit or empty. |
| `Base58.DecodeEncode` | hobbyhash-clean/src/src/base58.cpp:38-125 | Encoding what was decoded returns the string but for surrounding spaces. |
| `Radix.CanonicalUnique` | hobbyhash-clean/src/src/base58.cpp:104-116 | Digits without leading zeros are the shortest digits of their value. |
| `Arith256.AddAssign` | hobbyhash-clean/src/src/arith_uint256.h:125-135 | Addition modulo 2^256, also of a number to itself, with no 64-bit overflow. |
| `Arith256.Complement` | hobbyhash-clean/src/src/arith_uint256.h:59-65 | 2^256 - 1 minus the number. |
| `Arith256.Increment` | hobbyhash-clean/src/src/arith_uint256.h:163-170 | Plus one modulo 2^256. |
| `Arith256.Negate` | hobbyhash-clean/src/src/arith_uint256.h:67-74 | Negation modulo 2^256. |
| `Arith256.SubAssign` | hobbyhash-clean/src/src/arith_uint256.h:137-141 | Subtraction modulo 2^256. |
| `Arith256.MulAssign32` | hobbyhash-clean/src/src/arith_uint256.cpp:48-57 | Multiplication by a 32-bit factor modulo 2^256, with no 64-bit overflow. |
| `Arith256.MulAssign` | hobbyhash-clean/src/src/arith_uint256.cpp:60-73 | Multiplication modulo 2^256, with no 64-bit overflow. |
| `Arith256.CompareTo` | hobbyhash-clean/src/src/arith_uint256.cpp:102-111 | The sign of the comparison. |
| `ArithShift.ShiftLeft` | hobbyhash-clean/src/src/arith_uint256.cpp:14-28 | Multiplication by 2^shift modulo 2^256, for any shift. |
| `ArithShift.ShiftRight` | hobbyhash-clean/src/src/arith_uint256.cpp:31-45 | Division by 2^shift rounded down, for any shift. |
| `ArithDivide.Bits` | hobbyhash-clean/src/src/arith_uint256.cpp:156-168 | The position of the highest bit plus one, zero for zero. |
| `ArithDivide.DivAssign` | hobbyhash-clean/src/src/arith_uint256.cpp:76-99 | The quotient rounded down for every non-zero divisor; a zero divisor is an error that leaves zero. |
| `ArithCompact.EqualTo` | hobbyhash-clean/src/src/arith_uint256.cpp:114-125 | Equality with a 64-bit number. |
| `ArithCompact.OverflowIs` | hobbyhash-clean/src/src/arith_uint256.cpp:188-191 | The overflow flag means mantissa times 256^(size-3) is at least 2^256. |
| `ArithCompact.SetCompact` | hobbyhash-clean/src/src/arith_uint256.cpp:175-193 | The number modulo 2^256, and both flags by their meaning. |
| `ArithCompact.GetCompact` | hobbyhash-clean/src/src/arith_uint256.cpp:195-216 | Size and mantissa of the number; the internal assertions hold. |
| `ArithCompact.CompactRoundTrip` | hobbyhash-clean/src/src/arith_uint256.cpp:175-216 | Reading back what was written raises no flag and clears only low bytes. |
| `ArithCompact.TargetBelow` | hobbyhash-clean/src/src/chain.cpp:137-143 | A valid target is never 2^256 - 1, so the divisor is never zero. |
| `ArithCompact.GetBlockProof` | hobbyhash-clean/src/src/chain.cpp:131-144 | 2^256 divided by target plus one, rounded down; zero for an invalid target. |
| `Chain.SkipHeight` | hobbyhash-clean/src/src/chain.cpp:79-91 | Strictly below the height. |
| `Chain.GetAncestor` | hobbyhash-clean/src/src/chain.cpp:93-118 | Terminates and equals repeated `pprev`; null exactly outside the range. |
| `Chain.BuildSkip` | hobbyhash-clean/src/src/chain.cpp:125-129 | Sets the skip pointer to the right ancestor and keeps the index. |
| `Chain.AddBlock` | hobbyhash-clean/src/src/chain.cpp:125-129 | A new block with its skip pointer keeps the index. |
| `Chain.ActiveChain.SetTip` | hobbyhash-clean/src/src/chain.cpp:21-29 | Every entry is the tip's ancestor at its height, although writing stops where the old chain is met. |
| `Chain.ActiveChain.FindFork` | hobbyhash-clean/src/src/chain.cpp:60-69 | The highest ancestor on the chain, or none. |
| `Chain.LastCommonAncestor` | hobbyhash-clean/src/src/chain.cpp:165-180 | The highest common ancestor, or none if the roots differ; the final assertion holds. |
| `Chain.LocatorEntries` | hobbyhash-clean/src/src/chain.cpp:31-48 | Entry i is the ancestor at a fixed height: one less each time for the first eleven steps, then twice as far each time; the list ends where height zero is first reached. |
| `Chain.ChainIsAncestors` | hobbyhash-clean/src/src/chain.h:446-508 | In a chained vector every entry is the ancestor of every later one. |
| `Cuckoo.LookupExact` | hobbyhash-clean/src/src/cuckoocache.h:476-486 | For a non-default element the eight places tell whether it is anywhere in the table. |
| `Cuckoo.PutKeeps` | hobbyhash-clean/src/src/cuckoocache.h:437-445 | Replacing an element at one of the newcomer's places keeps every element at home and at most once, and loses only the replaced one. |
| `Cuckoo.Cache.constructor` | hobbyhash-clean/src/src/cuckoocache.h:337-350 | An empty table with every slot discardable. |
| `Cuckoo.Cache.Contains` | hobbyhash-clean/src/src/cuckoocache.h:476-486 | Exact for non-default elements; erasing only sets the flag of that element. |
| `Cuckoo.Cache.EpochCheck` | hobbyhash-clean/src/src/cuckoocache.h:287-319 | Ages exactly when the scan says so; no element stops being discardable. |
| `Cuckoo.Cache.Insert` | hobbyhash-clean/src/src/cuckoocache.h:399-447 | Present, placed or dropped: at most one of the old elements and the new one is lost, a discardable one if a slot was free. |
| `Cuckoo.FirstSwap` | hobbyhash-clean/src/src/cuckoocache.h:421-437 | The first swap is at the second place, and at the first exactly if the two are the same. |
| `Cuckoo.LaterSwap` | hobbyhash-clean/src/src/cuckoocache.h:421-437 | A later swap is at the place after the one the element came from, wrapping around; if its places differ, that is never where the last element was put. |
| `Cuckoo.FirstSwapExample` | hobbyhash-clean/src/src/cuckoocache.h:421-437 | Eight places for which the first swap is not at the first of them. |
| `CompactBlocks.PlacePrefilled` | hobbyhash-clean/src/src/blockencodings.cpp:61-77 | Accepts exactly the well-placed prefilled transactions, at strictly increasing positions, leaving as many free slots as short ids; stops at the first one that is not, with those before it in place. |
| `CompactBlocks.AssignSlots` | hobbyhash-clean/src/src/blockencodings.cpp:83-101 | The i-th short id gets the i-th free slot, and no slot past the end is looked at; fails exactly on a crowded bucket. |
| `CompactRebuild.ScanExact` | hobbyhash-clean/src/src/blockencodings.cpp:107-165 | Without collisions, a scan fills exactly the slots of the transactions seen, early exit included. |
| `CompactRebuild.SlotsExact` | hobbyhash-clean/src/src/blockencodings.cpp:107-165 | After both scans a slot is filled exactly if its transaction was prefilled, in the pool or extra. |
| `CompactRebuild.PartiallyDownloadedBlock.InitData` | hobbyhash-clean/src/src/blockencodings.cpp:50-170 | Exactly which messages are invalid and exactly when it fails, what the slots hold then, and what they hold otherwise. |
| `CompactRebuild.PartiallyDownloadedBlock.FillBlock` | hobbyhash-clean/src/src/blockencodings.cpp:180-225 | Puts the block together exactly if as many transactions are sent as slots are empty; with too many nothing is left, with too few the slots up to the first one not filled have been moved out. |
| `CompactRebuild.Rebuilds` | hobbyhash-clean/src/src/blockencodings.cpp:186-203 | The block's own missing transactions complete the slots to the block and to nothing else. |
| `CompactRebuild.Reconstructs` | hobbyhash-clean/src/src/blockencodings.cpp:50-203 | From a message describing a block, without collisions, exactly the unknown transactions are missing and sending them rebuilds the block. |
| `CompactRebuild.CompressDescribes` | hobbyhash-clean/src/src/blockencodings.cpp:20-30 | The message made from a block describes it. |
| `CompactRebuild.FilledUnique` | hobbyhash-clean/src/src/blockencodings.cpp:61-77 | The slots after prefilling are determined by the message. |
| `CompactRebuild.MissingIs` | hobbyhash-clean/src/src/blockencodings.cpp:186-193 | The missing transactions are those at the empty positions, in order. |
| `CompactExchange.RequestIndexes` | hobbyhash-clean/src/src/net_processing.cpp:4547-4551 | Asks for exactly the empty positions, in order. |
| `CompactExchange.SendBlockTransactions` | hobbyhash-clean/src/src/net_processing.cpp:2512-2524 | Answers with the transactions at the positions asked for, unless one is out of bounds. |
| `CompactExchange.Exchange` | hobbyhash-clean/src/src/net_processing.cpp:4528-4565 | A block made compact, received, asked for in encoded positions and filled in comes out as the same block, whatever the receiver knows, as long as no short id is ambiguous and no bucket crowded; asked for are exactly the transactions it does not know. |
| `DifferenceFormat.EncodesIncreasing` | hobbyhash-clean/src/src/blockencodings.h:27-33 | Exactly strictly increasing lists can be written. |
| `DifferenceFormat.EncodeDecode` | hobbyhash-clean/src/src/blockencodings.h:22-42 | What was written reads back unchanged. |
| `DifferenceFormat.DecodeEncode` | hobbyhash-clean/src/src/blockencodings.h:22-42 | What was read writes back unchanged. |
| `DifferenceFormat.DifferenceFormatter.Ser` | hobbyhash-clean/src/src/blockencodings.h:27-33 | One value, with the state carried on. |
| `DifferenceFormat.DifferenceFormatter.Unser` | hobbyhash-clean/src/src/blockencodings.h:34-41 | One value, with wrap-around noticed. |

## Left out

- Integer widths of ids, counters, heights and work: modelled as unbounded, except the limbs, the compact form, the 16-bit slots and the 64-bit differences.
- `Select_` and `GetChance` of the address manager: a random search over floating-point weights.
- Address manager file: the loops read and write a structured file and the tables as one value, not a byte stream and the object in place; the field codec is taken as lossless, negative counts cannot be expressed, and pruning goes in ascending order of ids.
- Order of traversal of unordered containers elsewhere: `ResolveCollisions_` and the coin batches are taken in an order fixed by the model or shown not to matter.
- Locks, logging, memory accounting of containers, `ReallocateCache`, `SetBackend`, `EmplaceCoinInternalDANGER` and database write errors.
- Check queue: stop requests, thread creation, `CCheckQueueControl` and the memory order of atomics. That threads are scheduled fairly and that checks end is assumed of the runs in `CheckQueueRuns.WaitReturns`.
- Headers sync: `NextHeadersRequestLocator`, the estimate behind the commitment limit, and the wrap-around of work at 2^256.
- Bech32: `LocateErrors` and its tables; the two character tables are written as functions.
- Base58Check: it adds only a hash.
- 256-bit arithmetic: bitwise operators, decrement, hexadecimal and floating-point conversion.
- Chain: `FindEarliestAtLeast`, median time and validity flags; heights and parents are fixed at construction.
- Cuckoo cache: bit packing of flags, `setup_bytes`, the logarithm behind the depth limit, and concurrent erasure.
- Compact blocks: which hash buckets are crowded is a free choice, `CheckBlock` is a parameter, and `prefilled_count` and `extra_count`, which are only logged, are left out; so are the queues of blocks in flight.
- Networking, RPC, storage, cryptography, block filters, ban lists, deployments and chain parameters.
