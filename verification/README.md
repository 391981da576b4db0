# A verified model of Pacon's hard parts

Pacon caches file-system metadata for a set of nodes. This project models four pieces of it in Dafny and proves what
they promise:

1. **The libcuckoo hash map** behind Pacon's directory-check, descriptor and open-count tables: a bucketised cuckoo table
   with partial keys, a bounded breadth-first search for a displacement path, re-validated path moves, and doubling whose
   migration is done lazily, one lock stripe at a time. The sequential engine (`CuckooMap`, with `Container`, `Queue`,
   `Search`, `Displacement`, `Collision`) is a class whose methods replace the slots of a container's bucket sequence.
   The concurrent engine (`SharedTable`, `Concurrent`, `ConcurrentLaws`) is a step system whose steps are lock-protected
   sections, and `Locking` is a finer step system of single lock acquisitions. `Bits`, `Hashing`, `HashingLaws`, `Table`,
   `Doubling`, `Paths`, `Sizing` and `Stripes` hold the values these work on.
2. **The commit and barrier protocol of the servers** (`Protocol`, `Barrier`, `BarrierProgress`, `BarrierPrograms`,
   `BarrierText`): any number of nodes, each with a commit thread and a local-RPC thread, any number of clients, counters
   under compare-and-swap, and a release message that carries no barrier id; its safety, and when it can finish.
3. **cJSON** (`Json`, `JsonPrinter`, `JsonReader`, `Digits`): parser and unbuffered printers with their two-pass buffers.
   `JsonGrammar` is an independent grammar of texts with literal characters, `Utf8Text` an independent decoder;
   `JsonAccepts`, `JsonExact` and `JsonLayout` relate parser and printer to them, and `JsonRoundTrip` to each other.
4. **Inline files** (`InlineFile`, `InlineShared`, `InlineLaws`) under get and compare-and-swap, and the **recursive
   directory removal** (`Traverse`) that a barrier-protected rmdir performs.

How to read it: the abstract map of a cuckoo table is `Contents()`, the pairs in the current buckets together with those
in old buckets whose stripe is not migrated yet (`ContentsAreLive`). Every operation of `CuckooMap` states its effect on
`Contents()` alone, so a sequence of operations is a sequence of plain-map operations, whatever half-done migration it
runs into. The step systems (`Locking`, `Concurrent`, `Protocol`, `InlineShared`) have an invariant that every step keeps
and theorems over all runs.

## Assumptions taken from the source

- Slots per bucket are a parameter S with 1 <= S <= 8 (4 by default in the source). Path codes fit 16 bits exactly then
  (`Paths.CodesFitIff`); the source's `static_assert` admits S = 9, for which `Paths.StaticAssertTooWeak` gives a path
  whose code does not fit.
- The number of stripes is 2^lb for any lb (lb = 16 in the source). The concurrent model starts with at least one bucket
  per stripe, as the default size does, so there is one lock array throughout; the sequential model covers smaller tables too.
- Keys are compared by equality and hashed by an arbitrary function to 64 bits.
- The insert loop ends when the minimum load factor is positive (1/20 by default) or a maximum hashpower is set, which is
  what the inserting methods require. With load factor 0, which the setter accepts, and no maximum it need not end:
  `DoublesForever` runs any number of its rounds on a table with colliding keys.
- The setter `num_remaining_lazy_rehash_locks(n)` returns before it deallocates (cuckoohash_map.hh:2047-2053), although
  comments at 1743 and 1992 say it frees the old buckets. The model follows the code: they stay allocated, and no stripe
  refers to them.
- The search for a displacement path runs without holding locks across buckets. The concurrent model lets it return any
  path whose buckets are linked by alternate indices, which includes whatever the code can have seen.
- Barrier protocol: each client's queue is first-in first-out; a client announces at most nine operations at a barrier
  (`BarrierText.IdReadBackIff` says when the text of an announcement is read back), announces only when the operations of its
  previous barrier are issued, and is blocked while a request is out; the handler of the release message is one atomic
  step. The stall test is two steps, the load of the barrier id and the test of the barrier.
- C strings and inline data hold no zero byte; the key-value store returns a value with a zero byte behind it; a
  compare-and-swap either succeeds or reports a conflict.
- Inline files: a write past the inline limit, or by a handle that already holds a descriptor, ends with storing the value
  it had read cut to its metadata (pacon.c:2669 passes the old value and PSTAT_SIZE). The model does that too, and says
  exactly when a file survives it (`SwitchKeepsFileIff`) and what a later reader then sees (`SwitchBreaksFile`). Local
  buffers are not cleared by the code; their old content is a parameter of the steps that use them.

## Model

| member | source | states |
|---|---|---|
| `Hashing.AltIndexInvolutive` | lib/cuckoo/libcuckoo/cuckoohash_map.hh:795-801 | taking the alternate bucket twice leads back, at every hashpower |
| `Hashing.AltOfCandidate` | lib/cuckoo/libcuckoo/cuckoohash_map.hh:786-801 | from either candidate bucket of a key the alternate index is the other candidate |
| `Hashing.CandidatesDouble` | lib/cuckoo/libcuckoo/cuckoohash_map.hh:1764-1790 | a key's candidates after a doubling are the old ones with or without the new top bit |
| `Hashing.StripesSurviveDoubling` | lib/cuckoo/libcuckoo/cuckoohash_map.hh:1116-1118 | with at least kMaxNumLocks old buckets, a key's old and new candidates are guarded by the same two stripes |
| `HashingLaws.IndicesAreRemainders` | lib/cuckoo/libcuckoo/cuckoohash_map.hh:783-787 | the first bucket of a key is its hash modulo the table size and the stripe of a bucket is its index modulo the number of stripes |
| `HashingLaws.PartialKeyFolds` | lib/cuckoo/libcuckoo/cuckoohash_map.hh:769-781 | the partial key is the exclusive or of the eight bytes of the hash |
| `HashingLaws.AltIndexIs` | lib/cuckoo/libcuckoo/cuckoohash_map.hh:795-801 | the alternate bucket is the index xored with the scrambled tag, modulo the table size, so the tag of partial + 1 decides the distance |
| `HashingLaws.CandidatesCoincideIff` | lib/cuckoo/libcuckoo/cuckoohash_map.hh:786-801 | a key's two candidate buckets are the same exactly when the table size divides its partial key plus one |
| `HashingLaws.TwoBuckets` | lib/cuckoo/libcuckoo/cuckoohash_map.hh:786-801 | from 512 buckets on every key has two different candidates |
| `Table.DisplaceKeeps` | lib/cuckoo/libcuckoo/cuckoohash_map.hh:1526-1538 | moving an entry to an empty slot of its alternate bucket keeps placement, uniqueness and the abstract map |
| `Doubling.TargetIsCandidate` | lib/cuckoo/libcuckoo/cuckoohash_map.hh:1759-1803 | the bucket an entry is sent to is one of its candidates in the larger table |
| `Doubling.StayedStep` | lib/cuckoo/libcuckoo/cuckoohash_map.hh:1775-1801 | the slot an unmoved entry keeps is still free when its turn comes, so setKV never meets a live slot |
| `Doubling.PushedStep` | lib/cuckoo/libcuckoo/cuckoohash_map.hh:1775-1801 | a moved entry takes the first free slot of the upper bucket, also when both candidates coincide |
| `Doubling.DoublingKeeps` | lib/cuckoo/libcuckoo/cuckoohash_map.hh:1759-1803 | doubling preserves placement, uniqueness and the abstract map |
| `Doubling.ViewMigrate` | lib/cuckoo/libcuckoo/cuckoohash_map.hh:957-977 | moving one pending bucket leaves the fully migrated view of the table unchanged |
| `Doubling.ViewIsLive` | lib/cuckoo/libcuckoo/cuckoohash_map.hh:957-977 | the view holds exactly the live slots of both bucket arrays, half-done migration included |
| `Doubling.LiveUnique` | lib/cuckoo/libcuckoo/cuckoohash_map.hh:957-977 | a key has at most one live position, in a candidate bucket of the array it is in |
| `Paths.DecodeEncode` | lib/cuckoo/libcuckoo/cuckoohash_map.hh:1427-1442 | repeated mod and div recover exactly the slots and the starting bucket of a path code |
| `Paths.CodesFitIff` | lib/cuckoo/libcuckoo/cuckoohash_map.hh:1555-1572 | 16 bits hold every path code exactly when a bucket has at most eight slots |
| `Paths.StaticAssertTooWeak` | lib/cuckoo/libcuckoo/cuckoohash_map.hh:1563-1566 | a nine-slot path that the static assertion admits and 16 bits do not hold |
| `Paths.CapacityIsOffset` | lib/cuckoo/libcuckoo/cuckoohash_map.hh:1606-1627 | the queue has room for exactly the entries the search can ever enqueue |
| `Paths.RoomForChildren` | lib/cuckoo/libcuckoo/cuckoohash_map.hh:1661-1667 | an entry that is expanded finds room for all its children, so the queue never overfills |
| `Paths.PathOccurs` | lib/cuckoo/libcuckoo/cuckoohash_map.hh:1635-1672 | every path of bounded length occurs in the breadth-first order |
| `Paths.FirstOpenShortest` | lib/cuckoo/libcuckoo/cuckoohash_map.hh:1635-1672 | the first path in that order that ends in a free slot is a shortest one |
| `Paths.FirstOpenDistinct` | lib/cuckoo/libcuckoo/cuckoohash_map.hh:1635-1672 | no bucket repeats on that path |
| `Displacement.RecordedIsMovable` | lib/cuckoo/libcuckoo/cuckoohash_map.hh:1443-1473 | the records of the first open path describe moves that are all possible |
| `Displacement.MovableStep` | lib/cuckoo/libcuckoo/cuckoohash_map.hh:1501-1544 | after one move the shorter rest of the path is still movable |
| `Search.Expand` | lib/cuckoo/libcuckoo/cuckoohash_map.hh:1643-1669 | a dequeued entry yields an empty slot, or its bucket is full and its children follow in breadth-first order |
| `Sizing.DoublingStops` | lib/cuckoo/libcuckoo/cuckoohash_map.hh:1810-1827 | a table whose size reaches the minimum share of its slots has a hashpower below a bound given by size and minimum load factor, so automatic doubling stops |
| `Sizing.LoadBelowIff` | lib/cuckoo/libcuckoo/cuckoohash_map.hh:382-384 | the load factor is below the minimum exactly when the entries are fewer than that share of all slots |
| `Sizing.ReserveCalc` | lib/cuckoo/libcuckoo/cuckoohash_map.hh:2024-2031 | the smallest hashpower whose table has room for n elements |
| `Table.AddEntry` | lib/cuckoo/libcuckoo/libcuckoo_bucket_container.hh:197-210 | setKV on an empty candidate slot adds exactly one pair to the abstract map and keeps placement and uniqueness |
| `Table.EraseEntry` | lib/cuckoo/libcuckoo/libcuckoo_bucket_container.hh:212-218 | eraseKV on a live slot removes exactly that key from the abstract map and keeps placement and uniqueness |
| `Container.BucketContainer.Clear` | lib/cuckoo/libcuckoo/libcuckoo_bucket_container.hh:220-236 | every slot becomes empty, hashpower unchanged |
| `CuckooMap.CuckooMap.Grow` | lib/cuckoo/libcuckoo/cuckoohash_map.hh:1714-1757 | the container swap, the fresh buckets and the redistribution, at once or marked as pending, leave the abstract map as it was at twice the size |
| `CuckooMap.CuckooMap.ContentsAreLive` | lib/cuckoo/libcuckoo/cuckoohash_map.hh:957-977 | the abstract map is exactly what current buckets and un-migrated old buckets hold |
| `CuckooMap.CuckooMap.MoveBucket` | lib/cuckoo/libcuckoo/cuckoohash_map.hh:1759-1803 | one old bucket is redistributed to its two empty destinations |
| `CuckooMap.CuckooMap.RehashLock` | lib/cuckoo/libcuckoo/cuckoohash_map.hh:956-977 | the stripe becomes migrated, the view is unchanged and the remaining counter equals the un-migrated stripes |
| `CuckooMap.CuckooMap.FreeOldBuckets` | lib/cuckoo/libcuckoo/cuckoohash_map.hh:2055-2062 | the old buckets are dropped only when no stripe is un-migrated, and nothing live is lost |
| `CuckooMap.CuckooMap.LockTwo` | lib/cuckoo/libcuckoo/cuckoohash_map.hh:1005-1021 | both buckets are migrated afterwards, the abstract map unchanged |
| `CuckooMap.CuckooMap.LockThree` | lib/cuckoo/libcuckoo/cuckoohash_map.hh:1035-1063 | all three buckets are migrated afterwards, the abstract map unchanged |
| `CuckooMap.CuckooMap.TryReadFromBucket` | lib/cuckoo/libcuckoo/cuckoohash_map.hh:1165-1178 | a slot holding the key; -1 means no slot holds it with the given partial, and none at all in a migrated bucket when the partial is that of the key |
| `CuckooMap.CuckooMap.CuckooFind` | lib/cuckoo/libcuckoo/cuckoohash_map.hh:1150-1161 | a position is found exactly when the key is in the abstract map, and it holds the map's value |
| `CuckooMap.CuckooMap.Find` | lib/cuckoo/libcuckoo/cuckoohash_map.hh:488-498 | the abstract map's answer; the map is unchanged although stripes may migrate |
| `CuckooMap.CuckooMap.UpdateFn` | lib/cuckoo/libcuckoo/cuckoohash_map.hh:511-521 | true exactly when present; only that key's value changes |
| `CuckooMap.CuckooMap.EraseFn` | lib/cuckoo/libcuckoo/cuckoohash_map.hh:535-547 | true exactly when present; the value is changed, or the key removed when fn says so |
| `CuckooMap.CuckooMap.Erase` | lib/cuckoo/libcuckoo/cuckoohash_map.hh:672-674 | true exactly when present; the map loses that key only |
| `CuckooMap.CuckooMap.SlotSearch` | lib/cuckoo/libcuckoo/cuckoohash_map.hh:1635-1672 | the first open path in breadth-first order with its code, or failure exactly when no path is open |
| `CuckooMap.CuckooMap.CuckooPathSearch` | lib/cuckoo/libcuckoo/cuckoohash_map.hh:1419-1474 | without interference the records describe a path that can be moved completely |
| `CuckooMap.CuckooMap.CuckooPathMove` | lib/cuckoo/libcuckoo/cuckoohash_map.hh:1480-1547 | the move always succeeds, keeps the abstract map and frees a slot of an insert bucket |
| `CuckooMap.CuckooMap.RunCuckoo` | lib/cuckoo/libcuckoo/cuckoohash_map.hh:1357-1409 | at most one pass; a free slot in an insert bucket with nothing lost, or no open path exists |
| `CuckooMap.CuckooMap.TryFindInsertBucket` | lib/cuckoo/libcuckoo/cuckoohash_map.hh:1310-1330 | the duplicate's slot, or the last empty slot of the bucket, or -1 if it is full |
| `CuckooMap.CuckooMap.CuckooInsert` | lib/cuckoo/libcuckoo/cuckoohash_map.hh:1239-1292 | duplicate exactly when present; otherwise a free candidate slot or no open path; map unchanged |
| `CuckooMap.CuckooMap.AddToBucket` | lib/cuckoo/libcuckoo/cuckoohash_map.hh:1297-1303 | an absent key is added to the abstract map and counted |
| `CuckooMap.CuckooMap.DelFromBucket` | lib/cuckoo/libcuckoo/cuckoohash_map.hh:1983-1986 | the key is removed from the abstract map and counted off |
| `CuckooMap.CuckooMap.Size` | lib/cuckoo/libcuckoo/cuckoohash_map.hh:357-367 | the sum of the stripe counters is the number of entries, however displacement made them drift |
| `CuckooMap.CuckooMap.CheckResizeValidity` | lib/cuckoo/libcuckoo/cuckoohash_map.hh:1810-1827 | too large a hashpower comes first, then fewer entries than the minimum share of all slots, then a hashpower that changed meanwhile; otherwise the resize may go on |
| `CuckooMap.CuckooMap.MaybeResizeLocks` | lib/cuckoo/libcuckoo/cuckoohash_map.hh:1839-1854 | the old stripes keep their counters, added ones start at 0 and migrated, so the sum of the counters is kept |
| `CuckooMap.CuckooMap.FastDouble` | lib/cuckoo/libcuckoo/cuckoohash_map.hh:1678-1757 | the abstract map is unchanged; the hashpower grows by one exactly when the maximum is not reached, the entries are not fewer than the minimum share of the slots and the hashpower is the expected one |
| `CuckooMap.CuckooMap.CuckooInsertLoop` | lib/cuckoo/libcuckoo/cuckoohash_map.hh:1195-1219 | terminates, the abstract map unchanged: with a free candidate slot of an absent key, with the duplicate, or with an exception, thrown only for an absent key that no displacement path serves, when the entries are fewer than the minimum share of the slots or the maximum hashpower is reached |
| `CuckooMap.CuckooMap.DoublesForever` | lib/cuckoo/libcuckoo/cuckoohash_map.hh:396-407 | with minimum load 0 and no maximum hashpower, any number of rounds of the loop on a table where 2S keys share the hash of an absent key only doubles it |
| `Collision.CollidingKeysFill` | lib/cuckoo/libcuckoo/cuckoohash_map.hh:1239-1257 | when 2S stored keys share one hash, neither of its candidate buckets has a free slot, at any hashpower |
| `Collision.CollidingTable` | lib/cuckoo/libcuckoo/cuckoohash_map.hh:795-801 | such a table exists: two one-slot buckets holding two keys of hash 0 |
| `CuckooMap.CuckooMap.UpraseFn` | lib/cuckoo/libcuckoo/cuckoohash_map.hh:570-584 | inserts exactly when absent, otherwise applies fn to the present value; an exception changes nothing and comes only when the insert loop refuses the absent key |
| `CuckooMap.CuckooMap.Insert` | lib/cuckoo/libcuckoo/cuckoohash_map.hh:652-657 | true exactly when the key was absent; a present value is never overwritten; throws only for an absent key that cannot be placed, and the load-factor exception only when the entries are fewer than the minimum share of all slots |
| `CuckooMap.CuckooMap.InsertOrAssign` | lib/cuckoo/libcuckoo/cuckoohash_map.hh:663-667 | true exactly when absent; the key holds the value afterwards; throws only for an absent key that cannot be placed, and the load-factor exception only when the entries are fewer than the minimum share of all slots |
| `CuckooMap.CuckooMap.Clear` | lib/cuckoo/libcuckoo/cuckoohash_map.hh:1990-1999 | the abstract map is empty, from any half-done migration |
| `SharedTable.MigrateKeeps` | lib/cuckoo/libcuckoo/cuckoohash_map.hh:956-977 | migrating a stripe changes neither the migrated view nor any answer and keeps the table invariant |
| `SharedTable.MigrateUntouching` | lib/cuckoo/libcuckoo/cuckoohash_map.hh:956-977 | migrating a stripe touches no other stripe's buckets and un-migrates nothing |
| `SharedTable.LocateDecides` | lib/cuckoo/libcuckoo/cuckoohash_map.hh:1150-1161 | with both stripes migrated, the two buckets decide membership in the abstract map |
| `SharedTable.KickKeeps` | lib/cuckoo/libcuckoo/cuckoohash_map.hh:1526-1538 | one displacement keeps the table's invariant and the abstract map |
| `SharedTable.DoubleKeeps` | lib/cuckoo/libcuckoo/cuckoohash_map.hh:1678-1757 | a doubling that starts in a half-done migration keeps the abstract map |
| `Concurrent.StepKeepsInv` | lib/cuckoo/libcuckoo/cuckoohash_map.hh:1239-1292 | every section of every thread keeps the invariant, displacement and the re-check after it included |
| `Concurrent.RunsAreLinearizable` | lib/cuckoo/libcuckoo/cuckoohash_map.hh:1071-1085 | over every interleaving the history is a correct plain-map history, the table holds its outcome, and each thread's part of it is its returned calls in order, with the operations it was called with |
| `Concurrent.EffectInsideCall` | lib/cuckoo/libcuckoo/cuckoohash_map.hh:488-584 | a call takes effect once, in a step of its own thread after its invocation and before its return, with the operation it was invoked with |
| `Concurrent.StepKeepsHistories` | lib/cuckoo/libcuckoo/cuckoohash_map.hh:1195-1219 | through search, path moves, restarts and doublings a thread goes on with the operation it was called with |
| `Concurrent.LogOnlyGrows` | lib/cuckoo/libcuckoo/cuckoohash_map.hh:1071-1085 | a call that returned before another began precedes it in the history |
| `Concurrent.GivesUpWhenSparse` | lib/cuckoo/libcuckoo/cuckoohash_map.hh:1810-1827 | the load-factor exception is logged only in a state whose plain map has fewer entries than the minimum share of the slots at the hashpower of the table |
| `Concurrent.ExpandDecides` | lib/cuckoo/libcuckoo/cuckoohash_map.hh:1810-1827 | an expansion throws exactly when the entries are fewer than the minimum share of all slots; otherwise it doubles exactly when the hashpower is still the expected one |
| `Concurrent.ThrownWhenSparse` | lib/cuckoo/libcuckoo/cuckoohash_map.hh:1816-1819 | over every run, whatever insert threw met a plain map with fewer entries than the minimum share of the slots |
| `Concurrent.NothingIsBlocked` | lib/cuckoo/libcuckoo/cuckoohash_map.hh:1277-1285 | a thread that holds its stripes can always finish, and one that moves always has a linked path |
| `Concurrent.TableIsThePlainMap` | lib/cuckoo/libcuckoo/cuckoohash_map.hh:488-584 | every answer is the plain map's, a load-factor exception only when that map has fewer entries than the minimum share of the slots; live slots hold exactly the plain map, counters add up to its size |
| `Concurrent.InsertsAreSeparated` | lib/cuckoo/libcuckoo/cuckoohash_map.hh:1277-1285 | between two successful inserts of a key there is an erase of it or a clear |
| `Concurrent.OneLiveSlot` | lib/cuckoo/libcuckoo/cuckoohash_map.hh:1480-1547 | in every reachable state a key has at most one live slot, in one of its two candidates |
| `ConcurrentLaws.AnswersInSlots` | lib/cuckoo/libcuckoo/cuckoohash_map.hh:488-584 | told by the slots alone: find reports the value in the live slots; after a successful insert or update the key has exactly the new value there, after an erase no live slot, after a clear nothing is left; no other key is affected and the result says whether the key was there |
| `ConcurrentLaws.AdvanceDecides` | lib/cuckoo/libcuckoo/cuckoohash_map.hh:1480-1547 | a section of a path walk moves the recorded entry exactly when, seen through the migration, its slot still holds the recorded hash and the target is free; otherwise nothing moves and the search starts again |
| `ConcurrentLaws.SectionDecides` | lib/cuckoo/libcuckoo/cuckoohash_map.hh:1239-1257 | an insert goes on to search exactly when the key is absent and both candidate buckets are full in the migrated view |
| `ConcurrentLaws.FirstOpenPathInserts` | lib/cuckoo/libcuckoo/cuckoohash_map.hh:1357-1409 | if a search without interference wrote down the first open path, the thread alone makes every move and its insert of an absent key succeeds |
| `ConcurrentLaws.AloneFinishes` | lib/cuckoo/libcuckoo/cuckoohash_map.hh:1195-1219 | no call depends on another thread's progress: while nobody else holds a stripe, a thread inside a call reaches its answer by its own steps |
| `ConcurrentLaws.AnyCallReturns` | lib/cuckoo/libcuckoo/cuckoohash_map.hh:488-584 | an idle thread can call any operation and alone returns from it with the plain map's answer |
| `ConcurrentLaws.TouchMigrates` | lib/cuckoo/libcuckoo/cuckoohash_map.hh:956-977 | locking one bucket migrates its stripe, changes no other stripe's buckets and leaves the migrated view as it was |
| `ConcurrentLaws.SectionMigrates` | lib/cuckoo/libcuckoo/cuckoohash_map.hh:1005-1021 | after any operation on a key both its candidate buckets are migrated |
| `ConcurrentLaws.MigrationCompletes` | lib/cuckoo/libcuckoo/cuckoohash_map.hh:2055-2062 | a migration ends once every stripe has been locked: none is pending, the remaining counter is 0, the history unchanged |
| `Locking.SortThree` | lib/cuckoo/libcuckoo/cuckoohash_map.hh:1038-1045 | the three compare-and-swaps sort and keep the three stripes |
| `Locking.BatchOrdered` | lib/cuckoo/libcuckoo/cuckoohash_map.hh:986-1063 | every batch is strictly increasing and holds exactly the stripes of its buckets |
| `Locking.StepKeepsInv` | lib/cuckoo/libcuckoo/cuckoohash_map.hh:932-938 | a set spinlock has exactly one holder after every step, the hashpower-changed exit included |
| `Locking.NeverDeadlocked` | lib/cuckoo/libcuckoo/cuckoohash_map.hh:986-1113 | in every reachable state, a thread is inside an operation exactly when one inside an operation can move |
| `Locking.EveryScheduleDrains` | lib/cuckoo/libcuckoo/cuckoohash_map.hh:986-1113 | without new operations every schedule is finite and ends with all threads idle and all spinlocks free |
| `Locking.Exclusive` | lib/cuckoo/libcuckoo/cuckoohash_map.hh:1097-1113 | a thread that enters holds all its stripes alone; after lock_all nobody else holds any |
| `Locking.EntersAtItsHashpower` | lib/cuckoo/libcuckoo/cuckoohash_map.hh:932-938 | the one comparison after the first lock covers the batch: a thread enters at the hashpower it computed its buckets for and keeps it while it holds a stripe |
| `Locking.CheckDecides` | lib/cuckoo/libcuckoo/cuckoohash_map.hh:932-938 | a thread goes on with its first lock exactly when the hashpower is the one it read; otherwise it gives back that one stripe and is idle, and nothing else changes |
| `Locking.AloneEnters` | lib/cuckoo/libcuckoo/cuckoohash_map.hh:986-1063 | a thread that asks with the current hashpower for stripes nobody holds enters with exactly all of them by its own steps |
| `Locking.StaleBacksOff` | lib/cuckoo/libcuckoo/cuckoohash_map.hh:932-938 | a thread that asks with an outdated hashpower leaves the lock table as it found it |
| `Barrier.StepKeepsInv` | server/pacon_server.c:551-630 | every step of every client, commit thread and RPC thread keeps the protocol invariant |
| `Barrier.AlwaysInBounds` | server/pacon_server.c:1332-1348 | no table indexed by a barrier id is ever indexed out of range |
| `Barrier.BodyRunsAlone` | server/pacon_server.c:1083-1083 | while an operation of barrier b runs, every node waits at b with its barrier up and no file-system commit step is possible |
| `Barrier.AllStalled` | server/pacon_server.c:560-578 | an operation that has seen all flags knows that no release is under way and every node is stopped at its barrier |
| `Barrier.CounterIsDifference` | server/pacon_server.c:1295-1331 | a counter always holds the announced minus the completed operations, never negative |
| `Barrier.AnnouncedBeforeCompleted` | server/pacon_server.c:582-606 | no operation is counted off before the last client has announced its own |
| `Barrier.EachCounterHitsZeroOnce` | server/pacon_server.c:608-629 | the counters are brought to 0 once each and in the order 0, 1, 2, ... of the barriers |
| `Barrier.ReleaseHitsItsBarrier` | server/pacon_server.c:1699-1710 | the id-less release always meets the barrier it was sent for, with nodes at most one barrier apart |
| `Barrier.EarlierMessagesHandled` | pacon.c:3013-3025 | what a client enqueued before its barrier-b message is handled when an operation of b runs |
| `Barrier.ReachIsOrdered` | server/pacon_server.c:1332-1335 | the reach count of a barrier is never below that of the next one |
| `BarrierProgress.OnlyLastOpen` | server/pacon_server.c:608-629 | when all clients have announced the same number of barriers, at most the last one is still open |
| `BarrierProgress.WaitingIsDone` | server/pacon_server.c:557-578 | in such a state, if no thread and no client can go on, every message is handled, every operation counted off and every barrier released |
| `BarrierProgress.EvenRoundsComplete` | server/pacon_server.c:551-630 | from every reachable state with even rounds the servers can finish all of them without a new announcement |
| `BarrierProgress.BlockedForEver` | server/pacon_server.c:551-557 | a node whose RPC thread took an operation of a later barrier while one of its clients owes an earlier one never releases that earlier barrier, in any run |
| `BarrierProgress.UnevenRoundsBlock` | server/pacon_server.c:551-557 | on any node with two clients, one of them running a barrier ahead brings that state about, so even rounds are needed |
| `BarrierPrograms.ProgramsComplete` | pacon.c:3013-3025 | every program of rounds, with any asynchronous operations and up to nine announced ones a client, has a run in which each client sends exactly its messages, barriers numbered from 1, and everything is handled, counted off and released |
| `BarrierPrograms.StartupIsInitial` | server/pacon_server.c:1332-1348 | servers and clients can be placed on the nodes in any way |
| `BarrierText.CountReadBack` | server/pacon_server.c:1295-1308 | the announced number is read back, and the first byte tells whether it is 0 |
| `BarrierText.WrittenIs` | pacon.c:3023-3023 | an announcement is the decimal digits of the number, a bar and the decimal digits of the barrier id |
| `BarrierText.IdReadBackIff` | server/pacon_server.c:1313-1313 | reading the id at offset 2 works exactly for one-digit counts, up to one named coincidence |
| `BarrierText.TwoDigitCountMisread` | server/pacon_server.c:1313-1313 | an announcement of twelve operations is read as barrier 0 |
| `Utf8Text.EncodeDecode` | lib/cJSON.c:228-236 | the bytes written for a code point are its UTF-8 form: a separate decoder, by lead byte and continuation bytes, gives the code point back |
| `Utf8Text.DecodeEncode` | lib/cJSON.c:228-236 | conversely every sequence that the decoder accepts is the one written for its code point |
| `JsonAccepts.EscapeRead` | lib/cJSON.c:205-240 | what each escape stands for: the short ones, any other escaped byte such as a slash, and hexadecimal units and surrogate pairs as UTF-8; lone surrogates and unit 0 stand for nothing |
| `JsonAccepts.NumberRead` | lib/cJSON.c:96-115 | sign, optional zero and digits are read to the decimal value they denote |
| `JsonAccepts.Accepts` | lib/cJSON.c:357-369 | every text of the grammar, with any white space between two tokens, is read to the tree it denotes, up to its end |
| `JsonExact.ParsedTextIsGrammar` | lib/cJSON.c:406-547 | whatever the parser accepts is a text of the grammar denoting its result, except for a last string that the end of the text leaves open |
| `JsonExact.ParsesIff` | lib/cJSON.c:357-369 | the language of the parser, both ways: a zero-free text is read to v completely exactly when it is a text of a grammar tree denoting v, or would be if its last string were closed |
| `JsonLayout.PrintedTextIsJson` | lib/cJSON.c:372-403 | for every tree, depth and layout the printed text is a text of the strict grammar, with literal colon, comma, brackets, quotes and keywords, that denotes the tree |
| `JsonRoundTrip.CharsRoundTrip` | lib/cJSON.c:192-249 | the escapes the printer writes are undone exactly, for every zero-free string |
| `JsonRoundTrip.IntRoundTrip` | lib/cJSON.c:96-115 | a printed integer is read back up to the first byte that cannot belong to it |
| `JsonRoundTrip.ValueRoundTrip` | lib/cJSON.c:357-369 | parsing undoes printing at every depth, formatted or not, whatever follows the value |
| `JsonRoundTrip.PrintThenParse` | lib/cJSON.c:323-343 | parsing the printed text of any tree of the model gives the tree and leaves nothing |
| `JsonRoundTrip.PrintIsInjective` | lib/cJSON.c:342-343 | different trees have different texts |
| `JsonRoundTrip.ParseWellFormed` | lib/cJSON.c:357-369 | whatever a zero-free text parses to holds only zero-free strings and 32-bit integers |
| `JsonRoundTrip.ParsePrintParse` | lib/cJSON.c:323-343 | parsing, printing in either layout and parsing again is parsing once |
| `JsonPrinter.PrintStringPtr` | lib/cJSON.c:252-307 | the escaped text in quotes fills the buffer of the counted size to its last byte |
| `JsonPrinter.PrintNumber` | lib/cJSON.c:147-175 | the digits of a 32-bit integer fit the fixed buffer |
| `JsonPrinter.ComposeArray` | lib/cJSON.c:498-510 | the second pass writes the joined entries and stays inside the size of the first pass |
| `JsonPrinter.ComposeObject` | lib/cJSON.c:640-656 | the second pass writes the indented fields and stays inside the size of the first pass |
| `JsonPrinter.PrintEmptyObject` | lib/cJSON.c:559-570 | an empty object fits depth + 4 bytes formatted and 3 unformatted |
| `JsonPrinter.PrintValue` | lib/cJSON.c:372-403 | the text of the tree is, in either layout and at every depth, a text of the grammar that denotes exactly that tree, and its terminator never exceeds the buffer |
| `JsonReader.ReadString` | lib/cJSON.c:192-249 | whatever row of plain bytes and escapes stands between quotes is read to the bytes it denotes, with the text after it, never longer than the room counted in the first pass |
| `JsonReader.RoomForEscape` | lib/cJSON.c:197-199 | no well-formed escape stands for more bytes than were reserved for it |
| `JsonReader.ReadItems` | lib/cJSON.c:406-431 | the loop over entries builds the chain the grammar describes, or fails where it does |
| `JsonReader.ReadFields` | lib/cJSON.c:514-547 | the loop over named entries reads every field list of the grammar, white space around each token, to the fields it denotes, and fails where the recursive form does |
| `JsonReader.ReadValue` | lib/cJSON.c:357-369 | the outcome of the recursive parser, and so every text of the grammar is read to the tree it denotes, whatever number-ending text follows |
| `JsonReader.ParseText` | lib/cJSON.c:323-340 | leading white space is skipped; every text of the grammar gives the tree it denotes, whatever follows, and a result comes only from a text of the grammar or one whose last string the end leaves open |
| `InlineFile.SerialiseRoundTrip` | pacon.c:139-163 | metadata is read back exactly, and data exactly when it holds no zero byte |
| `InlineFile.Splice` | pacon.c:2606-2611 | the three copies between the local buffers produce the byte range overwritten, inside the buffer |
| `InlineLaws.StoredLayout` | pacon.h:97-110 | a stored value is eleven little-endian words in the order of the structure, 44 bytes, then the data |
| `InlineShared.NewValueIsApply` | pacon.c:2597-2619 | the value swapped in holds what the plain byte file holds after the write, whatever the local buffers held before |
| `InlineShared.DecideIsApply` | pacon.c:2374-2400 | what a call answers after its get is what the plain byte file answers, for inline and for just created files and for handles with a descriptor |
| `InlineShared.InlineCallsAreLinearizable` | pacon.c:2577-2669 | under any interleaving, up to the step that cuts data off the stored value, the calls are those of a plain byte file in some order, each handle's in its own order, and the size is the content's length below INLINE_MAX - 1; local buffers are never overrun |
| `InlineShared.NoSwitchNoLoss` | pacon.c:2577-2633 | a run without a write that goes to the file system is linearizable as a whole |
| `InlineShared.SwitchKeepsFileIff` | pacon.c:2664-2677 | the end of a switch leaves a file behind exactly when its swap conflicts or the file was empty |
| `InlineShared.SwitchBreaksFile` | pacon.c:2664-2677 | for every non-empty inline file, a write past the limit and another handle's read of the first byte give an answer no plain file gives |
| `InlineShared.CreatedIsInitial` | pacon.c:1629-1642 | what pacon_create stores is a state the theorem starts from |
| `InlineShared.EffectInsideCall` | pacon.c:2577-2633 | a call takes effect once, between its start and its return |
| `InlineLaws.OnlyInlineBit` | pacon.c:78-98 | setting the inline flag sets bit 1 and leaves every other bit |
| `InlineLaws.WriteKeepsMetadata` | pacon.c:2613-2619 | an inline write keeps mode, creation time, owner, group, links, open counter, descriptor word and every flag but the inline one, and sets both other times to now |
| `InlineLaws.MetadataOverRuns` | pacon.c:2577-2677 | over every run of any handles, switches included, those seven words and all flags but one are those the file started with |
| `InlineLaws.LostExactly` | pacon.c:2664-2677 | data is cut off in exactly one kind of step: the swap of a switch that finds a non-empty file unchanged |
| `InlineLaws.ReadAnswers` | pacon.c:2382-2394 | a read answers byte offset + i of the stored data as its byte i when the range lies inside the file, an error exactly when it does not, and stores nothing |
| `InlineLaws.WriteDecides` | pacon.c:2597-2604 | a write that starts past the end is refused, one that ends below byte 4051 goes on to a swap, any other to the file system beneath |
| `InlineLaws.OtherAnswers` | pacon.c:2365-2400 | a buffer longer than its size is refused; a handle with a descriptor and a read of a file that is not inline go to the file system beneath, and the handle keeps a descriptor exactly when it had one or the file could be opened |
| `InlineLaws.SwapStores` | pacon.c:2605-2633 | a swap without conflict stores the written bytes in their range and the old ones elsewhere; a conflict stores nothing and repeats the get |
| `InlineLaws.ReadBack` | pacon.c:2382-2394 | a read of the range just written, by another handle, answers what was written |
| `InlineLaws.ReadsSeeTheLastWrite` | pacon.c:2374-2394 | over every run up to a loss, each byte a read answers is that of the last write before it that reached this position, or the one from the start |
| `InlineLaws.AnyCallReturns` | pacon.c:2577-2633 | an idle handle can make any call and alone returns from it within four steps; a write answers its byte count exactly when it starts inside the file and ends below byte 4051 |
| `Traverse.Server.TraverseDel` | server/pacon_server.c:673-711 | the subtree leaves the file system, the cache loses exactly the keys of what was below, nothing else changes |
| `Traverse.Server.Rmdir` | pacon.c:2213-2229 | after the client's delete the directory's own key is gone as well |
| `Traverse.CacheIsCleanIff` | server/pacon_server.c:673-711 | no key at or below the directory is left exactly when every cached key below it existed in the file system |
| `Traverse.AllVisited` | server/pacon_server.c:681-702 | the children of a directory cover exactly what lies below it |
| `Traverse.BelowIs` | server/pacon_server.c:684-692 | what lies below a directory is its path, a slash and more; a name that merely begins the same way does not |
| `Traverse.UncommittedSurvives` | server/pacon_server.c:673-711 | a cached entry that is not in the file system yet is left behind |

## Left out

- `cuckoohash_map::swap`, copies and moves of whole maps, iterators, `locked_table` and stream operators: `swap` does not exchange the old buckets, and the rest would add easy members.
- `cuckoo_expand_simple`, `rehash` and `reserve` with their worker threads.
- Hashpowers of 64 and more, where the shifts of the source overflow.
- `Concurrent.RunsAreLinearizable`: does not cover tables with fewer buckets than stripes, whose lock arrays are replaced while threads run; sections are atomic, which `Locking.Exclusive` supports, and the memory model below them is not modelled.
- `Locking.NeverDeadlocked`: says that some thread can move, not that each thread eventually does; spinlocks are not fair.
- `BarrierProgress.EvenRoundsComplete`: says that even rounds can always be finished, not that every schedule finishes them; nothing is assumed about fairness of threads.
- A barrier number of BARRIER_ID_MAX or more, which `pacon_barrier` counts but does not send.
- The list of directories being removed, whose scan and removal in the server do not implement a set.
- The older timestamp barrier and the asynchronous RPC paths, which are switched off, and checkpoint and flush requests, which carry no barrier id.
- The file-system effects of commit messages: a commit is one step that handles one message.
- `Json.ParseNumber`: fractions, exponents and integers beyond 32 bits are outside the model and count as failures there.
- `Json.ParseChars`: malformed escapes, on which the source reads past them, count as failures.
- cJSON's buffered printing, allocator hooks and reference items.
- `InlineShared.InlineCallsAreLinearizable`: says nothing of calls after data was cut off the stored value, because the code then reads and stores uninitialised memory; what calls that go to the file system beneath write or read there is not modelled.
- `Container.BucketContainer`: its slots are one sequence of buckets that every method replaces, so pointers to single slots and aliasing between them are not captured.
- `pacon_write`, `pacon_read` and the log of `pacon_fsync`.
- `Traverse.Server.Rmdir`: does not load a directory that is missing from the cache, and leaves permission checks and the directory-check table aside.
- Queues, sockets, shared memory, configuration files and the shell: input and output.
