# Verified models of a disaggregated metadata service

Dafny models of the data structures and protocols the metadata service is built on, with proofs about
all inputs, all runs and all interleavings.

| component | files | source |
|---|---|---|
| cuckoo hash map: indexing, lazy migration, displacement search, doubling, lock protocol | `Cuckoo*.dfy` | core/metadata/cuckoohash_map.hh |
| lock-free split-ordered hash table | `Split*.dfy` | core/util/ct.h |
| JSON reader, tree builder and writer | `Json*.dfy` | thirdparty/rapidjson |
| CRC engine | `Crc*.dfy` | core/util/crc.h |
| coroutine scheduler | `Scheduler*.dfy` | core/scheduler |
| chained hash store of the memory nodes | `HashStore.dfy` | core/memstore/hash_store.h |
| buffer and log allocators | `Allocators.dfy` | core/allocator |
| bit arithmetic shared by the above | `Bits.dfy` | |

Code that works in place is modelled by classes over arrays and fields (`CuckooMap.Map`,
`CuckooQueue.PathQueue`, `JsonReader.Reader`, `JsonTree.TreeBuilder`, `JsonWriter.Writer`,
`SchedulerRing.Coroutines`, `HashStore.Store`, the allocators); its methods are proved against functions on
values, and the properties are proved about those.  Concurrent code is modelled by state machines in which
every step is one atomic access or, for the cuckoo map, one acquisition, check, critical section or stage of a
doubling, taken by any thread in any order (`CuckooThreads`, `SplitThreads`).

Main results:

- Cuckoo map, one thread: every operation of the class behaves as the operation on a plain map; migration,
  displacement and doubling change nothing a caller can see; the displacement search returns a shortest path or
  shows that no bucket within reach has room, and never overflows its queue.
- Cuckoo map, any number of threads: `CuckooGuard.Linearizable`, under a condition that
  `CuckooRace.ProtectedExactly` shows to be exact, and `CuckooThreads.NoDeadlock`.  `CuckooAlone.CallCompletes`:
  a call that runs alone ends, and an insertion that can be settled by displacing entries is settled so.
- Split-ordered table, any number of threads: `SplitHistory.Linearizable` as a key-value map.  An insertion that
  finds its key exchanges the value of the node, and a lookup reads it, possibly after another thread has
  deleted the node; such accesses are shown to fit in just before the deletion.  `SplitEnds.ObstructionFree`:
  from every reachable state a thread that is left to run alone finishes its call.
- JSON: the two parsers agree with each other and with the grammar stated by derivations, and reading undoes
  writing.
- CRC: the remainder is that of a polynomial division, the table-driven form agrees with the bit-by-bit form,
  and CRCs can be continued.

Some predicates have bodies of the form `true == (...)`, and some equalities are written `Same(x, y)`.  Both mean
what they say; they keep the verifier from taking the formula apart where it is only passed on.

`dafny verify dfyconfig.toml` checks the whole project.

## Findings

- A doubling of the cuckoo map swaps its containers (core/metadata/cuckoohash_map.hh:1732,
  core/metadata/bucket_container.hh:167) and shows the hashpower of the doubling before until the new container
  is assigned.  A thread that read this hashpower two doublings ago, and still waits for a lock of a container
  that has been replaced since, passes the comparison of hashpowers in that moment and uses buckets that have no
  storage. This cannot happen if and only if the map starts with the full number of locks or doubles at most
  once: `CuckooRace.ProtectedExactly`, with the run in `CuckooRace.Unprotected`.  The default map of
  core/metadata/addr_cache.h meets the condition: `CuckooGuard.DefaultMap`.
- Twice as many colliding keys as a bucket has slots, and one more, fit the cuckoo map at no hashpower
  (`CuckooRace.NeverFits`), so without a maximum hashpower the insertion of the last of them doubles the table
  without end.
- The compile-time check on path codes (`static_assert` in `struct b_slot`,
  core/metadata/cuckoohash_map.hh:1571) asks, for S slots and paths of up to L, that S^L be below 65535.  The
  code of a path has one more digit for the start bucket, so the exact condition is 2 * S^L <= 65536:
  `CuckooSearch.CodesFit`, with a failing instance in `CuckooSearch.CheckIsTooWeak`.  The instance used in the
  repository, four slots and five levels, satisfies it.
- In tables of up to 256 buckets some keys have only one bucket, although core/metadata/cuckoohash_map.hh:807
  makes the tag nonzero: `CuckooTag.AlwaysTwoBuckets`.  The exact tags are in `CuckooTag.SameBucket`.
- core/util/crc.h:746 promises that finalising and undoing it always gives back the original value.  That holds
  if and only if the value lies within the width of the CRC: `CrcEngine.UndoExactly` and
  `CrcEngine.FinalizeExactly`, with a remainder the code produces in `CrcEngine.UndoFails`.  The split law holds
  nevertheless.
- The JSON reader takes the byte behind a star inside a block comment along with it
  (thirdparty/rapidjson/reader.h:483), so it sees the end of a comment if and only if the number of stars there
  is odd: `JsonText.BlockEndIs`, with a refused document in `JsonText.EvenStarsRefused`.  Both parsers share
  this.
- LocalInsert of the hash store does not look for the key.  The chains still stand for a map afterwards if and
  only if the key was absent and the item carries a key of the chain: `HashStore.InsertExactly`.  A key stored
  twice survives its deletion: `HashStore.SecondCopy`.
- LocalPut of the hash store with an item that is not valid removes a key that is present and adds one that is
  absent: `HashStore.PutUpdates`.
- The comment at core/allocator/buffer_allocator.h:16-22 says that a buffer is almost always out of use when its
  place is handed out again.  The exact number of bytes that may be allocated meanwhile is in
  `Allocators.ReuseExactly`.

## Model

| member | source | states |
|---|---|---|
| `CuckooIndex.AltInvolution` | core/metadata/cuckoohash_map.hh:800-811 | the alternate bucket of the alternate bucket is the bucket itself, at every hashpower and for every tag |
| `CuckooIndex.AltIndexNextBit` | core/metadata/cuckoohash_map.hh:805-811 | the low bits of the alternate index at the next hashpower are the alternate index at this one, so raising the hashpower keeps it or adds the new top bit |
| `CuckooIndex.LibcuckooLaws` | core/metadata/cuckoohash_map.hh:783-811 | the indexing of the source satisfies every law the table proofs use, for every hash function: indices in range, the involution, entries of a split bucket go to one of its two halves and stay under the same lock |
| `CuckooTag.TagIsParity` | core/metadata/cuckoohash_map.hh:783-792 | every bit of the tag is the parity of the bits at its place in the eight bytes of the hash |
| `CuckooTag.SameBucket` | core/metadata/cuckoohash_map.hh:800-811 | the alternate bucket is the bucket itself if and only if the tag plus one is a multiple of the number of buckets, because the multiplier is odd |
| `CuckooTag.AlwaysTwoBuckets` | core/metadata/cuckoohash_map.hh:794-811 | every hash has two different buckets if and only if the table has more than 256 |
| `CuckooLocks.LockTwo` | core/metadata/cuckoohash_map.hh:1017-1033 | the locks taken are exactly those asked for, each once, in ascending order |
| `CuckooLocks.LockThree` | core/metadata/cuckoohash_map.hh:1047-1072 | the same for three buckets, whatever order and coincidences they come in |
| `CuckooLocks.ManagersOwnEachOnce` | core/metadata/cuckoohash_map.hh:1047-1072 | after deduplication every lock taken is owned by exactly one lock manager and nothing else is owned |
| `CuckooBuckets.SplitEntries` | core/metadata/cuckoohash_map.hh:1768-1812 | splitting a bucket loses no entry and repeats none |
| `CuckooTable.AddKeeps` | core/metadata/cuckoohash_map.hh:1306-1311 | storing an absent key in a vacant slot of one of its buckets keeps the invariant and updates the map by exactly that key |
| `CuckooTable.DelKeeps` | core/metadata/cuckoohash_map.hh:1990-1993 | erasing a slot keeps the invariant and removes exactly its key |
| `CuckooTable.DisplaceKeeps` | core/metadata/cuckoohash_map.hh:1535-1549 | moving an entry to a vacant slot of its alternate bucket keeps the invariant and the map |
| `CuckooTable.RehashKeeps` | core/metadata/cuckoohash_map.hh:968-989 | migrating one lock keeps the invariant and leaves the view of every bucket, hence the map, as it was |
| `CuckooTable.RehashIsLocal` | core/metadata/cuckoohash_map.hh:968-989 | migration writes only to vacant buckets of its own lock, and releases the old storage exactly when it was the last lock |
| `CuckooTable.DoubleKeeps` | core/metadata/cuckoohash_map.hh:1687-1766 | doubling keeps the invariant and the map, whether buckets are split at once or lazily |
| `CuckooTable.ClearKeeps` | core/metadata/cuckoohash_map.hh:1997-2006 | clearing gives an invariant state that stands for the empty map |
| `CuckooTable.SizeIsKeyCount` | core/metadata/cuckoohash_map.hh:336-346 | the sum of the per-lock counters is the number of keys |
| `CuckooTable.LookupTwoBuckets` | core/metadata/cuckoohash_map.hh:1157-1168 | with both buckets migrated, a key is present exactly when one of its two buckets holds it, and then with its value |
| `CuckooTable.LookupCorrect` | core/metadata/cuckoohash_map.hh:1157-1185 | the two-bucket search with tags finds a key exactly when it is present |
| `CuckooSearch.CodesFit` | core/metadata/cuckoohash_map.hh:1563-1588 | path codes of up to n slots fit 16 bits if and only if 2 * S^n <= 65536 |
| `CuckooSearch.CheckIsTooWeak` | core/metadata/cuckoohash_map.hh:1571-1575 | nine slots and five levels pass the compile-time check although a path code overflows |
| `CuckooSearch.ShortestIsSimple` | core/metadata/cuckoohash_map.hh:1428-1478 | a shortest displacement path never visits a bucket twice |
| `CuckooSearch.CapacityIsStart` | core/metadata/cuckoohash_map.hh:1612-1626 | the capacity computed for the queue is exactly the number of items of a complete search, for every slot count and path length |
| `CuckooSearch.SlotsAreRemainders` | core/metadata/cuckoohash_map.hh:1655-1661 | the slots looked at are the remainders the source computes |
| `CuckooSearch.ExpandRoom` | core/metadata/cuckoohash_map.hh:1655-1675 | while a bucket is expanded the queue has room for its children and no path code overflows |
| `CuckooSearch.FoundIsShortest` | core/metadata/cuckoohash_map.hh:1644-1680 | the first vacant slot found ends a shortest path |
| `CuckooSearch.FailureIsFull` | core/metadata/cuckoohash_map.hh:1644-1680 | a search that runs out has seen every bucket within reach, and all are full |
| `CuckooQueue.PathQueue.Enqueue` | core/metadata/cuckoohash_map.hh:1591-1635 | appends to everything enqueued so far; callers are proved to have room |
| `CuckooQueue.PathQueue.Dequeue` | core/metadata/cuckoohash_map.hh:1591-1635 | returns the items in the order in which they were enqueued |
| `CuckooQueue.PathQueue.Expand` | core/metadata/cuckoohash_map.hh:1655-1676 | stops at the first vacant slot with a shortest path to it, or queues every child of the bucket |
| `CuckooPath.Decode` | core/metadata/cuckoohash_map.hh:1437-1446 | decoding the path code gives back the start bucket and the slots it was made of |
| `CuckooPath.MoveStep` | core/metadata/cuckoohash_map.hh:1528-1549 | one move along a recorded path: every check passes, no key is lost, the vacancy moves one position towards the start |
| `CuckooMap.Map.MoveBucket` | core/metadata/cuckoohash_map.hh:1768-1812 | the two halves in the arrays are exactly the split of the old bucket, everything else untouched |
| `CuckooMap.Map.RehashLock` | core/metadata/cuckoohash_map.hh:968-989 | the whole new state is the migrated table value, lazily counted or not |
| `CuckooMap.Map.LockOne` | core/metadata/cuckoohash_map.hh:998-1006 | afterwards the bucket is migrated, and nothing but the progress of migration has changed |
| `CuckooMap.Map.LockTwo` | core/metadata/cuckoohash_map.hh:1017-1033 | the same for two buckets |
| `CuckooMap.Map.LockThree` | core/metadata/cuckoohash_map.hh:1047-1072 | the same for three buckets |
| `CuckooMap.Map.TryRead` | core/metadata/cuckoohash_map.hh:1173-1185 | the first slot that holds the key, or none |
| `CuckooMap.Map.CuckooFind` | core/metadata/cuckoohash_map.hh:1157-1168 | the place of the key in its two buckets, or none |
| `CuckooMap.Map.Find` | core/metadata/cuckoohash_map.hh:467-477 | the value the map gives the key, found exactly when it is present; the map is unchanged |
| `CuckooMap.Map.Update` | core/metadata/cuckoohash_map.hh:491-501 | succeeds exactly when the key is present, and then replaces its value only |
| `CuckooMap.Map.Erase` | core/metadata/cuckoohash_map.hh:516-529 | succeeds exactly when the key is present; the map loses exactly that key |
| `CuckooMap.Map.Size` | core/metadata/cuckoohash_map.hh:336-346 | the number of keys of the map |
| `CuckooMap.Map.SlotSearch` | core/metadata/cuckoohash_map.hh:1644-1680 | a shortest path to a vacant slot, or proof that no bucket within reach has one |
| `CuckooMap.Map.PathSearch` | core/metadata/cuckoohash_map.hh:1428-1478 | the records describe the path that was found, with the hash of every key on it |
| `CuckooMap.Map.PathMove` | core/metadata/cuckoohash_map.hh:1489-1554 | the path is carried through, the map is unchanged, and a slot of one of the two target buckets is vacant, both locked and migrated |
| `CuckooMap.Map.RunCuckoo` | core/metadata/cuckoohash_map.hh:1366-1417 | frees a slot in one of the two buckets, or shows that no displacement within reach can |
| `CuckooMap.Map.Settle` | core/metadata/cuckoohash_map.hh:1700-1721 | every pending lock is migrated and the old storage released |
| `CuckooMap.Map.GrowLocks` | core/metadata/cuckoohash_map.hh:1848-1863 | the old counters and flags stay in front, every new lock is empty and migrated, and the counters keep their sum, so the size is unchanged |
| `CuckooMap.Map.SplitAll` | core/metadata/cuckoohash_map.hh:1742-1752 | the new arrays hold exactly the split of every old bucket |
| `CuckooMap.Map.FastDouble` | core/metadata/cuckoohash_map.hh:1687-1766 | the map is unchanged; the result says which of the three outcomes applied, with the state of each |
| `CuckooMap.Map.TryFindInsert` | core/metadata/cuckoohash_map.hh:1319-1340 | tells whether the bucket holds the key, and otherwise its last vacant slot |
| `CuckooMap.Map.CuckooInsert` | core/metadata/cuckoohash_map.hh:1247-1300 | a duplicate exactly when the key is present; otherwise a free slot of one of its buckets, or no path |
| `CuckooMap.Map.InsertLoop` | core/metadata/cuckoohash_map.hh:1203-1227 | terminates for every bound on the hashpower, with the result and map stated for insert |
| `CuckooMap.Map.Insert` | core/metadata/cuckoohash_map.hh:559-579 | never overwrites; adds exactly the absent key; fails only at the maximum hashpower with every reachable bucket full |
| `CuckooMap.Map.constructor` | core/metadata/cuckoohash_map.hh:103-118 | for every size that passes the exact path-code condition, a valid object that stands for the empty map |
| `CuckooMap.Map.ClearAll` | core/metadata/cuckoohash_map.hh:1997-2006 | a valid object that stands for the empty map |
| `CuckooThreads.OwnLookup` | core/metadata/cuckoohash_map.hh:1081-1094 | a thread in charge of its buckets finds its key exactly when the key is present, under a lock it holds |
| `CuckooThreads.StillGoodDisplaces` | core/metadata/cuckoohash_map.hh:1528-1549 | a move that passes the checks is a legal displacement under the thread's own locks, however stale the path |
| `CuckooThreads.AllHeldExcludes` | core/metadata/cuckoohash_map.hh:1104-1120 | while one thread holds all locks no other holds a lock of the current container |
| `CuckooThreads.StepInv` | core/metadata/cuckoohash_map.hh:820-1766 | every step of every thread keeps the invariant, the stages of a doubling included |
| `CuckooGuard.VerifySound` | core/metadata/cuckoohash_map.hh:944-950 | on a map whose first lock container has its full size or that doubles at most once, a thread that passes the comparison holds a lock of the current container, has the hashpower of the table, and the buckets are in place |
| `CuckooGuard.Linearizable` | core/metadata/cuckoohash_map.hh:467-579 | on such a map, in every run of any number of threads, no thread ever uses the buckets unprotected, the effects form a history a sequential map would have, and the table stands for its result |
| `CuckooGuard.LegalUntilFault` | core/metadata/cuckoohash_map.hh:467-579 | on any map the same holds up to the first unprotected use of the buckets |
| `CuckooAnswers.StepAnswers` | core/metadata/cuckoohash_map.hh:467-579 | a step that ends a call adds exactly one event, with the operation the thread was called with; no other step adds one, and a thread never changes its operation |
| `CuckooAnswers.DirectAnswers` | core/metadata/cuckoohash_map.hh:1247-1273 | with both buckets held and migrated, a call ends with the result the map has for it then, except that an insertion of an absent key goes on to displace entries if and only if both buckets are full |
| `CuckooAnswers.SettleAnswers` | core/metadata/cuckoohash_map.hh:1274-1293 | after a displacement the insertion ends, with the result the map has for it then |
| `CuckooAnswers.ThrowsExactly` | core/metadata/cuckoohash_map.hh:1819-1825 | a step throws if and only if it is that of an insertion that holds all locks and would double beyond the maximum |
| `CuckooAnswers.ThrownAtLimit` | core/metadata/cuckoohash_map.hh:1819-1825 | in every run, if an insertion has thrown, the table has reached its maximum |
| `CuckooAlone.SearchSeeks` | core/metadata/cuckoohash_map.hh:1643-1680 | the two outcomes of the displacement search are what the next rows ask of it: a shortest path to a vacant slot, or proof that there is none |
| `CuckooAlone.StepCloser` | core/metadata/cuckoohash_map.hh:1203-1300 | every step of a call that runs alone ends it or lowers its rank: no lock is taken by another, no check of hashpowers fails, every recorded position is still good when it is moved |
| `CuckooAlone.CallCompletes` | core/metadata/cuckoohash_map.hh:1203-1300 | in every run a call made while no other is in flight ends: with the result of a sequential map, or, for an absent key and a table at its maximum, with an exception; an insertion that has a path to a vacant slot neither throws nor doubles the table |
| `CuckooGuard.ReserveCalc` | core/metadata/cuckoohash_map.hh:2033-2040 | the smallest hashpower with room for the elements |
| `CuckooGuard.DefaultMap` | core/metadata/addr_cache.h:71 | the map with default parameters meets the condition whatever its maximum hashpower |
| `CuckooRace.Unprotected` | core/metadata/bucket_container.hh:167-182 | on every other map, for every hash function with enough colliding keys, a run of two threads in which every search that gives up has nothing to find leads one of them to use the buckets while the other has taken their storage away |
| `CuckooRace.ProtectedExactly` | core/metadata/cuckoohash_map.hh:1732-1733 | the comparison of hashpowers protects the buckets in every run if and only if the map starts with the full number of locks or doubles at most once |
| `CuckooRace.NeverFits` | core/metadata/cuckoohash_map.hh:1203-1227 | twice as many colliding keys as a bucket has slots, and one more, fit the table at no hashpower |
| `CuckooThreads.WaitsInOrder` | core/metadata/cuckoohash_map.hh:1017-1120 | a thread that waits for a lock holds only earlier locks |
| `CuckooThreads.NoDeadlock` | core/metadata/cuckoohash_map.hh:1017-1120 | if some thread is blocked, some thread that holds a lock can run |
| `CuckooThreads.Unblocked` | core/metadata/cuckoohash_map.hh:968-1120 | a thread that is neither idle nor blocked moves on, or uses the buckets unprotected |
| `SplitOrder.TableReverses` | core/util/ct.h:357-363 | every entry of the lookup table is the bit reverse of its index |
| `SplitOrder.ReverseDigitsIs` | core/util/ct.h:233-242 | table lookups digit by digit reverse all bits of the word |
| `SplitOrder.KeysByTable` | core/util/ct.h:233-246 | regular and dummy keys are what the lookup table makes of the word |
| `SplitOrder.BucketIsInterval` | core/util/ct.h:140-147 | at every table size the items of a bucket are exactly those whose keys lie in the interval that begins at its dummy |
| `SplitOrder.DummyBeforeItem` | core/util/ct.h:140-147 | the dummy of a bucket precedes every item hashed to it, whatever the table size |
| `SplitOrder.ParentBeforeChild` | core/util/ct.h:123-132 | the dummy of a parent bucket precedes that of its child |
| `SplitOrder.LessIsOrder` | core/util/ct.h:186-199 | the comparison is a strict order on the labels that occur |
| `SplitList.Neighbours` | core/util/ct.h:504-560 | an unmarked link read as expected means the two nodes are neighbours in the reachable list |
| `SplitList.LinkKeeps` | core/util/ct.h:469-488 | linking between two neighbours keeps the list sorted and linked, and changes nothing for marked nodes |
| `SplitList.UnlinkKeeps` | core/util/ct.h:528-537 | unlinking a marked node keeps the list sorted and complete, and no node that has left returns |
| `SplitList.MarkContents` | core/util/ct.h:574-579 | marking a node removes exactly its key |
| `SplitList.LinkNewContents` | core/util/ct.h:486-488 | linking an item adds exactly its key with its value; linking a dummy adds nothing |
| `SplitList.UnlinkSameContents` | core/util/ct.h:581-582 | unlinking a marked node changes no contents |
| `SplitList.PutContents` | core/util/ct.h:476-484 | an exchanged value shows if the node is live, and only then |
| `SplitThreads.SourceLaws` | core/util/ct.h:127-246 | the reversed hashes of the source satisfy every law of the order, for every hash function |
| `SplitThreads.PathBounded` | core/util/ct.h:367-423 | bucket initialisation goes through strictly smaller indices, so it ends |
| `SplitThreads.AbsentNow` | core/util/ct.h:504-560 | when a search ends without finding the key, the key is absent at that moment |
| `SplitThreads.StepInv` | core/util/ct.h:448-594 | every step of every thread keeps the invariant of list, table, registers and size |
| `SplitThreads.ListStaysSorted` | core/util/ct.h:504-560 | in every run the reachable list is strictly sorted, correctly linked, and holds every unmarked node |
| `SplitThreads.CellsApart` | core/util/ct.h:427-445 | in every run two buckets never share a head node |
| `SplitThreads.QuietSizeOfRun` | core/util/ct.h:96 | in every run, when no operation is in flight, the size is the number of keys |
| `SplitThreads.StepIsMonotone` | core/util/ct.h:563-594 | labels and marks stay, the successor of a marked node never changes, a node that left the list never returns |
| `SplitThreads.BucketHeadIsEnough` | core/util/ct.h:140-147 | in every state, scanning from the bucket head ends where scanning from the head of the list ends |
| `SplitHistory.LateStep` | core/util/ct.h:155-177 | an access to the value of a node deleted in the meantime fits in just before the deletion |
| `SplitHistory.StepHistory` | core/util/ct.h:155-594 | every step keeps the correspondence between results and the history of the map |
| `SplitHistory.Linearizable` | core/util/ct.h:76-94 | in every run the operations that took effect can be put in an order that respects real time, in which a sequential map gives the same results and values and ends with the same contents |
| `SplitAnswers.StepAnswers` | core/util/ct.h:448-594 | a step that ends a call adds exactly one result, with the operation the thread was called with and the moment of the call; no other step adds one |
| `SplitAnswers.Sequential` | core/util/ct.h:76-94 | in every run a call that runs while no other is in flight tells what a sequential map would, and leaves the map that follows: a deleted key is absent, and the result tells whether it was present |
| `SplitEnds.ActCloser` | core/util/ct.h:367-594 | every step of a call whose weak compare-and-swaps do not fail for no reason ends it or lowers its rank |
| `SplitEnds.ObstructionFree` | core/util/ct.h:367-594 | in every state of every run, whatever the other threads have left undone, a thread that is left to run alone finishes its call |
| `SplitEnds.Completes` | core/util/ct.h:76-94 | in every run a call begun while no other is in flight and left to run alone ends, with the result of a sequential map |
| `JsonDerivation.AcceptsDerivable` | thirdparty/rapidjson/reader.h:396-426 | a text is accepted if and only if the grammar derives it |
| `JsonDerivation.DerivedEvents` | thirdparty/rapidjson/reader.h:396-426 | the events of an accepted text are those of its derivation |
| `JsonDerivation.Unambiguous` | thirdparty/rapidjson/reader.h:1021-1031 | a text has at most one derivation |
| `JsonDerivation.MatchesIs` | thirdparty/rapidjson/reader.h:602-637 | a literal is accepted at a place if and only if the text there spells it byte by byte |
| `JsonReader.ErrorStep` | thirdparty/rapidjson/reader.h:1116-1278 | where the state table says error, recursive descent fails |
| `JsonReader.Reader.ParseValue` | thirdparty/rapidjson/reader.h:1021-1031 | the result of the grammar at this position, events and position included |
| `JsonReader.Reader.ParseArray` | thirdparty/rapidjson/reader.h:557-599 | the same for an array |
| `JsonReader.Reader.ParseObject` | thirdparty/rapidjson/reader.h:505-554 | the same for an object |
| `JsonReader.Reader.Parse` | thirdparty/rapidjson/reader.h:396-426 | recursive descent computes the grammar's result for the whole text |
| `JsonReader.Reader.Transit` | thirdparty/rapidjson/reader.h:1283-1412 | one transition leaves exactly the rest of what recursive descent would do |
| `JsonReader.Reader.IterativeParse` | thirdparty/rapidjson/reader.h:1441-1473 | the pushdown parser computes the grammar's result for the whole text |
| `JsonReader.ParseBothWays` | thirdparty/rapidjson/reader.h:396-1473 | both parsers accept the same texts with the same events |
| `JsonText.ParseHex4` | thirdparty/rapidjson/reader.h:639-657 | the number the four digits write, or an error exactly when one is not a digit |
| `JsonText.ParseStringToStream` | thirdparty/rapidjson/reader.h:712-766 | the string the text stands for and its end, or an error, as specified byte by byte |
| `JsonString.StringDerivable` | thirdparty/rapidjson/reader.h:712-766 | a string is accepted, with a meaning and an end, if and only if it is spelled by plain bytes, escapes and code points that mean it and a closing quote |
| `JsonString.Utf8Back` | thirdparty/rapidjson/encodings.h:102-120 | every code point can be read back from its bytes, which are as few as its size allows |
| `JsonText.BlockEndIs` | thirdparty/rapidjson/reader.h:483-489 | the scanner stops at the end of a block comment if and only if the number of stars there is odd, and otherwise reads on as if the comment had not ended |
| `JsonText.NeverCloses` | thirdparty/rapidjson/reader.h:477-490 | a comment that nothing closes is an error |
| `JsonGap.SkipIs` | thirdparty/rapidjson/reader.h:470-500 | the scanner gets to a place if and only if white bytes and, where they are allowed, comments lead there and neither stands there |
| `JsonText.EvenStarsRefused` | thirdparty/rapidjson/reader.h:483-489 | a valid document behind a comment that ends in two stars is refused |
| `JsonText.RapidLaws` | thirdparty/rapidjson/reader.h:470-500 | the scanners of the source satisfy the laws assumed of a lexer |
| `JsonNumber.ParseWhole` | thirdparty/rapidjson/reader.h:814-889 | the loops with their 32-bit and 64-bit guards compute the whole number written, or tell that it is not whole or larger than 64 bits |
| `JsonNumber.DecimalBack` | thirdparty/rapidjson/reader.h:814-889 | a number is read back from its decimal text if and only if it has 64 bits, signed or unsigned |
| `JsonNumber.ScanWholeIs` | thirdparty/rapidjson/reader.h:814-889 | a whole number is read up to a place if and only if its decimal text, or minus zero, stands there, ends there and is not continued, and it has 64 bits |
| `JsonItoa.U32toa` | thirdparty/rapidjson/internal/itoa.h:40-109 | two digits at a time from the table give exactly the decimal digits |
| `JsonItoa.U64toa` | thirdparty/rapidjson/internal/itoa.h:121-282 | the same for 64 bits |
| `JsonItoa.WriteDecimal` | thirdparty/rapidjson/writer.h:236-266 | the decimal text of every number of 64 bits, signed or unsigned, with the magnitude of a negative one taken modulo the word |
| `JsonTree.ReplayTree` | thirdparty/rapidjson/document.h:2139-2198 | replaying the events of a tree rebuilds exactly that tree |
| `JsonTree.TreeBuilder.Load` | thirdparty/rapidjson/document.h:2139-2198 | the handler's stack ends up holding the tree whose events it was fed |
| `JsonWriter.WriteString` | thirdparty/rapidjson/writer.h:276-338 | the quoted form, with the escape of every byte as specified |
| `JsonShortest.ShortestSpelling` | thirdparty/rapidjson/writer.h:276-338 | no text that the reader takes for a string is shorter than the one the writer writes for it |
| `JsonWriter.WriteTree` | thirdparty/rapidjson/writer.h:156-374 | writing the events of a tree appends a separator where one is due and the text of the tree |
| `JsonWriter.Writer.Accept` | thirdparty/rapidjson/document.h:1662-1697 | the text of the tree is appended to the output |
| `JsonRoundTrip.ReadQuoted` | thirdparty/rapidjson/reader.h:712-766 | every byte string is read back from its quoted form |
| `JsonRoundTrip.RoundTrip` | thirdparty/rapidjson/document.h:1662-1697 | printing any tree of nulls, booleans, whole numbers, strings, arrays and objects and parsing the text gives back its events, and replaying them the tree, for any number scanner that reads the numbers of the tree back |
| `JsonRoundTrip.WholeRoundTrip` | thirdparty/rapidjson/document.h:1662-1697 | with the scanner of whole numbers the round trip needs no assumption |
| `CrcDivision.RemainderDivides` | core/util/crc.h:787-887 | in all three layouts and at every width the remainder is that of the division of the message, behind the starting value and with as many zeros behind it as the CRC has bits, by the generator polynomial, with coefficients modulo two |
| `CrcDivision.Unique` | core/util/crc.h:787-887 | a division by the generator has only one remainder |
| `CrcRemainder.TableAgrees` | core/util/crc.h:900-943 | the table-driven remainder agrees with the bit-by-bit one on the bits of the CRC, for all parameters, data and starting remainders |
| `CrcEngine.UndoFinalizes` | core/util/crc.h:731-773 | undoing a finalised remainder gives its bits within the width |
| `CrcEngine.UndoExactly` | core/util/crc.h:746-752 | the documented promise holds if and only if the remainder lies within the width |
| `CrcEngine.UndoFails` | core/util/crc.h:746-752 | a remainder the code produces for which the promise fails |
| `CrcEngine.FinalizeExactly` | core/util/crc.h:746-752 | finalising an undone CRC gives it back if and only if it lies within the width |
| `CrcEngine.SplitLaw` | core/util/crc.h:502-512 | splitting data anywhere and continuing from the first CRC gives the CRC of the whole |
| `CrcEngine.TableCrcIs` | core/util/crc.h:524-533 | with the lookup table the CRC is the same, at once or continued |
| `CrcEngine.TableSplitLaw` | core/util/crc.h:548-560 | the split law with the lookup table |
| `CrcEngine.Crc32Split` | core/util/crc.h:1944-1947 | the default CRC can be computed with a lookup table and in pieces |
| `CrcEngine.FinalizeBits` | core/util/crc.h:731-741 | bit by bit, the final value is the remainder, back to front if input and output are reflected differently, exclusive or the final mask, and nothing above the width |
| `CrcCheck.Crc32Checks` | core/util/crc.h:1935-1947 | the default CRC of the digits one to nine is the documented check value, and that of no data is zero |
| `CrcEngine.Reflect` | core/util/crc.h:710-719 | the bits in reverse order |
| `CrcEngine.CalculateRemainder` | core/util/crc.h:787-887 | the loops compute the remainder specified bit by bit |
| `CrcEngine.InitTable` | core/util/crc.h:440-468 | the table holds the entry specified for every byte |
| `CrcEngine.LookupRemainder` | core/util/crc.h:900-943 | the loops compute the remainder specified by table lookups |
| `Scheduler.IssueKeeps` | core/scheduler/corotine_scheduler.h:118-121 | issuing a request keeps the invariant |
| `Scheduler.YieldKeeps` | core/scheduler/corotine_scheduler.h:323-338 | yielding keeps the invariant; control passes only to coroutine 0 or to a worker with nothing outstanding |
| `Scheduler.FinishKeeps` | core/scheduler/corotine_scheduler.cc:10-38 | a completion keeps the invariant: every pending entry has a request in flight, no count goes below zero, and the coroutine it belongs to was outside the ring |
| `Scheduler.PollAppends` | core/scheduler/corotine_scheduler.cc:10-38 | polling only appends to the ring, so the order of the workers already in it stays |
| `Scheduler.PollPending` | core/scheduler/corotine_scheduler.cc:10-38 | after a poll the pending list holds exactly the entries whose poll found nothing, in their order, and as many requests have left as polls found one |
| `Scheduler.PollFlight` | core/scheduler/corotine_scheduler.cc:10-38 | of every queue pair the oldest requests are gone, as many as polls of it found one, and the others stay in order |
| `Scheduler.PollAll` | core/scheduler/corotine_scheduler.cc:10-38 | when every poll finds a completion, nothing is pending afterwards and every worker is in the ring |
| `Scheduler.PollHandsOver` | compute_pool/worker/worker.cc:67-77 | after a round of coroutine 0 the first worker of the ring has control, or coroutine 0 if there is none; the pending entries are those found not done |
| `Scheduler.IssueAndYield` | core/scheduler/corotine_scheduler.h:118-121 | a worker that issues a request and yields is outside the ring and does not have control; its request is the youngest of its queue pair and the last pending entry |
| `Scheduler.Reachable` | core/scheduler/corotine_scheduler.cc:10-38 | in every reachable state a worker is outside the ring exactly when it waits, and pending entries, counts and requests in flight agree |
| `Scheduler.FirstInFirstOut` | core/scheduler/corotine_scheduler.h:323-358 | along any walk of the scheduler a worker of the ring does not run before the departure of the one in front of it, and gets control with that departure |
| `SchedulerRing.Coroutines.YieldNow` | core/scheduler/corotine_scheduler.h:323-338 | relinking realises the yield on the ring |
| `SchedulerRing.Coroutines.Append` | core/scheduler/corotine_scheduler.h:350-358 | relinking appends a waiting coroutine and leaves any other where it is |
| `SchedulerRing.Coroutines.PollRegular` | core/scheduler/corotine_scheduler.cc:10-38 | the loop with removal in place realises polling every pending entry once: the entries found done are gone from the pending list, the others stay in order, and as many requests have left |
| `SchedulerRing.Coroutines.PollLoop` | compute_pool/worker/worker.cc:67-77 | one round polls and hands control to the first worker of the ring, or keeps it if there is none |
| `HashStore.Store.LocalGet` | core/memstore/hash_store.h:145-157 | the first slot of the key in the chain of its hash; where the chains stand for a map, found exactly when the key is in it |
| `HashStore.FirstFinds` | core/memstore/hash_store.h:145-157 | where the chains stand for a map, a search finds a key exactly when it is in the map, and then its item |
| `HashStore.Store.LocalInsert` | core/memstore/hash_store.h:160-189 | the item goes, as valid, to the first free slot of the chain or to a new node, whether the key is there or not; where the chains stand for a map without the key, the map gains exactly that key |
| `HashStore.InsertExactly` | core/memstore/hash_store.h:160-189 | after an insertion the chains still stand for a map if and only if the key of the item belongs to the chain and was not in the map |
| `HashStore.SecondCopy` | core/memstore/hash_store.h:160-224 | a key inserted twice is still found after it has been deleted |
| `HashStore.Store.LocalPut` | core/memstore/hash_store.h:192-201 | the first slot of the key is overwritten with the item as it is, or the item is inserted; where the chains stand for a map, it is updated at the key |
| `HashStore.PutUpdates` | core/memstore/hash_store.h:192-201 | an item that is not valid removes its key if it is present and adds it if it is absent; any other updates the map at its key |
| `HashStore.Store.LocalDelete` | core/memstore/hash_store.h:204-224 | the first slot of the key is freed; where the chains stand for a map, it loses exactly that key, and the result tells whether it had it |
| `Allocators.InsideRegion` | core/allocator/buffer_allocator.h:15-30 | in any series of requests, one lies inside the region if and only if it is no larger than the region |
| `Allocators.ReuseBound` | core/allocator/buffer_allocator.h:15-30 | a buffer is not overlapped while later requests total less than the limit of reuse |
| `Allocators.ReuseBoundIsTight` | core/allocator/buffer_allocator.h:15-30 | for every size of region, buffer and request, requests that total exactly the limit may overwrite the buffer |
| `Allocators.ReuseExactly` | core/allocator/buffer_allocator.h:15-30 | no series of requests of a given total overwrites a buffer if and only if the total is below the limit |
| `Allocators.LogAllocator.Next` | core/allocator/log_allocator.h:23-30 | an entry stays inside the share of its thread if and only if it is no larger than the share |
| `Allocators.LogsNeverOverlap` | core/allocator/log_allocator.h:14-30 | entries of different threads never overlap on any memory node |

## Left out

- cuckoohash_map: growing by reinsertion (cuckoo_expand_simple), rehash and reserve, copying and swapping, the
  locked table and its iterators, upsert and uprase callbacks other than insertion, and load-factor checks.
- CuckooMap.Map.constructor: slot counts and path lengths whose path codes overflow are excluded, although some
  of them pass the compile-time check; the exact condition is `CuckooSearch.CodesFit`.
- CuckooMap.Map.InsertLoop: terminates because the hashpower is bounded by the maximum given to the map; without
  a maximum the loop need not end, see `CuckooRace.NeverFits`.
- CuckooGuard.Linearizable: the memory is sequentially consistent; releasing locks is one step with the end of
  the critical section; the search for a displacement path may return any path or none, which covers what
  slot_search finds; a hashpower is a natural number, not a 64-bit word.
- CuckooAlone.CallCompletes: the displacement search is one step there, without its visits to single buckets.
- CuckooThreads.NoDeadlock: no claim of fairness or of freedom from starvation.
- SplitHistory.Linearizable: hazard pointers, memory orders and reclamation are not modelled, nodes are never
  reused; the segment tree that stores bucket heads is a map; the value of a node stands for the object it
  points to; the decision to double the number of buckets is an arbitrary choice.
- SplitThreads.QuietSizeOfRun: the size is an unbounded integer.
- JsonReader.ParseBothWays: numbers are scanned by any scanner that satisfies `NumberLaw`; other encodings,
  vector instructions, parse-error codes and handlers that stop the parser are not modelled; counts are natural
  numbers.
- JsonRoundTrip.RoundTrip: numbers are whole; fractions, exponents and floating point are not modelled.
- CrcEngine.CalculateRemainder: whole bytes only, not the forms that take a number of bits; combining disjoint
  bytes is written as addition.
- Scheduler.Reachable: synchronous requests, the log queue, completions with an error status and requests issued
  by coroutine 0 are not modelled.
- HashStore.Store.LocalInsert: the reserve that bounds the number of new nodes is not modelled.
- Remote access over RDMA, transactions, workloads and configuration loading are not part of this model.
