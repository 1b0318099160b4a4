# Verified models of cmw

Dafny models of the parts of the `cmw` middleware whose correctness does not follow from reading one
function: the lock-free structures, the coroutine scheduler and its wakeup protocol, the message rings,
the topology graph, the tagged serializer, shared-memory block allocation, name registration, and the
JSON diff and patch of the vendored nlohmann library.

`dafny verify dfyconfig.toml` checks everything.

## How the models are built

Concurrent code is a step machine: a datatype holds the shared words and, per thread, where that thread
stands; every atomic load, store, addition or compare-and-swap is one step of one thread, and a weak
compare-and-swap may also fail without cause. Theorems quantify over all runs (`Runs.IsRun`), any number
of threads and any interleaving. Atomics are sequentially consistent.

Sequential code that changes state is a class or a method with loops, proved against functions on values;
the properties are then lemmas about those functions.

| file | models |
|---|---|
| `Runs.dfy`, `Modular.dfy`, `Options.dfy` | runs of a transition system; facts about remainders; the optional value |
| `BoundedQueue.dfy` | the multi-producer multi-consumer ring with head, tail and commit tickets |
| `ObjectPool.dfy` | the object pool's free list with a tagged head |
| `HashMap.dfy`, `HashMapCalls.dfy` | the insert-only hash map with sorted chains; how its calls end |
| `Exclusion.dfy`, `RwLock.dfy`, `BlockLock.dfy` | the counter of a reader-writer lock; the spinning lock; the try-lock of a shared-memory block |
| `Wakeup.dfy` | one routine, its buffer, its publishers and its processors |
| `Scheduler.dfy`, `Scanning.dfy`, `Placement.dfy` | dispatching, picking, running and removing routines; which routine a scan picks; where routines are queued |
| `Ring.dfy`, `Fusion.dfy` | cache ring, channel buffer and reader cursor; fusion of several channels |
| `Notifier.dfy` | the notification ring in shared memory |
| `Topology.dfy`, `GraphIndex.dfy` | the topology graph as functions and relations; the graph object |
| `Bytes.dfy`, `DataStream.dfy`, `StreamBuffer.dfy` | integers as bytes; the wire format; the stream object |
| `Segment.dfy`, `RefCount.dfy` | size classes, layout and block choice of a segment; its reference count |
| `Names.dfy` | registration of names under hashed ids |
| `JsonText.dfy`, `Json.dfy`, `JsonEffect.dfy`, `JsonDiff.dfy` | JSON pointers as text (RFC 6901); values and patch application (RFC 6902); what each operation does; the difference of two values |

## What turned out not to hold

Each is a lemma: a concrete input or run, or the exact condition under which the property holds.

- `BoundedQueue.StaleTailRefusal`: an enqueue that loaded a tail that is no longer current can give up on an
  empty queue. Giving up is right exactly when the tail has moved by a multiple of the ring's length since
  (`BoundedQueue.RefusalIsRightExactlyWhenTailFits`), so always with a current tail.
- `Wakeup.MissedBeforeRegistration`: the scheduler registers the notify callback after it has dispatched the
  routine, so a message published in between can leave the routine waiting until the next message comes.
  With no publisher under way, a routine with an unfetched message is stuck exactly when a publisher found
  the callback missing and since then neither the routine has seen an empty buffer nor a publisher has
  cleared the flag (`Wakeup.StuckExactlyWhenMissed`). A run in which nothing is published before the callback
  is registered loses no wakeup (`Wakeup.NoLostWakeupOnceRegistered`).
- `Notifier.FirstTicketCanBeStale`: sequence numbers of slots never written are 0, which passes for ticket 0;
  a listener attached before the first notification can always be handed a slot nobody wrote. It is sure to
  receive everything exactly when a ticket was taken before it attached
  (`Notifier.SureExactlyFromTicketOne`).
- `Topology.CollidingNamesLoseAnEdge`: the edge key `channel_node` is ambiguous when names contain `_`; the
  adjacency list agrees with the edges along a history exactly when no writer ever has two edges under
  one key (`Topology.HistoryAgreesExactlyWhenDistinct`).
- `JsonDiff.WrappedNumberIsKept`: a signed number is compared to an unsigned one after a cast, so -1 and
  2^64 - 1 have an empty difference. Patching with a difference always gives a value the library calls
  equal to the target, and the target itself exactly when no two numbers in the same place compare equal
  across signedness (`JsonDiff.MergedIsTargetExactlyWhenClear`).
- `Json.FailedMoveLosesTheValue`, `Json.FailedMoveExample`: a `move` whose addition fails has already removed
  the value.
- `Json.RemoveBelowNullExample`: a `remove` whose parent is neither an object nor an array succeeds and does
  nothing, where section 4.2 of RFC 6902 requires the target to exist (`Json.RemoveSucceedsExactly`).
- `Fusion.FoldStartsFromEarlyValues`: a fused visitor registers its buffers before it sets the callback; primary
  messages that arrive in between are stored in the primary channel's ring for good and never fused, while
  early secondary messages do count.
- `Segment.MessageAndTrailerFit`: a message larger than the largest class by more than 1000 bytes is still given a
  block of that class, which does not hold it.

## Model

| member | source | states |
|---|---|---|
| BoundedQueue.WindowAndOwners | base/bounded_queue.h:99-160 | in every run head < commit <= tail <= head + pool_size - 1, every slot from commit to tail has exactly one owner, committed slots hold their ticket's element |
| BoundedQueue.Fifo | base/bounded_queue.h:99-160 | what has been dequeued at one moment is a prefix of the tickets of any later moment: position p is handed out once and yields the element of ticket p |
| BoundedQueue.Refines | base/bounded_queue.h:99-160 | each step is a step of a sequential queue: the commit appends the caller's element, a successful head exchange removes and returns the oldest element whole, nothing else changes the queue |
| BoundedQueue.DequeueMissIsExact | base/bounded_queue.h:147-160 | Dequeue answers false only if nothing was committed at its load of the commit counter |
| BoundedQueue.RefusalIsRightExactlyWhenTailFits | base/bounded_queue.h:103-108 | Enqueue gives up exactly when the slot after its tail is the head's, and then the queue is full exactly when the tail has moved by a multiple of the ring's length since it was loaded |
| BoundedQueue.EnqueueRefusalWithCurrentTail | base/bounded_queue.h:103-108 | with a current tail Enqueue gives up exactly when all pool_size - 2 places are taken |
| BoundedQueue.StaleTailRefusal | base/bounded_queue.h:103-108 | a run in which Enqueue gives up on an empty queue because its tail is stale |
| BoundedQueue.SomeEnqueueCanCommit | base/bounded_queue.h:112-117 | while an enqueue is in flight, some thread running alone commits within a bounded number of its own steps |
| BoundedQueue.TestUsesLatestTail | base/bounded_queue.h:102-111 | the tail that Enqueue tests is the counter's value at its latest load or failed exchange: a failed exchange reloads |
| BoundedQueue.TestUsesLatestHead | base/bounded_queue.h:147-160 | the head that Dequeue tests is likewise that of its latest load or failed exchange |
| BoundedQueue.EnqueueAlone | base/bounded_queue.h:99-119 | wherever an Enqueue stands, left alone with the earlier commits done it is over within width + 5 steps, refused exactly if all pool_size - 2 places are taken or a tail loaded earlier fails its test, and else with its element the newest |
| BoundedQueue.QuietEnqueue | base/bounded_queue.h:99-119 | an undisturbed call of Enqueue is refused exactly when all pool_size - 2 places are taken |
| BoundedQueue.DequeueAlone | base/bounded_queue.h:147-160 | wherever a Dequeue stands and however old its head, left alone it is over within 2 width + 4 steps with the oldest element, or finds nothing exactly if nothing is committed |
| BoundedQueue.GetIndex | base/bounded_queue.h:226-228 | the subtraction form is the remainder by the pool size |
| ObjectPool.LinkArena | base/concurrent_object_pool.h:61-69 | the constructor links all nodes into one chain |
| ObjectPool.EachNodeInOnePlace | base/concurrent_object_pool.h:85-139 | in every run the free list is an acyclic chain and every node is free, held or being pushed, never two of these |
| ObjectPool.HandsOutFreeNode | base/concurrent_object_pool.h:85-102 | a successful exchange hands out the first free node, held by nobody, and the link read earlier is still current |
| ObjectPool.OnlyGetAndReleaseMoveNodes | base/concurrent_object_pool.h:85-139 | the free list changes only by a completed get or release, each by one node at the front; the tag never decreases |
| ObjectPool.NoneMeansEmptyAtLoad | base/concurrent_object_pool.h:87-92 | a get fails only if the list was empty at its last load of the head |
| ObjectPool.Conservation | base/concurrent_object_pool.h:61-139 | free, held and in-transit nodes add up to the capacity in every run |
| ObjectPool.CallAlone | base/concurrent_object_pool.h:85-139 | wherever a get or a release stands, left alone it is over within four steps: with the first free node, unless there is none or it has already seen none, or with its node put in front |
| ObjectPool.SameNodeStaleLink | base/concurrent_object_pool.h:85-102 | a run in which the head node is the one loaded although its link is stale: only the tag tells |
| HashMap.MaskIsRemainder | base/atmoic_hash_map.h:27-39 | masking by a power of two less one is the remainder, so each key has one bucket of the table |
| HashMap.ChainsHoldTheMap | base/atmoic_hash_map.h:97-174 | in every run each chain is linked, strictly ascending, of its own residue class, and the chains hold exactly the map |
| HashMap.ReadsLinearise | base/atmoic_hash_map.h:97-131 | in every run a Get or Has that answers found gives the map's value at its last step, and one that answers not found had a moment inside the call when the key was missing |
| HashMap.WritesLinearise | base/atmoic_hash_map.h:133-174 | in every run a Set stores its value under its key at its last step, whatever happened meanwhile, and none of its earlier steps touches the map |
| HashMap.FoundIsCurrent | base/atmoic_hash_map.h:262-270 | a found answer gives the map's value at that instant |
| HashMap.KeysStay | base/atmoic_hash_map.h:133-174 | keys never vanish |
| HashMap.MovedValueIsNotReused | base/atmoic_hash_map.h:176-217 | a retrying Set that has moved its argument away never copies it again |
| HashMapCalls.CallAlone | base/atmoic_hash_map.h:97-174 | wherever a call stands, left alone it is over within twice its chain's length and four steps: a Set has stored its value, a found answer gives the present value |
| HashMapCalls.ReadAlone | base/atmoic_hash_map.h:97-131 | an undisturbed Get or Has finds the key exactly if the map has it, and a Get its value |
| HashMapCalls.SetAlone | base/atmoic_hash_map.h:133-174 | an undisturbed Set stores its value and touches no other key |
| RwLock.WritersExclude | base/atomic_rw_lock.h:37-89 | in every run a writer is inside alone and the counter is -1, or readers are inside without writers and the counter is their number |
| RwLock.WritersGoFirst | base/atomic_rw_lock.h:37-53 | with write-first on, while a writer waits nobody who has not yet asked gets in as a reader |
| RwLock.UndisturbedReaderEnters | base/atomic_rw_lock.h:37-66 | when no writer is inside or, with write-first on, waiting, a reader gets in within six undisturbed steps, however many readers are inside |
| RwLock.UndisturbedWriterEnters | base/atomic_rw_lock.h:68-85 | a writer's honest swap succeeds exactly when nobody is inside |
| RwLock.StepsAdvance | base/atomic_rw_lock.h:37-89 | no step leaves a thread in place but a writer's failed swap; leaving gives up exactly one's own part of the counters |
| BlockLock.BlockIsProtected | transport/shm/block.cpp:18-71 | in every run a writer is in the block alone, otherwise the counter is the number of readers; what a reader found on entering stays there while it reads |
| BlockLock.AttemptsAreBounded | transport/shm/block.cpp:32-65 | an undecided attempt has used no more moves than the five tries allow |
| BlockLock.RefusedReadHasReason | transport/shm/block.cpp:32-65 | a read attempt that ends outside saw a writer inside at its last load, or had five failed swaps |
| BlockLock.UndisturbedReadEnters | transport/shm/block.cpp:32-65 | without a writer inside an undisturbed attempt gets in within three steps whatever the number of readers, unless its last swap is for an outdated counter |
| BlockLock.UndisturbedWriteEnters | transport/shm/block.cpp:18-29 | an honest swap to write succeeds exactly when nobody is inside |
| BlockLock.StepsAdvance | transport/shm/block.cpp:67-71 | leaving gives up exactly one's own part of the counter |
| Wakeup.NoLostWakeup | croutine/croutine_factory.h:41-54 | a routine waiting with an unfetched message has its flag clear, or a publisher or processor is still on the way to waking it, unless a publisher found no callback and nobody has cleared the flag since |
| Wakeup.StuckExactlyWhenMissed | scheduler/policy/scheduler_classic.cpp:182-201 | with no publisher under way, such a routine is stuck exactly when such a miss has happened |
| Wakeup.NoLostWakeupOnceRegistered | scheduler/scheduler.cpp:43-53 | in every run in which nobody reaches the notification before the callback is registered, no wakeup is lost, without exception |
| Wakeup.NextUpdateStateMakesReady | croutine/croutine.h:159-172 | once the publishers are done, the next complete UpdateState makes the waiting routine READY, whatever is interleaved |
| Wakeup.WokenRoutineFetches | scheduler/processor.cpp:30-42 | the woken routine, left alone, is resumed and fetches the message its cursor asks for |
| Wakeup.UpdateStateDecides | croutine/croutine.h:159-172 | an undisturbed UpdateState makes ready exactly a sleeper whose wake time has passed or a waiting routine whose flag is clear; a ready one is then switched to, another is given back as it was |
| Wakeup.NotifyDecides | scheduler/policy/scheduler_classic.cpp:182-201 | an undisturbed NotifyProcessor clears the flag exactly of a routine that waits for data or I/O |
| Wakeup.SleepsUntilDue | croutine/croutine.h:159-164 | a sleeping routine is not made ready or run before its wake time, whatever publishers and processors do |
| Wakeup.StuckWithoutPublishers | scheduler/policy/scheduler_classic.cpp:182-201 | a waiting routine with a set flag stays so until some publisher acts |
| Wakeup.MissedBeforeRegistration | scheduler/scheduler.cpp:43-53 | a run in which a message published before the callback is registered wakes nobody |
| Scheduler.AtMostOneHolder | croutine/croutine.h:178-184 | a routine is between Acquire and Release on at most one processor or remover |
| Scheduler.RegistryMatchesQueues | scheduler/policy/scheduler_classic.cpp:133-180 | between operations on an id, a routine is queued exactly when it is registered, in one queue, once, with priority below MAX_PRIO |
| Scheduler.NeverResumedAfterRemoval | scheduler/policy/scheduler_classic.cpp:212-239 | after RemoveCRoutine returned true for a routine nobody is inside it or ever resumes it again |
| Scheduler.RemovalFailsOnlyIfAbsent | scheduler/policy/classic_context.cpp:83-108 | removal answers false exactly when the id was not registered when it looked: the queue search never misses |
| Scanning.NothingFoundMeansAllTurnedDown | scheduler/policy/classic_context.cpp:38-57 | in every run a scan that finds nothing has visited every priority of its group under the queue's lock and found each member held or not ready |
| Scanning.FoundIsFirstReady | scheduler/policy/classic_context.cpp:38-57 | a scan that finds a routine has turned down every member of the queues above and all before it in its own |
| Scanning.ReadyRoutineIsNotMissed | scheduler/policy/classic_context.cpp:38-57 | while some routine of the group stays free and ready no scan ends without one |
| Scanning.ScanAlone | scheduler/policy/classic_context.cpp:38-57 | an undisturbed scan ends and returns exactly the first free and ready routine by falling priority and in queue order |
| Scanning.ScanAdvances | scheduler/policy/classic_context.cpp:43-55 | a scan never looks at the same place twice |
| Scanning.FoundIsResumed | scheduler/processor.cpp:30-42 | a processor enters the routine it was given before giving it back, unless it has been stopped, and then its lock is free |
| Placement.QueuedWhereConfigured | scheduler/policy/scheduler_classic.cpp:155-176 | in every run a routine is only in the queue of its configured or the default group, at its configured or own priority, lowered to 19 if higher |
| Placement.OrderIsKept | scheduler/policy/scheduler_classic.cpp:170-176 | of two routines that stay in a queue the first stays first |
| Placement.DispatchAnswers | scheduler/policy/scheduler_classic.cpp:133-180 | dispatch answers false exactly when the id is registered when it looks; true means registered and last in its queue |
| Placement.CallsAdvance | scheduler/policy/scheduler_classic.cpp:133-239 | every step of a dispatch or removal brings it nearer to its end, except while it waits for the routine's release |
| Ring.CacheBuffer.constructor | data/cache_buffer.h:20-23 | an empty ring of one more slot than its size |
| Ring.CacheBuffer.Fill | data/cache_buffer.h:52-65 | appends to the unbounded history the ring stands for; with a fusion callback set, passes the value on and changes nothing |
| Ring.CacheBuffer.HoldsNewest | data/cache_buffer.h:34-45 | the ring holds exactly the newest min(size, total) values, each at its own position |
| Ring.ChannelBuffer.Fetch | data/channel_buffer.h:42-63 | fetches the history's value at the cursor, the newest on a first fetch or after an overrun, nothing when caught up |
| Ring.ChannelBuffer.Latest | data/channel_buffer.h:65-74 | the newest value, if any |
| Ring.ChannelBuffer.FetchMulti | data/channel_buffer.h:77-92 | the newest min(size, wanted) values, oldest first |
| Ring.DataVisitor.TryFetch | data/data_visitor.h:167-173 | one fetch step of the reader's view of the history |
| Ring.DataVisitor.Receive | data/data_dispatcher.h:64-70 | an arriving message is appended to the history the reader sees |
| Ring.ReaderSafety | data/data_visitor.h:167-173 | under any interleaving of fills and fetches the cursor stays within the newest position plus one, deliveries strictly increase and match the history, and delivered plus dropped is the span covered |
| Ring.SkipsOnlyWhenOverrun | data/channel_buffer.h:54-60 | messages are skipped exactly when the next one has left the ring, and then the newest is delivered |
| Ring.FetchAnswers | data/channel_buffer.h:42-63 | what a fetch adds to the deliveries: nothing exactly if there is nothing new, the newest on the first fetch or after an overrun, else the next |
| Ring.NoDropWhenKeepingUp | data/channel_buffer.h:42-63 | a reader never more than the ring's size behind loses nothing |
| Fusion.AllLatest.constructor | data/all_latest.h:127-145 | sets the callback on rings that may have received anything since they were registered; the fused ring is empty and has the primary ring's size |
| Fusion.EarlyArrivalsExist | data/data_visitor.h:125-128 | whatever the rings hold by then is explained by some arrivals |
| Fusion.AllLatest.FillPrimary | data/all_latest.h:134-144 | a primary arrival extends the fold of arrivals the fused ring stands for, and leaves the primary ring as it is |
| Fusion.AllLatest.FillSecondary | data/cache_buffer.h:52-65 | a secondary arrival goes to its own ring only |
| Fusion.AllLatest.Fuse | data/all_latest.h:147-156 | the reader sees the fold of all arrivals through the ring's window |
| Fusion.AllLatest.PrimaryRingKeepsEarlyValues | data/cache_buffer.h:52-55 | the primary channel's own ring holds exactly the newest of what arrived before the callback was set, for good; it stays empty if nothing had |
| Fusion.FoldStartsFromEarlyValues | data/data_visitor.h:125-128 | early secondary values count for the fold, early primary values never do |
| Fusion.EmitsOncePerPrimary | data/all_latest.h:89-100 | once the callback is set and every secondary has a value, each primary arrival emits exactly one tuple, in order |
| Fusion.TupleIsSnapshot | data/all_latest.h:89-100 | every tuple carries one primary arrival and, from each secondary channel, the newest value that arrived before it; tuples are in the order of those arrivals |
| Fusion.NothingBeforeAllHeard | data/all_latest.h:92-96 | nothing is emitted while some secondary has no value |
| Notifier.EveryNotificationOnce | transport/shm/condition_notifier.cpp:39-94 | such a listener receives every notification once, in ticket order, with its own info |
| Notifier.QuietPollDelivers | transport/shm/condition_notifier.cpp:66-81 | with no Notify under way, the next poll delivers the oldest outstanding ticket |
| Notifier.PollDecides | transport/shm/condition_notifier.cpp:55-96 | however far behind, an undisturbed poll delivers its slot's number and info if that number is not below the cursor, and goes on after it |
| Notifier.FirstTicketCanBeStale | transport/shm/condition_notifier.cpp:72-81 | from every attach at ticket 0 and for any notifier, a run in which the listener is handed a slot nobody wrote |
| Notifier.SureExactlyFromTicketOne | transport/shm/condition_notifier.cpp:39-94 | a listener is sure to receive every notification once, in order and with its own info, exactly when a ticket was taken before it attached |
| Notifier.Indicator.Notify | transport/shm/condition_notifier.cpp:45-50 | appends to the history the ring stands for |
| Notifier.Listener.Listen | transport/shm/condition_notifier.cpp:55-96 | delivered tickets strictly increase and match their info; an overrun listener gets one of the newest kBufLength tickets |
| Topology.KeysWithoutUnderscore | discovery/container/graph.cpp:76 | edge keys are injective when node names hold no underscore |
| Topology.ChangeAgreesExactlyWhenDistinct | discovery/container/graph.cpp:86-126 | one insert keeps the list equal to the join of writers and readers exactly when no writer gets two edges under one key; a delete always does |
| Topology.HistoryAgreesExactlyWhenDistinct | discovery/container/graph.cpp:86-126 | along a whole history the list is the join exactly when keys never clash |
| Topology.IndexIsTheJoin | discovery/container/graph.cpp:157-285 | with such node names, u leads to w over c exactly when the last words of u as writer and of w as reader of c were joins |
| Topology.InvalidEdgesAreIgnored | discovery/container/graph.cpp:86-112 | an edge without a channel, or with neither end, changes nothing |
| Topology.EdgesAreLastWords | discovery/container/graph.cpp:184-285 | a node is in a channel's writer or reader set exactly when its last announcement in that role was a join |
| Topology.SameEdgesSameEntries | discovery/container/graph.cpp:157-285 | the list depends on the edges only, not on the order of joins and leaves |
| Topology.CollidingNamesLoseAnEdge | discovery/container/graph.cpp:76 | four joins with ambiguous names after which the list is not the join |
| Topology.CountIsJoinSize | discovery/container/graph.cpp:129-136 | the number of list entries is the sum over channels of writers times readers |
| Topology.CountAlongHistory | discovery/container/graph.cpp:129-136 | so it is along every history without clashing keys |
| Topology.HopsAreChannels | discovery/container/graph.cpp:302-304 | one hop of the search is one channel that the first vertex writes and the second reads |
| GraphIndex.Graph.constructor | discovery/container/graph.cpp:79 | an empty graph |
| GraphIndex.Graph.Insert | discovery/container/graph.cpp:86-106 | the object follows the specified insertion, incomplete edges and duplicates included |
| GraphIndex.Graph.Delete | discovery/container/graph.cpp:108-126 | the object follows the specified deletion |
| GraphIndex.Graph.InsertCompleteEdge | discovery/container/graph.cpp:157-175 | links one writer to one reader and makes both vertices known |
| GraphIndex.Graph.DeleteCompleteEdge | discovery/container/graph.cpp:178-181 | unlinks one writer from one reader |
| GraphIndex.Graph.InsertOutgoingEdge | discovery/container/graph.cpp:213-237 | a new writer is linked to all readers of its channel |
| GraphIndex.Graph.InsertIncomingEdge | discovery/container/graph.cpp:184-210 | a new reader is linked to all writers of its channel |
| GraphIndex.Graph.DeleteOutgoingEdge | discovery/container/graph.cpp:240-262 | a leaving writer is unlinked from all readers of its channel |
| GraphIndex.Graph.DeleteIncomingEdge | discovery/container/graph.cpp:265-285 | a leaving reader is unlinked from all writers of its channel |
| GraphIndex.Graph.GetNumOfEdge | discovery/container/graph.cpp:129-136 | counts the writer-reader pairs, modulo 2^32 |
| GraphIndex.Graph.LevelTraverse | discovery/container/graph.cpp:289-309 | terminates on every graph, answers true exactly for reflexive-transitive reachability, and adds no vertex from a known start |
| GraphIndex.Graph.GetDirectionOf | discovery/container/graph.cpp:139-154 | upstream, downstream or unreachable as the path relation says; changes nothing |
| Bytes.SameOnEveryHost | serialize/data_stream.cpp:191-241 | the bytes written for an integer are the same on both host byte orders |
| Bytes.ReadOnEveryHost | serialize/data_stream.cpp:329-399 | the integer read from given bytes is the same on both host byte orders |
| Bytes.HostOrder | serialize/data_stream.cpp:59-72 | the probe finds the host's byte order |
| Bytes.SignedRoundTrip | serialize/data_stream.cpp:329-345 | two's complement of a width keeps every number of that width |
| Bytes.ByteAt | serialize/data_stream.cpp:191-241 | byte k of an integer is its digit of weight 256^k |
| DataStream.RoundTrip | serialize/data_stream.h:193-373 | reading the bytes of any well-formed value of a type, nested at will and followed by anything, answers true, gives the value whatever the variable held, and leaves what follows |
| DataStream.WireIsPrefixFree | serialize/data_stream.cpp:191-285 | bytes determine the value: no value's bytes start another's of the same type |
| DataStream.FirstByte | serialize/data_stream.h:28-45 | every value begins with the number the enumeration gives its type |
| DataStream.ForeignIsRefused | serialize/data_stream.h:275-373 | reading a value as a type of another kind answers false and consumes nothing, a struct's one byte aside; a container is left empty, any other variable as it was |
| DataStream.SameKindIsAccepted | serialize/data_stream.cpp:305-457 | a value is accepted exactly by the types of its kind, integer and enum being one |
| DataStream.ForeignElements | serialize/data_stream.h:300-317 | a list read with another kind of element answers true with as many unread elements, and their bytes are left |
| DataStream.NegativeLength | serialize/data_stream.cpp:437-452 | a string with a negative length is refused behind its length and keeps what it held |
| DataStream.MapExample | serialize/data_stream.h:239-252 | the bytes of a small map: tag, length, key before value |
| DataStream.StructExample | serialize/serializable.h:19-24 | the bytes of a small struct: its tag and its fields in order |
| DataStream.AscendingInsertedAll | serialize/data_stream.h:343-359 | inserting a set's elements in iteration order rebuilds the set |
| DataStream.AscendingAssignedAll | serialize/data_stream.h:320-340 | assigning a map's entries in iteration order rebuilds the map |
| DataStream.SetHoldsWhatWasRead | serialize/data_stream.h:343-359 | a set read from elements in any order and number holds exactly them, each once and in order |
| DataStream.MapHoldsLastValues | serialize/data_stream.h:320-340 | a map read from entries in any order holds each key once, in order, with the last value read for it |
| StreamBuffer.Stream.constructor | serialize/data_stream.cpp:25-31 | a stream over received bytes, positioned at the start, knowing its host's order |
| StreamBuffer.Stream.Write | serialize/data_stream.h:193-273 | appends exactly the value's wire form, on every host |
| StreamBuffer.Stream.WriteInteger | serialize/data_stream.cpp:191-241 | appends the tag and the little-endian bytes |
| StreamBuffer.Stream.WriteArgs | serialize/serializable.h:19-24 | appends the fields in the listed order |
| StreamBuffer.Stream.ReadInteger | serialize/data_stream.cpp:329-399 | reads the integer at the position and advances by its width |
| StreamBuffer.Stream.Read | serialize/data_stream.cpp:305-457 | reads a variable at the position: a foreign tag is reported, leaves the variable (a container is emptied) and the position, except that a struct has moved; otherwise reads the value past which it advances |
| StreamBuffer.Stream.ReadMany | serialize/data_stream.h:300-317 | reads the counted elements one after the other, whatever each read answers; none for a negative count |
| StreamBuffer.Stream.ReadEntries | serialize/data_stream.h:320-340 | reads the counted keys and values one after the other, whatever each read answers |
| StreamBuffer.Stream.ReadArgs | serialize/serializable.h:26-36 | reads the fields in the listed order into the struct's own, whatever each read answers |
| StreamBuffer.AcrossHosts | serialize/data_stream.h:193-373 | what one host writes another reads back, advancing by exactly the bytes written, whatever their byte orders |
| Segment.CeilingIsLeast | transport/shm/shm_conf.cpp:51-67 | up to the largest class the chosen class is the least that holds the message |
| Segment.OpenerAgrees | transport/shm/shm_conf.cpp:42-99 | rounding up again changes nothing, and every class has a number of blocks that divides 2^32 |
| Segment.BlocksOfClasses | transport/shm/shm_conf.cpp:42-99 | how many blocks each message size gets, and the size of the whole segment |
| Segment.ShmConf.Update | transport/shm/shm_conf.cpp:42-49 | the four sizes of a class are set together |
| Segment.LayoutIsDisjoint | transport/shm/xsi_segment.cpp:58-90 | state, block headers and buffers are pairwise disjoint and inside the segment |
| Segment.MessageAndTrailerFit | transport/transmitter/shm_transmitter.h:109-123 | message and 24-byte trailer fit the class's buffer exactly up to 32 MB + 1000 bytes |
| Segment.EveryBlockIsTried | transport/shm/segment.cpp:145-158 | as many consecutive sequence numbers as blocks try every block once, across the 32-bit wrap |
| Segment.UnevenBlocksAreSkipped | transport/shm/segment.cpp:150 | three blocks would not be tried evenly at the wrap |
| Segment.Blocks.TryLockForWrite | transport/shm/block.cpp:18-29 | takes the block exactly if it is free and the weak swap does not fail without cause |
| Segment.Blocks.GetNextWritableBlockIndex | transport/shm/segment.cpp:145-158 | without interference finds the first block in cyclic order that is free and whose swap does not fail without cause, within as many tries as there are blocks once such failures stop, and locks just that one |
| Segment.Writer.AcquireBlockToWrite | transport/shm/segment.cpp:19-50 | a free block of a class that holds the message, in a new segment if the old class is too small |
| RefCount.ClosingCountsOnce | transport/shm/state.h:21-32 | the count never goes below zero and each close lowers it by exactly one |
| RefCount.ClosingAlone | transport/shm/state.h:21-32 | a process that closes, left alone, has counted itself out after at most two steps |
| Names.Registry.constructor | common/global_data.cpp:149-152 | an empty table |
| Names.Registry.Register | common/global_data.cpp:149-170 | ends while an id is free; a known name gets its id again, a new one the first free id from its hash on |
| Names.Registry.NameOf | common/global_data.cpp:195-203 | the name under an id, or the empty name |
| Names.RegistrationKeepsProbing | common/global_data.cpp:153-163 | every id from a name's hash up to its own stays taken, and no name has two ids |
| Names.IdsIdentifyNames | common/global_data.cpp:149-228 | in every history, for every hash, equal ids are equal names and looking up an id gives its name from then on |
| JsonText.ReplaceSubstring | thirdparty/nlohmann/detail/string_escape.hpp:31-41 | every occurrence is replaced from the left, replaced text is not searched again |
| JsonText.Escape | thirdparty/nlohmann/detail/string_escape.hpp:50-56 | escapes tildes, then slashes |
| JsonText.Unescape | thirdparty/nlohmann/detail/string_escape.hpp:65-70 | unescapes slashes, then tildes |
| JsonText.UnescapeEscape | thirdparty/nlohmann/detail/string_escape.hpp:50-70 | unescaping undoes escaping for every string, and escaped text is a valid token |
| JsonText.EscapeUnescape | thirdparty/nlohmann/detail/string_escape.hpp:50-70 | escaping undoes unescaping for every token that can stand in a pointer |
| JsonText.ToString | thirdparty/nlohmann/detail/json_pointer.hpp:68-76 | the text of a pointer |
| JsonText.CheckEscapes | thirdparty/nlohmann/detail/json_pointer.hpp:702-717 | accepts a token exactly if every tilde starts an escape |
| JsonText.SplitPointer | thirdparty/nlohmann/detail/json_pointer.hpp:666-724 | the tokens of a pointer text, or error 107 or 108 |
| JsonText.SplitOfJoin | thirdparty/nlohmann/detail/json_pointer.hpp:68-76 | every list of tokens survives being written and read |
| JsonText.JoinOfSplit | thirdparty/nlohmann/detail/json_pointer.hpp:666-724 | every accepted text is the text of its tokens |
| JsonText.IndexOfDecimal | thirdparty/nlohmann/detail/json_pointer.hpp:214-249 | the decimal text of an index below the maximal size is read back as that index |
| JsonText.DecimalOfIndex | thirdparty/nlohmann/detail/json_pointer.hpp:214-249 | each index has one accepted spelling |
| JsonText.IndexErrorNumbers | thirdparty/nlohmann/detail/json_pointer.hpp:214-249 | which tokens are refused as an index, and with which number |
| JsonText.PointerErrorNumbers | thirdparty/nlohmann/detail/json_pointer.hpp:666-724 | which texts are refused as a pointer: error 107 without the first slash, 108 for a tilde that starts no escape |
| Json.SameIsEqual | thirdparty/nlohmann/json.hpp:3636-3643 | where no numbers compare equal across signedness the library's equality is equality |
| Json.PlainIsClear | thirdparty/nlohmann/json.hpp:3636-3643 | numbers as a parser makes them, below 2^63, never do |
| Json.AtOfPut | thirdparty/nlohmann/detail/json_pointer.hpp:422-464 | what is put at a pointer is found there, and nothing else decides it |
| Json.AtLonger | thirdparty/nlohmann/detail/json_pointer.hpp:422-464 | resolving one more token is one more step down, with the same error otherwise |
| Json.ApplyInTurn | thirdparty/nlohmann/json.hpp:4838-4963 | a patch applies its operations in turn and stops at the first that throws |
| Json.FailureChangesNothing | thirdparty/nlohmann/json.hpp:4881-4962 | an operation that throws leaves the document as it was, unless it is a move |
| Json.FailedMoveLosesTheValue | thirdparty/nlohmann/json.hpp:4902-4917 | a move that throws has changed the document exactly when the value to move was there |
| Json.FailedMoveExample | thirdparty/nlohmann/json.hpp:4902-4917 | moving a member under a missing parent throws and loses the member |
| Json.FoundCanBeRemoved | thirdparty/nlohmann/json.hpp:4804-4830 | whatever can be found below the root can be removed |
| Json.RemoveSucceedsExactly | thirdparty/nlohmann/json.hpp:4804-4830 | a remove succeeds exactly when its target is there, or when it does nothing because the parent is neither an object nor an array |
| Json.RemoveBelowNullExample | thirdparty/nlohmann/json.hpp:4804-4830 | removing a member of null succeeds and changes nothing |
| Json.Document.PatchInPlace | thirdparty/nlohmann/json.hpp:4699-4965 | applies the operations in turn; those before the one that throws stay applied |
| Json.Document.Patch | thirdparty/nlohmann/json.hpp:4970-4975 | the patched copy, or the exception |
| JsonEffect.AddExactly | thirdparty/nlohmann/json.hpp:4739-4802 | an addition succeeds with a document exactly if the parent there has the value inserted at the index, appended, or set as the member, and all else is as before |
| JsonEffect.RemoveExactly | thirdparty/nlohmann/json.hpp:4804-4830 | a removal succeeds with a document exactly if inserting the element there again would give the old array, or the member alone is gone, or a primitive parent is left as it is |
| JsonEffect.AddedIsFound | thirdparty/nlohmann/json.hpp:4739-4802 | an added value is found at its path, "-" standing for the old length |
| JsonEffect.RemoveUndoesAdd | thirdparty/nlohmann/json.hpp:4739-4830 | removing an inserted element or a new member gives the old document back |
| JsonEffect.PutElsewhere | thirdparty/nlohmann/detail/json_pointer.hpp:422-464 | a change at one path is not seen on a path that parts from it |
| JsonEffect.MoveExactly | thirdparty/nlohmann/json.hpp:4902-4917 | a move takes the value away and adds it at the other path in what is left |
| JsonEffect.CopyExactly | thirdparty/nlohmann/json.hpp:4919-4931 | a copy adds the value found at the other path |
| JsonEffect.ItemExactly | thirdparty/nlohmann/json.hpp:4838-4962 | an item succeeds with a document exactly if what it asks for distinguishes that document from the old one; a test exactly if the value found compares equal |
| JsonEffect.PatchExactly | thirdparty/nlohmann/json.hpp:4838-4965 | a patch succeeds with a document exactly if doing its items in turn leads there |
| JsonEffect.LookupNumbers | thirdparty/nlohmann/detail/json_pointer.hpp:422-464 | why a step down a path fails, by number |
| JsonEffect.FirstFault | thirdparty/nlohmann/json.hpp:4739-4958 | a path that cannot be followed is reported first, by a test as a failed test |
| JsonEffect.ErrorNumbers | thirdparty/nlohmann/json.hpp:4739-4962 | the numbers of the other exceptions |
| JsonDiff.Diff | thirdparty/nlohmann/json.hpp:4980-5110 | applied to any document that holds the source at the path, the patch puts the target there and changes nothing else, without meeting a missing path; it is empty exactly when the two compare equal |
| JsonDiff.DiffElements | thirdparty/nlohmann/json.hpp:5006-5014 | the common elements are turned into the target's one after the other |
| JsonDiff.RemoveRest | thirdparty/nlohmann/json.hpp:5019-5031 | the reversed removals cut the array to the common length |
| JsonDiff.AppendRest | thirdparty/nlohmann/json.hpp:5033-5043 | the additions at the end append the target's further elements |
| JsonDiff.DiffMembers | thirdparty/nlohmann/json.hpp:5050-5070 | the source's members are turned into the target's or removed, in any order |
| JsonDiff.AddMembers | thirdparty/nlohmann/json.hpp:5072-5086 | the target's further members are added, in any order |
| JsonDiff.MergedIsSame | thirdparty/nlohmann/json.hpp:4986-5000 | the result of patching compares equal to the target |
| JsonDiff.MergedIsTargetExactlyWhenClear | thirdparty/nlohmann/json.hpp:4986-5000 | the result is the target itself exactly when no two numbers in the same place compare equal across signedness |
| JsonDiff.WrappedNumberIsKept | thirdparty/nlohmann/json.hpp:3636-3643 | -1 and 2^64 - 1 compare equal, so their difference leaves -1 |
| JsonDiff.PatchWithDiff | thirdparty/nlohmann/json.hpp:4970-5110 | patching the source with the difference gives a value equal to the target, and the target itself under the same exact condition |

## Left out

- Weak memory orders, overflow of 64-bit counters, deletion of replaced values and entries: the step machines use sequentially consistent atomics, unbounded counters and no reclamation.
- fast-RTPS, sockets, shared-memory system calls, class loading, logging, configuration files, thread pinning, clocks: I/O and foreign calls. A timeout or an expired sleep is a choice of the environment.
- Context switching: resuming a routine runs it until its next yield.
- Creation of an id's mutex on first use: `Scheduler` takes the mutexes as given. Its reader-writer locks and mutexes are conditions on when a step may happen; the lock itself is proved in `RwLock`.
- The stop flags of scheduler, context and processor, and group counters of `Wait` and `Notify`: they only make processors idle.
- RwLock.WritersGoFirst: says nothing about a lock made with write-first off, where readers can starve a writer.
- The wait-strategy variants of the bounded queue: loops around the two modelled operations.
- `AtomicHashMap::Set` without a value, which stores a default value the same way.
- The four-channel visitor, which has the same shape as the modelled ones for two and three channels.
- The warning that a channel buffer logs about dropped messages.
- Concurrent use of one graph: its methods run under one lock. Role warehouses and the channel manager, which feed it, are not part of this model.
- StreamBuffer.Stream.Read: where the source reads past its buffer, uses a length whose tag was foreign, or asks for a vector of negative size, nothing is stated. A variable that nothing has been read into holds an arbitrary value of the model's choosing.
- Floats and doubles, and vectors of elements wider than a byte, of which the source copies only as many bytes as there are elements.
- DataStream.RoundTrip: containers of 2^31 or more elements, whose length does not fit the written integer, are excluded.
- Segment.Writer.AcquireBlockToWrite: does not model the remapping of a segment that another process has replaced, nor the system calls that can make it answer false.
- Races between removing and opening a segment.
- Names.Registry.Register: two registrations at the same time are not modelled; the source takes no lock around them.
- JsonDiff.Diff: arrays of 2^64 - 1 elements or more, whose indices cannot be read back, are excluded; floating-point, binary and discarded values are not modelled. The order of object members is left open, so the result holds for the library's sorted order.
- Json.Document.PatchInPlace: a patch that is part of the document it patches is not modelled. The assertion about a primitive parent is an exception of its own (number 0). Where C++ leaves an order of evaluation open, one is fixed: a replace looks its value up before its path, as C++17 prescribes, a test its path before its value; this decides which of two errors is thrown when both are due.
- The rest of nlohmann: parsing, serialization, flattening, merge patches.
