# Proofs about the C and C++ cores carried by the repository

A Dafny model of five components that the application's pods bring along, and proofs of what they promise. Everything is
stated for all inputs, all runs or all reachable states.

- **LevelDB's `DBIter`** (`SortedMap.dfy`, `DbIter.dfy`). A multi-version stream, sorted by key and falling sequence, is
  turned into a cursor over the keys live at one snapshot. The reference is a map and a cursor that moves to the least
  key above, the greatest below, and so on. The class has the source's fields, and its scan loops are proved to move the
  way the reference cursor does, whatever moves a client makes and however it changes direction.
- **libuv's thread pool** (`Queue.dfy`, `QueueSet.dfy`, `ThreadPool.dfy`, `ThreadPoolRequests.dfy`,
  `ThreadPoolOrder.dfy`, `ThreadPoolProgress.dfy`, `ThreadPoolView.dfy`,
  `ThreadPoolDrain.dfy`, `ThreadPoolCode.dfy`). One step per critical section, with sleeping and woken workers told apart and spurious wakeups
  allowed. Invariants of every step give conservation of requests, no lost wakeup, the bound on slow work, first come
  first served, exactly when a cancel succeeds, and a measure by which the pool comes to rest. The code works on linked
  nodes: the queues, the slow marker and one node in each request; whether something is empty, queued or executing is
  computed from links, and every run of the protocol is a run of that code.
- **libuv's heap and timers** (`Heap.dfy`, `Timers.dfy`, `TimerHistory.dfy`, `TimerLoop.dfy`). The pointer heap is a complete
  tree navigated by the bits of slot numbers; the timers on top of it refine a specification over a map of handles,
  about which whole histories of the loop are proved.
- **Punycode and IP addresses** (`PunycodeSpec.dfy`, `PunycodeSample.dfy`, `Punycode.dfy`, `Inet4.dfy`, `Inet6Text.dfy`,
  `Inet6.dfy`, `Inet6Shape.dfy`). The encoder is proved against the decoder of section 6.2 of RFC 3492, which the library
  does not contain. The IPv6 parser is proved to accept exactly the texts of section 2.2 of RFC 4291 and to undo the
  printer, whose texts are described from the bytes of the address as sections 4 and 5 of RFC 5952 do.
- **nanopb** (`Varint.dfy`, `FieldIter.dfy`, `Layout.dfy`, `Message.dfy`, `RoundTrip.dfy`, `WireFormat.dfy`,
  `Readers.dfy`, `RepeatedForms.dfy`, `Merging.dfy`, `Capacity.dfy`, `ProtoEncode.dfy`, `ProtoDecode.dfy`,
  `ProtoRoundTrip.dfy`). `Message.dfy` gives the encoding and the decoder as functions of a descriptor tree;
  `RoundTrip.dfy` proves that one undoes the other, and the files after it what the wire format promises
  beyond that: to readers with another descriptor, for every form of an array, for messages in parts, and on arbitrary
  bytes. The stream classes are proved to compute these functions.

Four findings are kept as theorems rather than assumed away:

- Lengths are written with 64 bits and read with 32, and a string may be written without a terminator where reading one
  needs room for it. So a message whose nested lengths reach 2^32, or with a string that fills its array, encodes and
  does not decode. `RoundTrip.MessageRoundTrip` gives the exact condition, `RoundTrip.LongSubmessage` and
  `RoundTrip.FullString` the failing inputs.
- The 32-bit varint decoder keeps its bit position in eight bits. It reads every accepted varint of n bytes right if and
  only if n is at most 37 (`Varint.RightExactlyUpTo37`, `Varint.BitPositionWraps`).
- `inet_ntop6` reports success for an empty buffer although it writes nothing, as its copy routine does not call that a
  truncation (`Inet6.Ntop6`). Its case for a run of seven zero words is in the model (`Inet6.FormatWords`) and proved
  never to be taken, since word 6 is then inside the run.
- `uv__run_timers` does not come to an end when the clock stands at 2^64 - 1 and a timer repeats;
  `Timers.RunEndsExactlyWhen` gives the exact condition.

`dafny verify dfyconfig.toml` checks the whole project.

## Model

| member | source | states |
|---|---|---|
| DbIter.Iterator.Drive | InStaCloneSnapKit/Pods/leveldb-library/db/db_iter.cc:141-299 | any sequence of Seek, SeekToFirst, SeekToLast, Next and Prev, with any changes of direction, shows exactly what a cursor over the sorted map of live keys shows |
| DbIter.Iterator.constructor | InStaCloneSnapKit/Pods/leveldb-library/db/db_iter.cc:48-57 | a new iterator is not valid and satisfies the position invariant |
| DbIter.Iterator.Next | InStaCloneSnapKit/Pods/leveldb-library/db/db_iter.cc:141-166 | moves to the least live key above the current one, also right after a reverse move, or becomes invalid if there is none; the position invariant is kept |
| DbIter.Iterator.FindNextUserEntry | InStaCloneSnapKit/Pods/leveldb-library/db/db_iter.cc:168-198 | finds the least live key of those still ahead, past the key being skipped, and stands at its newest visible entry |
| DbIter.Iterator.SkipNeverFalls | InStaCloneSnapKit/Pods/leveldb-library/db/db_iter.cc:172-193 | a visible entry met while scanning forward is never below the key being skipped, so a deletion never lowers that key |
| DbIter.Iterator.Prev | InStaCloneSnapKit/Pods/leveldb-library/db/db_iter.cc:200-225 | moves to the greatest live key below the current one, also right after a forward move; the position invariant is kept |
| DbIter.Iterator.FindPrevUserEntry | InStaCloneSnapKit/Pods/leveldb-library/db/db_iter.cc:227-267 | finds the greatest live key of those still behind, saves its key and newest visible value, and stops before all its entries |
| DbIter.Iterator.Seek | InStaCloneSnapKit/Pods/leveldb-library/db/db_iter.cc:269-281 | moves to the least live key not below the target |
| DbIter.Iterator.SeekToFirst | InStaCloneSnapKit/Pods/leveldb-library/db/db_iter.cc:283-292 | moves to the least live key |
| DbIter.Iterator.SeekToLast | InStaCloneSnapKit/Pods/leveldb-library/db/db_iter.cc:294-299 | moves to the greatest live key |
| DbIter.Iterator.Get | InStaCloneSnapKit/Pods/leveldb-library/db/db_iter.cc:64-71 | key and value are the current key and its value in the map of live keys, in both directions |
| DbIter.LiveIsFirstVisible | InStaCloneSnapKit/Pods/leveldb-library/db/dbformat.cc:51-67 | in a stream sorted by key and then by falling sequence, the entry that decides a key is the first one the snapshot can see |
| DbIter.Iterator.ThereAndBack | InStaCloneSnapKit/Pods/leveldb-library/db/db_iter.cc:141-225 | Next and then Prev, or Prev and then Next, come back to the same live key through both changes of direction; if the first step leaves the map the iterator is not valid |
| ThreadPool.StepInSync | InStaCloneSnapKit/Pods/Libuv-gRPC/src/threadpool.c:57-160 | every critical section keeps the balance of idle threads, signalled threads, queued items, the slow marker and the slow counter |
| ThreadPool.RunInSync | InStaCloneSnapKit/Pods/Libuv-gRPC/src/threadpool.c:57-160 | the same over every run |
| ThreadPool.NoLostWakeup | InStaCloneSnapKit/Pods/Libuv-gRPC/src/threadpool.c:71-85 | in every run, while a worker sleeps unsignalled every runnable item is covered by a worker already woken; so all workers are asleep only if the wait condition holds |
| ThreadPool.SlowWorkSafe | InStaCloneSnapKit/Pods/Libuv-gRPC/src/threadpool.c:87-117 | in every run pending slow work has its marker in the queue, the marker is linked at most once and self-linked exactly otherwise, and the slow counter equals the workers holding slow work, at most (nthreads + 1) / 2 |
| ThreadPoolRequests.StepConserves | InStaCloneSnapKit/Pods/Libuv-gRPC/src/threadpool.c:80-129 | every step keeps each request in exactly one place with a consistent status |
| ThreadPoolRequests.NeverLostNeverTwice | InStaCloneSnapKit/Pods/Libuv-gRPC/src/threadpool.c:80-129 | in every run each submitted request is in exactly one place, once |
| ThreadPoolRequests.DoneOnceAndTruthful | InStaCloneSnapKit/Pods/Libuv-gRPC/src/threadpool.c:269-315 | in every run done is called at most once for a request, with UV_ECANCELED exactly when a cancel returned 0, which is exactly when its work never ran |
| ThreadPoolRequests.CancelExcludesRunning | InStaCloneSnapKit/Pods/Libuv-gRPC/src/threadpool.c:269-292 | a request whose work has begun cannot be cancelled, and one that was cancelled never runs |
| ThreadPoolOrder.CancelSucceedsExactly | InStaCloneSnapKit/Pods/Libuv-gRPC/src/threadpool.c:269-283 | in every run a cancel of a request that is not finished takes hold of it if and only if its work has not begun, that is if it waits in one of the two queues or was cancelled before; otherwise nothing changes |
| ThreadPoolOrder.LinesMove | InStaCloneSnapKit/Pods/Libuv-gRPC/src/threadpool.c:57-160 | a submitted request goes to the end of the line of its own sort, a worker takes the first of one line as work of that sort, a cancel takes out what it names, and nothing else touches the lines |
| ThreadPoolOrder.InSubmitOrder | InStaCloneSnapKit/Pods/Libuv-gRPC/src/threadpool.c:57-160 | in every run, of two requests of one sort the one submitted second does not begin to run while the first still waits |
| ThreadPoolOrder.StepKeepsOwners | InStaCloneSnapKit/Pods/Libuv-gRPC/src/threadpool.c:57-315 | a request stays known and with its loop |
| ThreadPoolOrder.LoopLineMoves | InStaCloneSnapKit/Pods/Libuv-gRPC/src/threadpool.c:121-129 | finished and cancelled requests join the end of their loop's line, done is called for its first, and taking the queue over leaves the line as it is |
| ThreadPoolRequests.NobodyStuck | InStaCloneSnapKit/Pods/Libuv-gRPC/src/threadpool.c:57-139 | in every run a worker that is not asleep, a cancel in progress and a drain can always take their next step |
| ThreadPoolRequests.StepKept | InStaCloneSnapKit/Pods/Libuv-gRPC/src/threadpool.c:57-315 | what every step keeps, both invariants together |
| ThreadPoolProgress.StepLowers | InStaCloneSnapKit/Pods/Libuv-gRPC/src/threadpool.c:57-315 | every step the pool takes of itself, which leaves out submitting, beginning a cancel and spurious wakeups, lowers one measure |
| ThreadPoolProgress.UnfinishedReady | InStaCloneSnapKit/Pods/Libuv-gRPC/src/threadpool.c:57-315 | while a request is not finished, some such step is enabled |
| ThreadPoolProgress.ComesToRest | InStaCloneSnapKit/Pods/Libuv-gRPC/src/threadpool.c:57-315 | after any run the pool left alone takes a bounded number of steps, and it can take no more exactly when every submitted request is finished and every worker sleeps |
| ThreadPoolCode.Pool.constructor | InStaCloneSnapKit/Pods/Libuv-gRPC/src/threadpool.c:188-232 | queues, marker and counters after init_threads, read off the links, are the start state of the protocol |
| ThreadPoolCode.Pool.Execute | InStaCloneSnapKit/Pods/Libuv-gRPC/src/threadpool.c:57-315 | every run of the protocol is a run of the code on the linked queues, and ends in the state that the protocol says |
| ThreadPoolCode.Pool.Perform | InStaCloneSnapKit/Pods/Libuv-gRPC/src/threadpool.c:57-315 | each action of the protocol is one critical section of the code |
| ThreadPoolCode.Pool.MustSleep | InStaCloneSnapKit/Pods/Libuv-gRPC/src/threadpool.c:71-73 | the wait condition, computed from QUEUE_EMPTY, QUEUE_HEAD and QUEUE_NEXT on the links, is that of the protocol |
| ThreadPoolCode.Pool.MarkerSelfLinked | InStaCloneSnapKit/Pods/Libuv-gRPC/src/threadpool.c:147-152 | QUEUE_EMPTY of the marker, computed from its own link, is the flag of the protocol |
| ThreadPoolCode.Pool.Executing | InStaCloneSnapKit/Pods/Libuv-gRPC/src/threadpool.c:275-276 | QUEUE_EMPTY of a request's node, computed from its own link, is the flag of the protocol |
| ThreadPoolCode.Pool.WorkerSection | InStaCloneSnapKit/Pods/Libuv-gRPC/src/threadpool.c:65-119 | one pass of the worker under the global mutex is one step of the protocol |
| ThreadPoolCode.Pool.WorkerLoop | InStaCloneSnapKit/Pods/Libuv-gRPC/src/threadpool.c:66-117 | the loop to the next request, putting the slow marker back at the tail while the threshold is reached |
| ThreadPoolCode.Pool.PopWork | InStaCloneSnapKit/Pods/Libuv-gRPC/src/threadpool.c:80-90 | the node at the head comes off and is linked to itself; whether it is the marker is told by its address |
| ThreadPoolCode.Pool.RunOneSlow | InStaCloneSnapKit/Pods/Libuv-gRPC/src/threadpool.c:91-117 | takes one slow node off its queue, links the marker again if the slow queue is not empty, and signals if a thread is idle |
| ThreadPoolCode.Pool.PublishSection | InStaCloneSnapKit/Pods/Libuv-gRPC/src/threadpool.c:121-129 | an executing node is in no queue, so linking it in the queue of its loop is one step of the protocol |
| ThreadPoolCode.Pool.WorkSubmit | InStaCloneSnapKit/Pods/Libuv-gRPC/src/threadpool.c:142-160 | post: the node is linked in one of the two queues, the marker only if its own links say that it is in none, and a signal is sent only if a thread is idle |
| ThreadPoolCode.Pool.CancelSection | InStaCloneSnapKit/Pods/Libuv-gRPC/src/threadpool.c:269-283 | returns true exactly if the request's work has not begun, and then one QUEUE_REMOVE has unlinked its node from whichever of the four queues it was in; otherwise UV_EBUSY and nothing changes; decided by the node's own links and the work pointer |
| ThreadPoolCode.Pool.CancelFinish | InStaCloneSnapKit/Pods/Libuv-gRPC/src/threadpool.c:285-291 | the node unlinked by the cancel is still in no queue, so linking it in the queue of its loop is one step of the protocol |
| ThreadPoolCode.Pool.DrainSection | InStaCloneSnapKit/Pods/Libuv-gRPC/src/threadpool.c:302-307 | QUEUE_MOVE of the whole loop queue is one step of the protocol |
| ThreadPoolCode.Pool.WorkDone | InStaCloneSnapKit/Pods/Libuv-gRPC/src/threadpool.c:295-315 | whatever the callbacks and the other threads do after each call, the loop ends by a legal run; every request that was in the queue is finished or, if a callback cancelled it again, back in the queue; with nothing else going on they are done in order |
| ThreadPoolDrain.OthersLoseNone | InStaCloneSnapKit/Pods/Libuv-gRPC/src/threadpool.c:269-315 | no step of a callback or another thread takes a request away from a loop that is draining, or adds one to what is being drained |
| Queue.IsEmpty | InStaCloneSnapKit/Pods/Libuv-gRPC/src/queue.h:39-40 | true exactly for the empty sequence |
| Queue.Head | InStaCloneSnapKit/Pods/Libuv-gRPC/src/queue.h:42-43 | the first node |
| Queue.Init | InStaCloneSnapKit/Pods/Libuv-gRPC/src/queue.h:45-50 | the empty queue |
| Queue.Add | InStaCloneSnapKit/Pods/Libuv-gRPC/src/queue.h:52-59 | appends the nodes of another queue |
| Queue.Split | InStaCloneSnapKit/Pods/Libuv-gRPC/src/queue.h:61-70 | the nodes from a given one on go to the other queue, in order, the rest stay |
| Queue.Move | InStaCloneSnapKit/Pods/Libuv-gRPC/src/queue.h:72-81 | all nodes go to the other queue, in order, and the source is left empty |
| Queue.InsertHead | InStaCloneSnapKit/Pods/Libuv-gRPC/src/queue.h:83-90 | puts a node in front |
| Queue.InsertTail | InStaCloneSnapKit/Pods/Libuv-gRPC/src/queue.h:92-99 | appends a node, touching no other queue |
| Queue.Remove | InStaCloneSnapKit/Pods/Libuv-gRPC/src/queue.h:101-106 | takes just that node out; its own links stay as they were |
| Queue.Requeue | InStaCloneSnapKit/Pods/Libuv-gRPC/src/threadpool.c:277-289 | moving a node from one queue to the tail of a disjoint one changes both exactly so |
| QueueSet.Queues.constructor | InStaCloneSnapKit/Pods/Libuv-gRPC/src/queue.h:45-50 | heads and nodes that are linked to themselves are that many empty queues |
| QueueSet.Queues.Append | InStaCloneSnapKit/Pods/Libuv-gRPC/src/queue.h:92-99 | among any number of queues over one set of nodes, only that queue grows by the node, which is no longer linked to itself |
| QueueSet.Queues.Remove | InStaCloneSnapKit/Pods/Libuv-gRPC/src/queue.h:101-106 | only the queue that holds the node loses it, found through the node's own links; the node is then in no queue and not linked to itself |
| QueueSet.Queues.PopFirst | InStaCloneSnapKit/Pods/Libuv-gRPC/src/threadpool.c:80-84 | the first node comes off its queue and is linked to itself; all other queues stay |
| QueueSet.Queues.MoveAll | InStaCloneSnapKit/Pods/Libuv-gRPC/src/queue.h:72-81 | all nodes of one queue go to an empty one, all other queues stay |
| QueueSet.Queues.SelfLinkedIsFree | InStaCloneSnapKit/Pods/Libuv-gRPC/src/queue.h:39-40 | a node that is linked to itself is in no queue |
| Heap.Heap.constructor | InStaCloneSnapKit/Pods/Libuv-gRPC/src/heap-inl.h:62-65 | the empty heap |
| Heap.Heap.Min | InStaCloneSnapKit/Pods/Libuv-gRPC/src/heap-inl.h:67-70 | null exactly for the empty heap, otherwise a node that no node is less than |
| Heap.Heap.Swap | InStaCloneSnapKit/Pods/Libuv-gRPC/src/heap-inl.h:72-104 | parent and child change places, every other node keeps its slot, and all links agree again |
| Heap.PathTo | InStaCloneSnapKit/Pods/Libuv-gRPC/src/heap-inl.h:119-124 | the bits collected from a slot number lead back to that slot, within an unsigned int |
| Heap.Heap.Descend | InStaCloneSnapKit/Pods/Libuv-gRPC/src/heap-inl.h:126-136 | following the path reaches the place of the slot |
| Heap.Heap.Insert | InStaCloneSnapKit/Pods/Libuv-gRPC/src/heap-inl.h:106-148 | the tree stays complete, linked and in min-order, and gains exactly the new node |
| Heap.Heap.TakeOut | InStaCloneSnapKit/Pods/Libuv-gRPC/src/heap-inl.h:160-214 | the last node of the bottom row takes the place of the removed one |
| Heap.Heap.SiftUp | InStaCloneSnapKit/Pods/Libuv-gRPC/src/heap-inl.h:143-147 | restores min-order above a node and changes nothing about the node set |
| Heap.Heap.SiftDown | InStaCloneSnapKit/Pods/Libuv-gRPC/src/heap-inl.h:216-229 | restores min-order below a node and changes nothing about the node set |
| Heap.Heap.Remove | InStaCloneSnapKit/Pods/Libuv-gRPC/src/heap-inl.h:150-237 | the tree stays complete, linked and in min-order, loses exactly the given node, and at most one of the two sifting loops makes a swap |
| Heap.Heap.Dequeue | InStaCloneSnapKit/Pods/Libuv-gRPC/src/heap-inl.h:239-241 | removes a least node, if there is one |
| Timers.Clamp | InStaCloneSnapKit/Pods/Libuv-gRPC/src/timer.c:78-80 | the deadline is the sum, or 2^64 - 1 if the sum would wrap |
| TimerLoop.LessIsOrder | InStaCloneSnapKit/Pods/Libuv-gRPC/src/timer.c:38-55 | the comparison is a strict weak order, so the heap's guarantees hold for it |
| TimerLoop.Loop.constructor | InStaCloneSnapKit/Pods/Libuv-gRPC/src/timer.c:58-63 | handles that have been initialised are inactive, do not repeat and have no callback |
| TimerLoop.Loop.Start | InStaCloneSnapKit/Pods/Libuv-gRPC/src/timer.c:66-94 | refuses exactly closing handles and missing callbacks; otherwise the timer is active with deadline min(time + timeout, 2^64 - 1), the repeat given and a start id above that of every active timer, and no other handle changes |
| TimerHistory.OneShotFiresOnce | InStaCloneSnapKit/Pods/Libuv-gRPC/src/timer.c:66-171 | over any history of clock readings, runs and operations on other timers, a timer started with repeat 0 is called exactly once, in the first run at a time when its deadline has come, and is active until then and not afterwards |
| TimerLoop.Loop.Stop | InStaCloneSnapKit/Pods/Libuv-gRPC/src/timer.c:97-107 | the timer is inactive and out of the heap, with its other fields as they were; no other handle changes |
| TimerLoop.Loop.Again | InStaCloneSnapKit/Pods/Libuv-gRPC/src/timer.c:110-120 | refuses exactly a timer that never had a callback; a repeating one is started with its repeat for timeout and repeat, and all else is left alone |
| TimerLoop.Loop.NextTimeout | InStaCloneSnapKit/Pods/Libuv-gRPC/src/timer.c:133-151 | computed from the root of the heap, it is the timeout of the specification |
| Timers.NextTimeoutMeans | InStaCloneSnapKit/Pods/Libuv-gRPC/src/timer.c:133-151 | -1 exactly when no timer is active, 0 exactly when some deadline has come, otherwise the time left to the deadline of some timer and to none before it, cut at INT_MAX |
| TimerLoop.Loop.RunTimers | InStaCloneSnapKit/Pods/Libuv-gRPC/src/timer.c:154-171 | on the pointer heap, calls the callbacks and leaves the state as the specification of a run says |
| Timers.RunFiresDue | InStaCloneSnapKit/Pods/Libuv-gRPC/src/timer.c:154-171 | a run fires each timer due at entry exactly once and no other, by deadline and among equal deadlines by start id, restarts the repeating ones at the clamped time, and leaves none due |
| Timers.RunThenBlock | InStaCloneSnapKit/Pods/Libuv-gRPC/src/timer.c:133-171 | after a run the next timeout is not 0 |
| Timers.RunEndsExactlyWhen | InStaCloneSnapKit/Pods/Libuv-gRPC/src/timer.c:154-171 | a run comes to an end exactly when the clock is below 2^64 - 1 or no active timer repeats |
| Timers.DueForEver | InStaCloneSnapKit/Pods/Libuv-gRPC/src/timer.c:154-171 | with the clock at 2^64 - 1 a repeating timer is due again however often timers have fired |
| Punycode.ToAsciiLabel | InStaCloneSnapKit/Pods/Libuv-gRPC/src/idna.c:102-246 | for a label with a non-ASCII code point that is not refused, the text after xn-- decodes, by section 6.2 of RFC 3492, to exactly the label, and is its ASCII code points, a delimiter and digits in lower case; ASCII labels are copied; malformed ones are refused |
| PunycodeSample.Sample | InStaCloneSnapKit/Pods/Libuv-gRPC/src/idna.c:102-246 | the decoder that the encoder is proved against takes fiq228c to U+4E2D U+6587, which fixes the parameters of section 5 of RFC 3492 |
| Punycode.Count | InStaCloneSnapKit/Pods/Libuv-gRPC/src/idna.c:120-131 | counts the ASCII and the other code points; fails exactly on malformed input |
| Punycode.CopyAscii | InStaCloneSnapKit/Pods/Libuv-gRPC/src/idna.c:140-151 | copies the ASCII code points in order |
| Punycode.EncodeRest | InStaCloneSnapKit/Pods/Libuv-gRPC/src/idna.c:166-243 | the digits written, read by the RFC 3492 decoder, rebuild the label; a label small enough for 32 bits is never refused |
| Punycode.EncodeRow | InStaCloneSnapKit/Pods/Libuv-gRPC/src/idna.c:166-243 | each pass of the main loop keeps encoder and decoder in step and lowers todo |
| Punycode.NextPoint | InStaCloneSnapKit/Pods/Libuv-gRPC/src/idna.c:167-172 | the smallest code point not below n |
| Punycode.SkipTo | InStaCloneSnapKit/Pods/Libuv-gRPC/src/idna.c:174-181 | the guarded update is exact, and refused exactly when delta would pass 2^32 - 1 |
| Punycode.GuardExact | InStaCloneSnapKit/Pods/Libuv-gRPC/src/idna.c:174-178 | the division in the guard decides whether the product fits |
| Punycode.Pass | InStaCloneSnapKit/Pods/Libuv-gRPC/src/idna.c:183-239 | a pass over the label leaves delta no larger than its length, because some code point equals n and resets it |
| Punycode.Emit | InStaCloneSnapKit/Pods/Libuv-gRPC/src/idna.c:192-238 | writing delta makes the decoder insert n at its place |
| Punycode.EncodeDelta | InStaCloneSnapKit/Pods/Libuv-gRPC/src/idna.c:192-215 | each division writes one digit that the decoder takes, with a digit value below 36, and none of them is a delimiter |
| Punycode.AdaptBias | InStaCloneSnapKit/Pods/Libuv-gRPC/src/idna.c:220-236 | the new bias is that of section 6.1 of RFC 3492, with no overflow on the way |
| Inet4.Ntop4 | InStaCloneSnapKit/Pods/Libuv-gRPC/src/inet.c:53-64 | on success the buffer holds a text that parses back to the address; it fails exactly when that text does not fit, except that an empty buffer counts as success |
| Inet4.Strscpy | InStaCloneSnapKit/Pods/Libuv-gRPC/src/strscpy.c:4-17 | copies what fits and terminates it, and reports truncation except for an empty buffer |
| Inet4.Pton4 | InStaCloneSnapKit/Pods/Libuv-gRPC/src/inet.c:179-215 | the loop over the characters computes the parser of the specification |
| Inet4.DecimalMeans | InStaCloneSnapKit/Pods/Libuv-gRPC/src/inet.c:53-64 | each byte is written in decimal digits that stand for it, without leading zeros |
| Inet4.RoundTrip | InStaCloneSnapKit/Pods/Libuv-gRPC/src/inet.c:53-64 | parsing the text of an address gives the address |
| Inet4.AcceptsOnlyPrinted | InStaCloneSnapKit/Pods/Libuv-gRPC/src/inet.c:179-215 | the parser accepts nothing but the texts the printer writes |
| Inet6.ReadWords | InStaCloneSnapKit/Pods/Libuv-gRPC/src/inet.c:85-87 | the words are the big-endian pairs of bytes |
| Inet6.FindRun | InStaCloneSnapKit/Pods/Libuv-gRPC/src/inet.c:88-111 | finds the leftmost of the longest runs of at least two zero words, or none if there is no such run (sections 4.2.2 and 4.2.3 of RFC 5952) |
| Inet6.Format | InStaCloneSnapKit/Pods/Libuv-gRPC/src/inet.c:116-142 | writes the text with that run as ::, and the last four bytes in dotted form where the code does; it never leaves its buffer of 46 characters, and the case for a run of seven words is never taken |
| Inet6.Ntop6 | InStaCloneSnapKit/Pods/Libuv-gRPC/src/inet.c:67-147 | on success the buffer holds the one text of the address, which parses back to it; it fails exactly when the text does not fit, except that an empty buffer counts as success |
| Inet6Shape.TextLooksLike | InStaCloneSnapKit/Pods/Libuv-gRPC/src/inet.c:116-142 | told from the bytes: the text ends in dotted form exactly for ::ffff:a.b.c.d and ::a.b.c.d addresses and is then that text; letters are in lower case; no group of several digits begins with a zero (sections 4.1, 4.3 and 5 of RFC 5952) |
| Inet6Shape.GapIsFirstOfLongest | InStaCloneSnapKit/Pods/Libuv-gRPC/src/inet.c:88-142 | the :: of the text stands for the first of the longest runs of at least two zero words, and there is none without such a run |
| Inet6.AnyTextParses | InStaCloneSnapKit/Pods/Libuv-gRPC/src/inet.c:218-302 | whichever run of zero words is written as ::, leading, middle or trailing, the parser gives the address back, with an embedded IPv4 part too |
| Inet6.RoundTrip | InStaCloneSnapKit/Pods/Libuv-gRPC/src/inet.c:67-302 | every address has one text, and parsing it gives the address |
| Inet6.ShiftUp | InStaCloneSnapKit/Pods/Libuv-gRPC/src/inet.c:281-296 | moves the bytes after the :: to the end of the address and leaves zeros between |
| Inet6.Scan | InStaCloneSnapKit/Pods/Libuv-gRPC/src/inet.c:233-275 | the loop over the characters computes the parser of the specification |
| Inet6.Complete | InStaCloneSnapKit/Pods/Libuv-gRPC/src/inet.c:276-301 | the last word, the shift and the length checks |
| Inet6.Pton6 | InStaCloneSnapKit/Pods/Libuv-gRPC/src/inet.c:218-302 | accepts a text exactly when the grammar of section 2.2 of RFC 4291 has a form for it, and gives the 16 bytes that any such form means |
| Inet6Text.Parses | InStaCloneSnapKit/Pods/Libuv-gRPC/src/inet.c:218-302 | every text of the grammar is accepted with its meaning |
| Inet6Text.AcceptsExactly | InStaCloneSnapKit/Pods/Libuv-gRPC/src/inet.c:218-302 | a text is accepted with an address exactly when some form of the grammar has that text and that meaning |
| Varint.EncodeVarint | InStaCloneSnapKit/Pods/nanopb/pb_encode.c:608-628 | writes the base 128 digits of the number and never overruns its ten bytes |
| Varint.EncodeMeans | InStaCloneSnapKit/Pods/nanopb/pb_encode.c:608-628 | the bytes written stand for the number, whatever follows |
| Varint.EncodeLengths | InStaCloneSnapKit/Pods/nanopb/pb_encode.c:610-625 | at most ten bytes for 64 bits and five for 32 |
| Varint.DecodeVarint | InStaCloneSnapKit/Pods/nanopb/pb_decode.c:255-275 | the number its bytes stand for, kept to 64 bits, if it has at most ten bytes |
| Varint.Inverse64 | InStaCloneSnapKit/Pods/nanopb/pb_decode.c:255-275 | undoes the encoder for every 64-bit number, whatever follows |
| Varint.DecodeVarint32 | InStaCloneSnapKit/Pods/nanopb/pb_decode.c:187-247 | the loop computes the 32-bit decoder of the specification, with the bit position kept in eight bits |
| Varint.DecodersAgree | InStaCloneSnapKit/Pods/nanopb/pb_decode.c:187-275 | when the 32-bit decoder accepts at most ten bytes, the 64-bit one reads the same bytes and the results agree modulo 2^32 |
| Varint.Inverse32 | InStaCloneSnapKit/Pods/nanopb/pb_decode.c:187-247 | undoes the encoder for every 32-bit number, whatever follows |
| Varint.AcceptsNegative | InStaCloneSnapKit/Pods/nanopb/pb_decode.c:218-226 | accepts every negative 32-bit number that was sign-extended to 64 bits |
| Varint.RejectsLong | InStaCloneSnapKit/Pods/nanopb/pb_decode.c:218-242 | rejects every number from 2^32 up to 2^63 |
| Varint.RightUnwrapped | InStaCloneSnapKit/Pods/nanopb/pb_decode.c:187-247 | what the 32-bit decoder accepts within 37 bytes is the varint's own bytes and its value modulo 2^32 |
| Varint.RightExactlyUpTo37 | InStaCloneSnapKit/Pods/nanopb/pb_decode.c:187-247 | every accepted varint of n bytes is read right if and only if n is at most 37 |
| Varint.BitPositionWraps | InStaCloneSnapKit/Pods/nanopb/pb_decode.c:214-234 | for every n from 38 on there is a varint of n bytes, with value 0 modulo 2^32, that is accepted as 8, because the bit position wraps at 256 |
| Varint.ZigZagMeans | InStaCloneSnapKit/Pods/nanopb/pb_encode.c:630-639 | -1, 1, -2, ... are coded 1, 2, 3, ... |
| Varint.ZigZagInverse | InStaCloneSnapKit/Pods/nanopb/pb_decode.c:1285-1297 | zigzag and its inverse undo each other on all 64-bit numbers |
| FieldIter.Iter.Begin | InStaCloneSnapKit/Pods/nanopb/pb_common.c:8-27 | starts at the first entry; false exactly for an empty descriptor |
| FieldIter.Iter.Next | InStaCloneSnapKit/Pods/nanopb/pb_common.c:29-85 | goes to the next entry or wraps to the first; what the iterator holds depends on the position alone, through any number of wrap-arounds |
| FieldIter.Iter.Find | InStaCloneSnapKit/Pods/nanopb/pb_common.c:87-104 | from any position, succeeds exactly when the tag is there, at the first entry with it going round; otherwise returns to where it was |
| FieldIter.PlacesApart | InStaCloneSnapKit/Pods/nanopb/pb_common.c:47-82 | members of one union share their place, any two other entries lie apart and in order |
| FieldIter.Iter.CountRequired | InStaCloneSnapKit/Pods/nanopb/pb_decode.c:1039-1055 | counts the required fields from wherever decoding stopped |
| FieldIter.Mark | InStaCloneSnapKit/Pods/nanopb/pb_decode.c:1021-1026 | sets exactly the bit of one required field, and nothing past the 64th |
| FieldIter.AllSeen | InStaCloneSnapKit/Pods/nanopb/pb_decode.c:1057-1078 | the check passes exactly when each of the first 64 required fields was seen |
| FieldIter.AllOnes | InStaCloneSnapKit/Pods/nanopb/pb_decode.c:1071-1073 | the mask compared with is the one number with the first r bits set and no other |
| RoundTrip.MessageRoundTrip | InStaCloneSnapKit/Pods/nanopb/pb_decode.c:934-1096 | for every descriptor tree and every struct that fits it, if the message encodes then decoding succeeds exactly when every length is below 2^32 and every string has its terminator, consumes all bytes, and restores flags, counts, choices and present values at every depth |
| RoundTrip.LongSubmessage | InStaCloneSnapKit/Pods/nanopb/pb_decode.c:372-385 | two bytes fields within a 32-bit capacity but together 2^32 bytes or more, inside a submessage: the message encodes and does not decode |
| RoundTrip.LongSubmessageExists | InStaCloneSnapKit/Pods/nanopb/pb_decode.c:372-385 | one such message, with two fields of 2^31 bytes |
| RoundTrip.FullString | InStaCloneSnapKit/Pods/nanopb/pb_decode.c:1487-1523 | a message with a string that fills its array without a terminator encodes and does not decode |
| RoundTrip.SmallMessage | InStaCloneSnapKit/Pods/nanopb/pb_decode.c:372-385 | an encoding below 2^32 bytes whose strings have terminators meets that condition |
| WireFormat.KindForm | InStaCloneSnapKit/Pods/nanopb/pb_encode.c:675-707 | what is written for a value is a payload of the wire type of its kind: a varint, four or eight bytes, or bytes with their length |
| WireFormat.KindSkipped | InStaCloneSnapKit/Pods/nanopb/pb_decode.c:321-331 | a value of any kind is stepped over by the wire type of its kind, whatever follows, exactly if its length is below 2^32 |
| WireFormat.NumberOnTheWire | InStaCloneSnapKit/Pods/nanopb/pb_encode.c:769-850 | the number on the wire is 0 or 1, two's complement in 64 bits, the number itself, its zigzag code, or four or eight bytes with the lowest first |
| WireFormat.FieldRecords | InStaCloneSnapKit/Pods/nanopb/pb_encode.c:341-426 | a field is written as records of its number and wire type, none exactly if it is absent |
| WireFormat.MessageRecords | InStaCloneSnapKit/Pods/nanopb/pb_encode.c:528-550 | every message written is a sequence of records, a number times eight plus a wire type and a payload of that type, in the order of the descriptor |
| Readers.FieldSkipped | InStaCloneSnapKit/Pods/nanopb/pb_decode.c:966-1019 | what is written for a field that the reader does not know is stepped over |
| Readers.UnknownIsAbsent | InStaCloneSnapKit/Pods/nanopb/pb_decode.c:966-1019 | leaving a field that the reader does not know out of what is written makes no difference to the reader |
| Readers.ReaderGets | InStaCloneSnapKit/Pods/nanopb/pb_decode.c:934-1096 | a reader with another descriptor, whatever the order of the fields, gets every field that it knows as it was sent, at every depth, has all others as they were, and fails exactly if one of its first 64 required fields is missing |
| Readers.NarrowerReaderGets | InStaCloneSnapKit/Pods/nanopb/pb_decode.c:934-1096 | a reader that lacks some fields of a message gets the others as they were written, at every depth |
| RepeatedForms.AnyFormIsRead | InStaCloneSnapKit/Pods/nanopb/pb_decode.c:425-465 | the numbers of a repeated field, packed, unpacked or in any pieces of both sorts, are read as the array of all of them in order after those already there, and refused exactly if it is too small |
| RepeatedForms.UnpackedDecodes | InStaCloneSnapKit/Pods/nanopb/pb_decode.c:454-465 | a message of one repeated field of numbers, each with its own tag, is read as their array in order |
| Merging.MessagesMerge | InStaCloneSnapKit/Pods/nanopb/pb_decode.c:934-1082 | reading one message after the other is reading the second on top of what the first has left, if no zero tag ends the first |
| Merging.SubmessageInTwo | InStaCloneSnapKit/Pods/nanopb/pb_decode.c:1525-1547 | a submessage that comes in two parts, each with its tag and the first not ended by a zero tag, is read as if it had come in one |
| Merging.SubmessageAfresh | InStaCloneSnapKit/Pods/nanopb/pb_decode.c:466-479 | an item of an array, and a union member whose union had another choice, are read as a message of their own |
| Capacity.DecodedWithin | InStaCloneSnapKit/Pods/nanopb/pb_decode.c:934-1082 | whatever bytes are decoded on top of whatever struct, no array holds more than its maximum, no bytes more than their capacity, every string has room for its terminator and every number fits its field, at every depth, if the declared defaults do |
| Capacity.EmptyMessage | InStaCloneSnapKit/Pods/nanopb/pb_decode.c:845-928 | the empty message is accepted exactly if no field is required, and leaves optional fields absent with their declared defaults, arrays empty and unions without a choice, at every depth |
| Capacity.DefaultsAreInitial | InStaCloneSnapKit/Pods/nanopb/pb_decode.c:845-928 | a struct set to its defaults has every declared default in its place, at every depth |
| Capacity.ClampMeans | InStaCloneSnapKit/Pods/nanopb/pb_decode.c:1334-1400 | a varint field reads the number of its size with the same low 32 or 64 bits, an unsigned one the very number, a zigzag one the number with that code, and refuses exactly if there is none |
| Capacity.EncodesExactly | InStaCloneSnapKit/Pods/nanopb/pb_encode.c:341-426 | a message can be written exactly if no array is over its maximum, no bytes over their capacity and every integer has a size of 1, 2, 4 or 8 bytes, at every depth |
| RoundTrip.NumTrips | InStaCloneSnapKit/Pods/nanopb/pb_decode.c:1334-1445 | every bool, integer and fixed-size number comes back, whatever follows |
| RoundTrip.PackedTrips | InStaCloneSnapKit/Pods/nanopb/pb_decode.c:425-453 | the items of a packed array come back in order, after those already there |
| RoundTrip.FieldTrips | InStaCloneSnapKit/Pods/nanopb/pb_decode.c:406-483 | what one field is encoded to is read into its slot, and the rest of the message follows |
| ProtoEncode.OStream.Write | InStaCloneSnapKit/Pods/nanopb/pb_encode.c:103-124 | appends the bytes, or only counts them, and fails exactly when they do not fit |
| ProtoEncode.OStream.Count | InStaCloneSnapKit/Pods/nanopb/pb_encode.c:194-195 | a sizing stream counts bytes it is not given |
| ProtoEncode.OStream.EncodeVarint | InStaCloneSnapKit/Pods/nanopb/pb_encode.c:608-628 | writes a varint or fails for lack of room |
| ProtoEncode.OStream.EncodeTag | InStaCloneSnapKit/Pods/nanopb/pb_encode.c:669-673 | writes the field number and the wire type |
| ProtoEncode.OStream.EncodeFixed | InStaCloneSnapKit/Pods/nanopb/pb_encode.c:641-667 | writes the bytes of a number, lowest first |
| ProtoEncode.OStream.EncodeString | InStaCloneSnapKit/Pods/nanopb/pb_encode.c:709-715 | writes the length and the bytes |
| ProtoEncode.EncodeNumber | InStaCloneSnapKit/Pods/nanopb/pb_encode.c:769-850 | writes a number as its kind says, or refuses an unknown size |
| ProtoEncode.EncodeData | InStaCloneSnapKit/Pods/nanopb/pb_encode.c:852-897 | writes bytes that fit their field, and a string up to its terminator or the end of its array |
| ProtoEncode.PackedSize | InStaCloneSnapKit/Pods/nanopb/pb_encode.c:170-189 | the size computed or counted is the number of bytes the items take |
| ProtoEncode.EncodePackedArray | InStaCloneSnapKit/Pods/nanopb/pb_encode.c:163-207 | tag, size and items, on a sizing and on a writing stream alike |
| ProtoEncode.EncodeUnpacked | InStaCloneSnapKit/Pods/nanopb/pb_encode.c:209-233 | each item with its tag, in order |
| ProtoEncode.EncodeTagged | InStaCloneSnapKit/Pods/nanopb/pb_encode.c:675-707 | the tag with the wire type of the kind, and the value |
| ProtoEncode.EncodeField | InStaCloneSnapKit/Pods/nanopb/pb_encode.c:341-426 | writes a field if it is required, present, non-empty or chosen; refuses an array over its maximum |
| ProtoEncode.EncodeMessage | InStaCloneSnapKit/Pods/nanopb/pb_encode.c:528-550 | writes the fields in order: done exactly when no field is refused and all fits, and then the bytes and the count are those of the specification, for both sorts of stream; an unknown union choice writes nothing |
| ProtoEncode.EncodeSubmessage | InStaCloneSnapKit/Pods/nanopb/pb_encode.c:717-765 | the writing pass writes as many bytes as the sizing pass counted; the error about a changed size is never reported |
| ProtoEncode.EncodedSize | InStaCloneSnapKit/Pods/nanopb/pb_encode.c:567-576 | the size is the number of bytes that writing takes, at every depth |
| ProtoDecode.IStream.Read | InStaCloneSnapKit/Pods/nanopb/pb_decode.c:102-137 | returns that many bytes and moves on, or fails at the end of the stream |
| ProtoDecode.IStream.OpenSubstream | InStaCloneSnapKit/Pods/nanopb/pb_decode.c:372-385 | a stream of just the length-delimited bytes, or a failure if there are not so many |
| ProtoDecode.IStream.CloseSubstream | InStaCloneSnapKit/Pods/nanopb/pb_decode.c:387-400 | the parent goes on right after the substream, even if that was not read to its end |
| ProtoDecode.ReadNumber | InStaCloneSnapKit/Pods/nanopb/pb_decode.c:1334-1445 | reads a number and refuses one that its field cannot hold |
| ProtoDecode.ReadData | InStaCloneSnapKit/Pods/nanopb/pb_decode.c:1447-1523 | reads bytes and strings that fit their field |
| ProtoDecode.ReadPacked | InStaCloneSnapKit/Pods/nanopb/pb_decode.c:436-449 | reads items while there are bytes and room, and refuses what is left over |
| ProtoDecode.SkipField | InStaCloneSnapKit/Pods/nanopb/pb_decode.c:321-331 | steps over a field of any known wire type |
| ProtoDecode.SkipVarint | InStaCloneSnapKit/Pods/nanopb/pb_decode.c:278-287 | steps over a varint of any length |
| ProtoDecode.ReadField | InStaCloneSnapKit/Pods/nanopb/pb_decode.c:406-483 | reads a field into its slot as its rule says |
| ProtoDecode.ReadSubmessage | InStaCloneSnapKit/Pods/nanopb/pb_decode.c:1525-1547 | reads a submessage on top of the struct it starts from |
| ProtoDecode.ReadTagged | InStaCloneSnapKit/Pods/nanopb/pb_decode.c:966-1029 | finds the field of a tag, or skips what follows |
| ProtoDecode.NoteField | InStaCloneSnapKit/Pods/nanopb/pb_decode.c:1021-1026 | the bitmap keeps saying which required fields were seen |
| ProtoDecode.ReadFields | InStaCloneSnapKit/Pods/nanopb/pb_decode.c:951-1081 | the loop and the final check together compute the decoder of the specification |
| ProtoDecode.ReadOnTop | InStaCloneSnapKit/Pods/nanopb/pb_decode.c:934-1082 | on all inputs, computes the decoder of the specification and keeps the struct laid out |
| ProtoDecode.ReadMessage | InStaCloneSnapKit/Pods/nanopb/pb_decode.c:1084-1096 | the same from the default struct |
| ProtoDecode.AllDefaultsLaid | InStaCloneSnapKit/Pods/nanopb/pb_decode.c:845-928 | the default struct has all its slots, at every depth |
| ProtoRoundTrip.EncodeThenDecode | InStaCloneSnapKit/Pods/nanopb/pb_encode.c:528-576 | sizing, encoding into a buffer of that size and decoding it: the buffer is filled exactly, and the message comes back exactly when every length is below 2^32 and every string has its terminator |

## Left out

- The application's Swift code, SnapKit, SteviaLayout and ActiveLabel: user interface and asynchronous calls whose
  meaning lies in libraries that are not part of the repository.
- DBIter's read sampling and its status for keys that do not parse: the first is random, the second is not part of the
  view of keys and values. The internal iterator is an index into a sorted sequence.
- The thread pool's thread creation, environment variable, fork handling and exit message. Work and done callbacks are
  single steps; a done callback submits and cancels through steps of its own. Mutexes are what makes a section one step.
- Timer callbacks that start or stop timers, and the wrap of the 64-bit start id counter: start ids are unbounded.
- UTF-8 decoding, label splitting and buffer truncation in `idna.c`: the model starts from code points and has room.
- Zone suffixes (`%`) and the address family switch of `uv_inet_pton` and `uv_inet_ntop`: they only add easy cases.
- nanopb callbacks, extensions, pointer fields, fixed-count arrays, fixed-length bytes, proto3 presence and the build
  without 64-bit integers. A struct is a sequence of slots: a value, a value with its flag, the counted part of an array,
  or a union with its choice, so memory that no flag, count or choice makes visible is not modelled.
- ProtoEncode.EncodeMessage: `size_t` does not wrap, so the lengths of all parts are below 2^64.
- ProtoDecode.ReadData: the capacity of a bytes field is a `pb_size_t`, so the check against `PB_SIZE_MAX` is implied.
- RoundTrip.MessageRoundTrip: the whole encoding is below 2^63 bytes, which no object reaches.
- Error messages: a failed call is a failed call, except for the error about a changed submessage size.
