# A verified model of libevent

The repository is a React Native application; its hard code is the vendored library libevent (under `ios/Pods/libevent`). This
project models six parts of that library in Dafny, in the form that the C code has, and proves what they are for.

* **Byte queues** (`Chain`, `ChainList`, `EvBuffer`, `EvBufferPullup`, `EvBufferSpace`, `EvBufferSearch`, `EvBufferRun`).
  An evbuffer is a linked list of partly filled blocks, with slack in front and a pointer to the link of the last block with
  data. Blocks are heap objects over arrays; the abstract value is a sequence of bytes. Every operation keeps the full
  invariant of the list and acts on the sequence as on a queue.
* **The event loop** (`TimeHeap`, `EventQueues`, `EventOps`, `EventCalls`, `EventActions`, `EventTimers`, `EventDispatch`,
  `EventReplay`, `EventRounds`, `EventSetup`, `EventBase`). The class `EventBase` has the queues, flags, counters, heap and common-timeout queues of an
  event base. Each of its methods is proved to do what a function on the record `Base` says, and the lemmas named `...Keeps`
  prove that each such step keeps the invariant: flags hold exactly when a callback is on the matching queue, counters equal
  sizes, and the loop wakes up in time for both tiers of timers. A dispatch keeps a log of the callbacks it starts; what it does
  is proved to be the replay of that log (`EventReplay`), and what a loop does to be its rounds, one after the other (`EventRounds`).
* **Watching descriptors** (`EpollTable`, `EvMap`). Counters and lists per descriptor, and a list of collapsed changes that is
  applied to the kernel at each dispatch by way of the epoll table. The kernel is a map from descriptors to what it watches.
* **Rate limits** (`TokenBucket`, `RateLimit`, `RateGroup`). The arithmetic of token buckets, the suspensions of one
  bufferevent, and the group as a state machine whose steps are the critical sections of many threads.
* **DNS** (`DnsName`, `DnsWriter`, `DnsMessage`, `DnsRing`, `DnsIndex`, `DnsServers`, `DnsRequests`, `EvdnsBase`). Compressed names of
  sections 3.1 and 4.1.4 of RFC 1035, requests on the wire, the circular lists, the index of requests in flight, and the choice
  of a nameserver in turn.
* **The tagged format** (`TagCodec`, `EventTagging`). Nibble and base-128 codes, on top of the verified byte queues.

`ByteSeq`, `Lists` and `Options` are shared helpers. `dafny verify dfyconfig.toml` checks everything.

## What the proofs have shown about the code

* `evbuffer_reserve_space` for a size of zero and two or more vectors fails its assertion exactly when the last block is
  writable, has data and is full (`EvBufferSpace.ReserveSpace`, `EvBufferSpace.ReserveNothing`).
* `evbuffer_prepend` that fails to allocate has stored as many of the last bytes as there was slack in front of the first block
  (`EvBufferModule.EvBuffer.Prepend`).
* With one vector, `evbuffer_reserve_space` hands out room that `evbuffer_commit_space` does not take exactly when the last block
  with data has too little room left to be worth copying and the next block, which is not the last, has enough
  (`EvBufferSpace.ReserveSpace`, `EvBufferSpace.ReserveInVain`).
* `evbuffer_strspn` leaves no valid position when it runs to the end of the buffer, unless the last block is empty; its only
  caller does not look at the position (`EvBufferSearch.Strspn`, `EvBufferSearch.SpanToEnd`).
* A persistent event can go back to its common-timeout queue in time to be run again in the same dispatch (`EventDispatch.GoesBack`).
* A persistent event with a negative interval can take the place of the head of its common-timeout queue just when the queue's
  stand-in is active; that is then no longer to be run in this dispatch, and due events of the queue wait for the next round
  (`EventRounds.RearmOverlooks`, `EventRounds.NegativeInterval`).
* A duration of exactly 1000000 microseconds is not moved to the seconds, so that asking for a common timeout with the timeval
  that was returned for it gives another queue (`EventSetup.AskedAgain`).
* The refill of a bucket is exact for limits up to the maximum only (`TokenBucketModule.RefillExactWhen`).
* With a least share of zero a group can go on with an empty bucket (`RateGroup.LeastShareDecides`).
* Compressed names can be lost in buffers of more than 16388 bytes, and only there; responses are written into 1500
  (`DnsName.BufferSizeDecides`, `DnsName.LostMessage`, `DnsName.ResponsesReadBack`).
* The NUL that ends a name is written without a check for room: it lies past the 1500 bytes of a response exactly when a name
  that is not known yet fills them. A request always has room for it (`DnsWriter.NameToLabels`, `DnsWriter.FilledResponse`,
  `DnsMessage.WriteFits`).
* A request of less than 12 bytes makes the server follow a null pointer (`DnsMessage.RequestParse`).
* Reading a tag looks at a sixth byte where only five have been made contiguous (`EventTagging.DecodeTagInternal`,
  `EventTagging.SixthByte`).
* A DNS server never answers "not implemented": it looks at the operation after masking it away (`DnsMessage.OperationIsNotSeen`).
* A request whose sending fails for good is moved to another server and counted as sent (`EvdnsBaseModule.EvdnsBase.RequestTransmit`).
* The comment at the head of `event_tagging.c` does not agree with its code: tags go out low seven bits first, and numbers low
  nibble first. The model follows the code.

## Model

| member | source | states |
|---|---|---|
| ChainModule.ChainNew | ios/Pods/libevent/buffer.c:156-193 | A block is refused exactly for the sizes that cannot be represented; otherwise it is empty, has the room asked for, and less than twice of that (or the smallest size). |
| ChainModule.Chain.Align | ios/Pods/libevent/buffer.c:1913-1920 | Moving the data to the front of a block changes where it is and not what it is. |
| ChainModule.Chain.Reference | ios/Pods/libevent/buffer.c:2920-2958 | A block made from the user's memory holds just those bytes, is full, and is not to be written to. |
| EvBufferModule.EvBuffer.TrailingLink | ios/Pods/libevent/buffer.c:290-303 | Finds the link that holds the first of the empty blocks at the end, starting from the link to the last block with data. |
| EvBufferModule.EvBuffer.FreeTrailingEmptyChains | ios/Pods/libevent/buffer.c:290-303 | Frees exactly the empty blocks after the last one with data, keeps the content, and returns the link where the next block goes. |
| EvBufferModule.EvBuffer.ChainInsert | ios/Pods/libevent/buffer.c:308-327 | Puts a block behind the last one with data: the list is the used blocks and the new one, the content is the old one and the block's, and the whole invariant holds, also when the new block is empty. |
| EvBufferModule.EvBuffer.AdvanceLastWithData | ios/Pods/libevent/buffer.c:703-721 | From a link to a block before it, moves `last_with_datap` to the link of the last block with data. |
| EvBufferModule.EvBuffer.DrainPart | ios/Pods/libevent/buffer.c:1100-1166 | Draining less than everything drops exactly that many bytes and repairs the link to the last block with data when it lay in a freed block. |
| EvBufferModule.EvBuffer.Drain | ios/Pods/libevent/buffer.c:1100-1166 | Drops the first `len` bytes, or all there are; fails exactly when there is something to drain and the start is frozen. |
| EvBufferModule.EvBuffer.Add | ios/Pods/libevent/buffer.c:1729-1824 | Appends a copy of the bytes, in place, after realigning, in a new block or split over two; succeeds exactly when the end is not frozen and neither the total nor the block overflows; a failure changes nothing. |
| EvBufferModule.EvBuffer.Prepend | ios/Pods/libevent/buffer.c:1826-1910 | Puts a copy of the bytes in front, some in the slack of the first block and the rest in a new one; succeeds exactly when the start is not frozen, the total does not overflow, and what does not fit into the slack fits into a block; a failed allocation leaves exactly the last bytes that the slack took, so that nothing has changed exactly when there was no slack. |
| EvBufferModule.EvBuffer.CopyoutFrom | ios/Pods/libevent/buffer.c:1189-1254 | Copies the bytes from a position on, at most as many as there are, across blocks; nothing else in the output changes; -1 exactly for an overflow or a frozen start. |
| EvBufferModule.EvBuffer.Remove | ios/Pods/libevent/buffer.c:1169-1181 | Hands out the first `datlen` bytes and drops them; the result is their number as a 32-bit int. |
| EvBufferModule.EvBuffer.AppendChains | ios/Pods/libevent/buffer.c:888-905 | Appending the blocks of another buffer appends its bytes and puts the link to the last block with data where it belongs. |
| EvBufferModule.EvBuffer.PrependChains | ios/Pods/libevent/buffer.c:947-963 | Prepending the blocks of another buffer prepends its bytes; a buffer that had no data takes over the link to the last block with data. |
| EvBufferModule.EvBuffer.AddBuffer | ios/Pods/libevent/buffer.c:965-1009 | Moves everything from one buffer to the end of another, content and blocks, and leaves the first one empty; both keep their invariants and share no block; nothing changes on failure or when they are the same buffer. |
| EvBufferModule.EvBuffer.PrependBuffer | ios/Pods/libevent/buffer.c:1054-1098 | The same to the front of another buffer. |
| EvBufferModule.EvBuffer.RemoveBuffer | ios/Pods/libevent/buffer.c:1259-1347 | Moves the first `datlen` bytes, or all, to the end of another buffer, whole blocks by relinking them and the last part by copying; both keep their invariants. |
| EvBufferModule.EvBuffer.AddReference | ios/Pods/libevent/buffer.c:2920-2958 | Appends the user's bytes without copying them; fails exactly when the end is frozen. |
| EvBufferModule.EvBuffer.Freeze | ios/Pods/libevent/buffer.c:3400-3422 | Freezes or unfreezes one end and nothing else. |
| EvBufferPullup.Pull | ios/Pods/libevent/buffer.c:1349-1461 | Copies the first bytes of the blocks into one, frees the blocks used up, and tells whether the last block with data, or the link to it, went with them. |
| EvBufferPullup.Gather | ios/Pods/libevent/buffer.c:1349-1461 | Through all cases of repairing the link to the last block with data the invariant holds and the content does not change. |
| EvBufferPullup.Pullup | ios/Pods/libevent/buffer.c:1349-1461 | Afterwards the first `size` bytes (all for a negative size) are contiguous from the start of the first block's window; the content never changes; null exactly for nothing, for more than there is, or for more than a block can hold. |
| EvBufferSpace.Scan | ios/Pods/libevent/buffer.c:2050-2158 | Adds up the space of the first blocks that have some, with the slack of empty ones, until it is enough. |
| EvBufferSpace.ExpandFast | ios/Pods/libevent/buffer.c:2050-2158 | Leaves the content alone and at least `size` bytes of space in the first `n` blocks from where writing starts; for a size of zero there may be no block to write to, exactly when the last block is full. |
| EvBufferSpace.ExpandSinglechain | ios/Pods/libevent/buffer.c:1938-2046 | Leaves the content alone and `size` bytes of space behind one block, by realigning, by copying the last block with data to a larger one, or with a new block; that block is neither the first to write to nor the last one exactly when the first one has too little room to be worth more and the next, not the last, has enough. |
| EvBufferSpace.ReadSetupVecs | ios/Pods/libevent/buffer.c:2224-2260 | Never runs off the list; the vectors lie in the space of consecutive blocks and offer at least what is asked for (just that if `exact`). |
| EvBufferSpace.ReserveSpace | ios/Pods/libevent/buffer.c:670-701 | Never changes the content; the vectors offer the size asked for; aborts on its assertion exactly when nothing is asked for in two or more vectors and the last block is full; what has been reserved can be committed, but exactly for one vector on a buffer whose first block to write to is skipped for the next, which is not the last. |
| EvBufferSpace.CommittableWhen | ios/Pods/libevent/buffer.c:723-791 | A vector over the room of a block is accepted exactly when that block is the first to write to or the last one. |
| EvBufferSpace.ReserveInVain | ios/Pods/libevent/buffer.c:670-791 | Room for 100 bytes, reserved in one vector where two empty blocks follow one with 76 bytes left, is not accepted. |
| EvBufferSpace.ReserveNothing | ios/Pods/libevent/buffer.c:670-701 | A buffer for which it does abort. |
| EvBufferSpace.CommitSpace | ios/Pods/libevent/buffer.c:723-791 | Appends exactly the bytes that lie in the vectors, in order; all or nothing: it succeeds exactly when the end is not frozen and each vector matches its block. |
| EvBufferSearch.LocateMeaning | ios/Pods/libevent/buffer.c:2622-2672 | Skipping whole pieces finds the very byte of the flat sequence, or how far it is past the end. |
| EvBufferSearch.PtrSet | ios/Pods/libevent/buffer.c:2622-2672 | Setting or adding to a position gives the position of that byte, the end for the length, and an error with an invalid position exactly past the end or on overflow. |
| EvBufferSearch.SetThenAdd | ios/Pods/libevent/buffer.c:2622-2672 | Setting a position and adding to it is setting the sum, same result and same position, exactly when the first position is not above SSIZE_MAX or is past the end. |
| EvBufferSearch.PtrSubtract | ios/Pods/libevent/buffer.c:2602-2620 | Moves back by so many bytes, possibly into an earlier block; fails exactly when there are not that many. |
| EvBufferSearch.Strchr | ios/Pods/libevent/buffer.c:1473-1493 | Finds the first byte equal to `c` at or after the position, or none exactly when there is none. |
| EvBufferSearch.FindEolIn | ios/Pods/libevent/buffer.c:1495-1520 | Searching in chunks of 128 bytes for CR and LF finds the first of either. |
| EvBufferSearch.FindEolChar | ios/Pods/libevent/buffer.c:1522-1542 | Finds the first CR or LF at or after the position, across blocks. |
| EvBufferSearch.Strspn | ios/Pods/libevent/buffer.c:1544-1581 | Counts the longest run of the given bytes from the position on; the position moves by so many, and denotes the byte there exactly when some byte from the first position on is not one of them, that was the end already, or the last block is empty. |
| EvBufferSearch.SpanToEnd | ios/Pods/libevent/buffer.c:1544-1581 | Searched from its start, a buffer that holds just a carriage return and a line feed leaves a position that denotes none of its places. |
| EvBufferSearch.GetChr | ios/Pods/libevent/buffer.c:1584-1594 | The byte at a position, or -1 at the end. |
| EvBufferSearch.PtrMatches | ios/Pods/libevent/buffer.c:2678-2712 | Tells whether the string occurs at the position, across blocks. |
| EvBufferSearch.SearchRange | ios/Pods/libevent/buffer.c:2720-2782 | Returns the least place from `start` on where the pattern occurs and ends by `end`; not found exactly when there is none. |
| EvBufferSearch.SearchEol | ios/Pods/libevent/buffer.c:1596-1684 | For every style: the first line end at or after the start and its length (a CR run before an LF, CRLF, LF or NUL as the style says), or not found exactly when there is none. |
| EvBufferRun.Run | ios/Pods/libevent/buffer.c:948-1166 | Any run of operations on any number of buffers that share nothing acts on each of them as on a byte queue, and hands out the bytes that the queues say. |
| EvBufferRun.OnOpenQueues | ios/Pods/libevent/buffer.c:965-1910 | On queues that are not frozen: adding appends, prepending puts in front, draining and removing take from the front and only removing hands out what it takes, pulling up changes nothing, and the three moves put all bytes, or the first ones, of the one queue behind or before those of the other. |
| EvBufferRun.StepConserves | ios/Pods/libevent/buffer.c:965-1347 | No operation loses, invents or duplicates a byte: for every value, the count in all queues and what goes out balance with what comes in. |
| EvBufferRun.RunConserves | ios/Pods/libevent/buffer.c:965-1347 | The same over every run. |
| EvBufferRun.RunKeepsOrder | ios/Pods/libevent/buffer.c:1259-1347 | Through a pipeline of two buffers bytes come out in the order in which they went in, however they are moved on the way. |
| TimeHeapModule.TimeHeap.ShiftUp | ios/Pods/libevent/minheap-internal.h:153-175 | A hole moved up to where the event belongs makes a heap in which every event knows its slot. |
| TimeHeapModule.TimeHeap.ShiftDown | ios/Pods/libevent/minheap-internal.h:177-190 | So does a hole moved down. |
| TimeHeapModule.TimeHeap.Push | ios/Pods/libevent/minheap-internal.h:71-77 | Adds one timer and keeps all others; fails, changing nothing, exactly when all slots are taken and there is no memory for more. |
| TimeHeapModule.TimeHeap.Erase | ios/Pods/libevent/minheap-internal.h:96-115 | Takes one timer out and keeps all others; tells whether it was there. |
| TimeHeapModule.RootIsLeast | ios/Pods/libevent/minheap-internal.h:69-69 | In a heap nothing is due before the root. |
| TimeHeapModule.TimeHeap.TopIsLeast | ios/Pods/libevent/minheap-internal.h:67-69 | The top is the timer that is due first, and there is none exactly when no timer is set. |
| EventQueues.WeightsUpdate | ios/Pods/libevent/event.c:3213-3222 | Setting or clearing a flag of a callback changes the count of non-internal callbacks and flags by just that. |
| EventQueues.NothingPending | ios/Pods/libevent/event.c:1345-1350 | The event count is zero exactly when no callback that is not internal is on any queue. |
| EventOps.RemoveInsertedKeeps | ios/Pods/libevent/event.c:3223-3234 | Taking a callback off the inserted list keeps the invariant of queues, flags and counters. |
| EventOps.InsertInsertedKeeps | ios/Pods/libevent/event.c:3360-3374 | So does putting it there. |
| EventOps.RemoveActiveKeeps | ios/Pods/libevent/event.c:3235-3250 | Off its active queue, with the event count and the active count. |
| EventOps.InsertActiveKeeps | ios/Pods/libevent/event.c:3376-3395 | Onto the active queue of its priority. |
| EventOps.RemoveLaterKeeps | ios/Pods/libevent/event.c:3251-3265 | Off the queue for the next round. |
| EventOps.InsertLaterKeeps | ios/Pods/libevent/event.c:3397-3412 | Onto it. |
| EventOps.RemoveTimeoutKeeps | ios/Pods/libevent/event.c:3266-3286 | Off the tier of timers that its deadline names. |
| EventOps.InsertTimeoutKeeps | ios/Pods/libevent/event.c:3414-3436 | Onto that tier: a common-timeout queue stays sorted, and the heap knows the time. |
| EventBaseModule.EventBase.InsertCommonInOrder | ios/Pods/libevent/event.c:3330-3358 | Searching from the end puts the event behind the last one that is not due later. |
| EventBaseModule.EventBase.QueueInsertTimeout | ios/Pods/libevent/event.c:3414-3436 | The code does what the step says, in the queue or in the heap. |
| EventCalls.DelKeeps | ios/Pods/libevent/event.c:2809-2898 | Deleting an event leaves it on no queue (unless it is being finalized), changes no other, and keeps the invariant, wake-ups for common-timeout queues included. |
| EventBaseModule.EventBase.EventDel | ios/Pods/libevent/event.c:2809-2898 | The code does what the step says. |
| EventCalls.ScheduleKeeps | ios/Pods/libevent/event.c:1449-1456 | Setting the stand-in again makes the loop wake up for the new head of its queue. |
| EventCalls.AddTimeoutKeeps | ios/Pods/libevent/event.c:2666-2757 | Setting a timeout, in either tier, whether or not one was set, keeps the invariant: the deadline is tv itself if that is absolute and now + tv if not, with its queue; a persistent event remembers a relative tv as its interval; an event that was active for an old timeout no longer is; no other callback changes but stand-ins. |
| EventCalls.AddKeeps | ios/Pods/libevent/event.c:2596-2766 | Adding an event keeps the invariant, with the deadline, the interval and the flags just said; it fails exactly when it is being finalized or the backend refuses, and then nothing has changed. |
| EventBaseModule.EventBase.EventAdd | ios/Pods/libevent/event.c:2596-2766 | The code does what the step says; for an event of the user the result is -1 exactly in the two cases of failure, and otherwise its timeout is set, to tv if that is absolute and to now + tv if not. |
| EventBaseModule.EventBase.AddAndExpire | ios/Pods/libevent/event.c:2596-3204 | An event added with a timeout d that counts from the time t, in either tier, has timed out by a later time exactly when that is at least t + d; before, it has the deadline t + d. |
| EventCalls.StepQueues | ios/Pods/libevent/event.c:3235-3412 | The active queues and the queue for the next round are first in, first out. |
| EventCalls.ActivateKeeps | ios/Pods/libevent/event.c:3005-3034 | Activating a callback puts it at the end of its active queue and only there; the result tells whether it was on neither queue before. |
| EventCalls.ActivateLaterKeeps | ios/Pods/libevent/event.c:3036-3047 | Putting a callback off puts it at the end of the queue for the next round, unless it is active or there already. |
| EventCalls.ActivateEventKeeps | ios/Pods/libevent/event.c:2918-2967 | Activating an event also makes the dispatcher start over exactly when the event goes before what is running and was not active. |
| EventCalls.ActivateEventLaterKeeps | ios/Pods/libevent/event.c:2977-2992 | Putting an event off to the next round. |
| EventCalls.CancelKeeps | ios/Pods/libevent/event.c:3068-3096 | A cancelled callback is on no queue, unless it is being finalized. |
| EventCalls.ScheduleDeferredKeeps | ios/Pods/libevent/event.c:3123-3140 | While no more than 32 callbacks have been scheduled in a round, a callback goes to the end of its active queue and is counted; any other one goes to the end of the queue for the next round; the result is 1 exactly when it was on neither; no other callback changes. |
| EventBaseModule.EventBase.EventActive | ios/Pods/libevent/event.c:2918-2967 | The code does what the step says. |
| EventBaseModule.EventBase.CallbackCancel | ios/Pods/libevent/event.c:3068-3096 | The code does what the step says. |
| EventBaseModule.EventBase.DeferredSchedule | ios/Pods/libevent/event.c:3123-3140 | The code does what the step says. |
| EventCalls.RearmKeeps | ios/Pods/libevent/event.c:1561-1624 | A persistent event with an interval, added again before its callback, is due one interval after its last deadline if it has timed out and that is not over, and one interval from now otherwise; it keeps its interval, and the invariant holds. |
| EventBaseModule.EventBase.PersistClosure | ios/Pods/libevent/event.c:1561-1624 | The code does what the step says. |
| EventCalls.AddIntervals | ios/Pods/libevent/event.c:2660-2700 | After an addition, the interval of a persistent event names the queue of its deadline. |
| EventActions.ActKeeps | ios/Pods/libevent/event.c:2483-3140 | Whatever a callback does (add, delete, activate now or later, cancel, schedule) keeps the invariant and what was set up. |
| EventActions.ActEffects | ios/Pods/libevent/event.c:2483-3140 | What each action does to the flags and the deadline of the callback it is about, and to what the dispatcher has been told; a failing addition changes nothing. |
| EventBaseModule.EventBase.Do | ios/Pods/libevent/event.c:2483-3140 | The code of each of them does what its step says. |
| EventTimers.FireKeeps | ios/Pods/libevent/event.c:3180-3204 | Letting an event time out deletes it, makes it active for that reason, and changes no other. |
| EventTimers.FiredHeap | ios/Pods/libevent/event.c:3180-3204 | It takes just that event out of the heap. |
| EventTimers.FiredQueue | ios/Pods/libevent/event.c:1461-1482 | Or just that event out of its common-timeout queue. |
| EventTimers.HeapIsEarliest | ios/Pods/libevent/event.c:1392-1456 | The two tiers act as one set of timers: the minimum of the heap is never later than any pending deadline, unless a stand-in is active. |
| EventTimers.NothingOverdue | ios/Pods/libevent/event.c:3180-3204 | Once nothing due is left in the heap and no stand-in is active, no event of either tier is overdue. |
| EventTimers.AllExpired | ios/Pods/libevent/event.c:1461-3204 | If then every event that is no stand-in has either timed out when due or not changed, those that have timed out are exactly those that were due. |
| EventBaseModule.EventBase.TimeoutNext | ios/Pods/libevent/event.c:3142-3177 | The loop sleeps until the first deadline of the heap, not at all if that is over, and without limit exactly when the heap is empty; it never sleeps past a deadline of either tier. |
| EventBaseModule.EventBase.TimeoutProcess | ios/Pods/libevent/event.c:3180-3204 | Exactly the events in the heap whose time has come time out, one after the other in the order of their deadlines; none before its deadline, and none of them is left. |
| EventBaseModule.EventBase.CommonTimeoutCallback | ios/Pods/libevent/event.c:1461-1482 | Exactly the events of the queue whose time has come time out, in their order; what is left of it is not due, and the stand-in is in the heap with the deadline of its new head; nothing else in the heap changes. |
| EventBaseModule.EventBase.ExpireAll | ios/Pods/libevent/event.c:1461-3204 | After timeout_process and the callbacks of all the stand-ins that it made active, in any order, the two tiers have acted as one set of timers: of the events that are no stand-ins exactly those with a deadline not after now have timed out, no other has changed, and nothing is overdue. |
| EventDispatch.BegunKeeps | ios/Pods/libevent/event.c:1633-1680 | Taking a callback off its queue before it is run clears its active flag, and all flags of an event that is not persistent; no other callback changes, and the invariant holds, but that a stand-in has yet to be set again. |
| EventDispatch.BegunBudget | ios/Pods/libevent/event.c:1633-1680 | Starting a callback uses up one unit of the budget that bounds a dispatch. |
| EventDispatch.BegunProspect | ios/Pods/libevent/event.c:1461-1680 | Starting a callback takes one from all that the dispatch can still start, the events in the queues of active stand-ins included; starting a stand-in also takes those of its queue, which its callback may make active. |
| EventDispatch.RearmedProspect | ios/Pods/libevent/event.c:1561-1624 | Adding a persistent event again adds nothing to that. |
| EventDispatch.AwaitingBound | ios/Pods/libevent/event.c:1461-1482 | What active stand-ins can make active is at most the lengths of their queues and the persistent events that are active and go back there. |
| EventDispatch.GoesBack | ios/Pods/libevent/event.c:1561-1624 | A base in which such an event does go back and is due at once, so that the lengths of the queues alone do not bound a dispatch. |
| EventActions.ScheduleKeepsBudget | ios/Pods/libevent/event.c:3123-3140 | Scheduling a deferred callback does not add to that budget. |
| EventDispatch.BudgetBound | ios/Pods/libevent/event.c:3123-3140 | A dispatch that starts with L active callbacks has a budget of at most L + 33. |
| EventActions.ActKeepsOrder | ios/Pods/libevent/event.c:2918-2967 | After every action but loopcontinue and direct activation, either nothing waits that goes before the running queue, or the dispatcher starts over. |
| EventReplay.ActsInOrder | ios/Pods/libevent/event.c:1660-1730 | The actions of a callback are carried out in their order, and none is left out. |
| EventReplay.StartEffects | ios/Pods/libevent/event.c:1561-1730 | The start of any callback but a stand-in: it is taken off; an event that is not persistent is deleted, a persistent one with an interval is added again with the next deadline by the rule of event_persist_closure; and then its actions are carried out, in order. |
| EventBaseModule.EventBase.RunScript | ios/Pods/libevent/event.c:1660-1730 | Carries out a list of actions one by one, and keeps the invariant, the order of priorities and the bound on deferred callbacks. |
| EventBaseModule.EventBase.RunCallback | ios/Pods/libevent/event.c:1633-1730 | A stand-in lets the due events of its queue time out in order and is set again; any other callback is added again if it is persistent, and carries out its actions. |
| EventBaseModule.EventBase.RunNext | ios/Pods/libevent/event.c:1633-1751 | The head of the queue is taken off and run as just said; it has the least priority number of all that wait. |
| EventBaseModule.EventBase.ProcessSingleQueue | ios/Pods/libevent/event.c:1633-1751 | What happens is that callbacks are run from the head of the queue, one after the other; the result is -1 after a break and otherwise counts the starts that are not internal; it goes on exactly as long as the queue is not empty, no break and no continue has been asked for, and neither the number nor the time has been reached; every callback starts in turn. |
| EventReplay.OverMeans | ios/Pods/libevent/event.c:1759-1802 | How the result, the first start and the replay follow from the log that is kept while the queues are gone through. |
| EventBaseModule.EventBase.ProcessActive | ios/Pods/libevent/event.c:1759-1802 | If any callback is active one is run, and the first is the head of the first queue that is not empty; the base at the end is the replay of the log: each start takes its callback off its queue, adds it again if it is persistent, and carries out its actions; the result is -1 exactly after a break and otherwise the number of starts that are not internal; it passes to another queue only while that is 0, and ends when queues are empty or with the limit that has been reached. No priority inversion: when activations go through event_active and internal events have priority 0, no callback starts while one of smaller priority number waits, and a result of 0 leaves all queues empty. |
| EventBaseModule.EventBase.ProcessDeferred | ios/Pods/libevent/event.c:1759-1802 | A dispatch whose callbacks only schedule deferred callbacks ends after at most L + 33 of them, L being active at its start, and one more for each event in a common-timeout queue whose stand-in is active and for each persistent event that is active and goes back to such a queue; with no stand-in active, L + 33. |
| EventDispatch.PromoteKeeps | ios/Pods/libevent/event.c:3438-3451 | Making a callback of the next round active keeps the invariant. |
| EventBaseModule.EventBase.MakeLaterEventsActive | ios/Pods/libevent/event.c:3438-3451 | All callbacks put off become active, in their order behind those of their priority; none is lost or duplicated, and the deferred ones are counted. |
| EventBaseModule.EventBase.IdleWhenCountsAreZero | ios/Pods/libevent/event.c:1981-1986 | The two counters are zero exactly when nothing is left to be done. |
| EventRounds.NoneOverlooked | ios/Pods/libevent/event.c:3180-3204 | After timeout_process no event that is due is left without a stand-in that is active: for every round, whatever happens in it. |
| EventRounds.QuietLog | ios/Pods/libevent/event.c:1633-1802 | In any run of callbacks that do nothing to the base themselves, stand-ins and persistent events included, who is not started goes on waiting: active ones stay active, timeouts keep their deadline until they time out, and none becomes overlooked. |
| EventRounds.QuietRound | ios/Pods/libevent/event.c:1922-2023 | So in a round: every event of the user that was active or had a timeout in either tier is started, or is active, or is not due at the end of it, or its stand-in is active. |
| EventRounds.RearmOverlooks | ios/Pods/libevent/event.c:1561-1624 | Exactly when adding a persistent event again makes a due event of a common-timeout queue be overlooked: when it goes before all others of that queue, which it does not with an interval that is not negative. |
| EventRounds.NegativeInterval | ios/Pods/libevent/event.c:1561-1624 | A base in which it does, with an interval of -6. |
| EventBaseModule.EventBase.StartRound | ios/Pods/libevent/event.c:1947-1989 | Finds out whether the loop ends before the dispatch, and how long it may sleep. |
| EventBaseModule.EventBase.RunRound | ios/Pods/libevent/event.c:1990-2015 | The rest of a round: callbacks of the last round become active, the backend dispatches, due events of the heap time out, and active callbacks are run. |
| EventBaseModule.EventBase.LoopRound | ios/Pods/libevent/event.c:1922-2023 | A round that dispatches goes through just these states: the callbacks put off are made active, the ready ones happen, exactly the due events of the heap time out, and if anything is active it is run as the log says; when nothing is run nothing in the heap is due. No timer is forgotten in it (as in QuietRound). It returns 1 exactly when it is to end on empty and nothing is left to be done, -1 exactly when it goes on and the dispatch fails, and 0 exactly when it was told to break or exit, when (EVLOOP_ONCE) callbacks were run and none is left, or when (EVLOOP_NONBLOCK) there was none to run. It does not sleep while a callback is active, nor past a deadline, and otherwise until the first one. |
| EventBaseModule.EventBase.Loop | ios/Pods/libevent/event.c:1922-2023 | Over any number of rounds: each starts where the one before it has ended and does what a round does, nothing else happens, and the loop goes on until it ends; with 1 only when nothing is left to be done, with -1 only when a dispatch fails, with 0 only when it was told to. Once a round has dispatched, if nothing but timeouts happens, every event of the user that was active or had a timeout has been started, or is active, or is not yet due, or its stand-in is active. No callback of any round has started while one of smaller priority number was waiting. |
| EventSetup.RegisterKeeps | ios/Pods/libevent/event.c:2112-2161 | Setting up a callback keeps the invariant. |
| EventSetup.AddQueueKeeps | ios/Pods/libevent/event.c:1486-1558 | So does setting up a common-timeout queue. |
| EventBaseModule.EventBase.Assign | ios/Pods/libevent/event.c:2112-2161 | A new callback is on no queue, all others are as they were, and the invariant holds. |
| EventBaseModule.EventBase.InitCommonTimeout | ios/Pods/libevent/event.c:1486-1558 | The timeval returned means the duration asked for, with whole seconds moved out of its microseconds, and its bits name the queue of that duration; the same duration gets the same queue, a new one a new queue unless there are 256. |
| EventSetup.TagReadsBack | ios/Pods/libevent/event.c:1396-1420 | The bits that hold both are 0x50000000, the number of the queue times 2^20, and the microseconds; both are read back from them; a tag is recognised exactly while its queue exists. |
| EventSetup.AskedAgain | ios/Pods/libevent/event.c:1486-1512 | Asking again with what asking has returned comes to the same duration exactly when its microseconds were not 1000000, which are not moved to the seconds the first time. |
| EpollTable.OneOperation | ios/Pods/libevent/epolltable-internal.h:43-78 | For every collapsed change that gives up only what is watched, the one operation of the table leaves the kernel with what is wanted, and the kernel accepts it. |
| EpollTable.IrreducibleExample | ios/Pods/libevent/epolltable-internal.h:156-157 | For giving up what is not watched it does not. |
| EpollTable.AcceptedWhen | ios/Pods/libevent/epolltable-internal.h:43-78 | The kernel accepts the operation exactly when something is added, or something is watched, or nothing is asked. |
| EvMapModule.CountMeaning | ios/Pods/libevent/evmap.c:299-317 | A counter is positive exactly when some listed event wants that kind. |
| EvMapModule.EvMap.MakeSpace | ios/Pods/libevent/evmap.c:204-232 | Growing by doubling makes room for the slot and keeps all others; fails only on overflow. |
| EvMapModule.EvMap.Add | ios/Pods/libevent/evmap.c:272-349 | Lists the event; 1 exactly when what the events of the descriptor want has changed; -1 only for too many; counters, list, pending change and indices stay in step. |
| EvMapModule.EvMap.Del | ios/Pods/libevent/evmap.c:353-417 | Takes the event off, with the same account; -1 exactly for a descriptor beyond the table. |
| EvMapModule.GainedMeans | ios/Pods/libevent/evmap.c:299-317 | The backend is told exactly when what is wanted changes. |
| EvMapModule.LostMeans | ios/Pods/libevent/evmap.c:373-399 | The same for a deletion. |
| EvMapModule.EvMap.GetOrConstruct | ios/Pods/libevent/evmap.c:834-863 | Finds the pending change of a slot or makes one that remembers what was watched; slots and changes stay a bijection. |
| EvMapModule.EvMap.ChangelistAdd | ios/Pods/libevent/evmap.c:865-893 | Records what is to be watched, collapsing it with what is pending. |
| EvMapModule.EvMap.ChangelistDel | ios/Pods/libevent/evmap.c:895-946 | Records what is not, where a pending addition of what was not watched is just forgotten. |
| EvMapModule.AddedInStep | ios/Pods/libevent/evmap.c:865-893 | After it the pending change will leave the kernel watching just what the counters say. |
| EvMapModule.RemovedInStep | ios/Pods/libevent/evmap.c:895-946 | The same for a removal. |
| EvMapModule.OneSlot | ios/Pods/libevent/evmap.c:834-863 | Changing one slot and its pending change leaves all others in step. |
| EvMapModule.EvMap.RemoveAll | ios/Pods/libevent/evmap.c:778-797 | Forgets all changes and the slots' indices of them. |
| EvMapModule.ToldMore | ios/Pods/libevent/evmap.c:778-797 | Each change in turn still says what the kernel watches, and telling it makes one more descriptor right and no other wrong. |
| EvMapModule.EvMap.ApplyChanges | ios/Pods/libevent/evmap.c:778-797 | After the changes have been applied, one operation each, the kernel watches on every descriptor just what its listed events want. |
| EvMapModule.EvMap.TakeStep | ios/Pods/libevent/evmap.c:272-417 | One addition or deletion of a run, left out when the event is listed already or not at all. |
| EvMapModule.EvMap.Run | ios/Pods/libevent/evmap.c:272-797 | After any run of additions and deletions and then applying the collapsed changes, the events of each descriptor are those that the steps leave in turn, and the kernel watches just what it would if each step had been told to it at once, which is what those events want. |
| EvMapModule.ToldIsInStep | ios/Pods/libevent/evmap.c:272-417 | Telling the kernel at once, step by step, leaves it watching just what the listed events want. |
| EvMapModule.AddAtOnce | ios/Pods/libevent/evmap.c:299-349 | One addition told at once: the operation of the table is accepted and leaves the kernel watching what is wanted. |
| EvMapModule.DelAtOnce | ios/Pods/libevent/evmap.c:353-417 | The same for a deletion. |
| TokenBucketModule.RefillExact | ios/Pods/libevent/bufferevent_ratelim.c:73-111 | For every limit not above the maximum, negative ones included, the refill without overflow is min(maximum, limit + ticks * rate). |
| TokenBucketModule.RefillAboveMaximum | ios/Pods/libevent/bufferevent_ratelim.c:73-111 | A limit above the maximum for which it is not. |
| TokenBucketModule.RefillExactWhen | ios/Pods/libevent/bufferevent_ratelim.c:73-111 | It is exact just when the limit is not above the maximum, or the wrapped difference is small enough for the first branch. |
| TokenBucketModule.TokenBucket.Init | ios/Pods/libevent/bufferevent_ratelim.c:49-71 | A bucket in use is clipped and keeps its clock; a new one holds one tick's worth. |
| TokenBucketModule.TokenBucket.Update | ios/Pods/libevent/bufferevent_ratelim.c:73-111 | Adds just what the ticks since the last update bring, counted modulo 2^32; a clock that stands or goes back brings nothing. |
| TokenBucketModule.TicksAreTicks | ios/Pods/libevent/bufferevent_ratelim.c:73-90 | Wrapped counters tell the true number of ticks, up to 2^31 - 1. |
| TokenBucketModule.ConsumedIsCovered | ios/Pods/libevent/bufferevent_ratelim.c:197-293 | What is consumed is covered by what was there and what the ticks brought. |
| TokenBucketModule.WindowBound | ios/Pods/libevent/bufferevent_ratelim.c:197-293 | Over any run of queries, refills and uses, at most maximum + k * rate bytes are consumed in any window of k ticks. |
| RateLimit.BufferEvent.ReadInWindow | ios/Pods/libevent/bufferevent_ratelim.c:197-439 | Any run of reads and refill timers in a window of k ticks, carried out by the code itself, reads just what the bucket kept up to date at each call would grant, and never more than maximum + k * rate bytes. |
| RateLimit.BufferEvent.DecrementReadBuckets | ios/Pods/libevent/bufferevent_ratelim.c:272-308 | Takes the bytes out (or puts some back); afterwards reading is suspended for bandwidth exactly when the bucket is empty, and a suspended bufferevent waits for a refill. |
| RateLimit.BufferEvent.DecrementWriteBuckets | ios/Pods/libevent/bufferevent_ratelim.c:310-346 | The same for writing; one side going on does not cancel the other's refill. |
| RateLimit.BufferEvent.DecrementReadLimit | ios/Pods/libevent/bufferevent_ratelim.c:968-993 | The same at the user's request, on the crossing of zero only. |
| RateLimit.BufferEvent.DecrementWriteLimit | ios/Pods/libevent/bufferevent_ratelim.c:995-1022 | The same for writing. |
| RateLimit.BufferEvent.QueryLimit | ios/Pods/libevent/bufferevent_ratelim.c:197-258 | Brings the bucket up to date exactly; the result is what is in it, never negative; without a limit it is the most for a single operation. |
| RateLimit.BufferEvent.RefillCallback | ios/Pods/libevent/bufferevent_ratelim.c:393-439 | Refills exactly; a side goes on exactly when it is no longer empty, and the timer is set again exactly when one is still suspended. |
| RateLimit.BufferEvent.SetRateLimit | ios/Pods/libevent/bufferevent_ratelim.c:559-635 | Setting, changing or removing the limit keeps no-wedge; a used bucket is only clipped; setting the same one changes nothing. |
| RateGroup.StepKeepsInv | ios/Pods/libevent/bufferevent_ratelim.c:349-523 | Every step of every thread (join, leave, be freed, query, decrement, decrement by hand, refill, change of the configuration or the least share, visits with failing try-locks) keeps: who is stopped is a member of a group that is suspended, to be unsuspended, or being so; an empty bucket means suspension as long as the least share stays at something. |
| RateGroup.RunKeepsInv | ios/Pods/libevent/bufferevent_ratelim.c:349-557 | So does every interleaving. |
| RateGroup.StepEffects | ios/Pods/libevent/bufferevent_ratelim.c:228-557 | What every step does to the bucket, to whether the group is suspended, and to who carries the suspension: a decrement suspends exactly when it leaves nothing and sets going otherwise, one by hand acts on the crossing of zero, a refill sets going exactly when the bucket holds the least share or the group is to be unsuspended; every change starts a walk over all members. |
| RateGroup.NobodyIsForgotten | ios/Pods/libevent/bufferevent_ratelim.c:446-557 | In every interleaving a stopped member belongs to a group that is suspended, pending or unsuspending; and a pending group is walked again at the next tick. |
| RateGroup.WalkEnds | ios/Pods/libevent/bufferevent_ratelim.c:487-523 | A walk that unsuspends, with whatever other threads do in between, ends with the group not suspended; it is to be walked again exactly when some lock could not be had, and otherwise no member is stopped. |
| RateGroup.RefillSetsGoing | ios/Pods/libevent/bufferevent_ratelim.c:446-557 | In every interleaving: when nobody walks, a refill that brings a suspended group to the least share, or any refill of a group that is to be unsuspended, starts a walk over all members; at its end nobody is stopped if every lock could be had, and if not the next refill, whatever it brings, walks over all of them again. |
| RateGroup.EverybodyGoesOn | ios/Pods/libevent/bufferevent_ratelim.c:446-557 | From every state that can be reached in which nobody walks or holds a lock, such a refill and the walk it starts can be carried out, and lead to a state in which nobody is stopped. |
| RateGroup.NobodyIsStuck | ios/Pods/libevent/bufferevent_ratelim.c:487-523 | When the group goes on and nothing is pending, no member is stopped. |
| RateGroup.NobodyIsHeldBack | ios/Pods/libevent/bufferevent_ratelim.c:786-807 | A bufferevent that has left is not held up by the group, unless it is being freed. |
| RateGroup.EachIsARun | ios/Pods/libevent/bufferevent_ratelim.c:349-523 | A run in which reading and writing share members and locks is, in each direction, a run of that direction alone. |
| RateGroup.NobodyIsStuckEitherWay | ios/Pods/libevent/bufferevent_ratelim.c:349-557 | In every interleaving of both directions the invariant holds in each, they agree on members and locks, and no member is stopped in a direction in which the group goes on with nothing pending. |
| RateGroup.ShareIsEqualPart | ios/Pods/libevent/bufferevent_ratelim.c:228-258 | While the group goes on, a share is the equal part of the bucket rounded down, or the least share if that is more. |
| RateGroup.SharesFit | ios/Pods/libevent/bufferevent_ratelim.c:228-258 | What all members are granted is no more than the bucket holds, unless the least share has to be granted; each is granted the less of its share and its own bucket. |
| RateGroup.NothingGranted | ios/Pods/libevent/bufferevent_ratelim.c:228-258 | In every run in which the least share is never set below 1, an empty bucket means that the group is suspended, and no member is granted a byte while it is empty or suspended. |
| RateGroup.LeastShareDecides | ios/Pods/libevent/bufferevent_ratelim.c:528-557 | That an empty bucket means suspension holds in every run exactly when the least share is never below 1. |
| RateGroup.RandomOrder | ios/Pods/libevent/bufferevent_ratelim.c:445-484 | The walk from a random member visits each member exactly once. |
| RateLimit.BufferEvent.SuspendRead | ios/Pods/libevent/bufferevent.c:66-75 | Of all reasons to wait just this one is added, and whoever read before exactly as enabled and free of reasons still does: it has stopped. |
| RateLimit.BufferEvent.UnsuspendRead | ios/Pods/libevent/bufferevent.c:77-86 | Of all reasons just this one is taken away; reading is still exactly for who is enabled and has no reason to wait. |
| RateLimit.BufferEvent.SuspendWrite | ios/Pods/libevent/bufferevent.c:88-97 | The same as for reading. |
| RateLimit.BufferEvent.UnsuspendWrite | ios/Pods/libevent/bufferevent.c:99-108 | The same as for reading. |
| RateLimit.BufferEvent.TakeReadTurns | ios/Pods/libevent/bufferevent.c:66-86 | After any run of suspending and unsuspending a reason stands exactly when the last turn about it was to suspend (or there was none and it stood before), and reading goes on exactly when none stands. |
| RateLimit.BufferEvent.TakeWriteTurns | ios/Pods/libevent/bufferevent.c:88-108 | The same for writing. |
| RateLimit.BufferEvent.Enable | ios/Pods/libevent/bufferevent.c:481-503 | Enables sides; the backend reads and writes exactly when a side is enabled and has no reason to wait. |
| RateLimit.BufferEvent.Disable | ios/Pods/libevent/bufferevent.c:572-587 | Disables sides. |
| TagCodec.NibbleIs | ios/Pods/libevent/event_tagging.c:121-142 | The i-th nibble of a number is its i-th hexadecimal digit. |
| TagCodec.IntFormat | ios/Pods/libevent/event_tagging.c:121-142 | The first half byte of a code is the number of digits less one; the digits follow from the lowest on, the upper half of each byte before the lower. |
| TagCodec.Examples | ios/Pods/libevent/event_tagging.c:121-205 | The bytes of four codes, worked out by hand. |
| TagCodec.IntRoundTrip | ios/Pods/libevent/event_tagging.c:121-142 | A number of up to 64 bits is read back from its nibbles, whatever follows. |
| TagCodec.IntPrefixFree | ios/Pods/libevent/event_tagging.c:319-354 | No code of a number is the beginning of another's. |
| TagCodec.TagRoundTrip | ios/Pods/libevent/event_tagging.c:177-246 | A 32-bit tag is read back from its base-128 code, whatever follows. |
| TagCodec.TagPrefixFree | ios/Pods/libevent/event_tagging.c:177-246 | No code of a tag is the beginning of another's. |
| TagCodec.RecordRoundTrip | ios/Pods/libevent/event_tagging.c:260-267 | A record is read back as it was written, and what follows it is left. |
| TagCodec.StreamRoundTrip | ios/Pods/libevent/event_tagging.c:260-484 | A stream of any list of records is read back record by record with nothing left over. |
| TagCodec.PeekedLengthIsLength | ios/Pods/libevent/event_tagging.c:405-421 | Unless it wraps around, the length that is told is that of the record, and what follows it is what is left after reading it. |
| EventTagging.EncodeIntInternal | ios/Pods/libevent/event_tagging.c:121-142 | Shifting and masking writes just the nibble code. |
| EventTagging.EncodeInt | ios/Pods/libevent/event_tagging.c:156-162 | Appends the code of a 32-bit number, unless the buffer refuses it. |
| EventTagging.EncodeTagInternal | ios/Pods/libevent/event_tagging.c:177-198 | Writes just the base-128 code. |
| EventTagging.EncodeTag | ios/Pods/libevent/event_tagging.c:177-198 | Appends it, unless the buffer refuses it. |
| EventTagging.DecodeTagInternal | ios/Pods/libevent/event_tagging.c:200-246 | Reads the tag at the front, across blocks, and drains it if asked and not frozen; -1 exactly for an incomplete or too long one; reads past the memory of the first block exactly when that ends after five bytes, more follow, and the five go on as a tag of up to 32 bits would. |
| EventTagging.SixthByte | ios/Pods/libevent/event_tagging.c:200-246 | Such a buffer. |
| EventTagging.CodesDoNotStray | ios/Pods/libevent/event_tagging.c:177-246 | What the encoder writes never leads there. |
| EventTagging.DecodeIntInternal | ios/Pods/libevent/event_tagging.c:319-354 | Reads the number at an offset without changing the content; -1 exactly when it is incomplete or too long. |
| EventTagging.DecodeInt | ios/Pods/libevent/event_tagging.c:379-387 | Reads a number off the front, where it stays while the start is frozen. |
| EventTagging.PeekLength | ios/Pods/libevent/event_tagging.c:405-421 | Tells the length of the record at the front and leaves it there. |
| EventTagging.UnmarshalHeader | ios/Pods/libevent/event_tagging.c:441-455 | Reads tag and length off the front; -1 when the payload is not all there. |
| EventTagging.Consume | ios/Pods/libevent/event_tagging.c:457-466 | Drains exactly one record. |
| EventTagging.Unmarshal | ios/Pods/libevent/event_tagging.c:470-484 | Moves exactly the payload of one record to another buffer. |
| EventTagging.Marshal | ios/Pods/libevent/event_tagging.c:260-267 | Appends the code of one record in three parts, each unless the buffer refuses it; all of it when there is room. |
| EventTagging.MarshalAll | ios/Pods/libevent/event_tagging.c:260-267 | A list of records is appended to a buffer as their stream. |
| EventTagging.WriteAndRead | ios/Pods/libevent/event_tagging.c:260-484 | Records written to a buffer are read back, in order, by the code itself. |
| DnsName.NameParse | ios/Pods/libevent/evdns.c:976-1030 | On any packet it ends (jumps left, then bytes left), stays in bounds, and gives the name and the place just past it, or -1, as the recursive reading of section 4.1.4 of RFC 1035 does. |
| DnsName.SpelledIsRead | ios/Pods/libevent/evdns.c:976-1030 | A name that is spelled out with labels and backward pointers is read back, whatever has been read before, and the reading comes out just past it. |
| DnsName.PointerReaches | ios/Pods/libevent/evdns.c:1640-1644 | A pointer leads to the place it was made for exactly when that is within the first 2^14 bytes. |
| DnsName.WrittenIsSpelled | ios/Pods/libevent/evdns.c:1575-1678 | Writing a name spells it, or points strictly backwards to where it is spelled, and every new entry of the table tells where its name is. |
| DnsName.SecondTime | ios/Pods/libevent/evdns.c:1625-1642 | Names are compressed: one that has been written before takes just two bytes, unless the table was full by then. |
| DnsName.TableTells | ios/Pods/libevent/evdns.c:1575-1678 | In a message of any names and other bytes, every entry of the shared table tells where its name is spelled. |
| DnsName.NamesReadBack | ios/Pods/libevent/evdns.c:976-1678 | Each name of such a message, written into a buffer of at most 16388 bytes, is read back from its start, and the reading comes out at its end. |
| DnsName.EntriesReadBack | ios/Pods/libevent/evdns.c:976-1678 | Each entry of the table is read back as its name. |
| DnsName.BufferSizeDecides | ios/Pods/libevent/evdns.c:976-1678 | All names of all messages that fit are read back exactly for buffers of at most 16388 bytes; the code does not check that a place fits into a pointer. |
| DnsName.LostMessage | ios/Pods/libevent/evdns.c:1575-1678 | For every larger buffer a message with a name that is not read back. |
| DnsName.ResponsesReadBack | ios/Pods/libevent/evdns.c:1900-1995 | In the 1500 bytes that a response is written into, every name is read back. |
| DnsWriter.LabelTable.GetPos | ios/Pods/libevent/evdns.c:1574-1583 | The place of the first entry for a name, or -1. |
| DnsWriter.LabelTable.Add | ios/Pods/libevent/evdns.c:1586-1601 | Afterwards the name is found at the place given, unless it was found before or there are 128 entries already, and every other name is found where it was. |
| DnsWriter.NameToLabels | ios/Pods/libevent/evdns.c:1603-1678 | Writes the name in place just as specified, extends the table with it, and returns the place past it, -1 for a long label or -2 for no room; it writes out of bounds exactly when the memory ends with the buffer and the name fills that: no part of it is known to the table, its labels and their lengths end at the end, and the last label is neither empty nor ends in a NUL. |
| DnsWriter.PastTheEnd | ios/Pods/libevent/evdns.c:1603-1678 | For every message, table and name: what is written comes to lie past the end of the buffer exactly when the name fills it. |
| DnsWriter.FilledResponse | ios/Pods/libevent/evdns.c:1909-1967 | Adding the name "a", with an empty table, to a response of 1498 bytes writes past its 1500. |
| DnsMessage.WriteFits | ios/Pods/libevent/evdns.c:1683-1688 | With the room that evdns_request_len asks for, a name is written unless a label is too long. |
| DnsMessage.RequestDataBuild | ios/Pods/libevent/evdns.c:1695-1720 | In any buffer with at least the room that a request asks for the packet is a header, the name, the type and the class; -2 exactly for a name over 255 bytes, -1 exactly for a label over 63. |
| DnsMessage.RequestParse | ios/Pods/libevent/evdns.c:1232-1318 | Reads any packet as specified: a null pointer is followed exactly when it is shorter than a header; otherwise it is rejected when it is an answer, has no question, or has one that cannot be read. |
| DnsMessage.ReadInBytes | ios/Pods/libevent/evdns.c:1246-1318 | A packet is read exactly when it has a header whose third byte is less than 128 (it is no answer), it has a question, and all its questions can be read; then the number, the two flags that are kept and how many questions there are come from the bytes of the header. |
| DnsMessage.OperationIsNotSeen | ios/Pods/libevent/evdns.c:1257-1300 | The branch that refuses other operations than queries is never taken, as the flags have been masked before. |
| DnsMessage.RequestReadsBack | ios/Pods/libevent/evdns.c:1232-1720 | What a resolver builds a server reads: the same number, a standard query with recursion desired (bytes 1 and 0), one question and nothing else, and just that question. |
| DnsRing.Insert | ios/Pods/libevent/evdns.c:2754-2768 | Linking a request in before the head makes it the last one of the circular list. |
| DnsRing.Remove | ios/Pods/libevent/evdns.c:2716-2751 | Unlinking a request leaves the circular list of all the others, in order, from the right head. |
| DnsRing.Find | ios/Pods/libevent/evdns.c:472-487 | The walk round a circular list finds the first request that is looked for, or none exactly when there is none. |
| DnsIndex.RequestIndex.Insert | ios/Pods/libevent/evdns.c:2754-2768 | On an array of heads of circular lists: linking a request in puts its number at the end of the list of its transaction number, as in the index, and leaves all other lists alone. |
| DnsIndex.RequestIndex.Remove | ios/Pods/libevent/evdns.c:2716-2751 | Unlinking it takes just its number off that list. |
| DnsIndex.RequestIndex.FindFromTransId | ios/Pods/libevent/evdns.c:472-487 | When the lists hold the requests in flight as the index says, walking round one of them finds a request in flight with the number exactly when there is one. |
| DnsServers.SomeoneIsUp | ios/Pods/libevent/evdns.c:1349-1382 | As long as the count of good servers is right, that all turn out to be down while it is not zero cannot happen. |
| DnsServers.PickedIsUp | ios/Pods/libevent/evdns.c:1349-1382 | A server that is up is chosen whenever there is one, and some server whenever there are any. |
| DnsServers.PickTakesTheFirst | ios/Pods/libevent/evdns.c:1349-1382 | The first server that is up is chosen and goes behind all others that are up. |
| DnsServers.InTurn | ios/Pods/libevent/evdns.c:1349-1382 | With no change of state, n choices in a row are the next n servers that are up, in order. |
| DnsServers.EachOnce | ios/Pods/libevent/evdns.c:1349-1382 | With k servers up, of any k choices in a row exactly one falls on each of them. |
| DnsServers.StateChanges | ios/Pods/libevent/evdns.c:561-640 | A server going down or up changes the count of good ones by one and keeps it right. |
| DnsServers.OneMore | ios/Pods/libevent/evdns.c:2501-2598 | So does a new server, put behind the head. |
| DnsRequests.FindAgrees | ios/Pods/libevent/evdns.c:472-487 | Looking into one bucket agrees with a scan of all the requests in flight. |
| DnsRequests.NotFoundIsFree | ios/Pods/libevent/evdns.c:1332-1344 | A number is free exactly when it is not found. |
| DnsRequests.SomeNumberIsFree | ios/Pods/libevent/evdns.c:1332-1344 | There is a free number as long as fewer than 65535 requests are in flight. |
| DnsRequests.SubmitKeeps | ios/Pods/libevent/evdns.c:2780-2875 | A new request goes into flight, with the number drawn and at the next server in turn, which is up whenever one is, exactly when there is room and a server; otherwise it waits as the last one and nothing else changes; index, numbers, counters and server loads stay right. |
| DnsRequests.PromoteKeeps | ios/Pods/libevent/evdns.c:746-774 | When there is room, somebody waits and there is a server, the request that has waited longest goes into flight with the number drawn, at the next server in turn; otherwise nothing changes. |
| DnsRequests.FinishKeeps | ios/Pods/libevent/evdns.c:652-710 | A request that is over is off its list and its counter, in flight or waiting; the others keep their order. |
| DnsRequests.SwapKeeps | ios/Pods/libevent/evdns.c:548-557 | A request is given to the next server in turn; none but it changes. |
| DnsRequests.FailKeeps | ios/Pods/libevent/evdns.c:561-619 | When a server fails and another is up, every request not sent yet leaves it for a server that is up; a request that has been sent, or that another server has, is not touched, and with no other server up none is; none is lost. |
| DnsRequests.RecoverKeeps | ios/Pods/libevent/evdns.c:621-640 | A server that is up again is counted, and nothing else changes. |
| DnsRequests.AddServerKeeps | ios/Pods/libevent/evdns.c:2501-2598 | A new server is up, has nothing in flight, and stands just behind the head; nothing else changes. |
| DnsRequests.SetMaxKeeps | ios/Pods/libevent/evdns.c:3425-3454 | The limit is the one asked for, or 1; there is a bucket for every five requests; every request in flight is in the right one, and nothing else has changed. |
| DnsRequests.StepKeeps | ios/Pods/libevent/evdns.c:472-774 | Every step keeps the invariant: buckets, distinct numbers, counters equal to list sizes, loads equal to the requests of a server, the ring. |
| DnsRequests.RunKeepsInv | ios/Pods/libevent/evdns.c:472-774 | So does every run. |
| DnsRequests.RunKeepsFree | ios/Pods/libevent/evdns.c:1332-1344 | In every run within the limit of the max-inflight option a free number can be found. |
| EvdnsBaseModule.EvdnsBase.RequestFindFromTransId | ios/Pods/libevent/evdns.c:472-487 | The walk along one list finds the request in flight with a number, or none exactly when there is none. |
| EvdnsBaseModule.EvdnsBase.TransactionIdPick | ios/Pods/libevent/evdns.c:1332-1344 | Ends with the first number drawn that is free, for every fair generator. |
| EvdnsBaseModule.EvdnsBase.NameserverPick | ios/Pods/libevent/evdns.c:1349-1382 | The walk round the ring chooses as specified; its assertion cannot fail. |
| EvdnsBaseModule.EvdnsBase.RequestSubmit | ios/Pods/libevent/evdns.c:2780-2875 | With room and a nameserver, the new request is in flight under the free number drawn, at a nameserver that is up whenever one is, counted, and sent with what that may bring; otherwise it waits as the last one and no other request, counter or server changes. Afterwards it does not wait unless there is no room or no nameserver. |
| DnsRequests.TransmitKeeps | ios/Pods/libevent/evdns.c:2253-2303 | Sending a request, whatever comes of it, keeps the invariant, loses no request, lets none wait, and leaves the request in flight with its number. |
| EvdnsBaseModule.EvdnsBase.PumpWaitingQueue | ios/Pods/libevent/evdns.c:746-774 | Requests go into flight in the order in which they have waited, until there is no room, nobody waits or there is no server; each of them, and no other, is sent just once, whatever comes of sending them. |
| EvdnsBaseModule.EvdnsBase.RequestFinished | ios/Pods/libevent/evdns.c:652-710 | Takes the request off its list and lets others go instead, each of which is sent once; after it nobody waits who need not. |
| EvdnsBaseModule.EvdnsBase.RequestSwapNs | ios/Pods/libevent/evdns.c:548-557 | Moves a request and its count to another server; the assertion on the old count cannot fail. |
| EvdnsBaseModule.EvdnsBase.NameserverFailed | ios/Pods/libevent/evdns.c:561-619 | The walk over all lists moves just what has not been sent; the assertion on the count cannot fail. |
| EvdnsBaseModule.EvdnsBase.NameserverUp | ios/Pods/libevent/evdns.c:621-640 | The code does what the step says. |
| EvdnsBaseModule.EvdnsBase.NameserverAdd | ios/Pods/libevent/evdns.c:2501-2598 | An address that a nameserver has already is refused with 3 and nothing changes; otherwise the new one is put behind the head, and the addresses stay different. |
| EvdnsBaseModule.EvdnsBase.RequestReissue | ios/Pods/libevent/evdns.c:718-739 | 1 exactly when no other server is to be had; with the old one down and another up, the request goes to one that is up. |
| EvdnsBaseModule.EvdnsBase.RequestTransmit | ios/Pods/libevent/evdns.c:2253-2303 | A send that fails for good fails the server; a request not sent before is then given to one that is up, if another is, and still counted as sent. |
| EvdnsBaseModule.EvdnsBase.SetMaxRequestsInflight | ios/Pods/libevent/evdns.c:3425-3454 | Moving all requests one by one to new lists gives the rehashed index. |

## Left out

Byte queues:

- Callbacks, their counters of added and deleted bytes, locks, and deferred running of callbacks.
- Pinned, multicast, file and mmap blocks; `evbuffer_read`, `evbuffer_write`, `evbuffer_peek`, printf.
- Failures to allocate, but for sizes that cannot be represented.
- EvBufferModule.EvBuffer.AddBuffer: asks that the two lengths do not overflow when added, as the code adds them without a check.
- EvBufferModule.EvBuffer.PrependBuffer: the same.
- EvBufferModule.EvBuffer.RemoveBuffer: the same.
- EvBufferModule.EvBuffer.AddReference: asks that the user's memory is no larger than a block can be and is not one of the buffer's
  own arrays; that the user changes it later is not modelled.
- EvBufferSearch.SearchRange: asks that the buffer is not longer than SSIZE_MAX, as positions are of type ev_ssize_t.
- EvBufferSearch.SearchEol: the same.
- EvBufferSearch.PtrSubtract: the same.
- EvBufferSearch.GetChr: is about positions that denote a byte or the end, as the other operations return them.
- EvBufferRun.Run: asks that a block for prepended bytes can be allocated, and that lengths do not overflow when added.
- EvBufferSpace.ReserveSpace: that the caller writes only into the vectors is not modelled; `CommitSpace` takes what lies in them.
- A pointer into memory is an array and an offset; the size of a block's header is that of a 64-bit system.

The event loop:

- Signals, the start of finalization (that an event is being finalized is a fixed attribute), changing priorities, the debug table,
  pipes to wake the loop up, threads, and calls of the backend but for their success.
- A time is tagged with its common-timeout queue by a field of its own instead of bits in its microseconds, but for
  `InitCommonTimeout`, which returns the bits; microseconds are not negative.
- EventBaseModule.EventBase.EventAdd: the reserving of a slot in the heap, which may fail, is modelled in `TimeHeap.Push` only; the
  limit of 2^32 - 1 timers is not modelled.
- EventBaseModule.EventBase.LoopRound: what the backend makes active and the time are parameters; the round is observed for a
  number of callbacks, and `stopped` tells that it was reached.
- EventRounds.QuietRound: is about rounds in which neither the backend nor a callback does anything to the base by itself, and in which
  no persistent event has a negative interval; what other rounds do is said by their states and logs.
- Events are kept in a table by number; the heap and the queues hold the numbers.
- The limits of the dispatcher are set once; a callback is a list of actions chosen beforehand.
- EventBaseModule.EventBase.ProcessActive: takes a bound on the number of callbacks to be run, as callbacks that activate events
  can keep it running; `stopped` tells that it was reached.
- EventBaseModule.EventBase.ProcessSingleQueue: the same.

Watching descriptors:

- Failures of memory or of the backend, signals, edge-triggered events, the hash-table variant, and what epoll.c does when the
  kernel refuses an operation.
- The epoll table is stated as the rule that its comment gives, extended by the bit for closing; the entries for a change that is
  both an addition and a deletion cannot be reached.
- EvMapModule.EvMap.Add: asks that the event is not listed yet, as the caller makes sure by its flags.
- EvMapModule.EvMap.Del: asks that the event is listed if there is a slot for the descriptor, as the caller makes sure.

Rate limits:

- Failures of event_add; what is configured is compared by a flag instead of a pointer.
- A decrement asks that the new limit fits into its type, as the code subtracts without a check.
- The totals of a group, and the choice of the limits on a single read or write.
- RateGroup.StepKeepsInv: leaves open how much a refill brings, as the bucket's arithmetic is proved apart from it.

DNS:

- Sockets, timers, the callbacks of users, search lists, probes, clearing nameservers, reading resolv.conf and hosts, random case
  of letters, replies of servers and the cutting of long ones, and reply_parse but for its reading of names.
- DnsName.NamesReadBack: is for well-formed names (labels of 1 to 63 bytes without NUL, at most 255 bytes in all).
- EvdnsBaseModule.EvdnsBase.TransactionIdPick: is about a generator that yields every number again and again.
- EvdnsBaseModule.EvdnsBase.RequestSubmit: is about a request whose packet could be built; a name that is too long is refused before
  anything changes but the random generator.
- Requests are kept in a table by number, and the lists of `EvdnsBase` are sequences of numbers; that circular lists act as such
  sequences, one by one and as an index, is proved in `DnsRing` and `DnsIndex`.

The tagged format:

- Marshalling of numbers, strings and times as payloads; integers of 64 bits but for their code.
- EventTagging.Unmarshal: asks that the target takes the bytes, that the source is not frozen, and that it is not longer than
  INT_MAX, as lengths are returned as int.
- EventTagging.UnmarshalHeader: the same.
- EventTagging.Consume: the same.
- EventTagging.WriteAndRead: asks that the stream is not longer than INT_MAX.

Not modelled at all: the application's screens, and the rest of libevent (rpc, http, bufferevents over sockets, pairs and filters,
listeners, threads, random numbers).
