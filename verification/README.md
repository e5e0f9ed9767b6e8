# Verified models of libevent

Dafny models of the parts of libevent that hold its hardest invariants, with proofs
about every input, every run or every reachable state. `dafny verify dfyconfig.toml`
checks everything.

- **evbuffer** (`Chains`, `Evbuffer*`): a byte string kept in a list of chains with
  slack at both ends and a cached pointer to the last chain with data. Every operation
  is proved to be the plain operation on the string, whatever storage strategy it takes,
  and `EvbufferRun` proves it of whole runs on two buffers. Two operations can lose the
  last chain with data when empty chains stand in the way; for both the condition that
  they do not is proved to be exact.
- **DNS names** (`DnsNames`, `DnsParse`, `DnsEncode`, `DnsMessage`): the compressing
  encoder and the parser of section 4.1.4 of RFC 1035. A whole message written with one
  table of suffixes parses back, name by name.
- **DNS requests** (`NameserverRing`, `DnsQueues`, `DnsScheduler`): requests in flight
  and waiting, hash buckets, counters, the ring of servers.
- **getaddrinfo** (`Getaddrinfo`, `GetaddrinfoOutcome`): the join of the A and AAAA lookups as a concurrent
  state machine; a cancel may come from another thread between the two halves of a
  callback. What the user hears after a cancel or when the timer goes off is proved for
  every continuation.
- **event core** (`MinHeap`, `EventQueues`, `EventCore`, `EventLoop`, `EventDispatch`,
  `EventRun`, `EventLaws`): flags, queues, counters, the heap, common timeouts, finalization. The
  state of a base is a map from events to flags and times; one layer proves that queues
  and counters always say the same as this map, the next one what the operations do to it,
  and the last one what users can rely on over whole runs: when an added event is due, that
  a deleted one does not run.
- **descriptors and epoll** (`EpollTable`, `Epoll`, `Evmap`, `EvmapRun`): reference counts
  per descriptor and a list of coalesced changes, against telling the kernel at once; all
  512 rows of the operation table are checked against the rule they were made by.
- **rate limits** (`TokenBucket`, `RateGroup`, `RateLimit`, `RateLimitUse`): the buckets in
  machine arithmetic, groups, the suspension of single bufferevents, and the bound on what
  they move.
- **tagged encoding** (`TagInts`, `Tagging`, `TagStream`) and **arc4random** (`Arc4`,
  `Rc4`, `Uniform`).

`Options`, `ByteStrings`, `WordSizes`, `IdLists` and `Cycles` hold what several of them
share.

What the environment decides is a parameter or a nondeterministic choice: clock
readings, what a send or a lock attempt does, which random bytes come, what evmap
answers to the event core. Linked lists are sequences, and a pointer to a link is the
index of the chain it leads to.

Where the code and its own words differ, the code is followed: the comment at
libevent/event_tagging.c:80-93 has the high-order group of a tag first, the code writes
the low-order one first.

Properties that turned out not to hold of the code everywhere, each with its exact
condition:

- `advance_last_with_data` stops at the first empty chain (`AdvanceReachesLast`), so
  evbuffer_remove_buffer keeps both buffers in order if and only if the source is movable
  (`RemoveExact`; `EmptyInFront` is one that is not), and a commit of one vector into the
  last chain does if and only if that chain is at most the one behind the last with data
  (`CommitLastExact`). Buffers without gaps are movable (`PackedIsMovable`). Gaps come
  from prepending a whole buffer, from prepending nothing before a chain that cannot be
  written to, and from committing an empty vector before one that is not
  (`GapExact`, `EmptyVectorMakesGap`).
- A group's bucket stays above minus a share, however what is outstanding is used, if and
  only if shares are only told when there is room (`RunStaysAbove`); telling them one at a
  time is enough (`OneHasRoom`), two at once can be too much (`TwoAtOnce`). Without that it
  is overdrawn by less than what is outstanding, if and only if no charge wraps
  (`RunSound`, `WrapRun`).
- Lengths of 2^31 bytes and more do not survive the tagged encoding (`ItemRoundTrip`,
  `PeekIsConsumed`).
- Refunds can lift a limit so far that an update overflows. A bucket with tokens is empty
  after an update exactly then (`UpdateEmpties`), and a direction is left without tokens
  and not suspended exactly by the actions that do this to it (`RunSound`, `OverflowRun`).
  No run leaves a direction suspended without a timer (`RunProper`, `Recover`).
- A name with an empty label is read back up to that label. Without a table it survives
  encoding and parsing if and only if it has none (`PlainRoundTrip`,
  `DoubleDotIsCutShort`); in a message also if it is only a dot and the table knows that
  (`WriteMessage`, `DotSurvivesTwice`).
- A bucket above its maximum is not brought down by an update (`RefilledExact`,
  `AboveMaximumStays`).

## Model

| member | source | states |
|---|---|---|
| `Evbuffer.AllocationSize` | libevent/buffer.c:155-193 | an allocation is 1024 doubled so often that it is at least what is asked for and less than twice that, or 1024; near the top of the range it is exact |
| `Evbuffer.NewChain` | libevent/buffer.c:155-193 | a new chain is empty and has the room asked for; there is none exactly when the request is too large |
| `Evbuffer.Buffer.TrailingSlot` | libevent/buffer.c:284-302 | finds the link behind the last chain with data, with nothing but empty chains from there on |
| `Evbuffer.Buffer.ChainInsert` | libevent/buffer.c:307-326 | inserting a chain appends its bytes, drops only empty chains, and keeps `last` and `last_with_datap` right |
| `Evbuffer.Buffer.Add` | libevent/buffer.c:1722-1817 | whichever storage strategy is taken, the bytes are appended; it fails exactly if the end is frozen or the size is out of range, and then changes nothing |
| `Evbuffer.Buffer.AddRaw` | libevent/buffer.c:1722-1817 | adding to a buffer with a stale pointer trips an assertion or leaves it stale; else the bytes are appended, with the exact condition for failure |
| `Evbuffer.Buffer.Prepend` | libevent/buffer.c:1819-1899 | the bytes are put in front, split over two chains or not; when it fails, why, and that then a last part of them may have been put in front |
| `Evbuffer.Buffer.Drain` | libevent/buffer.c:1095-1161 | the first bytes go and no others; whole chains, part of one, or all |
| `EvbufferTransfer.AddBuffer` | libevent/buffer.c:960-1004 | all bytes of one buffer move to the end of another, chains and all; frozen buffers and the same buffer change nothing |
| `EvbufferTransfer.PrependBuffer` | libevent/buffer.c:1049-1093 | all bytes move to the front; exactly when this leaves an empty chain before one with data |
| `EvbufferTransfer.AdvanceReachesLast` | libevent/buffer.c:703-716 | advancing the cached pointer reaches the last chain with data if and only if no empty chain stands before one with data on the way |
| `EvbufferTransfer.RelinkExact` | libevent/buffer.c:1298-1320 | relinking chains behind others and advancing finds the last chain with data if and only if the moved chains have their empty ones at the end |
| `EvbufferTransfer.SourceExact` | libevent/buffer.c:1288-1328 | the source keeps its pointer right if and only if the loop does not pass empty chains only and then reach the last with data |
| `EvbufferTransfer.DestinationExact` | libevent/buffer.c:1302-1320 | the destination does if and only if nothing is relinked or the empty ones among the chains relinked come last; else the pointer is stuck |
| `EvbufferTransfer.RemoveExact` | libevent/buffer.c:1255-1342 | both pointers are right after a part of a buffer was moved if and only if the source is movable for that many bytes |
| `EvbufferTransfer.EmptyInFront` | libevent/buffer.c:1288-1328 | one that is not: an empty chain before the only one with data, one byte of two moved, and the pointer leads to the empty chain |
| `EvbufferTransfer.PackedIsMovable` | libevent/buffer.c:1255-1342 | a buffer without gaps always meets the condition for moving bytes out of it |
| `EvbufferTransfer.RemoveBuffer` | libevent/buffer.c:1254-1342 | the first bytes of one buffer move to the end of another, by relinking or copying, and both keep their invariant, if and only if all bytes move, none does, or the source is movable |
| `EvbufferSpace.ExpandFast` | libevent/buffer.c:2039-2147 | makes enough room in up to n chains without changing the string |
| `EvbufferSpace.ReadSetupVecs` | libevent/buffer.c:2213-2247 | the vectors cover the free memory of consecutive chains from the first with room on; their sizes add up to what is wanted, and with `exact` to no more |
| `EvbufferSpace.ReserveSpace` | libevent/buffer.c:669-700 | reserving gives vectors of at least the size asked for and changes no byte of the string, for no vector, one, or more |
| `EvbufferSpace.WriteVec` | libevent/buffer.c:669-700 | what a user writes into reserved memory is not part of the string yet |
| `EvbufferSpace.CommitSpace` | libevent/buffer.c:718-786 | committing appends exactly the written bytes, in order, or refuses and changes nothing, with the exact condition; exactly when the pointer goes stale, and exactly when an empty chain is left before one with data |
| `EvbufferSpace.GapExact` | libevent/buffer.c:764-774 | after committing vectors no empty chain stands before the last with data if and only if none did before and none that stays empty comes before a vector that is not empty |
| `EvbufferSpace.PositiveKeeps` | libevent/buffer.c:764-774 | vectors that all hold something make no gap |
| `EvbufferSpace.EmptyVectorMakesGap` | libevent/buffer.c:764-774 | an empty vector before one that is not empty makes one |
| `EvbufferSpace.CommitLastExact` | libevent/buffer.c:736-746 | the shortcut for one vector in the last chain finds the last chain with data if and only if that is at most one chain on |
| `EvbufferSpace.ExpandSingleChain` | libevent/buffer.c:1925-2035 | one chain with all the room asked for, found, realigned, replaced or new, and the same string |
| `EvbufferPullup.Pullup` | libevent/buffer.c:1344-1454 | the result is the contiguous front of the same string; there is none exactly if more is asked for than there is, or nothing, or too much for one chain |
| `EvbufferPullup.CopyKeepsBytes` | libevent/buffer.c:1413-1436 | the bytes copied and the chains left behind are what the chains denoted |
| `EvbufferPullup.MergeKeepsLast` | libevent/buffer.c:1413-1447 | the two flags of the merge decide the last chain with data correctly in every case |
| `EvbufferSearch.PtrSet` | libevent/buffer.c:2609-2659 | a pointer is set to a position, absolute or relative, exactly if the position exists, and then its chain and offset denote it |
| `EvbufferSearch.CopyoutFrom` | libevent/buffer.c:1178-1249 | copies exactly the bytes at a position, as many as there are, and reports how many |
| `EvbufferSearch.Remove` | libevent/buffer.c:1164-1176 | what is copied out and what stays is what there was |
| `EvbufferSearch.PtrMemcmp` | libevent/buffer.c:2665-2699 | comparing across chains is comparing strings, with the sign; it is zero exactly if the bytes occur there |
| `EvbufferSearch.OrderLaw` | libevent/buffer.c:2665-2699 | the sign is that of the first bytes that differ, and -1 beyond the end |
| `EvbufferSearch.SearchRange` | libevent/buffer.c:2707-2769 | the first occurrence from the start on that ends by the end, for any split into chains; not found exactly if there is none |
| `EvbufferRun.Run` | libevent/buffer.c:869-1454 | a run of any operations on either of two buffers, frozen or not, leaves them denoting what the plain operations give, with all invariants, up to an evbuffer_remove_buffer whose source is not movable; there is none if bytes are only moved out of buffers that nothing so far can have put a gap in |
| `EvbufferRun.Step` | libevent/buffer.c:869-1454 | each operation keeps both buffers right, and which of them may have gaps is known |
| `DnsParse.NameParse` | libevent/evdns.c:959-1013 | the loop with its index, jump counter and output limit computes the recursive parse |
| `DnsParse.ParseExact` | libevent/evdns.c:959-1013 | the parser returns a name exactly if it can be read from the packet, label by label and pointer by pointer, with no more pointers than bytes, and is shorter than the output; with the index behind the zero or the first pointer |
| `DnsNames.PointerFormat` | libevent/evdns.c:974-984 | a pointer has two bits set and then 14 bits, the high-order ones first |
| `DnsParse.ParseDenoted` | libevent/evdns.c:959-1013 | whatever labels a stretch of packet denotes, directly or through backward pointers, the parser returns, with the index behind it; the jump limit never gets in the way |
| `DnsParse.JoinLabels` | libevent/evdns.c:994-1006 | joining the labels of a well-formed name gives the name back, up to a trailing dot |
| `DnsParse.JoinExact` | libevent/evdns.c:994-1006 | what a reader makes of a name is the name, up to a trailing dot, if and only if no label is empty or the name is only a dot |
| `DnsParse.ParseName` | libevent/evdns.c:959-1013 | a stretch that denotes the labels of a name of up to 255 bytes, up to the first empty one, parses to them |
| `DnsEncode.LabelTable.GetPos` | libevent/evdns.c:1559-1568 | finds an entry with that suffix if and only if there is one |
| `DnsEncode.LabelTable.Add` | libevent/evdns.c:1571-1586 | adds an entry unless the table is full |
| `DnsEncode.CompleteIs` | libevent/evdns.c:1616-1663 | a name without an empty label is read to its end; one that is only a dot is if and only if the table knows it |
| `DnsEncode.DnsnameToLabels` | libevent/evdns.c:1599-1663 | writes any name, with a pointer for a known suffix, so that its labels up to the first empty one, and those of every suffix in the table, are denoted by backward pointers, and reading ends where writing did exactly if the name is complete; what the table learns; leaves earlier bytes alone; takes no more than without a table, never fails where that fits with a byte to spare, and without a table exactly when it fails |
| `DnsMessage.WriteItem` | libevent/evdns.c:1905-1960 | one name and its fixed fields keep every table entry right |
| `DnsMessage.WriteMessage` | libevent/evdns.c:1891-1985 | names and what goes behind them, written one after the other with one table, fill the packet without gaps; the response is cut to 512 bytes exactly if one does not fit or they end behind that, which they do not if they fit uncompressed; every name that ends within the response parses from it to its labels up to the first empty one, and comes back with its end if and only if it has no empty label, or is only a dot that the items before have taught the table |
| `DnsMessage.PlainRoundTrip` | libevent/evdns.c:959-1013 | without compression a name with short labels parses back, with the index behind it, if and only if no label is empty |
| `DnsMessage.PlainLength` | libevent/evdns.c:1599-1663 | the size of an uncompressed name, trailing dot or not |
| `DnsMessage.DoubleDotIsCutShort` | libevent/evdns.c:1616-1663 | two dots in a row: the name parses back cut short |
| `DnsMessage.DotSurvivesTwice` | libevent/evdns.c:1616-1663 | a name that is only a dot does not come back the first time and does the second, as a pointer |
| `EpollTable.EntryIsRule` | libevent/epolltable-internal.h:136-1164 | every one of the 512 literal rows is what the rule for reading, writing and closing gives |
| `Epoll.IndexDecodes` | libevent/epolltable-internal.h:124-130 | the index macro tells all changes apart and stays within 512 rows |
| `Epoll.TableDecides` | libevent/epolltable-internal.h:43-130 | the row that the index leads to is the decision for that change |
| `Epoll.DecideEvents` | libevent/epolltable-internal.h:43-120 | a row has no events exactly if there is nothing to do or the change both adds and deletes |
| `Epoll.DecideTarget` | libevent/epolltable-internal.h:43-120 | a row's events are the interest that results, and it deletes exactly if none is left |
| `Epoll.ApplyOneChange` | libevent/epoll.c:266-353 | with the retries, one change leaves the kernel with the interest it asks for, whatever was registered before |
| `Evmap.PlusCounted` | libevent/evmap.c:266-342 | adding an event keeps the counts equal to the list and adds its kinds to what is wanted |
| `Evmap.MinusCounted` | libevent/evmap.c:346-409 | deleting one keeps the counts and takes away exactly the kinds it was the last to want |
| `Evmap.WithoutTakes` | libevent/evmap.c:406-409 | one occurrence of exactly that event is taken off a list, and the others keep their order |
| `Evmap.MarkAddLeads` | libevent/evmap.c:854-887 | an add coalesced into a pending change leads to the old wish and the new kinds |
| `Evmap.MarkDelLeads` | libevent/evmap.c:889-939 | a delete coalesced into it leads to the old wish without them, and deletes only what is registered |
| `Evmap.EventMap.Enlist` | libevent/evmap.c:822-939 | a descriptor has one slot in the list of changes, new or reused |
| `Evmap.EventMap.IoAdd` | libevent/evmap.c:263-342 | the event is in the table unless a count would overflow; the result says whether the backend had to be told; table, changes and kernel stay in agreement |
| `Evmap.EventMap.IoDel` | libevent/evmap.c:344-409 | exactly that event is gone, once, and the others keep their order; the result says whether the backend had to be told; agreement is kept |
| `Evmap.ChangeIsSane` | libevent/epolltable-internal.h:43-120 | no row that adds and deletes at once is ever looked up |
| `Evmap.ApplyChanges` | libevent/epoll.c:355-372 | the loop applies all pending changes in order |
| `Evmap.RemoveAll` | libevent/evmap.c:766-786 | every change's descriptor points back at it, and afterwards at nothing |
| `Evmap.EventMap.Dispatch` | libevent/epoll.c:413-458 | after a dispatch the kernel knows, for every descriptor, exactly the kinds with a non-zero count, and no change is pending |
| `EvmapRun.RunBoth` | libevent/evmap.c:263-409 | for any run of adds, deletes and dispatches, holding changes back and telling the kernel at once give the same results and at the end the same kernel, which knows exactly the kinds of the events that were added more often than deleted |
| `EvmapRun.LiveLeft` | libevent/evmap.c:263-409 | the events that a run leaves on a descriptor are those that were added more often than deleted, as often as that |
| `EvmapRun.LiveWants` | libevent/evmap.c:263-409 | after a run a kind is wanted exactly if an event with that kind was added more often than deleted |
| `Getaddrinfo.NextGood` | libevent/evdns.c:4291-4568 | every step keeps the invariant of the protocol: results, both halves of a callback, the timer, a cancel, a shutdown |
| `Getaddrinfo.RunGood` | libevent/evdns.c:4291-4568 | over every interleaving, for either or both families: neither the callback nor the free happens twice, the request has been freed exactly if no lookup is left, and the timer runs only while exactly one is |
| `Getaddrinfo.RunEnds` | libevent/evdns.c:4410-4568 | from wherever a run has led, once the lookups that are left have ended the callback and the free have each happened once, with addresses exactly if there is no error |
| `GetaddrinfoOutcome.CancelHeard` | libevent/evdns.c:4753-4768 | after a cancel between callbacks, before the user was told, no lookup is waited for and the timer is off; whatever happens then the user hears once, without addresses, and that it was a cancel unless the timer goes off |
| `GetaddrinfoOutcome.CancelTooLate` | libevent/evdns.c:4418-4423 | a cancel when the callback of the last lookup has begun does nothing |
| `Getaddrinfo.Request.BeginCallback` | libevent/evdns.c:4410-4428 | the locked part reads whether the user cancelled and closes the door for later cancels if this is the last lookup |
| `Getaddrinfo.Request.EndCallback` | libevent/evdns.c:4428-4568 | the rest of the callback, in place, is the step of the protocol |
| `Getaddrinfo.Request.Timeout` | libevent/evdns.c:4319-4369 | the same for the timer; the source's assertion that one lookup is left holds |
| `Getaddrinfo.Request.UserCancel` | libevent/evdns.c:4753-4768 | the same for a cancel, which cancels what is still waiting or does nothing if the request is done |
| `Getaddrinfo.Run` | libevent/evdns.c:4291-4568 | a run on the object ends in the state of the run, of which the above is proved, so the source's assertion holds all along |
| `Getaddrinfo.BothReport` | libevent/evdns.c:4542-4568 | with both results in time the user gets the IPv4 addresses and then the IPv6 ones, in whichever order they came; if there are none, the error of the one that came last |
| `GetaddrinfoOutcome.TimerReports` | libevent/evdns.c:4319-4369 | with one result in and the timer gone off, the user gets what has arrived, or its error, the other lookup is given up, and nothing more is said |
| `GetaddrinfoOutcome.OneReports` | libevent/evdns.c:4410-4568 | a single lookup is reported as it ends, with the error for each kind of failure |
| `MinHeap.ShiftUp` | libevent/minheap-internal.h:149-171 | an early item goes up to its place: order, contents and every item's own index are right again |
| `MinHeap.ShiftDown` | libevent/minheap-internal.h:173-186 | a late item goes down to its place |
| `MinHeap.Heap.Push` | libevent/minheap-internal.h:71-77 | the heap holds the new item and the old ones |
| `MinHeap.Heap.Erase` | libevent/minheap-internal.h:96-115 | exactly that item is gone |
| `MinHeap.Heap.Top` | libevent/minheap-internal.h:69-69 | the top is the earliest of all items |
| `EventQueues.FindPlace` | libevent/event.c:3278-3306 | the place from the end where an event keeps its common-timeout list sorted |
| `EventQueues.BooksActiveIn` | libevent/event.c:3324-3343 | queues, heap and both counters agree with the flags after an event becomes active |
| `EventQueues.BooksActiveOut` | libevent/event.c:3183-3198 | and after it is taken off its active queue |
| `EventQueues.BooksLaterIn` | libevent/event.c:3345-3360 | and after it is put on the later queue |
| `EventQueues.BooksLaterOut` | libevent/event.c:3199-3213 | and after it is taken off it |
| `EventQueues.BooksInserted` | libevent/event.c:3308-3322 | and after it is inserted for its descriptor or taken out |
| `EventQueues.BooksTimeoutOut` | libevent/event.c:3214-3234 | and after its timeout is taken out of the heap or its list |
| `EventQueues.BooksHeapIn` | libevent/event.c:3362-3384 | and after its timeout is put in the heap |
| `EventQueues.BooksListIn` | libevent/event.c:3278-3384 | and after it is put on a common-timeout list, which stays sorted |
| `EventCore.EventBase.Delete` | libevent/event.c:2761-2846 | an event is on no queue any more, unless it is finalizing: then nothing happens |
| `EventCore.EventBase.Activate` | libevent/event.c:2866-2982 | an event becomes active at the end of the queue of its priority, from the later queue or from none, and reasons add up |
| `EventCore.EventBase.SetTimeout` | libevent/event.c:2614-2690 | an old timeout and an activation by timeout are replaced by the new time |
| `EventLoop.UserChange` | libevent/event.c:1405-1440 | a change to a user's event keeps every common list covered by its timer |
| `EventLoop.TimerChange` | libevent/event.c:1405-1440 | a change to a timer does, if the timer still goes off by the head, is active or is running |
| `EventLoop.Del` | libevent/event.c:2761-2846 | deleting keeps the invariant of the base |
| `EventLoop.Activate` | libevent/event.c:2866-2982 | activating does |
| `EventLoop.ActivateLater` | libevent/event.c:2925-2940 | activating later does |
| `EventLoop.FinalizeEvent` | libevent/event.c:2196-2209 | a finalizing event is active and on no other queue, and never again on a timeout queue |
| `EventLoop.RemoveTimer` | libevent/event.c:2503-2522 | removing a timeout forgets the repeat interval too |
| `EventLoop.Add` | libevent/event.c:2547-2717 | when it is refused nothing changes; else the event waits for its descriptor and its time, and the timer of a common list is set whenever the event becomes the head |
| `EventDispatch.TimeoutProcess` | libevent/event.c:3128-3152 | it ends, no event in the heap is due any more, and exactly those that were due have been deleted and activated |
| `EventDispatch.TimeoutNext` | libevent/event.c:3090-3125 | the wait ends no later than any pending timeout, also one that is only on a common list, and not before the first one |
| `EventDispatch.FireDue` | libevent/event.c:1428-1436 | exactly the due events of a common list fire |
| `EventDispatch.CommonTimeoutCallback` | libevent/event.c:1419-1440 | afterwards the timer is set for what is left on the list, and every list is covered |
| `EventDispatch.FirstQueue` | libevent/event.c:1735-1745 | lower priorities are taken first |
| `EventDispatch.TakeFirst` | libevent/event.c:1591-1650 | the first event of the queue is taken off and becomes the running one; a finalizing event is known to be finalizing |
| `EventDispatch.NextRun` | libevent/event.c:1531-1566 | a persistent event runs next at its interval after its last time, unless that has passed or it ran for another reason; never in the past |
| `EventDispatch.PersistAgain` | libevent/event.c:1519-1568 | a persistent event with a timeout is added again at that time, on the same common list, as the source asserts |
| `EventDispatch.MakeLaterActive` | libevent/event.c:3386-3399 | all events to be run later become active, no others, behind those of their priority and in order, and the counters stay |
| `EventRun.InitCommonTimeout` | libevent/event.c:1444-1516 | the list for a duration, found or new with its internal timer; none exactly if it is new and there are 256 |
| `EventRun.CountActive` | libevent/event.c:3882-3939 | the counter of active events is the length of all active queues and the later queue |
| `EventRun.Do` | libevent/event.c:1591-3152 | each action does to the map of events what its row says, at any clock reading, and keeps the invariant |
| `EventRun.Run` | libevent/event.c:2547-3044 | a run goes through states that follow from one another by its actions; in each no event is both active and later, finalizing events have no timeout and no event on a common list is forgotten; in the end both counters are the sizes they stand for |
| `EventRun.RunAndWait` | libevent/event.c:3090-3125 | after any run with no internal callback due, the wait then allowed ends no later than any pending timeout |
| `EventLaws.AddLaw` | libevent/event.c:2547-2717 | an event that was added is due so long after now, a persistent one keeps the interval, an activation by timeout is taken back, and it waits for its descriptor unless it is active |
| `EventLaws.TimeoutLaw` | libevent/event.c:2675-3152 | over any run, an event that was added with a time waits as long as nobody looks for what is due at that time or later, and fires when somebody first does, in the heap or on a common list |
| `EventLaws.Untouched` | libevent/event.c:1419-3399 | an action that is not about an event leaves it alone, but for a timeout that is due and its becoming active later |
| `EventLaws.StaysReady` | libevent/event.c:1591-1745 | an active event stays active until it is taken |
| `EventLaws.ActivateLaw` | libevent/event.c:2848-2982 | event_active makes an event active now or later unless it is finalizing or active, and reasons add up |
| `EventLaws.TakeLaw` | libevent/event.c:1591-1650 | an event that is taken is active no more, had the least priority number, and unless it is persistent waits for nothing more |
| `EventLaws.RepeatLaw` | libevent/event.c:1519-1568 | a persistent event with an interval is due again at the interval after its last time if it ran by timeout and that is not past, else after now |
| `EventLaws.PeriodLaw` | libevent/event.c:1519-3152 | over any run, a persistent event that was added with an interval, timed out and ran is due two intervals after it was added, or an interval from now if that is past |
| `EventLaws.DeletedStays` | libevent/event.c:2761-2846 | a deleted event stays off all queues, and so does not run, as long as nobody is about it |
| `EventLaws.FinalizeLaw` | libevent/event.c:2196-2209 | a finalized event is active, to be finalized, and on no other queue |
| `EventLaws.FinalizedStays` | libevent/event.c:2196-2209 | it is finalizing for ever, with no timeout and off its descriptor, whatever happens |
| `EventLaws.AssignLaw` | libevent/event.c:2065-2125 | an assigned event is on no queue and has the priority, descriptor and closure asked for |
| `NameserverRing.FullTurn` | libevent/evdns.c:1334-1367 | a full turn passes every server that is up once, wherever it starts |
| `NameserverRing.Ring.Pick` | libevent/evdns.c:1334-1367 | the next server that is up; the loop ends, and the assertion at its end is never reached |
| `NameserverRing.PickRound` | libevent/evdns.c:1334-1367 | with k servers up, any k picks in a row give each of them exactly once |
| `NameserverRing.Ring.SetState` | libevent/evdns.c:557-636 | the counter of good servers is the number that are up, and never below zero |
| `DnsQueues.EnterBooks` | libevent/evdns.c:2721-2842 | a request put in flight is in the bucket of its id, and all counters are the sizes of their sets |
| `DnsQueues.LeaveBooks` | libevent/evdns.c:648-664 | so they are after one is taken out |
| `DnsQueues.WaitBooks` | libevent/evdns.c:2824-2842 | and after one is put on the waiting queue |
| `DnsQueues.SwapBooks` | libevent/evdns.c:544-553 | and after one changes server, whose counter was positive, as the source asserts |
| `DnsQueues.SomeFree` | libevent/evdns.c:1317-1329 | with fewer requests in flight than ids there is an id to pick |
| `DnsScheduler.Base.Find` | libevent/evdns.c:468-483 | a lookup by id finds the request in flight with that id, if and only if there is one |
| `DnsScheduler.Base.PickServer` | libevent/evdns.c:1334-1367 | a server that is up if one is; none exactly if there are no servers |
| `DnsScheduler.Base.Swap` | libevent/evdns.c:544-553 | only the server of the request changes |
| `DnsScheduler.Base.ServerFailed` | libevent/evdns.c:557-615 | the server is down; if another is up, each of its requests that was not sent yet has a server that is up, and nothing else has changed |
| `DnsScheduler.Base.ServerUp` | libevent/evdns.c:617-636 | the server is up, no other comes up, at most its probe is gone, and the waiting queue only gets shorter at its head |
| `DnsScheduler.Base.Pump` | libevent/evdns.c:742-770 | requests go in flight until there is no room, none waits or there is no server; those that waited longest go first, to servers that were up if one still is, and those in flight keep their ids, and their servers unless those fail |
| `DnsScheduler.Base.Finish` | libevent/evdns.c:648-706 | exactly that request is gone, in flight or waiting |
| `DnsScheduler.Base.Submit` | libevent/evdns.c:2747-2842 | the request is in flight exactly if there was room and a server, and then on a server that is up if one is, the next one round the ring if none fails, else it is last in the waiting queue; the others stay with their servers unless those fail |
| `DnsScheduler.Base.Probe` | libevent/evdns.c:2315-2340 | a probe goes in flight in any case, to its server unless that fails |
| `DnsScheduler.Base.TimedOut` | libevent/evdns.c:2160-2196 | a request that was sent often enough is given up and its server marked down; else it is sent again, to a server that was up if one was |
| `DnsScheduler.Base.Reissue` | libevent/evdns.c:714-735 | for a request that was sent it is not pointless if a server is up, and then goes to one; when it is not pointless the request counts as not sent again |
| `DnsScheduler.Base.Replied` | libevent/evdns.c:867-957 | the request is gone, and at most a probe of its server besides; no other server comes up, and the waiting queue only gets shorter at its head |
| `DnsScheduler.Base.SetMax` | libevent/evdns.c:3386-3415 | after resizing every request is in the bucket of its id |
| `DnsScheduler.Rehash` | libevent/evdns.c:3396-3410 | moving every request keeps exactly the requests in flight, each in its new bucket |
| `DnsScheduler.Do` | libevent/evdns.c:544-957 | each action changes the requests, the waiting queue and the servers as its rows say, and keeps the invariant |
| `DnsScheduler.Run` | libevent/evdns.c:544-770 | a run goes through states that follow from one another by its actions, in each of which ids are unique and the waiting queue is right; in the end the counters equal the set sizes, and each request in flight is in the bucket of its id |
| `TokenBucket.RefilledExact` | libevent/bufferevent_ratelim.c:73-111 | the update that avoids overflow equals the naive one if and only if the limit is not above the maximum, or the tokens reach it all the way round the 64-bit numbers |
| `TokenBucket.AboveMaximumStays` | libevent/bufferevent_ratelim.c:92-98 | a limit above the maximum is not brought down |
| `TokenBucket.UpdateExact` | libevent/bufferevent_ratelim.c:73-111 | at or below the maximum an update adds the rate times the ticks, up to the maximum, and nothing if the counter stands still or goes back; above it exactly when it does |
| `TokenBucket.UpdateAbove` | libevent/bufferevent_ratelim.c:92-98 | above the maximum it goes on adding, as long as that fits |
| `TokenBucket.UpdateEmpties` | libevent/bufferevent_ratelim.c:73-111 | an update leaves a bucket with tokens without any if and only if the limit is above the maximum and its sum with the new tokens is from 2^63 to 2^64 |
| `TokenBucket.RefillHonest` | libevent/bufferevent_ratelim.c:78-85 | no update counts more ticks than have passed, however often the counter wraps |
| `TokenBucket.PassTakes` | libevent/bufferevent_ratelim.c:197-293 | what passes is taken off the bucket after an update, and all that is wanted passes or no token is left |
| `TokenBucket.PassBound` | libevent/bufferevent_ratelim.c:73-308 | of what is wanted from tick a to tick b, at most the burst and (b-a) times the rate passes, and a limit that is not below zero never gets there, however often the counter wraps |
| `TokenBucket.Meter` | libevent/bufferevent_ratelim.c:197-308 | the loop over all wishes passes what that bound is about |
| `RateGroup.MinShare` | libevent/bufferevent_ratelim.c:703-722 | the share is at most each rate, and positive |
| `RateGroup.AskLaw` | libevent/bufferevent_ratelim.c:228-253 | a member of a suspended group is held and told nothing; else it is told an equal part of what is left, rounded down, but at least the least share |
| `RateGroup.ChargeLaw` | libevent/bufferevent_ratelim.c:295-371 | a charge takes what was used off the bucket; an empty bucket suspends the group and every member whose lock can be had is held; one with tokens lets a suspended group go |
| `RateGroup.RefillLaw` | libevent/bufferevent_ratelim.c:528-557 | a refill updates the bucket, and lets the group go if it was pending or has a share |
| `RateGroup.JoinQuitLaw` | libevent/bufferevent_ratelim.c:735-838 | a member comes, held if the group is suspended, or goes with what it was told, and others are not concerned |
| `RateGroup.RunMembers` | libevent/bufferevent_ratelim.c:735-838 | the members after a run are those that came and did not go |
| `RateGroup.NextSound` | libevent/bufferevent_ratelim.c:228-557 | every step keeps the invariant, in any order and with any locks taken, but for exactly the charges that wrap round the 64-bit numbers to above the maximum |
| `RateGroup.RunSound` | libevent/bufferevent_ratelim.c:228-557 | in all states of a run, with any number of shares outstanding, an unsuspended group has tokens, the bucket is overdrawn by less than what was outstanding when a share was last told, pending means not suspended, and no member is held without the group being suspended or pending, if and only if no charge wraps |
| `RateGroup.WrapRun` | libevent/bufferevent_ratelim.c:228-305 | a run in which one does |
| `RateGroup.NextTight` | libevent/bufferevent_ratelim.c:228-557 | a step keeps the bucket above minus a share even after all that is outstanding, if and only if it does not tell a share that there is no room for |
| `RateGroup.TightExact` | libevent/bufferevent_ratelim.c:272-305 | however what is outstanding is used the bucket stays above minus a share, if and only if it is so after all of it |
| `RateGroup.RunTight` | libevent/bufferevent_ratelim.c:228-305 | all states of a run are so if and only if shares are only told when there is room, and then no charge wraps |
| `RateGroup.RunStaysAbove` | libevent/bufferevent_ratelim.c:228-305 | from every state of a run the bucket stays above minus a share however what is outstanding is used, if and only if shares are only told when there is room |
| `RateGroup.OneHasRoom` | libevent/bufferevent_ratelim.c:228-305 | when no share is told while another is outstanding there is always room |
| `RateGroup.TwoAtOnce` | libevent/bufferevent_ratelim.c:228-305 | a run without room: two members are told a share before either is charged, and the bucket ends at minus a share |
| `RateGroup.RefillsLift` | libevent/bufferevent_ratelim.c:528-557 | two refills lift any suspension if together they cover enough ticks; two ticks are enough above minus a share |
| `RateGroup.LetGo` | libevent/bufferevent_ratelim.c:472-504 | going round from a random member on lets go all whose lock can be had, and the group is pending exactly if one could not |
| `RateGroup.Group.Do` | libevent/bufferevent_ratelim.c:228-557 | each action, in place, is the step of the group |
| `RateGroup.Run` | libevent/bufferevent_ratelim.c:228-557 | a run on the object ends in the state of the run, of which the above is proved |
| `RateLimit.Bufferevent.Suspend` | libevent/bufferevent.c:66-76 | a reason is added and the backend is off |
| `RateLimit.Bufferevent.Unsuspend` | libevent/bufferevent.c:78-88 | a reason is taken away, and the backend is on if none is left and the user wants it |
| `RateLimit.Bufferevent.Enable` | libevent/bufferevent.c:459-480 | the backend is on exactly if nothing suspends it |
| `RateLimit.Bufferevent.Disable` | libevent/bufferevent.c:550-563 | the backend is off |
| `RateLimit.Bufferevent.UpdateBucket` | libevent/bufferevent_ratelim.c:113-124 | both limits are updated to the tick, and nothing else |
| `RateLimit.Bufferevent.Allowance` | libevent/bufferevent_ratelim.c:197-258 | what is left after an update, never negative; from a sound state it is positive for a direction that is not suspended for bandwidth, if and only if the update does not overflow |
| `RateLimit.Bufferevent.DecrementBuckets` | libevent/bufferevent_ratelim.c:272-293 | suspended for bandwidth exactly if nothing is left, also when bytes are given back |
| `RateLimit.Bufferevent.DecrementLimit` | libevent/bufferevent_ratelim.c:971-996 | the same when the user takes tokens away or gives some |
| `RateLimit.Bufferevent.RefillCallback` | libevent/bufferevent_ratelim.c:393-439 | a direction is let go exactly if it has tokens, and the timer is set again exactly if one has none |
| `RateLimit.Bufferevent.SetRateLimit` | libevent/bufferevent_ratelim.c:559-636 | new limits keep the invariant, fresh, clipped or none |
| `RateLimit.Recover` | libevent/bufferevent_ratelim.c:393-439 | from any state a run can lead to, a direction that is suspended for bandwidth is let go after finitely many ticks, also through an overflow |
| `RateLimit.NextProper` | libevent/bufferevent_ratelim.c:197-636 | no action at all breaks this: the backend is on exactly if it is wanted and not suspended, and while suspended for bandwidth the timer is pending |
| `RateLimit.RefreshedSound` | libevent/bufferevent_ratelim.c:73-124 | an update leaves no empty bucket without suspension, if and only if it overflows for no direction that is not suspended |
| `RateLimit.NextSound` | libevent/bufferevent_ratelim.c:197-636 | from a state in which an empty bucket means suspended, an action leads to such a one if and only if it is no timer, and no move in the other direction, at which the update overflows for a direction that is not suspended |
| `RateLimit.RunProper` | libevent/bufferevent_ratelim.c:197-636 | after any run: suspended for bandwidth means the timer is pending, and the backend is on exactly if it is wanted and not suspended |
| `RateLimit.RunSound` | libevent/bufferevent_ratelim.c:272-346 | in every state of a run an empty bucket means suspended for bandwidth, if and only if no action of the run does that harm |
| `RateLimit.OverflowRun` | libevent/bufferevent_ratelim.c:92-98 | a run that does: a refund, then a write one tick later, and the bucket for reading is empty with reading not suspended |
| `RateLimit.Run` | libevent/bufferevent_ratelim.c:197-636 | a run on the object ends in the state of the run, of which this is proved |
| `RateLimitUse.MoveTakes` | libevent/bufferevent_ratelim.c:113-293 | a move takes exactly what it moved off its direction's bucket after an update, and nothing off the other's |
| `RateLimitUse.MoveAll` | libevent/bufferevent_ratelim.c:197-293 | all that is wanted moves, or no token is left |
| `RateLimitUse.MoveSuspends` | libevent/bufferevent_ratelim.c:272-293 | after a move its direction is suspended for bandwidth exactly if no token is left |
| `RateLimitUse.RunPasses` | libevent/bufferevent_ratelim.c:73-439 | a run of moves, refills and settings moves what passes the bucket, and leaves what passing leaves |
| `RateLimitUse.MovedBound` | libevent/bufferevent_ratelim.c:73-439 | in any such run from a bucket not above its maximum, what moves in a direction from tick a to tick b is at most the burst and (b-a) times the rate |
| `RateLimitUse.FreshBound` | libevent/bufferevent_ratelim.c:559-636 | and so it is from the first limits on, after any run |
| `RateLimitUse.ConfiguredTokens` | libevent/bufferevent_ratelim.c:45-64 | new limits start with one tick's tokens, and changed ones cut a bucket down to its maximum |
| `RateLimitUse.ChargeTakes` | libevent/bufferevent_ratelim.c:971-996 | a charge by the user takes that much, or gives it back |
| `RateLimitUse.ChargeSuspends` | libevent/bufferevent_ratelim.c:971-996 | it suspends a direction when it takes the last token and lets it go when it gives back the first |
| `RateLimitUse.TimerReleases` | libevent/bufferevent_ratelim.c:393-439 | the timer lets a direction go exactly if it has tokens then |
| `RateLimitUse.ConfiguredSuspends` | libevent/bufferevent_ratelim.c:559-636 | after new limits a direction is suspended for bandwidth exactly if it has none left |
| `RateLimitUse.RunTimer` | libevent/bufferevent_ratelim.c:272-439 | after any run the refill timer is pending exactly while a direction is suspended for bandwidth |
| `RateLimitUse.RunSettings` | libevent/bufferevent.c:66-88 | after any run a direction is held for a reason other than bandwidth, and enabled, exactly if the last call about that said so |
| `TagInts.EncodeIntInto` | libevent/event_tagging.c:121-154 | the nibble loop writes the encoding of the number, low-order nibble first, and nothing outside its buffer |
| `TagInts.DecodeIntFrom` | libevent/event_tagging.c:319-377 | the loop reads the number in the nibbles, or fails if there are too many or too few bytes |
| `TagInts.DecodedFits` | libevent/event_tagging.c:319-377 | a number of at most so many nibbles is one of four times as many bits |
| `TagInts.IntRoundTrip` | libevent/event_tagging.c:121-377 | any number of up to 64 bits is read back with its length, whatever follows |
| `TagInts.IntFormat` | libevent/event_tagging.c:121-154 | the bytes of some numbers: the count of nibbles less one, and then the nibbles from the low-order one on |
| `TagInts.EncodeTagBytes` | libevent/event_tagging.c:177-198 | the loop writes the groups of seven bits, low-order first |
| `TagInts.DecodeTagBytes` | libevent/event_tagging.c:200-246 | the loop reads them, and fails beyond 32 bits or without an end |
| `TagInts.TagRoundTrip` | libevent/event_tagging.c:177-246 | any 32-bit tag is read back with its length, whatever follows |
| `TagInts.TagFormat` | libevent/event_tagging.c:177-198 | the bytes of any tag: seven bits each, from the low-order ones on, as few as it takes, and the high bit says that there are more |
| `Tagging.HeaderRead` | libevent/event_tagging.c:441-455 | tag and length of any frame are read back, and the payload follows; the length is an int, and one of 2^32 - 1 reads as failure |
| `Tagging.FrameExamples` | libevent/event_tagging.c:260-317 | the bytes of some items of each kind |
| `Tagging.ItemRoundTrip` | libevent/event_tagging.c:260-609 | an item of any kind is read back as written, with nothing behind it touched, if and only if the length of its payload fits in an int |
| `Tagging.ListRoundTrip` | libevent/event_tagging.c:260-609 | a list of items is read back whole, and the stream is then empty, if and only if all lengths do |
| `Tagging.OtherTag` | libevent/event_tagging.c:488-609 | a typed reader takes only its own tag |
| `Tagging.OwnNumber` | libevent/event_tagging.c:488-538 | a number is read exactly if the payload alone starts with one of no more nibbles than fit, and the payload is then gone |
| `Tagging.OwnTimeval` | libevent/event_tagging.c:583-609 | so are the two numbers of a timeval |
| `Tagging.TooWide` | libevent/event_tagging.c:488-510 | a number of more than 32 bits is not read as one of 32 |
| `Tagging.StopsEarly` | libevent/event_tagging.c:441-510 | what is gone when reading stops at the tag or at the length |
| `Tagging.TooShort` | libevent/event_tagging.c:441-455 | with fewer bytes than announced, reading fails behind tag and length |
| `Tagging.PeekIsConsumed` | libevent/event_tagging.c:405-466 | exactly when evtag_consume succeeds, and that it takes off what evtag_peek_length announced if and only if the length fits in an int or nothing follows and the whole has 32 bits |
| `Tagging.PeekOfItem` | libevent/event_tagging.c:405-466 | for a written item, exactly when what follows it is left |
| `TagStream.Stream.Put` | libevent/event_tagging.c:260-317 | the item is appended |
| `TagStream.Stream.TakeHeader` | libevent/event_tagging.c:441-455 | what is drained and returned, also on failure |
| `TagStream.Stream.TakeInt` | libevent/event_tagging.c:488-538 | what is drained and returned, also on failure |
| `TagStream.Stream.TakeTimeval` | libevent/event_tagging.c:583-609 | what is drained and returned, also on failure |
| `TagStream.Stream.Take` | libevent/event_tagging.c:470-609 | the readers by kind |
| `TagStream.Stream.PeekAndConsume` | libevent/event_tagging.c:405-466 | the announced number of bytes goes, if the payload is not too long for an int |
| `TagStream.WriteAndRead` | libevent/event_tagging.c:260-609 | items written to a stream and read in turn come out the same, with nothing left, if and only if all lengths fit in an int |
| `Arc4.MixedPermutes` | libevent/arc4random.c:107-122 | a step keeps the table a permutation of the bytes |
| `Rc4.KeySchedule` | libevent/arc4random.c:96-122 | mixing a key into a fresh table is the key schedule of RC4 as textbooks give it |
| `Rc4.OutputIsRound` | libevent/arc4random.c:425-437 | a byte of output is a round of RC4's generator |
| `Rc4.WordLaw` | libevent/arc4random.c:439-450 | a word holds four bytes of the key stream, the first one highest |
| `Rc4.SeededAppend` | libevent/arc4random.c:339-382 | pieces of entropy are mixed in one after the other |
| `Rc4.SeededOne` | libevent/arc4random.c:339-382 | a piece of entropy that is not empty is mixed in |
| `Rc4.StirLaw` | libevent/arc4random.c:372-410 | a stir mixes entropy into the table there is or a fresh one, and discards 3072 bytes if the generator was seeded now or before |
| `Rc4.DrawLaw` | libevent/arc4random.c:412-422 | a word is taken from the table as it is while bytes are left from the last stir and the process is the same, else after a stir |
| `Rc4.ByteLaw` | libevent/arc4random.c:497-512 | a byte of a buffer is taken from the table as it is while bytes are left from the last stir, else after a stir |
| `Rc4.CheckLaw` | libevent/arc4random.c:412-422 | before a buffer is filled the generator is stirred if it is used up or new or the process is another |
| `Rc4.FeedChunks` | libevent/arc4random.c:465-480 | the user's data is mixed in 256 bytes at a time |
| `Rc4.FeedLittle` | libevent/arc4random.c:465-480 | up to 256 bytes are mixed in at once |
| `Rc4.BufferLaw` | libevent/arc4random.c:497-512 | a buffer holds the bytes as they came, the first one at its end |
| `Arc4.StepUndone` | libevent/arc4random.c:425-437 | a step can be undone, so no two states step to the same one |
| `Arc4.PermutationHasAll` | libevent/arc4random.c:96-105 | every byte is in the table |
| `Arc4.Generator.Init` | libevent/arc4random.c:96-105 | the table starts as the bytes in order |
| `Arc4.Generator.AddRandom` | libevent/arc4random.c:107-122 | 256 steps with the data, over and over |
| `Arc4.Generator.GetByte` | libevent/arc4random.c:425-437 | one step and its output |
| `Arc4.Generator.Stir` | libevent/arc4random.c:372-410 | exactly the entropy is mixed in and 3072 bytes are discarded, from a fresh table or the old one; the table stays a permutation; when it fails |
| `Arc4.Generator.Feed` | libevent/arc4random.c:465-480 | all of the user's data is mixed in, 256 bytes at a time, after a stir if there was none yet |
| `Arc4.Generator.GetWord` | libevent/arc4random.c:439-450 | four outputs make a word, the first one highest |
| `Arc4.Generator.Fill` | libevent/arc4random.c:497-512 | a buffer is filled from its end, one step and at most one stir for each byte |
| `Arc4.NextSound` | libevent/arc4random.c:372-480 | every output, stir and feed keeps the table a permutation once there is one |
| `Arc4.RunSound` | libevent/arc4random.c:96-480 | after any run every byte is in the table |
| `Arc4.Run` | libevent/arc4random.c:96-480 | a run on the object ends in the state of the run and gives its words |
| `Uniform.LeastExact` | libevent/arc4random.c:530-540 | the 32-bit formula is 2^32 modulo the bound, and rejects less than half of the words |
| `Uniform.EveryRemainder` | libevent/arc4random.c:522-555 | every remainder has exactly the same number of accepted words |
| `Uniform.Choose` | libevent/arc4random.c:522-555 | the first word that is not too small decides |

## Left out

- EvbufferTransfer.AddBuffer: total sizes are taken to fit in a size_t, which the code does not check there; so do EvbufferTransfer.PrependBuffer and EvbufferTransfer.RemoveBuffer, whose result is not cut to an int here.
- EvbufferRun.Run: sizes stay within one chain, so that no operation fails for lack of room; so it is in EvbufferRun.Step.
- DnsEncode.DnsnameToLabels: packets of up to 2^14 bytes, the reach of a pointer, and names without zero bytes, which C strings cannot have; the code writes the final zero without a bounds check, so the buffer is one byte longer than the length it is told.
- DnsMessage.WriteMessage: the bytes before the first name, with the bit for a cut response, and those between names are given, not computed; the length of a name in a record, which the code fills in afterwards, is one of them. A question whose name does not fit makes the code return an error, and here the response is cut as for any other item.
- Getaddrinfo.Run: allocation succeeds; the counters and the lock of the evdns_base, which evdns_base_free has released when a timer, a cancel or an ordinary result comes after a shutdown, and canonical names are not modelled.
- Epoll.ApplyOneChange: the errors EBADF and EPERM of a closed descriptor are left out.
- Evmap.EventMap.IoAdd: a backend that fails is left out, which with a change list happens only for lack of memory.
- Evmap.EventMap.IoDel: a backend that fails and a descriptor that the table has no place for.
- EventRun.Do: the next event is always one of the least priority; the code goes on with the queue it is in when a deferred callback of a lower number becomes active meanwhile.
- EventLoop.Add: what evmap answers is a parameter here, and the notification of another thread is left out.
- DnsScheduler.Run: search domains and evdns_base_clear_nameservers_and_suspend, which do not keep these invariants; probes have ids only while fewer than 65535 requests are in flight, else the code looks for one for ever.
- TokenBucket.Meter: non-negative byte counts; refunds are part of `RateLimit`.
- RateGroup.Run: one direction, since the code is the same for both, and a fixed configuration; bufferevent_rate_limit_group_decrement_read and its twin, with which a user takes tokens that nobody was told of; a limit that leaves the 64-bit numbers wraps, which C does not promise.
- RateLimit.Bufferevent.Allowance: the share of a group, which `RateGroup` has.
- RateLimit.Run: a limit that a charge takes out of the 64-bit numbers wraps, which C does not promise.
- Tagging.ItemRoundTrip: evtag_unmarshal_fixed and evtag_unmarshal_string, which are evtag_unmarshal with a check of the tag.
- Uniform.Choose: the words are a parameter; that a word is accepted in the end is a matter of chance.
- Pinned, multicast and file chains, the release of referenced memory, evbuffer callbacks, evbuffer_search_eol and evbuffer_readln: shared storage, or easy on top of the search that is modelled.
- Allocation failure other than for sizes out of range, sockets, entropy sources, locks and condition waits; edge-triggered events and signals; the Windows, OpenSSL and other backends; parsing of configuration files.
