# Distributed shared memory: a verified model

The program shares pages of memory between processes. One process, the master, is the home of every page;
the others, the slaves, ask it for a page to read or to write, and give it back. The processes talk over
sockets; their messages are objects of the Binn serialization format, which the repository carries as a
library. This project models both and proves what they are for:

* the page-coherence protocol keeps a single writer or many readers per page, loses no write, serves requests
  in order, and looks to the applications like one memory cell behind a readers-writer lock; its work always ends,
  with everyone served, but for the cases listed below;
* the serializer writes what its readers, skipper, iterators and validity check read back, byte for byte, and
  a container under construction is a map over any run of calls;
* the messages of the protocol, encoded by the serializer, arrive as they were sent, exactly when their
  numbers fit.

## How it is organised

| file | content |
|---|---|
| `Bytes.dfy` | host memory (little-endian) and wire bytes (most significant first) |
| `LinkedList.dfy` | the mutable list of `list.c`, with the tail that removal leaves behind |
| `PageProtocol.dfy` | one page as a state machine: home copy, slaves, connections; one label per atomic piece of a thread |
| `PageInvariant.dfy` | its inductive invariant, kept by every transition |
| `PageTheorems.dfy` | what holds in every reachable state |
| `LoopAsWritten.dfy` | the draining loop taken literally, and exactly when it never ends |
| `Waiting.dfy` | why a slave waits, and when it waits for ever |
| `Progress.dfy` | what every thread can do next; once nobody asks anew and holders unlock, the work ends, and everyone has been served but for two exact exceptions |
| `OneCell.dfy` | the protocol refines one memory cell |
| `Cluster.dfy` | all pages over one connection per slave and direction; every page's part is a run of the page protocol |
| `ClusterProgress.dfy` | the same for all pages at once: nothing is shut out but what has to wait its turn, and what one page can do by itself the whole memory can do |
| `NestedLocks.dfy` | everyone is served on every page when nobody waits for a page while holding another; who does can wait for ever |
| `HomePage.dfy` | the master's handlers as methods over two mutable lists |
| `MasterDaemon.dfy` | those handlers in the states the protocol reaches: they succeed, and the object ends as the home of the next reachable state |
| `SlaveMemory.dfy` | a slave's handlers, `unlock_write` and the page-return loop of `terminate`, on a page table |
| `SlaveDaemon.dfy` | those in the states the whole memory reaches: the table stays that of the slave, and what is sent is what its connection gains |
| `Barrier.dfy` | the master's barrier |
| `BinnFormat.dfy` | header, skipper and reader of the wire format |
| `BinnWrite.dfy` | what is written for a value; integer narrowing and conversion |
| `BinnContainer.dfy` | items laid out one after the other, keys, lookups |
| `BinnReader.dfy`, `BinnIter.dfy` | the searching, positional and sequential readers and the validity check, as loops over bytes |
| `BinnRuns.dfy` | sequences of puts refine a map |
| `BinnBuilder.dfy` | the writer: a class over a growing array, with the header written backwards |
| `BinnTrace.dfy` | runs of real calls on that class, sets and saves in any order, and what is read afterwards |
| `BinnWire.dfy` | the format in numbers and bytes: which arguments are accepted, what they mean, what stands on the wire |
| `Messages.dfy` | the message codec |
| `MessagesWire.dfy` | every message byte by byte, against an encoder written from the names, numbers and layout alone |

The protocol's state machine and the imperative handlers meet in functions: `HomePage` and `SlaveMemory`
methods are proved equal to the functions `Drain`, `QueueRequest`, `DropReader`, `TakeBack`, `AfterUnlock`,
`AfterTakeInvalidate` and so on, that the state machine takes its steps with.

## Choices the model makes

* **The wait for acknowledgements.** The comments at `src/dsm_core.c:453-455` say a writer waits until all
  readers have acknowledged. The loop at `src/dsm_core.c:456-472` has no exit in that case: with invalidations
  sent and readers left it neither returns nor advances, in the thread that would handle the
  acknowledgements. The model leaves the handler there; `src/dsm_core.c:135-136` calls it again on each
  acknowledgement. `LoopAsWritten.dfy` proves what becomes of the loop taken literally; what
  `Progress.dfy` says of everyone being served holds of the handler that leaves.
* **Steps.** A message is sent to, or taken from, a connection as a whole, in order. Broadcasting INVALIDATE
  to all readers is one step; each turn of the draining loop is a step of its own, and other threads may run
  between turns; `MasterDaemon.Interleaved` shows that they make no difference to where the draining leads.
  Sending a page and giving it up are one step, though `unlock_write`, `terminate` and the write grant send
  first (`src/dsm.c:293-294`, `src/dsm_core.c:466-469`, `src/dsm_core.c:502-505`): until the sender has given
  its copy up, two processes may have the page with write protection. No application stores into the sender's
  copy in between, so nothing else of the model could see the two apart. Clearing a page and acknowledging are two steps. INVALIDATE and GIVEPAGE wait while the
  application holds the page's mutex. After `terminate` the daemon may go on taking messages.
* **Clients.** One application thread per slave, which asks for writing only without an up-to-date copy
  (`lock_page` tests only `uptodate`, `src/dsm_core.c:291`); the master is home only.
* **The handler of INVALIDATE_ACK** alone requires that invalidations are out, or that the sender is not the
  last of several readers: only there would the list's tail be left behind. `PageTheorems.AckMeansRecall`
  proves that an acknowledgement in flight always finds invalidations out, and `MasterDaemon.TakeFront` handles
  every message of every reachable state without such a condition.
* **Memory.** Nothing is freed. Removal of a request takes the node's old `next` (`src/dsm_core.c:449-450`
  reads it after the node is gone).
* **The serializer's buffer.** `pbuf` is an array of `alloc_size` bytes, `ptr` an offset into it. The
  allocator is a limit, `heapLimit`, above which it refuses. Sizes stay below 2^30. Type codes are well formed (bit 0x10 clear in one-byte types, set in the first
  byte of two-byte types) or no types at all. A container argument is a serialized container with its own size.
* **Readers** work on blocks of bytes. On a block that was not built the functions have no result where the
  code would read outside the block.

## Where the code does not do what one would expect

* `list_remove` never repairs `tail` (`src/list.c:49-82`): `LinkedList.List.Remove` states exactly when that
  leaves the tail behind, `LinkedList.List.Add` exactly when an added element is lost to every walk from the
  head, `LinkedList.StaleTailLoses` is a concrete run that loses one, and `MasterDaemon.TakeFront` shows that
  the master's lists never do.
* `process_list_requests` taken literally (`src/dsm_core.c:438-479`) never ends on a page that is at home if and
  only if the first request in the queue that is not to read is to write, and a reader is listed or queued
  before it (`LoopAsWritten.EndsExactly`); one reader and one writer are enough to reach such a state
  (`LoopAsWritten.SpinIsReached`).
* `lock_page` sends one request and waits until its copy is up to date (`src/dsm_core.c:303-313`). A copy that
  comes and is recalled before the application wakes is lost to it, and it waits for ever
  (`Waiting.WaitingExactly`, `Waiting.MissedForEver`); one reader and one writer are enough to reach such a
  state (`Waiting.MissedIsReached`).
* A process that terminates inside a read lock keeps `mutex_page`, so its daemon never answers the invalidation
  of its copy, and a writer waits for ever (`Progress.HeldUpIsReached`). Where holders unlock, this and the lost copy
  above are the only ways in which a wait does not end on one page: `Progress.EveryoneIsServed`.
* The one daemon of a process takes `mutex_page` for every message (`src/dsm_core.c:85-104`). An application that
  waits for a page while it holds another, whose invalidation stands before its grant, waits for ever
  (`NestedLocks.StuckForEver`); two processes and two pages are enough (`NestedLocks.StuckIsReached`). When nobody
  does that, and nobody has terminated, everyone is served on every page (`NestedLocks.EveryoneIsServedEverywhere`).
* `binn_is_valid` compares with `>` where `||` was evidently meant (`src/binn.c:1242`); the test never fires,
  so `BinnIter.IsValid`, whose answer is stated for every block, finds nothing but headers invalid: items may lie
  past the stated size (`BinnWire.PastSizeIsValid`), and as the length of a blob may be negative, two items may be
  the same bytes (`BinnWire.SameItemTwiceIsValid`).
* `binn_is_valid` first compares four bytes of any block with the magic number of a structure
  (`src/binn.c:369-380`). A block that begins with it is followed as a structure, and a block of three bytes, as
  an empty container is, is read one byte past its end; both have an outcome of their own in `BinnIter.IsValid`
  and, on the 512 bytes and more that a received message is read into, in `Messages.ReceiveMsg`.
* A size of 3 to 8 is accepted by `binn_create`, but leaves no room for the nine header bytes
  (`BinnBuilder.Binn.Create`).
* The results of the sets of a message are ignored (`src/dsm_protocol.c:152-180`): a page for which there is no
  memory is left out and the message sent without it (`Messages.SendMsg`, `Messages.Transfer`).
* An unsigned long travels as an int (`src/dsm_protocol.c:155-180`): the round trip holds if and only if
  every such field is below 2^31 or at least 2^64 - 2^31 (`Messages.RoundTripIsExact`).
* Without memory for its object a message is not withheld: `dsm_send_msg` sends a frame of no bytes
  (`src/dsm_protocol.c:190`, `src/dsm_socket.c:109-130`), which the receiver takes for a lost connection and
  closes it (`src/dsm_socket.c:162-166`). Only an unknown type sends nothing (`Messages.SendMsg`,
  `Messages.Transfer`).
* Handlers look their page up by an unsigned int (`src/dsm_memory.c:116`), but compute its address from the
  unsigned long they are given: the page table entry is right below 2^32, the address only where the unsigned
  long survives (`Messages.PacketTravels`).
* A received block that is no object with items, or that `binn_open` refuses, is taken for a CONNECT message of
  zeros, because every getter then returns 0 (`Messages.ReceiveMsg`).

## Model

| member | source | states |
|---|---|---|
| LinkedList.List.Add | src/list.c:32-47 | an element is appended when the tail is the last node; otherwise the head goes on leading through exactly the old nodes, so no walk finds the element, though it is counted |
| LinkedList.List.Remove | src/list.c:49-82 | exactly the first matching element leaves, by identity or by value; the tail stays where it was, stale exactly when the last of several nodes left |
| LinkedList.List.RemoveValue | src/list.c:49-82 | by value, in terms of the contents |
| LinkedList.List.Destroy | src/list.c:16-30 | the list is empty and its tail usable again |
| LinkedList.List.ListContains | src/list.c:84-99 | true if and only if some element matches |
| LinkedList.StaleTailLoses | src/list.c:32-82 | a run after which the head leads only to the element kept, and the one added after the last was removed is lost |
| PageInvariant.StepKeepsInv | src/dsm_core.c:55-188 | every transition of the page protocol keeps the invariant tying each slave's state and connections to the stage of its copy |
| PageInvariant.InitialInv | src/dsm_memory.c:58-81 | the initial page satisfies it |
| PageInvariant.KeepMasterTurn | src/dsm_core.c:438-479 | so does each turn of the draining loop |
| PageInvariant.KeepTakeInvalidate | src/dsm_core.c:85-104 | so does clearing a copy |
| PageInvariant.KeepUnlock | src/dsm.c:284-299 | so does sending a written page home |
| PageTheorems.SingleWriter | src/dsm_core.c:429-480 | in every reachable state, while a slave may write, no other slave has a copy or a grant in flight and the master's copy is not up to date |
| PageTheorems.Coherence | src/dsm_core.c:148-188 | every read copy, held or in flight, is the home copy and the last returned write; every write grant carries exactly the last returned write |
| PageTheorems.InvalidationAccounting | src/dsm_core.c:456-472 | while invalidate_sent is set a writer is next and the readers are exactly the slaves with one invalidation under way, each once; otherwise none is under way |
| PageTheorems.AckMeansRecall | src/dsm_core.c:128-139 | an acknowledgement in flight comes from a listed reader while invalidations are out |
| PageTheorems.GrantsInOrder | src/dsm_core.c:55-76 | the grants sent followed by the queue are the requests received, in order: nobody overtakes |
| PageTheorems.TokenConservation | src/dsm_core.c:377-389 | the right to write is in exactly one place, and write_owner names who has it there |
| PageTheorems.NoRequestStuck | src/dsm_core.c:429-480 | between messages a queued request waits only for a page that is away or for readers each with an invalidation under way; none has bad rights |
| PageTheorems.DrainOk | src/dsm_core.c:474-478 | in a reachable state draining never meets bad rights |
| PageTheorems.DrainingEnds | src/dsm_core.c:424-480 | in every reachable state in which the master drains, its turns alone end the draining in a reachable state: the page is away, the queue empty, or a writer waits for readers with invalidations out |
| PageTheorems.DrainedHasCause | src/dsm_core.c:424-480 | what then still waits has a cause under way outside the master |
| Waiting.WaitingExactly | src/dsm_core.c:284-315 | after any run a waiting slave has its request sent or queued, or its page sent or held, if and only if it was not recalled while it waited |
| Waiting.MissedForEver | src/dsm_core.c:309-313 | a slave recalled while it waited never wakes, whatever happens next |
| Waiting.MissedIsReached | src/dsm_core.c:309-313 | a reachable state, with one reader and one writer, in which a slave waits with nothing under way for it |
| Waiting.StepAccounted | src/dsm_core.c:284-315 | every step keeps the account of who waits for what |
| Progress.WriteBit | src/dsm_core.c:456-456 | which rights allow to write |
| Progress.WaitEnds | src/dsm_core.c:309-315 | in every reachable state, once the page has come the wait can end: the caller holds the lock with the rights it asked for, on the page that came, and may write exactly if it asked to |
| Progress.HolderGoesOn | src/dsm.c:269-299 | a holder can unlock and quit; a writer can store any bytes, and sends them home when it does either |
| Progress.IdleGoesOn | src/dsm_core.c:284-308 | an application outside any lock locks at once on an up-to-date copy, and otherwise can ask to read and to write |
| Progress.IdleQuits | src/dsm_core.c:487-509 | and can quit, which then sends no page |
| Progress.SlaveTakesFront | src/dsm_core.c:85-181 | a daemon with nothing to acknowledge that finds the mutex free takes whatever message is at the front: it installs the page, or clears its copy |
| Progress.LockKeepsDaemonOut | src/dsm_core.c:94-96 | while the lock is held it takes none |
| Progress.AckFollows | src/dsm_core.c:105-119 | a copy cleared is acknowledged |
| Progress.AnyoneJoins | src/dsm.c:91-161 | any slave can join, without a copy |
| Progress.MasterGoesOn | src/dsm_core.c:424-480 | the master takes any message when it does not drain, and can go on draining until it is done |
| Progress.StepDescends | src/dsm_core.c:55-188 | every step that asks for nothing new lessens the work left |
| Progress.FinishingEnds | src/dsm_core.c:55-188 | so no run of such steps is longer than the work left: the daemons never go on without end |
| Progress.ComesToRest | src/dsm_core.c:55-188 | and from every reachable state they come to rest |
| Progress.AnyRunFinishes | src/dsm_core.c:55-188 | so can any run, within that bound |
| Progress.RestWaits | src/dsm_core.c:284-315 | at rest, a slave that waits with something under way for it waits for a process that has terminated inside a read lock |
| Progress.EveryoneIsServed | src/dsm_core.c:284-315 | however a run comes to rest, every slave that still waits was recalled while it waited, or a process has terminated inside a lock |
| Progress.HeldUpIsReached | src/dsm_core.c:487-509 | that exception is reached, with one reader and one writer |
| Progress.ReadsWhatWasWritten | src/dsm.c:245-299 | a reachable state in which one slave reads under the lock what another wrote under it |
| LoopAsWritten.LoopIsDrain | src/dsm_core.c:438-479 | where no wait is left in the end, the loop taken literally ends with exactly what Drain says |
| LoopAsWritten.LoopSpins | src/dsm_core.c:456-472 | where one is, it gets there and never ends |
| LoopAsWritten.WaitsExactly | src/dsm_core.c:438-479 | draining ends in a wait if and only if the first request that is not to read is to write and a reader is listed or queued before it |
| LoopAsWritten.EndsExactly | src/dsm_core.c:438-479 | the loop taken literally ends if and only if this is not so |
| LoopAsWritten.SpinIsReached | src/dsm_core.c:453-472 | a reachable state, with one reader and one writer, from which it never ends |
| OneCell.BehavesLikeOneCell | src/dsm.c:245-299 | over every run the lock holders are those of one memory cell behind a readers-writer lock, writers alone, and each sees the cell's value or its own draft |
| OneCell.RunRefines | src/dsm.c:245-299 | runs of the protocol refine runs of the cell |
| OneCell.WakeRefines | src/dsm_core.c:284-315 | a lock acquired after waiting shows the last published value |
| OneCell.ReleaseRefines | src/dsm.c:269-299 | unlocking or quitting publishes the writer's draft and nothing else |
| Cluster.StepProjects | src/dsm_socket.c:212-252 | over shared connections and one daemon per process, a step on one page is a step of the page protocol there and none on any other page |
| Cluster.JoinProjects | src/dsm.c:91-161 | a process that joins joins on every page |
| Cluster.EveryPageReachable | src/dsm_core.c:429-480 | in every state the whole memory reaches, every page is in a state its own protocol reaches |
| Cluster.SingleWriterEverywhere | src/dsm_core.c:429-480 | single writer for the whole memory, on nodes and shared connections |
| ClusterProgress.WaitMayEnd | src/dsm_core.c:309-313 | over shared connections too, a wait can end once the page has come |
| ClusterProgress.ThreadGoesOn | src/dsm.c:245-299 | a thread that runs can lock, unlock, store and begin to terminate |
| ClusterProgress.FrontStep | src/dsm_socket.c:212-252 | a slave's daemon can take whatever packet is at the front, with the mutex of its page free |
| ClusterProgress.MasterTakesFront | src/dsm_socket.c:212-252 | so can the master's |
| ClusterProgress.MasterDrains | src/dsm_core.c:424-480 | which can go on with the page it drains until it is done |
| ClusterProgress.AnyoneMayJoin | src/dsm.c:91-161 | any process can join, and has no copy of any page then |
| ClusterProgress.EveryPageStateIsReached | src/dsm_socket.c:212-252 | every state the protocol of one page reaches without a process having terminated is reached by the whole memory with nothing done on other pages: the converse of EveryPageReachable |
| NestedLocks.AllFinishingEnds | src/dsm_core.c:55-188 | on all pages together, no run of steps that ask for nothing new is longer than the work left |
| NestedLocks.AllComeToRest | src/dsm_core.c:55-188 | and from every reachable state they come to rest |
| NestedLocks.EveryoneIsServedEverywhere | src/dsm_core.c:284-315 | at rest, with nobody terminated and nobody waiting for a page while holding another, whoever still waits was recalled while it waited |
| NestedLocks.StuckForEver | src/dsm_core.c:85-104 | a process that holds a page, waits for another, and has a message about the first before it, waits for ever, whatever happens next |
| NestedLocks.StuckIsReached | src/dsm_core.c:284-315 | two processes and two pages reach such a state |
| HomePage.HomePage.constructor | src/dsm_memory.c:58-81 | the master starts with the page up to date, writable, its own, and empty lists |
| HomePage.HomePage.InvalidateReaders | src/dsm_core.c:345-369 | one INVALIDATE to each reader, in list order |
| HomePage.HomePage.GrantRead | src/dsm_core.c:443-452 | a read request at the head is answered, its sender listed as reader, the request dropped; the lists stay usable |
| HomePage.HomePage.GrantWrite | src/dsm_core.c:463-471 | a write request with no readers is answered with the home copy, which is then given up |
| HomePage.HomePage.Turn | src/dsm_core.c:438-479 | one turn of the loop does what DrainTurn says |
| HomePage.HomePage.ProcessListRequests | src/dsm_core.c:429-480 | the loop over the linked list ends and leaves page and messages as Drain says |
| HomePage.HomePage.TurnThenDrain | src/dsm_core.c:438-479 | a turn followed by the rest is the whole, with a decreasing queue measure |
| HomePage.HomePage.HandleLockPage | src/dsm_core.c:55-76 | the request is queued last and the queue drained; list tails stay in place |
| HomePage.HomePage.HandleInvalidateAck | src/dsm_core.c:128-139 | the sender is no reader any more and the queue is drained |
| HomePage.HomePage.HandleGivePage | src/dsm_core.c:148-188 | the bytes become the home copy, the master owns the page, and the queue is drained |
| MasterDaemon.TakeFront | src/dsm_core.c:55-188 | whatever message stands at the front of a connection in a reachable state, its handler succeeds, keeps the lists usable, and leaves the object the home of the reachable state in which the message is taken and the queue drained |
| MasterDaemon.TakeLock | src/dsm_core.c:55-76 | so for LOCKPAGE |
| MasterDaemon.TakeAck | src/dsm_core.c:128-139 | so for INVALIDATE_ACK, with no condition on the page |
| MasterDaemon.TakePage | src/dsm_core.c:148-188 | so for GIVEPAGE |
| MasterDaemon.Start | src/dsm_memory.c:58-81 | the object starts as the home of the initial state |
| MasterDaemon.OthersKeepHome | src/dsm.c:245-299 | steps of slaves and applications leave the home as it is |
| MasterDaemon.Interleaved | src/dsm_core.c:438-479 | however such steps come between the turns of the loop, it leads to the same home and sends the same messages |
| MasterDaemon.HandledInterleaved | src/dsm_core.c:55-188 | so the object stands for the home at the end of the draining, whatever else happened meanwhile |
| SlaveMemory.SlaveMemory.LockPage | src/dsm_core.c:284-315 | without an up-to-date copy one request is sent and the caller waits; with one it holds the lock |
| SlaveMemory.SlaveMemory.UnlockWrite | src/dsm.c:284-299 | does what the protocol's unlock step does to this page and sends what it sends |
| SlaveMemory.SlaveMemory.HandleInvalidate | src/dsm_core.c:85-119 | does what the protocol's clear and acknowledge steps do |
| SlaveMemory.SlaveMemory.HandleGivePage | src/dsm_core.c:148-181 | does what the protocol's page arrival does |
| SlaveMemory.SlaveMemory.ReturnWritePages | src/dsm_core.c:497-508 | every writable page is sent home once, in order, and none stays writable; the others are untouched |
| SlaveMemory.ReturnsOn | src/dsm_core.c:497-508 | seen from each page this is the protocol's quit step |
| SlaveDaemon.Start | src/dsm_memory.c:58-81 | a new table is that of a slave that joins |
| SlaveDaemon.TakeInvalidate | src/dsm_core.c:85-119 | in a reachable state of the whole memory, with INVALIDATE at the front: the table follows the two steps of the protocol, and the acknowledgement joins the connection |
| SlaveDaemon.TakePage | src/dsm_core.c:148-181 | with GIVEPAGE at the front: the table follows the step |
| SlaveDaemon.Lock | src/dsm_core.c:284-315 | a call of lock_page is the protocol's step of locking at once or asking, and sends what it sends |
| SlaveDaemon.Wake | src/dsm_core.c:309-313 | whenever the page has come, for readers and writers, the end of the wait is possible and the protocol's, and the lock is held with the rights asked for |
| SlaveDaemon.Unlock | src/dsm.c:269-299 | unlocking is the protocol's step, for readers and writers |
| SlaveDaemon.TakeFront | src/dsm_core.c:85-181 | whatever packet a slave's daemon finds at the front, with nothing to acknowledge and the mutex free, is handled: the page installed, or the copy cleared and acknowledged, in the next reachable state |
| SlaveDaemon.OthersKeepTable | src/dsm.c:245-299 | steps of other processes leave the table as it is |
| SlaveDaemon.JoinKeepsTable | src/dsm.c:91-161 | so does a process that joins |
| Barrier.Conservation | src/dsm_core.c:197-231 | acks sent followed by waiters are the arrivals, in order, whatever each caller asked for |
| Barrier.EnoughOpen | src/dsm_core.c:208-226 | after an arrival nobody waits, or fewer than the caller asked for; all are let go exactly when with the caller they are as many as it asked for |
| Barrier.Batches | src/dsm_core.c:197-231 | when all ask for n, fewer than n wait and acks come in multiples of n |
| Barrier.BatchesFromStart | src/dsm_core.c:197-231 | those let go are the first rounds * n callers, in consecutive groups of n |
| Barrier.BarrierMaster.HandleSyncBarrier | src/dsm_core.c:197-231 | the handler on the linked list does one Arrive step |
| Bytes.HostOrder | src/binn.c:63-110 | host memory is a number in positional notation, least significant byte first, in two's complement when signed |
| Bytes.WireOrder | src/binn.c:63-110 | a wire field is one most significant byte first, and is written back as it was |
| Bytes.WireBytes | src/binn.c:63-110 | its four bytes are the quotients of the number by powers of 256 |
| Bytes.LowBytes | src/binn.c:716-731 | a number that fits in fewer bytes is found in the low bytes of memory |
| Bytes.LowBytesNegative | src/binn.c:701-711 | so is a negative one |
| BinnFormat.CompactRoundTrip | src/binn.c:1051-1072 | a size or count in one byte or four reads back as written, and ends where it was written to end |
| BinnFormat.CompactBytes | src/binn.c:921-944 | a size or count below 128 is one byte; otherwise four, with the top bit set |
| BinnFormat.ShortestHeader | src/binn.c:917-951 | the header written is the shortest consistent one: of 3 bytes up to 124 bytes of content and 127 items, of 9 from 122 and 128 |
| BinnFormat.HeaderRoundTrip | src/binn.c:1030-1094 | the parser recovers type, count, size and header length in all four short and long combinations |
| BinnFormat.SkipAt | src/binn.c:456-513 | a value is skipped the same way wherever it lies |
| BinnFormat.GetValueAt | src/binn.c:1260-1374 | a value reads the same wherever it lies |
| BinnWrite.NarrowingLosesNothing | src/binn.c:671-755 | compression keeps the number, no integer type that can hold it is shorter, negative numbers stay signed, others that are narrowed become unsigned, and a number that needs 8 bytes keeps its type |
| BinnWrite.ReadAsIntExact | src/binn.c:2070-2155 | reading an integer as another type succeeds exactly when the number fits, and returns it |
| BinnWrite.WrittenValue | src/binn.c:761-906 | whatever AddValue writes, skipping lands on its end, reading gives it back, and it is within the space reserved |
| BinnWrite.StoreThenReadInt | src/binn.c:2213-2225 | storing an integer and reading it as any integer type succeeds exactly when it fits that type |
| BinnWrite.StrLen | src/binn.c:165-170 | the first terminator |
| BinnWire.Classes | src/binn.h:91-106 | the storage class of a type is the top three bits of its first byte, and the integer classes have 1, 2, 4 and 8 bytes |
| BinnWire.TypeCodes | src/binn.h:104-108 | one-byte types have bit 0x10 clear, two-byte types set |
| BinnWire.ReadableExactly | src/binn.c:761-824 | what is asked of the caller of AddValue: a type code, and memory where it is read |
| BinnWire.IntTypes | src/binn.h:123-130 | the eight integer types and their ranges |
| BinnWire.IntMeaning | src/binn.h:123-130 | even integer types are unsigned, odd ones in two's complement |
| BinnWire.KeysOf | src/binn.h:115-117 | lists have no keys, maps ids, objects names |
| BinnWire.KeysAllowed | src/binn.c:600-663 | a key is any number of 32 bits, or any string of at most 255 bytes |
| BinnWire.KeyBytes | src/binn.c:618-656 | an id is four bytes in two's complement, most significant first; a name is led by its length |
| BinnWire.AcceptedExactly | src/binn.c:761-824 | which types, null pointers and sizes AddValue accepts, by class |
| BinnWire.SetAcceptsExactly | src/binn.c:1876-1945 | which public arguments binn_object_set accepts |
| BinnWire.StoredUnder | src/binn.c:671-755 | the type under which every integer is read back |
| BinnWire.IntOnWire | src/binn.c:846-870 | an integer on the wire: its type and its bytes, most significant first |
| BinnWire.StringStored | src/binn.c:810-813 | a string is the front of its memory, of the given size or up to the first terminator; it is read back as that, and written with its length and a terminator |
| BinnWire.BlobStored | src/binn.c:872-878 | a blob is the front of its memory of the given size |
| BinnWire.ContainerStored | src/binn.c:897-899 | a container is copied as it is |
| BinnWire.EmptyStored | src/binn.c:769-778 | empty strings and blobs need no memory |
| BinnWire.NothingStored | src/binn.c:843-845 | null, true and false are one byte each, and true and false read as 1 and 0 |
| BinnWire.ReservedNearly | src/binn.c:784-824 | the space reserved is at most four bytes more than is written |
| BinnWire.ShortHeaderRead | src/binn.c:1030-1094 | headers of one-byte fields: which are accepted, and what they say |
| BinnWire.LongHeaderRead | src/binn.c:1030-1094 | headers of four-byte fields |
| BinnWire.CutExactly | src/binn.c:1030-1094 | when a block ends before its header does |
| BinnWire.Magic | src/binn.c:369-380 | the magic number as the host reads it |
| BinnWire.ThreeBytesAreTooFew | src/binn.c:369-380 | a block of fewer than four bytes is read past its end |
| BinnWire.PastSizeIsValid | src/binn.c:1219-1243 | a block that is found valid though its item lies past its size |
| BinnWire.SameItemTwiceIsValid | src/binn.c:456-513 | one that is though its two items are the same bytes |
| BinnWire.SetOnce | src/binn.c:600-635 | a string set under a name is refused under another spelling of it and found under a third |
| BinnContainer.SameNameIs | src/binn.c:558-558 | names are the same if and only if their lengths agree and at each place the bytes are equal or a letter and its capital |
| BinnContainer.LayOut | src/binn.c:600-667 | the items of a container lie one after the other, each key before its value |
| BinnContainer.SerializedParts | src/binn.c:910-980 | a serialized container shows its type, count and size, and its content follows the header |
| BinnContainer.SerializedIsValue | src/binn.h:606-614 | a serialized container is itself a value, so containers nest |
| BinnContainer.LongerBlock | src/dsm_protocol.c:75-99 | a larger receive buffer makes no difference |
| BinnReader.StrNICmpEqual | src/binn.c:558-558 | true if and only if the first n bytes agree up to ASCII case and the key is no shorter |
| BinnReader.SearchForKey | src/binn.c:542-576 | on open buffers and serialized blocks: the value under the first name equal up to case, or nothing |
| BinnReader.SearchForID | src/binn.c:517-538 | the value under the first equal id, or nothing |
| BinnReader.ObjectGetValue | src/binn.c:1408-1427 | keyed read of any built container: the value stored under the name, or failure |
| BinnReader.MapGetValue | src/binn.c:1431-1450 | the same by id |
| BinnReader.ListGetValue | src/binn.c:1454-1482 | the item at a position counted from 1, or failure |
| BinnReader.ReadPair | src/binn.c:1486-1543 | key and value at a position of a map or an object, or failure |
| BinnReader.Opened | src/binn.c:1030-1094 | a built container can be opened and its items stand where the readers look |
| BinnIter.Step | src/binn.c:1221-1243 | past an item's key and value lies the next item |
| BinnIter.BuiltIsValid | src/binn.c:1205-1254 | every built container in a block of four bytes or more is accepted and its type, count and size reported |
| BinnIter.IsValid | src/binn.c:1205-1254 | what becomes of every block: refused header, taken for a structure, read past its end, or accepted |
| BinnIter.BinnIter.Init | src/binn.c:1632-1652 | succeeds exactly on the expected type and stands before the first item |
| BinnIter.BinnIter.ListNext | src/binn.c:1656-1669 | the next item in insertion order, then nothing for ever |
| BinnIter.BinnIter.NextPair | src/binn.c:1673-1709 | the next key and value, then nothing for ever |
| BinnIter.ListForEach | src/binn.h:554-556 | iteration yields every item once, in insertion order |
| BinnIter.PairForEach | src/binn.h:546-552 | likewise keys and values of maps and objects |
| BinnIter.ListReadersAgree | src/binn.c:1454-1482 | on the bytes of a list, the k-th step of the iterator returns what the read at position k + 1 returns |
| BinnIter.PairReadersAgree | src/binn.c:1408-1543 | on the bytes of a map or object without repeated keys, the k-th step, the read at position k + 1 and the search for the key they find return the same |
| BinnRuns.RunRefinesMap | src/binn.c:611-613 | a sequence of puts, each dropped when its key is taken, leaves under a key the first value put under it up to case |
| BinnRuns.RunAppends | src/binn.c:584-667 | items are only ever appended, in the order of the calls that store them |
| BinnTrace.CallsAllowed | src/binn.c:584-667 | which calls a run may consist of, and the space each can need |
| BinnTrace.PutMeans | src/binn.c:761-906 | what a set puts is read back as what its argument means |
| BinnTrace.PerformOne | src/binn.c:584-667 | one call on the structure does one step of the run, and succeeds exactly when the run says |
| BinnTrace.Perform | src/binn.c:584-667 | any run of list adds, sets and saves, accepted or refused, on whatever buffer, leaves exactly the items and gives exactly the results of the run |
| BinnTrace.PerformThenObjectGet | src/binn.c:1408-1427 | after any run of object sets and saves a lookup in the bytes returns the first value accepted under the name, up to case, or fails when there is none |
| BinnTrace.PerformThenMapGet | src/binn.c:1431-1450 | the same for ids |
| BinnTrace.PerformThenForEach | src/binn.h:554-556 | iterating over the bytes of a list yields the values accepted, in the order of the calls |
| BinnTrace.PerformThenPairs | src/binn.h:546-552 | over those of a map or object, the pairs accepted |
| BinnTrace.PerformThenCompare | src/binn.c:1408-1543 | on the bytes of the map or object a run built, sequential, positional and keyed readers agree on what the run stored |
| BinnTrace.PerformThenCompareList | src/binn.c:1454-1482 | on those of a list, sequential and positional readers do |
| BinnRuns.RunKeepsKeysDistinct | src/binn.c:611-613 | no sequence of puts stores a key twice |
| BinnBuilder.CalcAllocation | src/binn.c:398-408 | the loop ends, within a C int, at Allocation |
| BinnBuilder.AllocationIsLeast | src/binn.c:398-408 | which is the least doubling that suffices |
| BinnBuilder.Allocation | src/binn.c:398-408 | at least the need, and below twice the need when it grew |
| BinnBuilder.CanHoldExactly | src/binn.c:412-427 | a buffer can be made to hold exactly the sizes up to one limit |
| BinnBuilder.GrowingKeepsLimit | src/binn.c:412-427 | growing does not change that limit, so the number of steps makes no difference |
| BinnBuilder.Binn.WriteItem | src/binn.c:616-632 | key and value are both written exactly when the value can be written and the capacity is there for both; otherwise the key is taken back |
| BinnBuilder.BoolReadsBack | src/binn.c:1934-1941 | a truth value takes one byte and reads back as 0 or 1 |
| BinnBuilder.PlanValue | src/binn.c:761-824 | the checks of AddValue accept exactly the values that can be written, and reserve for them |
| BinnBuilder.Binn.Create | src/binn.c:227-273 | which arguments give a structure, and which of these a valid, empty one |
| BinnBuilder.Binn.CheckAllocation | src/binn.c:412-427 | succeeds exactly when there is or can be room; what was used is kept |
| BinnBuilder.Binn.WriteValue | src/binn.c:826-901 | the stores into the buffer put exactly the value's bytes behind what was used |
| BinnBuilder.Binn.AddValue | src/binn.c:761-906 | the value's bytes are appended if it can be written and there is room, and otherwise nothing changes |
| BinnBuilder.Binn.ListAddRaw | src/binn.c:584-596 | exactly when a list accepts a value; it becomes the last item, or nothing changes |
| BinnBuilder.Binn.ObjectSetRaw | src/binn.c:600-635 | exactly when an object accepts a pair (free name up to case, at most 255 bytes, good value, room); rejected sets leave items, bytes and header as they were |
| BinnBuilder.Binn.MapSetRaw | src/binn.c:639-667 | the same for ids |
| BinnBuilder.Binn.ObjectSet | src/binn.c:2251-2257 | the same behind the conversion of the public types |
| BinnBuilder.Binn.WriteHeader | src/binn.c:910-980 | the header is written backwards within the nine bytes, ptr plus size is the end of what is used, the content stays |
| BinnBuilder.Binn.SaveHeader | src/binn.c:910-980 | after which the bytes from ptr are the serialized container |
| BinnBuilder.Binn.Ptr | src/binn.c:1131-1147 | the serialized container, saved first when dirty; no container of so many items and bytes of content is shorter |
| BinnBuilder.Binn.ObjectGet | src/binn.c:1408-1427 | reading while writing finds what was stored |
| BinnBuilder.Binn.MapGet | src/binn.c:1431-1450 | the same for ids |
| Messages.LongThroughInt | src/dsm_protocol.c:155-180 | an unsigned long passed as int survives exactly below 2^31 or from 2^64 - 2^31 |
| Messages.FieldsDistinct | src/dsm_protocol.h:4-11 | no field of a message hides another |
| Messages.IntFieldReads | src/binn.c:2460-2478 | an integer field of a message reads back |
| Messages.BlobFieldReads | src/binn.c:2863-2869 | a page reads back |
| Messages.RoundTrip | src/dsm_protocol.c:68-196 | the fields of a message decode to the message as received, for all nine types; other types are refused |
| Messages.RoundTripIsExact | src/dsm_protocol.c:68-196 | the message received is the message sent if and only if its unsigned longs are in the range of an int |
| Messages.LargePageIsMistaken | src/dsm_protocol.c:168-169 | a page number that arrives as another |
| Messages.SendMsg | src/dsm_protocol.c:147-196 | for every allocator: the frame sent holds the object of the fields for which there is memory, at most 512 bytes, plus the page for GIVEPAGE, or no bytes without memory for the object; unknown types send nothing |
| Messages.ReceiveFrame | src/dsm_socket.c:139-172 | a frame fills the front of the buffer, or is too big, or empty and taken for a lost connection |
| Messages.ReceiveMsg | src/dsm_protocol.c:68-137 | what a received object is decoded to, and what becomes of a block that is no object with items |
| Messages.Transfer | src/dsm_protocol.c:68-196 | from bytes to bytes, whatever the receiving buffer held: never too big; the message that arrives is the message sent, its unsigned longs cut to an int, its page missing only if there was no memory for it; without memory for the object the receiver closes the connection |
| Messages.PacketTravels | src/dsm_protocol.c:16-60 | a packet of the page protocol is handed on as the same packet exactly when its page number survives and there was memory for its page |
| Messages.LowHalfSurvives | src/dsm_memory.c:116-124 | the page table entry looked up is the right one exactly below 2^32 |
| Messages.PageOnlyFromBlob | src/binn.c:2863-2869 | a value is taken for a page exactly under the type of a blob or of a picture |
| MessagesWire.AnyArguments | src/dsm_protocol.h:34-96 | every unsigned long and unsigned short can stand in a message |
| MessagesWire.MessageWrites | src/dsm_protocol.c:152-180 | the fields of every message, byte by byte: names, type numbers, order, shortest integers |
| MessagesWire.SendsExactly | src/dsm_protocol.c:147-196 | every message sent is the length and the object of an independent encoder, but for a page for which there is no memory |
| MessagesWire.InvalidatePageFive | src/dsm_protocol.c:168-169 | one message in full |
| MessagesWire.PacketNumbers | src/dsm_protocol.h:17-27 | the type number, page and rights each packet of the page protocol is sent with |

## Left out

- Sockets, select, accept, the listener loop, byte-level interleaving of sends, connection failure: I/O; connections are reliable and in order.
- mmap, mprotect and sysconf: only the `protection` value they mirror is kept.
- malloc and free of nodes and messages, dangling pointers, `free(buffer)` before the dispatch of a received page.
- The master's own application thread as reader or writer, which sends no request: coherence is stated for slaves.
- Upgrading a read lock to a write lock, fairness of the scheduler, and the barrier's wake-up, whose signal can be missed.
- The page-return loop of `terminate` as steps of the whole memory: it is tied to the quit step page by page.
- What the master does with a reader that has quit, and `client_count`.
- HomePage.HomePage.HandleInvalidateAck: does not cover an acknowledgement from the last of several readers without invalidations out, which leaves the reader list's tail behind; no reachable state has one in flight.
- Messages.ReceiveMsg: does not cover objects with items that no run of the writer built, because the source reads on wherever such items lead it.
- BinnReader.ObjectGetValue: like the other readers of a block, does not model the comparison of its first four bytes with the magic number, which on an empty container in a block of three bytes reads one byte more; the answer does not depend on it.
- Structures that were loaded rather than created (`writable` false), and telling a structure from a buffer by its magic number: loaded containers are byte blocks here.
- Floats, strings read as numbers, `binn_get_str`, `binn_create_type`, user-supplied allocators, big-endian hosts, the typed wrappers of `binn.h`, `binn_list_add` and `binn_map_set` (the raw setters behind the same conversion as `binn_object_set`).
- `get_page_from_id`, `get_page_from_addr` and handshake checks of CONNECT: easy lookups and comparisons.
