# Verification of slirp4tinc

slirp4tinc joins a user-mode-Linux network socket to a slirp stack. Packets travel between the two in rings of
buffers; a select loop calls the two ends when their descriptors are ready. This project models that machinery,
and the two text tools beside it, and proves what they keep.

* **The ring** (`ProducerConsumer<T, N, Semaphore>`) is modelled twice, for every number of slots `N >= 1`.
  `ProducerConsumer.dfy` is the class: arrays, indices, counters and semaphore values updated in place, one call at
  a time. `RingProtocol.dfy` is the same code as a step system: any number of threads, each with a program counter,
  interleaving one semaphore operation, one mutex-protected block or one unprotected assertion per step. Both are
  built on the five blocks of `RingBlocks.dfy`. `RingInvariant.dfy` proves the invariant that every step keeps,
  `RingTheorems.dfy` what it means for whole runs, `RingProgress.dfy` who can wait and where a call ends,
  `RingReach.dfy` runs of clients that keep to a policy, `RingWaits.dfy` when a `consume(false)` is left waiting,
  `RingOverwrites.dfy` when a `produce(false)` is, and `RingQueries.dfy` what the two queries return.
* **The event loop**: `HandlerChain.dfy` is the intrusive doubly linked chain of handlers, `SelectLoop.dfy` the two
  passes of `waitOn` over it, `SelectTheorems.dfy` what those execute, `PacketHandlers.dfy` the two users of the
  uml-to-slirp ring, `Forwarding.dfy` puts ring, loop and handlers together and shows that nothing is lost, and
  `Delivery.dfy` that packets get through. What `pselect` answers and what the sockets yield are parameters, so the
  theorems hold for all of it.
* **The formatter**: `IntegerText.dfy` (digits, padding, and a reader that undoes them), `Directives.dfy` (a format
  as a list of directives), `Conversions.dfy` (what the field of a conversion looks like), `Formats.dfy` (a reader
  of formats), `PrintfToStream.dfy` (the scanner and printer), `Hexdump.dfy` (the dump, and a decoder).
  The formats are a subset of those of section 7.21.6.1 of ISO C11.
* **The option parser**: `ArgOptions.dfy` (what one option does, and runs of commands), `ArgParser.dfy` (a command
  line as a list of commands, and the parser), `ArgTheorems.dfy` (different ways to write the same line; compare
  Guideline 5 in section 12.2 of the Base Definitions of POSIX.1-2017), `ArgErrors.dfy` (where a line ends in an
  error), `SubParser.dfy` (options inside a value).

`Prelude.dfy` holds shared vocabulary. `dafny verify dfyconfig.toml` checks everything. Semaphores behave as
`sem_wait` and `sem_post` in the System Interfaces volume of IEEE Std 1003.1.

How the pieces connect: each method that computes or updates something is proved equal to a function of its inputs
and its old state, and the theorems are about those functions. For the ring, `ProduceAlone` and `ConsumeAlone` are what the class computes
(`ProducerConsumer.Produce`, `ProducerConsumer.Consume`) and also where the step system ends when one thread runs
(`RingProgress.ProduceRunsAlone`, `RingProgress.ConsumeRunsAlone`).

## Where the source says one thing and does another

* `src/Util/ProducerConsumer.h:25-29` says that `produce` never blocks on a single-threaded producer and that
  `produce(false)` overwrites the oldest item. Running alone, it waits exactly when every slot is taken and none is
  released (`RingProgress.ProduceWithoutBlockingFinishesIff`), and no cleanup wakes it
  (`RingWaits.ProducerCanBeStranded`). Beside other threads, it can be left waiting if and only if it may be called
  while a slot is in production or in consumption, or some other thread may produce or consume
  (`RingOverwrites.ProduceFalseLeftWaitingIff`): the full check at line 135 is stale at line 139, so a producer with
  every slot released can end up waiting on an empty ring (`RingOverwrites.DrainedRingStrands`).
* `src/Util/ProducerConsumer.h:52-53` says that `consume(false)` returns null when nothing is available. It can be
  left waiting instead, because the check at line 199 is stale at line 206, if and only if some other thread may call
  `consume` or `produce(false)`: `RingWaits.ConsumeFalseLeftWaitingIff`, for any number of slots and threads.
* `src/Util/PrintfToStream.cpp:188-209` puts zeros behind the digits for `-` with `0`, and in front of the sign for
  `+` with `0`: `IntegerText.ReadsBackIff` says exactly when the output no longer reads as the number; `%-03d` shows 5 as `500`
  (`IntegerText.ZerosBehindFive`) and `%+03d` as `0+5` (`IntegerText.PlusBehindZero`).
* `src/Util/PrintfToStream.cpp:295-429` returns a count of characters, as fprintf does in section 7.21.6.1 of ISO C11,
  but does not count those put out for conversions that are not known: `Directives.CountsAllIff`,
  `PrintfToStream.PrintfToStream.Vprintf`; `%q` is one (`Directives.UnknownIsNotCounted`).
* `src/Util/HexdumpToByteStream.cpp:19` does not end for lengths above 0xFFFFFFF0: `Hexdump.CounterPassesIff`.
* Grouping options, or attaching a value, changes the meaning of a line where an option in front takes the next
  token as its value, and attaching does so for optional values: `ArgTheorems.GroupingIff`, `ArgTheorems.AttachingIff`.
  `-o -ab` and `-vx` are such lines: `ArgTheorems.GroupingCanChangeMeaning`, `ArgTheorems.AttachingCanChangeMeaning`.
* `SubParser::set` does not see a separator at the start of a field (`arg/arg.cpp:426`) and cuts a field at its last
  equals sign: `SubParser.JoinRoundTripIff`; `SubParser.StrayEqualsIsMisread` and `SubParser.EmptyFieldIsMisread` show
  both.

## Model

| member | source | states |
|---|---|---|
| RingBlocks.InitialIsValid | src/Util/ProducerConsumer.h:103-120 | the constructor leaves a valid ring: all slots free, in index order, none released |
| RingBlocks.TakeFreeIsDequeue | src/Util/ProducerConsumer.h:159-168 | no assert fires; the oldest free slot, and only that, leaves the free queue and is in production |
| RingBlocks.EvictIsTransfer | src/Util/ProducerConsumer.h:141-152 | no assert fires; the oldest released slot moves to the end of the free queue, whatever the stale full check saw |
| RingBlocks.StoreReleasedIsEnqueue | src/Util/ProducerConsumer.h:184-188 | a slot in production, any one of them, joins the end of the released queue with its contents |
| RingBlocks.TakeReleasedIsDequeue | src/Util/ProducerConsumer.h:208-215 | no assert fires; the oldest released slot leaves the released queue and is in consumption |
| RingBlocks.ReturnFreeIsEnqueue | src/Util/ProducerConsumer.h:231-236 | a slot in consumption, any one of them, joins the end of the free queue |
| RingBlocks.Conservation | src/Util/ProducerConsumer.h:90 | the two counters are the numbers of slots by place: every slot is free, in production, released or in consumption |
| RingInvariant.InitialInv | src/Util/ProducerConsumer.h:99-122 | the invariant of the step system (tokens, ownership, valid ring) holds at the start |
| RingInvariant.PlainStepPreserves | src/Util/ProducerConsumer.h:134-238 | a step that moves tokens between semaphores and threads, and nothing else, keeps the invariant |
| RingInvariant.BlockStepPreserves | src/Util/ProducerConsumer.h:141-236 | a mutex-protected block that moves one slot and adjusts one counter per token keeps the invariant |
| RingInvariant.ItemTokenMeansReleased | src/Util/ProducerConsumer.h:206-208 | behind `item.acquire()` some slot is released |
| RingInvariant.FreeTokenMeansFree | src/Util/ProducerConsumer.h:157-159 | behind `free.acquire()` some slot is free |
| RingInvariant.UnlockedAssertsHold | src/Util/ProducerConsumer.h:180-228 | the asserts of release and cleanup, which run without the mutex, hold |
| RingInvariant.GoPreserves | src/Util/ProducerConsumer.h:134-260 | every statement of every call keeps the invariant and fails no assert |
| RingInvariant.StepPreserves | src/Util/ProducerConsumer.h:129-263 | every enabled action of clients and threads keeps the invariant and fails no assert |
| RingInvariant.PassPreserves | src/Util/ProducerConsumer.h:35-42 | a slot may be given to another thread, even one inside a call: slots are known by address only |
| RingTheorems.NoAssertFires | src/Util/ProducerConsumer.h:142-228 | no interleaving of any number of threads fails an assert, if clients hand back what was handed out, from whichever thread |
| RingTheorems.SlotPartition | src/Util/ProducerConsumer.h:86-94 | in every reachable state each slot is in exactly one place, the windows are the cyclic ranges from `nextAdd` and `nextConsume`, every other entry is null, and flags agree |
| RingTheorems.ExclusiveOwnership | src/Util/ProducerConsumer.h:159-185 | no slot is ever in the hands of two threads, or twice in those of one, also when threads pass slots on |
| RingTheorems.TokenAccounting | src/Util/ProducerConsumer.h:153-238 | counters equal semaphore values plus tokens held by threads plus posts still owed, at every step |
| RingTheorems.TokensFindSlots | src/Util/ProducerConsumer.h:161-210 | a thread with a token finds a non-null entry |
| RingTheorems.MutualExclusion | src/Util/ProducerConsumer.h:93 | at most one thread is inside a protected block |
| RingTheorems.CountersCount | src/Util/ProducerConsumer.h:90 | at every reachable state numProducedItems counts slots in production, released and in consumption, and stays in range |
| RingTheorems.OutsideBlocksRingUnchanged | src/Util/ProducerConsumer.h:134-238 | only the five blocks change the ring |
| RingTheorems.StepOnRing | src/Util/ProducerConsumer.h:134-238 | every step is one of five queue moves on the ring, or none |
| RingTheorems.WriteFills | src/Util/ProducerConsumer.h:35-42 | what a client writes is in the slot it produces, and nothing else changes |
| RingTheorems.EventOnPending | src/Util/ProducerConsumer.h:141-215 | a queue move takes from the front of the pending items or adds at their end |
| RingTheorems.Fifo | src/Util/ProducerConsumer.h:141-215 | over every run, items taken (consumed or evicted), then items pending, are the items released, in the order of the release steps, with their contents |
| RingTheorems.Accounts | src/Util/ProducerConsumer.h:151-236 | over every run, productions are items still in the ring plus items cleaned plus items evicted |
| RingTheorems.DeliveredOrDropped | src/Util/ProducerConsumer.h:141-215 | each released item that left the queue was delivered once or evicted, never both; deliveries keep the release order |
| RingTheorems.PayloadIntegrity | src/Util/ProducerConsumer.h:184-233 | from release to cleanup a slot holds exactly what its producer released, under every interleaving with reuse and eviction |
| RingProgress.NeverWaitsUnderMutex | src/Util/ProducerConsumer.h:134-158 | no statement waits on a semaphore while holding the mutex |
| RingProgress.NoLostWakeups | src/Util/ProducerConsumer.h:139-206 | where only waiters remain, a waiter on `free` means all slots produced, one on `item` means nothing released |
| RingProgress.NoMutualStarvation | src/Util/ProducerConsumer.h:134-207 | with no slot checked out, producers stuck on `free` and takers stuck on `item` do not coexist |
| RingProgress.IdleSemaphores | src/Util/ProducerConsumer.h:91-93 | between calls the semaphores show the counters |
| RingProgress.AloneIsARun | src/Util/ProducerConsumer.h:130-239 | a thread running alone is one of the runs of the step system |
| RingProgress.ProduceRunsAlone | src/Util/ProducerConsumer.h:130-172 | produce, run alone statement by statement, ends in the state of `ProduceAlone`, or never ends when that waits |
| RingProgress.ProduceWithoutBlockingFinishesIff | src/Util/ProducerConsumer.h:130-172 | running alone, produce(false) finishes if and only if a slot is free or an item released; `RingOverwrites` treats it beside other threads |
| RingProgress.BlockingCallsFinishIff | src/Util/ProducerConsumer.h:157-206 | running alone, produce(true) finishes if and only if a slot is free, consume(true) if and only if one is released, consume(false) always |
| RingProgress.BlockingProduceDropsNothing | src/Util/ProducerConsumer.h:135-171 | produce(true) hands out the oldest free slot and leaves every released one |
| RingProgress.OverwritesOldest | src/Util/ProducerConsumer.h:135-157 | running alone with no slot checked out, produce(false) finishes; on a full ring it drops exactly the oldest released item and hands out its slot |
| RingProgress.FullRingSwapsOldest | src/Util/ProducerConsumer.h:141-168 | eviction from a full ring is followed by taking that same slot |
| RingProgress.ConsumeRunsAlone | src/Util/ProducerConsumer.h:193-219 | consume alone ends in the state of `ConsumeAlone`; consume(false) always ends, with null exactly when nothing is released |
| RingProgress.ReleaseRunsAlone | src/Util/ProducerConsumer.h:175-191 | release alone ends, with the slot queued and one more item token |
| RingProgress.CleanupRunsAlone | src/Util/ProducerConsumer.h:221-239 | cleanup alone ends, with the slot free and one more free token |
| RingWaits.StrandedUntilRelease | src/Util/ProducerConsumer.h:139 | a produce(false) waiting for an item stays waiting in every run without a release |
| RingWaits.CleanupDoesNotWakeProducer | src/Util/ProducerConsumer.h:139-238 | from a full ring with nothing released, produce(false) can wait and keep waiting after a cleanup freed a slot |
| RingWaits.ProducerCanBeStranded | src/Util/ProducerConsumer.h:25-29 | such a state is reachable for every number of slots with one producer and one consumer |
| RingWaits.ConsumeFalseCanWait | src/Util/ProducerConsumer.h:199-206 | with one item released and a second consumer, a consume(false) can be left waiting on an empty ring |
| RingWaits.OverwritingStealsItem | src/Util/ProducerConsumer.h:139-206 | the eviction of a produce(false) in another thread leaves it waiting as well |
| RingWaits.ConsumerCanWait | src/Util/ProducerConsumer.h:52-53 | both are reachable for every number of slots, every set of threads and every second taker |
| RingWaits.SoleTakerStep | src/Util/ProducerConsumer.h:198-208 | while only one thread takes items, no step of any thread removes the item its test found |
| RingWaits.SoleTakerFindsItem | src/Util/ProducerConsumer.h:193-219 | in every run in which only one thread consumes or overwrites, its consume(false) finds an item behind its test, waits at most for a release under way, and is never left waiting |
| RingWaits.ConsumeFalseLeftWaitingIff | src/Util/ProducerConsumer.h:52-57 | a consume(false) can be left waiting if and only if some other thread may call consume or produce(false) |
| RingOverwrites.UnreleasedSlotsStrand | src/Util/ProducerConsumer.h:135-139 | called on a ring full of unreleased slots, produce(false) can be left waiting, for every number of slots |
| RingOverwrites.DrainedRingStrands | src/Util/ProducerConsumer.h:135-140 | called with every slot released and none checked out, it can be left waiting on an empty ring when another thread consumes, for every number of slots |
| RingOverwrites.LastSlotStolen | src/Util/ProducerConsumer.h:135-158 | a second producer can take the last free slot behind the check and leave it waiting |
| RingOverwrites.RestedStep | src/Util/ProducerConsumer.h:134-239 | while one thread alone produces and consumes and calls produce(false) with nothing checked out, no step of any thread takes away what that call relies on |
| RingOverwrites.RestedProducerReturns | src/Util/ProducerConsumer.h:129-172 | in every such run the call is never left waiting, and finds every slot released behind its full check |
| RingOverwrites.ProduceFalseLeftWaitingIff | src/Util/ProducerConsumer.h:25-33 | produce(false) can be left waiting if and only if it may be called while a slot is checked out, or some other thread may produce or consume |
| RingQueries.ReadIsRight | src/Util/ProducerConsumer.h:242-263 | the read yields the number of free, or of released, slots at that moment |
| RingQueries.OthersAreOutside | src/Util/ProducerConsumer.h:246-248 | nobody else is in a block while the query holds the mutex |
| RingQueries.QueriesCount | src/Util/ProducerConsumer.h:242-263 | over every run, the result of slotsAvailable() is the number of free slots when it was read and still when it is returned; that of itemsAvailable() the number of released ones |
| ProducerConsumer.ProducerConsumer.constructor | src/Util/ProducerConsumer.h:98-122 | the constructor builds the initial ring, ready for calls |
| ProducerConsumer.ProducerConsumer.ClearSlots | src/Util/ProducerConsumer.h:112-120 | the loop clears the flags of every slot, keeps its contents, and fills the free array in order |
| ProducerConsumer.ProducerConsumer.Produce | src/Util/ProducerConsumer.h:129-172 | the method computes `ProduceAlone` in place and leaves the ring ready |
| ProducerConsumer.ProducerConsumer.DropOldest | src/Util/ProducerConsumer.h:139-155 | the statements of the overwrite branch are the eviction block and its semaphore operations |
| ProducerConsumer.ProducerConsumer.TakeSlot | src/Util/ProducerConsumer.h:157-171 | the statements from `free.acquire()` on are the taking block; no assert fails |
| ProducerConsumer.ProducerConsumer.Release | src/Util/ProducerConsumer.h:175-191 | the method is the release block, keeps the ring ready and posts one item |
| ProducerConsumer.ProducerConsumer.Consume | src/Util/ProducerConsumer.h:193-219 | the method computes `ConsumeAlone` in place and leaves the ring ready |
| ProducerConsumer.ProducerConsumer.TakeItem | src/Util/ProducerConsumer.h:206-218 | the statements from `item.acquire()` on are the consuming block; no assert fails |
| ProducerConsumer.ProducerConsumer.Cleanup | src/Util/ProducerConsumer.h:221-239 | the method is the returning block, keeps the ring ready and posts one free |
| ProducerConsumer.ProducerConsumer.SlotsAvailable | src/Util/ProducerConsumer.h:241-251 | the number of free slots, counted by their flags |
| ProducerConsumer.ProducerConsumer.ItemsAvailable | src/Util/ProducerConsumer.h:253-263 | the number of released slots, counted by their flags |
| HandlerChain.MembersKnowTheirChain | src/Interface/FdSelectHandler.cpp:29 | the chain pointer of every handler names the one chain it is in |
| HandlerChain.FdSelectHandler.AddTo | src/Interface/FdSelectHandler.cpp:24-36 | a handler in no chain becomes the first of the chain; every other chain is as before |
| HandlerChain.FdSelectHandler.RemoveFromChain | src/Interface/FdSelectHandler.cpp:38-51 | exactly this handler leaves its chain, the head pointer of that chain is right, and every other chain is as before |
| HandlerChain.FdSelectHandler.Unlink | src/Interface/FdSelectHandler.cpp:40-50 | the pointer assignments leave a well-formed doubly linked list without the handler |
| HandlerChain.PerformOne | src/Interface/FdSelectHandler.cpp:24-51 | one addition or removal does to the pointers what it does to the lists |
| HandlerChain.Perform | src/Interface/FdSelectHandler.cpp:24-51 | any permitted sequence of additions and removals leaves well-formed, disjoint chains with the contents the operations say |
| SelectLoop.Dispatcher.Collect | src/Interface/FdSelectHandler.cpp:61-82 | the first pass ends and collects exactly the descriptors of handlers that wait; it found a descriptor iff fdMax is not negative |
| SelectLoop.Dispatcher.DispatchOne | src/Interface/FdSelectHandler.cpp:96-108 | one turn asks again, calls execute with those flags if the answer and the sets agree, and survives a handler that removes itself; `SelectTheorems.ExecutedIsRecorded` says that what is executed is what is recorded |
| SelectLoop.Dispatcher.DispatchAll | src/Interface/FdSelectHandler.cpp:94-109 | the second pass ends, visits the original chain in order, and leaves the chain of the handlers that stayed, in the state that executing its recorded calls leads to (`SelectTheorems.ExecutedIsRecorded`, `SelectTheorems.StayingAre`) |
| SelectLoop.Dispatcher.Idle | src/Interface/FdSelectHandler.cpp:118-135 | with a timeout it sleeps that long, and reports a sleep that failed |
| SelectLoop.Dispatcher.WaitOn | src/Interface/FdSelectHandler.cpp:53-138 | work is done exactly when some handler has a descriptor and pselect reports some; then the calls and the state are those of the pass. It sleeps exactly when no handler has a descriptor, and reports exactly the failures |
| SelectLoop.VisitsInOrder | src/Interface/FdSelectHandler.cpp:94-109 | the calls of a pass are one visit per handler, in chain order |
| SelectLoop.CalledIff | src/Interface/FdSelectHandler.cpp:66-108 | execute(r, w) is called exactly when interest held before the select, the descriptor was reported, and interest holds when asked again |
| SelectLoop.CalledIffOwnInterest | src/Interface/FdSelectHandler.cpp:66-108 | with distinct descriptors it is the handler's own earlier interest that counts |
| SelectTheorems.ExecutedIsRecorded | src/Interface/FdSelectHandler.cpp:94-109 | the state in which each handler is asked, and that after the pass, is the one that executing the recorded calls, with their flags and in their order, leads to |
| SelectTheorems.LogIsCalls | src/Interface/FdSelectHandler.cpp:107 | handlers that write down the arguments of their execute() find in their log the calls of the pass |
| SelectTheorems.StayingAre | src/Interface/FdSelectHandler.cpp:96-108 | exactly the handlers stay in the chain, in their order, that are not called or whose execute(), with those flags and in that state, does not remove them |
| SelectTheorems.WriterLeavesIff | src/Interface/FdSelectHandler.cpp:107 | a handler that leaves when told that it is writable leaves exactly when it waits to write and its descriptor was reported |
| SelectTheorems.SelectedFor | src/Interface/FdSelectHandler.cpp:61-82 | pselect is asked for exactly the non-negative descriptors of handlers that wait |
| SelectTheorems.IdleIs | src/Interface/FdSelectHandler.cpp:118-135 | without descriptors it sleeps for the timeout, if there is one, and reports a sleep that failed |
| PacketHandlers.ProducedSlot | src/umlplug/UmlNetworkSocketPlug.cpp:111 | what produce(false) hands to the plug, and exactly when it waits |
| PacketHandlers.ConsumedSlot | src/SlirpHandler.cpp:53 | what consume(false) hands to slirp: the oldest buffer unchanged, or null exactly when none is released |
| PacketHandlers.ReceiveAppends | src/umlplug/UmlNetworkSocketPlug.cpp:109-129 | with a free slot, receiving releases one more slot and appends the received packet to the waiting ones, or nothing if none was received |
| PacketHandlers.ReceiveOverwrites | src/umlplug/UmlNetworkSocketPlug.cpp:109-129 | on a ring full of released buffers, receiving drops exactly the oldest packet and appends the new one |
| PacketHandlers.SendTakesOldest | src/SlirpHandler.cpp:51-66 | sending takes the buffer released longest ago out of the ring and hands out its packet, if it is not empty; an empty ring stays as it is |
| PacketHandlers.SettledCounters | src/umlplug/UmlNetworkSocketPlug.cpp:67 | between handler calls every produced slot is a released one |
| PacketHandlers.UmlNetworkSocketPlug.Fd | src/umlplug/UmlNetworkSocketPlug.cpp:63-71 | the plug waits to read exactly while its ring has room |
| PacketHandlers.UmlNetworkSocketPlug.ExecuteReadable | src/umlplug/UmlNetworkSocketPlug.cpp:109-129 | the method does to the ring what `Receive` says and keeps myErrno as the source does |
| PacketHandlers.SlirpHandler.Fd | src/SlirpHandler.cpp:69-77 | slirp waits to write exactly while a buffer is released |
| PacketHandlers.SlirpHandler.ExecuteWritable | src/SlirpHandler.cpp:51-66 | the method does to the ring what `Send` says and hands those packets to vdeslirp_send |
| Forwarding.ExecuteKeepsLossless | src/Interface/FdSelectHandler.cpp:96-108 | a handler called for what it waits for at that moment loses nothing and does not wait; what it moves is in `Delivery.WritableSends` and `Delivery.ReadableReceives` |
| Forwarding.LosslessForwarding | src/main.cpp:50-60 | over every run of the main loop: packets sent, then non-empty packets waiting, are the packets received, in order; the eviction branch is never taken and no call waits. That packets move is in `Delivery.Fills` and `Delivery.AllIsSent` |
| Forwarding.Connect | src/main.cpp:48-51 | both handlers are in the chain, the plug first |
| Forwarding.TurnOnce | src/main.cpp:60 | one call of waitOn over the real chain is one turn of the loop model, with the answer of pselect to what the handlers wait for, and keeps the chain |
| Forwarding.Turns | src/main.cpp:53-61 | any number of calls, with a tenth of a second each, is that many turns of the loop model, each with the answer of pselect in that turn |
| Forwarding.Forward | src/main.cpp:42-61 | the program, from the empty ring and chain on, is where the loop model is with the answers of pselect, and loses, reorders and invents no packet and never waits; `Delivery.Delivered` says that packets arrive |
| Forwarding.BackPressure | src/umlplug/UmlNetworkSocketPlug.cpp:67 | input is asked for exactly while the ring has room, output exactly while a buffer waits |
| Delivery.WritableSends | src/SlirpHandler.cpp:51-61 | a writable slirp takes one buffer out of the ring, the oldest, and adds its packet to those sent |
| Delivery.ReadableReceives | src/umlplug/UmlNetworkSocketPlug.cpp:109-129 | a readable plug with room receives what the socket yields and releases one more buffer |
| Delivery.FullReceiveDrops | src/umlplug/UmlNetworkSocketPlug.cpp:111 | called without room, it drops the oldest packet, and that is counted |
| Delivery.ReceiveStuckIff | src/umlplug/UmlNetworkSocketPlug.cpp:111 | it waits for ever if and only if every slot is taken and none is released |
| Delivery.OtherHalves | src/SlirpHandler.cpp:39-49 | the other halves of the two handlers leave this direction alone |
| Delivery.BothVisited | src/Interface/FdSelectHandler.cpp:96-108 | a turn of the loop visits the plug and then slirp |
| Delivery.SendingTurn | src/main.cpp:60 | a turn in which only slirp is ready to write sends the oldest packet |
| Delivery.ReceivingTurn | src/main.cpp:60 | a turn in which only the plug is ready receives one packet if there is room, and nothing if not |
| Delivery.AllIsSent | src/main.cpp:53-61 | as many turns of the first kind as buffers wait: all that was ever received has been sent and the ring is empty |
| Delivery.Fills | src/main.cpp:53-61 | turns of the second kind fill the ring with what arrives, in order, until it is full, and then receive nothing |
| Delivery.Delivered | src/main.cpp:42-61 | from the start of the program, what was sent is what arrived, for any number of packets up to the size of the ring |
| Delivery.AskFd | src/SlirpHandler.cpp:69-77 | fd() of the two objects answers as the loop model says |
| Delivery.Run | src/SlirpHandler.cpp:51-66 | execute() of the two objects does to the shared ring and to what was sent what the loop model says, and waits exactly when it says so |
| IntegerText.DigitsReadBack | src/Util/PrintfToStream.cpp:179-186 | the digits of any number, in any base from 10 to 36, read as that number |
| IntegerText.TwentyDigits | src/Util/PrintfToStream.cpp:137 | no 64-bit number has more than twenty digits |
| IntegerText.TwentyDigitsNeeded | src/Util/PrintfToStream.cpp:137 | the largest has twenty: the buffer of 22 is exactly tight |
| IntegerText.FieldLength | src/Util/PrintfToStream.cpp:149-210 | the output is as long as the width, or as the text where that is longer |
| IntegerText.NegativeReadsBackIff | src/Util/PrintfToStream.cpp:188-209 | zero-padded negative numbers read back iff no zeros went behind the digits |
| IntegerText.PositiveReadsBackIff | src/Util/PrintfToStream.cpp:201-209 | zero-padded positive numbers read back iff no zeros went behind the digits or in front of a plus |
| IntegerText.ReadsBackIff | src/Util/PrintfToStream.cpp:149-210 | for all flags, widths, bases and values the field reads as the number shown (`Conversions.FieldReadsIff` says which that is), except exactly for `-` or `+` with zero padding that adds zeros |
| IntegerText.ZerosBehindFive | src/Util/PrintfToStream.cpp:126-130 | `%-03d` shows 5 as 500 |
| IntegerText.PlusBehindZero | src/Util/PrintfToStream.cpp:203-209 | `%+03d` shows 5 as 0+5, which is no number |
| IntegerText.Signed32Is | src/Util/PrintfToStream.cpp:161-165 | the int shown without `l` is the only one with the same low 32 bits; an int is itself |
| IntegerText.Signed64Is | src/Util/PrintfToStream.cpp:149-157 | likewise for 64 bits |
| Directives.WidthIsNumber | src/Util/PrintfToStream.cpp:351-352 | the width is the decimal number that its digits denote |
| Directives.WidthStopsAtPoint | src/Util/PrintfToStream.cpp:334-360 | a point and the digits behind it do not change the width |
| Directives.CountsAllIff | src/Util/PrintfToStream.cpp:416-419 | the result is the length of the output exactly when every conversion is known |
| Directives.UnknownIsNotCounted | src/Util/PrintfToStream.cpp:416-419 | `%q` puts out two characters and counts none |
| Directives.Compositional | src/Util/PrintfToStream.cpp:302-427 | formats and argument lists can be formatted piece by piece |
| Conversions.KnownConversions | src/Util/PrintfToStream.cpp:369-420 | the conversions that take an argument are s, c, d, x, X and u |
| Conversions.TextOfStrings | src/Util/PrintfToStream.cpp:371-410 | a string shows as it is, null as `(null)`, a character as itself, NUL as nothing |
| Conversions.TextOfIntegers | src/Util/PrintfToStream.cpp:149-210 | without a width, `d` shows the argument and `u`, `x`, `X` the unsigned number with the same bits, in base ten and sixteen: a sign as the value and `+` ask for, digits in the case of the letter, no leading zero |
| Conversions.FieldIs | src/Util/PrintfToStream.cpp:86-133 | the padding fills the field to its width, with zeros or blanks, behind the text for `-`, else in front, but behind a minus sign |
| Conversions.FieldReadsIff | src/Util/PrintfToStream.cpp:149-210 | the field reads as the argument unless zeros go behind its digits or in front of its plus sign |
| Conversions.EveryNumberShows | src/Util/PrintfToStream.cpp:369-400 | without zero padding every int is shown by `%d` and every 64-bit number but the least by `%ld` |
| Conversions.PlainDirectives | src/Util/PrintfToStream.cpp:307-420 | literals stand for themselves, two percent signs for one, and unknown conversions for a percent sign and their letter |
| Conversions.OneConversion | src/Util/PrintfToStream.cpp:369-420 | a conversion puts out its field and takes exactly one argument |
| Conversions.Written | src/Util/PrintfToStream.cpp:302-420 | how a directive is written: flags, zeros, digits, length, letter |
| Conversions.SomeDecimals | src/Util/PrintfToStream.cpp:161-209 | `%d` shows -5 as -5, `%04d` as -005 |
| Conversions.SomeHexadecimals | src/Util/PrintfToStream.cpp:179-207 | `%-3x` and `%+3X` show ten in their cases, left and right |
| Formats.ReadRenders | src/Util/PrintfToStream.cpp:302-420 | a format that can be read is the rendering of the directives read |
| Formats.RenderIsRead | src/Util/PrintfToStream.cpp:302-420 | reading the rendering of a list of directives gives back the list |
| Formats.CoveredIff | src/Util/PrintfToStream.cpp:302-420 | the formats covered are exactly those that neither end inside a directive nor hold `%f`, and each means one list of directives |
| PrintfToStream.PrintfToStream.Prints | src/Util/PrintfToStream.cpp:86-133 | the loops put out the string in its field and count what they put out |
| PrintfToStream.PrintfToStream.ConvertDigits | src/Util/PrintfToStream.cpp:175-186 | the backward loop leaves the digits in the buffer, in bounds, with room for a sign |
| PrintfToStream.PrintfToStream.PutNumber | src/Util/PrintfToStream.cpp:175-209 | sign and padding are put where the flags say, in bounds |
| PrintfToStream.PrintfToStream.Printi | src/Util/PrintfToStream.cpp:149-210 | the method puts out `IntText`, which `Conversions` describes, and returns its length, for all 64-bit values but a signed decimal most negative one |
| PrintfToStream.PrintfToStream.ScanWidth | src/Util/PrintfToStream.cpp:331-361 | the width scanner reads all digits and points and returns the width |
| PrintfToStream.PrintfToStream.Convert | src/Util/PrintfToStream.cpp:369-420 | the switch puts out the field of its conversion and counts it, or an unknown one uncounted |
| PrintfToStream.PrintfToStream.Directive | src/Util/PrintfToStream.cpp:307-420 | the scanner reads back flags, zeros, width, length and letter of a directive and takes one argument if it needs one |
| PrintfToStream.PrintfToStream.Turn | src/Util/PrintfToStream.cpp:304-426 | one turn of the loop handles exactly one directive |
| PrintfToStream.PrintfToStream.Vprintf | src/Util/PrintfToStream.cpp:295-429 | for every list of directives and matching arguments the output is theirs, in order; the result is its length but for unknown conversions; a percent sign at the end puts out nothing |
| Hexdump.CounterPassesIff | src/Util/HexdumpToByteStream.cpp:19 | the 32-bit counter gets past the length exactly for lengths up to 0xFFFFFFF0 |
| Hexdump.HexdumpToByteStream | src/Util/HexdumpToByteStream.cpp:13-35 | the output is the dump text, whose rows `Hexdump.RowReads` and `Hexdump.RowShows` describe; the result is its length modulo 2^32 |
| Hexdump.DumpRow | src/Util/HexdumpToByteStream.cpp:21-31 | one turn puts out one row: address, sixteen cells, and the characters that `Hexdump.RowShows` describes |
| Hexdump.PrintAddress | src/Util/HexdumpToByteStream.cpp:21 | the format `%08lx: ` puts out the address, modulo 2^64 |
| Hexdump.PrintByte | src/Util/HexdumpToByteStream.cpp:24 | the format `%02x ` puts out the byte |
| Hexdump.AddressReads | src/Util/HexdumpToByteStream.cpp:21 | the address field reads as the address modulo 2^64, for every address |
| Hexdump.ByteReads | src/Util/HexdumpToByteStream.cpp:24 | a cell is two digits that read as the byte |
| Hexdump.CellsRead | src/Util/HexdumpToByteStream.cpp:22-26 | the hex columns of a row read as its bytes, also in a short last row |
| Hexdump.RowReads | src/Util/HexdumpToByteStream.cpp:21-31 | a row reads as its address and its bytes, whatever the character column shows |
| Hexdump.ColumnIs | src/Util/HexdumpToByteStream.cpp:28-30 | the character column has one character for each byte, the byte itself where it is printable ASCII and a point where it is not |
| Hexdump.RowShows | src/Util/HexdumpToByteStream.cpp:21-31 | that column stands behind the separator blank and ends the row |
| Hexdump.SampleCell | src/Util/HexdumpToByteStream.cpp:21-24 | cells are in lower case with two digits, addresses have eight |
| Hexdump.DumpRoundTrip | src/Util/HexdumpToByteStream.cpp:13-35 | decoding a dump gives the buffer back; row k has address base + 16k modulo 2^64, and all rows but the last are full |
| ArgOptions.SucceedsIff | arg/arg.cpp:173-199 | an option succeeds exactly when its value fits and converts, its set-once variable is untouched and its callback agrees; then the new state is as given |
| ArgOptions.FailsWith | arg/arg.cpp:173-199 | which error comes first, and what an error leaves: a value that does not fit or convert changes nothing, a touched set-once variable comes after the value is stored, a failing callback after value and variable |
| ArgOptions.Targets.Process | arg/arg.cpp:173-199 | both overloads have the effects of `Processed`, also when they stop in the middle |
| ArgOptions.FindOption | arg/arg.cpp:263-275 | the first option with the name or key |
| ArgOptions.FirstIs | arg/arg.cpp:263-275 | that is the first one whose key, or name, equals the one looked for |
| ArgOptions.PositionalsInOrder | arg/arg.cpp:245-247 | a run without error keeps every positional argument, in order |
| ArgOptions.RunConcat | arg/arg.cpp:243-298 | a run can be cut anywhere; behind an error nothing is run |
| ArgOptions.SetAtMostOnce | arg/arg.cpp:179-182 | over a whole run without error a set-once variable is set at most once, and not at all if it was changed before |
| ArgParser.Parser.ParseLong | arg/arg.cpp:249-271 | a long token has the effect of its command, which for unknown names is in `ArgErrors.UnknownLongScanned` |
| ArgParser.Parser.ParseShort | arg/arg.cpp:273-297 | a short token has the effects of its commands, in order, and advances past the token taken as a value |
| ArgParser.Parser.ParseValue | arg/arg.cpp:285-295 | the value is the rest of the token, the next token, or missing |
| ArgParser.Parser.Parse | arg/arg.cpp:240-299 | parsing runs the commands of the line on a cleared argument list, up to the first error (`ArgErrors` says where that is) |
| ArgParser.Cut | arg/arg.cpp:243-298 | a line cut anywhere is the commands in front of the cut, then what the option waiting there makes of the rest |
| ArgParser.CutsCleanlyIff | arg/arg.cpp:291-294 | the halves of a line can be parsed separately exactly when no option waits at the cut, or nothing follows |
| ArgTheorems.GroupingIff | arg/arg.cpp:272-284 | `-abc` in place of `-a -b -c`, at any position, gives the same commands exactly when no option in front takes the token as its value |
| ArgTheorems.AttachingIff | arg/arg.cpp:285-295 | `-ov` in place of `-o v`, also behind grouped options, gives the same commands exactly when the value is required and no option in front takes the token |
| ArgTheorems.GroupingCanChangeMeaning | arg/arg.cpp:291-294 | `-o -ab` differs from `-o -a -b` when `o` requires a value |
| ArgTheorems.AttachingCanChangeMeaning | arg/arg.cpp:285-293 | `-vx` differs from `-v x` when the value of `v` is optional |
| ArgTheorems.LongFlagScannedIff | arg/arg.cpp:253-260 | a long option is found under its name exactly when the name has no equals sign |
| ArgTheorems.LongValueScannedIff | arg/arg.cpp:253-257 | likewise with a value, which may hold equals signs |
| ArgTheorems.RenderRoundTrip | arg/arg.cpp:240-299 | parsing a canonical rendering of flags, values, groups and words dispatches exactly what was rendered, in order |
| ArgErrors.KeyOfIs | arg/arg.cpp:275 | a key is compared with a signed char |
| ArgErrors.WordScanned | arg/arg.cpp:245-247 | what does not start with a minus sign is a word, the empty token too; a minus sign alone is nothing |
| ArgErrors.UnknownLongScanned | arg/arg.cpp:249-270 | a long option with a name that no option has is unknown under that name, with or without a value, or nothing if those are ignored |
| ArgErrors.UnknownShortScanned | arg/arg.cpp:273-279 | behind value-less options an unknown key is reported with its minus sign, or ends its token if those are ignored |
| ArgErrors.KeysAre | arg/arg.cpp:273-284 | grouped keys mean one command each, in order, of the first option that has the key |
| ArgErrors.KeyedIs | arg/arg.cpp:274-275 | a key is that of the first option that has it |
| ArgErrors.UnknownLongEnds | arg/arg.cpp:269-270 | an unknown long option ends the line with its name: what stands in front was done, whatever stands behind is not |
| ArgErrors.UnknownShortEnds | arg/arg.cpp:276-278 | so does an unknown key, behind the options in its own token |
| ArgErrors.IgnoredLong | arg/arg.cpp:269-270 | if unknown options are ignored, a line with an unknown long one is the line without it |
| ArgErrors.MissingAtEnd | arg/arg.cpp:291-293 | `-o` as the last token, where `o` needs a value, ends in a missing value |
| ArgErrors.LongValueErrors | arg/arg.cpp:263-267 | `--name` without the value it needs, and `--name=v` with a value it does not take, end the line |
| ArgErrors.ProgramNameSkipped | arg/arg.cpp:243 | the program name is not parsed |
| SubParser.FieldReadsIff | arg/arg.cpp:425-438 | a field reads as itself exactly when no equals sign is in its value, or in its name if it has no value |
| SubParser.JoinRoundTripIff | arg/arg.cpp:418-444 | fields joined with separators are read back exactly when every field is non-empty, with no separator behind its first character and no stray equals sign |
| SubParser.StrayEqualsIsMisread | arg/arg.cpp:425-438 | `a` with value `b=c` is read as `a=b` with value `c` |
| SubParser.EmptyFieldIsMisread | arg/arg.cpp:424-443 | an empty field in front is read into the next one |
| SubParser.ScanRoundTrip | arg/arg.cpp:424-443 | in the other direction only a separator at the end of the string is lost |
| SubParser.SubParser.Set | arg/arg.cpp:418-444 | setting a value processes its fields in order, up to the first error |
| SubParser.SubParser.ProcessField | arg/arg.cpp:427-438 | the positions kept by the scanner cut the field at its last equals sign |
| SubParser.RunField | arg/arg.cpp:430-438 | a field is given to the first option with its name, with its value or without; with no such option it is unknown, and nothing behind an error is processed |

## Left out

- RingProgress.NoLostWakeups: fairness and scheduling are not modelled; it says which states are final, not that a run reaches one.
- RingTheorems.NoAssertFires: clients that hand a slot back twice, or one they never got, break the contract of the source and are not modelled.
- ProducerConsumer.ProducerConsumer.Produce: runs without other threads, so a wait on a semaphore at zero is reported as a call that never ends; the threads are in `RingProtocol`.
- ArgOptions.Targets.Process: conversion of a string by a stored value, and the answers of callbacks, are parameters of the model; the stored value is the string converted last.
- PrintfToStream.PrintfToStream.Printi: the most negative 64-bit number in signed decimal is excluded, since negating it overflows.
- PrintfToStream.PrintfToStream.Vprintf: formats that end behind the modifiers of a directive, where the source reads past the NUL, formats with `%f`, widths or counts beyond an int, and calls with more arguments than the format uses are excluded.
- Hexdump.HexdumpToByteStream: lengths above 0xFFFFFFF0 are excluded, as the loop does not end for them; printable characters are those of the C locale.
- SelectLoop.Dispatcher.WaitOn: the size of an fd_set is not modelled; a handler with a negative descriptor in the second pass is not ready, where the source would read outside the set.
- HandlerChain.FdSelectHandler.AddTo: adding a handler that is in a chain already is excluded; the source does not undo the old links.
- A handler that destroys a neighbour during execute; a handler may remove itself.
- The slirp-to-uml direction: `src/SlirpHandler.cpp:41-48` works on a copy of the slot and `src/umlplug/UmlNetworkSocketPlug.cpp:90-91` on a packet that is never set, so nothing is forwarded as intended.
- `%f` (`dbl2stri`): floating point.
- The 12-character print buffer of 32-bit machines.
- `src/Util/PosixSemaphore.cpp`: semaphores are counters; leaving the process on errors is not modelled.
- Streams that accept only part of what is written: the stream of the formatter is an append-only text.
- Help and version texts, `arg/val.cpp`, and adding and removing options: searches and text without further properties.
- `src/umlplug/daemon_user.c`, `src/Util/FdIoStream.cpp` and the slirp library: system calls and foreign code; their results are parameters.
